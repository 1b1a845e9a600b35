/** The LRU crawlers: one crawler item per list, started and moved in place. */
module Crawlers {
  import opened Common
  import opened Lists
  import L = LruLists
  import opened Items
  import opened CrawlerItems
  import opened ItemCache
  import opened Crawling

  lemma {:induction false} AllReal(ids: seq<nat>)
    requires forall x :: x in ids ==> IsReal(x)
    ensures Count(ids) == |ids|
  {
    if ids != [] {
      assert ids[0] in ids;
      AllReal(ids[1..]);
    }
  }

  lemma OnlyReals(lists: seq<seq<nat>>, cls: map<nat, nat>, linked: set<nat>, c: nat)
    requires OneList(lists, cls, linked) && c < LISTS && c !in lists[c]
    ensures |lists| == LISTS && Nowhere(lists, c) && forall x :: x in lists[c] ==> IsReal(x)
  {
    assert !IsReal(c);
  }

  /** While its crawler is away, a list's size is its length. */
  lemma SizeIsLength(s: Cache, c: nat)
    requires Inv(s) && c < LISTS && c !in s.lists[c]
    ensures s.sizes[c] == |s.lists[c]| && Nowhere(s.lists, c)
  {
    hide OneList, TableOk, RefsOk, FieldsOk, TotalsOk, Count, Weigh, Nowhere;
    OnlyReals(s.lists, s.cls, s.linked, c);
    AllReal(s.lists[c]);
  }

  function Tally(flags: seq<bool>): nat {
    if flags == [] then 0 else (if flags[0] then 1 else 0) + Tally(flags[1..])
  }

  lemma {:induction false} TallyUpdate(flags: seq<bool>, i: nat, v: bool)
    requires i < |flags|
    ensures Tally(flags[i := v]) as int == Tally(flags) - (if flags[i] then 1 else 0) + (if v then 1 else 0)
  {
    if i == 0 {
      assert flags[0 := v][1..] == flags[1..];
    } else {
      assert flags[i := v][1..] == flags[1..][i - 1 := v];
      TallyUpdate(flags[1..], i - 1, v);
    }
  }

  lemma {:induction false} TallyNone(n: nat)
    ensures Tally(seq(n, i => false)) == 0
  {
    if n > 0 {
      assert seq(n, i => false)[1..] == seq(n - 1, i => false);
      TallyNone(n - 1);
    }
  }

  /** The three ways a turn can go. */
  lemma SwingShape(w: Walk, c: nat)
    requires !w.done
    ensures w.ahead == [] ==> Swing(w) == w.(done := true)
    ensures w.ahead != [] ==>
              var v := Swing(w);
              var front, x := w.ahead[..|w.ahead| - 1], w.ahead[|w.ahead| - 1];
              && v.ahead == front && v.behind == [x] + w.behind
              && v.done == (w.remaining == 1)
              && v.remaining == (if w.remaining == 0 then 0 else w.remaining - 1)
              && v.handed == (if v.done then w.handed else w.handed + [x])
  {
  }

  /** A crawler is enabled exactly while it is in its list. */
  ghost predicate Running(enabled: seq<bool>, lists: seq<seq<nat>>) {
    |enabled| == |lists| && forall i :: 0 <= i < |lists| ==> (enabled[i] <==> i in lists[i])
  }

  lemma RunningUpdate(enabled: seq<bool>, lists: seq<seq<nat>>, c: nat, ids: seq<nat>)
    requires Running(enabled, lists) && c < |lists|
    ensures Running(enabled[c := c in ids], lists[c := ids])
  {
  }

  class CrawlerSet {
    const store: ItemStore
    var enabled: seq<bool>
    var remaining: seq<nat>
    var count: nat

    ghost predicate Valid()
      reads this, store
    {
      && store.Valid()
      && |enabled| == |remaining| == LISTS
      && count == Tally(enabled)
      && Running(enabled, store.lists)
    }

    constructor (store: ItemStore)
      requires store.Valid() && forall i :: 0 <= i < LISTS ==> i !in store.lists[i]
      ensures Valid() && this.store == store && forall i :: 0 <= i < LISTS ==> !enabled[i]
    {
      this.store := store;
      enabled := seq(LISTS, i => false);
      remaining := seq(LISTS, i => 0);
      count := 0;
      TallyNone(LISTS);
    }

    /** Writes back list `c` after its crawler has moved. */
    method Put(c: nat, q: L.Queue, ghost ids: seq<nat>)
      requires store.Valid() && c < LISTS && c < |store.lists| && q.Is(ids) && Inv(SetList(store.View(), c, ids))
      requires L.Outside(store.links, q.links, ids)
      requires forall x :: x in ids ==> x in store.lists[c] || Nowhere(store.lists, x)
      modifies store
      ensures store.Valid() && store.View() == SetList(old(store.View()), c, ids)
      ensures |store.heads| == |store.tails| == LISTS
      ensures L.Queue(store.links, store.heads[c], store.tails[c]) == q
    {
      hide Inv, Threaded, Disjoint, L.Queue.Is, L.Outside;
      InvDisjoint(store.View());
      AtList(store.links, store.heads, store.tails, store.lists, c);
      Rewire(store.links, store.heads, store.tails, store.lists, c, q, ids);
      store.links := q.links;
      store.heads, store.tails := store.heads[c := q.head], store.tails[c := q.tail];
      store.lists := store.lists[c := ids];
    }

    /** Puts the crawler of list `c` behind it. */
    method LinkTail(c: nat)
      requires store.Valid() && c < LISTS && c !in store.lists[c]
      modifies store
      ensures store.Valid() && store.View() == SetList(old(store.View()), c, old(store.lists[c]) + [c])
    {
      hide Inv, Threaded, Disjoint, L.Queue.Is, L.Outside;
      ghost var s := store.View();
      InvDisjoint(s);
      ghost var ids := store.lists[c];
      SizeIsLength(s, c);
      assert ids == ids + [] && ids + [c] == ids + [c] + [];
      CrawlerIsNoItem(s, c, ids, [], false, ids, [], true);
      AtList(store.links, store.heads, store.tails, store.lists, c);
      var q := L.LinkTail(L.Queue(store.links, store.heads[c], store.tails[c]), c, ids);
      Put(c, q, ids + [c]);
    }

    /** Moves the crawler over the item in front of it, or pops it off the front. */
    method CrawlQ(c: nat, ghost a: seq<nat>, ghost b: seq<nat>) returns (found: Ptr)
      requires store.Valid() && c < LISTS && store.lists[c] == a + [c] + b
      modifies store
      ensures store.Valid() && found == L.Last(a, None)
      ensures found.Some? ==> store.View() == SetList(old(store.View()), c, a[..|a| - 1] + [c] + ([a[|a| - 1]] + b))
      ensures found.None? && b == [] ==> store.View() == old(store.View())
      ensures found.None? && b != [] ==>
                && store.View() == SetList(old(store.View()), c, b)
                && c < |store.heads| == |store.tails|
                && L.Popped(L.Queue(store.links, store.heads[c], store.tails[c]), c, b)
    {
      hide Inv, Threaded, Disjoint, L.Queue.Is, L.Outside, NoDup;
      ghost var s := store.View();
      InvDisjoint(s);
      CrawlerApart(s, c, a, b);
      AtList(store.links, store.heads, store.tails, store.lists, c);
      var q;
      q, found := L.Crawl(L.Queue(store.links, store.heads[c], store.tails[c]), c, a, b);
      ghost var ids := store.lists[c];
      if found.Some? {
        ghost var front, x := a[..|a| - 1], a[|a| - 1];
        ids := front + [c] + ([x] + b);
        assert front + [c, x] + b == ids;
        assert a + b == front + ([x] + b);
        CrawlerIsNoItem(s, c, a, b, true, front, [x] + b, true);
        OutsideMore(store.links, q.links, a + [c] + b, ids);
      } else if b != [] {
        ids := b;
        assert a + b == b && [] + b == b;
        CrawlerIsNoItem(s, c, a, b, true, [], b, false);
      } else {
        OutsideSelf(store.links, ids);
        assert SetList(s, c, ids) == s;
      }
      Put(c, q, ids);
    }

    /** Takes the crawler out of its list, if it is still in it. */
    method UnlinkTail(c: nat, ghost a: seq<nat>, ghost b: seq<nat>)
      requires store.Valid() && c < LISTS && |store.heads| == |store.tails| == |store.lists| == LISTS
      requires store.lists[c] == a + [c] + b ||
               (a == [] && store.lists[c] == b && L.Popped(L.Queue(store.links, store.heads[c], store.tails[c]), c, b))
      modifies store
      ensures store.Valid() && store.View() == SetList(old(store.View()), c, a + b) && c !in a + b
    {
      hide Inv, Threaded, Disjoint, L.Queue.Is, L.Outside, NoDup;
      ghost var s := store.View();
      InvDisjoint(s);
      AtList(store.links, store.heads, store.tails, store.lists, c);
      if store.lists[c] == a + [c] + b {
        CrawlerApart(s, c, a, b);
        CrawlerIsNoItem(s, c, a, b, true, a, b, false);
      } else {
        assert a + b == b;
        CrawlerIsNoItem(s, c, a, b, false, a, b, false);
      }
      var q := L.Unlink(L.Queue(store.links, store.heads[c], store.tails[c]), c, a, b);
      Put(c, q, a + b);
    }

    ghost predicate Others(before: seq<bool>, c: nat)
      reads this
    {
      |enabled| == |before| && forall i :: 0 <= i < |before| && i != c ==> enabled[i] == before[i]
    }

    /** `do_lru_crawler_start`: a crawl begins unless one is under way in that list. */
    method Start(c: nat, asked: nat) returns (starts: nat)
      requires Valid() && c < LISTS
      modifies this, store
      ensures Valid() && Others(old(enabled), c) && enabled[c]
      ensures old(enabled)[c] ==> starts == 0 && store.View() == old(store.View()) && remaining == old(remaining)
      ensures !old(enabled)[c] ==>
                var w := Crawling.Start(old(store.lists[c]), asked);
                && starts == 1 && remaining == old(remaining)[c := w.remaining]
                && store.View() == SetList(old(store.View()), c, w.Linked(c))
    {
      hide Inv, Threaded;
      starts := 0;
      InvDisjoint(store.View());
      if !enabled[c] {
        SizeIsLength(store.View(), c);
        ghost var w := Crawling.Start(store.lists[c], asked);
        assert w.Linked(c) == store.lists[c] + [c];
        RunningUpdate(enabled, store.lists, c, w.Linked(c));
        TallyUpdate(enabled, c, true);
        enabled := enabled[c := true];
        var left := asked;
        if left == CAP_REMAINING {
          left := store.sizes[c];
        }
        if left != 0 {
          left := left + 1;
        }
        remaining := remaining[c := left];
        LinkTail(c);
        count := count + 1;
        starts := starts + 1;
      }
    }

    /** One turn of the crawler thread at list `c`: an item to look at, unless the crawl is over. */
    method Turn(c: nat, ghost w: Walk) returns (item: Ptr)
      requires Valid() && c < LISTS && enabled[c]
      requires !w.done && store.lists[c] == w.Linked(c) && remaining[c] == w.remaining
      modifies this, store
      ensures Valid() && Others(old(enabled), c)
      ensures var v := Swing(w);
              && store.View() == SetList(old(store.View()), c, v.Linked(c))
              && enabled[c] == !v.done
              && remaining == old(remaining)[c := v.remaining]
              && v.handed == w.handed + (if item.Some? then [item.value] else [])
    {
      hide Inv, Threaded, Swing, Tally, L.Popped, L.Queue.Is, Running;
      SwingShape(w, c);
      InvDisjoint(store.View());
      ghost var v := Swing(w);
      RunningUpdate(enabled, store.lists, c, v.Linked(c));
      SetTwice(store.View(), c, v.ahead + [c] + v.behind, v.Linked(c));
      SetTwice(store.View(), c, w.behind, [] + w.behind);
      var search := CrawlQ(c, w.ahead, w.behind);
      if search.None? {
        Ends(c);
        Done(c, [], w.behind);
        return None;
      }
      var left := remaining[c];
      if left != 0 {
        left := left - 1;
        remaining := remaining[c := left];
        if left < 1 {
          Ends(c);
          Done(c, v.ahead, v.behind);
          return None;
        }
      }
      assert remaining == old(remaining)[c := left];
      assert c in v.Linked(c) && enabled == enabled[c := true];
      return search;
    }

    lemma Ends(c: nat)
      requires store.Valid()
      ensures |store.heads| == |store.tails| == |store.lists| == LISTS
    {
      hide Inv;
      InvDisjoint(store.View());
    }

    /** `lru_crawler_class_done`. */
    method Done(c: nat, ghost a: seq<nat>, ghost b: seq<nat>)
      requires store.Valid() && c < LISTS && |enabled| == LISTS && enabled[c] && count == Tally(enabled)
      requires |store.heads| == |store.tails| == |store.lists| == LISTS
      requires store.lists[c] == a + [c] + b ||
               (a == [] && store.lists[c] == b && L.Popped(L.Queue(store.links, store.heads[c], store.tails[c]), c, b))
      modifies store, this`enabled, this`count
      ensures store.Valid() && store.View() == SetList(old(store.View()), c, a + b) && c !in a + b
      ensures enabled == old(enabled)[c := false] && count == Tally(enabled)
    {
      hide store.Valid;
      TallyUpdate(enabled, c, false);
      enabled := enabled[c := false];
      count := count - 1;
      UnlinkTail(c, a, b);
    }
  }

  /** Items linked and unlinked by others reach the list as they reach the walk. */
  lemma OthersAreEvents(w: Walk, c: nat, x: nat)
    requires x != c
    ensures [x] + w.Linked(c) == Next(w, Link(x)).Linked(c)
    ensures Without(w.Linked(c), x) == Next(w, Unlink(x)).Linked(c)
  {
    hide Without;
    WithoutConcat(w.ahead, w.behind, x);
    WithoutConcat(w.ahead, [c], x);
    WithoutConcat(w.ahead + [c], w.behind, x);
    WithoutAbsent([c], x);
  }

  lemma OutsideSelf(k: L.Links, ids: seq<nat>)
    ensures L.Outside(k, k, ids)
  {
  }

  lemma OutsideMore(k: L.Links, k1: L.Links, ids: seq<nat>, more: seq<nat>)
    requires L.Outside(k, k1, ids) && forall x :: x in ids ==> x in more
    ensures L.Outside(k, k1, more)
  {
  }
}
