/** The item layer as an object: list heads and tails, links and counters changed in place. */
module ItemCache {
  import opened Common
  import opened Lists
  import L = LruLists
  import opened Items
  import opened ItemPull
  import opened ItemPullSeen
  import ItemRuns

  /** Every list is a well-formed doubly linked list of the given items. */
  ghost predicate Threaded(links: L.Links, heads: seq<Ptr>, tails: seq<Ptr>, lists: seq<seq<nat>>) {
    && |heads| == |tails| == |lists|
    && forall i :: 0 <= i < |lists| ==> L.Queue(links, heads[i], tails[i]).Is(lists[i])
  }

  ghost predicate Disjoint(lists: seq<seq<nat>>) {
    forall i, j :: 0 <= i < |lists| && 0 <= j < |lists| && i != j ==> L.Apart(lists[i], lists[j])
  }

  lemma ListsDisjoint(lists: seq<seq<nat>>, cls: map<nat, nat>, linked: set<nat>)
    requires OneList(lists, cls, linked)
    ensures Disjoint(lists)
  {
    forall i, j | 0 <= i < |lists| && 0 <= j < |lists| && i != j ensures L.Apart(lists[i], lists[j]) {
      forall x | x in lists[i] ensures x !in lists[j] {
        if IsReal(x) {
          assert cls[x] == i;
        }
      }
    }
  }

  /** Changing one list, and only links of items that are in no other list. */
  lemma Rethread(links: L.Links, heads: seq<Ptr>, tails: seq<Ptr>, lists: seq<seq<nat>>,
                 c: nat, q: L.Queue, ids: seq<nat>, touched: seq<nat>)
    requires Threaded(links, heads, tails, lists) && c < |lists| && q.Is(ids)
    requires L.Outside(links, q.links, touched)
    requires forall i :: 0 <= i < |lists| && i != c ==> L.Apart(lists[i], touched)
    ensures Threaded(q.links, heads[c := q.head], tails[c := q.tail], lists[c := ids])
  {
    forall i | 0 <= i < |lists| && i != c ensures L.Queue(q.links, heads[i], tails[i]).Is(lists[i]) {
      hide L.Seg;
      assert L.Queue(links, heads[i], tails[i]).Is(lists[i]);
      L.SegFrame(links, q.links, lists[i], None, None);
    }
  }

  /** The new list may take in items that are in no list. */
  lemma Rewire(links: L.Links, heads: seq<Ptr>, tails: seq<Ptr>, lists: seq<seq<nat>>,
               c: nat, q: L.Queue, ids: seq<nat>)
    requires Threaded(links, heads, tails, lists) && Disjoint(lists) && c < |lists| && q.Is(ids)
    requires L.Outside(links, q.links, ids)
    requires forall x :: x in ids ==> x in lists[c] || Nowhere(lists, x)
    ensures Threaded(q.links, heads[c := q.head], tails[c := q.tail], lists[c := ids])
    ensures Disjoint(lists[c := ids])
  {
    forall i | 0 <= i < |lists| && i != c ensures L.Apart(lists[i], ids) && L.Apart(ids, lists[i]) {
      assert L.Apart(lists[i], lists[c]);
    }
    Rethread(links, heads, tails, lists, c, q, ids, ids);
  }

  lemma AtList(links: L.Links, heads: seq<Ptr>, tails: seq<Ptr>, lists: seq<seq<nat>>, c: nat)
    requires Threaded(links, heads, tails, lists) && c < |lists|
    ensures |heads| == |tails| == |lists| && L.Queue(links, heads[c], tails[c]).Is(lists[c]) && NoDup(lists[c])
  {
  }

  lemma Gone(lists: seq<seq<nat>>, c: nat, ids: seq<nat>, x: nat)
    requires Disjoint(lists) && c < |lists| && x in lists[c] && x !in ids
    ensures Nowhere(lists[c := ids], x)
  {
    assert forall i :: 0 <= i < |lists| && i != c ==> L.Apart(lists[c], lists[i]);
  }

  lemma Split(ids: seq<nat>, x: nat) returns (a: seq<nat>, b: seq<nat>)
    requires NoDup(ids) && x in ids
    ensures ids == a + [x] + b && Without(ids, x) == a + b && x !in a + b
  {
    var k :| 0 <= k < |ids| && ids[k] == x;
    a, b := ids[..k], ids[k + 1..];
    SplitAt(ids, k);
  }

  lemma UnlinkedNowhere(s: Cache, it: nat)
    requires Inv(s) && it in s.refs && it !in s.linked
    ensures Nowhere(s.lists, it)
  {
    LinkFits(s, it);
  }

  lemma LinkedSomewhere(s: Cache, it: nat)
    requires Inv(s) && it in s.linked
    ensures it in s.cls && s.cls[it] < |s.lists| && it in s.lists[s.cls[it]]
  {
  }

  lemma InvDisjoint(s: Cache)
    requires Inv(s)
    ensures Disjoint(s.lists) && |s.lists| == |s.sizes| == |s.bytes| == LISTS
  {
    ListsDisjoint(s.lists, s.cls, s.linked);
  }

  function Place(ids: seq<nat>, k: int): Ptr {
    if 0 <= k < |ids| then Some(ids[k]) else None
  }

  /** From an item of a list, its link leads to the one before. */
  lemma PrevAt(links: L.Links, heads: seq<Ptr>, tails: seq<Ptr>, lists: seq<seq<nat>>, c: nat, k: nat)
    requires Threaded(links, heads, tails, lists) && c < |lists| && k < |lists[c]|
    ensures lists[c][k] in links.prev && links.prev[lists[c][k]] == Place(lists[c], k - 1)
  {
    AtList(links, heads, tails, lists, c);
    var ids := lists[c];
    assert ids == ids[..k] + [ids[k]] + ids[k + 1..];
    L.Around(links, ids[..k], ids[k], ids[k + 1..]);
  }

  lemma TailAt(links: L.Links, heads: seq<Ptr>, tails: seq<Ptr>, lists: seq<seq<nat>>, c: nat)
    requires Threaded(links, heads, tails, lists) && c < |lists|
    ensures |tails| == |lists| && tails[c] == Place(lists[c], |lists[c]| - 1)
  {
    AtList(links, heads, tails, lists, c);
  }

  /** The item before place `k` is still before it once the item there is gone; and it has moved up
      by one if that item was put in front. */
  lemma BeforeGone(ids: seq<nat>, k: nat)
    requires NoDup(ids) && k < |ids|
    ensures Place(Without(ids, ids[k]), k - 1) == Place(ids, k - 1)
    ensures k > 0 ==> Place([ids[k]] + Without(ids, ids[k]), k) == Place(ids, k - 1)
    ensures |Without(ids, ids[k])| == |ids| - 1
  {
    SplitAt(ids, k);
  }

  class ItemStore {
    var links: L.Links
    var heads: seq<Ptr>
    var tails: seq<Ptr>
    var cls: map<nat, nat>
    var key: map<nat, Key>
    var weight: map<nat, nat>
    var linked: set<nat>
    var active: set<nat>
    var refs: map<nat, nat>
    var table: map<Key, nat>
    var sizes: seq<nat>
    var bytes: seq<nat>
    var currItems: nat
    var locks: set<nat>
    ghost var lists: seq<seq<nat>>

    ghost function View(): Cache
      reads this
    {
      Cache(lists, cls, key, weight, linked, active, refs, table, sizes, bytes, currItems, locks)
    }

    ghost predicate Wired()
      reads this
    {
      Threaded(links, heads, tails, lists) && Disjoint(lists) && |lists| == |sizes| == |bytes|
    }

    ghost predicate Valid()
      reads this
    {
      Threaded(links, heads, tails, lists) && Inv(View())
    }

    constructor ()
      ensures Valid() && View() == ItemRuns.Empty().s
    {
      links, heads, tails := L.Links(map[], map[]), seq(LISTS, i => None), seq(LISTS, i => None);
      cls, key, weight, refs, table := map[], map[], map[], map[], map[];
      linked, active, locks := {}, {}, {};
      sizes, bytes, currItems := seq(LISTS, i => 0), seq(LISTS, i => 0), 0;
      lists := seq(LISTS, i => []);
      new;
      ItemRuns.EmptyIsGood();
      assert View() == ItemRuns.Empty().s;
    }

    method LinkQ(it: nat)
      requires Wired() && it in cls && it in weight && cls[it] < |lists| && Nowhere(lists, it)
      modifies this
      ensures Wired() && View() == Items.LinkQ(old(View()), it)
    {
      hide L.Queue.Is, Disjoint, Threaded, L.Outside;
      var c := cls[it];
      ghost var ids := lists[c];
      AtList(links, heads, tails, lists, c);
      var q := L.LinkHead(L.Queue(links, heads[c], tails[c]), it, ids);
      Rewire(links, heads, tails, lists, c, q, [it] + ids);
      links, heads, tails := q.links, heads[c := q.head], tails[c := q.tail];
      sizes := sizes[c := sizes[c] + 1];
      bytes := bytes[c := bytes[c] + weight[it]];
      lists := lists[c := [it] + ids];
    }

    method UnlinkQ(it: nat)
      requires Wired() && it in cls && it in weight && cls[it] < |lists| && it in lists[cls[it]]
      requires sizes[cls[it]] > 0 && bytes[cls[it]] >= weight[it]
      modifies this
      ensures Wired() && View() == Items.UnlinkQ(old(View()), it) && Nowhere(lists, it)
    {
      hide L.Queue.Is, Disjoint, Threaded, L.Outside, NoDup, Without;
      var c := cls[it];
      ghost var ids := lists[c];
      AtList(links, heads, tails, lists, c);
      ghost var a, b := Split(ids, it);
      var q := L.Unlink(L.Queue(links, heads[c], tails[c]), it, a, b);
      Rewire(links, heads, tails, lists, c, q, a + b);
      Gone(lists, c, a + b, it);
      links, heads, tails := q.links, heads[c := q.head], tails[c := q.tail];
      sizes := sizes[c := sizes[c] - 1];
      bytes := bytes[c := bytes[c] - weight[it]];
      lists := lists[c := a + b];
    }

    /** `do_item_link`. */
    method Link(it: nat)
      requires Valid() && it in refs && it !in linked && key[it] !in table
      modifies this
      ensures Valid() && View() == Items.Link(old(View()), it)
    {
      hide Inv, Threaded, Disjoint;
      InvDisjoint(View());
      LinkFits(View(), it);
      UnlinkedNowhere(View(), it);
      LinkKeeps(View(), it);
      linked := linked + {it};
      currItems := currItems + 1;
      table := table[key[it] := it];
      LinkQ(it);
      refs := refs[it := refs[it] + 1];
    }

    /** `do_item_remove`. */
    method Release(it: nat)
      requires it in refs && refs[it] > 0
      modifies this`refs
      ensures View() == Items.Remove(old(View()), it)
    {
      if refs[it] == 1 {
        refs := refs - {it};
      } else {
        refs := refs[it := refs[it] - 1];
      }
    }

    /** `do_item_unlink`. */
    method Unlink(it: nat)
      requires Valid() && it in refs
      modifies this
      ensures Valid() && View() == Items.Unlink(old(View()), it)
    {
      hide Inv, Threaded, Disjoint;
      UnlinkKeeps(View(), it);
      if it in linked {
        InvDisjoint(View());
        UnlinkFits(View(), it);
        LinkedSomewhere(View(), it);
        linked := linked - {it};
        currItems := currItems - 1;
        table := table - {key[it]};
        UnlinkQ(it);
        Release(it);
      }
    }

    /** Takes a linked item out of its list and puts it in front of another one. */
    method Move(it: nat, to: nat)
      requires Valid() && it in linked && to < LISTS
      modifies this
      ensures Valid() && View() == Items.Move(old(View()), it, to)
    {
      hide Inv, Threaded, Disjoint;
      MoveKeeps(View(), it, to);
      InvDisjoint(View());
      UnlinkFits(View(), it);
      LinkedSomewhere(View(), it);
      UnlinkQ(it);
      cls := cls[it := to];
      LinkQ(it);
    }

    /** `do_item_update`. */
    method Update(it: nat, segmented: bool, idle: bool)
      requires Valid() && it in refs
      modifies this
      ensures Valid() && View() == Items.Update(old(View()), it, segmented, idle)
    {
      hide Inv, Threaded, Disjoint, Items.Move;
      UpdateKeeps(View(), it, segmented, idle);
      LinkFits(View(), it);
      if segmented {
        if it in linked {
          if Segment(cls[it]) == COLD && it in active {
            MoveShape(View(), it, Class(cls[it]) + WARM);
            Move(it, Class(cls[it]) + WARM);
            active := active - {it};
          }
        }
      } else if idle {
        if it in linked {
          Move(it, cls[it]);
        }
      }
    }

    /** Locks an item that nobody has locked, and takes a reference to it. */
    method Hold(it: nat, a: Ask)
      requires it in refs && it in key
      modifies this`locks, this`refs
      ensures View() == ItemPull.Hold(old(View()), a, it)
    {
      locks := locks + {a.stripe(key[it])};
      refs := refs[it := refs[it] + 1];
    }

    method Drop(it: nat, a: Ask)
      requires it in refs && refs[it] > 0 && it in key
      modifies this`locks, this`refs
      ensures View() == ItemPull.Drop(old(View()), a, it)
    {
      Release(it);
      locks := locks - {a.stripe(key[it])};
    }

    /** Frees an expired item that is held. */
    method Reclaim(it: nat, a: Ask, ghost s: Cache)
      requires Inv(s) && Pulls(s, a, it) && it in a.expired
      requires it in s.refs && View() == ItemPull.Hold(s, a, it)
      requires Threaded(links, heads, tails, lists)
      modifies this
      ensures Valid() && View() == Reclaimed(s, a, it)
    {
      hide OneList, TableOk, CountsOk, FieldsOk, TotalsOk, RefsOk, Threaded, Items.Unlink;
      HoldKeeps(s, a, it);
      HeldMore(s, View(), it);
      UnlinkHeld(View(), it);
      UnlinkShape(View(), it);
      ReclaimedIsFair(s, a, it);
      Unlink(it);
      Drop(it, a);
    }

    /** Puts a held active item back in front of its WARM list. */
    method Rescue(it: nat, a: Ask, ghost s: Cache)
      requires Inv(s) && Pulls(s, a, it)
      requires it in s.refs && View() == ItemPull.Hold(s, a, it)
      requires Threaded(links, heads, tails, lists)
      modifies this
      ensures Valid() && View() == Rescued(s, a, it)
    {
      hide OneList, TableOk, CountsOk, FieldsOk, TotalsOk, RefsOk, Threaded, Items.Move;
      HoldKeeps(s, a, it);
      RescuedIsFair(s, a, it);
      ClassOf(a);
      active := active - {it};
      MoveKeeps(View(), it, List(a));
      MoveShape(View(), it, List(a));
      Move(it, List(a));
      Drop(it, a);
    }

    /** Which way an item goes. */
    method Decide(it: nat, a: Ask) returns (fate: Fate)
      requires List(a) < |bytes|
      ensures fate == FateOf(View(), a, it)
    {
      fate := Stay;
      var limit := 0;
      if a.segment == HOT || a.segment == WARM {
        if a.segment == HOT {
          limit := a.totalBytes * a.hotPct / 100;
        }
        if limit == 0 {
          limit := a.totalBytes * a.warmPct / 100;
        }
        if it in active {
          fate := MoveTo(WARM);
        } else if bytes[List(a)] > limit || it in a.aged {
          fate := MoveTo(COLD);
        }
      } else if a.segment == COLD {
        if a.evict {
          if a.evictToFree {
            fate := Evict;
          }
        } else if a.returnItem {
          fate := Return;
        } else if it in active && a.segmented {
          fate := MoveTo(WARM);
        }
      }
    }

    /** Does to the held item at which the search ended what is due to it. */
    method Settle(it: nat, a: Ask, ghost s: Cache) returns (removed: nat, ret: Ptr)
      requires Inv(s) && Pulls(s, a, it)
      requires it in s.refs && View() == ItemPull.Hold(s, a, it)
      requires Threaded(links, heads, tails, lists)
      modifies this
      ensures Valid()
      ensures forall r: nat, seen :: Finish(s, a, it, r, seen) == Pulled(View(), r + removed, Some(it), ret, seen)
    {
      hide OneList, TableOk, CountsOk, FieldsOk, TotalsOk, RefsOk, Threaded, Items.Move, Items.Unlink, FateOf;
      hide SameExtra;
      HoldKeeps(s, a, it);
      LinkFits(s, it);
      ClassOf(a);
      SettledKeeps(s, a, it);
      SettledShape(s, a, it);
      FinishIsFair(s, a, it, 0, []);
      removed, ret := 0, None;
      var fate := Decide(it, a);
      SameFate(s, View(), a, it);
      match fate {
        case MoveTo(segment) =>
          active := active - {it};
          Move(it, a.class_ + segment);
          removed := 1;
        case Evict =>
          Unlink(it);
          removed := 1;
        case Return =>
          ret := Some(it);
        case Stay =>
      }
      assert View() == Settled(s, a, it);
      if !a.returnItem {
        Drop(it, a);
      }
    }

    /** Works on an item whose lock was free.  The search goes on past one that has expired or is rescued. */
    method WorkOn(x: nat, a: Ask) returns (goesOn: bool, removed: nat, ret: Ptr)
      requires Valid() && Pulls(View(), a, x)
      modifies this
      ensures Valid()
      ensures goesOn <==> x in a.expired || (a.segment == WARM && x in old(active))
      ensures goesOn ==>
        && removed == 1 && List(a) < |lists| == |old(lists)|
        && View() == (if x in a.expired then Reclaimed(old(View()), a, x) else Rescued(old(View()), a, x))
        && lists[List(a)] == (if x in a.expired then [] else [x]) + Without(old(lists[List(a)]), x)
      ensures !goesOn ==> forall r: nat, seen ::
        Finish(old(View()), a, x, r, seen) == Pulled(View(), r + removed, Some(x), ret, seen)
    {
      hide Inv, Threaded, Reclaimed, Rescued, Finish, Without, NoDup, Fair, ItemPull.Hold, FateOf, SameExtra;
      ghost var s := View();
      HasList(s, a);
      PulledFits(s, a, x);
      KeepLists(s, a, x);
      Hold(x, a);
      goesOn, removed, ret := true, 1, None;
      if x in a.expired {
        ReclaimedIsFair(s, a, x);
        Reclaim(x, a, s);
        assert [] + Without(s.lists[List(a)], x) == Without(s.lists[List(a)], x);
      } else if a.segment == WARM && x in active {
        RescuedIsFair(s, a, x);
        Rescue(x, a, s);
      } else {
        goesOn := false;
        removed, ret := Settle(x, a, s);
      }
    }

    /** `lru_pull_tail`: the loop from the tail up.  Outside WARM lists it ends at the least recently used item
        that is neither locked nor expired. */
    method PullTail(a: Ask) returns (removed: nat, ret: Ptr)
      requires Valid() && Proper(a)
      modifies this
      ensures Valid()
      ensures var r := ItemPull.PullTail(old(View()), a);
              && View() == r.s && removed == r.removed && ret == r.ret
              && EndsRight(old(View()), a, r)
    {
      hide Inv, Threaded, Reclaimed, Rescued, Finish, Without, NoDup, Fair, ItemPull.Hold;
      hide EndsRight, FateOf, SameExtra;
      CallEndsRight(View(), a);
      removed, ret := 0, None;
      if a.class_ == 0 {
        return;
      }
      HasList(View(), a);
      var id := List(a);
      TailAt(links, heads, tails, lists, id);
      var tries: nat, search := TRIES, tails[id];
      ghost var k, seen := |lists[id]| - 1, [];
      while tries > 0 && search.Some?
        invariant Valid() && id < |lists| && -1 <= k < |lists[id]| && search == Place(lists[id], k) && ret == None
        invariant Pull(View(), a, k, tries, removed, seen) == ItemPull.PullTail(old(View()), a)
        decreases tries, k + 1
      {
        var x := search.value;
        PrevAt(links, heads, tails, lists, id, k);
        var next := links.prev[x];
        if !IsReal(x) {
          if a.crawlBlocks {
            return 0, None;
          }
          search, k := next, k - 1;
          continue;
        }
        ghost var s := View();
        InPulledList(s, a, k);
        PulledFits(s, a, x);
        tries := tries - 1;
        if a.stripe(key[x]) in locks {
          search, k, seen := next, k - 1, seen + [x];
          continue;
        }
        StepLists(s, a, k);
        BeforeGone(lists[id], k);
        seen := seen + [x];
        var goesOn, more, item := WorkOn(x, a);
        if !goesOn {
          assert Finish(s, a, x, removed, seen) == Pulled(View(), removed + more, Some(x), item, seen);
          return removed + more, item;
        }
        removed := removed + more;
        search, k := next, if x !in a.expired && k > 0 then k else k - 1;
      }
    }
  }

  lemma KeepLists(s: Cache, a: Ask, x: nat)
    requires x in s.refs
    ensures ItemPull.Hold(s, a, x).active == s.active && ItemPull.Hold(s, a, x).lists == s.lists
  {
  }

  lemma PulledFits(s: Cache, a: Ask, x: nat)
    requires Inv(s) && x in s.linked
    ensures x in s.refs && x in s.key && Stripe(s, a, x) == a.stripe(s.key[x])
  {
    UnlinkFits(s, x);
  }

  lemma SameFate(s: Cache, t: Cache, a: Ask, it: nat)
    requires List(a) < |s.bytes| && t.bytes == s.bytes && t.active == s.active
    ensures FateOf(t, a, it) == FateOf(s, a, it)
  {
  }
}
