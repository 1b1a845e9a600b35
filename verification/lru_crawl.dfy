/** A crawl over one LRU list: a crawler item starts behind the last item and swings over one item
    per turn until it is popped off the front, while other threads link and unlink items. */
module Crawling {
  import opened Common
  import opened Lists

  /** The items in front of the crawler and behind it, head first; what it has handed out so far;
      how many turns are left (0: no limit); whether it has left the list. */
  datatype Walk = Walk(ahead: seq<nat>, behind: seq<nat>, handed: seq<nat>, remaining: nat, done: bool)
  {
    function Items(): seq<nat> {
      ahead + behind
    }

    /** The linked list, with the crawler in it while it runs. */
    function Linked(crawler: nat): seq<nat> {
      if done then ahead + behind else ahead + [crawler] + behind
    }
  }

  datatype Event = Link(item: nat) | Unlink(item: nat) | Turn

  const CAP_REMAINING: nat := 0xffffffff

  /** The turn limit a crawl starts with when `asked` items are wanted of a list of `size`. */
  function Limit(asked: nat, size: nat): nat {
    var remaining := if asked == CAP_REMAINING then size else asked;
    if remaining != 0 then remaining + 1 else 0
  }

  function Start(items: seq<nat>, asked: nat): Walk {
    Walk(items, [], [], Limit(asked, |items|), false)
  }

  /** One turn of the crawler: it hands out the item it swings over, unless its turns are up. */
  function Swing(w: Walk): Walk {
    if w.ahead == [] then w.(done := true)
    else
      var x := w.ahead[|w.ahead| - 1];
      var v := w.(ahead := w.ahead[..|w.ahead| - 1], behind := [x] + w.behind);
      if w.remaining == 0 then v.(handed := w.handed + [x])
      else if w.remaining - 1 < 1 then v.(remaining := 0, done := true)
      else v.(remaining := w.remaining - 1, handed := w.handed + [x])
  }

  predicate Enabled(w: Walk, e: Event) {
    match e
    case Link(x) => x !in w.Items()
    case Unlink(x) => x in w.Items()
    case Turn => !w.done
  }

  function Next(w: Walk, e: Event): Walk {
    match e
    case Link(x) => w.(ahead := [x] + w.ahead)
    case Unlink(x) => w.(ahead := Without(w.ahead, x), behind := Without(w.behind, x))
    case Turn => Swing(w)
  }

  predicate IsRun(w: Walk, es: seq<Event>)
    decreases |es|
  {
    es != [] ==> Enabled(w, es[0]) && IsRun(Next(w, es[0]), es[1..])
  }

  function Run(w: Walk, es: seq<Event>): Walk
    decreases |es|
  {
    if es == [] then w else Run(Next(w, es[0]), es[1..])
  }

  /** The items of `ids` that are in `keep`, in order. */
  function Keep(ids: seq<nat>, keep: set<nat>): seq<nat> {
    if ids == [] then []
    else if ids[0] in keep then [ids[0]] + Keep(ids[1..], keep)
    else Keep(ids[1..], keep)
  }

  function Reverse(ids: seq<nat>): (r: seq<nat>)
    ensures |r| == |ids|
  {
    if ids == [] then [] else Reverse(ids[1..]) + [ids[0]]
  }

  lemma {:induction false} KeepConcat(a: seq<nat>, b: seq<nat>, keep: set<nat>)
    ensures Keep(a + b, keep) == Keep(a, keep) + Keep(b, keep)
  {
    if a == [] {
      assert a + b == b;
    } else {
      assert (a + b)[1..] == a[1..] + b;
      KeepConcat(a[1..], b, keep);
    }
  }

  lemma {:induction false} KeepWithout(a: seq<nat>, x: nat, keep: set<nat>)
    requires x !in keep
    ensures Keep(Without(a, x), keep) == Keep(a, keep)
  {
    if a != [] {
      KeepWithout(a[1..], x, keep);
      if a[0] != x {
        KeepConcat([a[0]], Without(a[1..], x), keep);
        assert [a[0]][1..] == [];
      }
    }
  }

  /** No event of the run unlinks `x`. */
  ghost predicate Stays(x: nat, es: seq<Event>) {
    forall i :: 0 <= i < |es| ==> es[i] != Unlink(x)
  }

  ghost predicate AllStay(keep: set<nat>, es: seq<Event>) {
    forall x :: x in keep ==> Stays(x, es)
  }

  /** The kept items behind the crawler are those handed out, the last one handed out first. */
  ghost predicate Swept(w: Walk, keep: set<nat>) {
    && w.remaining == 0
    && (forall x :: x in keep ==> x in w.Items())
    && Keep(w.handed, keep) == Reverse(Keep(w.behind, keep))
    && (w.done ==> Keep(w.ahead, keep) == [])
  }

  lemma SweepStep(w: Walk, e: Event, keep: set<nat>)
    requires Swept(w, keep) && Enabled(w, e)
    requires forall x :: x in keep ==> e != Unlink(x)
    ensures Swept(Next(w, e), keep)
    ensures Keep(Next(w, e).Items(), keep) == Keep(w.Items(), keep)
  {
    match e
    case Link(x) =>
      assert ([x] + w.ahead)[1..] == w.ahead;
      assert [x] + w.ahead + w.behind == [x] + w.Items();
      assert ([x] + w.Items())[1..] == w.Items();
    case Unlink(x) =>
      KeepWithout(w.ahead, x, keep);
      KeepWithout(w.behind, x, keep);
      KeepConcat(w.ahead, w.behind, keep);
      KeepConcat(Without(w.ahead, x), Without(w.behind, x), keep);
    case Turn =>
      if w.ahead != [] {
        var x := w.ahead[|w.ahead| - 1];
        assert w.ahead[..|w.ahead| - 1] + ([x] + w.behind) == w.Items();
        assert ([x] + w.behind)[1..] == w.behind;
        KeepConcat(w.handed, [x], keep);
        assert Keep([x], keep) == if x in keep then [x] else [] by {
          assert [x][1..] == [];
        }
        var kept := Keep(w.behind, keep);
        if x in keep {
          assert ([x] + kept)[1..] == kept;
          assert Reverse([x] + kept) == Reverse(kept) + [x];
        } else {
          assert Keep([x] + w.behind, keep) == kept;
          assert Keep(w.handed + [x], keep) == Keep(w.handed, keep);
        }
      }
  }

  /** However items are linked and unlinked meanwhile, a finished crawl without a limit has handed
      out the items that stayed in place exactly once each, from the tail to the head. */
  lemma {:induction false} CrawlSweeps(w: Walk, es: seq<Event>, keep: set<nat>)
    requires IsRun(w, es) && Swept(w, keep) && AllStay(keep, es)
    ensures Swept(Run(w, es), keep)
    ensures Keep(Run(w, es).Items(), keep) == Keep(w.Items(), keep)
    ensures Run(w, es).done ==> Keep(Run(w, es).handed, keep) == Reverse(Keep(w.Items(), keep))
    decreases |es|
  {
    if es == [] {
      KeepConcat(w.ahead, w.behind, keep);
      assert w.done ==> Keep(w.Items(), keep) == Keep(w.behind, keep);
    } else {
      forall x | x in keep ensures es[0] != Unlink(x) && Stays(x, es[1..]) {
        assert Stays(x, es);
      }
      SweepStep(w, es[0], keep);
      CrawlSweeps(Next(w, es[0]), es[1..], keep);
    }
  }

  /** The same from the start of a crawl. */
  lemma WholeCrawl(items: seq<nat>, es: seq<Event>, keep: set<nat>)
    requires IsRun(Start(items, 0), es) && AllStay(keep, es)
    requires forall x :: x in keep ==> x in items
    requires Run(Start(items, 0), es).done
    ensures Keep(Run(Start(items, 0), es).handed, keep) == Reverse(Keep(items, keep))
  {
    assert Start(items, 0).Items() == items;
    CrawlSweeps(Start(items, 0), es, keep);
  }

  lemma {:induction false} KeepOne(items: seq<nat>, x: nat)
    requires NoDup(items)
    ensures Keep(items, {x}) == if x in items then [x] else []
  {
    if items != [] {
      assert NoDup(items[1..]);
      KeepOne(items[1..], x);
      assert items == [items[0]] + items[1..];
      assert items[0] !in items[1..] by {
        assert forall i :: 0 <= i < |items[1..]| ==> items[1..][i] == items[i + 1];
      }
    }
  }

  /** In particular, each such item is handed out exactly once. */
  lemma HandedOnce(items: seq<nat>, es: seq<Event>, x: nat)
    requires NoDup(items) && x in items && Stays(x, es)
    requires IsRun(Start(items, 0), es) && Run(Start(items, 0), es).done
    ensures Keep(Run(Start(items, 0), es).handed, {x}) == [x]
  {
    WholeCrawl(items, es, {x});
    KeepOne(items, x);
    assert [x][1..] == [];
  }

  /** What the same links and unlinks do to a list without a crawler. */
  function Plain(items: seq<nat>, es: seq<Event>): seq<nat>
    decreases |es|
  {
    if es == [] then items
    else
      var next := match es[0] {
        case Link(x) => [x] + items
        case Unlink(x) => Without(items, x)
        case Turn => items
      };
      Plain(next, es[1..])
  }

  /** The crawler never reorders, adds or loses an item. */
  lemma {:induction false} CrawlerIsInvisible(w: Walk, es: seq<Event>)
    requires IsRun(w, es)
    ensures Run(w, es).Items() == Plain(w.Items(), es)
    decreases |es|
  {
    if es != [] {
      var v := Next(w, es[0]);
      match es[0] {
        case Link(x) => assert v.Items() == [x] + w.Items();
        case Unlink(x) => WithoutConcat(w.ahead, w.behind, x);
        case Turn => assert v.Items() == w.Items();
      }
      CrawlerIsInvisible(v, es[1..]);
    }
  }

  /** A crawl that nothing interferes with. */
  function Alone(w: Walk): Walk
    decreases if w.done then 0 else |w.ahead| + 1
  {
    if w.done then w else Alone(Swing(w))
  }

  lemma {:induction false} ReverseTail(a: seq<nat>, x: nat)
    ensures Reverse(a + [x]) == [x] + Reverse(a)
  {
    if a != [] {
      assert (a + [x])[1..] == a[1..] + [x];
      ReverseTail(a[1..], x);
    } else {
      assert ([] + [x])[1..] == [];
    }
  }

  function Min(a: nat, b: nat): nat {
    if a < b then a else b
  }

  lemma {:induction false} AloneHands(w: Walk)
    requires !w.done && w.remaining != 1
    ensures Alone(w).done
    ensures w.remaining == 0 ==> Alone(w).handed == w.handed + Reverse(w.ahead)
    ensures w.remaining != 0 ==>
              Alone(w).handed == w.handed + Reverse(w.ahead)[..Min(w.remaining - 1, |w.ahead|)]
    decreases |w.ahead|
  {
    if w.ahead != [] {
      var front, x := w.ahead[..|w.ahead| - 1], w.ahead[|w.ahead| - 1];
      assert w.ahead == front + [x];
      ReverseTail(front, x);
      var v := Swing(w);
      if w.remaining == 2 {
        AloneLast(v);
      } else {
        AloneHands(v);
      }
    }
  }

  /** With one turn left, nothing more is handed out. */
  lemma AloneLast(w: Walk)
    requires !w.done && w.remaining == 1
    ensures Alone(w).done && Alone(w).handed == w.handed
  {
    assert Swing(w).done;
  }

  /** An undisturbed crawl hands out the items asked for, from the tail: all of them when no number
      or the list's own size was given, otherwise as many as there are up to that number. */
  lemma AloneFromStart(items: seq<nat>, asked: nat)
    ensures Alone(Start(items, asked)).done
    ensures Alone(Start(items, asked)).handed ==
            if asked == 0 || asked == CAP_REMAINING then Reverse(items)
            else Reverse(items)[..Min(asked, |items|)]
  {
    hide Alone, Reverse;
    var w := Start(items, asked);
    AloneHands(w);
    if w.remaining == 0 {
      assert Alone(w).handed == Reverse(items) by {
        AloneAll(w);
      }
      assert asked == 0 || items == [];
    } else if asked == CAP_REMAINING {
      AloneSome(w, |items|);
      assert Reverse(items)[..|items|] == Reverse(items);
    } else {
      AloneSome(w, Min(asked, |items|));
    }
  }

  lemma AloneAll(w: Walk)
    requires !w.done && w.remaining == 0 && w.handed == []
    ensures Alone(w).handed == Reverse(w.ahead)
  {
    hide Alone, Reverse;
    AloneHands(w);
  }

  lemma AloneSome(w: Walk, n: nat)
    requires !w.done && w.remaining > 1 && w.handed == [] && n == Min(w.remaining - 1, |w.ahead|)
    ensures Alone(w).handed == Reverse(w.ahead)[..n]
  {
    hide Alone, Reverse;
    AloneHands(w);
  }
}
