/** Which items a pull from a tail looks at, and at which it ends. */
module ItemPullSeen {
  import opened Common
  import opened Lists
  import opened Items
  import opened ItemPull
  import opened ItemPullCount

  /** The items of a list up to place `k`, the one nearest the tail first and crawlers left out. */
  function FromTail(ids: seq<nat>, k: int): seq<nat>
    requires -1 <= k < |ids|
    decreases k + 1
  {
    if k < 0 then [] else (if IsReal(ids[k]) then [ids[k]] else []) + FromTail(ids, k - 1)
  }

  /** How many of the first items the search would pass. */
  function Lead(s: Cache, a: Ask, items: seq<nat>): (n: nat)
    ensures n <= |items|
  {
    if items == [] || !Passed(s, a, items[0]) then 0 else 1 + Lead(s, a, items[1..])
  }

  predicate IsRescued(s: Cache, a: Ask, x: nat) {
    Stripe(s, a, x) !in s.locks && x !in a.expired && a.segment == WARM && x in s.active
  }

  /** The first item to be put back in front of others.  If the search comes that far it meets it there. */
  function PutBack(s: Cache, a: Ask, ids: seq<nat>, k: int): Ptr
    requires -1 <= k < |ids|
    decreases k + 1
  {
    if k <= 0 then None
    else if IsReal(ids[k]) && IsRescued(s, a, ids[k]) then Some(ids[k])
    else PutBack(s, a, ids, k - 1)
  }

  /** The items a search looks at, and the one at which it ends: the nearest to the tail that is not passed,
      unless the tries run out first.  If all are passed it ends at one put back in front, if there is one. */
  function Sees(s: Cache, a: Ask, items: seq<nat>, back: Ptr, tries: nat): (seq<nat>, Ptr) {
    var n := Lead(s, a, items);
    if n >= tries then (items[..tries], None)
    else if n < |items| then (items[..n + 1], Some(items[n]))
    else if back.Some? then (items + [back.value], back)
    else (items, None)
  }

  lemma SeesPassed(s: Cache, a: Ask, x: nat, items: seq<nat>, back: Ptr, tries: nat)
    requires Passed(s, a, x) && tries > 0
    ensures var r := Sees(s, a, items, back, tries - 1); Sees(s, a, [x] + items, back, tries) == ([x] + r.0, r.1)
  {
    hide Passed;
    assert ([x] + items)[1..] == items;
    var n := Lead(s, a, items);
    assert n + 1 >= tries ==> ([x] + items)[..tries] == [x] + items[..tries - 1];
    assert n < |items| ==> ([x] + items)[..n + 2] == [x] + items[..n + 1];
    assert back.Some? ==> ([x] + items) + [back.value] == [x] + (items + [back.value]);
  }

  lemma SeesLast(s: Cache, a: Ask, x: nat, items: seq<nat>, back: Ptr, tries: nat)
    requires !Passed(s, a, x) && tries > 0
    ensures Sees(s, a, [x] + items, back, tries) == ([x], Some(x))
  {
    hide Passed;
    assert ([x] + items)[..1] == [x];
  }

  // ----- The search, place by place

  /** The cache `t` in the middle of a search that began in `s` and has come to place `k`.  The items before
      it are those of `s`, with `d` items put back in front of them, the first of them `back`. */
  ghost predicate Midway(s: Cache, t: Cache, a: Ask, k: int, d: nat, back: Ptr) {
    && List(a) < |s.lists| == |t.lists| && -1 <= k < |s.lists[List(a)]| && k + d < |t.lists[List(a)]|
    && t.locks == s.locks && t.key == s.key
    && (forall i :: 0 <= i <= k ==> t.lists[List(a)][i + d] == s.lists[List(a)][i])
    && (forall i :: 0 <= i <= k ==> (s.lists[List(a)][i] in t.active <==> s.lists[List(a)][i] in s.active))
    && (if d == 0 then back.None? else back == Some(t.lists[List(a)][d - 1]) && IsReal(back.value) &&
                                         !Passed(t, a, back.value))
  }

  lemma MidwayNext(s: Cache, t: Cache, a: Ask, k: nat, d: nat, back: Ptr)
    requires Midway(s, t, a, k, d, back)
    ensures Midway(s, t, a, k - 1, d, back)
  {
    hide Passed;
  }

  lemma MidwayGone(s: Cache, t: Cache, u: Cache, a: Ask, k: nat, d: nat, back: Ptr)
    requires Midway(s, t, a, k, d, back) && NoDup(t.lists[List(a)]) && |u.lists| == |t.lists|
    requires u.lists[List(a)] == Without(t.lists[List(a)], t.lists[List(a)][k + d])
    requires u.locks == t.locks && u.key == t.key && u.active == t.active
    ensures Midway(s, u, a, k - 1, d, back)
  {
    SplitAt(t.lists[List(a)], k + d);
  }

  lemma MidwayFront(s: Cache, t: Cache, u: Cache, a: Ask, k: nat, d: nat, back: Ptr)
    requires Midway(s, t, a, k, d, back) && NoDup(t.lists[List(a)]) && |u.lists| == |t.lists|
    requires var x := t.lists[List(a)][k + d];
             && IsReal(x) && Stripe(t, a, x) !in t.locks && x !in a.expired
             && u.active == t.active - {x} && u.lists[List(a)] == [x] + Without(t.lists[List(a)], x)
    requires u.locks == t.locks && u.key == t.key
    ensures Midway(s, u, a, k - 1, d + 1, if d == 0 then Some(s.lists[List(a)][k]) else back)
  {
    SplitAt(t.lists[List(a)], k + d);
  }

  /** The items from place `k` up to the first crawler. */
  function ToCrawler(ids: seq<nat>, k: int): seq<nat>
    requires -1 <= k < |ids|
    decreases k + 1
  {
    if k < 0 || !IsReal(ids[k]) then [] else [ids[k]] + ToCrawler(ids, k - 1)
  }

  /** What the search from place `k` on comes to. */
  function Ahead(s: Cache, a: Ask, k: int, back: Ptr, tries: nat): (seq<nat>, Ptr)
    requires List(a) < |s.lists| && -1 <= k < |s.lists[List(a)]|
  {
    var ids := s.lists[List(a)];
    Sees(s, a, FromTail(ids, k), if back.Some? then back else PutBack(s, a, ids, k), tries)
  }

  /** The search did what it should: it looked at the items it should and ended where it should, and the
      expired ones it looked at, unless locked, are gone. */
  ghost predicate Saw(s: Cache, a: Ask, k: int, back: Ptr, tries: nat, seen: seq<nat>, r: Pulled)
    requires List(a) < |s.lists| && -1 <= k < |s.lists[List(a)]|
  {
    && (!(a.crawlBlocks && MeetsCrawler(s, a, k, tries)) ==>
          r.seen == seen + Ahead(s, a, k, back, tries).0 && r.stop == Ahead(s, a, k, back, tries).1)
    && (a.crawlBlocks && MeetsCrawler(s, a, k, tries) ==>
          r.seen == seen + ToCrawler(s.lists[List(a)], k) && r.stop.None?)
    && (forall x :: x in r.seen && x !in seen && x in a.expired && Stripe(s, a, x) !in s.locks ==> x !in r.s.linked)
    && (r.stop.Some? && a.segment == COLD && a.evict && a.evictToFree ==> r.stop.value !in r.s.linked)
  }

  lemma SamePassed(s: Cache, t: Cache, a: Ask, k: nat, d: nat, back: Ptr)
    requires Midway(s, t, a, k, d, back)
    ensures var x := s.lists[List(a)][k];
      && t.lists[List(a)][k + d] == x && Stripe(t, a, x) == Stripe(s, a, x)
      && (x in t.active <==> x in s.active) && Passed(t, a, x) == Passed(s, a, x)
  {}

  /** Past a crawler that does not block. */
  lemma SawCrawler(s: Cache, a: Ask, k: nat, back: Ptr, tries: nat, seen: seq<nat>, r: Pulled)
    requires List(a) < |s.lists| && k < |s.lists[List(a)]| && !IsReal(s.lists[List(a)][k]) && !a.crawlBlocks
    requires Saw(s, a, k - 1, back, tries, seen, r)
    ensures Saw(s, a, k, back, tries, seen, r)
  {
    hide Sees, Passed;
    assert [] + FromTail(s.lists[List(a)], k - 1) == FromTail(s.lists[List(a)], k - 1);
  }

  /** Past an item that is locked, has expired or is rescued. */
  lemma SawPassed(s: Cache, a: Ask, k: nat, back: Ptr, next: Ptr, tries: nat, seen: seq<nat>, r: Pulled)
    requires List(a) < |s.lists| && k < |s.lists[List(a)]| && IsReal(s.lists[List(a)][k]) && tries > 0
    requires Passed(s, a, s.lists[List(a)][k])
    requires next == if back.None? && k > 0 && IsRescued(s, a, s.lists[List(a)][k])
                     then Some(s.lists[List(a)][k]) else back
    requires Saw(s, a, k - 1, next, tries - 1, seen + [s.lists[List(a)][k]], r)
    requires var x := s.lists[List(a)][k]; x in a.expired && Stripe(s, a, x) !in s.locks ==> x !in r.s.linked
    ensures Saw(s, a, k, back, tries, seen, r)
  {
    hide Sees, Passed, IsRescued;
    var ids := s.lists[List(a)];
    var x := ids[k];
    var whole := if back.Some? then back else PutBack(s, a, ids, k);
    assert whole == if next.Some? then next else PutBack(s, a, ids, k - 1);
    SeesPassed(s, a, x, FromTail(ids, k - 1), whole, tries);
    var rest := Ahead(s, a, k - 1, next, tries - 1);
    assert (seen + [x]) + rest.0 == seen + ([x] + rest.0);
    assert (seen + [x]) + ToCrawler(ids, k - 1) == seen + ([x] + ToCrawler(ids, k - 1));
  }

  /** At the item that ends the search. */
  lemma SawLast(s: Cache, a: Ask, k: nat, back: Ptr, tries: nat, seen: seq<nat>, r: Pulled)
    requires List(a) < |s.lists| && k < |s.lists[List(a)]| && IsReal(s.lists[List(a)][k]) && tries > 0
    requires !Passed(s, a, s.lists[List(a)][k])
    requires r.seen == seen + [s.lists[List(a)][k]] && r.stop == Some(s.lists[List(a)][k])
    requires a.segment == COLD && a.evict && a.evictToFree ==> r.stop.value !in r.s.linked
    ensures Saw(s, a, k, back, tries, seen, r)
  {
    hide Sees;
    var ids := s.lists[List(a)];
    SeesLast(s, a, ids[k], FromTail(ids, k - 1), if back.Some? then back else PutBack(s, a, ids, k), tries);
  }

  /** With no tries left, or blocked, or past the head with nothing put back. */
  lemma SawNothing(s: Cache, a: Ask, k: int, back: Ptr, tries: nat, seen: seq<nat>, r: Pulled)
    requires List(a) < |s.lists| && -1 <= k < |s.lists[List(a)]|
    requires tries == 0 || (k < 0 && back.None?) || (k >= 0 && a.crawlBlocks && !IsReal(s.lists[List(a)][k]))
    requires r.seen == seen && r.stop.None?
    ensures Saw(s, a, k, back, tries, seen, r)
  {
    assert seen + [] == seen;
  }

  /** At the item put back first, once the head is passed. */
  lemma SawBack(s: Cache, a: Ask, back: Ptr, tries: nat, seen: seq<nat>, r: Pulled)
    requires List(a) < |s.lists| && back.Some? && tries > 0
    requires r.seen == seen + [back.value] && r.stop == back && back.value !in a.expired
    requires a.segment == COLD && a.evict && a.evictToFree ==> r.stop.value !in r.s.linked
    ensures Saw(s, a, -1, back, tries, seen, r)
  {
    assert [] + [back.value] == [back.value];
  }

  lemma FinishSaw(t: Cache, a: Ask, x: nat, removed: nat, seen: seq<nat>)
    requires Pulls(t, a, x)
    ensures var r := Finish(t, a, x, removed, seen);
      && r.seen == seen && r.stop == Some(x)
      && (a.segment == COLD && a.evict && a.evictToFree ==> x !in r.s.linked)
  {
    hide Inv, Finish, FateOf;
    FateIsDone(t, a, x, removed, seen);
    FateExactly(t, a, x);
    FinishRet(t, a, x, removed, seen);
  }

  lemma OnlyFewer(t: Cache, a: Ask, k: int, tries: nat, removed: nat, seen: seq<nat>)
    requires Inv(t) && Proper(a) && -1 <= k < |t.lists[List(a)]|
    ensures Pull(t, a, k, tries, removed, seen).s.linked <= t.linked
  {
    hide Inv, Pull;
    PullIsBalanced(t, a, k, tries, removed, seen);
  }

  /** The whole search, from any place of it on. */
  lemma {:induction false} PullSaw(s: Cache, t: Cache, a: Ask, k: int, d: nat, back: Ptr, tries: nat, removed: nat,
                                   seen: seq<nat>)
    requires Inv(t) && Proper(a) && Midway(s, t, a, k, d, back)
    ensures Saw(s, a, k, back, tries, seen, Pull(t, a, k + d, tries, removed, seen))
    decreases tries, k + 1, 1
  {
    hide Inv, Midway, Saw, Reclaimed, Rescued, Finish, NoDup, Passed;
    MidwayFits(s, t, a, k, d, back);
    var r := Pull(t, a, k + d, tries, removed, seen);
    if tries == 0 || k + d < 0 {
      SawNothing(s, a, k, back, tries, seen, r);
    } else if k < 0 {
      BackEnds(s, t, a, d, back, tries, removed, seen);
    } else {
      SamePassed(s, t, a, k, d, back);
      MidwayNext(s, t, a, k, d, back);
      var x := s.lists[List(a)][k];
      if !IsReal(x) {
        if a.crawlBlocks {
          SawNothing(s, a, k, back, tries, seen, r);
        } else {
          PullSaw(s, t, a, k - 1, d, back, tries, removed, seen);
          SawCrawler(s, a, k, back, tries, seen, r);
        }
      } else {
        PullSawItem(s, t, a, k, d, back, tries, removed, seen);
      }
    }
  }

  lemma {:induction false} PullSawItem(s: Cache, t: Cache, a: Ask, k: nat, d: nat, back: Ptr, tries: nat,
                                       removed: nat, seen: seq<nat>)
    requires Inv(t) && Proper(a) && Midway(s, t, a, k, d, back) && tries > 0
    requires List(a) < |s.lists| && k < |s.lists[List(a)]| && IsReal(s.lists[List(a)][k])
    ensures Saw(s, a, k, back, tries, seen, Pull(t, a, k + d, tries, removed, seen))
    decreases tries, k + 1, 0
  {
    hide Inv, Midway, Saw, Reclaimed, Rescued, Finish, NoDup;
    MidwayFits(s, t, a, k, d, back);
    SamePassed(s, t, a, k, d, back);
    MidwayNext(s, t, a, k, d, back);
    var x, r := s.lists[List(a)][k], Pull(t, a, k + d, tries, removed, seen);
    InPulledList(t, a, k + d);
    if Stripe(t, a, x) in t.locks {
      PullSaw(s, t, a, k - 1, d, back, tries - 1, removed, seen + [x]);
      SawPassed(s, a, k, back, back, tries, seen, r);
    } else {
      StepLists(t, a, k + d);
      if x in a.expired {
        GoneAhead(s, t, a, k, d, back);
        var u := Reclaimed(t, a, x);
        PullSaw(s, u, a, k - 1, d, back, tries - 1, removed + 1, seen + [x]);
        MidwayFits(s, u, a, k - 1, d, back);
        OnlyFewer(u, a, k - 1 + d, tries - 1, removed + 1, seen + [x]);
        SawPassed(s, a, k, back, back, tries, seen, r);
      } else if a.segment == WARM && x in t.active {
        FrontAhead(s, t, a, k, d, back);
        var u := Rescued(t, a, x);
        if k + d == 0 {
          HasList(u, a);
          assert r == Pull(u, a, -1, tries - 1, removed + 1, seen + [x]);
          SawNothing(s, a, -1, back, tries - 1, seen + [x], r);
          SawPassed(s, a, k, back, back, tries, seen, r);
        } else {
          var next := if d == 0 then Some(x) else back;
          PullSaw(s, u, a, k - 1, d + 1, next, tries - 1, removed + 1, seen + [x]);
          SawPassed(s, a, k, back, next, tries, seen, r);
        }
      } else {
        FinishSaw(t, a, x, removed, seen + [x]);
        SawLast(s, a, k, back, tries, seen, r);
      }
    }
  }

  lemma MidwayFits(s: Cache, t: Cache, a: Ask, k: int, d: nat, back: Ptr)
    requires Midway(s, t, a, k, d, back)
    ensures List(a) < |s.lists| == |t.lists| && -1 <= k < |s.lists[List(a)]| && k + d < |t.lists[List(a)]|
    ensures t.locks == s.locks && t.key == s.key && (d == 0 <==> back.None?)
  {
    hide Passed;
  }

  lemma BackEnds(s: Cache, t: Cache, a: Ask, d: nat, back: Ptr, tries: nat, removed: nat, seen: seq<nat>)
    requires Inv(t) && Proper(a) && Midway(s, t, a, -1, d, back) && d > 0 && tries > 0
    ensures List(a) < |s.lists|
    ensures d - 1 < |t.lists[List(a)]| && Saw(s, a, -1, back, tries, seen, Pull(t, a, d - 1, tries, removed, seen))
  {
    hide Inv, Saw, Finish, NoDup, Rescued, Reclaimed;
    var x := t.lists[List(a)][d - 1];
    InPulledList(t, a, d - 1);
    FinishSaw(t, a, x, removed, seen + [x]);
    SawBack(s, a, back, tries, seen, Pull(t, a, d - 1, tries, removed, seen));
  }

  lemma GoneAhead(s: Cache, t: Cache, a: Ask, k: nat, d: nat, back: Ptr)
    requires Inv(t) && Proper(a) && Midway(s, t, a, k, d, back)
    requires var x := t.lists[List(a)][k + d]; IsReal(x) && Pulls(t, a, x) && x in a.expired
    ensures var x := t.lists[List(a)][k + d];
      Inv(Reclaimed(t, a, x)) && Midway(s, Reclaimed(t, a, x), a, k - 1, d, back) && x !in Reclaimed(t, a, x).linked
  {
    hide Inv, Midway, Reclaimed, Fair, NoDup, Without;
    MidwayFits(s, t, a, k, d, back);
    var x := t.lists[List(a)][k + d];
    var u := Reclaimed(t, a, x);
    InPulledList(t, a, k + d);
    ReclaimedIsFair(t, a, x);
    StepLists(t, a, k + d);
    FairSame(t, u, a);
    ReclaimedShape(t, a, x);
    MidwayGone(s, t, u, a, k, d, back);
  }

  lemma FrontAhead(s: Cache, t: Cache, a: Ask, k: nat, d: nat, back: Ptr)
    requires Inv(t) && Proper(a) && Midway(s, t, a, k, d, back)
    requires var x := t.lists[List(a)][k + d]; IsReal(x) && Pulls(t, a, x) && x !in a.expired
    ensures var u := Rescued(t, a, t.lists[List(a)][k + d]);
      Inv(u) && Midway(s, u, a, k - 1, d + 1, if d == 0 then Some(t.lists[List(a)][k + d]) else back)
  {
    hide Inv, Midway, Rescued, Fair, NoDup, Without;
    MidwayFits(s, t, a, k, d, back);
    SamePassed(s, t, a, k, d, back);
    var x := t.lists[List(a)][k + d];
    var u := Rescued(t, a, x);
    InPulledList(t, a, k + d);
    RescuedIsFair(t, a, x);
    StepLists(t, a, k + d);
    FairSame(t, u, a);
    RescuedShape(t, a, x);
    MidwayFront(s, t, u, a, k, d, back);
  }

  // ----- Whole calls

  lemma {:induction false} LeadIsPassed(s: Cache, a: Ask, items: seq<nat>)
    ensures var n := Lead(s, a, items);
      && (forall i :: 0 <= i < n ==> Passed(s, a, items[i]))
      && (n < |items| ==> !Passed(s, a, items[n]))
  {
    hide Passed;
    if items != [] && Passed(s, a, items[0]) {
      LeadIsPassed(s, a, items[1..]);
      var n := Lead(s, a, items);
      forall i | 0 <= i < n
        ensures Passed(s, a, items[i])
      {
        if i > 0 {
          assert items[i] == items[1..][i - 1];
        }
      }
    }
  }

  lemma {:induction false} PutBackIsRescued(s: Cache, a: Ask, ids: seq<nat>, k: int)
    requires -1 <= k < |ids|
    ensures var back := PutBack(s, a, ids, k);
      back.Some? ==> back.value in FromTail(ids, k) && IsRescued(s, a, back.value)
    decreases k + 1
  {
    hide IsRescued;
    if k > 0 {
      PutBackIsRescued(s, a, ids, k - 1);
    }
  }

  /** From the tail on, `items` being the real items in that order: those looked at are the first of them,
      at most five; all before the last were locked, expired or rescued; and the search ends at the last
      exactly if that one was neither.  A search with nothing to end at has looked at five or at all.  Only in
      a WARM list whose items were all passed may it meet again, and end at, one it has put back in front. */
  ghost predicate TailFirst(s: Cache, a: Ask, items: seq<nat>, seen: seq<nat>, stop: Ptr) {
    var n := |seen|;
    && n <= 5
    && (forall i :: 0 <= i < n && i < |items| ==> seen[i] == items[i])
    && (forall i :: 0 <= i < n - 1 ==> Passed(s, a, seen[i]))
    && (stop.Some? ==> n > 0 && stop.value == seen[n - 1])
    && (n <= |items| ==>
          if stop.Some? then !Passed(s, a, stop.value) else (n == 5 || n == |items|) &&
                                                            (n > 0 ==> Passed(s, a, seen[n - 1])))
    && (n > |items| ==> n == |items| + 1 && stop.Some? && stop.value in items && IsRescued(s, a, stop.value))
  }

  lemma SeesIsTailFirst(s: Cache, a: Ask, items: seq<nat>, back: Ptr)
    requires back.Some? ==> back.value in items && IsRescued(s, a, back.value)
    ensures TailFirst(s, a, items, Sees(s, a, items, back, 5).0, Sees(s, a, items, back, 5).1)
  {
    hide Passed, IsRescued;
    LeadIsPassed(s, a, items);
  }

  lemma MidwayAtStart(s: Cache, a: Ask)
    requires List(a) < |s.lists|
    ensures Midway(s, s, a, |s.lists[List(a)]| - 1, 0, None)
  {
    hide Passed;
  }

  lemma CallSaw(s: Cache, a: Ask)
    requires Inv(s) && Proper(a) && a.class_ != 0
    ensures List(a) < |s.lists| && Saw(s, a, |s.lists[List(a)]| - 1, None, 5, [], PullTail(s, a))
  {
    hide Inv, Pull, Saw, Midway;
    HasList(s, a);
    MidwayAtStart(s, a);
    PullSaw(s, s, a, |s.lists[List(a)]| - 1, 0, None, 5, 0, []);
  }

  /** Unless a crawler blocks it, a call looks at the items of its list from the tail on. */
  lemma SearchesFromTheTail(s: Cache, a: Ask)
    requires Inv(s) && Proper(a) && a.class_ != 0
    ensures List(a) < |s.lists|
    ensures var ids, r := s.lists[List(a)], PullTail(s, a);
      !Blocked(s, a) ==> TailFirst(s, a, FromTail(ids, |ids| - 1), r.seen, r.stop)
  {
    hide Inv, Pull, TailFirst, Sees, PullTail, Passed;
    HasList(s, a);
    CallSaw(s, a);
    var k := |s.lists[List(a)]| - 1;
    MeetsIsReaches(s, a, k, 5);
    PutBackIsRescued(s, a, s.lists[List(a)], k);
    var items, back := FromTail(s.lists[List(a)], k), PutBack(s, a, s.lists[List(a)], k);
    SeesIsTailFirst(s, a, items, back);
    if !Blocked(s, a) {
      assert [] + Sees(s, a, items, back, 5).0 == Sees(s, a, items, back, 5).0;
    }
  }

  lemma {:induction false} UpToCrawler(ids: seq<nat>, k: int, j: nat)
    requires j <= k < |ids| && !IsReal(ids[j]) && forall i :: j < i <= k ==> IsReal(ids[i])
    ensures |ToCrawler(ids, k)| == k - j && forall i :: 0 <= i < k - j ==> ToCrawler(ids, k)[i] == ids[k - i]
    decreases k + 1
  {
    if j < k {
      UpToCrawler(ids, k - 1, j);
    }
  }

  /** A call that the crawler at place `j` blocks has looked at just the items behind it. */
  lemma BlockedAtCrawler(s: Cache, a: Ask, j: nat)
    requires Inv(s) && Proper(a) && a.class_ != 0 && a.crawlBlocks
    requires List(a) < |s.lists| && Reaches(s, a, |s.lists[List(a)]| - 1, 5, j)
    ensures var ids, r := s.lists[List(a)], PullTail(s, a);
      r.stop.None? && |r.seen| == |ids| - 1 - j && forall i :: 0 <= i < |r.seen| ==> r.seen[i] == ids[|ids| - 1 - i]
  {
    hide Inv, PullTail, Sees, Passed;
    CallSaw(s, a);
    var k := |s.lists[List(a)]| - 1;
    MeetsIsReaches(s, a, k, 5);
    UpToCrawler(s.lists[List(a)], k, j);
    assert [] + ToCrawler(s.lists[List(a)], k) == PullTail(s, a).seen;
  }

  lemma FromTailAt(ids: seq<nat>, k: int)
    requires -1 <= k < |ids|
    ensures k < 0 ==> FromTail(ids, k) == []
    ensures k >= 0 ==>
      FromTail(ids, k) == if IsReal(ids[k]) then [ids[k]] + FromTail(ids, k - 1) else FromTail(ids, k - 1)
  {}

  /** The place of an item counted from the tail: what is behind it comes earlier in the count. */
  lemma {:induction false} PlaceFromTail(ids: seq<nat>, k: int, m: nat) returns (q: nat)
    requires -1 <= k < |ids| && m < |FromTail(ids, k)|
    ensures q <= k && ids[q] == FromTail(ids, k)[m] && IsReal(ids[q])
    ensures forall i :: q < i <= k && IsReal(ids[i]) ==> ids[i] in FromTail(ids, k)[..m]
    decreases k + 1
  {
    hide FromTail;
    FromTailAt(ids, k);
    var rest := FromTail(ids, k - 1);
    if !IsReal(ids[k]) {
      q := PlaceFromTail(ids, k - 1, m);
    } else if m == 0 {
      q := k;
    } else {
      q := PlaceFromTail(ids, k - 1, m - 1);
      assert FromTail(ids, k)[..m] == [ids[k]] + rest[..m - 1];
    }
  }

  /** The item at place `q` ended the call.  It is neither locked nor expired, and behind it were only crawlers,
      locked items, and expired ones that are gone now. */
  ghost predicate LeastRecent(s: Cache, a: Ask, r: Pulled, q: nat) {
    && List(a) < |s.lists| && q < |s.lists[List(a)]|
    && var ids := s.lists[List(a)];
       && r.stop == Some(ids[q]) && Stripe(s, a, ids[q]) !in s.locks && ids[q] !in a.expired
       && forall i :: q < i < |ids| && IsReal(ids[i]) ==>
            Stripe(s, a, ids[i]) in s.locks || (ids[i] in a.expired && ids[i] !in r.s.linked)
  }

  lemma SeenIsGone(s: Cache, a: Ask, r: Pulled, items: seq<nat>, x: nat)
    requires List(a) < |s.lists| && Saw(s, a, |s.lists[List(a)]| - 1, None, 5, [], r) && a.segment != WARM
    requires TailFirst(s, a, items, r.seen, r.stop) && 0 < |r.seen| <= |items| && x in items[..|r.seen| - 1]
    ensures Stripe(s, a, x) in s.locks || (x in a.expired && x !in r.s.linked)
  {
    hide Ahead, MeetsCrawler, ToCrawler;
    var m :| 0 <= m < |r.seen| - 1 && items[m] == x;
    assert r.seen[m] == items[m] && Passed(s, a, r.seen[m]);
    assert x in r.seen;
  }

  lemma StopIsLast(s: Cache, a: Ask, items: seq<nat>, seen: seq<nat>, stop: Ptr)
    requires TailFirst(s, a, items, seen, stop) && stop.Some? && a.segment != WARM
    ensures 0 < |seen| <= |items| && stop.value == items[|seen| - 1] && !Passed(s, a, stop.value)
  {}

  /** Outside WARM lists the least recently used item that can go is the one that goes: it is the one evicted,
      or handed out, when that is asked of a COLD list. */
  lemma LeastRecentEnds(s: Cache, a: Ask)
    requires Inv(s) && Proper(a) && a.segment != WARM && PullTail(s, a).stop.Some?
    ensures var r := PullTail(s, a);
      && (exists q :: LeastRecent(s, a, r, q))
      && (a.segment == COLD && a.evict && a.evictToFree ==> r.stop.value !in r.s.linked)
      && (a.segment == COLD && !a.evict && a.returnItem ==> r.ret == r.stop)
  {
    hide Inv, PullTail, Saw, TailFirst, FromTail, Blocked, Unlinked, OnlyClass, References;
    HasList(s, a);
    StopsInClass(s, a);
    CallSaw(s, a);
    SearchesFromTheTail(s, a);
    StopsUnblocked(s, a);
    var ids, r := s.lists[List(a)], PullTail(s, a);
    var items := FromTail(ids, |ids| - 1);
    StopIsLast(s, a, items, r.seen, r.stop);
    var q := PlaceFromTail(ids, |ids| - 1, |r.seen| - 1);
    forall i | q < i < |ids| && IsReal(ids[i])
      ensures Stripe(s, a, ids[i]) in s.locks || (ids[i] in a.expired && ids[i] !in r.s.linked)
    {
      SeenIsGone(s, a, r, items, ids[i]);
    }
    assert LeastRecent(s, a, r, q);
    SawEvicted(s, a, r);
    PullTailIsBalanced(s, a);
  }

  /** Outside WARM lists a call that ends at an item ends at the least recent that can go. */
  ghost predicate EndsRight(s: Cache, a: Ask, r: Pulled) {
    a.segment != WARM && r.stop.Some? ==> exists q :: LeastRecent(s, a, r, q)
  }

  lemma CallEndsRight(s: Cache, a: Ask)
    requires Inv(s) && Proper(a)
    ensures EndsRight(s, a, PullTail(s, a))
  {
    hide Inv, PullTail, LeastRecent;
    if a.segment != WARM && PullTail(s, a).stop.Some? {
      LeastRecentEnds(s, a);
    }
  }

  lemma {:induction false} PutBackExactly(s: Cache, a: Ask, ids: seq<nat>, k: int)
    requires -1 <= k < |ids|
    ensures PutBack(s, a, ids, k).Some? <==> exists i :: 0 < i <= k && IsReal(ids[i]) && IsRescued(s, a, ids[i])
    decreases k + 1
  {
    hide IsRescued;
    if k > 0 {
      PutBackExactly(s, a, ids, k - 1);
    }
  }

  /** A search of a WARM list comes round to an item it has itself put back in front. */
  ghost predicate ComesRound(s: Cache, a: Ask)
    requires List(a) < |s.lists|
  {
    var ids := s.lists[List(a)];
    var items := FromTail(ids, |ids| - 1);
    && |items| < 5 && (forall i :: 0 <= i < |items| ==> Passed(s, a, items[i]))
    && (exists i :: 0 < i < |ids| && IsReal(ids[i]) && IsRescued(s, a, ids[i]))
  }

  lemma RoundIsSeen(s: Cache, a: Ask, items: seq<nat>, back: Ptr)
    requires a.segment == WARM && (back.Some? ==> back.value in items && IsRescued(s, a, back.value))
    ensures var stop := Sees(s, a, items, back, 5).1;
      stop.Some? && stop.value in s.active <==>
      |items| < 5 && (forall i :: 0 <= i < |items| ==> Passed(s, a, items[i])) && back.Some?
  {
    LeadIsPassed(s, a, items);
  }

  /** A call on a WARM list ends at an item that was active, and that it should have rescued, exactly if it
      comes round to one. */
  lemma ActiveEndsIff(s: Cache, a: Ask)
    requires Inv(s) && Proper(a) && a.class_ != 0 && a.segment == WARM
    ensures List(a) < |s.lists|
    ensures var stop := PullTail(s, a).stop;
      stop.Some? && stop.value in s.active <==> !Blocked(s, a) && ComesRound(s, a)
  {
    hide Inv, PullTail, Sees, Passed, IsRescued, FromTail, PutBack;
    HasList(s, a);
    CallSaw(s, a);
    var ids := s.lists[List(a)];
    var k := |ids| - 1;
    MeetsIsReaches(s, a, k, 5);
    PutBackIsRescued(s, a, ids, k);
    PutBackExactly(s, a, ids, k);
    RoundIsSeen(s, a, FromTail(ids, k), PutBack(s, a, ids, k));
  }

  lemma SawEvicted(s: Cache, a: Ask, r: Pulled)
    requires List(a) < |s.lists| && Saw(s, a, |s.lists[List(a)]| - 1, None, 5, [], r)
    ensures r.stop.Some? && a.segment == COLD && a.evict && a.evictToFree ==> r.stop.value !in r.s.linked
  {
    hide Ahead, MeetsCrawler, ToCrawler;
  }

  lemma StopsInClass(s: Cache, a: Ask)
    requires Inv(s) && Proper(a) && PullTail(s, a).stop.Some?
    ensures a.class_ != 0
  {
    hide Inv, Pull;
  }

  lemma StopsUnblocked(s: Cache, a: Ask)
    requires Inv(s) && Proper(a) && a.class_ != 0 && PullTail(s, a).stop.Some?
    ensures List(a) < |s.lists| && !Blocked(s, a)
  {
    hide Inv, PullTail, Passed, Ahead, Sees;
    HasList(s, a);
    CallSaw(s, a);
    MeetsIsReaches(s, a, |s.lists[List(a)]| - 1, 5);
  }
}
