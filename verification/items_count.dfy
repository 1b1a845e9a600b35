/** What the count that a pull from a tail returns counts. */
module ItemPullCount {
  import opened Common
  import opened Lists
  import opened Items
  import opened ItemPull

  /** Whether the item that ended the search is now in the COLD list, and was not before. */
  predicate SentToCold(a: Ask, r: Pulled) {
    r.stop.Some? && a.segment != COLD && r.stop.value in r.s.cls && r.s.cls[r.stop.value] == a.class_ + COLD
  }

  /** The items no longer linked, those no longer active, which a rescue or a move to WARM made them, and
      one more for a move to COLD. */
  function Effect(s: Cache, a: Ask, r: Pulled): nat {
    |s.linked - r.s.linked| + |s.active - r.s.active| + if SentToCold(a, r) then 1 else 0
  }

  /** The search goes on past an item that is locked, has expired, or is rescued. */
  predicate Passed(s: Cache, a: Ask, x: nat) {
    Stripe(s, a, x) in s.locks || x in a.expired || (a.segment == WARM && x in s.active)
  }

  /** From place `k` up the search passes everything until it comes to a crawler. */
  predicate MeetsCrawler(s: Cache, a: Ask, k: int, tries: nat)
    requires List(a) < |s.lists| && k < |s.lists[List(a)]|
    decreases k + 1
  {
    if tries == 0 || k < 0 then false
    else if !IsReal(s.lists[List(a)][k]) then true
    else Passed(s, a, s.lists[List(a)][k]) && MeetsCrawler(s, a, k - 1, tries - 1)
  }

  /** How many items before the crawler it has worked on. */
  function Worked(s: Cache, a: Ask, k: int): nat
    requires List(a) < |s.lists| && k < |s.lists[List(a)]|
    decreases k + 1
  {
    if k < 0 || !IsReal(s.lists[List(a)][k]) then 0
    else (if Stripe(s, a, s.lists[List(a)][k]) in s.locks then 0 else 1) + Worked(s, a, k - 1)
  }

  /** The part of the list ahead of the search after a step, `d` places further on. */
  ghost predicate SameAhead(s: Cache, t: Cache, a: Ask, k: int, d: nat) {
    && -1 <= k && List(a) < |s.lists| == |t.lists| && k < |s.lists[List(a)]| && k + d < |t.lists[List(a)]| && d <= 1
    && t.locks == s.locks && t.key == s.key
    && (forall i :: 0 <= i <= k ==> t.lists[List(a)][i + d] == s.lists[List(a)][i])
    && (forall i :: 0 <= i <= k ==> (s.lists[List(a)][i] in t.active <==> s.lists[List(a)][i] in s.active))
    && (d == 1 ==> IsReal(t.lists[List(a)][0]))
  }

  lemma {:induction false} AheadMeets(s: Cache, t: Cache, a: Ask, k: int, d: nat, tries: nat)
    requires SameAhead(s, t, a, k, d) && -1 <= k
    ensures MeetsCrawler(t, a, k + d, tries) == MeetsCrawler(s, a, k, tries)
    ensures MeetsCrawler(s, a, k, tries) ==> Worked(t, a, k + d) == Worked(s, a, k)
    decreases k + 1
  {
    if tries > 0 && k >= 0 {
      assert t.lists[List(a)][k + d] == s.lists[List(a)][k];
      AheadMeets(s, t, a, k - 1, d, tries - 1);
    }
  }

  lemma ReclaimedShape(s: Cache, a: Ask, x: nat)
    requires Pulls(s, a, x)
    ensures var t := Reclaimed(s, a, x); t.linked == s.linked - {x} && t.active == s.active && t.cls == s.cls
  {
    hide OneList, TableOk, CountsOk, FieldsOk, TotalsOk, RefsOk, Unlink, Without;
    HoldKeeps(s, a, x);
    HeldMore(s, Hold(s, a, x), x);
    UnlinkHeld(Hold(s, a, x), x);
    UnlinkShape(Hold(s, a, x), x);
  }

  lemma RescuedShape(s: Cache, a: Ask, x: nat)
    requires Pulls(s, a, x)
    ensures var t := Rescued(s, a, x); t.linked == s.linked && t.active == s.active - {x}
  {
    hide OneList, TableOk, CountsOk, FieldsOk, TotalsOk, RefsOk, Move, Without;
    HoldKeeps(s, a, x);
    ClassOf(a);
    var t := Hold(s, a, x).(active := s.active - {x});
    MoveKeeps(t, x, List(a));
    MoveShape(t, x, List(a));
  }

  lemma TakenAway(big: set<nat>, small: set<nat>, x: nat)
    requires small <= big - {x} && x in big
    ensures |big - small| == |(big - {x}) - small| + 1
  {
    assert big - small == ((big - {x}) - small) + {x};
  }

  /** Sets only shrink, and where the count is not dropped it is the effect. */
  ghost predicate Counted(s: Cache, a: Ask, k: int, tries: nat, removed: nat, r: Pulled)
    requires List(a) < |s.lists| && k < |s.lists[List(a)]|
  {
    && r.s.linked <= s.linked && r.s.active <= s.active
    && (a.crawlBlocks && MeetsCrawler(s, a, k, tries) ==>
          r.removed == 0 && r.stop.None? && Effect(s, a, r) == Worked(s, a, k))
    && (!(a.crawlBlocks && MeetsCrawler(s, a, k, tries)) ==> r.removed == removed + Effect(s, a, r))
  }

  lemma PulledFrom(s: Cache, a: Ask, x: nat)
    requires Pulls(s, a, x)
    ensures x in s.linked && x in s.cls && s.cls[x] == List(a)
  {}

  lemma MovedCounts(s: Cache, a: Ask, x: nat, r: Pulled, segment: nat)
    requires r.stop == Some(x) && r.s.linked == s.linked && r.s.active == s.active - {x}
    requires r.s.cls == s.cls[x := a.class_ + segment]
    requires if segment == WARM then x in s.active else segment == COLD && x !in s.active && a.segment != COLD
    ensures Effect(s, a, r) == 1
  {
    assert s.linked - r.s.linked == {};
    assert s.active - r.s.active == if x in s.active then {x} else {};
  }

  lemma EvictedCounts(s: Cache, a: Ask, x: nat, r: Pulled)
    requires a.segment == COLD && x in s.linked && r.s.linked == s.linked - {x} && r.s.active == s.active
    ensures Effect(s, a, r) == 1
  {
    assert s.linked - r.s.linked == {x};
    assert s.active - r.s.active == {};
  }

  lemma KeptCounts(s: Cache, a: Ask, x: nat, r: Pulled)
    requires r.stop == Some(x) && r.s.linked == s.linked && r.s.active == s.active && r.s.cls == s.cls
    requires x in s.cls && s.cls[x] == List(a)
    ensures Effect(s, a, r) == 0
  {
    assert s.linked - r.s.linked == {};
    assert s.active - r.s.active == {};
  }

  lemma FinishCounted(s: Cache, a: Ask, x: nat, removed: nat, seen: seq<nat>)
    requires Pulls(s, a, x) && !(a.segment == WARM && x in s.active)
    ensures var r := Finish(s, a, x, removed, seen);
            r.s.linked <= s.linked && r.s.active <= s.active && r.removed == removed + Effect(s, a, r)
  {
    hide Inv, Finish, FateOf, Effect;
    FateIsDone(s, a, x, removed, seen);
    FateExactly(s, a, x);
    FinishRet(s, a, x, removed, seen);
    PulledFrom(s, a, x);
    var r := Finish(s, a, x, removed, seen);
    match FateOf(s, a, x)
    case MoveTo(segment) => MovedCounts(s, a, x, r, segment);
    case Evict => EvictedCounts(s, a, x, r);
    case _ => KeptCounts(s, a, x, r);
  }

  lemma NothingDone(s: Cache, a: Ask, k: int, tries: nat, removed: nat, r: Pulled)
    requires List(a) < |s.lists| && -1 <= k < |s.lists[List(a)]| && r.s == s && r.stop.None?
    requires tries == 0 || k < 0 || (a.crawlBlocks && !IsReal(s.lists[List(a)][k]))
    requires r.removed == if tries == 0 || k < 0 then removed else 0
    ensures Counted(s, a, k, tries, removed, r)
  {
    assert s.linked - r.s.linked == {} && s.active - r.s.active == {};
  }

  lemma PastCrawler(s: Cache, a: Ask, k: nat, tries: nat, removed: nat, r: Pulled)
    requires List(a) < |s.lists| && k < |s.lists[List(a)]| && !a.crawlBlocks
    requires Counted(s, a, k - 1, tries, removed, r)
    ensures Counted(s, a, k, tries, removed, r)
  {
  }

  lemma PastLocked(s: Cache, a: Ask, k: nat, tries: nat, removed: nat, r: Pulled)
    requires List(a) < |s.lists| && k < |s.lists[List(a)]| && tries > 0
    requires IsReal(s.lists[List(a)][k]) && Stripe(s, a, s.lists[List(a)][k]) in s.locks
    requires Counted(s, a, k - 1, tries - 1, removed, r)
    ensures Counted(s, a, k, tries, removed, r)
  {
    hide Effect;
  }

  /** The list ahead of an item that is taken out, and of one that is put in front. */
  lemma AheadOfGone(s: Cache, t: Cache, a: Ask, k: nat)
    requires List(a) < |s.lists| == |t.lists| && k < |s.lists[List(a)]| && NoDup(s.lists[List(a)])
    requires t.lists[List(a)] == Without(s.lists[List(a)], s.lists[List(a)][k])
    requires t.locks == s.locks && t.key == s.key && t.active == s.active
    ensures SameAhead(s, t, a, k - 1, 0)
  {
    SplitAt(s.lists[List(a)], k);
  }

  lemma AheadOfFront(s: Cache, t: Cache, a: Ask, k: nat)
    requires List(a) < |s.lists| == |t.lists| && k < |s.lists[List(a)]| && NoDup(s.lists[List(a)])
    requires var x := s.lists[List(a)][k];
             IsReal(x) && t.active == s.active - {x} && t.lists[List(a)] == [x] + Without(s.lists[List(a)], x)
    requires t.locks == s.locks && t.key == s.key
    ensures SameAhead(s, t, a, k - 1, 1)
  {
    SplitAt(s.lists[List(a)], k);
  }

  lemma PastReclaimed(s: Cache, a: Ask, k: nat, tries: nat, removed: nat, r: Pulled)
    requires Inv(s) && Proper(a) && k < |s.lists[List(a)]| && IsReal(s.lists[List(a)][k]) && tries > 0
    requires Pulls(s, a, s.lists[List(a)][k]) && s.lists[List(a)][k] in a.expired
    requires var t := Reclaimed(s, a, s.lists[List(a)][k]);
             List(a) < |t.lists| && k - 1 < |t.lists[List(a)]| && Counted(t, a, k - 1, tries - 1, removed + 1, r)
    ensures Counted(s, a, k, tries, removed, r)
  {
    hide Inv, Reclaimed, Fair, NoDup, Without, SameAhead;
    HasList(s, a);
    var x := s.lists[List(a)][k];
    var t := Reclaimed(s, a, x);
    InPulledList(s, a, k);
    ReclaimedIsFair(s, a, x);
    FairSame(s, t, a);
    ReclaimedShape(s, a, x);
    AheadOfGone(s, t, a, k);
    AheadMeets(s, t, a, k - 1, 0, tries - 1);
    TakenAway(s.linked, r.s.linked, x);
  }

  lemma FairSame(s: Cache, t: Cache, a: Ask)
    requires Fair(s, t, a)
    ensures t.locks == s.locks && t.key == s.key && |t.lists| == |s.lists|
  {
  }

  lemma PastRescued(s: Cache, a: Ask, k: nat, tries: nat, removed: nat, r: Pulled)
    requires Inv(s) && Proper(a) && k < |s.lists[List(a)]| && IsReal(s.lists[List(a)][k]) && tries > 0
    requires Pulls(s, a, s.lists[List(a)][k]) && s.lists[List(a)][k] in s.active && a.segment == WARM
    requires var t := Rescued(s, a, s.lists[List(a)][k]);
             var k1 := if k == 0 then -1 else k;
             List(a) < |t.lists| && k1 < |t.lists[List(a)]| && Counted(t, a, k1, tries - 1, removed + 1, r)
    ensures Counted(s, a, k, tries, removed, r)
  {
    hide Inv, Rescued, Fair, NoDup, Without, SameAhead;
    HasList(s, a);
    var x := s.lists[List(a)][k];
    var t := Rescued(s, a, x);
    InPulledList(s, a, k);
    RescuedIsFair(s, a, x);
    FairSame(s, t, a);
    RescuedShape(s, a, x);
    AheadOfFront(s, t, a, k);
    AheadMeets(s, t, a, k - 1, 1, tries - 1);
    TakenAway(s.active, r.s.active, x);
  }

  lemma AtLast(s: Cache, a: Ask, k: nat, tries: nat, removed: nat, r: Pulled)
    requires List(a) < |s.lists| && k < |s.lists[List(a)]| && IsReal(s.lists[List(a)][k])
    requires !Passed(s, a, s.lists[List(a)][k])
    requires r.s.linked <= s.linked && r.s.active <= s.active && r.removed == removed + Effect(s, a, r)
    ensures Counted(s, a, k, tries, removed, r)
  {
    hide Effect;
  }

  lemma {:induction false} PullCounts(s: Cache, a: Ask, k: int, tries: nat, removed: nat, seen: seq<nat>)
    requires Inv(s) && Proper(a) && -1 <= k < |s.lists[List(a)]|
    ensures Counted(s, a, k, tries, removed, Pull(s, a, k, tries, removed, seen))
    decreases tries, k + 1
  {
    hide Inv, Reclaimed, Rescued, Finish, NoDup, Counted;
    HasList(s, a);
    if tries == 0 || k < 0 {
      NothingDone(s, a, k, tries, removed, Pull(s, a, k, tries, removed, seen));
    } else {
      var x := s.lists[List(a)][k];
      if !IsReal(x) {
        if a.crawlBlocks {
          NothingDone(s, a, k, tries, removed, Pull(s, a, k, tries, removed, seen));
        } else {
          PullCounts(s, a, k - 1, tries, removed, seen);
          PastCrawler(s, a, k, tries, removed, Pull(s, a, k - 1, tries, removed, seen));
        }
      } else {
        InPulledList(s, a, k);
        if Stripe(s, a, x) in s.locks {
          PullCounts(s, a, k - 1, tries - 1, removed, seen + [x]);
          PastLocked(s, a, k, tries, removed, Pull(s, a, k - 1, tries - 1, removed, seen + [x]));
        } else {
          StepLists(s, a, k);
          if x in a.expired {
            HasList(Reclaimed(s, a, x), a);
            PullCounts(Reclaimed(s, a, x), a, k - 1, tries - 1, removed + 1, seen + [x]);
            PastReclaimed(s, a, k, tries, removed,
                          Pull(Reclaimed(s, a, x), a, k - 1, tries - 1, removed + 1, seen + [x]));
          } else if a.segment == WARM && x in s.active {
            var k1 := if k == 0 then -1 else k;
            HasList(Rescued(s, a, x), a);
            PullCounts(Rescued(s, a, x), a, k1, tries - 1, removed + 1, seen + [x]);
            PastRescued(s, a, k, tries, removed, Pull(Rescued(s, a, x), a, k1, tries - 1, removed + 1, seen + [x]));
          } else {
            FinishCounted(s, a, x, removed, seen + [x]);
            AtLast(s, a, k, tries, removed, Finish(s, a, x, removed, seen + [x]));
          }
        }
      }
    }
  }

  /** A walk up from place `k` comes to a crawler at `j`: the items in between are fewer than the tries,
      and each of them is passed. */
  ghost predicate Reaches(s: Cache, a: Ask, k: int, tries: nat, j: nat)
    requires List(a) < |s.lists| && k < |s.lists[List(a)]|
  {
    && j <= k && !IsReal(s.lists[List(a)][j]) && k - j < tries
    && forall i :: j < i <= k ==> IsReal(s.lists[List(a)][i]) && Passed(s, a, s.lists[List(a)][i])
  }

  /** The walk from the tail comes to a crawler that blocks it. */
  ghost predicate Blocked(s: Cache, a: Ask)
    requires List(a) < |s.lists|
  {
    var k := |s.lists[List(a)]| - 1;
    a.class_ != 0 && a.crawlBlocks && exists j :: Reaches(s, a, k, TRIES, j)
  }

  lemma {:induction false} MeetsIsReaches(s: Cache, a: Ask, k: int, tries: nat)
    requires List(a) < |s.lists| && -1 <= k < |s.lists[List(a)]|
    ensures MeetsCrawler(s, a, k, tries) <==> exists j :: Reaches(s, a, k, tries, j)
    decreases k + 1
  {
    hide Passed;
    if tries > 0 && k >= 0 {
      MeetsIsReaches(s, a, k - 1, tries - 1);
      if !IsReal(s.lists[List(a)][k]) {
        assert Reaches(s, a, k, tries, k);
      } else {
        forall j | Reaches(s, a, k, tries, j)
          ensures Passed(s, a, s.lists[List(a)][k]) && Reaches(s, a, k - 1, tries - 1, j)
        {
        }
        if MeetsCrawler(s, a, k, tries) {
          var j :| Reaches(s, a, k - 1, tries - 1, j);
          assert Reaches(s, a, k, tries, j);
        }
      }
    }
  }

  /** The count returned is the number of items unlinked, rescued and moved, unless the call was blocked
      by a crawler, when it is 0 whatever the call has done by then; and what it has done then is to
      work on every item behind the crawler that nobody else has locked. */
  lemma CountIsEffect(s: Cache, a: Ask)
    requires Inv(s) && Proper(a)
    ensures List(a) < |s.lists|
    ensures var r := PullTail(s, a);
            && r.removed == (if Blocked(s, a) then 0 else Effect(s, a, r))
            && (Blocked(s, a) ==> Effect(s, a, r) == Worked(s, a, |s.lists[List(a)]| - 1))
  {
    hide Inv, Pull, Worked;
    HasList(s, a);
    if a.class_ == 0 {
      NothingAtAll(s, a);
    } else {
      var k := |s.lists[List(a)]| - 1;
      PullCounts(s, a, k, TRIES, 0, []);
      MeetsIsReaches(s, a, k, TRIES);
    }
  }

  lemma NothingAtAll(s: Cache, a: Ask)
    requires Inv(s) && Proper(a) && a.class_ == 0
    ensures Effect(s, a, PullTail(s, a)) == 0
  {
    hide Inv;
    assert s.linked - s.linked == {} && s.active - s.active == {};
  }

  /** So the count is wrong exactly when the call is blocked after work on at least one item. */
  lemma CountIsRightUnless(s: Cache, a: Ask)
    requires Inv(s) && Proper(a)
    ensures List(a) < |s.lists|
    ensures PullTail(s, a).removed == Effect(s, a, PullTail(s, a)) <==>
            !(Blocked(s, a) && Worked(s, a, |s.lists[List(a)]| - 1) > 0)
  {
    hide Inv, PullTail, Effect, Blocked, Worked;
    HasList(s, a);
    CountIsEffect(s, a);
  }
}
