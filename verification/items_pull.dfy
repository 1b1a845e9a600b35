/** Pulling items off the tail of an LRU list. */
module ItemPull {
  import opened Common
  import opened Lists
  import opened Items

  /** What a call is asked, and the settings and times it looks at.  `expired` are the items past
      their time or flushed, `aged` those older than the maximum age. */
  datatype Ask = Ask(
    class_: nat, segment: nat,
    evict: bool, crawlBlocks: bool, returnItem: bool,
    totalBytes: nat, hotPct: nat, warmPct: nat,
    evictToFree: bool, segmented: bool,
    expired: set<nat>, aged: set<nat>,
    stripe: Key -> nat)

  function List(a: Ask): nat {
    a.class_ + a.segment
  }

  predicate Proper(a: Ask) {
    a.class_ < CLASSES && a.segment in {HOT, WARM, COLD, TEMP}
  }

  /** A HOT list without a share of its own has the share of the WARM list. */
  function Limit(a: Ask): nat {
    var hot := a.totalBytes * a.hotPct / 100;
    if a.segment == HOT && hot != 0 then hot else a.totalBytes * a.warmPct / 100
  }

  /** What happens to the item that ends the search. */
  datatype Fate = Stay | MoveTo(segment: nat) | Evict | Return

  function FateOf(s: Cache, a: Ask, x: nat): (fate: Fate)
    requires List(a) < |s.bytes|
    ensures fate.MoveTo? ==> fate.segment == if x in s.active then WARM else COLD
  {
    if a.segment == HOT || a.segment == WARM then
      if x in s.active then MoveTo(WARM)
      else if s.bytes[List(a)] > Limit(a) || x in a.aged then MoveTo(COLD)
      else Stay
    else if a.segment == COLD then
      if a.evict then (if a.evictToFree then Evict else Stay)
      else if a.returnItem then Return
      else if x in s.active && a.segmented then MoveTo(WARM)
      else Stay
    else Stay
  }

  /** The result of a call: the cache, the count it returns, the item at which the search ended, the
      item handed to the caller, and the items examined on the way. */
  datatype Pulled = Pulled(s: Cache, removed: nat, stop: Ptr, ret: Ptr, seen: seq<nat>)

  function Stripe(s: Cache, a: Ask, x: nat): nat {
    if x in s.key then a.stripe(s.key[x]) else 0
  }

  /** The item is locked and referenced while it is worked on. */
  function Hold(s: Cache, a: Ask, x: nat): Cache
    requires x in s.refs
  {
    Incr(s, x).(locks := s.locks + {Stripe(s, a, x)})
  }

  function Drop(s: Cache, a: Ask, x: nat): Cache
    requires x in s.refs && s.refs[x] > 0
  {
    Remove(s, x).(locks := s.locks - {Stripe(s, a, x)})
  }

  lemma HoldKeeps(s: Cache, a: Ask, x: nat)
    requires Inv(s) && x in s.linked
    ensures x in s.refs && Inv(Hold(s, a, x)) && x in Hold(s, a, x).refs && x in s.key
    ensures forall y :: Extra(Hold(s, a, x).refs, s.linked, y) == Extra(s.refs, s.linked, y) + if y == x then 1 else 0
  {
    hide OneList, TableOk, CountsOk, FieldsOk, TotalsOk, Extra;
    UnlinkFits(s, x);
    IncrKeeps(s, x);
  }

  lemma DropKeeps(s: Cache, a: Ask, x: nat)
    requires Inv(s) && x in s.refs && Extra(s.refs, s.linked, x) > 0
    ensures s.refs[x] > 0 && Inv(Drop(s, a, x))
    ensures forall y :: Extra(Drop(s, a, x).refs, s.linked, y) == Extra(s.refs, s.linked, y) - if y == x then 1 else 0
  {
    hide OneList, TableOk, CountsOk, FieldsOk, TotalsOk, Extra;
    RemoveKeeps(s, x);
  }

  /** An expired item is unlinked, and freed if nobody else refers to it. */
  function Reclaimed(s: Cache, a: Ask, x: nat): Cache
    requires Inv(s) && x in s.linked
  {
    HoldKeeps(s, a, x);
    UnlinkHeld(Hold(s, a, x), x);
    Drop(Unlink(Hold(s, a, x), x), a, x)
  }

  lemma UnlinkHeld(s: Cache, x: nat)
    requires Inv(s) && x in s.refs && Extra(s.refs, s.linked, x) > 0
    ensures Inv(Unlink(s, x)) && SameExtra(s, Unlink(s, x)) && x in Unlink(s, x).refs
    ensures Unlink(s, x).refs[x] > 0
  {
    hide OneList, TableOk, CountsOk, FieldsOk, TotalsOk, Unlink;
    UnlinkKeeps(s, x);
    assert Extra(Unlink(s, x).refs, Unlink(s, x).linked, x) > 0;
  }

  /** An active item of a WARM list goes back to its front, no longer active. */
  function Rescued(s: Cache, a: Ask, x: nat): Cache
    requires Inv(s) && x in s.linked && Proper(a)
  {
    HoldKeeps(s, a, x);
    var t := Hold(s, a, x).(active := s.active - {x});
    MoveKeeps(t, x, List(a));
    Drop(Move(t, x, List(a)), a, x)
  }

  /** The item that ends the search: its fate, and then its lock and reference are given up unless
      the caller asked for the item. */
  function Settled(s: Cache, a: Ask, x: nat): Cache
    requires Inv(s) && x in s.linked && Proper(a)
  {
    HoldKeeps(s, a, x);
    LinkFits(s, x);
    var t := Hold(s, a, x);
    match FateOf(s, a, x)
    case MoveTo(segment) =>
      var u := t.(active := s.active - {x});
      Move(u, x, a.class_ + segment)
    case Evict => Unlink(t, x)
    case _ => t
  }

  function Finish(s: Cache, a: Ask, x: nat, removed: nat, seen: seq<nat>): Pulled
    requires Inv(s) && x in s.linked && Proper(a)
  {
    SettledKeeps(s, a, x);
    LinkFits(s, x);
    var t := Settled(s, a, x);
    var fate := FateOf(s, a, x);
    Pulled(if a.returnItem then t else Drop(t, a, x),
           if fate.MoveTo? || fate.Evict? then removed + 1 else removed,
           Some(x), if fate.Return? then Some(x) else None, seen)
  }

  lemma SettledKeeps(s: Cache, a: Ask, x: nat)
    requires Inv(s) && x in s.linked && Proper(a)
    ensures Inv(Settled(s, a, x)) && x in Settled(s, a, x).refs && Settled(s, a, x).refs[x] > 0
    ensures SameExtra(Hold(s, a, x), Settled(s, a, x))
  {
    hide OneList, TableOk, CountsOk, FieldsOk, TotalsOk, Move, Unlink, FateOf;
    HoldKeeps(s, a, x);
    LinkFits(s, x);
    var t := Hold(s, a, x);
    match FateOf(s, a, x)
    case MoveTo(segment) =>
      var u := t.(active := s.active - {x});
      MoveKeeps(u, x, a.class_ + segment);
    case Evict => UnlinkHeld(t, x);
    case _ =>
  }

  lemma UnlinkShape(s: Cache, x: nat)
    requires Inv(s) && x in s.refs && x in s.linked
    ensures var t := Unlink(s, x);
            && x in s.cls && s.cls[x] < |s.lists| && t.lists == s.lists[s.cls[x] := Without(s.lists[s.cls[x]], x)]
            && t.linked == s.linked - {x} && t.locks == s.locks && t.key == s.key && t.active == s.active
            && t.cls == s.cls
  {
    hide OneList, TableOk, CountsOk, FieldsOk, TotalsOk, RefsOk;
    UnlinkFits(s, x);
  }

  /** What a call may have done once it holds nothing: items are linked only if they were; those no
      longer linked had expired or were evicted; counts of references other than the link's are as
      before; no lock is held that was not; and only lists of the class have changed. */
  ghost predicate Fair(s: Cache, t: Cache, a: Ask) {
    Inv(t) && SameExtra(s, t) && t.locks == s.locks && t.key == s.key && Unlinked(s, t, a) && OnlyClass(s, t, a)
  }

  ghost predicate Pulls(s: Cache, a: Ask, x: nat) {
    Inv(s) && Proper(a) && x in s.linked && x in s.cls && s.cls[x] == List(a) && Stripe(s, a, x) !in s.locks
  }

  lemma ReclaimedIsFair(s: Cache, a: Ask, x: nat)
    requires Pulls(s, a, x) && x in a.expired
    ensures Fair(s, Reclaimed(s, a, x), a)
    ensures Reclaimed(s, a, x).lists == s.lists[List(a) := Without(s.lists[List(a)], x)]
  {
    hide OneList, TableOk, CountsOk, FieldsOk, TotalsOk, RefsOk, Unlink, Without;
    HoldKeeps(s, a, x);
    var t := Hold(s, a, x);
    HeldMore(s, t, x);
    UnlinkHeld(t, x);
    UnlinkShape(t, x);
    assert Extra(Unlink(t, x).refs, Unlink(t, x).linked, x) == Extra(t.refs, t.linked, x);
    DropKeeps(Unlink(t, x), a, x);
    ClassOf(a);
    LinkFits(s, x);
    assert Reclaimed(s, a, x).locks == s.locks;
  }

  lemma HeldMore(s: Cache, t: Cache, x: nat)
    requires RefsOk(s.refs, s.linked) && x in s.linked && t.linked == s.linked
    requires Extra(t.refs, t.linked, x) == Extra(s.refs, s.linked, x) + 1
    ensures Extra(t.refs, t.linked, x) > 0 && x in t.refs
  {
  }

  lemma ClassOf(a: Ask)
    requires Proper(a)
    ensures List(a) < LISTS && Class(List(a)) == a.class_ && Segment(List(a)) == a.segment
    ensures Class(a.class_ + WARM) == a.class_ && Class(a.class_ + COLD) == a.class_
  {
  }

  lemma RescuedIsFair(s: Cache, a: Ask, x: nat)
    requires Pulls(s, a, x)
    ensures Fair(s, Rescued(s, a, x), a)
    ensures Rescued(s, a, x).lists == s.lists[List(a) := [x] + Without(s.lists[List(a)], x)]
  {
    hide OneList, TableOk, CountsOk, FieldsOk, TotalsOk, RefsOk, Move, Without, Extra;
    HoldKeeps(s, a, x);
    var t := Hold(s, a, x).(active := s.active - {x});
    HeldMore(s, t, x);
    LinkFits(s, x);
    ClassOf(a);
    MoveKeeps(t, x, List(a));
    MoveShape(t, x, List(a));
    DropKeeps(Move(t, x, List(a)), a, x);
    assert Rescued(s, a, x).locks == s.locks;
  }

  /** The item at which the search ends is left as it was found, too, unless it was asked for. */
  lemma FinishIsFair(s: Cache, a: Ask, x: nat, removed: nat, seen: seq<nat>)
    requires Pulls(s, a, x)
    ensures Settles(s, a, x, Finish(s, a, x, removed, seen).s)
  {
    hide OneList, TableOk, CountsOk, FieldsOk, TotalsOk, RefsOk, Settled, FateOf, Extra, Segment, Class;
    HoldKeeps(s, a, x);
    SettledKeeps(s, a, x);
    SettledShape(s, a, x);
    LinkFits(s, x);
    var t := Settled(s, a, x);
    assert SameExtra(Hold(s, a, x), t);
    if !a.returnItem {
      HeldMore(s, Hold(s, a, x), x);
      DropKeeps(t, a, x);
    }
  }

  ghost predicate Unlinked(s: Cache, t: Cache, a: Ask) {
    && t.linked <= s.linked
    && (forall x :: x in s.linked && x !in t.linked ==>
          x in a.expired || (a.evict && a.evictToFree && a.segment == COLD))
  }

  ghost predicate OnlyClass(s: Cache, t: Cache, a: Ask) {
    && |t.lists| == |s.lists| == LISTS
    && (forall i :: 0 <= i < LISTS && Class(i) != a.class_ ==> t.lists[i] == s.lists[i])
  }

  /** The same, with one more lock and one more reference if the item was asked for. */
  ghost predicate Settles(s: Cache, a: Ask, x: nat, t: Cache) {
    && Inv(t) && t.key == s.key && Unlinked(s, t, a) && OnlyClass(s, t, a)
    && t.locks == (if a.returnItem then s.locks + {Stripe(s, a, x)} else s.locks)
    && (forall y :: Extra(t.refs, t.linked, y) ==
                    Extra(s.refs, s.linked, y) + if a.returnItem && y == x then 1 else 0)
  }

  lemma SettledShape(s: Cache, a: Ask, x: nat)
    requires Pulls(s, a, x)
    ensures var t := Settled(s, a, x);
            && t.key == s.key && t.locks == s.locks + {Stripe(s, a, x)}
            && Unlinked(s, t, a) && OnlyClass(s, t, a)
  {
    hide OneList, TableOk, CountsOk, FieldsOk, TotalsOk, RefsOk, Move, Unlink, Without, Extra;
    HoldKeeps(s, a, x);
    LinkFits(s, x);
    ClassOf(a);
    var t := Hold(s, a, x);
    match FateOf(s, a, x)
    case MoveTo(segment) =>
      MoveShape(t.(active := s.active - {x}), x, a.class_ + segment);
    case Evict => UnlinkShape(t, x);
    case _ =>
  }

  lemma InPulledList(s: Cache, a: Ask, k: nat)
    requires Inv(s) && Proper(a) && k < |s.lists[List(a)]| && IsReal(s.lists[List(a)][k])
    ensures var x := s.lists[List(a)][k]; x in s.linked && x in s.cls && s.cls[x] == List(a)
    ensures NoDup(s.lists[List(a)])
  {
    hide TableOk, CountsOk, FieldsOk, TotalsOk, RefsOk, NoDup;
    InListAt(s.lists, s.cls, s.linked, List(a), k);
  }

  lemma InListAt(lists: seq<seq<nat>>, cls: map<nat, nat>, linked: set<nat>, c: nat, k: nat)
    requires OneList(lists, cls, linked) && c < LISTS && k < |lists[c]| && IsReal(lists[c][k])
    ensures lists[c][k] in linked && lists[c][k] in cls && cls[lists[c][k]] == c && NoDup(lists[c])
  {
    hide NoDup;
    assert lists[c][k] in lists[c];
  }

  lemma HasList(s: Cache, a: Ask)
    requires Inv(s) && Proper(a)
    ensures List(a) < |s.lists|
  {
  }

  lemma StepLists(s: Cache, a: Ask, k: nat)
    requires Inv(s) && Proper(a) && k < |s.lists[List(a)]| && IsReal(s.lists[List(a)][k])
    requires Pulls(s, a, s.lists[List(a)][k])
    ensures Inv(Rescued(s, a, s.lists[List(a)][k]))
    ensures |Rescued(s, a, s.lists[List(a)][k]).lists[List(a)]| == |s.lists[List(a)]|
    ensures s.lists[List(a)][k] in a.expired ==>
              && Inv(Reclaimed(s, a, s.lists[List(a)][k]))
              && |Reclaimed(s, a, s.lists[List(a)][k]).lists[List(a)]| == |s.lists[List(a)]| - 1
  {
    hide OneList, TableOk, CountsOk, FieldsOk, TotalsOk, RefsOk, Reclaimed, Rescued, Without, NoDup, SameExtra;
    HasList(s, a);
    var x := s.lists[List(a)][k];
    InPulledList(s, a, k);
    WithoutLength(s.lists[List(a)], x);
    RescuedIsFair(s, a, x);
    if x in a.expired {
      ReclaimedIsFair(s, a, x);
    }
  }

  /** Walking up from place `k` of the list.  A crawler costs no try; after a rescue the list ahead
      has become one longer. */
  function Pull(s: Cache, a: Ask, k: int, tries: nat, removed: nat, seen: seq<nat>): Pulled
    requires Inv(s) && Proper(a) && -1 <= k < |s.lists[List(a)]|
    decreases tries, k + 1
  {
    if tries == 0 || k < 0 then Pulled(s, removed, None, None, seen)
    else
      var x := s.lists[List(a)][k];
      if !IsReal(x) then
        if a.crawlBlocks then Pulled(s, 0, None, None, seen) else Pull(s, a, k - 1, tries, removed, seen)
      else
        InPulledList(s, a, k);
        if Stripe(s, a, x) in s.locks then Pull(s, a, k - 1, tries - 1, removed, seen + [x])
        else
          StepLists(s, a, k);
          if x in a.expired then Pull(Reclaimed(s, a, x), a, k - 1, tries - 1, removed + 1, seen + [x])
          else if a.segment == WARM && x in s.active then
            Pull(Rescued(s, a, x), a, if k == 0 then -1 else k, tries - 1, removed + 1, seen + [x])
          else Finish(s, a, x, removed, seen + [x])
  }

  ghost predicate PullOk(s: Cache, a: Ask, r: Pulled) {
    && (r.stop.None? ==> Fair(s, r.s, a))
    && (r.stop.Some? ==> Settles(s, a, r.stop.value, r.s))
  }

  lemma FairThenOk(s: Cache, t: Cache, a: Ask, r: Pulled)
    requires Fair(s, t, a) && PullOk(t, a, r)
    ensures PullOk(s, a, r)
  {
    hide Inv, Extra;
    if r.stop.None? {
      forall x ensures Extra(r.s.refs, r.s.linked, x) == Extra(s.refs, s.linked, x) {
        assert Extra(r.s.refs, r.s.linked, x) == Extra(t.refs, t.linked, x);
      }
    } else {
      assert Stripe(t, a, r.stop.value) == Stripe(s, a, r.stop.value);
    }
  }

  lemma FairSelf(s: Cache, a: Ask)
    requires Inv(s)
    ensures Fair(s, s, a)
  {
  }

  /** On every path a call leaves behind exactly the locks and references it found, and one of each
      on the item it ended at if the caller asked for the item. */
  lemma {:induction false} PullIsBalanced(s: Cache, a: Ask, k: int, tries: nat, removed: nat, seen: seq<nat>)
    requires Inv(s) && Proper(a) && -1 <= k < |s.lists[List(a)]|
    ensures PullOk(s, a, Pull(s, a, k, tries, removed, seen))
    decreases tries, k + 1
  {
    hide Inv, Reclaimed, Rescued, Finish, Fair, Settles, NoDup;
    FairSelf(s, a);
    HasList(s, a);
    if tries > 0 && k >= 0 {
      var x := s.lists[List(a)][k];
      if !IsReal(x) {
        if !a.crawlBlocks {
          PullIsBalanced(s, a, k - 1, tries, removed, seen);
        }
      } else {
        InPulledList(s, a, k);
        if Stripe(s, a, x) in s.locks {
          PullIsBalanced(s, a, k - 1, tries - 1, removed, seen + [x]);
        } else {
          StepLists(s, a, k);
          if x in a.expired {
            ReclaimedIsFair(s, a, x);
            PullIsBalanced(Reclaimed(s, a, x), a, k - 1, tries - 1, removed + 1, seen + [x]);
            FairThenOk(s, Reclaimed(s, a, x), a, Pull(s, a, k, tries, removed, seen));
          } else if a.segment == WARM && x in s.active {
            RescuedIsFair(s, a, x);
            PullIsBalanced(Rescued(s, a, x), a, if k == 0 then -1 else k, tries - 1, removed + 1, seen + [x]);
            FairThenOk(s, Rescued(s, a, x), a, Pull(s, a, k, tries, removed, seen));
          } else {
            FinishIsFair(s, a, x, removed, seen + [x]);
            FinishRet(s, a, x, removed, seen + [x]);
          }
        }
      }
    }
  }

  /** An item is handed out exactly when one was asked for and found, provided items are only asked
      for from COLD lists and without evicting.  Otherwise the item asked for stays locked and
      referenced although the caller never learns of it. */
  lemma {:induction false} ReturnsWhatItKeeps(s: Cache, a: Ask, k: int, tries: nat, removed: nat, seen: seq<nat>)
    requires Inv(s) && Proper(a) && -1 <= k < |s.lists[List(a)]|
    ensures var r := Pull(s, a, k, tries, removed, seen);
            (if a.returnItem then r.stop else None) == r.ret <==>
            !(a.returnItem && r.stop.Some? && (a.segment != COLD || a.evict))
    decreases tries, k + 1
  {
    hide Inv, Reclaimed, Rescued, Settled, NoDup;
    HasList(s, a);
    if tries > 0 && k >= 0 {
      var x := s.lists[List(a)][k];
      if !IsReal(x) {
        if !a.crawlBlocks {
          ReturnsWhatItKeeps(s, a, k - 1, tries, removed, seen);
        }
      } else {
        InPulledList(s, a, k);
        if Stripe(s, a, x) in s.locks {
          ReturnsWhatItKeeps(s, a, k - 1, tries - 1, removed, seen + [x]);
        } else {
          StepLists(s, a, k);
          if x in a.expired {
            ReturnsWhatItKeeps(Reclaimed(s, a, x), a, k - 1, tries - 1, removed + 1, seen + [x]);
          } else if a.segment == WARM && x in s.active {
            ReturnsWhatItKeeps(Rescued(s, a, x), a, if k == 0 then -1 else k, tries - 1, removed + 1, seen + [x]);
          } else {
            FinishRet(s, a, x, removed, seen + [x]);
          }
        }
      }
    }
  }

  lemma FinishRet(s: Cache, a: Ask, x: nat, removed: nat, seen: seq<nat>)
    requires Pulls(s, a, x)
    ensures var r := Finish(s, a, x, removed, seen);
            && r.stop == Some(x) && r.seen == seen && r.removed <= removed + 1
            && r.ret == if a.returnItem && a.segment == COLD && !a.evict then Some(x) else None
  {
    hide Settled, OneList, TableOk, CountsOk, FieldsOk, TotalsOk, RefsOk;
    HoldKeeps(s, a, x);
    LinkFits(s, x);
  }

  /** At most as many real items are examined as there are tries, and no more are counted. */
  lemma {:induction false} PullIsBounded(s: Cache, a: Ask, k: int, tries: nat, removed: nat, seen: seq<nat>)
    requires Inv(s) && Proper(a) && -1 <= k < |s.lists[List(a)]|
    requires forall i :: 0 <= i < |seen| ==> IsReal(seen[i])
    ensures var r := Pull(s, a, k, tries, removed, seen);
            && |r.seen| <= |seen| + tries
            && r.removed <= removed + tries
            && (forall i :: 0 <= i < |r.seen| ==> IsReal(r.seen[i]))
    decreases tries, k + 1
  {
    hide Inv, Reclaimed, Rescued, Settled, NoDup;
    HasList(s, a);
    if tries > 0 && k >= 0 {
      var x := s.lists[List(a)][k];
      if !IsReal(x) {
        if !a.crawlBlocks {
          PullIsBounded(s, a, k - 1, tries, removed, seen);
        }
      } else {
        InPulledList(s, a, k);
        if Stripe(s, a, x) in s.locks {
          PullIsBounded(s, a, k - 1, tries - 1, removed, seen + [x]);
        } else {
          StepLists(s, a, k);
          if x in a.expired {
            PullIsBounded(Reclaimed(s, a, x), a, k - 1, tries - 1, removed + 1, seen + [x]);
          } else if a.segment == WARM && x in s.active {
            PullIsBounded(Rescued(s, a, x), a, if k == 0 then -1 else k, tries - 1, removed + 1, seen + [x]);
          } else {
            FinishRet(s, a, x, removed, seen + [x]);
          }
        }
      }
    }
  }

  const TRIES := 5

  /** A whole call, from the tail of the list; class 0 has no items. */
  function PullTail(s: Cache, a: Ask): Pulled
    requires Inv(s) && Proper(a)
  {
    if a.class_ == 0 then Pulled(s, 0, None, None, [])
    else Pull(s, a, |s.lists[List(a)]| - 1, TRIES, 0, [])
  }

  /** A call examines at most five items.  Every item still linked afterwards has the count of
      references it had, every other loses the one its link was and is freed if that was the last;
      the one item kept for the caller has one more, and only its lock stays taken. */
  lemma PullTailIsBalanced(s: Cache, a: Ask)
    requires Inv(s) && Proper(a)
    ensures var r := PullTail(s, a);
            var kept := if a.returnItem then r.stop else None;
            && Inv(r.s) && Unlinked(s, r.s, a) && OnlyClass(s, r.s, a)
            && |r.seen| <= TRIES && r.removed <= TRIES
            && r.s.locks == s.locks + (if kept.Some? then {Stripe(s, a, kept.value)} else {})
            && (forall x :: References(r.s, x) ==
                            References(s, x) - (if x in s.linked && x !in r.s.linked then 1 else 0)
                            + if kept == Some(x) then 1 else 0)
            && (kept == r.ret <==> !(a.returnItem && r.stop.Some? && (a.segment != COLD || a.evict)))
  {
    hide OneList, TableOk, CountsOk, FieldsOk, TotalsOk, RefsOk, Pull, OnlyClass;
    FairSelf(s, a);
    if a.class_ != 0 {
      HasList(s, a);
      var k := |s.lists[List(a)]| - 1;
      PullIsBalanced(s, a, k, TRIES, 0, []);
      PullIsBounded(s, a, k, TRIES, 0, []);
      ReturnsWhatItKeeps(s, a, k, TRIES, 0, []);
    }
    var r := PullTail(s, a);
    forall x ensures References(r.s, x) ==
                     References(s, x) - (if x in s.linked && x !in r.s.linked then 1 else 0)
                     + if (if a.returnItem then r.stop else None) == Some(x) then 1 else 0
    {
      assert Extra(r.s.refs, r.s.linked, x)
          == Extra(s.refs, s.linked, x) + if a.returnItem && r.stop == Some(x) then 1 else 0;
    }
  }

  /** How many references an item has; none once it is freed. */
  function References(s: Cache, x: nat): nat {
    if x in s.refs then s.refs[x] else 0
  }

  lemma SettledExact(s: Cache, a: Ask, x: nat)
    requires Pulls(s, a, x)
    ensures var t := Settled(s, a, x);
            && |t.lists| == LISTS && List(a) < |s.bytes|
            && match FateOf(s, a, x) {
                 case MoveTo(segment) =>
                   && t.linked == s.linked && t.active == s.active - {x} && t.cls == s.cls[x := a.class_ + segment]
                   && a.class_ + segment < LISTS && t.lists[a.class_ + segment] != []
                   && t.lists[a.class_ + segment][0] == x
                 case Evict => t.linked == s.linked - {x} && t.active == s.active && t.cls == s.cls
                 case _ => t.lists == s.lists && t.linked == s.linked && t.active == s.active && t.cls == s.cls
               }
  {
    hide Inv, Move, Unlink, FateOf, Without, Extra, SameExtra, Class, Segment;
    HoldKeeps(s, a, x);
    LinkFits(s, x);
    ClassOf(a);
    SettledShape(s, a, x);
    var t := Hold(s, a, x);
    match FateOf(s, a, x)
    case MoveTo(segment) =>
      AnyActive(t, s.active - {x});
      MoveShape(t.(active := s.active - {x}), x, a.class_ + segment);
    case Evict => UnlinkShape(t, x);
    case _ =>
  }

  /** What becomes of the item that ends the search: moved, it is in front of the list of its class
      in the segment it was sent to and no longer active; evicted, it is not linked; and otherwise
      all lists are as they were. */
  lemma FateIsDone(s: Cache, a: Ask, x: nat, removed: nat, seen: seq<nat>)
    requires Pulls(s, a, x)
    ensures var r := Finish(s, a, x, removed, seen);
            && |r.s.lists| == LISTS && List(a) < |s.bytes|
            && match FateOf(s, a, x) {
                 case MoveTo(segment) =>
                   && r.removed == removed + 1 && r.s.linked == s.linked
                   && r.s.active == s.active - {x} && r.s.cls == s.cls[x := a.class_ + segment]
                   && a.class_ + segment < LISTS && r.s.lists[a.class_ + segment] != []
                   && r.s.lists[a.class_ + segment][0] == x
                 case Evict =>
                   && r.removed == removed + 1 && r.s.linked == s.linked - {x}
                   && r.s.active == s.active && r.s.cls == s.cls
                 case _ =>
                   && r.removed == removed && r.s.lists == s.lists && r.s.linked == s.linked
                   && r.s.active == s.active && r.s.cls == s.cls
               }
  {
    hide Inv, FateOf, Settled, SameExtra;
    HoldKeeps(s, a, x);
    LinkFits(s, x);
    SettledKeeps(s, a, x);
    SettledExact(s, a, x);
  }

  lemma AnyActive(s: Cache, active: set<nat>)
    requires Inv(s)
    ensures Inv(s.(active := active))
  {
  }

  /** When each fate is met.  An item is moved to COLD when its list holds more than its share of all
      bytes, where a HOT list whose share comes to less than a byte has the share of a WARM list. */
  lemma FateExactly(s: Cache, a: Ask, x: nat)
    requires Proper(a) && List(a) < |s.bytes|
    ensures var fate := FateOf(s, a, x);
            var warmer := a.segment == HOT || a.segment == WARM;
            var pct := if a.segment == HOT && a.totalBytes * a.hotPct >= 100 then a.hotPct else a.warmPct;
            && (fate == MoveTo(WARM) <==>
                  x in s.active && (warmer || (a.segment == COLD && a.segmented && !a.evict && !a.returnItem)))
            && (fate == MoveTo(COLD) <==>
                  x !in s.active && warmer && (100 * s.bytes[List(a)] > a.totalBytes * pct || x in a.aged))
            && (fate == Evict <==> a.segment == COLD && a.evict && a.evictToFree)
            && (fate == Return <==> a.segment == COLD && !a.evict && a.returnItem)
            && (fate.MoveTo? ==> fate.segment == WARM || fate.segment == COLD)
  {
    Share(s.bytes[List(a)], a.totalBytes * a.hotPct);
    Share(s.bytes[List(a)], a.totalBytes * a.warmPct);
  }

  lemma Share(bytes: nat, total: nat)
    ensures bytes > total / 100 <==> 100 * bytes > total
    ensures total / 100 != 0 <==> total >= 100
  {
  }
}
