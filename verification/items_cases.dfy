/** Caches in which a pull from a tail does not do what its caller expects. */
module ItemPullCases {
  import opened Common
  import opened Lists
  import opened Items
  import opened CrawlerItems
  import opened ItemPull
  import opened ItemPullCount
  import opened ItemPullSeen
  import ItemRuns

  /** A cache of one item, linked in the given list. */
  function OneItem(x: nat, list: nat): Cache {
    var c := ItemRuns.Allocate(ItemRuns.Empty().s, x, [], 1, list);
    if list < LISTS then Link(c, x) else c
  }

  lemma OneItemOk(x: nat, list: nat)
    requires IsReal(x) && list < LISTS
    ensures var s := OneItem(x, list);
            && Inv(s) && |s.lists| == LISTS && s.lists[list] == [x] && s.linked == {x}
            && s.cls == map[x := list] && s.locks == {} && s.active == {}
  {
    hide OneList, TableOk, CountsOk, FieldsOk, RefsOk, TotalsOk, Extra, Sum;
    ItemRuns.EmptyIsGood();
    ItemRuns.AllocateKeeps(ItemRuns.Empty().s, x, [], 1, list);
    LinkKeeps(ItemRuns.Allocate(ItemRuns.Empty().s, x, [], 1, list), x);
  }

  /** An expired item with the crawler of its list in front of it: the item is unlinked and the count is
      0, if crawlers block the call. */
  lemma BlockedCountIsWrong(a: Ask, x: nat)
    requires Proper(a) && a.class_ != 0 && a.crawlBlocks && IsReal(x) && x in a.expired
    ensures List(a) < |OneItem(x, List(a)).lists|
    ensures var s := SetList(OneItem(x, List(a)), List(a), [List(a), x]);
            && Inv(s) && x in s.linked
            && x !in PullTail(s, a).s.linked && PullTail(s, a).removed == 0
  {
    hide Inv, OneItem, Reclaimed;
    var L := List(a);
    ClassOf(a);
    OneItemOk(x, L);
    var was := OneItem(x, L);
    assert [] + [x] == [x] && [] + [L] + [x] == [L, x];
    CrawlerIsNoItem(was, L, [], [x], false, [], [x], true);
    var s := SetList(was, L, [L, x]);
    assert Pulls(s, a, x);
    StepLists(s, a, 1);
    ReclaimedIsFair(s, a, x);
    ReclaimedShape(s, a, x);
    HasList(Reclaimed(s, a, x), a);
    AheadOfGone(s, Reclaimed(s, a, x), a, 1);
    var r := Pull(s, a, 1, TRIES, 0, []);
    assert r == Pull(Reclaimed(s, a, x), a, 0, TRIES - 1, 1, [x]);
  }

  /** An active item with the crawler of its WARM list in front of it: it is put back in front, and then met
      again and sent to COLD, if it is old enough for that. */
  lemma RescuedGoesCold(a: Ask, x: nat)
    requires Proper(a) && a.class_ != 0 && a.segment == WARM && !a.crawlBlocks
    requires IsReal(x) && x !in a.expired && x in a.aged
    ensures List(a) < |OneItem(x, List(a)).lists|
    ensures var s := SetList(OneItem(x, List(a)), List(a), [List(a), x]).(active := {x});
            && Inv(s) && x in s.active && PullTail(s, a).seen == [x, x]
            && x in PullTail(s, a).s.cls && PullTail(s, a).s.cls[x] == a.class_ + COLD
  {
    hide Inv, OneItem, Rescued, Finish, FateOf;
    var L := List(a);
    ClassOf(a);
    OneItemOk(x, L);
    var was := OneItem(x, L);
    assert [] + [x] == [x] && [] + [L] + [x] == [L, x];
    CrawlerIsNoItem(was, L, [], [x], false, [], [x], true);
    var s := SetList(was, L, [L, x]).(active := {x});
    AnyActive(SetList(was, L, [L, x]), {x});
    assert Pulls(s, a, x);
    StepLists(s, a, 1);
    RescuedIsFair(s, a, x);
    RescuedShape(s, a, x);
    var t := Rescued(s, a, x);
    assert Without([L, x], x) == [L];
    assert t.lists[L] == [x, L];
    HasList(t, a);
    assert Pull(s, a, 1, TRIES, 0, []) == Pull(t, a, 1, TRIES - 1, 1, [] + [x]);
    assert Pull(t, a, 1, TRIES - 1, 1, [x]) == Pull(t, a, 0, TRIES - 1, 1, [x]);
    InPulledList(t, a, 0);
    FairSame(s, t, a);
    assert [x] + [x] == [x, x];
    assert Pull(t, a, 0, TRIES - 1, 1, [x]) == Finish(t, a, x, 1, [x, x]);
    FateIsDone(t, a, x, 1, [x, x]);
    FateExactly(t, a, x);
    FinishRet(t, a, x, 1, [x, x]);
  }

  lemma {:induction false} Bound(e: set<nat>) returns (b: nat)
    ensures forall y :: y in e ==> y < b
    decreases |e|
  {
    if e == {} {
      b := 0;
    } else {
      var y :| y in e;
      var c := Bound(e - {y});
      b := if c > y then c else y + 1;
      assert forall z :: z in e ==> z == y || z in e - {y};
    }
  }

  /** The item left locked and referenced. */
  function Kept(a: Ask, r: Pulled): Ptr {
    if a.returnItem then r.stop else None
  }

  /** An item asked for from another list than COLD, or with eviction, is left locked and referenced
      although it is not returned. */
  lemma ItemIsLost(a: Ask) returns (s: Cache, x: nat)
    requires Proper(a) && a.class_ != 0 && a.returnItem && (a.segment != COLD || a.evict)
    ensures Inv(s) && x in s.linked && s.locks == {}
    ensures var r := PullTail(s, a);
            && r.ret == None && Kept(a, r) == Some(x)
            && r.s.locks == {Stripe(s, a, x)}
            && References(r.s, x) == References(s, x) + (if x in r.s.linked then 1 else 0)
  {
    hide Inv, OneItem, Finish;
    var b := Bound(a.expired);
    x := b + LISTS;
    ClassOf(a);
    OneItemOk(x, List(a));
    s := OneItem(x, List(a));
    assert Pulls(s, a, x);
    FinishRet(s, a, x, 0, [x]);
    assert Pull(s, a, 0, TRIES, 0, []) == Finish(s, a, x, 0, [x]) by {
      assert [] + [x] == [x];
    }
    PullTailIsBalanced(s, a);
  }

  /** The flags alone decide: in every cache just the item returned is kept, exactly when no item is asked
      for or one is asked for from a COLD list without eviction. */
  lemma FlagsDecide(a: Ask)
    requires Proper(a) && a.class_ != 0
    ensures (forall s :: Inv(s) ==> Kept(a, PullTail(s, a)) == PullTail(s, a).ret) <==>
            !a.returnItem || (a.segment == COLD && !a.evict)
  {
    hide Inv, PullTail;
    if a.returnItem && (a.segment != COLD || a.evict) {
      var s, x := ItemIsLost(a);
    } else {
      forall s | Inv(s) ensures Kept(a, PullTail(s, a)) == PullTail(s, a).ret {
        PullTailIsBalanced(s, a);
      }
    }
  }
}
