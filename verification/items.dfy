/** The items of the cache: their link in the hash table, their place in the LRU lists, and their
    reference counts, as `items.c` changes them. */
module Items {
  import opened Common
  import opened Lists
  import opened LruLists
  import Assoc

  type Key = Assoc.Key

  /** The number of LRU lists; list `i` has class `i % CLASSES` and segment `i - i % CLASSES`. */
  const LISTS := 256
  const CLASSES := 64
  const HOT := 0
  const WARM := 64
  const COLD := 128
  const TEMP := 192

  /** Items 0 to LISTS - 1 are the crawlers, crawler `i` of list `i`; all others are real items. */
  predicate IsReal(id: nat) {
    id >= LISTS
  }

  datatype Cache = Cache(
    lists: seq<seq<nat>>,
    cls: map<nat, nat>,
    key: map<nat, Key>,
    weight: map<nat, nat>,
    linked: set<nat>,
    active: set<nat>,
    refs: map<nat, nat>,
    table: map<Key, nat>,
    sizes: seq<nat>,
    bytes: seq<nat>,
    currItems: nat,
    locks: set<nat>)

  /** The number of real items of a list, and what they weigh together. */
  function Count(ids: seq<nat>): nat {
    if ids == [] then 0 else (if IsReal(ids[0]) then 1 else 0) + Count(ids[1..])
  }

  function Weigh(weight: map<nat, nat>, ids: seq<nat>): nat {
    if ids == [] then 0
    else (if IsReal(ids[0]) && ids[0] in weight then weight[ids[0]] else 0) + Weigh(weight, ids[1..])
  }

  /** An item is in the list its class names, and in no other, exactly when it is linked; a crawler
      is at most in its own list. */
  ghost predicate OneList(lists: seq<seq<nat>>, cls: map<nat, nat>, linked: set<nat>) {
    && |lists| == LISTS
    && (forall i :: 0 <= i < LISTS ==> NoDup(lists[i]))
    && (forall i, x :: 0 <= i < LISTS && x in lists[i] && IsReal(x) ==> x in linked && x in cls && cls[x] == i)
    && (forall i, x :: 0 <= i < LISTS && x in lists[i] && !IsReal(x) ==> x == i)
    && (forall x :: x in linked ==> IsReal(x) && x in cls && cls[x] < LISTS && x in lists[cls[x]])
  }

  /** The table holds exactly the linked items, each under its own key. */
  ghost predicate TableOk(table: map<Key, nat>, key: map<nat, Key>, linked: set<nat>) {
    && (forall k :: k in table ==> table[k] in linked && table[k] in key && key[table[k]] == k)
    && (forall x :: x in linked ==> x in key && key[x] in table && table[key[x]] == x)
  }

  /** An item lives as long as it is referenced; being linked is one reference. */
  ghost predicate RefsOk(refs: map<nat, nat>, linked: set<nat>) {
    && (forall x :: x in refs ==> refs[x] > 0)
    && (forall x :: x in linked ==> x in refs)
  }

  /** The references to an item beside its link. */
  ghost function Extra(refs: map<nat, nat>, linked: set<nat>, x: nat): int {
    (if x in refs then refs[x] else 0) as int - (if x in linked then 1 else 0)
  }

  ghost predicate CountsOk(lists: seq<seq<nat>>, sizes: seq<nat>, bytes: seq<nat>, weight: map<nat, nat>) {
    && |sizes| == |bytes| == |lists|
    && (forall i :: 0 <= i < |lists| ==> sizes[i] == Count(lists[i]))
    && (forall i :: 0 <= i < |lists| ==> bytes[i] == Weigh(weight, lists[i]))
  }

  /** The item count is the size of the table and the sum of the list sizes. */
  ghost predicate TotalsOk(currItems: nat, table: map<Key, nat>, sizes: seq<nat>) {
    currItems == |table| && currItems == Sum(sizes)
  }

  /** A live item has a list, a key and a weight. */
  ghost predicate FieldsOk(refs: map<nat, nat>, cls: map<nat, nat>, key: map<nat, Key>, weight: map<nat, nat>) {
    forall x :: x in refs ==> IsReal(x) && x in cls && cls[x] < LISTS && x in key && x in weight
  }

  ghost predicate Inv(s: Cache) {
    && OneList(s.lists, s.cls, s.linked)
    && TableOk(s.table, s.key, s.linked)
    && RefsOk(s.refs, s.linked)
    && CountsOk(s.lists, s.sizes, s.bytes, s.weight)
    && TotalsOk(s.currItems, s.table, s.sizes)
    && FieldsOk(s.refs, s.cls, s.key, s.weight)
  }

  /** `do_item_link_q` and `do_item_unlink_q`. */
  function LinkQ(s: Cache, it: nat): Cache
    requires it in s.cls && it in s.weight && s.cls[it] < |s.lists| == |s.sizes| == |s.bytes|
  {
    var c := s.cls[it];
    s.(lists := s.lists[c := [it] + s.lists[c]],
       sizes := s.sizes[c := s.sizes[c] + 1],
       bytes := s.bytes[c := s.bytes[c] + s.weight[it]])
  }

  function UnlinkQ(s: Cache, it: nat): Cache
    requires it in s.cls && it in s.weight && s.cls[it] < |s.lists| == |s.sizes| == |s.bytes|
    requires s.sizes[s.cls[it]] > 0 && s.bytes[s.cls[it]] >= s.weight[it]
  {
    var c := s.cls[it];
    s.(lists := s.lists[c := Without(s.lists[c], it)],
       sizes := s.sizes[c := s.sizes[c] - 1],
       bytes := s.bytes[c := s.bytes[c] - s.weight[it]])
  }

  /** `refcount_incr`, and `do_item_remove`, which frees the item with its last reference. */
  function Incr(s: Cache, it: nat): Cache
    requires it in s.refs
  {
    s.(refs := s.refs[it := s.refs[it] + 1])
  }

  function Remove(s: Cache, it: nat): Cache
    requires it in s.refs && s.refs[it] > 0
  {
    if s.refs[it] == 1 then s.(refs := s.refs - {it}) else s.(refs := s.refs[it := s.refs[it] - 1])
  }

  /** `do_item_link`: sets the flag, counts the item, and puts it in the table and its list. */
  function Link(s: Cache, it: nat): Cache
    requires it in s.cls && it in s.weight && s.cls[it] < |s.lists| == |s.sizes| == |s.bytes|
    requires it in s.key && it in s.refs
  {
    var s1 := s.(linked := s.linked + {it}, currItems := s.currItems + 1, table := s.table[s.key[it] := it]);
    Incr(LinkQ(s1, it), it)
  }

  /** `do_item_unlink`: undoes the link of a linked item and drops the reference it was. */
  function Unlink(s: Cache, it: nat): Cache
    requires Inv(s) && it in s.refs
  {
    if it in s.linked then
      UnlinkFits(s, it);
      var s1 := s.(linked := s.linked - {it}, currItems := s.currItems - 1, table := s.table - {s.key[it]});
      Remove(UnlinkQ(s1, it), it)
    else s
  }

  lemma {:induction false} CountWithout(weight: map<nat, nat>, ids: seq<nat>, x: nat)
    requires NoDup(ids) && x in ids && IsReal(x) && x in weight
    ensures Count(ids) == Count(Without(ids, x)) + 1
    ensures Weigh(weight, ids) == Weigh(weight, Without(ids, x)) + weight[x]
  {
    if ids[0] == x {
      assert x !in ids[1..] by {
        assert forall i :: 0 <= i < |ids[1..]| ==> ids[1..][i] == ids[i + 1];
      }
      WithoutAbsent(ids[1..], x);
    } else {
      assert ids == [ids[0]] + ids[1..];
      CountWithout(weight, ids[1..], x);
      var rest := [ids[0]] + Without(ids[1..], x);
      assert rest[1..] == Without(ids[1..], x);
    }
  }

  /** A linked item can be counted out of its list and out of the table. */
  lemma UnlinkFits(s: Cache, it: nat)
    requires Inv(s) && it in s.linked
    ensures it in s.cls && it in s.key && it in s.weight && it in s.refs && s.refs[it] > 0
    ensures s.cls[it] < |s.lists| == |s.sizes| == |s.bytes|
    ensures s.sizes[s.cls[it]] > 0 && s.bytes[s.cls[it]] >= s.weight[it]
    ensures s.currItems > 0
  {
    CountWithout(s.weight, s.lists[s.cls[it]], it);
    assert s.key[it] in s.table.Keys;
    assert |s.table| == |s.table.Keys|;
  }

  /** Takes a linked item to the front of list `to`. */
  function Move(s: Cache, it: nat, to: nat): Cache
    requires Inv(s) && it in s.linked && to < LISTS
  {
    UnlinkFits(s, it);
    LinkQ(UnlinkQ(s, it).(cls := s.cls[it := to]), it)
  }

  /** `do_item_update`: with segmented lists a hit moves an active item from COLD to WARM; otherwise
      an item not bumped for a while goes back to the front of its list. */
  function Update(s: Cache, it: nat, segmented: bool, idle: bool): Cache
    requires Inv(s) && it in s.refs
  {
    if it !in s.linked then s
    else if segmented then
      if Segment(s.cls[it]) == COLD && it in s.active then
        Move(s, it, Class(s.cls[it]) + WARM).(active := s.active - {it})
      else s
    else if idle then Move(s, it, s.cls[it])
    else s
  }

  function Class(list: nat): nat {
    list % CLASSES
  }

  function Segment(list: nat): nat {
    list - list % CLASSES
  }

  lemma OneListLink(lists: seq<seq<nat>>, cls: map<nat, nat>, linked: set<nat>, it: nat)
    requires OneList(lists, cls, linked) && it !in linked && IsReal(it) && it in cls && cls[it] < LISTS
    ensures OneList(lists[cls[it] := [it] + lists[cls[it]]], cls, linked + {it})
  {
    var c := cls[it];
    assert it !in lists[c];
    NoDupParts([it], lists[c]);
    assert forall x :: x in linked && cls[x] == c ==> x in [it] + lists[c];
  }

  lemma OneListUnlink(lists: seq<seq<nat>>, cls: map<nat, nat>, linked: set<nat>, it: nat)
    requires OneList(lists, cls, linked) && it in linked
    ensures OneList(lists[cls[it] := Without(lists[cls[it]], it)], cls, linked - {it})
  {
    WithoutNoDup(lists[cls[it]], it);
  }

  lemma CountsUpdate(lists: seq<seq<nat>>, sizes: seq<nat>, bytes: seq<nat>, weight: map<nat, nat>,
                     c: nat, ids: seq<nat>)
    requires CountsOk(lists, sizes, bytes, weight) && c < |lists|
    ensures CountsOk(lists[c := ids], sizes[c := Count(ids)], bytes[c := Weigh(weight, ids)], weight)
  {
  }

  lemma TableLink(table: map<Key, nat>, key: map<nat, Key>, linked: set<nat>, it: nat)
    requires TableOk(table, key, linked) && it !in linked && it in key && key[it] !in table
    ensures TableOk(table[key[it] := it], key, linked + {it})
    ensures |table[key[it] := it]| == |table| + 1
  {
    var t := table[key[it] := it];
    assert t.Keys == table.Keys + {key[it]};
    assert |t| == |t.Keys| && |table| == |table.Keys|;
  }

  lemma TableUnlink(table: map<Key, nat>, key: map<nat, Key>, linked: set<nat>, it: nat)
    requires TableOk(table, key, linked) && it in linked
    ensures TableOk(table - {key[it]}, key, linked - {it})
    ensures |table - {key[it]}| == |table| - 1
  {
    var t := table - {key[it]};
    assert t.Keys == table.Keys - {key[it]};
    assert |t| == |t.Keys| && |table| == |table.Keys|;
  }

  ghost predicate SameExtra(s: Cache, t: Cache) {
    forall x :: Extra(t.refs, t.linked, x) == Extra(s.refs, s.linked, x)
  }

  lemma LinkFits(s: Cache, it: nat)
    requires Inv(s) && it in s.refs
    ensures it in s.cls && it in s.weight && it in s.key && IsReal(it)
    ensures s.cls[it] < |s.lists| == |s.sizes| == |s.bytes| == LISTS
  {
  }

  /** The counters after an item joins list `c`, and after it leaves it. */
  lemma CountsLink(lists: seq<seq<nat>>, sizes: seq<nat>, bytes: seq<nat>, weight: map<nat, nat>, c: nat, it: nat)
    requires CountsOk(lists, sizes, bytes, weight) && c < |lists| && IsReal(it) && it in weight
    ensures CountsOk(lists[c := [it] + lists[c]], sizes[c := sizes[c] + 1], bytes[c := bytes[c] + weight[it]], weight)
    ensures Sum(sizes[c := sizes[c] + 1]) == Sum(sizes) + 1
  {
    var ids := [it] + lists[c];
    assert ids[1..] == lists[c];
    CountsUpdate(lists, sizes, bytes, weight, c, ids);
    SumUpdate(sizes, c, sizes[c] + 1);
  }

  lemma CountsUnlink(lists: seq<seq<nat>>, sizes: seq<nat>, bytes: seq<nat>, weight: map<nat, nat>, c: nat, it: nat)
    requires CountsOk(lists, sizes, bytes, weight) && c < |lists| && IsReal(it) && it in weight
    requires NoDup(lists[c]) && it in lists[c]
    ensures sizes[c] > 0 && bytes[c] >= weight[it]
    ensures CountsOk(lists[c := Without(lists[c], it)], sizes[c := sizes[c] - 1], bytes[c := bytes[c] - weight[it]],
                     weight)
    ensures Sum(sizes[c := sizes[c] - 1]) == Sum(sizes) - 1
  {
    CountWithout(weight, lists[c], it);
    CountsUpdate(lists, sizes, bytes, weight, c, Without(lists[c], it));
    SumUpdate(sizes, c, sizes[c] - 1);
  }

  lemma RefsLink(refs: map<nat, nat>, linked: set<nat>, it: nat)
    requires RefsOk(refs, linked) && it in refs && it !in linked
    ensures RefsOk(refs[it := refs[it] + 1], linked + {it})
    ensures forall x :: Extra(refs[it := refs[it] + 1], linked + {it}, x) == Extra(refs, linked, x)
  {
  }

  lemma RefsUnlink(s: Cache, it: nat, linked: set<nat>)
    requires RefsOk(s.refs, linked) && it in s.refs && it in linked
    ensures RefsOk(Remove(s, it).refs, linked - {it})
    ensures forall x :: Extra(Remove(s, it).refs, linked - {it}, x) == Extra(s.refs, linked, x)
  {
  }

  /** Linking an unlinked item under a free key keeps the invariant. */
  lemma LinkKeeps(s: Cache, it: nat)
    requires Inv(s) && it in s.refs && it !in s.linked && s.key[it] !in s.table
    ensures Inv(Link(s, it)) && SameExtra(s, Link(s, it))
    ensures Link(s, it).linked == s.linked + {it}
  {
    hide OneList, TableOk, CountsOk, FieldsOk, RefsOk, Extra, Sum;
    LinkFits(s, it);
    OneListLink(s.lists, s.cls, s.linked, it);
    CountsLink(s.lists, s.sizes, s.bytes, s.weight, s.cls[it], it);
    TableLink(s.table, s.key, s.linked, it);
    RefsLink(s.refs, s.linked, it);
    FieldsSame(s.refs, s.refs[it := s.refs[it] + 1], s.cls, s.key, s.weight);
  }

  lemma FieldsSame(refs: map<nat, nat>, refs1: map<nat, nat>, cls: map<nat, nat>, key: map<nat, Key>,
                   weight: map<nat, nat>)
    requires FieldsOk(refs, cls, key, weight) && refs1.Keys <= refs.Keys
    ensures FieldsOk(refs1, cls, key, weight)
  {
    assert forall x :: x in refs1 ==> x in refs1.Keys;
  }

  /** Unlinking keeps the invariant; the item loses just the reference that its link was. */
  lemma UnlinkKeeps(s: Cache, it: nat)
    requires Inv(s) && it in s.refs
    ensures Inv(Unlink(s, it)) && SameExtra(s, Unlink(s, it))
    ensures Unlink(s, it).linked == s.linked - {it}
  {
    if it in s.linked {
      UnlinkLinked(s, it);
    }
  }

  lemma InList(lists: seq<seq<nat>>, cls: map<nat, nat>, linked: set<nat>, it: nat)
    requires OneList(lists, cls, linked) && it in linked
    ensures IsReal(it) && it in cls && cls[it] < LISTS == |lists| && it in lists[cls[it]] && NoDup(lists[cls[it]])
  {
  }

  lemma UnlinkLinked(s: Cache, it: nat)
    requires Inv(s) && it in s.refs && it in s.linked
    ensures Inv(Unlink(s, it)) && SameExtra(s, Unlink(s, it))
    ensures Unlink(s, it).linked == s.linked - {it}
  {
    hide OneList, TableOk, CountsOk, FieldsOk, RefsOk, Extra, Sum;
    UnlinkFits(s, it);
    InList(s.lists, s.cls, s.linked, it);
    OneListUnlink(s.lists, s.cls, s.linked, it);
    CountsUnlink(s.lists, s.sizes, s.bytes, s.weight, s.cls[it], it);
    TableUnlink(s.table, s.key, s.linked, it);
    RefsUnlink(s, it, s.linked);
    FieldsSame(s.refs, Unlink(s, it).refs, s.cls, s.key, s.weight);
  }

  /** Taking a reference, and giving up one that is not the link's. */
  lemma IncrKeeps(s: Cache, it: nat)
    requires Inv(s) && it in s.refs
    ensures Inv(Incr(s, it))
    ensures forall x :: Extra(Incr(s, it).refs, s.linked, x) == Extra(s.refs, s.linked, x) + if x == it then 1 else 0
  {
    hide OneList, TableOk, CountsOk, FieldsOk, Sum;
    FieldsSame(s.refs, Incr(s, it).refs, s.cls, s.key, s.weight);
  }

  lemma RemoveKeeps(s: Cache, it: nat)
    requires Inv(s) && it in s.refs && Extra(s.refs, s.linked, it) > 0
    ensures Inv(Remove(s, it))
    ensures forall x :: Extra(Remove(s, it).refs, s.linked, x) == Extra(s.refs, s.linked, x) - if x == it then 1 else 0
  {
    hide OneList, TableOk, CountsOk, FieldsOk, Sum;
    FieldsSame(s.refs, Remove(s, it).refs, s.cls, s.key, s.weight);
  }

  lemma OneListCls(lists: seq<seq<nat>>, cls: map<nat, nat>, linked: set<nat>, it: nat, to: nat)
    requires OneList(lists, cls, linked) && it !in linked && IsReal(it)
    ensures OneList(lists, cls[it := to], linked)
  {
  }

  /** Moving a linked item keeps it linked, in the list it was moved to. */
  lemma MoveKeeps(s: Cache, it: nat, to: nat)
    requires Inv(s) && it in s.linked && to < LISTS
    ensures Inv(Move(s, it, to)) && Move(s, it, to).linked == s.linked && Move(s, it, to).refs == s.refs
  {
    hide OneList, TableOk, CountsOk, FieldsOk, Sum;
    UnlinkFits(s, it);
    InList(s.lists, s.cls, s.linked, it);
    var c, off, cls1 := s.cls[it], s.linked - {it}, s.cls[it := to];
    var lists1 := s.lists[c := Without(s.lists[c], it)];
    var sizes1, bytes1 := s.sizes[c := s.sizes[c] - 1], s.bytes[c := s.bytes[c] - s.weight[it]];
    OneListUnlink(s.lists, s.cls, s.linked, it);
    CountsUnlink(s.lists, s.sizes, s.bytes, s.weight, c, it);
    OneListCls(lists1, s.cls, off, it, to);
    OneListLink(lists1, cls1, off, it);
    CountsLink(lists1, sizes1, bytes1, s.weight, to, it);
    assert off + {it} == s.linked;
    FieldsCls(s.refs, s.cls, s.key, s.weight, it, to);
  }

  lemma FieldsCls(refs: map<nat, nat>, cls: map<nat, nat>, key: map<nat, Key>, weight: map<nat, nat>, it: nat, to: nat)
    requires FieldsOk(refs, cls, key, weight) && to < LISTS
    ensures FieldsOk(refs, cls[it := to], key, weight)
  {
  }

  lemma UpdateKeeps(s: Cache, it: nat, segmented: bool, idle: bool)
    requires Inv(s) && it in s.refs
    ensures Inv(Update(s, it, segmented, idle)) && SameExtra(s, Update(s, it, segmented, idle))
    ensures Update(s, it, segmented, idle).linked == s.linked
  {
    hide OneList, TableOk, CountsOk, FieldsOk, RefsOk, Extra, Move, Sum;
    if it in s.linked {
      UnlinkFits(s, it);
      LinkFits(s, it);
      MoveKeeps(s, it, Class(s.cls[it]) + WARM);
      MoveKeeps(s, it, s.cls[it]);
    }
  }

  lemma MoveShape(s: Cache, x: nat, to: nat)
    requires Inv(s) && x in s.linked && to < LISTS
    ensures x in s.cls && s.cls[x] < LISTS == |s.lists|
    ensures var t := Move(s, x, to);
            var off := s.lists[s.cls[x] := Without(s.lists[s.cls[x]], x)];
            && t.lists == off[to := [x] + off[to]] && t.linked == s.linked && t.refs == s.refs
            && t.locks == s.locks && t.key == s.key && t.active == s.active && t.cls == s.cls[x := to]
  {
    UnlinkFits(s, x);
  }

  lemma MovedFront(s: Cache, it: nat, to: nat)
    requires Inv(s) && it in s.linked && to < LISTS
    ensures |s.lists| == LISTS == |Move(s, it, to).lists|
    ensures Move(s, it, to).lists[to] == [it] + Without(s.lists[to], it)
    ensures it in Move(s, it, to).cls && Move(s, it, to).cls[it] == to
    ensures Move(s, it, to).active == s.active
  {
    hide TableOk, CountsOk, FieldsOk, RefsOk, TotalsOk, NoDup;
    UnlinkFits(s, it);
    MoveShape(s, it, to);
    if to != s.cls[it] {
      WithoutAbsent(s.lists[to], it);
    }
  }

  /** A hit on an active item of a COLD list puts it in front of the WARM list of its class, where it
      counts as inactive; without segments an idle item goes to the front of its own list. */
  lemma UpdateMoves(s: Cache, it: nat, segmented: bool, idle: bool)
    requires Inv(s) && it in s.linked
    ensures it in s.refs && it in s.cls && |s.lists| == LISTS && s.cls[it] < LISTS
    ensures var t, c := Update(s, it, segmented, idle), s.cls[it];
            var to := if segmented then Class(c) + WARM else c;
            if (if segmented then Segment(c) == COLD && it in s.active else idle)
            then && t.lists[to] == [it] + Without(s.lists[to], it) && it in t.cls && t.cls[it] == to
                 && t.active == (if segmented then s.active - {it} else s.active)
            else t == s
  {
    hide Inv, Move, Without;
    UnlinkFits(s, it);
    LinkFits(s, it);
    var c := s.cls[it];
    MovedFront(s, it, c);
    MovedFront(s, it, Class(c) + WARM);
  }
}
