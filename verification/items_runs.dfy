/** Runs of item operations.  Clients hold references to items; between operations the linked flag,
    the hash table, the LRU lists and all counters agree. */
module ItemRuns {
  import opened Common
  import opened Lists
  import opened Items
  import opened CrawlerItems
  import ItemPull

  /** The cache, and how many references clients hold to each item. */
  datatype World = World(s: Cache, held: map<nat, nat>)

  function Held(w: World, x: nat): nat {
    if x in w.held then w.held[x] else 0
  }

  datatype Event =
    | Alloc(item: nat, key: Key, weight: nat, list: nat)
    | Get(key: Key)
    | Release(item: nat)
    | DoLink(item: nat)
    | DoUnlink(item: nat)
    | Replace(item: nat, other: nat)
    | DoUpdate(item: nat, segmented: bool, idle: bool)
    | DoPull(ask: ItemPull.Ask)
    | Mark(item: nat, on: bool)
    | Lock(stripe: nat)
    | Unlock(stripe: nat)
    | CrawlStart(list: nat)
    | CrawlTurn(list: nat, place: nat)
    | CrawlDone(list: nat)

  ghost predicate Good(w: World) {
    Inv(w.s) && forall x :: Extra(w.s.refs, w.s.linked, x) == Held(w, x)
  }

  /** What callers must observe: a new item is none that lives, an item is used only by who holds
      it, and a key is linked once.  A hit may mark an item active, and a bump that finds its buffer
      full takes the mark back.  Item locks are taken by anyone; that of an item a pull has returned is
      released by who asked for it. */
  predicate Enabled(w: World, e: Event) {
    match e
    case Alloc(x, _, _, list) => IsReal(x) && x !in w.s.refs && list < LISTS
    case Get(k) => true
    case Release(x) => Held(w, x) > 0
    case DoLink(x) => Held(w, x) > 0 && x !in w.s.linked && x in w.s.key && w.s.key[x] !in w.s.table
    case DoUnlink(x) => Held(w, x) > 0
    case Replace(x, y) =>
      && Held(w, x) > 0 && Held(w, y) > 0 && x != y && y !in w.s.linked && y in w.s.key
      && (w.s.key[y] in w.s.table ==> w.s.table[w.s.key[y]] == x)
    case DoUpdate(x, _, _) => Held(w, x) > 0
    case DoPull(a) => ItemPull.Proper(a)
    case Mark(x, _) => Held(w, x) > 0
    case Lock(l) => l !in w.s.locks
    case Unlock(l) => l in w.s.locks
    case CrawlStart(c) => c < LISTS && c < |w.s.lists| && c !in w.s.lists[c]
    case CrawlTurn(c, k) => c < LISTS && c < |w.s.lists| && k < |w.s.lists[c]| && w.s.lists[c][k] == c
    case CrawlDone(c) => c < LISTS && c < |w.s.lists| && c in w.s.lists[c]
  }

  /** A turn of the crawler at place `k` of its list: it swaps with the item before it, or is popped off. */
  function Turned(ids: seq<nat>, k: nat): seq<nat>
    requires k < |ids|
  {
    if k == 0 then ids[1..] else ids[..k - 1] + [ids[k], ids[k - 1]] + ids[k + 1..]
  }

  lemma HeldLives(w: World, x: nat)
    requires Good(w) && Held(w, x) > 0
    ensures x in w.s.refs && w.s.refs[x] > 0
  {
    assert Extra(w.s.refs, w.s.linked, x) == Held(w, x);
  }

  function Allocate(s: Cache, x: nat, k: Key, weight: nat, list: nat): Cache {
    s.(refs := s.refs[x := 1], key := s.key[x := k], weight := s.weight[x := weight], cls := s.cls[x := list],
       active := s.active - {x})
  }

  ghost function Next(w: World, e: Event): World
    requires Good(w) && Enabled(w, e)
  {
    hide OneList, TableOk, CountsOk, FieldsOk, RefsOk, TotalsOk, Extra;
    match e
    case Alloc(x, k, weight, list) => World(Allocate(w.s, x, k, weight, list), w.held[x := Held(w, x) + 1])
    case Get(k) =>
      if k in w.s.table then
        GetLives(w.s, k);
        World(Incr(w.s, w.s.table[k]), w.held[w.s.table[k] := Held(w, w.s.table[k]) + 1])
      else w
    case Release(x) => HeldLives(w, x); World(Remove(w.s, x), w.held[x := Held(w, x) - 1])
    case DoLink(x) => HeldLives(w, x); LinkFits(w.s, x); World(Link(w.s, x), w.held)
    case DoUnlink(x) => HeldLives(w, x); World(Unlink(w.s, x), w.held)
    case Replace(x, y) =>
      HeldLives(w, x); ReplaceFits(w, x, y);
      World(Link(Unlink(w.s, x), y), w.held)
    case DoUpdate(x, segmented, idle) => HeldLives(w, x); World(Update(w.s, x, segmented, idle), w.held)
    case DoPull(a) => AfterPull(w, a)
    case Mark(x, on) => World(w.s.(active := if on then w.s.active + {x} else w.s.active - {x}), w.held)
    case Lock(l) => World(w.s.(locks := w.s.locks + {l}), w.held)
    case Unlock(l) => World(w.s.(locks := w.s.locks - {l}), w.held)
    case CrawlStart(c) => World(SetList(w.s, c, w.s.lists[c] + [c]), w.held)
    case CrawlTurn(c, k) => World(SetList(w.s, c, Turned(w.s.lists[c], k)), w.held)
    case CrawlDone(c) => World(SetList(w.s, c, Without(w.s.lists[c], c)), w.held)
  }

  ghost function AfterPull(w: World, a: ItemPull.Ask): World
    requires Inv(w.s) && ItemPull.Proper(a)
  {
    hide ItemPull.PullTail;
    var r := ItemPull.PullTail(w.s, a);
    World(r.s, if a.returnItem && r.stop.Some? then w.held[r.stop.value := Held(w, r.stop.value) + 1] else w.held)
  }

  /** Once the old item is unlinked, the new one can be linked under the same key. */
  lemma ReplaceFits(w: World, x: nat, y: nat)
    requires Good(w) && Enabled(w, Replace(x, y)) && x in w.s.refs
    ensures Inv(Unlink(w.s, x)) && SameExtra(w.s, Unlink(w.s, x))
    ensures y in Unlink(w.s, x).refs && y !in Unlink(w.s, x).linked && w.s.key[y] !in Unlink(w.s, x).table
    ensures Unlink(w.s, x).key == w.s.key
    ensures y in Unlink(w.s, x).cls && y in Unlink(w.s, x).weight
    ensures Unlink(w.s, x).cls[y] < |Unlink(w.s, x).lists| == |Unlink(w.s, x).sizes| == |Unlink(w.s, x).bytes|
  {
    hide OneList, TableOk, CountsOk, FieldsOk, RefsOk, TotalsOk, Extra;
    HeldLives(w, y);
    KeyOf(w.s, x);
    UnlinkKeeps(w.s, x);
    LinkFits(Unlink(w.s, x), y);
  }

  /** What unlinking takes out of the table. */
  lemma KeyOf(s: Cache, x: nat)
    requires Inv(s) && x in s.refs
    ensures Unlink(s, x).key == s.key
    ensures forall k :: k in Unlink(s, x).table ==> k in s.table && s.table[k] != x
    ensures forall y :: y in s.refs && y != x ==> y in Unlink(s, x).refs
  {
    if x in s.linked {
      UnlinkFits(s, x);
    }
  }

  lemma {:induction false} WeighFrame(weight: map<nat, nat>, ids: seq<nat>, x: nat, v: nat)
    requires x !in ids
    ensures Weigh(weight[x := v], ids) == Weigh(weight, ids)
  {
    if ids != [] {
      WeighFrame(weight, ids[1..], x, v);
    }
  }

  lemma TableKey(table: map<Key, nat>, key: map<nat, Key>, linked: set<nat>, x: nat, k: Key)
    requires TableOk(table, key, linked) && x !in linked
    ensures TableOk(table, key[x := k], linked)
  {
  }

  lemma CountsWeight(s: Cache, x: nat, v: nat)
    requires OneList(s.lists, s.cls, s.linked) && CountsOk(s.lists, s.sizes, s.bytes, s.weight)
    requires x !in s.linked && IsReal(x)
    ensures CountsOk(s.lists, s.sizes, s.bytes, s.weight[x := v])
  {
    hide Weigh, Count;
    forall i | 0 <= i < LISTS ensures Weigh(s.weight[x := v], s.lists[i]) == Weigh(s.weight, s.lists[i]) {
      WeighFrame(s.weight, s.lists[i], x, v);
    }
  }

  lemma RefsAlloc(refs: map<nat, nat>, linked: set<nat>, x: nat)
    requires RefsOk(refs, linked) && x !in refs
    ensures x !in linked && RefsOk(refs[x := 1], linked)
    ensures forall y :: Extra(refs[x := 1], linked, y) == Extra(refs, linked, y) + if y == x then 1 else 0
  {
  }

  lemma FieldsAlloc(s: Cache, x: nat, k: Key, v: nat, list: nat)
    requires FieldsOk(s.refs, s.cls, s.key, s.weight) && IsReal(x) && list < LISTS
    ensures FieldsOk(s.refs[x := 1], s.cls[x := list], s.key[x := k], s.weight[x := v])
  {
  }

  /** A freshly allocated item is in no list, so no list changes weight. */
  lemma AllocateKeeps(s: Cache, x: nat, k: Key, weight: nat, list: nat)
    requires Inv(s) && IsReal(x) && x !in s.refs && list < LISTS
    ensures Inv(Allocate(s, x, k, weight, list))
    ensures forall y :: Extra(Allocate(s, x, k, weight, list).refs, s.linked, y) ==
                        Extra(s.refs, s.linked, y) + if y == x then 1 else 0
  {
    hide OneList, TableOk, CountsOk, FieldsOk, RefsOk, TotalsOk, Extra;
    RefsAlloc(s.refs, s.linked, x);
    OneListCls(s.lists, s.cls, s.linked, x, list);
    TableKey(s.table, s.key, s.linked, x, k);
    CountsWeight(s, x, weight);
    FieldsAlloc(s, x, k, weight, list);
  }

  lemma StepKeeps(w: World, e: Event)
    requires Good(w) && Enabled(w, e)
    ensures Good(Next(w, e))
  {
    hide OneList, TableOk, CountsOk, FieldsOk, RefsOk, TotalsOk;
    match e
    case Alloc(x, k, weight, list) => AllocateKeeps(w.s, x, k, weight, list);
    case Get(k) => if k in w.s.table { GetLives(w.s, k); IncrKeeps(w.s, w.s.table[k]); }
    case Release(x) => HeldLives(w, x); RemoveKeeps(w.s, x);
    case DoLink(x) => HeldLives(w, x); LinkKeeps(w.s, x);
    case DoUnlink(x) => HeldLives(w, x); UnlinkKeeps(w.s, x);
    case Replace(x, y) => HeldLives(w, x); ReplaceFits(w, x, y); LinkKeeps(Unlink(w.s, x), y);
    case DoUpdate(x, segmented, idle) => HeldLives(w, x); UpdateKeeps(w.s, x, segmented, idle);
    case DoPull(a) => PullKeeps(w, a);
    case Mark(x, on) =>
    case Lock(l) =>
    case Unlock(l) =>
    case CrawlStart(c) => CrawlStartKeeps(w.s, c);
    case CrawlTurn(c, k) => CrawlTurnKeeps(w.s, c, k);
    case CrawlDone(c) => CrawlDoneKeeps(w.s, c);
  }

  /** Crawlers that come, move and go touch no item. */
  lemma CrawlStartKeeps(s: Cache, c: nat)
    requires Inv(s) && c < LISTS && c !in s.lists[c]
    ensures Inv(SetList(s, c, s.lists[c] + [c]))
  {
    hide Inv;
    HasLists(s);
    var ids := s.lists[c];
    assert ids + [] == ids && ids + [c] + [] == ids + [c];
    CrawlerIsNoItem(s, c, ids, [], false, ids, [], true);
  }

  lemma HasLists(s: Cache)
    requires Inv(s)
    ensures |s.lists| == LISTS && forall i :: 0 <= i < LISTS ==> NoDup(s.lists[i])
  {
  }

  lemma CrawlTurnKeeps(s: Cache, c: nat, k: nat)
    requires Inv(s) && c < LISTS && k < |s.lists[c]| && s.lists[c][k] == c
    ensures Inv(SetList(s, c, Turned(s.lists[c], k)))
  {
    hide Inv, NoDup;
    HasLists(s);
    var ids := s.lists[c];
    SplitAt(ids, k);
    CrawlerApart(s, c, ids[..k], ids[k + 1..]);
    if k == 0 {
      assert ids[..0] + ids[1..] == ids[1..];
      CrawlerIsNoItem(s, c, ids[..0], ids[1..], true, ids[..0], ids[1..], false);
    } else {
      var x := ids[k - 1];
      assert ids[..k] == ids[..k - 1] + [x];
      assert ids[..k - 1] + [c] + ([x] + ids[k + 1..]) == Turned(ids, k);
      assert ids[..k] + ids[k + 1..] == ids[..k - 1] + ([x] + ids[k + 1..]);
      CrawlerIsNoItem(s, c, ids[..k], ids[k + 1..], true, ids[..k - 1], [x] + ids[k + 1..], true);
    }
  }

  lemma CrawlDoneKeeps(s: Cache, c: nat)
    requires Inv(s) && c < LISTS && c in s.lists[c]
    ensures Inv(SetList(s, c, Without(s.lists[c], c)))
  {
    hide Inv, NoDup;
    HasLists(s);
    var ids := s.lists[c];
    var k :| 0 <= k < |ids| && ids[k] == c;
    SplitAt(ids, k);
    CrawlerApart(s, c, ids[..k], ids[k + 1..]);
    CrawlerIsNoItem(s, c, ids[..k], ids[k + 1..], true, ids[..k], ids[k + 1..], false);
  }

  /** Pulling from the tail of a list leaves all references where they were, but for the one to the
      item it was asked to return. */
  lemma PullKeeps(w: World, a: ItemPull.Ask)
    requires Good(w) && ItemPull.Proper(a)
    ensures Good(AfterPull(w, a))
  {
    hide OneList, TableOk, CountsOk, FieldsOk, RefsOk, TotalsOk, ItemPull.PullTail;
    ItemPull.PullTailIsBalanced(w.s, a);
    var r := ItemPull.PullTail(w.s, a);
    var v := AfterPull(w, a);
    forall x ensures Extra(v.s.refs, v.s.linked, x) == Held(v, x) {
      assert Extra(w.s.refs, w.s.linked, x) == Held(w, x);
      assert ItemPull.References(r.s, x) ==
             ItemPull.References(w.s, x) - (if x in w.s.linked && x !in r.s.linked then 1 else 0)
             + if a.returnItem && r.stop == Some(x) then 1 else 0;
    }
  }

  lemma GetLives(s: Cache, k: Key)
    requires Inv(s) && k in s.table
    ensures s.table[k] in s.refs
  {
  }

  ghost predicate IsRun(w: World, es: seq<Event>)
    requires Good(w)
    decreases |es|
  {
    es == [] || (Enabled(w, es[0]) && (StepKeeps(w, es[0]); IsRun(Next(w, es[0]), es[1..])))
  }

  ghost function Run(w: World, es: seq<Event>): World
    requires Good(w) && IsRun(w, es)
    decreases |es|
  {
    if es == [] then w else StepKeeps(w, es[0]); Run(Next(w, es[0]), es[1..])
  }

  lemma {:induction false} RunIsGood(w: World, es: seq<Event>)
    requires Good(w) && IsRun(w, es)
    ensures Good(Run(w, es))
    decreases |es|
  {
    hide Good;
    if es != [] {
      StepKeeps(w, es[0]);
      RunIsGood(Next(w, es[0]), es[1..]);
    }
  }

  function Empty(): World {
    World(Cache(seq(LISTS, i => []), map[], map[], map[], {}, {}, map[], map[],
                seq(LISTS, i => 0), seq(LISTS, i => 0), 0, {}), map[])
  }

  lemma {:induction false} SumZero(sizes: seq<nat>)
    requires forall i :: 0 <= i < |sizes| ==> sizes[i] == 0
    ensures Sum(sizes) == 0
  {
    if sizes != [] {
      SumZero(sizes[1..]);
    }
  }

  lemma EmptyIsGood()
    ensures Good(Empty())
  {
    hide OneList, CountsOk, Sum;
    var s := Empty().s;
    SumZero(s.sizes);
    EmptyLists(s.lists, s.sizes, s.bytes);
  }

  lemma EmptyLists(lists: seq<seq<nat>>, sizes: seq<nat>, bytes: seq<nat>)
    requires lists == seq(LISTS, i => []) && sizes == seq(LISTS, i => 0) && bytes == seq(LISTS, i => 0)
    ensures OneList(lists, map[], {}) && CountsOk(lists, sizes, bytes, map[])
  {
  }

  lemma {:induction false} RunMore(w: World, es: seq<Event>, e: Event)
    requires Good(w) && IsRun(w, es) && Good(Run(w, es)) && Enabled(Run(w, es), e)
    ensures IsRun(w, es + [e]) && Run(w, es + [e]) == Next(Run(w, es), e)
    decreases |es|
  {
    hide Good, Next, Enabled;
    if es == [] {
      assert es + [e] == [e] && [e][1..] == [];
    } else {
      StepKeeps(w, es[0]);
      assert (es + [e])[0] == es[0] && (es + [e])[1..] == es[1..] + [e];
      RunMore(Next(w, es[0]), es[1..], e);
    }
  }

  /** The one item of a new cache: held by a client, in a COLD list once linked. */
  ghost predicate OnlyItem(w: World, x: nat, linked: bool, active: bool, list: nat) {
    && Held(w, x) > 0 && w.s.linked == (if linked then {x} else {}) && (x in w.s.active <==> active)
    && x in w.s.key && (!linked ==> w.s.table == map[]) && x in w.s.cls && w.s.cls[x] == list
  }

  lemma LinkOnly(w: World, x: nat, list: nat)
    requires Good(w) && OnlyItem(w, x, false, false, list)
    ensures Enabled(w, DoLink(x)) && OnlyItem(Next(w, DoLink(x)), x, true, false, list)
  {
    hide OneList, TableOk, CountsOk, FieldsOk, RefsOk, TotalsOk, Extra;
    HeldLives(w, x);
    LinkFits(w.s, x);
  }

  lemma WarmOnly(w: World, x: nat, class_: nat)
    requires Good(w) && OnlyItem(w, x, true, true, class_ + COLD) && class_ < CLASSES
    ensures var e := DoUpdate(x, true, false);
      Enabled(w, e) && OnlyItem(Next(w, e), x, true, false, class_ + WARM)
  {
    hide OneList, TableOk, CountsOk, FieldsOk, RefsOk, TotalsOk, Extra, Move;
    HeldLives(w, x);
    UpdateMoves(w.s, x, true, false);
    UpdateKeeps(w.s, x, true, false);
    ColdClass(class_);
    MoveShape(w.s, x, class_ + WARM);
  }

  lemma ColdClass(class_: nat)
    requires class_ < CLASSES
    ensures Class(class_ + COLD) == class_ && Segment(class_ + COLD) == COLD
  {}

  /** A run from an empty cache in which an item, linked into a COLD list and hit, moves to WARM. */
  lemma HitsWarm(x: nat, k: Key, weight: nat, class_: nat) returns (es: seq<Event>)
    requires IsReal(x) && class_ < CLASSES
    ensures Good(Empty()) && IsRun(Empty(), es) && OnlyItem(Run(Empty(), es), x, true, false, class_ + WARM)
  {
    hide Good, Run, IsRun;
    EmptyIsGood();
    var alloc := Alloc(x, k, weight, class_ + COLD);
    es := [];
    RunNone(Empty());
    RunMore(Empty(), [], alloc);
    es := [] + [alloc];
    RunIsGood(Empty(), es);
    assert OnlyItem(Run(Empty(), es), x, false, false, class_ + COLD);
    hide Empty, Next, Enabled;
    LinkOnly(Run(Empty(), es), x, class_ + COLD);
    RunMore(Empty(), es, DoLink(x));
    es := es + [DoLink(x)];
    RunIsGood(Empty(), es);
    MarkOnly(Run(Empty(), es), x, class_ + COLD);
    RunMore(Empty(), es, Mark(x, true));
    es := es + [Mark(x, true)];
    RunIsGood(Empty(), es);
    WarmOnly(Run(Empty(), es), x, class_);
    RunMore(Empty(), es, DoUpdate(x, true, false));
    es := es + [DoUpdate(x, true, false)];
  }

  lemma RunNone(w: World)
    requires Good(w)
    ensures IsRun(w, []) && Run(w, []) == w
  {}

  lemma MarkOnly(w: World, x: nat, list: nat)
    requires Good(w) && OnlyItem(w, x, true, false, list)
    ensures Enabled(w, Mark(x, true)) && OnlyItem(Next(w, Mark(x, true)), x, true, true, list)
  {
    hide OneList, TableOk, CountsOk, FieldsOk, RefsOk, TotalsOk, Extra;
  }

  ghost predicate FlagIsTable(s: Cache) {
    forall x :: IsReal(x) ==> (x in s.linked <==> x in s.key && s.key[x] in s.table && s.table[s.key[x]] == x)
  }

  ghost predicate FlagIsList(s: Cache) {
    forall x :: IsReal(x) ==> (x in s.linked <==> exists i :: 0 <= i < |s.lists| && x in s.lists[i])
  }

  ghost predicate ListIsOnly(s: Cache) {
    forall x, i, j :: 0 <= i < |s.lists| && 0 <= j < |s.lists| && x in s.lists[i] && x in s.lists[j] ==> i == j
  }

  lemma ListsAgree(s: Cache)
    requires OneList(s.lists, s.cls, s.linked)
    ensures FlagIsList(s) && ListIsOnly(s)
  {
    forall x, i, j | 0 <= i < |s.lists| && 0 <= j < |s.lists| && x in s.lists[i] && x in s.lists[j] ensures i == j {
      if IsReal(x) {
        assert s.cls[x] == i && s.cls[x] == j;
      }
    }
  }

  lemma TableAgrees(s: Cache)
    requires TableOk(s.table, s.key, s.linked)
    ensures FlagIsTable(s)
  {
  }

  /** After any run of operations: an item has its linked flag set exactly when the table holds it
      under its key, and exactly when it is in an LRU list, which is then one list only; the item
      count is the size of the table and the sum of the list sizes, and each list size leaves the
      crawler out; and a count of references is the number held, one more while linked. */
  lemma AllAgree(w: World, es: seq<Event>)
    requires Good(w) && IsRun(w, es)
    ensures FlagIsTable(Run(w, es).s) && FlagIsList(Run(w, es).s) && ListIsOnly(Run(w, es).s)
    ensures Run(w, es).s.currItems == |Run(w, es).s.table| == Sum(Run(w, es).s.sizes)
    ensures |Run(w, es).s.sizes| == |Run(w, es).s.lists|
    ensures forall i :: 0 <= i < |Run(w, es).s.lists| ==> Run(w, es).s.sizes[i] == Count(Run(w, es).s.lists[i])
    ensures forall x :: x in Run(w, es).s.refs ==>
              Run(w, es).s.refs[x] == Held(Run(w, es), x) + if x in Run(w, es).s.linked then 1 else 0
    ensures forall x :: x in Run(w, es).s.refs <==> x in Run(w, es).s.linked || Held(Run(w, es), x) > 0
  {
    hide Run, IsRun, OneList, TableOk, FieldsOk, Sum;
    RunIsGood(w, es);
    var v := Run(w, es);
    ListsAgree(v.s);
    TableAgrees(v.s);
    forall x ensures x in v.s.refs ==> v.s.refs[x] == Held(v, x) + if x in v.s.linked then 1 else 0 {
      assert Extra(v.s.refs, v.s.linked, x) == Held(v, x);
    }
    forall x ensures x in v.s.refs <==> x in v.s.linked || Held(v, x) > 0 {
      assert Extra(v.s.refs, v.s.linked, x) == Held(v, x);
    }
  }
}
