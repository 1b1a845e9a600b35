/** The hash table that doubles by moving one bucket at a time.  Items are numbered, a pointer is an
    optional item number, and each item has one forward link, so relinking is visible as such. */
module Assoc {
  import opened Common
  import opened LinkedChains

  type Key = seq<byte>

  /** The table's memory: the two bucket arrays, the links of the items and the items' keys. */
  datatype Mem = Mem(hashpower: nat, expanding: bool, expandBucket: nat, primary: seq<Ptr>, prior: seq<Ptr>,
                     hNext: map<nat, Ptr>, key: map<nat, Key>)

  datatype Slot = Old(b: nat) | Primary(b: nat)

  ghost predicate Shaped(m: Mem) {
    && |m.primary| == Pow2(m.hashpower)
    && (m.expanding ==> m.hashpower > 0 && |m.prior| == Pow2(m.hashpower - 1) && m.expandBucket <= |m.prior|)
  }

  /** The bucket an operation on hash `hv` works on. */
  function Route(m: Mem, hv: nat): Slot
    requires m.expanding ==> m.hashpower > 0
  {
    if m.expanding && hv % Pow2(m.hashpower - 1) >= m.expandBucket then Old(hv % Pow2(m.hashpower - 1))
    else Primary(hv % Pow2(m.hashpower))
  }

  predicate HasSlot(m: Mem, s: Slot) {
    match s
    case Old(b) => m.expanding && b < |m.prior|
    case Primary(b) => b < |m.primary|
  }

  function Head(m: Mem, s: Slot): Ptr
    requires HasSlot(m, s)
  {
    match s
    case Old(b) => m.prior[b]
    case Primary(b) => m.primary[b]
  }

  function SetHead(m: Mem, s: Slot, p: Ptr): Mem
    requires HasSlot(m, s)
  {
    match s
    case Old(b) => m.(prior := m.prior[b := p])
    case Primary(b) => m.(primary := m.primary[b := p])
  }

  lemma RouteHasSlot(m: Mem, hv: nat)
    requires Shaped(m)
    ensures HasSlot(m, Route(m, hv))
  {}

  // ----- What the table holds

  /** The items of every bucket, in link order. */
  type Chains = map<Slot, seq<nat>>

  /** No item is on two chains or twice on one. */
  ghost predicate Separate(cs: Chains) {
    && (forall s :: s in cs ==> NoDup(cs[s]))
    && (forall s, t, id :: s in cs && t in cs && s != t && id in cs[s] ==> id !in cs[t])
  }

  ghost predicate Linked(m: Mem, cs: Chains) {
    && Separate(cs)
    && (forall s :: HasSlot(m, s) <==> s in cs)
    && (forall s :: s in cs ==> HasSlot(m, s) && Chain(m.hNext, Head(m, s), cs[s]))
  }

  /** Every linked item sits where operations on its key will look, and is the one the map names. */
  ghost predicate Placed(hash: Key -> nat, m: Mem, cs: Chains, contents: map<Key, nat>)
    requires m.expanding ==> m.hashpower > 0
  {
    forall s, id :: s in cs && id in cs[s] ==>
      id in m.key && m.key[id] in contents && contents[m.key[id]] == id && Route(m, hash(m.key[id])) == s
  }

  /** Every entry of the map is linked. */
  ghost predicate Present(hash: Key -> nat, m: Mem, cs: Chains, contents: map<Key, nat>)
    requires m.expanding ==> m.hashpower > 0
  {
    forall k :: k in contents ==>
      var s := Route(m, hash(k));
      s in cs && contents[k] in cs[s] && contents[k] in m.key && m.key[contents[k]] == k
  }

  /** The table represents the map `contents`. */
  ghost predicate Represents(hash: Key -> nat, m: Mem, cs: Chains, contents: map<Key, nat>) {
    Shaped(m) && Linked(m, cs) && Placed(hash, m, cs, contents) && Present(hash, m, cs, contents)
  }

  /** The item an operation on `k` will find by walking its bucket. */
  ghost function Seek(key: map<nat, Key>, ids: seq<nat>, k: Key): Ptr {
    if ids == [] then None
    else if ids[0] in key && key[ids[0]] == k then Some(ids[0])
    else Seek(key, ids[1..], k)
  }

  function Lookup(contents: map<Key, nat>, k: Key): Ptr {
    if k in contents then Some(contents[k]) else None
  }

  lemma {:induction false} SeekFinds(key: map<nat, Key>, ids: seq<nat>, k: Key)
    ensures Seek(key, ids, k).Some? ==>
      Seek(key, ids, k).value in ids && Seek(key, ids, k).value in key && key[Seek(key, ids, k).value] == k
    ensures Seek(key, ids, k).None? ==> forall id :: id in ids && id in key ==> key[id] != k
  {
    if ids != [] {
      SeekFinds(key, ids[1..], k);
    }
  }

  /** Walking the routed bucket finds what the map holds. */
  lemma SeekIsLookup(hash: Key -> nat, m: Mem, cs: Chains, contents: map<Key, nat>, k: Key)
    requires Represents(hash, m, cs, contents)
    ensures Route(m, hash(k)) in cs && Seek(m.key, cs[Route(m, hash(k))], k) == Lookup(contents, k)
  {
    var s := Route(m, hash(k));
    RouteHasSlot(m, hash(k));
    SeekFinds(m.key, cs[s], k);
  }

  // ----- Insertion

  function Insert(m: Mem, id: nat, s: Slot): Mem
    requires HasSlot(m, s)
  {
    SetHead(m.(hNext := m.hNext[id := Head(m, s)]), s, Some(id))
  }

  lemma SeparatePush(cs: Chains, s: Slot, id: nat)
    requires Separate(cs) && s in cs && forall t :: t in cs ==> id !in cs[t]
    ensures Separate(cs[s := [id] + cs[s]])
  {}

  lemma InsertLinked(m: Mem, cs: Chains, id: nat, s: Slot)
    requires Linked(m, cs) && s in cs && HasSlot(m, s) && forall t :: t in cs ==> id !in cs[t]
    ensures Linked(Insert(m, id, s), cs[s := [id] + cs[s]])
  {
    var n, ds := Insert(m, id, s), cs[s := [id] + cs[s]];
    SeparatePush(cs, s, id);
    hide Chain, Separate;
    forall t | t in ds
      ensures HasSlot(n, t) && Chain(n.hNext, Head(n, t), ds[t])
    {
      if t == s {
        PushChain(m.hNext, Head(m, s), cs[s], id);
      } else {
        ChainFrame(m.hNext, n.hNext, Head(m, t), cs[t]);
      }
    }
  }

  /** Memories that route alike and hold the same keys. */
  ghost predicate SameRouting(m: Mem, n: Mem) {
    n.key == m.key && n.hashpower == m.hashpower && n.expanding == m.expanding && n.expandBucket == m.expandBucket
    && |n.primary| == |m.primary| && |n.prior| == |m.prior|
  }

  lemma InsertPlaced(hash: Key -> nat, m: Mem, n: Mem, cs: Chains, contents: map<Key, nat>, id: nat, s: Slot)
    requires m.expanding ==> m.hashpower > 0
    requires Placed(hash, m, cs, contents) && SameRouting(m, n) && id in m.key && m.key[id] !in contents
    requires s in cs && s == Route(m, hash(m.key[id]))
    ensures Placed(hash, n, cs[s := [id] + cs[s]], contents[m.key[id] := id])
  {
    var ds, k := cs[s := [id] + cs[s]], m.key[id];
    assert forall hv :: Route(n, hv) == Route(m, hv);
    hide Route;
    forall t, i | t in ds && i in ds[t]
      ensures i in n.key && n.key[i] in contents[k := id] && contents[k := id][n.key[i]] == i &&
        Route(n, hash(n.key[i])) == t
    {
      if i != id {
        assert t in cs && i in cs[t];
      }
    }
  }

  lemma InsertPresent(hash: Key -> nat, m: Mem, n: Mem, cs: Chains, contents: map<Key, nat>, id: nat, s: Slot)
    requires m.expanding ==> m.hashpower > 0
    requires Present(hash, m, cs, contents) && SameRouting(m, n) && id in m.key
    requires s in cs && s == Route(m, hash(m.key[id]))
    ensures Present(hash, n, cs[s := [id] + cs[s]], contents[m.key[id] := id])
  {
    assert forall hv :: Route(n, hv) == Route(m, hv);
    hide Route;
  }

  lemma NotYetLinked(hash: Key -> nat, m: Mem, cs: Chains, contents: map<Key, nat>, id: nat)
    requires m.expanding ==> m.hashpower > 0
    requires Placed(hash, m, cs, contents) && id in m.key && m.key[id] !in contents
    ensures forall t :: t in cs ==> id !in cs[t]
  {
    hide Route;
  }

  /** Inserting an item under a key the table does not hold adds exactly that entry. */
  lemma InsertRepresents(hash: Key -> nat, m: Mem, cs: Chains, contents: map<Key, nat>, id: nat)
    requires Represents(hash, m, cs, contents) && id in m.key && m.key[id] !in contents
    ensures var k := m.key[id]; var s := Route(m, hash(k));
      && s in cs && HasSlot(m, s)
      && Represents(hash, Insert(m, id, s), cs[s := [id] + cs[s]], contents[k := id])
  {
    hide Linked, Placed, Present, Route;
    var s := Route(m, hash(m.key[id]));
    RouteHasSlot(m, hash(m.key[id]));
    SlotsAreLinked(m, cs);
    NotYetLinked(hash, m, cs, contents, id);
    InsertLinked(m, cs, id, s);
    InsertPlaced(hash, m, Insert(m, id, s), cs, contents, id, s);
    InsertPresent(hash, m, Insert(m, id, s), cs, contents, id, s);
  }

  lemma SlotsAreLinked(m: Mem, cs: Chains)
    requires Linked(m, cs)
    ensures forall s :: HasSlot(m, s) <==> s in cs
  {
    hide Chain, Separate, HasSlot;
  }

  // ----- Deletion

  /** Where the pointer to an item is kept: in its bucket, or in the item before it. */
  datatype Pos = AtHead(s: Slot) | After(id: nat)

  predicate HasPos(m: Mem, pos: Pos) {
    match pos
    case AtHead(s) => HasSlot(m, s)
    case After(id) => id in m.hNext
  }

  function Deref(m: Mem, pos: Pos): Ptr
    requires HasPos(m, pos)
  {
    match pos
    case AtHead(s) => Head(m, s)
    case After(id) => m.hNext[id]
  }

  function Store(m: Mem, pos: Pos, p: Ptr): Mem
    requires HasPos(m, pos)
  {
    match pos
    case AtHead(s) => SetHead(m, s, p)
    case After(id) => m.(hNext := m.hNext[id := p])
  }

  /** Unlinks the item that `pos` points to; nothing there, nothing done. */
  function Delete(m: Mem, pos: Pos): Mem
    requires HasPos(m, pos) && (Deref(m, pos).Some? ==> Deref(m, pos).value in m.hNext)
  {
    if Deref(m, pos).None? then m
    else
      var id := Deref(m, pos).value;
      Store(m.(hNext := m.hNext[id := None]), pos, m.hNext[id])
  }

  /** The place of the pointer to the `i`-th item of a bucket. */
  function PosOf(s: Slot, ids: seq<nat>, i: nat): Pos
    requires i <= |ids|
  {
    if i == 0 then AtHead(s) else After(ids[i - 1])
  }

  lemma SeparateCut(cs: Chains, s: Slot, i: nat)
    requires Separate(cs) && s in cs && i < |cs[s]|
    ensures Separate(cs[s := cs[s][..i] + cs[s][i + 1..]])
    ensures forall id :: id in cs[s][..i] + cs[s][i + 1..] <==> id in cs[s] && id != cs[s][i]
  {
    var ids := cs[s];
    var rest := ids[..i] + ids[i + 1..];
    forall id | id in ids && id != ids[i]
      ensures id in rest
    {
      var j :| 0 <= j < |ids| && ids[j] == id;
      assert rest[if j < i then j else j - 1] == id;
    }
    forall j | 0 <= j < |rest|
      ensures rest[j] == ids[if j < i then j else j + 1]
    {}
  }

  lemma DeleteAt(m: Mem, cs: Chains, s: Slot, i: nat)
    requires Linked(m, cs) && s in cs && HasSlot(m, s) && i < |cs[s]|
    ensures var pos := PosOf(s, cs[s], i);
      && HasPos(m, pos) && Deref(m, pos) == Some(cs[s][i]) && cs[s][i] in m.hNext
      && Chain(Delete(m, pos).hNext, Head(Delete(m, pos), s), cs[s][..i] + cs[s][i + 1..])
  {
    var ids := cs[s];
    assert Chain(m.hNext, Head(m, s), ids) && NoDup(ids);
    hide Linked, Chain;
    ChainFrom(m.hNext, Head(m, s), ids, i);
    if i == 0 {
      ChainStart(m.hNext, Head(m, s), ids);
      PopChain(m.hNext, Head(m, s), ids);
      assert ids[..0] + ids[1..] == ids[1..];
    } else {
      CutChain(m.hNext, Head(m, s), ids, i);
    }
  }

  lemma DeleteLinked(m: Mem, cs: Chains, s: Slot, i: nat)
    requires Linked(m, cs) && s in cs && HasSlot(m, s) && i < |cs[s]|
    ensures var pos := PosOf(s, cs[s], i);
      && HasPos(m, pos) && Deref(m, pos) == Some(cs[s][i]) && cs[s][i] in m.hNext
      && Linked(Delete(m, pos), cs[s := cs[s][..i] + cs[s][i + 1..]])
  {
    var pos, rest := PosOf(s, cs[s], i), cs[s][..i] + cs[s][i + 1..];
    DeleteAt(m, cs, s, i);
    SeparateCut(cs, s, i);
    hide Chain;
    var n, ds := Delete(m, pos), cs[s := rest];
    assert forall id :: id in m.hNext && id !in cs[s] ==> id in n.hNext && n.hNext[id] == m.hNext[id];
    forall t | t in ds
      ensures HasSlot(n, t) && Chain(n.hNext, Head(n, t), ds[t])
    {
      if t != s {
        assert forall id :: id in cs[t] ==> id !in cs[s];
        ChainFrame(m.hNext, n.hNext, Head(m, t), cs[t]);
      }
    }
  }

  lemma DeletePlaced(hash: Key -> nat, m: Mem, n: Mem, cs: Chains, contents: map<Key, nat>, k: Key, s: Slot,
                     rest: seq<nat>)
    requires m.expanding ==> m.hashpower > 0
    requires Placed(hash, m, cs, contents) && SameRouting(m, n) && k in contents && s in cs
    requires forall t, id :: t in cs && id in cs[t] && id == contents[k] ==> t == s
    requires forall id :: id in rest <==> id in cs[s] && id != contents[k]
    requires contents[k] in m.key && m.key[contents[k]] == k
    ensures Placed(hash, n, cs[s := rest], contents - {k})
  {
    assert forall hv :: Route(n, hv) == Route(m, hv);
    hide Route;
    var ds := cs[s := rest];
    forall t, id | t in ds && id in ds[t]
      ensures id in n.key && n.key[id] in contents - {k} && (contents - {k})[n.key[id]] == id &&
        Route(n, hash(n.key[id])) == t
    {
      assert t in cs && id in cs[t];
    }
  }

  lemma DeletePresent(hash: Key -> nat, m: Mem, n: Mem, cs: Chains, contents: map<Key, nat>, k: Key, s: Slot,
                      rest: seq<nat>)
    requires m.expanding ==> m.hashpower > 0
    requires Present(hash, m, cs, contents) && SameRouting(m, n) && k in contents && s in cs
    requires forall id :: id in rest <==> id in cs[s] && id != contents[k]
    ensures Present(hash, n, cs[s := rest], contents - {k})
  {
    assert forall hv :: Route(n, hv) == Route(m, hv);
    hide Route;
    forall j | j in contents - {k}
      ensures var t := Route(n, hash(j)); t in cs[s := rest] && contents[j] in cs[s := rest][t]
    {
      assert contents[j] in m.key && m.key[contents[j]] == j;
      assert contents[k] in m.key && m.key[contents[k]] == k;
    }
  }

  lemma OnOneChain(cs: Chains, s: Slot, id: nat)
    requires Separate(cs) && s in cs && id in cs[s]
    ensures forall t, i :: t in cs && i in cs[t] && i == id ==> t == s
  {
    hide NoDup;
  }

  lemma IsPresent(hash: Key -> nat, m: Mem, cs: Chains, contents: map<Key, nat>, k: Key)
    requires Represents(hash, m, cs, contents) && k in contents
    ensures var s := Route(m, hash(k));
      s in cs && HasSlot(m, s) && contents[k] in cs[s] && contents[k] in m.key && m.key[contents[k]] == k
    ensures Separate(cs)
  {
    hide Separate, Chain, Route;
    RouteHasSlot(m, hash(k));
  }

  /** Deleting the item a key leads to removes exactly that entry. */
  lemma DeleteRepresents(hash: Key -> nat, m: Mem, cs: Chains, contents: map<Key, nat>, k: Key, i: nat)
    requires Represents(hash, m, cs, contents) && k in contents
    requires var s := Route(m, hash(k)); s in cs && i < |cs[s]| && cs[s][i] == contents[k]
    ensures var s := Route(m, hash(k)); var pos := PosOf(s, cs[s], i);
      && HasPos(m, pos) && Deref(m, pos) == Some(contents[k]) && contents[k] in m.hNext
      && Represents(hash, Delete(m, pos), cs[s := cs[s][..i] + cs[s][i + 1..]], contents - {k})
  {
    hide Linked, Placed, Present, Route, Separate;
    var s := Route(m, hash(k));
    IsPresent(hash, m, cs, contents, k);
    DeleteLinked(m, cs, s, i);
    OnOneChain(cs, s, contents[k]);
    var n, rest := Delete(m, PosOf(s, cs[s], i)), cs[s][..i] + cs[s][i + 1..];
    SeparateCut(cs, s, i);
    DeletePlaced(hash, m, n, cs, contents, k, s, rest);
    DeletePresent(hash, m, n, cs, contents, k, s, rest);
  }

  // ----- Start of an expansion

  /** The table becomes the old one and an empty one twice its size takes its place. */
  function Expand(m: Mem): Mem {
    m.(prior := m.primary, primary := seq(Pow2(m.hashpower + 1), _ => None), hashpower := m.hashpower + 1,
       expanding := true, expandBucket := 0)
  }

  ghost function ExpandChains(m: Mem, cs: Chains): (ds: Chains)
    requires forall b: nat :: b < |m.primary| ==> Primary(b) in cs
    ensures forall s :: s in ds <==> s.b < if s.Old? then |m.primary| else Pow2(m.hashpower + 1)
    ensures forall s :: s in ds ==> ds[s] == if s.Old? then cs[Primary(s.b)] else []
  {
    (map b: nat | b < |m.primary| :: Old(b) := cs[Primary(b)])
    + (map b: nat | b < Pow2(m.hashpower + 1) :: Primary(b) := [])
  }

  lemma ExpandSeparate(m: Mem, cs: Chains)
    requires Separate(cs) && forall b: nat :: b < |m.primary| ==> Primary(b) in cs
    ensures Separate(ExpandChains(m, cs))
  {
    hide Pow2, ExpandChains;
  }

  lemma ExpandLinked(m: Mem, cs: Chains)
    requires Linked(m, cs) && !m.expanding && forall b: nat :: b < |m.primary| ==> Primary(b) in cs
    ensures Linked(Expand(m), ExpandChains(m, cs))
  {
    hide Pow2, ExpandChains;
    var n, ds := Expand(m), ExpandChains(m, cs);
    ExpandSeparate(m, cs);
    hide Separate;
    forall s | s in ds
      ensures HasSlot(n, s) && Chain(n.hNext, Head(n, s), ds[s])
    {
      if s.Old? {
        assert HasSlot(m, Primary(s.b)) && Chain(m.hNext, Head(m, Primary(s.b)), cs[Primary(s.b)]);
      }
    }
  }

  lemma ExpandRoutes(m: Mem, hv: nat)
    requires !m.expanding
    ensures Route(Expand(m), hv) == Old(hv % Pow2(m.hashpower)) && Route(m, hv) == Primary(hv % Pow2(m.hashpower))
  {}

  lemma ExpandPlaced(hash: Key -> nat, m: Mem, cs: Chains, contents: map<Key, nat>)
    requires !m.expanding && Placed(hash, m, cs, contents) && forall b: nat :: b < |m.primary| ==> Primary(b) in cs
    ensures Placed(hash, Expand(m), ExpandChains(m, cs), contents)
  {
    hide Pow2, Route, ExpandChains;
    var n, ds := Expand(m), ExpandChains(m, cs);
    forall s, id | s in ds && id in ds[s]
      ensures id in n.key && n.key[id] in contents && contents[n.key[id]] == id && Route(n, hash(n.key[id])) == s
    {
      assert s.Old? && id in cs[Primary(s.b)];
      ExpandRoutes(m, hash(m.key[id]));
    }
  }

  lemma ExpandPresent(hash: Key -> nat, m: Mem, cs: Chains, contents: map<Key, nat>)
    requires !m.expanding && Present(hash, m, cs, contents)
    requires |m.primary| == Pow2(m.hashpower) && forall b: nat :: b < |m.primary| ==> Primary(b) in cs
    ensures Present(hash, Expand(m), ExpandChains(m, cs), contents)
  {
    hide Pow2, Route, ExpandChains;
    var n, ds := Expand(m), ExpandChains(m, cs);
    forall k | k in contents
      ensures Route(n, hash(k)) in ds && contents[k] in ds[Route(n, hash(k))]
    {
      ExpandRoutes(m, hash(k));
    }
  }

  lemma AllBuckets(m: Mem, cs: Chains)
    requires Linked(m, cs)
    ensures forall b: nat :: b < |m.primary| ==> Primary(b) in cs
    ensures m.expanding ==> forall b: nat :: b < |m.prior| ==> Old(b) in cs
  {
    SlotsAreLinked(m, cs);
    hide Linked;
    assert forall b: nat :: b < |m.primary| ==> HasSlot(m, Primary(b));
    assert m.expanding ==> forall b: nat :: b < |m.prior| ==> HasSlot(m, Old(b));
  }

  /** Starting an expansion changes nothing anyone can look up. */
  lemma ExpandRepresents(hash: Key -> nat, m: Mem, cs: Chains, contents: map<Key, nat>)
    requires Represents(hash, m, cs, contents) && !m.expanding
    ensures forall b: nat :: b < |m.primary| ==> Primary(b) in cs
    ensures Represents(hash, Expand(m), ExpandChains(m, cs), contents)
    ensures Expand(m).expandBucket < |Expand(m).prior|
  {
    hide Linked, Placed, Present, Route, Pow2, ExpandChains;
    AllBuckets(m, cs);
    ExpandLinked(m, cs);
    ExpandPlaced(hash, m, cs, contents);
    ExpandPresent(hash, m, cs, contents);
  }
}
