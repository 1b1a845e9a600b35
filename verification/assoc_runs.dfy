/** Every interleaving of workers and the mover of buckets: lookups always agree with a plain map. */
module AssocRuns {
  import opened Common
  import opened LinkedChains
  import opened Assoc
  import opened AssocMigrate

  datatype Mover = Resting | Moving(cur: Ptr) | Emptied | Advanced

  /** The table with, beside it, the map it stands for, the items of its buckets and the number of
      buckets moved since the last expansion began. */
  datatype World = World(mem: Mem, mover: Mover, chains: Chains, contents: map<Key, nat>, moves: nat)

  ghost predicate Good(hash: Key -> nat, power: nat, w: World) {
    && power < w.mem.hashpower
    && (w.mem.expanding ==> power <= w.mem.hashpower - 1)
    && match w.mover
       case Resting =>
         && Represents(hash, w.mem, w.chains, w.contents)
         && (w.mem.expanding ==> w.mem.expandBucket < |w.mem.prior|)
       case Moving(cur) => Migrating(hash, w.mem, w.chains, w.contents, cur)
       case Emptied => Migrating(hash, w.mem, w.chains, w.contents, None) && w.mem.prior[w.mem.expandBucket] == None
       case Advanced => Represents(hash, w.mem, w.chains, w.contents) && w.mem.expanding
  }

  // ----- Workers while a bucket is being moved

  lemma InsertSeenThrough(m: Mem, cur: Ptr, id: nat, s: Slot)
    requires m.expandBucket < |m.prior| && HasSlot(m, s) && s != Old(m.expandBucket)
    ensures HasSlot(Through(m, cur), s) && Through(Insert(m, id, s), cur) == Insert(Through(m, cur), id, s)
  {
    if s.Old? {
      assert m.prior[s.b := Some(id)][m.expandBucket := cur] == m.prior[m.expandBucket := cur][s.b := Some(id)];
    }
  }

  lemma InsertBut(hash: Key -> nat, m: Mem, n: Mem, cs: Chains, contents: map<Key, nat>, id: nat, s: Slot)
    requires m.hashpower > 0 && SameRouting(m, n) && PlacedBut(hash, m, cs, contents) &&
      PresentBut(hash, m, cs, contents)
    requires id in m.key && m.key[id] !in contents && s in cs && s == Route(m, hash(m.key[id]))
    ensures PlacedBut(hash, n, cs[s := [id] + cs[s]], contents[m.key[id] := id])
    ensures PresentBut(hash, n, cs[s := [id] + cs[s]], contents[m.key[id] := id])
  {
    var ds, k := cs[s := [id] + cs[s]], m.key[id];
    assert Home(m, hash(k), s);
    NotLinkedBut(hash, m, cs, contents, id);
    hide Home, Pow2, Route;
    forall t, i | t in ds && i in ds[t]
      ensures i in n.key && n.key[i] in contents[k := id] && contents[k := id][n.key[i]] == i &&
        Home(n, hash(n.key[i]), t)
    {
      if i != id {
        assert t in cs && i in cs[t];
      }
      HomeSame(m, n, hash(m.key[i]), t);
    }
    forall j | j in contents[k := id]
      ensures exists t :: t in ds && contents[k := id][j] in ds[t] && Home(n, hash(j), t)
    {
      if j == k {
        HomeSame(m, n, hash(k), s);
        assert id in ds[s];
      } else {
        var t :| t in cs && contents[j] in cs[t] && Home(m, hash(j), t);
        HomeSame(m, n, hash(j), t);
        assert contents[j] in ds[t];
      }
    }
  }

  lemma NotLinkedBut(hash: Key -> nat, m: Mem, cs: Chains, contents: map<Key, nat>, id: nat)
    requires m.hashpower > 0 && PlacedBut(hash, m, cs, contents) && id in m.key && m.key[id] !in contents
    ensures forall t :: t in cs ==> id !in cs[t]
  {
    hide Home;
  }

  lemma RouteElsewhere(m: Mem, hv: nat)
    requires m.hashpower > 0 && OldBucket(m, hv) != m.expandBucket
    ensures Route(m, hv) != Old(m.expandBucket)
  {}

  lemma InsertWhileMoving(hash: Key -> nat, m: Mem, cs: Chains, contents: map<Key, nat>, cur: Ptr, id: nat)
    requires Migrating(hash, m, cs, contents, cur) && id in m.key && m.key[id] !in contents
    requires OldBucket(m, hash(m.key[id])) != m.expandBucket
    ensures var s := Route(m, hash(m.key[id]));
      s in cs && HasSlot(m, s) &&
      Migrating(hash, Insert(m, id, s), cs[s := [id] + cs[s]], contents[m.key[id] := id], cur)
  {
    hide Linked, PlacedBut, PresentBut, Pow2, Route;
    var s := Route(m, hash(m.key[id]));
    AtOther(m, cs, cur, hash(m.key[id]));
    RouteElsewhere(m, hash(m.key[id]));
    InsertSeenThrough(m, cur, id, s);
    NotLinkedBut(hash, m, cs, contents, id);
    InsertLinked(Through(m, cur), cs, id, s);
    InsertBut(hash, m, Insert(m, id, s), cs, contents, id, s);
  }

  lemma DeleteSeenThrough(m: Mem, cur: Ptr, pos: Pos)
    requires m.expandBucket < |m.prior| && HasPos(m, pos) && pos != AtHead(Old(m.expandBucket))
    requires Deref(m, pos).Some? ==> Deref(m, pos).value in m.hNext
    ensures HasPos(Through(m, cur), pos) && Deref(Through(m, cur), pos) == Deref(m, pos)
    ensures Through(Delete(m, pos), cur) == Delete(Through(m, cur), pos)
  {
    if pos.AtHead? && pos.s.Old? && Deref(m, pos).Some? {
      var p := m.hNext[Deref(m, pos).value];
      assert m.prior[pos.s.b := p][m.expandBucket := cur] == m.prior[m.expandBucket := cur][pos.s.b := p];
    }
  }

  lemma DeleteBut(hash: Key -> nat, m: Mem, n: Mem, cs: Chains, contents: map<Key, nat>, k: Key, s: Slot,
                  rest: seq<nat>)
    requires m.hashpower > 0 && SameRouting(m, n) && PlacedBut(hash, m, cs, contents) &&
      PresentBut(hash, m, cs, contents)
    requires k in contents && s in cs && contents[k] in cs[s]
    requires forall t, id :: t in cs && id in cs[t] && id == contents[k] ==> t == s
    requires forall id :: id in rest <==> id in cs[s] && id != contents[k]
    ensures PlacedBut(hash, n, cs[s := rest], contents - {k})
    ensures PresentBut(hash, n, cs[s := rest], contents - {k})
  {
    hide Home, Pow2, Route;
    var ds := cs[s := rest];
    forall t, id | t in ds && id in ds[t]
      ensures id in n.key && n.key[id] in contents - {k} && (contents - {k})[n.key[id]] == id &&
        Home(n, hash(n.key[id]), t)
    {
      assert t in cs && id in cs[t];
      HomeSame(m, n, hash(m.key[id]), t);
    }
    forall j | j in contents - {k}
      ensures exists t :: t in ds && contents[j] in ds[t] && Home(n, hash(j), t)
    {
      assert m.key[contents[j]] == j && m.key[contents[k]] == k;
      var t :| t in cs && contents[j] in cs[t] && Home(m, hash(j), t);
      HomeSame(m, n, hash(j), t);
      assert contents[j] in ds[t];
    }
  }

  /** Away from the bucket being moved, an entry is where operations look. */
  lemma PresentElsewhere(hash: Key -> nat, m: Mem, cs: Chains, contents: map<Key, nat>, k: Key)
    requires m.hashpower > 0 && PresentBut(hash, m, cs, contents) && k in contents &&
      OldBucket(m, hash(k)) != m.expandBucket
    ensures var s := Route(m, hash(k));
      s in cs && contents[k] in cs[s] && contents[k] in m.key && m.key[contents[k]] == k
  {
    var s :| s in cs && contents[k] in cs[s] && Home(m, hash(k), s);
  }

  lemma DeleteWhileMoving(hash: Key -> nat, m: Mem, cs: Chains, contents: map<Key, nat>, cur: Ptr, k: Key, i: nat)
    requires Migrating(hash, m, cs, contents, cur) && k in contents && OldBucket(m, hash(k)) != m.expandBucket
    requires var s := Route(m, hash(k)); s in cs && i < |cs[s]| && cs[s][i] == contents[k]
    ensures var s := Route(m, hash(k)); var pos := PosOf(s, cs[s], i);
      && HasPos(m, pos) && Deref(m, pos) == Some(contents[k]) && contents[k] in m.hNext
      && Migrating(hash, Delete(m, pos), cs[s := cs[s][..i] + cs[s][i + 1..]], contents - {k}, cur)
  {
    hide Linked, PlacedBut, PresentBut, Pow2, Route, Separate;
    var s := Route(m, hash(k));
    var pos, rest, t := PosOf(s, cs[s], i), cs[s][..i] + cs[s][i + 1..], Through(m, cur);
    AtOther(m, cs, cur, hash(k));
    RouteElsewhere(m, hash(k));
    assert HasSlot(t, s);
    DeleteLinked(t, cs, s, i);
    DeleteSeenThrough(m, cur, pos);
    LinkedIsSeparate(t, cs);
    OnOneChain(cs, s, contents[k]);
    SeparateCut(cs, s, i);
    DeleteBut(hash, m, Delete(m, pos), cs, contents, k, s, rest);
  }

  // ----- Steps

  datatype Step =
    | NewItem(id: nat, k: Key)
    | InsertItem(id: nat)
    | DeleteKey(k: Key)
    | StartExpansion
    | LockBucket
    | MoveOne
    | ClearOld
    | NextBucket
    | EndBucket

  /** The lock of `hv` is free for a worker: the mover is at rest or done with its bucket, or it holds
      another one. */
  predicate MayLock(power: nat, w: World, hv: nat) {
    w.mover.Resting? || w.mover.Advanced? || Stripe(power, hv) != Stripe(power, w.mem.expandBucket)
  }

  /** When a step may happen: locks, and what callers of insert and delete promise. */
  ghost predicate Enabled(hash: Key -> nat, power: nat, w: World, step: Step) {
    match step
    case NewItem(id, k) => id !in w.contents.Values
    case InsertItem(id) => id in w.mem.key && w.mem.key[id] !in w.contents && MayLock(power, w, hash(w.mem.key[id]))
    case DeleteKey(k) => k in w.contents && MayLock(power, w, hash(k))
    case StartExpansion => w.mover.Resting? && !w.mem.expanding
    case LockBucket => w.mover.Resting? && w.mem.expanding
    case MoveOne => w.mover.Moving? && w.mover.cur.Some?
    case ClearOld => w.mover.Moving? && w.mover.cur.None?
    case NextBucket => w.mover.Emptied?
    case EndBucket => w.mover.Advanced?
  }

  ghost function IndexOf(ids: seq<nat>, id: nat): (i: nat)
    requires id in ids
    ensures i < |ids| && ids[i] == id
  {
    var i :| 0 <= i < |ids| && ids[i] == id;
    i
  }

  /** The effect of a step on the table, next to its effect on the map. */
  ghost predicate Next(hash: Key -> nat, w: World, step: Step, v: World)
    requires w.mem.expanding ==> w.mem.hashpower > 0
  {
    var m := w.mem;
    match step
    case NewItem(id, k) =>
      v == w.(mem := m.(key := m.key[id := k]))
    case InsertItem(id) =>
      id in m.key &&
      var s := Route(m, hash(m.key[id]));
      s in w.chains && HasSlot(m, s) &&
      v == w.(mem := Insert(m, id, s), chains := w.chains[s := [id] + w.chains[s]],
              contents := w.contents[m.key[id] := id])
    case DeleteKey(k) =>
      k in w.contents &&
      var s := Route(m, hash(k));
      s in w.chains && w.contents[k] in w.chains[s] &&
      var i := IndexOf(w.chains[s], w.contents[k]);
      var pos := PosOf(s, w.chains[s], i);
      HasPos(m, pos) && (Deref(m, pos).Some? ==> Deref(m, pos).value in m.hNext) &&
      v == w.(mem := Delete(m, pos), chains := w.chains[s := w.chains[s][..i] + w.chains[s][i + 1..]],
              contents := w.contents - {k})
    case StartExpansion =>
      (forall b: nat :: b < |m.primary| ==> Primary(b) in w.chains) &&
      v == w.(mem := Expand(m), chains := ExpandChains(m, w.chains), moves := 0)
    case LockBucket =>
      m.expandBucket < |m.prior| && v == w.(mover := Moving(m.prior[m.expandBucket]))
    case MoveOne =>
      w.mover.Moving? && w.mover.cur.Some? &&
      var id := w.mover.cur.value;
      id in m.key && id in m.hNext && hash(m.key[id]) % Pow2(m.hashpower) < |m.primary| &&
      var b := hash(m.key[id]) % Pow2(m.hashpower);
      Old(m.expandBucket) in w.chains && Primary(b) in w.chains && w.chains[Old(m.expandBucket)] != [] &&
      v == w.(mem := MoveItem(hash, m, id), mover := Moving(m.hNext[id]),
              chains := MoveChains(w.chains, m.expandBucket, b))
    case ClearOld =>
      m.expandBucket < |m.prior| && v == w.(mem := ClearBucket(m), mover := Emptied)
    case NextBucket =>
      v == w.(mem := Bump(m), mover := Advanced, moves := w.moves + 1)
    case EndBucket =>
      m.hashpower > 0 && v == w.(mem := End(m), mover := Resting, chains := EndChains(m, w.chains))
  }

  // ----- Every step keeps the table good

  lemma NewItemKeeps(hash: Key -> nat, power: nat, w: World, v: World, id: nat, k: Key)
    requires Good(hash, power, w) && id !in w.contents.Values && v == w.(mem := w.mem.(key := w.mem.key[id := k]))
    ensures Good(hash, power, v)
  {
    var m, n := w.mem, v.mem;
    assert forall j :: j in w.contents ==> w.contents[j] != id;
    hide Represents, Migrating;
    match w.mover
    case Resting => KeysResting(hash, m, n, w.chains, w.contents, id, k);
    case Moving(cur) => KeysMoving(hash, m, n, w.chains, w.contents, cur, id, k);
    case Emptied => KeysMoving(hash, m, n, w.chains, w.contents, None, id, k);
    case Advanced => KeysResting(hash, m, n, w.chains, w.contents, id, k);
  }

  lemma LinkedIgnoresKeys(m: Mem, n: Mem, cs: Chains)
    requires Linked(m, cs) && n == m.(key := n.key)
    ensures Linked(n, cs)
  {
    hide Chain, Separate;
    forall s | s in cs
      ensures HasSlot(n, s) && Chain(n.hNext, Head(n, s), cs[s])
    {
      assert HasSlot(m, s) && Chain(m.hNext, Head(m, s), cs[s]);
    }
  }

  lemma KeysResting(hash: Key -> nat, m: Mem, n: Mem, cs: Chains, contents: map<Key, nat>, id: nat, k: Key)
    requires Represents(hash, m, cs, contents) && n == m.(key := m.key[id := k])
    requires forall j :: j in contents ==> contents[j] != id
    ensures Represents(hash, n, cs, contents)
  {
    hide Linked, Route, Pow2;
    LinkedIgnoresKeys(m, n, cs);
    RouteIgnoresKeys(m, n);
    forall s, i | s in cs && i in cs[s]
      ensures i in n.key && n.key[i] in contents && contents[n.key[i]] == i && Route(n, hash(n.key[i])) == s
    {
      assert contents[m.key[i]] == i;
    }
  }

  lemma RouteIgnoresKeys(m: Mem, n: Mem)
    requires (m.expanding ==> m.hashpower > 0) && n == m.(key := n.key)
    ensures forall hv: nat {:trigger Route(n, hv)} :: Route(n, hv) == Route(m, hv)
  {}

  lemma KeysMoving(hash: Key -> nat, m: Mem, n: Mem, cs: Chains, contents: map<Key, nat>, cur: Ptr, id: nat, k: Key)
    requires Migrating(hash, m, cs, contents, cur) && n == m.(key := m.key[id := k])
    requires forall j :: j in contents ==> contents[j] != id
    ensures Migrating(hash, n, cs, contents, cur)
  {
    hide Linked, Pow2, Home;
    forall s, i | s in cs && i in cs[s]
      ensures i in n.key && n.key[i] in contents && contents[n.key[i]] == i && Home(n, hash(n.key[i]), s)
    {
      HomeIgnoresKeys(m, n, hash(m.key[i]), s);
    }
    forall j | j in contents
      ensures exists s :: s in cs && contents[j] in cs[s] && Home(n, hash(j), s)
    {
      var s :| s in cs && contents[j] in cs[s] && Home(m, hash(j), s);
      HomeIgnoresKeys(m, n, hash(j), s);
    }
    LinkedIgnoresKeys(Through(m, cur), Through(n, cur), cs);
  }

  lemma HomeIgnoresKeys(m: Mem, n: Mem, hv: nat, s: Slot)
    requires m.hashpower > 0 && n == m.(key := n.key)
    ensures Home(n, hv, s) == Home(m, hv, s)
  {}

  lemma WorkerElsewhere(power: nat, w: World, hv: nat)
    requires MayLock(power, w, hv) && !w.mover.Resting? && !w.mover.Advanced? && w.mem.hashpower > 0 &&
      power <= w.mem.hashpower - 1
    ensures OldBucket(w.mem, hv) != w.mem.expandBucket
  {
    hide OldBucket, Stripe;
    OtherStripe(w.mem, power, hv);
  }

  lemma InsertKeeps(hash: Key -> nat, power: nat, w: World, v: World, id: nat)
    requires Good(hash, power, w) && Enabled(hash, power, w, InsertItem(id)) && Next(hash, w, InsertItem(id), v)
    ensures Good(hash, power, v)
  {
    hide Represents, Migrating, Route, OldBucket, Pow2, MayLock;
    match w.mover
    case Resting => InsertRepresents(hash, w.mem, w.chains, w.contents, id);
    case Moving(cur) =>
      WorkerElsewhere(power, w, hash(w.mem.key[id]));
      InsertWhileMoving(hash, w.mem, w.chains, w.contents, cur, id);
    case Emptied =>
      MovingShape(hash, w.mem, w.chains, w.contents, None);
      WorkerElsewhere(power, w, hash(w.mem.key[id]));
      RouteElsewhere(w.mem, hash(w.mem.key[id]));
      InsertWhileMoving(hash, w.mem, w.chains, w.contents, None, id);
    case Advanced => InsertRepresents(hash, w.mem, w.chains, w.contents, id);
  }

  lemma DeleteLeavesBucket(m: Mem, pos: Pos)
    requires HasPos(m, pos) && (Deref(m, pos).Some? ==> Deref(m, pos).value in m.hNext)
    ensures SameRouting(m, Delete(m, pos))
    ensures pos != AtHead(Old(m.expandBucket)) && m.expandBucket < |m.prior| ==>
      Delete(m, pos).prior[m.expandBucket] == m.prior[m.expandBucket]
  {}

  lemma RestingShape(hash: Key -> nat, m: Mem, cs: Chains, contents: map<Key, nat>)
    requires Represents(hash, m, cs, contents)
    ensures m.expanding ==> m.hashpower > 0 && |m.prior| == Pow2(m.hashpower - 1) && m.expandBucket <= |m.prior|
  {
    hide Linked, Placed, Present, Pow2;
  }

  lemma MovingShape(hash: Key -> nat, m: Mem, cs: Chains, contents: map<Key, nat>, cur: Ptr)
    requires Migrating(hash, m, cs, contents, cur)
    ensures m.expanding && m.hashpower > 0 && m.expandBucket < |m.prior|
  {
    hide Linked, PlacedBut, PresentBut, Pow2;
  }

  lemma DeleteKeeps(hash: Key -> nat, power: nat, w: World, v: World, k: Key)
    requires Good(hash, power, w) && Enabled(hash, power, w, DeleteKey(k)) && Next(hash, w, DeleteKey(k), v)
    ensures Good(hash, power, v)
  {
    hide Represents, Migrating, Route, OldBucket, Pow2, MayLock, Delete;
    var s := Route(w.mem, hash(k));
    var i := IndexOf(w.chains[s], w.contents[k]);
    DeleteLeavesBucket(w.mem, PosOf(s, w.chains[s], i));
    match w.mover
    case Resting => DeleteRepresents(hash, w.mem, w.chains, w.contents, k, i);
    case Moving(cur) =>
      WorkerElsewhere(power, w, hash(k));
      DeleteWhileMoving(hash, w.mem, w.chains, w.contents, cur, k, i);
    case Emptied =>
      MovingShape(hash, w.mem, w.chains, w.contents, None);
      WorkerElsewhere(power, w, hash(k));
      RouteElsewhere(w.mem, hash(k));
      DeleteWhileMoving(hash, w.mem, w.chains, w.contents, None, k, i);
    case Advanced => DeleteRepresents(hash, w.mem, w.chains, w.contents, k, i);
  }

  lemma MoverKeeps(hash: Key -> nat, power: nat, w: World, v: World, step: Step)
    requires Good(hash, power, w) && Enabled(hash, power, w, step) && Next(hash, w, step, v)
    requires step.StartExpansion? || step.LockBucket? || step.MoveOne? || step.ClearOld? || step.NextBucket? ||
      step.EndBucket?
    ensures Good(hash, power, v)
  {
    hide Represents, Migrating, Route, Pow2, MoveChains, EndChains, ExpandChains;
    match step
    case StartExpansion => ExpandRepresents(hash, w.mem, w.chains, w.contents);
    case LockBucket => StartMove(hash, w.mem, w.chains, w.contents);
    case MoveOne => MoveKeeps(hash, w.mem, w.chains, w.contents, w.mover.cur.value);
    case ClearOld => ClearKeeps(hash, w.mem, w.chains, w.contents);
    case NextBucket =>
      MovingShape(hash, w.mem, w.chains, w.contents, None);
      BumpKeeps(hash, w.mem, w.chains, w.contents);
    case EndBucket =>
      RestingShape(hash, w.mem, w.chains, w.contents);
      EndKeeps(hash, w.mem, w.chains, w.contents);
  }

  /** Every enabled step has an effect, and every effect keeps the table good. */
  lemma StepKeeps(hash: Key -> nat, power: nat, w: World, step: Step, v: World)
    requires Good(hash, power, w) && Enabled(hash, power, w, step) && Next(hash, w, step, v)
    ensures Good(hash, power, v)
  {
    hide Good, Next;
    match step
    case NewItem(id, k) => StepNew(hash, power, w, v, id, k);
    case InsertItem(id) => InsertKeeps(hash, power, w, v, id);
    case DeleteKey(k) => DeleteKeeps(hash, power, w, v, k);
    case _ => MoverKeeps(hash, power, w, v, step);
  }

  lemma StepNew(hash: Key -> nat, power: nat, w: World, v: World, id: nat, k: Key)
    requires Good(hash, power, w) && Enabled(hash, power, w, NewItem(id, k)) && Next(hash, w, NewItem(id, k), v)
    ensures Good(hash, power, v)
  {
    hide Good;
    NewItemKeeps(hash, power, w, v, id, k);
  }

  lemma StepExists(hash: Key -> nat, power: nat, w: World, step: Step) returns (v: World)
    requires Good(hash, power, w) && Enabled(hash, power, w, step)
    ensures Next(hash, w, step, v)
  {
    hide Represents, Migrating, Route, Pow2, MoveChains, EndChains, ExpandChains, Delete, MayLock, OldBucket;
    var m := w.mem;
    match step
    case NewItem(id, k) =>
      v := w.(mem := m.(key := m.key[id := k]));
    case InsertItem(id) =>
      WorkerHasBucket(hash, power, w, hash(m.key[id]));
      var s := Route(m, hash(m.key[id]));
      v := w.(mem := Insert(m, id, s), chains := w.chains[s := [id] + w.chains[s]],
              contents := w.contents[m.key[id] := id]);
    case DeleteKey(k) =>
      WorkerHasBucket(hash, power, w, hash(k));
      WorkerFinds(hash, power, w, k);
      var s := Route(m, hash(k));
      var i := IndexOf(w.chains[s], w.contents[k]);
      v := w.(mem := Delete(m, PosOf(s, w.chains[s], i)),
              chains := w.chains[s := w.chains[s][..i] + w.chains[s][i + 1..]],
              contents := w.contents - {k});
    case StartExpansion =>
      ExpandRepresents(hash, m, w.chains, w.contents);
      v := w.(mem := Expand(m), chains := ExpandChains(m, w.chains), moves := 0);
    case LockBucket =>
      RestingShape(hash, m, w.chains, w.contents);
      v := w.(mover := Moving(m.prior[m.expandBucket]));
    case MoveOne =>
      var id := w.mover.cur.value;
      MoveKeeps(hash, m, w.chains, w.contents, id);
      v := w.(mem := MoveItem(hash, m, id), mover := Moving(m.hNext[id]),
              chains := MoveChains(w.chains, m.expandBucket, hash(m.key[id]) % Pow2(m.hashpower)));
    case ClearOld =>
      MovingShape(hash, m, w.chains, w.contents, None);
      v := w.(mem := ClearBucket(m), mover := Emptied);
    case NextBucket =>
      MovingShape(hash, m, w.chains, w.contents, None);
      v := w.(mem := Bump(m), mover := Advanced, moves := w.moves + 1);
    case EndBucket =>
      RestingShape(hash, m, w.chains, w.contents);
      v := w.(mem := End(m), mover := Resting, chains := EndChains(m, w.chains));
  }

  lemma WorkerHasBucket(hash: Key -> nat, power: nat, w: World, hv: nat)
    requires Good(hash, power, w)
    ensures (w.mem.expanding ==> w.mem.hashpower > 0) && HasSlot(w.mem, Route(w.mem, hv)) &&
      Route(w.mem, hv) in w.chains
  {
    hide PlacedBut, PresentBut, Placed, Present, Linked, Pow2;
    match w.mover
    case Resting =>
      RouteHasSlot(w.mem, hv);
      SlotsAreLinked(w.mem, w.chains);
    case Moving(cur) => AtOther(w.mem, w.chains, cur, hv);
    case Emptied => AtOther(w.mem, w.chains, None, hv);
    case Advanced =>
      RouteHasSlot(w.mem, hv);
      SlotsAreLinked(w.mem, w.chains);
  }

  /** The bucket a worker is sent to holds the item of its key, at a place that can be unlinked. */
  lemma WorkerFinds(hash: Key -> nat, power: nat, w: World, k: Key)
    requires Good(hash, power, w) && k in w.contents && MayLock(power, w, hash(k))
    requires w.mem.expanding ==> w.mem.hashpower > 0
    ensures Route(w.mem, hash(k)) in w.chains && w.contents[k] in w.chains[Route(w.mem, hash(k))]
    ensures var s := Route(w.mem, hash(k)); var pos := PosOf(s, w.chains[s], IndexOf(w.chains[s], w.contents[k]));
      HasPos(w.mem, pos) && Deref(w.mem, pos) == Some(w.contents[k]) && w.contents[k] in w.mem.hNext
  {
    hide Represents, Migrating, Route, Pow2, MayLock, OldBucket;
    var m, s := w.mem, Route(w.mem, hash(k));
    match w.mover
    case Resting =>
      IsPresent(hash, m, w.chains, w.contents, k);
      DeleteRepresents(hash, m, w.chains, w.contents, k, IndexOf(w.chains[s], w.contents[k]));
    case Moving(cur) =>
      MovingShape(hash, m, w.chains, w.contents, cur);
      WorkerElsewhere(power, w, hash(k));
      PresentWhileMoving(hash, m, w.chains, w.contents, cur, k);
      DeleteWhileMoving(hash, m, w.chains, w.contents, cur, k, IndexOf(w.chains[s], w.contents[k]));
    case Emptied =>
      MovingShape(hash, m, w.chains, w.contents, None);
      WorkerElsewhere(power, w, hash(k));
      PresentWhileMoving(hash, m, w.chains, w.contents, None, k);
      DeleteWhileMoving(hash, m, w.chains, w.contents, None, k, IndexOf(w.chains[s], w.contents[k]));
    case Advanced =>
      IsPresent(hash, m, w.chains, w.contents, k);
      DeleteRepresents(hash, m, w.chains, w.contents, k, IndexOf(w.chains[s], w.contents[k]));
  }

  lemma PresentWhileMoving(hash: Key -> nat, m: Mem, cs: Chains, contents: map<Key, nat>, cur: Ptr, k: Key)
    requires Migrating(hash, m, cs, contents, cur) && k in contents && OldBucket(m, hash(k)) != m.expandBucket
    ensures var s := Route(m, hash(k)); s in cs && contents[k] in cs[s]
  {
    hide Linked, PlacedBut, PresentBut, Pow2, Route;
    PresentElsewhere(hash, m, cs, contents, k);
  }

  // ----- Threads under different locks

  /** Hash values under different locks are sent to different buckets. */
  lemma RoutesDiffer(m: Mem, power: nat, hv: nat, other: nat)
    requires power <= m.hashpower && (m.expanding ==> m.hashpower > 0 && power <= m.hashpower - 1)
    requires Stripe(power, hv) != Stripe(power, other)
    ensures Route(m, hv) != Route(m, other)
  {
    LowBits(hv, power, m.hashpower);
    LowBits(other, power, m.hashpower);
    if m.expanding {
      LowBits(hv, power, m.hashpower - 1);
      LowBits(other, power, m.hashpower - 1);
    }
  }

  lemma ChainsAreSeparate(hash: Key -> nat, power: nat, w: World)
    requires Good(hash, power, w)
    ensures Separate(w.chains)
  {
    hide PlacedBut, PresentBut, Placed, Present, Pow2, Chain, Separate;
  }

  lemma NewIsUnlinked(hash: Key -> nat, power: nat, w: World, id: nat)
    requires Good(hash, power, w) && id in w.mem.key && w.mem.key[id] !in w.contents
    ensures forall s :: s in w.chains ==> id !in w.chains[s]
  {
    hide Linked, Present, PresentBut, Pow2, Route, Home;
  }

  lemma InsertElsewhere(m: Mem, cs: Chains, id: nat, s: Slot, hv: nat)
    requires (m.expanding ==> m.hashpower > 0) && HasSlot(m, s) && s != Route(m, hv)
    requires HasSlot(m, Route(m, hv)) && Route(m, hv) in cs && id !in cs[Route(m, hv)]
    ensures Undisturbed(m, Insert(m, id, s), cs, hv)
  {
    hide Pow2;
  }

  /** Inserting an item does not disturb a thread that works under another lock. */
  lemma InsertIsLocal(hash: Key -> nat, power: nat, w: World, id: nat, hv: nat)
    requires Good(hash, power, w) && Enabled(hash, power, w, InsertItem(id))
    requires Stripe(power, hash(w.mem.key[id])) != Stripe(power, hv)
    ensures w.mem.expanding ==> w.mem.hashpower > 0
    ensures var s := Route(w.mem, hash(w.mem.key[id]));
      HasSlot(w.mem, s) && Undisturbed(w.mem, Insert(w.mem, id, s), w.chains, hv)
  {
    WorkerHasBucket(hash, power, w, hv);
    WorkerHasBucket(hash, power, w, hash(w.mem.key[id]));
    NewIsUnlinked(hash, power, w, id);
    hide Represents, Migrating, Route, Stripe, Pow2, Undisturbed, Insert;
    RoutesDiffer(w.mem, power, hv, hash(w.mem.key[id]));
    InsertElsewhere(w.mem, w.chains, id, Route(w.mem, hash(w.mem.key[id])), hv);
  }

  lemma DeleteElsewhere(m: Mem, cs: Chains, s: Slot, i: nat, hv: nat)
    requires (m.expanding ==> m.hashpower > 0) && Separate(cs) && s in cs && i < |cs[s]| && s != Route(m, hv)
    requires HasSlot(m, Route(m, hv)) && Route(m, hv) in cs
    requires HasPos(m, PosOf(s, cs[s], i)) && Deref(m, PosOf(s, cs[s], i)) == Some(cs[s][i]) && cs[s][i] in m.hNext
    ensures SameRouting(m, Delete(m, PosOf(s, cs[s], i)))
    ensures Undisturbed(m, Delete(m, PosOf(s, cs[s], i)), cs, hv)
  {
    hide Pow2, Separate;
    OnOneChain(cs, s, cs[s][i]);
    if i > 0 {
      OnOneChain(cs, s, cs[s][i - 1]);
    }
  }

  /** Neither does deleting one. */
  lemma DeleteIsLocal(hash: Key -> nat, power: nat, w: World, k: Key, hv: nat)
    requires Good(hash, power, w) && Enabled(hash, power, w, DeleteKey(k))
    requires Stripe(power, hash(k)) != Stripe(power, hv)
    ensures w.mem.expanding ==> w.mem.hashpower > 0
    ensures var s := Route(w.mem, hash(k));
      && s in w.chains && w.contents[k] in w.chains[s]
      && var pos := PosOf(s, w.chains[s], IndexOf(w.chains[s], w.contents[k]));
      && HasPos(w.mem, pos) && Deref(w.mem, pos) == Some(w.contents[k]) && w.contents[k] in w.mem.hNext
      && SameRouting(w.mem, Delete(w.mem, pos)) && Undisturbed(w.mem, Delete(w.mem, pos), w.chains, hv)
  {
    WorkerHasBucket(hash, power, w, hv);
    WorkerFinds(hash, power, w, k);
    ChainsAreSeparate(hash, power, w);
    hide Represents, Migrating, Route, Stripe, Pow2, Undisturbed, Delete, Separate;
    RoutesDiffer(w.mem, power, hv, hash(k));
    var s := Route(w.mem, hash(k));
    DeleteElsewhere(w.mem, w.chains, s, IndexOf(w.chains[s], w.contents[k]), hv);
  }

  /** A step of another thread: it does not hold the lock of `hv`.  All threads are stopped while an
      expansion starts. */
  predicate ByOther(hash: Key -> nat, power: nat, w: World, step: Step, hv: nat) {
    match step
    case NewItem(id, k) => true
    case InsertItem(id) => id in w.mem.key && Stripe(power, hash(w.mem.key[id])) != Stripe(power, hv)
    case DeleteKey(k) => Stripe(power, hash(k)) != Stripe(power, hv)
    case StartExpansion => false
    case EndBucket => true
    case _ => Stripe(power, hv) != Stripe(power, w.mem.expandBucket)
  }

  /** No step of any other thread, worker or mover, disturbs a thread that holds the lock of `hv`: it
      is sent to the same bucket and finds the same items there. */
  lemma OthersAreLocal(hash: Key -> nat, power: nat, w: World, step: Step, v: World, hv: nat)
    requires Good(hash, power, w) && Enabled(hash, power, w, step) && Next(hash, w, step, v)
    requires ByOther(hash, power, w, step, hv)
    ensures (w.mem.expanding ==> w.mem.hashpower > 0) && (v.mem.expanding ==> v.mem.hashpower > 0)
    ensures Undisturbed(w.mem, v.mem, w.chains, hv)
  {
    WorkerHasBucket(hash, power, w, hv);
    hide Represents, Migrating, Stripe, Pow2, Undisturbed, Delete, Separate, MayLock;
    match step
    case NewItem(id, k) => StaysPut(w.mem, v.mem, w.chains, hv);
    case InsertItem(id) => InsertIsLocal(hash, power, w, id, hv);
    case DeleteKey(k) => DeleteIsLocal(hash, power, w, k, hv);
    case LockBucket => StaysPut(w.mem, v.mem, w.chains, hv);
    case MoveOne =>
      MovingShape(hash, w.mem, w.chains, w.contents, w.mover.cur);
      MoveIsLocal(hash, w.mem, w.chains, w.contents, w.mover.cur.value, power, hv);
    case ClearOld =>
      MovingShape(hash, w.mem, w.chains, w.contents, None);
      ClearIsLocal(hash, w.mem, w.chains, w.contents, power, hv);
    case NextBucket =>
      MovingShape(hash, w.mem, w.chains, w.contents, None);
      BumpIsLocal(hash, w.mem, w.chains, w.contents, power, hv);
    case EndBucket => EndIsLocal(hash, w.mem, w.chains, w.contents, hv);
  }

  lemma StaysPut(m: Mem, n: Mem, cs: Chains, hv: nat)
    requires (m.expanding ==> m.hashpower > 0) && HasSlot(m, Route(m, hv)) && Route(m, hv) in cs
    requires n == m.(key := n.key)
    ensures Undisturbed(m, n, cs, hv)
  {
    hide Pow2;
  }

  // ----- Runs

  function Empty(hashpower: nat): World {
    var mem := Mem(hashpower, false, 0, seq(Pow2(hashpower), _ => None), [], map[], map[]);
    World(mem, Resting, map b: nat | b < Pow2(hashpower) :: Primary(b) := [], map[], 0)
  }

  lemma EmptyIsGood(hash: Key -> nat, power: nat, hashpower: nat)
    requires power < hashpower
    ensures Good(hash, power, Empty(hashpower))
  {
    hide Pow2;
    var w := Empty(hashpower);
    forall s | s in w.chains
      ensures HasSlot(w.mem, s) && Chain(w.mem.hNext, Head(w.mem, s), w.chains[s])
    {}
    assert forall s :: HasSlot(w.mem, s) ==> s in w.chains by {
      forall s | HasSlot(w.mem, s)
        ensures s in w.chains
      {
        assert s == Primary(s.b);
      }
    }
  }

  ghost predicate IsRun(hash: Key -> nat, power: nat, hashpower: nat, worlds: seq<World>, steps: seq<Step>) {
    && |worlds| == |steps| + 1 && worlds[0] == Empty(hashpower)
    && forall i :: 0 <= i < |steps| ==>
        && (worlds[i].mem.expanding ==> worlds[i].mem.hashpower > 0)
        && Enabled(hash, power, worlds[i], steps[i]) && Next(hash, worlds[i], steps[i], worlds[i + 1])
  }

  lemma {:induction false} RunIsGood(hash: Key -> nat, power: nat, hashpower: nat, worlds: seq<World>,
                                     steps: seq<Step>, i: nat)
    requires power < hashpower && IsRun(hash, power, hashpower, worlds, steps) && i < |worlds|
    ensures Good(hash, power, worlds[i])
  {
    hide IsRun, Good, Next, Enabled, Empty;
    RunShape(hash, power, hashpower, worlds, steps);
    if i == 0 {
      EmptyIsGood(hash, power, hashpower);
    } else {
      RunIsGood(hash, power, hashpower, worlds, steps, i - 1);
      StepOf(hash, power, hashpower, worlds, steps, i - 1);
      StepKeeps(hash, power, worlds[i - 1], steps[i - 1], worlds[i]);
    }
  }

  lemma RunShape(hash: Key -> nat, power: nat, hashpower: nat, worlds: seq<World>, steps: seq<Step>)
    requires IsRun(hash, power, hashpower, worlds, steps)
    ensures |worlds| == |steps| + 1 && worlds[0] == Empty(hashpower)
  {
    hide Next, Enabled, Empty;
  }

  lemma StepOf(hash: Key -> nat, power: nat, hashpower: nat, worlds: seq<World>, steps: seq<Step>, i: nat)
    requires IsRun(hash, power, hashpower, worlds, steps) && i < |steps| == |worlds| - 1
    ensures worlds[i].mem.expanding ==> worlds[i].mem.hashpower > 0
    ensures Enabled(hash, power, worlds[i], steps[i]) && Next(hash, worlds[i], steps[i], worlds[i + 1])
  {
    hide Next, Enabled, Empty;
  }

  /** In every state of every run, whoever holds the lock of a key finds, by walking the bucket the
      key is sent to, exactly the item the plain map has for it. */
  lemma LookupsAgree(hash: Key -> nat, power: nat, hashpower: nat, worlds: seq<World>, steps: seq<Step>, i: nat, k: Key)
    requires power < hashpower && IsRun(hash, power, hashpower, worlds, steps) && i < |worlds|
    requires MayLock(power, worlds[i], hash(k))
    ensures var m := worlds[i].mem;
      && (m.expanding ==> m.hashpower > 0)
      && var s := Route(m, hash(k));
      && HasSlot(m, s) && s in worlds[i].chains && Chain(m.hNext, Head(m, s), worlds[i].chains[s])
      && Seek(m.key, worlds[i].chains[s], k) == Lookup(worlds[i].contents, k)
  {
    RunIsGood(hash, power, hashpower, worlds, steps, i);
    hide IsRun, MayLock, Route, Seek;
    var w := worlds[i];
    match w.mover
    case Resting =>
      RouteHasSlot(w.mem, hash(k));
      SeekIsLookup(hash, w.mem, w.chains, w.contents, k);
    case Moving(cur) => SeekWhileMoving(hash, power, w, cur, k);
    case Emptied => SeekWhileMoving(hash, power, w, None, k);
    case Advanced =>
      RouteHasSlot(w.mem, hash(k));
      SeekIsLookup(hash, w.mem, w.chains, w.contents, k);
  }

  lemma SeekWhileMoving(hash: Key -> nat, power: nat, w: World, cur: Ptr, k: Key)
    requires Migrating(hash, w.mem, w.chains, w.contents, cur) && MayLock(power, w, hash(k)) && !w.mover.Resting? &&
      !w.mover.Advanced?
    requires power <= w.mem.hashpower - 1
    ensures w.mem.hashpower > 0
    ensures var m := w.mem; var s := Route(m, hash(k));
      && HasSlot(m, s) && s in w.chains && Chain(m.hNext, Head(m, s), w.chains[s])
      && Seek(m.key, w.chains[s], k) == Lookup(w.contents, k)
  {
    hide Pow2, MayLock, Seek;
    WorkerElsewhere(power, w, hash(k));
    RouteElsewhere(w.mem, hash(k));
    AtOther(w.mem, w.chains, cur, hash(k));
    var m, s := w.mem, Route(w.mem, hash(k));
    SeekFinds(m.key, w.chains[s], k);
    assert Chain(m.hNext, Head(Through(m, cur), s), w.chains[s]);
    if k in w.contents {
      PresentElsewhere(hash, m, w.chains, w.contents, k);
    }
  }

  /** While an expansion runs, the number of buckets moved is the number of the next one. */
  lemma LockStays(hash: Key -> nat, power: nat, w: World, step: Step, v: World, hv: nat)
    requires w.mem.expanding ==> w.mem.hashpower > 0
    requires Enabled(hash, power, w, step) && Next(hash, w, step, v)
    requires ByOther(hash, power, w, step, hv) && MayLock(power, w, hv)
    ensures MayLock(power, v, hv)
  {
    hide Pow2, Route, Delete, MoveChains, EndChains, ExpandChains, Stripe;
    if step.DeleteKey? {
      var s := Route(w.mem, hash(step.k));
      DeleteLeavesBucket(w.mem, PosOf(s, w.chains[s], IndexOf(w.chains[s], w.contents[step.k])));
    }
  }

  /** One step further: what was undisturbed so far still is, and the bucket still has the same items. */
  lemma StillUndisturbed(m: Mem, n: Mem, o: Mem, cs: Chains, ds: Chains, hv: nat)
    requires (m.expanding ==> m.hashpower > 0) && (n.expanding ==> n.hashpower > 0)
    requires o.expanding ==> o.hashpower > 0
    requires Undisturbed(m, n, cs, hv) && Undisturbed(n, o, ds, hv)
    requires Chain(m.hNext, Head(m, Route(m, hv)), cs[Route(m, hv)])
    requires Chain(n.hNext, Head(n, Route(n, hv)), ds[Route(n, hv)])
    ensures Undisturbed(m, o, cs, hv) && ds[Route(m, hv)] == cs[Route(m, hv)]
  {
    hide Route, Chain;
    var s := Route(m, hv);
    ChainFrame(m.hNext, n.hNext, Head(m, s), cs[s]);
    ChainUnique(n.hNext, Head(n, s), cs[s], ds[s]);
    forall id | id in cs[s] && id in m.hNext
      ensures id in o.hNext && o.hNext[id] == m.hNext[id]
    {
      assert id in ds[s] && id in n.hNext;
    }
  }

  ghost predicate OthersOnly(hash: Key -> nat, power: nat, worlds: seq<World>, steps: seq<Step>, i: nat, j: nat,
                             hv: nat)
    requires |worlds| == |steps| + 1
  {
    forall t :: i <= t < j && t < |steps| ==> ByOther(hash, power, worlds[t], steps[t], hv)
  }

  /** Whoever holds the lock of a key may walk its bucket slowly: over any stretch of a run in which only
      others take steps, pointer, links and items of the bucket stay as they were at its start. */
  lemma {:induction false} WalksAreStable(hash: Key -> nat, power: nat, hashpower: nat, worlds: seq<World>,
                                          steps: seq<Step>, i: nat, j: nat, k: Key)
    requires power < hashpower && IsRun(hash, power, hashpower, worlds, steps) && i <= j < |worlds| == |steps| + 1
    requires MayLock(power, worlds[i], hash(k)) && OthersOnly(hash, power, worlds, steps, i, j, hash(k))
    ensures worlds[i].mem.expanding ==> worlds[i].mem.hashpower > 0
    ensures worlds[j].mem.expanding ==> worlds[j].mem.hashpower > 0
    ensures Undisturbed(worlds[i].mem, worlds[j].mem, worlds[i].chains, hash(k)) && MayLock(power, worlds[j], hash(k))
    ensures var s := Route(worlds[i].mem, hash(k)); s in worlds[j].chains && worlds[j].chains[s] == worlds[i].chains[s]
    decreases j
  {
    hide IsRun, Good, Next, Enabled, Route, MayLock, Undisturbed, Seek, ByOther;
    LookupsAgree(hash, power, hashpower, worlds, steps, i, k);
    if i == j {
      StaysPut(worlds[i].mem, worlds[i].mem, worlds[i].chains, hash(k));
    } else {
      var w, v, step := worlds[j - 1], worlds[j], steps[j - 1];
      WalksAreStable(hash, power, hashpower, worlds, steps, i, j - 1, k);
      RunIsGood(hash, power, hashpower, worlds, steps, j - 1);
      StepOf(hash, power, hashpower, worlds, steps, j - 1);
      assert ByOther(hash, power, w, step, hash(k));
      LockStays(hash, power, w, step, v, hash(k));
      OthersAreLocal(hash, power, w, step, v, hash(k));
      LookupsAgree(hash, power, hashpower, worlds, steps, j - 1, k);
      LookupsAgree(hash, power, hashpower, worlds, steps, j, k);
      StillWalked(worlds[i], w, v, hash(k));
    }
  }

  lemma StillWalked(u: World, w: World, v: World, hv: nat)
    requires u.mem.expanding ==> u.mem.hashpower > 0
    requires w.mem.expanding ==> w.mem.hashpower > 0
    requires v.mem.expanding ==> v.mem.hashpower > 0
    requires Undisturbed(u.mem, w.mem, u.chains, hv) && Undisturbed(w.mem, v.mem, w.chains, hv)
    requires Chain(u.mem.hNext, Head(u.mem, Route(u.mem, hv)), u.chains[Route(u.mem, hv)])
    requires Chain(w.mem.hNext, Head(w.mem, Route(w.mem, hv)), w.chains[Route(w.mem, hv)])
    requires Route(v.mem, hv) in v.chains && HasSlot(v.mem, Route(v.mem, hv))
    requires Chain(v.mem.hNext, Head(v.mem, Route(v.mem, hv)), v.chains[Route(v.mem, hv)])
    ensures Undisturbed(u.mem, v.mem, u.chains, hv)
    ensures var s := Route(u.mem, hv); s in v.chains && v.chains[s] == u.chains[s]
  {
    hide Route, Chain;
    StillUndisturbed(u.mem, w.mem, v.mem, u.chains, w.chains, hv);
    var s := Route(u.mem, hv);
    ChainFrame(u.mem.hNext, v.mem.hNext, Head(u.mem, s), u.chains[s]);
    ChainUnique(v.mem.hNext, Head(v.mem, s), u.chains[s], v.chains[s]);
  }

  lemma {:induction false} MovesCounted(hash: Key -> nat, power: nat, hashpower: nat, worlds: seq<World>,
                                        steps: seq<Step>, i: nat)
    requires power < hashpower && IsRun(hash, power, hashpower, worlds, steps) && i < |worlds|
    ensures worlds[i].mem.expanding ==> worlds[i].moves == worlds[i].mem.expandBucket
  {
    hide IsRun, Next, Enabled;
    RunShape(hash, power, hashpower, worlds, steps);
    if i > 0 {
      MovesCounted(hash, power, hashpower, worlds, steps, i - 1);
      StepOf(hash, power, hashpower, worlds, steps, i - 1);
      StepCounted(hash, power, worlds[i - 1], steps[i - 1], worlds[i]);
    }
  }

  lemma StepCounted(hash: Key -> nat, power: nat, w: World, step: Step, v: World)
    requires w.mem.expanding ==> w.mem.hashpower > 0 && w.moves == w.mem.expandBucket
    requires Enabled(hash, power, w, step) && Next(hash, w, step, v)
    ensures v.mem.expanding ==> v.moves == v.mem.expandBucket
  {
    hide Pow2, Route, Delete, MoveChains, EndChains, ExpandChains;
    if step.DeleteKey? {
      var s := Route(w.mem, hash(step.k));
      DeleteLeavesBucket(w.mem, PosOf(s, w.chains[s], IndexOf(w.chains[s], w.contents[step.k])));
    }
  }

  /** An expansion ends after exactly as many bucket moves as the old table has buckets, with the old
      table empty. */
  lemma ExpansionEnds(hash: Key -> nat, power: nat, hashpower: nat, worlds: seq<World>, steps: seq<Step>, i: nat)
    requires power < hashpower && IsRun(hash, power, hashpower, worlds, steps) && i < |steps|
    requires worlds[i].mem.expanding && !worlds[i + 1].mem.expanding
    ensures var v := worlds[i + 1];
      && v.mem.hashpower > 0 && v.moves == Pow2(v.mem.hashpower - 1) == |v.mem.prior|
      && forall b :: 0 <= b < |v.mem.prior| ==> v.mem.prior[b] == None
  {
    RunIsGood(hash, power, hashpower, worlds, steps, i);
    MovesCounted(hash, power, hashpower, worlds, steps, i);
    var w, v, step := worlds[i], worlds[i + 1], steps[i];
    assert Next(hash, w, step, v) && Enabled(hash, power, w, step);
    hide IsRun;
    OnlyEndEnds(hash, power, w, v, step);
    AllEmptied(hash, w.mem, w.chains, w.contents);
  }

  lemma OnlyEndEnds(hash: Key -> nat, power: nat, w: World, v: World, step: Step)
    requires w.mem.hashpower > 0 && Enabled(hash, power, w, step) && Next(hash, w, step, v)
    requires w.mem.expanding && !v.mem.expanding
    ensures step.EndBucket? && w.mover.Advanced? && v.mem == End(w.mem) && v.moves == w.moves
  {
    hide Pow2, Route, Delete, MoveChains, EndChains, ExpandChains;
    if step.DeleteKey? {
      var s := Route(w.mem, hash(step.k));
      DeleteLeavesBucket(w.mem, PosOf(s, w.chains[s], IndexOf(w.chains[s], w.contents[step.k])));
    }
  }

  lemma AllEmptied(hash: Key -> nat, m: Mem, cs: Chains, contents: map<Key, nat>)
    requires Represents(hash, m, cs, contents) && m.expanding && m.hashpower > 0 && !End(m).expanding
    ensures m.expandBucket == Pow2(m.hashpower - 1) == |m.prior|
    ensures forall b :: 0 <= b < |m.prior| ==> m.prior[b] == None
  {
    hide Pow2, Present, Separate, Route;
    forall b | 0 <= b < |m.prior|
      ensures m.prior[b] == None
    {
      assert HasSlot(m, Old(b));
      assert Chain(m.hNext, Head(m, Old(b)), cs[Old(b)]);
      if cs[Old(b)] != [] {
        var id := cs[Old(b)][0];
        assert id in cs[Old(b)];
        EndRoutes(m, hash(m.key[id]));
      }
    }
  }
}
