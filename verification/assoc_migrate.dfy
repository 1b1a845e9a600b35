/** Moving a bucket to the larger table, one item at a time, and what other threads may do
    meanwhile. */
module AssocMigrate {
  import opened Common
  import opened Division
  import opened LinkedChains
  import opened Assoc

  /** The old bucket of a hash during an expansion. */
  function OldBucket(m: Mem, hv: nat): nat
    requires m.hashpower > 0
  {
    hv % Pow2(m.hashpower - 1)
  }

  /** A slot an item with hash `hv` may be on while the bucket `expandBucket` is being moved: where
      operations look, or already in its bucket of the larger table. */
  ghost predicate Home(m: Mem, hv: nat, s: Slot)
    requires m.hashpower > 0
  {
    Route(m, hv) == s || (OldBucket(m, hv) == m.expandBucket && s == Primary(hv % Pow2(m.hashpower)))
  }

  /** The memory as the mover sees it: the items not moved yet hang off its own pointer `cur`, no
      longer off the old bucket. */
  function Through(m: Mem, cur: Ptr): Mem
    requires m.expandBucket < |m.prior|
  {
    m.(prior := m.prior[m.expandBucket := cur])
  }

  ghost predicate PlacedBut(hash: Key -> nat, m: Mem, cs: Chains, contents: map<Key, nat>)
    requires m.hashpower > 0
  {
    forall s, id :: s in cs && id in cs[s] ==>
      id in m.key && m.key[id] in contents && contents[m.key[id]] == id && Home(m, hash(m.key[id]), s)
  }

  ghost predicate PresentBut(hash: Key -> nat, m: Mem, cs: Chains, contents: map<Key, nat>)
    requires m.hashpower > 0
  {
    forall k :: k in contents ==>
      && contents[k] in m.key && m.key[contents[k]] == k
      && exists s :: s in cs && contents[k] in cs[s] && Home(m, hash(k), s)
  }

  /** The table represents `contents` in the middle of moving bucket `expandBucket`. */
  ghost predicate Migrating(hash: Key -> nat, m: Mem, cs: Chains, contents: map<Key, nat>, cur: Ptr) {
    && Shaped(m) && m.expanding && m.expandBucket < |m.prior|
    && Linked(Through(m, cur), cs) && PlacedBut(hash, m, cs, contents) && PresentBut(hash, m, cs, contents)
  }

  // ----- The mover's steps

  /** Relinks the item at hand in front of its bucket of the larger table. */
  function MoveItem(hash: Key -> nat, m: Mem, id: nat): Mem
    requires id in m.key && hash(m.key[id]) % Pow2(m.hashpower) < |m.primary|
  {
    var b := hash(m.key[id]) % Pow2(m.hashpower);
    m.(hNext := m.hNext[id := m.primary[b]], primary := m.primary[b := Some(id)])
  }

  function ClearBucket(m: Mem): Mem
    requires m.expandBucket < |m.prior|
  {
    m.(prior := m.prior[m.expandBucket := None])
  }

  /** On to the next old bucket. */
  function Bump(m: Mem): Mem {
    m.(expandBucket := m.expandBucket + 1)
  }

  /** The end of the expansion, if there is no next old bucket. */
  function End(m: Mem): Mem
    requires m.hashpower > 0
  {
    if m.expandBucket == Pow2(m.hashpower - 1) then m.(expanding := false) else m
  }

  ghost function MoveChains(cs: Chains, eb: nat, b: nat): Chains
    requires Old(eb) in cs && Primary(b) in cs && cs[Old(eb)] != []
  {
    cs[Old(eb) := cs[Old(eb)][1..]][Primary(b) := [cs[Old(eb)][0]] + cs[Primary(b)]]
  }

  /** The chains after the last old bucket is gone. */
  ghost function EndChains(m: Mem, cs: Chains): Chains {
    if m.expandBucket == |m.prior| then map s | s in cs && s.Primary? :: cs[s] else cs
  }

  // ----- Remainders modulo powers of two

  lemma {:induction false} Pow2Split(a: nat, b: nat)
    requires a <= b
    ensures exists k: nat :: Pow2(b) == Pow2(a) * k
    decreases b
  {
    if a == b {
      assert Pow2(b) == Pow2(a) * 1;
    } else {
      Pow2Split(a, b - 1);
      var k: nat :| Pow2(b - 1) == Pow2(a) * k;
      assert Pow2(b) == Pow2(a) * (2 * k);
    }
  }

  lemma ModOfMod(x: nat, w: nat, k: nat)
    requires w > 0 && k > 0 && w * k > 0
    ensures (x % (w * k)) % w == x % w
  {
    var n := w * k;
    var q, r := x / n, x % n;
    var d := r / w - x / w + k * q;
    assert x == n * q + r;
    assert w * (k * q) == n * q;
    assert w * d == w * (r / w) - w * (x / w) + w * (k * q);
    NoSmallMultiple(w, d, x % w - r % w);
  }

  /** The low bits of a hash do not depend on how many higher bits were kept. */
  lemma LowBits(hv: nat, a: nat, b: nat)
    requires a <= b
    ensures (hv % Pow2(b)) % Pow2(a) == hv % Pow2(a)
  {
    Pow2Split(a, b);
    var k: nat :| Pow2(b) == Pow2(a) * k;
    ModOfMod(hv, Pow2(a), k);
  }

  // ----- Each step of the mover keeps the contents

  lemma StartMove(hash: Key -> nat, m: Mem, cs: Chains, contents: map<Key, nat>)
    requires Represents(hash, m, cs, contents) && m.expanding && m.expandBucket < |m.prior|
    ensures Migrating(hash, m, cs, contents, m.prior[m.expandBucket])
  {
    hide Linked, Route;
    assert Through(m, m.prior[m.expandBucket]) == m;
  }

  lemma MovedFrom(hash: Key -> nat, m: Mem, cs: Chains, contents: map<Key, nat>, id: nat)
    requires m.hashpower > 0 && PlacedBut(hash, m, cs, contents) && Old(m.expandBucket) in cs &&
      id in cs[Old(m.expandBucket)]
    ensures id in m.key && OldBucket(m, hash(m.key[id])) == m.expandBucket
  {
    hide Pow2;
  }

  lemma MoveSeparate(cs: Chains, eb: nat, b: nat)
    requires Separate(cs) && Old(eb) in cs && Primary(b) in cs && cs[Old(eb)] != []
    ensures Separate(MoveChains(cs, eb, b))
  {
    var ids, ds := cs[Old(eb)], MoveChains(cs, eb, b);
    assert ids[0] !in ids[1..];
    assert forall id :: id in ids[1..] ==> id in ids;
    assert ids[0] in ids;
    SeparateTail(cs, Old(eb));
    SeparatePush(cs[Old(eb) := ids[1..]], Primary(b), ids[0]);
  }

  lemma SeparateTail(cs: Chains, s: Slot)
    requires Separate(cs) && s in cs && cs[s] != []
    ensures Separate(cs[s := cs[s][1..]])
    ensures forall t :: t in cs ==> cs[s][0] !in cs[s := cs[s][1..]][t]
  {
    var ids := cs[s];
    assert forall id :: id in ids[1..] ==> id in ids;
    assert ids[0] in ids && ids[0] !in ids[1..];
  }

  lemma MoveLinked(hash: Key -> nat, m: Mem, cs: Chains, id: nat)
    requires Shaped(m) && m.expanding && m.expandBucket < |m.prior| && Linked(Through(m, Some(id)), cs) && id in m.key
    requires Old(m.expandBucket) in cs && cs[Old(m.expandBucket)] != [] && cs[Old(m.expandBucket)][0] == id
    ensures id in m.hNext && hash(m.key[id]) % Pow2(m.hashpower) < |m.primary|
    ensures var b := hash(m.key[id]) % Pow2(m.hashpower);
      && Primary(b) in cs
      && Linked(Through(MoveItem(hash, m, id), m.hNext[id]), MoveChains(cs, m.expandBucket, b))
  {
    var eb, b, t := m.expandBucket, hash(m.key[id]) % Pow2(m.hashpower), Through(m, Some(id));
    hide Pow2;
    var ids := cs[Old(eb)];
    assert HasSlot(t, Old(eb)) && HasSlot(t, Primary(b));
    assert Chain(t.hNext, Head(t, Old(eb)), ids);
    var n, ds := Through(MoveItem(hash, m, id), m.hNext[id]), MoveChains(cs, eb, b);
    MoveSeparate(cs, eb, b);
    assert forall s :: s in cs && s != Old(eb) ==> id !in cs[s] by {
      assert id in ids;
    }
    assert id !in ids[1..];
    hide Separate;
    forall s | s in ds
      ensures HasSlot(n, s) && Chain(n.hNext, Head(n, s), ds[s])
    {
      assert HasSlot(t, s) && Chain(t.hNext, Head(t, s), cs[s]);
      if s == Old(eb) {
        ChainFrame(m.hNext, n.hNext, m.hNext[id], ids[1..]);
      } else if s == Primary(b) {
        PushChain(m.hNext, m.primary[b], cs[s], id);
      } else {
        ChainFrame(m.hNext, n.hNext, Head(t, s), cs[s]);
      }
    }
  }

  lemma HomeSame(m: Mem, n: Mem, hv: nat, s: Slot)
    requires m.hashpower > 0 && SameRouting(m, n)
    ensures Home(n, hv, s) == Home(m, hv, s)
  {
    hide Pow2;
  }

  lemma MovePlaced(hash: Key -> nat, m: Mem, n: Mem, cs: Chains, contents: map<Key, nat>, b: nat)
    requires m.hashpower > 0 && PlacedBut(hash, m, cs, contents) && SameRouting(m, n)
    requires Old(m.expandBucket) in cs && Primary(b) in cs && cs[Old(m.expandBucket)] != []
    requires var id := cs[Old(m.expandBucket)][0];
      id in m.key && b == hash(m.key[id]) % Pow2(m.hashpower) && OldBucket(m, hash(m.key[id])) == m.expandBucket
    ensures PlacedBut(hash, n, MoveChains(cs, m.expandBucket, b), contents)
  {
    var ids, ds := cs[Old(m.expandBucket)], MoveChains(cs, m.expandBucket, b);
    assert forall id :: id in ids[1..] ==> id in ids;
    assert ids[0] in ids;
    assert Home(m, hash(m.key[ids[0]]), Primary(b));
    hide Home, Pow2;
    forall s, id | s in ds && id in ds[s]
      ensures id in n.key && n.key[id] in contents && contents[n.key[id]] == id && Home(n, hash(n.key[id]), s)
    {
      if id == ids[0] && s == Primary(b) {
        HomeSame(m, n, hash(m.key[id]), s);
      } else {
        assert s in cs && id in cs[s];
        HomeSame(m, n, hash(m.key[id]), s);
      }
    }
  }

  lemma MovePresent(hash: Key -> nat, m: Mem, n: Mem, cs: Chains, contents: map<Key, nat>, b: nat)
    requires m.hashpower > 0 && PresentBut(hash, m, cs, contents) && SameRouting(m, n)
    requires Old(m.expandBucket) in cs && Primary(b) in cs && cs[Old(m.expandBucket)] != []
    requires var id := cs[Old(m.expandBucket)][0];
      id in m.key && b == hash(m.key[id]) % Pow2(m.hashpower) && OldBucket(m, hash(m.key[id])) == m.expandBucket
    ensures PresentBut(hash, n, MoveChains(cs, m.expandBucket, b), contents)
  {
    var ids, ds := cs[Old(m.expandBucket)], MoveChains(cs, m.expandBucket, b);
    var id := ids[0];
    assert Home(m, hash(m.key[id]), Primary(b));
    hide Home, Pow2;
    forall k | k in contents
      ensures exists s :: s in ds && contents[k] in ds[s] && Home(n, hash(k), s)
    {
      var s :| s in cs && contents[k] in cs[s] && Home(m, hash(k), s);
      HomeSame(m, n, hash(k), s);
      if s == Old(m.expandBucket) && contents[k] == id {
        HomeSame(m, n, hash(k), Primary(b));
        assert contents[k] in ds[Primary(b)];
      } else {
        assert contents[k] in ds[s];
      }
    }
  }

  /** Moving one item leaves the contents as they are. */
  lemma MoveKeeps(hash: Key -> nat, m: Mem, cs: Chains, contents: map<Key, nat>, id: nat)
    requires Migrating(hash, m, cs, contents, Some(id))
    ensures id in m.key && id in m.hNext && hash(m.key[id]) % Pow2(m.hashpower) < |m.primary|
    ensures Old(m.expandBucket) in cs && cs[Old(m.expandBucket)] != [] && cs[Old(m.expandBucket)][0] == id
    ensures var b := hash(m.key[id]) % Pow2(m.hashpower);
      Primary(b) in cs && Migrating(hash, MoveItem(hash, m, id), MoveChains(cs, m.expandBucket, b), contents,
                                    m.hNext[id])
  {
    hide Linked, PlacedBut, PresentBut, Pow2, MoveChains;
    CursorAtFirst(m, cs, Some(id));
    MovedFrom(hash, m, cs, contents, id);
    MoveLinked(hash, m, cs, id);
    var b, n := hash(m.key[id]) % Pow2(m.hashpower), MoveItem(hash, m, id);
    MovePlaced(hash, m, n, cs, contents, b);
    MovePresent(hash, m, n, cs, contents, b);
  }

  lemma CursorAtFirst(m: Mem, cs: Chains, cur: Ptr)
    requires m.expanding && m.expandBucket < |m.prior| && Linked(Through(m, cur), cs)
    ensures Old(m.expandBucket) in cs
    ensures if cur.Some? then cs[Old(m.expandBucket)] != [] && cs[Old(m.expandBucket)][0] == cur.value
            else cs[Old(m.expandBucket)] == []
  {
    var t := Through(m, cur);
    assert HasSlot(t, Old(m.expandBucket));
    hide Separate;
  }

  lemma ClearKeeps(hash: Key -> nat, m: Mem, cs: Chains, contents: map<Key, nat>)
    requires Migrating(hash, m, cs, contents, None)
    ensures Migrating(hash, ClearBucket(m), cs, contents, None)
  {
    hide Linked, Pow2, Home;
    assert Through(ClearBucket(m), None) == Through(m, None);
    var n := ClearBucket(m);
    forall s, id | s in cs && id in cs[s]
      ensures Home(n, hash(n.key[id]), s)
    {
      HomeSame(m, n, hash(m.key[id]), s);
    }
    forall k | k in contents
      ensures exists s :: s in cs && contents[k] in cs[s] && Home(n, hash(k), s)
    {
      var s :| s in cs && contents[k] in cs[s] && Home(m, hash(k), s);
      HomeSame(m, n, hash(k), s);
    }
  }

  // ----- The end of a bucket

  /** Once the old bucket is empty, items are at home exactly where operations will look next. */
  lemma BumpRoutes(m: Mem, hv: nat, s: Slot)
    requires Shaped(m) && m.expanding && m.expandBucket < |m.prior|
    ensures s != Old(m.expandBucket) && Home(m, hv, s) ==> Route(Bump(m), hv) == s
    ensures OldBucket(m, hv) != m.expandBucket ==> Route(Bump(m), hv) == Route(m, hv)
  {
    var h := OldBucket(m, hv);
    assert h < |m.prior|;
  }

  /** Once there is no old bucket left, operations look in the larger table whether the expansion has
      been declared ended or not. */
  lemma EndRoutes(m: Mem, hv: nat)
    requires Shaped(m) && m.expanding
    ensures Route(End(m), hv) == Route(m, hv)
    ensures m.expandBucket == |m.prior| ==> Route(m, hv).Primary?
  {
    assert OldBucket(m, hv) < |m.prior|;
  }

  /** Nothing is left on old buckets that operations no longer look at. */
  lemma OldIsAhead(hash: Key -> nat, m: Mem, cs: Chains, contents: map<Key, nat>, s: Slot)
    requires m.hashpower > 0 && PlacedBut(hash, m, cs, contents) && s in cs && s.Old?
    ensures cs[s] == [] || s.b >= m.expandBucket
  {
    hide Pow2;
    if cs[s] != [] {
      var id := cs[s][0];
      assert id in cs[s];
      assert Home(m, hash(m.key[id]), s);
    }
  }

  lemma OldEmptied(hash: Key -> nat, m: Mem, cs: Chains, contents: map<Key, nat>, s: Slot)
    requires Migrating(hash, m, cs, contents, None) && s in cs && s.Old? && s.b <= m.expandBucket
    ensures cs[s] == []
  {
    hide Linked, PlacedBut, PresentBut, Pow2;
    CursorAtFirst(m, cs, None);
    OldIsAhead(hash, m, cs, contents, s);
    assert s == Old(s.b);
  }

  lemma BumpPlaced(hash: Key -> nat, m: Mem, cs: Chains, contents: map<Key, nat>)
    requires Shaped(m) && m.expanding && m.expandBucket < |m.prior| && PlacedBut(hash, m, cs, contents)
    requires forall s :: s in cs && s.Old? && s.b <= m.expandBucket ==> cs[s] == []
    ensures Placed(hash, Bump(m), cs, contents)
  {
    var n := Bump(m);
    hide Pow2, Route, Home;
    forall s, id | s in cs && id in cs[s]
      ensures id in n.key && n.key[id] in contents && contents[n.key[id]] == id && Route(n, hash(n.key[id])) == s
    {
      BumpRoutes(m, hash(m.key[id]), s);
    }
  }

  lemma BumpPresent(hash: Key -> nat, m: Mem, cs: Chains, contents: map<Key, nat>)
    requires Shaped(m) && m.expanding && m.expandBucket < |m.prior| && PresentBut(hash, m, cs, contents)
    requires forall s :: s in cs && s.Old? && s.b <= m.expandBucket ==> cs[s] == []
    ensures Present(hash, Bump(m), cs, contents)
  {
    var n := Bump(m);
    hide Pow2, Route, Home;
    forall k | k in contents
      ensures Route(n, hash(k)) in cs && contents[k] in cs[Route(n, hash(k))]
    {
      var s :| s in cs && contents[k] in cs[s] && Home(m, hash(k), s);
      BumpRoutes(m, hash(k), s);
    }
  }

  lemma BumpLinked(m: Mem, cs: Chains)
    requires Shaped(m) && m.expanding && m.expandBucket < |m.prior| && Linked(m, cs)
    ensures Linked(Bump(m), cs) && Shaped(Bump(m))
  {
    hide Pow2, Separate, Chain;
    var n := Bump(m);
    forall s | s in cs ensures HasSlot(n, s) && Chain(n.hNext, Head(n, s), cs[s]) {
      assert HasSlot(m, s) && Chain(m.hNext, Head(m, s), cs[s]);
    }
    assert forall s :: HasSlot(n, s) ==> HasSlot(m, s);
  }

  /** Finishing a bucket leaves a table that represents the same contents without exception, also
      before the end of the expansion is declared. */
  lemma BumpKeeps(hash: Key -> nat, m: Mem, cs: Chains, contents: map<Key, nat>)
    requires Migrating(hash, m, cs, contents, None) && m.prior[m.expandBucket] == None
    ensures Represents(hash, Bump(m), cs, contents)
  {
    hide Linked, PlacedBut, PresentBut, Pow2, Placed, Present, HasSlot;
    assert Through(m, None) == m;
    forall s | s in cs && s.Old? && s.b <= m.expandBucket
      ensures cs[s] == []
    {
      OldEmptied(hash, m, cs, contents, s);
    }
    BumpLinked(m, cs);
    BumpPlaced(hash, m, cs, contents);
    BumpPresent(hash, m, cs, contents);
  }

  lemma EndLinked(m: Mem, cs: Chains)
    requires Shaped(m) && m.expanding && Linked(m, cs)
    ensures Linked(End(m), EndChains(m, cs)) && Shaped(End(m))
  {
    hide Pow2;
    var n, ds := End(m), EndChains(m, cs);
    assert Separate(ds);
    hide Separate;
    forall s | s in ds
      ensures HasSlot(n, s) && Chain(n.hNext, Head(n, s), ds[s])
    {
      assert HasSlot(m, s) && Chain(m.hNext, Head(m, s), cs[s]);
    }
  }

  lemma EndPlaced(hash: Key -> nat, m: Mem, cs: Chains, contents: map<Key, nat>)
    requires Shaped(m) && m.expanding && Placed(hash, m, cs, contents) && Present(hash, m, cs, contents)
    ensures Placed(hash, End(m), EndChains(m, cs), contents) && Present(hash, End(m), EndChains(m, cs), contents)
  {
    var n, ds := End(m), EndChains(m, cs);
    hide Pow2, Route;
    forall s, id | s in ds && id in ds[s]
      ensures id in n.key && n.key[id] in contents && contents[n.key[id]] == id && Route(n, hash(n.key[id])) == s
    {
      assert s in cs && id in cs[s];
      EndRoutes(m, hash(m.key[id]));
    }
    forall k | k in contents
      ensures Route(n, hash(k)) in ds && contents[k] in ds[Route(n, hash(k))]
    {
      EndRoutes(m, hash(k));
    }
  }

  /** Declaring the end of the expansion changes nothing anyone can look up. */
  lemma EndKeeps(hash: Key -> nat, m: Mem, cs: Chains, contents: map<Key, nat>)
    requires Represents(hash, m, cs, contents) && m.expanding
    ensures m.hashpower > 0 && Represents(hash, End(m), EndChains(m, cs), contents)
  {
    hide Linked, Placed, Present, Pow2, EndChains;
    EndLinked(m, cs);
    EndPlaced(hash, m, cs, contents);
  }

  // ----- Other threads

  /** The lock that covers a hash: the striped item lock is chosen by its `power` low bits. */
  function Stripe(power: nat, hv: nat): nat {
    hv % Pow2(power)
  }

  /** A hash under another lock than the bucket being moved belongs to another old bucket. */
  lemma OtherStripe(m: Mem, power: nat, hv: nat)
    requires m.hashpower > 0 && power <= m.hashpower - 1
    requires Stripe(power, hv) != Stripe(power, m.expandBucket)
    ensures OldBucket(m, hv) != m.expandBucket
  {
    LowBits(hv, power, m.hashpower - 1);
  }

  /** Where the mover writes while it moves an item. */
  lemma MoveStaysInStripe(hash: Key -> nat, m: Mem, id: nat)
    requires m.hashpower > 0 && id in m.key && OldBucket(m, hash(m.key[id])) == m.expandBucket
    ensures (hash(m.key[id]) % Pow2(m.hashpower)) % Pow2(m.hashpower - 1) == m.expandBucket
  {
    LowBits(hash(m.key[id]), m.hashpower - 1, m.hashpower);
  }

  /** What a thread under the lock of `hv` relies on: where it is sent, the pointer it finds there
      and the links it follows from it. */
  ghost predicate Undisturbed(m: Mem, n: Mem, cs: Chains, hv: nat)
    requires (m.expanding ==> m.hashpower > 0) && (n.expanding ==> n.hashpower > 0)
  {
    var s := Route(m, hv);
    && Route(n, hv) == s && HasSlot(m, s) && HasSlot(n, s) && Head(n, s) == Head(m, s)
    && s in cs && forall id :: id in cs[s] && id in m.hNext ==> id in n.hNext && n.hNext[id] == m.hNext[id]
  }

  lemma RoutesApart(m: Mem, hv: nat, b: nat)
    requires m.hashpower > 0 && OldBucket(m, hv) != m.expandBucket && b % Pow2(m.hashpower - 1) == m.expandBucket
    ensures Route(m, hv) != Primary(b) && Route(m, hv) != Old(m.expandBucket)
  {
    LowBits(hv, m.hashpower - 1, m.hashpower);
  }

  /** Moving an item does not disturb a thread that works under another lock. */
  lemma MoveIsLocal(hash: Key -> nat, m: Mem, cs: Chains, contents: map<Key, nat>, id: nat, power: nat, hv: nat)
    requires Migrating(hash, m, cs, contents, Some(id)) && power <= m.hashpower - 1
    requires Stripe(power, hv) != Stripe(power, m.expandBucket)
    ensures id in m.key && hash(m.key[id]) % Pow2(m.hashpower) < |m.primary|
    ensures Undisturbed(m, MoveItem(hash, m, id), cs, hv)
  {
    hide Linked, PlacedBut, PresentBut, Pow2, Route, Separate, MoveChains, Stripe, HasSlot;
    MoveKeeps(hash, m, cs, contents, id);
    OtherStripe(m, power, hv);
    MovedFrom(hash, m, cs, contents, id);
    MoveStaysInStripe(hash, m, id);
    RoutesApart(m, hv, hash(m.key[id]) % Pow2(m.hashpower));
    LinkedIsSeparate(Through(m, Some(id)), cs);
    OnOneChain(cs, Old(m.expandBucket), id);
    AtOther(m, cs, Some(id), hv);
    MoveElsewhere(m, MoveItem(hash, m, id), cs, hash(m.key[id]) % Pow2(m.hashpower), id, hv);
  }

  /** A thread elsewhere has its bucket. */
  lemma AtOther(m: Mem, cs: Chains, cur: Ptr, hv: nat)
    requires Shaped(m) && m.expanding && m.expandBucket < |m.prior| && Linked(Through(m, cur), cs)
    ensures HasSlot(m, Route(m, hv)) && Route(m, hv) in cs
  {
    RouteHasSlot(m, hv);
    SlotsAreLinked(Through(m, cur), cs);
    hide Linked, Route, Pow2;
    assert HasSlot(Through(m, cur), Route(m, hv));
  }

  lemma MoveElsewhere(m: Mem, n: Mem, cs: Chains, b: nat, id: nat, hv: nat)
    requires m.expanding && m.hashpower > 0 && b < |m.primary|
    requires n == m.(hNext := m.hNext[id := m.primary[b]], primary := m.primary[b := Some(id)])
    requires HasSlot(m, Route(m, hv)) && Route(m, hv) in cs && Route(m, hv) != Primary(b) && id !in cs[Route(m, hv)]
    ensures Undisturbed(m, n, cs, hv)
  {
    hide Pow2;
  }

  lemma LinkedIsSeparate(m: Mem, cs: Chains)
    requires Linked(m, cs)
    ensures Separate(cs)
  {}

  /** Clearing the old bucket, moving on to the next and ending the expansion do not either. */
  lemma ClearIsLocal(hash: Key -> nat, m: Mem, cs: Chains, contents: map<Key, nat>, power: nat, hv: nat)
    requires Migrating(hash, m, cs, contents, None) && power <= m.hashpower - 1
    requires Stripe(power, hv) != Stripe(power, m.expandBucket)
    ensures Undisturbed(m, ClearBucket(m), cs, hv)
  {
    hide Linked, PlacedBut, PresentBut, Pow2, Stripe;
    OtherStripe(m, power, hv);
    AtOther(m, cs, None, hv);
  }

  lemma BumpIsLocal(hash: Key -> nat, m: Mem, cs: Chains, contents: map<Key, nat>, power: nat, hv: nat)
    requires Migrating(hash, m, cs, contents, None) && power <= m.hashpower - 1
    requires Stripe(power, hv) != Stripe(power, m.expandBucket)
    ensures Undisturbed(m, Bump(m), cs, hv)
  {
    hide Linked, PlacedBut, PresentBut, Pow2, Stripe;
    OtherStripe(m, power, hv);
    BumpRoutes(m, hv, Route(m, hv));
    AtOther(m, cs, None, hv);
  }

  /** Declaring the end disturbs nobody, under whatever lock. */
  lemma EndIsLocal(hash: Key -> nat, m: Mem, cs: Chains, contents: map<Key, nat>, hv: nat)
    requires Represents(hash, m, cs, contents) && m.expanding
    ensures m.hashpower > 0 && Undisturbed(m, End(m), cs, hv)
  {
    hide Linked, Placed, Present, Pow2;
    EndRoutes(m, hv);
    RouteHasSlot(m, hv);
    SlotsAreLinked(m, cs);
  }

  /** The route of a thread that read `expanding` before a change and `expandBucket` after it. */
  function TornRoute(before: Mem, after: Mem, hv: nat): Slot
    requires before.expanding ==> after.hashpower > 0
  {
    Route(after.(expanding := before.expanding), hv)
  }

  /** The two are read one after the other; a thread under another lock that reads them around either
      change is sent to the same place. */
  lemma TornReadsAgree(hash: Key -> nat, m: Mem, cs: Chains, contents: map<Key, nat>, power: nat, hv: nat)
    requires Migrating(hash, m, cs, contents, None) && power <= m.hashpower - 1
    requires Stripe(power, hv) != Stripe(power, m.expandBucket)
    ensures m.hashpower > 0
    ensures TornRoute(m, Bump(m), hv) == Route(m, hv)
    ensures TornRoute(Bump(m), End(Bump(m)), hv) == Route(m, hv)
    ensures TornRoute(m, End(Bump(m)), hv) == Route(m, hv)
  {
    hide Linked, PlacedBut, PresentBut, Pow2, Stripe;
    OtherStripe(m, power, hv);
    BumpRoutes(m, hv, Route(m, hv));
    assert End(Bump(m)).(expanding := true) == Bump(m);
  }
}
