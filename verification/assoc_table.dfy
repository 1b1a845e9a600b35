/** The hash table as an object.  Its links are changed in place; beside them it carries, for the
    proof only, the items of each bucket and the map it stands for. */
module AssocTable {
  import opened Common
  import opened LinkedChains
  import opened Assoc
  import opened AssocMigrate

  class Table {
    const hash: Key -> nat
    var hashpower: nat
    var expanding: bool
    var expandBucket: nat
    var primary: seq<Ptr>
    var prior: seq<Ptr>
    var hNext: map<nat, Ptr>
    var key: map<nat, Key>
    ghost var chains: Chains
    ghost var contents: map<Key, nat>

    function Memory(): Mem
      reads this
    {
      Mem(hashpower, expanding, expandBucket, primary, prior, hNext, key)
    }

    ghost predicate Valid()
      reads this
    {
      Represents(hash, Memory(), chains, contents) && (expanding ==> expandBucket < |prior|)
    }

    function Bucket(hv: nat): Slot
      requires expanding ==> hashpower > 0
      reads this
    {
      if expanding && hv % Pow2(hashpower - 1) >= expandBucket then Old(hv % Pow2(hashpower - 1))
      else Primary(hv % Pow2(hashpower))
    }

    lemma BucketIsRoute(hv: nat)
      requires Valid()
      ensures (expanding ==> hashpower > 0) && Bucket(hv) == Route(Memory(), hv)
      ensures HasSlot(Memory(), Bucket(hv)) && Bucket(hv) in chains
      ensures Chain(hNext, Head(Memory(), Bucket(hv)), chains[Bucket(hv)])
    {
      hide Placed, Present, Separate, Chain, Pow2;
      RouteHasSlot(Memory(), hv);
    }

    /** Walks the bucket of `k`; what it finds is what the map holds. */
    method Find(k: Key) returns (r: Ptr)
      requires Valid()
      ensures r == Lookup(contents, k)
    {
      BucketIsRoute(hash(k));
      var s := Bucket(hash(k));
      SeekIsLookup(hash, Memory(), chains, contents, k);
      hide Represents, Route, Pow2;
      var it := Head(Memory(), s);
      ghost var ids := chains[s];
      r := None;
      while it.Some?
        invariant Chain(hNext, it, ids) && Seek(key, ids, k) == Lookup(contents, k)
        decreases |ids|
      {
        var id := it.value;
        if id in key && key[id] == k {
          return it;
        }
        it := hNext[id];
        ids := ids[1..];
      }
    }

    /** The place of the pointer to the item of `k`, or of the pointer that ends its bucket. */
    method HashItemBefore(k: Key) returns (pos: Pos, ghost i: nat)
      requires Valid()
      ensures (expanding ==> hashpower > 0) && Bucket(hash(k)) in chains && i <= |chains[Bucket(hash(k))]|
      ensures pos == PosOf(Bucket(hash(k)), chains[Bucket(hash(k))], i) && HasPos(Memory(), pos)
      ensures Deref(Memory(), pos) == Lookup(contents, k)
      ensures k in contents ==> i < |chains[Bucket(hash(k))]| && chains[Bucket(hash(k))][i] == contents[k]
    {
      BucketIsRoute(hash(k));
      var s := Bucket(hash(k));
      ghost var all := chains[s];
      SeekIsLookup(hash, Memory(), chains, contents, k);
      hide Represents, Route, Pow2;
      pos, i := AtHead(s), 0;
      assert all[0..] == all;
      while Deref(Memory(), pos).Some? && !(Deref(Memory(), pos).value in key && key[Deref(Memory(), pos).value] == k)
        invariant i <= |all| && pos == PosOf(s, all, i) && HasPos(Memory(), pos)
        invariant Chain(hNext, Deref(Memory(), pos), all[i..]) && Seek(key, all[i..], k) == Lookup(contents, k)
        decreases |all| - i
      {
        var id := Deref(Memory(), pos).value;
        assert all[i..][0] == all[i] == id && all[i..][1..] == all[i + 1..];
        pos, i := After(id), i + 1;
      }
      ChainStart(hNext, Deref(Memory(), pos), all[i..]);
    }

    /** The caller promises that the key is not in the table yet. */
    method Insert(id: nat)
      requires Valid() && id in key && key[id] !in contents
      modifies this
      ensures key == old(key) && Valid() && contents == old(contents)[key[id] := id]
      ensures hashpower == old(hashpower) && expanding == old(expanding) && expandBucket == old(expandBucket)
    {
      hide Represents, Pow2, Chain, Route, Bucket;
      BucketIsRoute(hash(key[id]));
      var s := Bucket(hash(key[id]));
      InsertRepresents(hash, Memory(), chains, contents, id);
      hNext := hNext[id := Head(Memory(), s)];
      match s {
        case Old(b) => prior := prior[b := Some(id)];
        case Primary(b) => primary := primary[b := Some(id)];
      }
      chains := chains[s := [id] + chains[s]];
      contents := contents[key[id] := id];
    }

    /** The caller deletes only what it found. */
    method Delete(k: Key)
      requires Valid() && k in contents
      modifies this
      ensures Valid() && contents == old(contents) - {k}
      ensures key == old(key) && hashpower == old(hashpower) && expanding == old(expanding) &&
        expandBucket == old(expandBucket)
    {
      hide Represents, Pow2, Chain, Route, Bucket;
      var before, i := HashItemBefore(k);
      BucketIsRoute(hash(k));
      ghost var s := Bucket(hash(k));
      DeleteRepresents(hash, Memory(), chains, contents, k, i);
      var id := Deref(Memory(), before).value;
      var nxt := hNext[id];
      hNext := hNext[id := None];
      match before {
        case AtHead(t) =>
          match t {
            case Old(b) => prior := prior[b := nxt];
            case Primary(b) => primary := primary[b := nxt];
          }
        case After(prev) => hNext := hNext[prev := nxt];
      }
      chains := chains[s := chains[s][..i] + chains[s][i + 1..]];
      contents := contents - {k};
    }

    /** Starts an expansion if memory for the larger table was found. */
    method StartExpand(found: bool)
      requires Valid() && !expanding
      modifies this
      ensures Valid() && contents == old(contents) && key == old(key)
      ensures expanding == found && (found ==> hashpower == old(hashpower) + 1 && expandBucket == 0)
      ensures !found ==> Memory() == old(Memory()).(prior := old(primary))
    {
      hide Represents, Pow2, ExpandChains;
      prior := primary;
      if found {
        ExpandRepresents(hash, old(Memory()), chains, contents);
        chains := ExpandChains(old(Memory()), chains);
        primary := seq(Pow2(hashpower + 1), _ => None);
        hashpower := hashpower + 1;
        expanding := true;
        expandBucket := 0;
      } else {
        PriorIgnored(hash, old(Memory()), Memory(), chains, contents);
      }
    }

    /** Moves one whole bucket.  At every turn of the loop the table, seen through the mover's own
        pointer, still stands for the same map. */
    method MoveBucket()
      requires Valid() && expanding
      modifies this
      ensures Valid() && contents == old(contents) && key == old(key) && hashpower == old(hashpower)
      ensures expandBucket == old(expandBucket) + 1 && expanding == (expandBucket < Pow2(hashpower - 1))
    {
      hide Represents, Pow2, MoveChains, Migrating, EndChains;
      BeginMove(hash, Memory(), chains, contents);
      var it := prior[expandBucket];
      while it.Some?
        invariant Migrating(hash, Memory(), chains, contents, it) && Old(expandBucket) in chains
        invariant hashpower > 0 && expandBucket < |prior| == Pow2(hashpower - 1)
        invariant contents == old(contents) && key == old(key) && hashpower == old(hashpower)
        invariant expandBucket == old(expandBucket) && expanding
        decreases |chains[Old(expandBucket)]|
      {
        MoveKeeps(hash, Memory(), chains, contents, it.value);
        var next := hNext[it.value];
        var bucket := hash(key[it.value]) % Pow2(hashpower);
        ghost var before, eb := chains, expandBucket;
        chains := MoveChains(chains, expandBucket, bucket);
        MoveShortens(before, eb, bucket);
        hNext := hNext[it.value := primary[bucket]];
        primary := primary[bucket := it];
        it := next;
      }
      ClearKeeps(hash, Memory(), chains, contents);
      prior := prior[expandBucket := None];
      BumpKeeps(hash, Memory(), chains, contents);
      expandBucket := expandBucket + 1;
      EndKeeps(hash, Memory(), chains, contents);
      chains := EndChains(Memory(), chains);
      if expandBucket == Pow2(hashpower - 1) {
        expanding := false;
      }
    }
  }

  lemma BeginMove(hash: Key -> nat, m: Mem, cs: Chains, contents: map<Key, nat>)
    requires Represents(hash, m, cs, contents) && m.expanding && m.expandBucket < |m.prior|
    ensures m.hashpower > 0 && m.expandBucket < |m.prior| && |m.prior| == Pow2(m.hashpower - 1) &&
      Old(m.expandBucket) in cs
    ensures Migrating(hash, m, cs, contents, m.prior[m.expandBucket])
  {
    hide Linked, Placed, Present, Pow2, Migrating;
    StartMove(hash, m, cs, contents);
    AllBuckets(m, cs);
  }

  lemma MoveShortens(cs: Chains, eb: nat, b: nat)
    requires Old(eb) in cs && Primary(b) in cs && cs[Old(eb)] != []
    ensures Old(eb) in MoveChains(cs, eb, b) && |MoveChains(cs, eb, b)[Old(eb)]| < |cs[Old(eb)]|
  {}

  /** Outside an expansion nothing looks at the old table. */
  lemma PriorIgnored(hash: Key -> nat, m: Mem, n: Mem, cs: Chains, contents: map<Key, nat>)
    requires Represents(hash, m, cs, contents) && !m.expanding && n == m.(prior := n.prior)
    ensures Represents(hash, n, cs, contents)
  {
    hide Chain, Separate, Pow2;
    forall s | s in cs
      ensures HasSlot(n, s) && Chain(n.hNext, Head(n, s), cs[s])
    {
      assert HasSlot(m, s) && Chain(m.hNext, Head(m, s), cs[s]);
    }
    assert forall s :: HasSlot(n, s) ==> HasSlot(m, s);
    assert forall hv: nat {:trigger Route(n, hv)} :: Route(n, hv) == Route(m, hv);
  }
}
