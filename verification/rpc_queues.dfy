/** The transmission and receive queues of an RPC flow, and the tags that tell new packets from old
    ones: a change bit per slot on the way out, the RPC id on the way in. */
module RpcQueues {
  import opened Common
  import opened Ring
  import Division

  /** The change bit a slot is written with in round `k`. */
  function Bit(k: nat): byte {
    if k % 2 == 0 then 1 else 0
  }

  /** How often slot `i` has been used after `calls` writes. */
  function Uses(calls: nat, depth: nat, i: nat): nat
    requires depth > 0
  {
    calls / depth + if i < calls % depth then 1 else 0
  }

  class TxQueue {
    const bucketSize: nat
    const depth: nat
    const changeBits: array<byte>
    var head: nat
    ghost var calls: nat

    ghost predicate Valid()
      reads this, changeBits
    {
      && 0 < depth == changeBits.Length
      && head == calls % depth
      && forall i :: 0 <= i < depth ==> changeBits[i] == Bit(Uses(calls, depth, i))
    }

    constructor (bucketSizeBytes: nat, lDepth: nat)
      ensures Valid() && fresh(changeBits) && calls == 0 && depth == Pow2(lDepth) && bucketSize == bucketSizeBytes
    {
      bucketSize := bucketSizeBytes;
      var n := Pow2(lDepth);
      depth := n;
      head, calls := 0, 0;
      changeBits := new byte[n];
      new;
      for i := 0 to depth
        invariant head == 0 && calls == 0
        invariant forall j :: 0 <= j < i ==> changeBits[j] == 1
      {
        changeBits[i] := 1;
      }
      Division.SmallMod(0, depth);
    }

    /** The n-th call gives slot n mod depth, with a change bit that alternates from round to round. */
    method GetWritePtr() returns (ptr: nat, changeBit: byte)
      requires Valid()
      modifies this, changeBits
      ensures Valid() && calls == old(calls) + 1
      ensures ptr == old(calls) % depth * bucketSize
      ensures changeBit == Bit(old(calls) / depth)
    {
      hide Uses, Bit;
      UsesNext(calls, depth);
      Flips(calls / depth);
      changeBit := changeBits[head];
      ptr := head * bucketSize;
      changeBits[head] := if changeBits[head] % 2 == 0 then changeBits[head] + 1 else changeBits[head] - 1;
      head := head + 1;
      if head == depth {
        head := 0;
      }
      calls := calls + 1;
    }
  }

  class RxQueue {
    const bucketSize: nat
    const depth: nat
    const rpcIds: array<nat>
    var tail: nat

    /** All ids the queue was updated with; each slot keeps the last one for it. */
    ghost var ids: seq<nat>

    ghost predicate Valid()
      reads this, rpcIds
    {
      && 0 < depth == rpcIds.Length && tail == |ids| % depth
      && (forall n :: 0 <= n < |ids| && |ids| - depth <= n ==> rpcIds[n % depth] == ids[n])
      && (forall n :: |ids| <= n < depth ==> rpcIds[n] == NO_ID)
    }

    constructor (bucketSizeBytes: nat, lDepth: nat)
      ensures Valid() && fresh(rpcIds) && depth == Pow2(lDepth) && bucketSize == bucketSizeBytes && ids == []
      ensures tail == Start(depth, NO_ID).tail && rpcIds[..] == Start(depth, NO_ID).seen
      ensures forall i :: 0 <= i < depth ==> rpcIds[i] == 0xffff_ffff
    {
      bucketSize := bucketSizeBytes;
      var n := Pow2(lDepth);
      depth := n;
      tail, ids := 0, [];
      rpcIds := new nat[n];
      new;
      for i := 0 to depth
        invariant tail == 0 && ids == []
        invariant forall j :: 0 <= j < i ==> rpcIds[j] == NO_ID
      {
        rpcIds[i] := NO_ID;
      }
      Division.SmallMod(0, depth);
    }

    /** The slots are read round and round; with each comes the id of its last packet. */
    method GetReadPtr() returns (ptr: nat, rpcId: nat)
      requires Valid()
      ensures ptr == |ids| % depth * bucketSize
      ensures rpcId == if |ids| < depth then NO_ID else ids[|ids| - depth]
    {
      ptr := tail * bucketSize;
      rpcId := rpcIds[tail];
      if |ids| < depth {
        Division.SmallMod(|ids|, depth);
      } else {
        Division.ModAdd(|ids| - depth, depth);
      }
    }

    /** The id is remembered for the slot just read, and the next slot is up. */
    method UpdateRpcId(rpcId: nat)
      requires Valid()
      modifies this, rpcIds
      ensures Valid() && ids == old(ids) + [rpcId]
      ensures rpcIds[..] == old(rpcIds[..])[old(|ids|) % depth := rpcId]
    {
      Division.ModNext(|ids|, depth);
      ghost var n := |ids|;
      if n < depth {
        Division.SmallMod(n, depth);
      }
      forall k | 0 <= k < n && n + 1 - depth <= k ensures k % depth != n % depth {
        Division.ModsDiffer(k, n, depth);
      }
      rpcIds[tail] := rpcId;
      tail := tail + 1;
      if tail == depth {
        tail := 0;
      }
      ids := ids + [rpcId];
    }

    /** One look at the flow's memory, as both listening loops take it: the packet at the tail, if it
        is valid and its id is not the one last seen there. */
    method Pull(mem: array<Slot>) returns (packet: Option<Packet>)
      requires Valid() && mem.Length == depth
      modifies this, rpcIds
      ensures Valid()
      ensures ids == if packet.Some? then old(ids) + [packet.value.tag] else old(ids)
      ensures forall s: State ::
        s.mem == mem[..] && s.seen == old(rpcIds[..]) && s.tail == old(tail) && s.copying.None? ==>
                var t := Next(s, depth, Poll);
                && rpcIds[..] == t.seen && tail == t.tail
                && packet == if t.copying.Some? then Some(mem[t.copying.value].packet) else None
    {
      var ptr, rpcId := GetReadPtr();
      assert rpcId == rpcIds[tail] by {
        if |ids| < depth {
          Division.SmallMod(|ids|, depth);
        } else {
          Division.ModAdd(|ids| - depth, depth);
        }
      }
      Division.ModNext(|ids|, depth);
      var slot := mem[tail];
      if !slot.valid || slot.packet.tag == rpcId {
        return None;
      }
      UpdateRpcId(slot.packet.tag);
      return Some(slot.packet);
    }
  }

  lemma Flips(k: nat)
    ensures Bit(k + 1) == if Bit(k) % 2 == 0 then Bit(k) + 1 else Bit(k) - 1
  {
  }

  lemma UsesNext(calls: nat, depth: nat)
    requires depth > 0
    ensures (calls + 1) % depth == if calls % depth + 1 == depth then 0 else calls % depth + 1
    ensures Uses(calls, depth, calls % depth) == calls / depth
    ensures forall i :: 0 <= i < depth ==>
              Uses(calls + 1, depth, i) == Uses(calls, depth, i) + if i == calls % depth then 1 else 0
  {
    Division.ModNext(calls, depth);
  }

  /** The packets a transmission queue is given, each with the bit its call returned. */
  function TxStream(bodies: seq<seq<byte>>, depth: nat): seq<Packet>
    requires depth > 0
  {
    seq(|bodies|, n requires 0 <= n < |bodies| => Packet(Bit(n / depth) as nat, bodies[n]))
  }

  /** A reader that remembers the bit it saw last in each slot, 0 at first, sees every packet change
      it. */
  lemma TxIsFresh(bodies: seq<seq<byte>>, depth: nat)
    requires depth > 0
    ensures Fresh(TxStream(bodies, depth), depth, 0)
  {
    var ps := TxStream(bodies, depth);
    forall n | 0 <= n < |ps| ensures ps[n].tag != Before(ps, depth, 0, n) {
      if n < depth {
        Division.SmallMod(n, depth);
      } else {
        Division.ModAdd(n - depth, depth);
      }
    }
  }

  const IDS: nat := 0x1_0000
  const NO_ID: nat := 0xffff_ffff

  /** Client in the low half, the client's call count, which wraps, in the high half. */
  function RpcId(client: nat, count: nat): nat {
    client + count % IDS * IDS
  }

  /** A packet's flow is read off the low half of its id and the call off the high half.  The id that stands
      for none is that of the last client's last call before its count wraps. */
  lemma IdSplits(c: nat, n: nat)
    requires c < 65536
    ensures RpcId(c, n) % 65536 == c && RpcId(c, n) / 65536 == n % 65536
    ensures RpcId(c, n) == NO_ID <==> c == 65535 && n % 65536 == 65535
  {}

  /** Two ids are the same exactly for the same client and counts a multiple of 65536 apart. */
  lemma SameId(c: nat, n: nat, d: nat, m: nat)
    requires c < IDS && d < IDS
    ensures RpcId(c, n) == RpcId(d, m) <==> c == d && n % IDS == m % IDS
  {
  }

  /** Packets of several clients on one flow, by client; each client counts its own calls. */
  function CallsBefore(clients: seq<nat>, n: nat, c: nat): nat
    requires n <= |clients|
  {
    if n == 0 then 0 else CallsBefore(clients, n - 1, c) + if clients[n - 1] == c then 1 else 0
  }

  /** Packets on one flow, by client and by the client's call count. */
  function RxStream(clients: seq<nat>, counts: seq<nat>, bodies: seq<seq<byte>>): seq<Packet>
    requires |bodies| == |counts| == |clients|
  {
    seq(|clients|, n requires 0 <= n < |clients| => Packet(RpcId(clients[n], counts[n]), bodies[n]))
  }

  ghost predicate AreClients(clients: seq<nat>) {
    forall n :: 0 <= n < |clients| ==> clients[n] < IDS
  }

  /** No id of the first round is all ones, and packets of one client that follow each other in a slot
      have counts that differ modulo 65536. */
  ghost predicate IdsChange(clients: seq<nat>, counts: seq<nat>, depth: nat)
    requires |counts| == |clients|
  {
    && (forall n :: 0 <= n < |clients| && n < depth ==> RpcId(clients[n], counts[n]) != NO_ID)
    && (forall n :: 0 < depth <= n < |clients| && clients[n] == clients[n - depth] ==>
          counts[n] % IDS != counts[n - depth] % IDS)
  }

  /** This is exactly when a reader that remembers the id it saw last in each slot, all ones at first,
      sees every packet change it. */
  lemma RxFreshExactly(clients: seq<nat>, counts: seq<nat>, bodies: seq<seq<byte>>, depth: nat)
    requires 0 < depth && |bodies| == |counts| == |clients| && AreClients(clients)
    ensures Fresh(RxStream(clients, counts, bodies), depth, NO_ID) <==> IdsChange(clients, counts, depth)
  {
    var ps := RxStream(clients, counts, bodies);
    hide RpcId;
    forall n | 0 <= n < |ps|
      ensures n >= depth ==> (ps[n].tag == Before(ps, depth, NO_ID, n) <==>
                              clients[n] == clients[n - depth] && counts[n] % IDS == counts[n - depth] % IDS)
      ensures n < depth ==> (ps[n].tag == Before(ps, depth, NO_ID, n) <==> RpcId(clients[n], counts[n]) == NO_ID)
    {
      if n >= depth {
        SameId(clients[n], counts[n], clients[n - depth], counts[n - depth]);
      }
    }
  }

  /** So exactly then the reader of a receive queue sees, in every run in which it is not lapped, every
      packet that waits; and packets then arrive once each and in order. */
  lemma RxDelivers(clients: seq<nat>, counts: seq<nat>, bodies: seq<seq<byte>>, depth: nat)
    requires 0 < depth && |bodies| == |counts| == |clients| && AreClients(clients)
    ensures IdsChange(clients, counts, depth) <==>
            forall ts :: Paced(Start(depth, NO_ID), depth, RxStream(clients, counts, bodies), ts) ==>
              SeesAll(depth, NO_ID, ts)
    ensures IdsChange(clients, counts, depth) ==>
            forall ts :: Paced(Start(depth, NO_ID), depth, RxStream(clients, counts, bodies), ts) ==>
              Arrives(depth, NO_ID, RxStream(clients, counts, bodies), ts)
  {
    hide RxStream;
    var ps := RxStream(clients, counts, bodies);
    RxFreshExactly(clients, counts, bodies, depth);
    SeenExactlyWhenFresh(depth, NO_ID, ps);
    if IdsChange(clients, counts, depth) {
      forall ts | Paced(Start(depth, NO_ID), depth, ps, ts) ensures Arrives(depth, NO_ID, ps, ts) {
        StreamArrives(depth, NO_ID, ps, ts);
      }
    }
  }

  /** What has been delivered is what was written so far, once each and in order, and all of it when
      the reader sees nothing more. */
  ghost predicate Arrives(depth: nat, init: nat, ps: seq<Packet>, ts: seq<Step>)
    requires 0 < depth
  {
    var e := Play(Start(depth, init), depth, ts);
    e.delivered <= e.written <= ps && (e.copying.None? && !Sees(e) ==> e.delivered == e.written)
  }

  /** It is enough that each client's counts grow from round to round by less than 65536, as they do
      when no more than 65535 of its calls fall between two packets of one slot. */
  lemma CountsInStep(clients: seq<nat>, counts: seq<nat>, depth: nat)
    requires 0 < depth && |counts| == |clients| && AreClients(clients)
    requires forall n :: 0 <= n < |clients| && n < depth ==> RpcId(clients[n], counts[n]) != NO_ID
    requires forall n :: depth <= n < |clients| && clients[n] == clients[n - depth] ==>
               counts[n - depth] < counts[n] < counts[n - depth] + IDS
    ensures IdsChange(clients, counts, depth)
  {
    hide RpcId;
    forall n | depth <= n < |clients| && clients[n] == clients[n - depth]
      ensures counts[n] % IDS != counts[n - depth] % IDS
    {
      Division.ModsDiffer(counts[n - depth], counts[n], IDS);
    }
  }

  lemma {:induction false} CallsGrow(clients: seq<nat>, n: nat, m: nat, c: nat)
    requires n <= m <= |clients|
    ensures CallsBefore(clients, n, c) <= CallsBefore(clients, m, c) <= CallsBefore(clients, n, c) + (m - n)
    decreases m
  {
    if n < m {
      CallsGrow(clients, n, m - 1, c);
    }
  }

  /** The counts on a flow that gets every call of its clients in call order. */
  function AllCalls(clients: seq<nat>): (r: seq<nat>)
    ensures |r| == |clients|
  {
    seq(|clients|, n requires 0 <= n < |clients| => CallsBefore(clients, n, clients[n]))
  }

  /** On such a flow it is enough that there are fewer than 65536 slots, however the clients' packets
      are interleaved and their counters wrap. */
  lemma OneFlow(clients: seq<nat>, depth: nat)
    requires 0 < depth < IDS && AreClients(clients)
    ensures IdsChange(clients, AllCalls(clients), depth)
  {
    var counts := AllCalls(clients);
    forall n | 0 <= n < |clients| && n < depth ensures RpcId(clients[n], counts[n]) != NO_ID {
      CallsGrow(clients, 0, n, clients[n]);
      Division.SmallMod(counts[n], IDS);
    }
    forall n | depth <= n < |clients| && clients[n] == clients[n - depth]
      ensures counts[n - depth] < counts[n] < counts[n - depth] + IDS
    {
      CallsGrow(clients, n - depth + 1, n, clients[n]);
    }
    CountsInStep(clients, counts, depth);
  }

  /** Two flows that share the calls of one client in turn: the second round of a flow with 32768 slots
      repeats the ids of the first, and a run ends with a packet that waits and is not seen. */
  lemma TwoFlows(clients: seq<nat>, counts: seq<nat>, bodies: seq<seq<byte>>, c: nat) returns (ts: seq<Step>)
    requires c < IDS && |bodies| == |counts| == |clients| > 32768
    requires forall n :: 0 <= n < |clients| ==> clients[n] == c
    requires forall n :: 0 <= n < |clients| ==> counts[n] == 2 * n
    ensures Paced(Start(32768, NO_ID), 32768, RxStream(clients, counts, bodies), ts)
    ensures var e := Play(Start(32768, NO_ID), 32768, ts); Accepted(e) < |e.written| && !Sees(e)
  {
    hide RxStream, Start, Play, Paced;
    assert clients[32768] == clients[32768 - 32768] && counts[32768] == 65536 && counts[0] == 0;
    assert !IdsChange(clients, counts, 32768);
    RxFreshExactly(clients, counts, bodies, 32768);
    ts := Unseen(32768, NO_ID, RxStream(clients, counts, bodies));
  }

  lemma {:induction false} Pow2Large(l: nat)
    requires l >= 16
    ensures Pow2(l) % IDS == 0 && Pow2(l) >= IDS
  {
    if l == 16 {
      assert Pow2(4) == 16 && Pow2(8) == 256 && Pow2(12) == 4096 && Pow2(16) == 65536;
    } else {
      Pow2Large(l - 1);
    }
  }

  lemma {:induction false} CallsOfOne(clients: seq<nat>, n: nat, c: nat)
    requires n <= |clients| && forall i :: 0 <= i < |clients| ==> clients[i] == c
    ensures CallsBefore(clients, n, c) == n
  {
    if n > 0 {
      CallsOfOne(clients, n - 1, c);
    }
  }

  /** With 65536 slots or more the counter wraps as the ring does: even on a flow of its own, a packet of
      a single client waits and is not seen. */
  lemma TooDeep(l: nat, clients: seq<nat>, bodies: seq<seq<byte>>, c: nat) returns (ts: seq<Step>)
    requires l >= 16 && c < IDS && |bodies| == |clients| > Pow2(l)
    requires forall i :: 0 <= i < |clients| ==> clients[i] == c
    ensures Paced(Start(Pow2(l), NO_ID), Pow2(l), RxStream(clients, AllCalls(clients), bodies), ts)
    ensures var e := Play(Start(Pow2(l), NO_ID), Pow2(l), ts); Accepted(e) < |e.written| && !Sees(e)
  {
    hide RxStream, Start, Play, Paced, Pow2, CallsBefore;
    var depth, counts := Pow2(l), AllCalls(clients);
    Pow2Large(l);
    CallsOfOne(clients, depth, c);
    CallsOfOne(clients, 0, c);
    assert clients[depth] == clients[depth - depth] && counts[depth] == depth && counts[0] == 0;
    assert !IdsChange(clients, counts, depth);
    RxFreshExactly(clients, counts, bodies, depth);
    ts := Unseen(depth, NO_ID, RxStream(clients, counts, bodies));
  }

  /** A transmission queue of any depth: what is sent arrives once and in order. */
  lemma TxDelivers(bodies: seq<seq<byte>>, depth: nat, ts: seq<Step>)
    requires 0 < depth && Paced(Start(depth, 0), depth, TxStream(bodies, depth), ts)
    ensures Arrives(depth, 0, TxStream(bodies, depth), ts) && SeesAll(depth, 0, ts)
  {
    TxIsFresh(bodies, depth);
    StreamArrives(depth, 0, TxStream(bodies, depth), ts);
  }
}
