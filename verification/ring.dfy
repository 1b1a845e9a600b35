/** A ring of slots between a writer and a polling reader that share no head or tail: a packet is new
    when its tag differs from the tag last seen in its slot. */
module Ring {
  import opened Common
  import Division

  datatype Packet = Packet(tag: nat, body: seq<byte>)

  datatype Slot = Slot(valid: bool, packet: Packet)

  /** The slots, the tag last seen in each, the reader's place, the slot it is copying from, and all
      packets written and delivered so far. */
  datatype State = State(mem: seq<Slot>, seen: seq<nat>, tail: nat, copying: Option<nat>,
                         written: seq<Packet>, delivered: seq<Packet>)

  /** What the reader has seen at the place of packet `n` before it. */
  function Before(written: seq<Packet>, depth: nat, init: nat, n: nat): nat
    requires n < depth + |written|
  {
    if n < depth then init else written[n - depth].tag
  }

  /** Each packet's tag differs from that of the packet before it in the same slot. */
  ghost predicate Fresh(written: seq<Packet>, depth: nat, init: nat) {
    forall n :: 0 <= n < |written| ==> written[n].tag != Before(written, depth, init, n)
  }

  datatype Step = Write(packet: Packet) | Poll | Copy

  function Accepted(s: State): nat {
    |s.delivered| + if s.copying.Some? then 1 else 0
  }

  /** The reader's test: the packet at its place is valid, and its tag has changed. */
  predicate Sees(s: State)
    requires s.tail < |s.mem| == |s.seen|
  {
    s.mem[s.tail].valid && s.mem[s.tail].packet.tag != s.seen[s.tail]
  }

  /** A writer never laps the reader, and keeps to a fresh tag. */
  predicate Enabled(s: State, depth: nat, init: nat, t: Step) {
    match t
    case Write(p) => 0 < depth && |s.written| < |s.delivered| + depth &&
      p.tag != Before(s.written, depth, init, |s.written|)
    case Poll => s.copying.None?
    case Copy => s.copying.Some?
  }

  ghost predicate Shaped(s: State, depth: nat) {
    0 < depth == |s.mem| == |s.seen| && s.tail < depth && (s.copying.Some? ==> s.copying.value < depth)
  }

  function Next(s: State, depth: nat, t: Step): (r: State)
    requires Shaped(s, depth)
    ensures Shaped(r, depth)
  {
    match t
    case Write(p) => s.(mem := s.mem[|s.written| % depth := Slot(true, p)], written := s.written + [p])
    case Poll =>
      if Sees(s) then
        s.(seen := s.seen[s.tail := s.mem[s.tail].packet.tag],
           tail := if s.tail + 1 == depth then 0 else s.tail + 1,
           copying := Some(s.tail))
      else s
    case Copy =>
      if s.copying.Some? then s.(delivered := s.delivered + [s.mem[s.copying.value].packet], copying := None) else s
  }

  /** The slots hold the last packets written, and are empty before that. */
  ghost predicate MemOk(mem: seq<Slot>, written: seq<Packet>, depth: nat) {
    && 0 < depth == |mem|
    && (forall n :: 0 <= n < |written| && |written| - depth <= n ==> mem[n % depth] == Slot(true, written[n]))
    && (forall n :: |written| <= n < depth ==> !mem[n].valid)
  }

  /** The tags seen are those of the last packets accepted. */
  ghost predicate SeenOk(seen: seq<nat>, accepted: nat, written: seq<Packet>, depth: nat, init: nat) {
    && 0 < depth == |seen| && accepted <= |written|
    && (forall n :: 0 <= n < accepted && accepted - depth <= n ==> seen[n % depth] == written[n].tag)
    && (forall n :: accepted <= n < depth ==> seen[n] == init)
  }

  ghost predicate Inv(s: State, depth: nat, init: nat) {
    && MemOk(s.mem, s.written, depth)
    && SeenOk(s.seen, Accepted(s), s.written, depth, init)
    && Fresh(s.written, depth, init)
    && s.tail == Accepted(s) % depth
    && s.delivered == s.written[..|s.delivered|]
    && |s.written| <= |s.delivered| + depth
    && (s.copying.Some? ==> s.copying.value == |s.delivered| % depth)
  }

  lemma WriteMem(mem: seq<Slot>, written: seq<Packet>, depth: nat, p: Packet)
    requires MemOk(mem, written, depth)
    ensures MemOk(mem[|written| % depth := Slot(true, p)], written + [p], depth)
  {
    var w := |written|;
    var mem1, written1 := mem[w % depth := Slot(true, p)], written + [p];
    forall n | 0 <= n <= w && w + 1 - depth <= n ensures mem1[n % depth] == Slot(true, written1[n]) {
      if n < w {
        Division.ModsDiffer(n, w, depth);
      }
    }
    forall n | w < n < depth ensures !mem1[n].valid {
      Division.SmallMod(w, depth);
    }
  }

  /** The reader accepts exactly when there is a packet it has not accepted yet. */
  lemma SeesExactlyNew(s: State, depth: nat, init: nat)
    requires Inv(s, depth, init)
    ensures s.tail < depth == |s.mem| == |s.seen|
    ensures Sees(s) <==> Accepted(s) < |s.written|
    ensures Sees(s) ==> s.mem[s.tail].packet == s.written[Accepted(s)]
  {
    var r := Accepted(s);
    if r < depth {
      Division.SmallMod(r, depth);
    } else {
      Division.ModAdd(r - depth, depth);
    }
    if r < |s.written| {
      assert s.mem[r % depth] == Slot(true, s.written[r]);
      assert s.written[r].tag != Before(s.written, depth, init, r);
      assert r >= depth ==> s.seen[(r - depth) % depth] == s.written[r - depth].tag;
    } else {
      assert r >= depth ==> s.mem[(r - depth) % depth] == Slot(true, s.written[r - depth]);
      assert r >= depth ==> s.seen[(r - depth) % depth] == s.written[r - depth].tag;
    }
  }

  lemma SeenNext(seen: seq<nat>, r: nat, written: seq<Packet>, depth: nat, init: nat)
    requires SeenOk(seen, r, written, depth, init) && r < |written|
    ensures SeenOk(seen[r % depth := written[r].tag], r + 1, written, depth, init)
  {
    var seen1 := seen[r % depth := written[r].tag];
    forall n | 0 <= n <= r && r + 1 - depth <= n ensures seen1[n % depth] == written[n].tag {
      if n < r {
        Division.ModsDiffer(n, r, depth);
      }
    }
    if r < depth {
      Division.SmallMod(r, depth);
    }
  }

  lemma WriteKeeps(s: State, depth: nat, init: nat, p: Packet)
    requires Inv(s, depth, init) && Enabled(s, depth, init, Write(p))
    ensures Inv(Next(s, depth, Write(p)), depth, init)
  {
    hide MemOk, SeenOk, Fresh, Before;
    SeenBound(s.seen, Accepted(s), s.written, depth, init);
    WriteMem(s.mem, s.written, depth, p);
    SeenMore(s.seen, Accepted(s), s.written, depth, init, p);
    FreshMore(s.written, depth, init, p);
    assert (s.written + [p])[..|s.delivered|] == s.written[..|s.delivered|];
  }

  lemma PollKeeps(s: State, depth: nat, init: nat)
    requires Inv(s, depth, init) && s.copying.None?
    ensures Inv(Next(s, depth, Poll), depth, init)
  {
    hide MemOk, SeenOk, Fresh, Before;
    SeesExactlyNew(s, depth, init);
    if Sees(s) {
      SeenNext(s.seen, Accepted(s), s.written, depth, init);
      Division.ModNext(Accepted(s), depth);
    }
  }

  lemma CopyKeeps(s: State, depth: nat, init: nat)
    requires Inv(s, depth, init) && s.copying.Some?
    ensures Inv(Next(s, depth, Copy), depth, init)
  {
    hide MemOk, SeenOk, Fresh, Before;
    SeenBound(s.seen, Accepted(s), s.written, depth, init);
    CopyGets(s.mem, s.written, depth, |s.delivered|);
    var n := |s.delivered|;
    assert s.written[..n] + [s.written[n]] == s.written[..n + 1];
    assert Accepted(Next(s, depth, Copy)) == Accepted(s);
  }

  lemma StepKeeps(s: State, depth: nat, init: nat, t: Step)
    requires Inv(s, depth, init) && Enabled(s, depth, init, t)
    ensures s.tail < depth == |s.mem| == |s.seen| && (s.copying.Some? ==> s.copying.value < depth)
    ensures Inv(Next(s, depth, t), depth, init)
  {
    match t
    case Write(p) => WriteKeeps(s, depth, init, p);
    case Poll => PollKeeps(s, depth, init);
    case Copy => CopyKeeps(s, depth, init);
  }

  lemma SeenMore(seen: seq<nat>, r: nat, written: seq<Packet>, depth: nat, init: nat, p: Packet)
    requires SeenOk(seen, r, written, depth, init)
    ensures SeenOk(seen, r, written + [p], depth, init)
  {
  }

  lemma SeenBound(seen: seq<nat>, r: nat, written: seq<Packet>, depth: nat, init: nat)
    requires SeenOk(seen, r, written, depth, init)
    ensures 0 < depth == |seen| && r <= |written|
  {
  }

  lemma FreshMore(written: seq<Packet>, depth: nat, init: nat, p: Packet)
    requires 0 < depth && Fresh(written, depth, init) && p.tag != Before(written, depth, init, |written|)
    ensures Fresh(written + [p], depth, init)
  {
    var more := written + [p];
    forall n | 0 <= n < |more| ensures more[n].tag != Before(more, depth, init, n) {
      assert Before(more, depth, init, n) == Before(written, depth, init, n);
      assert n < |written| ==> written[n].tag != Before(written, depth, init, n);
    }
  }

  /** A packet not lapped is still in its slot. */
  lemma CopyGets(mem: seq<Slot>, written: seq<Packet>, depth: nat, n: nat)
    requires MemOk(mem, written, depth) && n < |written| <= n + depth
    ensures 0 < depth == |mem| && mem[n % depth].packet == written[n]
  {
    assert mem[n % depth] == Slot(true, written[n]);
  }

  ghost predicate IsRun(s: State, depth: nat, init: nat, ts: seq<Step>)
    requires Inv(s, depth, init)
    decreases |ts|
  {
    ts == [] ||
    (Enabled(s, depth, init, ts[0]) &&
     (StepKeeps(s, depth, init, ts[0]); IsRun(Next(s, depth, ts[0]), depth, init, ts[1..])))
  }

  ghost function Run(s: State, depth: nat, init: nat, ts: seq<Step>): State
    requires Inv(s, depth, init) && IsRun(s, depth, init, ts)
    decreases |ts|
  {
    if ts == [] then s
    else StepKeeps(s, depth, init, ts[0]); Run(Next(s, depth, ts[0]), depth, init, ts[1..])
  }

  function Start(depth: nat, init: nat): State {
    State(seq(depth, i => Slot(false, Packet(0, []))), seq(depth, i => init), 0, None, [], [])
  }

  lemma StartOk(depth: nat, init: nat)
    requires 0 < depth
    ensures Inv(Start(depth, init), depth, init)
  {
    Division.SmallMod(0, depth);
  }

  lemma {:induction false} RunKeeps(s: State, depth: nat, init: nat, ts: seq<Step>)
    requires Inv(s, depth, init) && IsRun(s, depth, init, ts)
    ensures Inv(Run(s, depth, init, ts), depth, init)
    decreases |ts|
  {
    hide Inv;
    if ts != [] {
      StepKeeps(s, depth, init, ts[0]);
      RunKeeps(Next(s, depth, ts[0]), depth, init, ts[1..]);
    }
  }

  /** In every run in which the writer does not lap the reader, packets are delivered exactly once and
      in the order they were written; and a poll accepts exactly when one is waiting. */
  lemma DeliversInOrder(s: State, depth: nat, init: nat, ts: seq<Step>)
    requires Inv(s, depth, init) && IsRun(s, depth, init, ts)
    ensures var e := Run(s, depth, init, ts);
            && e.delivered <= e.written
            && e.tail < |e.mem| == |e.seen|
            && (Sees(e) <==> Accepted(e) < |e.written|)
            && (e.copying.None? && !Sees(e) ==> e.delivered == e.written)
  {
    hide Run, IsRun, MemOk, SeenOk;
    RunKeeps(s, depth, init, ts);
    var e := Run(s, depth, init, ts);
    SeesExactlyNew(e, depth, init);
    SeenBound(e.seen, Accepted(e), e.written, depth, init);
    assert e.written[..|e.written|] == e.written;
  }

  /** A run in which the packets of `ps` are written in turn, each only when its slot has been copied
      from. */
  ghost predicate Paced(s: State, depth: nat, ps: seq<Packet>, ts: seq<Step>)
    requires Shaped(s, depth)
    decreases |ts|
  {
    ts == [] ||
    (match ts[0] {
       case Write(p) => |s.written| < |s.delivered| + depth && |s.written| < |ps| && p == ps[|s.written|]
       case Poll => s.copying.None?
       case Copy => s.copying.Some?
     } && Paced(Next(s, depth, ts[0]), depth, ps, ts[1..]))
  }

  lemma {:induction false} PacedIsRun(s: State, depth: nat, init: nat, ps: seq<Packet>, ts: seq<Step>)
    requires Inv(s, depth, init) && Shaped(s, depth) && s.written <= ps && Fresh(ps, depth, init) &&
      Paced(s, depth, ps, ts)
    ensures IsRun(s, depth, init, ts)
    ensures Run(s, depth, init, ts).written <= ps
    decreases |ts|
  {
    hide Inv;
    if ts != [] {
      var n := |s.written|;
      if ts[0].Write? {
        assert ps[n].tag != Before(ps, depth, init, n);
        assert Before(ps, depth, init, n) == Before(s.written, depth, init, n);
      }
      StepKeeps(s, depth, init, ts[0]);
      PacedIsRun(Next(s, depth, ts[0]), depth, init, ps, ts[1..]);
    }
  }

  /** Where a sequence of steps leads. */
  function Play(s: State, depth: nat, ts: seq<Step>): (r: State)
    requires Shaped(s, depth)
    ensures Shaped(r, depth)
    decreases |ts|
  {
    if ts == [] then s else Play(Next(s, depth, ts[0]), depth, ts[1..])
  }

  lemma {:induction false} RunIsPlay(s: State, depth: nat, init: nat, ts: seq<Step>)
    requires Inv(s, depth, init) && Shaped(s, depth) && IsRun(s, depth, init, ts)
    ensures Run(s, depth, init, ts) == Play(s, depth, ts)
    decreases |ts|
  {
    hide Inv;
    if ts != [] {
      StepKeeps(s, depth, init, ts[0]);
      RunIsPlay(Next(s, depth, ts[0]), depth, init, ts[1..]);
    }
  }

  lemma {:induction false} PlayMore(s: State, depth: nat, ps: seq<Packet>, ts: seq<Step>, us: seq<Step>)
    requires Shaped(s, depth) && Paced(s, depth, ps, ts) && Paced(Play(s, depth, ts), depth, ps, us)
    ensures Paced(s, depth, ps, ts + us) && Play(s, depth, ts + us) == Play(Play(s, depth, ts), depth, us)
    decreases |ts|
  {
    hide Next;
    if ts == [] {
      assert ts + us == us;
    } else {
      assert (ts + us)[1..] == ts[1..] + us;
      PlayMore(Next(s, depth, ts[0]), depth, ps, ts[1..], us);
    }
  }

  /** A fresh stream sent through an empty ring arrives exactly once and in order. */
  lemma StreamArrives(depth: nat, init: nat, ps: seq<Packet>, ts: seq<Step>)
    requires 0 < depth && Fresh(ps, depth, init) && Paced(Start(depth, init), depth, ps, ts)
    ensures var e := Play(Start(depth, init), depth, ts);
            && e.delivered <= e.written <= ps
            && (Sees(e) <==> Accepted(e) < |e.written|)
            && (e.copying.None? && !Sees(e) ==> e.delivered == e.written)
  {
    StartOk(depth, init);
    PacedIsRun(Start(depth, init), depth, init, ps, ts);
    DeliversInOrder(Start(depth, init), depth, init, ts);
    RunIsPlay(Start(depth, init), depth, init, ts);
  }

  /** All of `ps[..n]` written, polled and copied one after the other. */
  function OneByOne(ps: seq<Packet>, n: nat): seq<Step>
    requires n <= |ps|
  {
    if n == 0 then [] else OneByOne(ps, n - 1) + [Write(ps[n - 1]), Poll, Copy]
  }

  ghost predicate AllDelivered(s: State, ps: seq<Packet>) {
    s.copying.None? && s.delivered == s.written == ps
  }

  lemma SendOne(s: State, depth: nat, init: nat, ps: seq<Packet>)
    requires Inv(s, depth, init) && Shaped(s, depth) && |s.written| < |ps| && AllDelivered(s, ps[..|s.written|])
    requires ps[|s.written|].tag != Before(s.written, depth, init, |s.written|)
    ensures var us := [Write(ps[|s.written|]), Poll, Copy];
            && Paced(s, depth, ps, us) && Inv(Play(s, depth, us), depth, init)
            && AllDelivered(Play(s, depth, us), ps[..|s.written| + 1])
  {
    hide Inv, Before, Next, Sees;
    var n := |s.written|;
    var a, b, c := Sending(s, depth, init, ps[n]);
    var us := [Write(ps[n]), Poll, Copy];
    assert us[1..] == [Poll, Copy] && us[1..][1..] == [Copy] && [Copy][1..] == [];
    assert Paced(c, depth, ps, []) && Play(c, depth, []) == c;
    assert Paced(b, depth, ps, [Copy]) && Play(b, depth, [Copy]) == c;
    assert Paced(a, depth, ps, [Poll, Copy]) && Play(a, depth, [Poll, Copy]) == c;
    assert ps[..n] + [ps[n]] == ps[..n + 1];
  }

  lemma Sending(s: State, depth: nat, init: nat, p: Packet) returns (a: State, b: State, c: State)
    requires Inv(s, depth, init) && Shaped(s, depth) && AllDelivered(s, s.written)
    requires p.tag != Before(s.written, depth, init, |s.written|)
    ensures a == Next(s, depth, Write(p)) && b == Next(a, depth, Poll) && c == Next(b, depth, Copy)
    ensures a.copying.None? && b.copying.Some? && Inv(c, depth, init) && AllDelivered(c, s.written + [p])
  {
    a := Next(s, depth, Write(p));
    StepKeeps(s, depth, init, Write(p));
    SeesExactlyNew(a, depth, init);
    b := Next(a, depth, Poll);
    StepKeeps(a, depth, init, Poll);
    c := Next(b, depth, Copy);
    StepKeeps(b, depth, init, Copy);
    hide MemOk, SeenOk, Fresh;
    assert c.written == s.written + [p] && |c.delivered| == |c.written|;
    assert c.written[..|c.written|] == c.written;
  }

  lemma {:induction false} SendAll(depth: nat, init: nat, ps: seq<Packet>, n: nat)
    requires 0 < depth && n <= |ps| && Fresh(ps[..n], depth, init)
    ensures var ts := OneByOne(ps, n);
            && Paced(Start(depth, init), depth, ps, ts)
            && Inv(Play(Start(depth, init), depth, ts), depth, init)
            && AllDelivered(Play(Start(depth, init), depth, ts), ps[..n])
  {
    hide Inv, Next, Start;
    StartOk(depth, init);
    StartEmpty(depth, init);
    if n > 0 {
      var was, ts := ps[..n - 1], OneByOne(ps, n - 1);
      FreshLess(ps, depth, init, n);
      SendAll(depth, init, ps, n - 1);
      var s := Play(Start(depth, init), depth, ts);
      SendOne(s, depth, init, ps);
      PlayMore(Start(depth, init), depth, ps, ts, [Write(ps[n - 1]), Poll, Copy]);
    }
  }

  lemma StartEmpty(depth: nat, init: nat)
    requires 0 < depth
    ensures Shaped(Start(depth, init), depth) && AllDelivered(Start(depth, init), [])
  {
  }

  lemma FreshLess(ps: seq<Packet>, depth: nat, init: nat, n: nat)
    requires 0 < n <= |ps| && 0 < depth && Fresh(ps[..n], depth, init)
    ensures Fresh(ps[..n - 1], depth, init)
    ensures ps[n - 1].tag != Before(ps[..n - 1], depth, init, n - 1)
  {
    var was, less := ps[..n], ps[..n - 1];
    forall k | 0 <= k < n ensures ps[k].tag != Before(was, depth, init, k) {
      assert was[k].tag != Before(was, depth, init, k);
    }
    assert forall k :: 0 <= k < n ==> Before(was, depth, init, k) == Before(less, depth, init, k);
  }

  lemma {:induction false} FirstStale(ps: seq<Packet>, depth: nat, init: nat, m: nat) returns (n: nat)
    requires 0 < depth && m <= |ps| && !Fresh(ps[..m], depth, init)
    ensures n < m && Fresh(ps[..n], depth, init) && ps[n].tag == Before(ps[..n], depth, init, n)
  {
    if m == 0 {
      assert false;
    } else if Fresh(ps[..m - 1], depth, init) {
      n := m - 1;
      assert ps[..n] + [ps[n]] == ps[..m];
      if ps[n].tag != Before(ps[..n], depth, init, n) {
        FreshMore(ps[..n], depth, init, ps[n]);
      }
    } else {
      n := FirstStale(ps, depth, init, m - 1);
    }
  }

  /** A packet whose tag was the last one seen in its slot is not seen, although it waits. */
  lemma StaleIsUnseen(s: State, depth: nat, init: nat, p: Packet)
    requires Inv(s, depth, init) && Shaped(s, depth) && AllDelivered(s, s.written)
    requires p.tag == Before(s.written, depth, init, |s.written|)
    ensures var e := Next(s, depth, Write(p)); Accepted(e) < |e.written| && !Sees(e)
  {
    var r := |s.written|;
    if r < depth {
      Division.SmallMod(r, depth);
    } else {
      Division.ModAdd(r - depth, depth);
      assert s.seen[(r - depth) % depth] == s.written[r - depth].tag;
    }
  }

  ghost predicate SeesAll(depth: nat, init: nat, ts: seq<Step>)
    requires 0 < depth
  {
    var e := Play(Start(depth, init), depth, ts); Sees(e) <==> Accepted(e) < |e.written|
  }

  /** The reader sees every waiting packet in all runs exactly when the stream is fresh. */
  lemma SeenExactlyWhenFresh(depth: nat, init: nat, ps: seq<Packet>)
    requires 0 < depth
    ensures Fresh(ps, depth, init) <==>
            forall ts :: Paced(Start(depth, init), depth, ps, ts) ==> SeesAll(depth, init, ts)
  {
    if Fresh(ps, depth, init) {
      forall ts | Paced(Start(depth, init), depth, ps, ts) ensures SeesAll(depth, init, ts) {
        StreamArrives(depth, init, ps, ts);
      }
    } else {
      var ts := Unseen(depth, init, ps);
    }
  }

  /** A run that ends with a waiting packet the reader does not see. */
  lemma Unseen(depth: nat, init: nat, ps: seq<Packet>) returns (ts: seq<Step>)
    requires 0 < depth && !Fresh(ps, depth, init)
    ensures Paced(Start(depth, init), depth, ps, ts) && !SeesAll(depth, init, ts)
    ensures var e := Play(Start(depth, init), depth, ts); Accepted(e) < |e.written| && !Sees(e)
  {
    hide Inv, Next, Start;
    StartEmpty(depth, init);
    assert ps[..|ps|] == ps;
    var n := FirstStale(ps, depth, init, |ps|);
    SendAll(depth, init, ps, n);
    var us := OneByOne(ps, n);
    var s := Play(Start(depth, init), depth, us);
    StaleIsUnseen(s, depth, init, ps[n]);
    ts := us + [Write(ps[n])];
    assert [Write(ps[n])][1..] == [];
    assert Play(Next(s, depth, Write(ps[n])), depth, []) == Next(s, depth, Write(ps[n]));
    PlayMore(Start(depth, init), depth, ps, us, [Write(ps[n])]);
  }
}
