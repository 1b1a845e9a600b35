/** Bumps in every interleaving: workers that queue items, the maintainer that goes through the buffer
    with its lock dropped, and whatever else is done to items meanwhile. */
module BumpRuns {
  import opened Common
  import opened Items
  import opened Bip
  import opened BumpItems
  import B = Bumps
  import R = ItemRuns

  /** The items and the references held to them, those of the entries included, and the buffer. */
  datatype Joint = Joint(w: R.World, b: B.State)

  /** The entries whose references have not been given up. */
  ghost function Pending(b: B.State): seq<B.Entry> {
    if |b.freed| <= |b.taken| then b.taken[|b.freed|..] else []
  }

  /** The references to `x` that are not an entry's. */
  ghost function Own(j: Joint, x: nat): int {
    R.Held(j.w, x) - Queued(Pending(j.b), x)
  }

  ghost predicate Inv(j: Joint) {
    R.Good(j.w) && B.Inv(j.b) && forall x :: Own(j, x) >= 0
  }

  /** Anything a client does, an item queued by a worker, and the maintainer's four sections. */
  datatype Event = Client(e: R.Event) | Bump(entry: B.Entry, pad: seq<byte>) | Peek | Free | Poll

  /** A client gives up only references of its own, and a worker queues only what it holds. */
  ghost predicate Enabled(j: Joint, e: Event) {
    match e
    case Client(c) => R.Enabled(j.w, c) && (c.Release? ==> Own(j, c.item) > 0)
    case Bump(entry, pad) => B.Enabled(j.b, B.Take(entry, pad)) && Own(j, entry.item) > 0
    case Peek => B.Enabled(j.b, B.Peek)
    case Free => B.Enabled(j.b, B.Free)
    case Poll => B.Enabled(j.b, B.Poll)
  }

  /** What is pending is what the maintainer has yet to go through in the buffer. */
  lemma PendingIsQueued(b: B.State)
    requires B.Inv(b)
    ensures b.freed <= b.taken && b.taken == b.freed + Pending(b)
    ensures B.Done(b.work) <= |Contents(b.buf)| && |Contents(b.buf)[B.Done(b.work)..]| % B.ENTRY == 0
    ensures Pending(b) == B.Parse(Contents(b.buf)[B.Done(b.work)..])
  {
    hide B.Parse;
    var c := Contents(b.buf);
    B.ProgressPoll(c, B.Done(b.work), b.taken, b.freed);
    B.ProgressStart(c[B.Done(b.work)..], b.taken, b.freed);
  }

  lemma TakePending(b: B.State, e: B.Entry, pad: seq<byte>)
    requires B.Inv(b) && B.Enabled(b, B.Take(e, pad))
    ensures Pending(B.Next(b, B.Take(e, pad))) == if B.ENTRY <= Unused(b.buf) then Pending(b) + [e] else Pending(b)
  {
    PendingIsQueued(b);
    hide B.Inv, Contents, B.Encode, Pushed, Written;
  }

  /** The maintainer frees the entry that has been pending for longest. */
  lemma FreePending(b: B.State)
    requires B.Inv(b) && B.Enabled(b, B.Free)
    ensures Pending(b) != [] && Pending(B.Next(b, B.Free)) == Pending(b)[1..]
    ensures var n := B.Next(b, B.Free); n.freed == b.freed + [Pending(b)[0]] && n.taken == b.taken
  {
    B.StepKeeps(b, B.Free);
    PendingIsQueued(b);
    PendingIsQueued(B.Next(b, B.Free));
    hide B.Inv, Contents, B.Decode, B.Parse;
    var n := B.Next(b, B.Free);
    assert n.freed <= b.taken && |n.freed| == |b.freed| + 1;
    assert n.freed[|b.freed|] == b.taken[|b.freed|];
  }

  lemma QuietPending(b: B.State, t: B.Step)
    requires B.Inv(b) && B.Enabled(b, t) && (t.Peek? || t.Poll?)
    ensures Pending(B.Next(b, t)) == Pending(b)
  {
    hide B.Inv, Contents, Polled;
  }

  lemma Backs(j: Joint)
    requires Inv(j)
    ensures Backed(j.w.s, Pending(j.b))
  {
    hide B.Inv, Items.Inv, Pending, Queued, Extra;
    forall x
      ensures Queued(Pending(j.b), x) <= Extra(j.w.s.refs, j.w.s.linked, x)
    {
      assert Own(j, x) >= 0;
    }
  }

  ghost function Next(j: Joint, e: Event): Joint
    requires Inv(j) && Enabled(j, e)
  {
    hide B.Inv, Items.Inv, Own, Pending, Extra;
    match e
    case Client(c) => Joint(R.Next(j.w, c), j.b)
    case Bump(entry, pad) =>
      var x := entry.item;
      OwnLives(j, x);
      Joint(if B.ENTRY <= Room(j.b) then R.World(Incr(j.w.s, x), j.w.held[x := R.Held(j.w, x) + 1]) else j.w,
            B.Next(j.b, B.Take(entry, pad)))
    case Peek => Joint(j.w, B.Next(j.b, B.Peek))
    case Free =>
      FreePending(j.b);
      Backs(j);
      HeadIsBacked(j.w.s, Pending(j.b));
      PendingIsHeld(j);
      var x := Pending(j.b)[0].item;
      Joint(R.World(BumpOne(j.w.s, x), j.w.held[x := R.Held(j.w, x) - 1]), B.Next(j.b, B.Free))
    case Poll => Joint(j.w, B.Next(j.b, B.Poll))
  }

  ghost function Room(b: B.State): nat
    requires B.Inv(b)
  {
    Unused(b.buf)
  }

  lemma OwnLives(j: Joint, x: nat)
    requires Inv(j) && Own(j, x) > 0
    ensures x in j.w.s.refs
  {
    hide B.Inv, Items.Inv, Pending;
    R.HeldLives(j.w, x);
  }

  lemma PendingIsHeld(j: Joint)
    requires Inv(j) && Pending(j.b) != []
    ensures R.Held(j.w, Pending(j.b)[0].item) > 0
  {
    hide R.Good, B.Inv, Pending;
    assert Own(j, Pending(j.b)[0].item) >= 0;
  }

  /** Of a client's events only a release takes a reference away. */
  lemma HeldStays(w: R.World, e: R.Event, x: nat)
    requires R.Good(w) && R.Enabled(w, e)
    ensures R.Held(R.Next(w, e), x) >= R.Held(w, x) - if e == R.Release(x) then 1 else 0
  {
    hide R.Good, Items.Inv;
  }

  lemma ClientKeeps(j: Joint, c: R.Event)
    requires Inv(j) && Enabled(j, Client(c))
    ensures Inv(Next(j, Client(c)))
  {
    hide R.Good, B.Inv, Pending, Queued, R.Next;
    R.StepKeeps(j.w, c);
    var n := Next(j, Client(c));
    forall x
      ensures Own(n, x) >= 0
    {
      HeldStays(j.w, c, x);
      assert Own(j, x) >= 0;
    }
  }

  lemma BumpKeeps(j: Joint, entry: B.Entry, pad: seq<byte>)
    requires Inv(j) && Enabled(j, Bump(entry, pad))
    ensures Inv(Next(j, Bump(entry, pad))) && SameOwn(j, Next(j, Bump(entry, pad)))
  {
    hide Items.Inv, B.Inv, Pending, Queued, B.Next, Incr, Extra;
    OwnLives(j, entry.item);
    B.StepKeeps(j.b, B.Take(entry, pad));
    TakePending(j.b, entry, pad);
    IncrKeeps(j.w.s, entry.item);
    IncrShape(j.w.s, entry.item);
    var n := Next(j, Bump(entry, pad));
    forall x
      ensures Own(n, x) == Own(j, x) >= 0
    {
      QueuedConcat(Pending(j.b), [entry], x);
      QueuedOne(entry, x);
    }
  }

  lemma QueuedOne(e: B.Entry, x: nat)
    ensures Queued([e], x) == if e.item == x then 1 else 0
  {
    assert [e][1..] == [];
  }

  lemma IncrShape(s: Cache, x: nat)
    requires x in s.refs
    ensures Incr(s, x).linked == s.linked
  {}

  lemma FreeKeeps(j: Joint)
    requires Inv(j) && Enabled(j, Free)
    ensures Inv(Next(j, Free)) && SameOwn(j, Next(j, Free))
    ensures Pending(j.b) != [] && Bumped(Next(j, Free).w.s, Pending(j.b)[0].item)
  {
    hide Items.Inv, B.Inv, Pending, B.Next, BumpOne, Extra, Bumped;
    B.StepKeeps(j.b, B.Free);
    FreePending(j.b);
    Backs(j);
    HeadIsBacked(j.w.s, Pending(j.b));
    PendingIsHeld(j);
    var x := Pending(j.b)[0].item;
    BumpOneKeeps(j.w.s, x);
    BumpOneBumps(j.w.s, x);
    var n := Next(j, Free);
    forall y
      ensures Own(n, y) == Own(j, y) >= 0
    {
      assert Queued(Pending(j.b), y) == (if x == y then 1 else 0) + Queued(Pending(j.b)[1..], y);
    }
  }

  lemma QuietKeeps(j: Joint, e: Event)
    requires Inv(j) && Enabled(j, e) && (e.Peek? || e.Poll?)
    ensures Inv(Next(j, e)) && SameOwn(j, Next(j, e))
  {
    hide R.Good, B.Inv, Pending, Queued, B.Next;
    var t := if e.Peek? then B.Peek else B.Poll;
    B.StepKeeps(j.b, t);
    QuietPending(j.b, t);
    forall x
      ensures Own(Next(j, e), x) == Own(j, x)
    {}
  }

  ghost predicate SameOwn(j: Joint, n: Joint) {
    forall x :: Own(n, x) == Own(j, x)
  }

  /** Every event keeps an entry's reference for each entry; and queueing an item, and all the maintainer
      does, leaves everyone else's references as they were. */
  lemma StepKeeps(j: Joint, e: Event)
    requires Inv(j) && Enabled(j, e)
    ensures Inv(Next(j, e)) && (!e.Client? ==> SameOwn(j, Next(j, e)))
  {
    hide Inv, Enabled, Next, SameOwn;
    match e
    case Client(c) => ClientKeeps(j, c);
    case Bump(entry, pad) => BumpKeeps(j, entry, pad);
    case Peek => QuietKeeps(j, e);
    case Free => FreeKeeps(j);
    case Poll => QuietKeeps(j, e);
  }

  // ----- Runs

  ghost predicate IsRun(j: Joint, es: seq<Event>)
    requires Inv(j)
    decreases |es|
  {
    hide Inv, Enabled, Next, SameOwn;
    es == [] || (Enabled(j, es[0]) && (StepKeeps(j, es[0]); IsRun(Next(j, es[0]), es[1..])))
  }

  ghost function Run(j: Joint, es: seq<Event>): Joint
    requires Inv(j) && IsRun(j, es)
    decreases |es|
  {
    hide Inv, Enabled, Next, SameOwn;
    if es == [] then j else StepKeeps(j, es[0]); Run(Next(j, es[0]), es[1..])
  }

  /** An empty cache and an empty buffer. */
  lemma StartIsGood(entries: nat)
    ensures Inv(Joint(R.Empty(), B.Start(entries)))
  {
    hide R.Good, B.Inv, R.Empty;
    R.EmptyIsGood();
    B.StartOk(entries);
  }

  /** By how much clients' own events change the number of references to `x` over a run. */
  ghost function Net(j: Joint, es: seq<Event>, x: nat): int
    requires Inv(j) && IsRun(j, es)
    decreases |es|
  {
    hide Inv, Enabled, Next, SameOwn;
    if es == [] then 0 else
      StepKeeps(j, es[0]);
      (if es[0].Client? then R.Held(Next(j, es[0]).w, x) - R.Held(j.w, x) else 0) + Net(Next(j, es[0]), es[1..], x)
  }

  lemma ClientPending(j: Joint, c: R.Event)
    requires Inv(j) && Enabled(j, Client(c))
    ensures Next(j, Client(c)).b == j.b
  {
    hide Inv, R.Next;
  }

  lemma {:induction false} RunKeeps(j: Joint, es: seq<Event>, x: nat)
    requires Inv(j) && IsRun(j, es)
    ensures Inv(Run(j, es)) && Own(Run(j, es), x) == Own(j, x) + Net(j, es, x)
    decreases |es|
  {
    hide Inv, Enabled, Next, Pending, Queued, R.Held;
    if es != [] {
      StepKeeps(j, es[0]);
      if es[0].Client? {
        ClientPending(j, es[0].e);
      }
      RunKeeps(Next(j, es[0]), es[1..], x);
    }
  }

  /** In every run, however pushes, releases, unlinks and pulls fall between two entries the maintainer
      frees: each entry it has yet to go through has its own reference, so its item lives; the other
      references to an item are what clients made of them; and once the maintainer is idle and the
      buffer empty there are no others. */
  lemma AlwaysBacked(j: Joint, es: seq<Event>, x: nat)
    requires Inv(j) && IsRun(j, es)
    ensures B.Inv(Run(j, es).b)
    ensures var n := Run(j, es); var c := Contents(n.b.buf);
      && B.Done(n.b.work) <= |c| && |c[B.Done(n.b.work)..]| % B.ENTRY == 0
      && var left := B.Parse(c[B.Done(n.b.work)..]);
      && Backed(n.w.s, left) && (forall e :: e in left ==> e.item in n.w.s.refs)
      && Extra(n.w.s.refs, n.w.s.linked, x) == Own(j, x) + Net(j, es, x) + Queued(left, x)
      && (n.b.work.Idle? && n.b.buf.aStart == n.b.buf.aEnd ==> left == [])
  {
    hide Run, IsRun, Net, B.Parse, Items.Inv;
    RunKeeps(j, es, x);
    var n := Run(j, es);
    PendingIsQueued(n.b);
    Backs(n);
    hide B.Inv;
    forall e | e in Pending(n.b)
      ensures e.item in n.w.s.refs
    {
      QueuedMember(Pending(n.b), e);
      assert Queued(Pending(n.b), e.item) <= Extra(n.w.s.refs, n.w.s.linked, e.item);
    }
    EmptyIsDone(n.b);
  }

  lemma EmptyIsDone(b: B.State)
    requires B.Inv(b) && B.Done(b.work) <= |Contents(b.buf)| && |Contents(b.buf)[B.Done(b.work)..]| % B.ENTRY == 0
    ensures b.work.Idle? && b.buf.aStart == b.buf.aEnd ==> B.Parse(Contents(b.buf)[B.Done(b.work)..]) == []
  {
    hide B.Progress, B.Parse;
    if b.work.Idle? && b.buf.aStart == b.buf.aEnd {
      B.ParseNone(Contents(b.buf)[0..]);
    }
  }

  lemma {:induction false} QueuedMember(es: seq<B.Entry>, e: B.Entry)
    requires e in es
    ensures Queued(es, e.item) > 0
  {
    if es[0] != e {
      QueuedMember(es[1..], e);
    }
  }
}
