/** Reading back a record of no bytes can trip the engine's assertion.  With any configuration that has
    a page to write to, a record that fills the first buffer followed by an empty one does it: the empty
    record starts where the buffer, still attached and not flushed, ends. */
module ExtstoreEmptyRecord {
  import opened Common
  import opened Extstore
  import opened ExtstoreInv
  import opened ExtstoreSafe
  import opened ExtstoreRuns

  /** Page 1 is the open page of bucket 0, nothing of it is written, and only that bucket's writer,
      which is at `w`, is busy. */
  ghost predicate Writing(c: Config, s: State, w: Writer) {
    && s.Sized(c) && |s.pages| >= 2 && |s.writers| > 0 && s.version == 2 && s.lookups == map[]
    && s.writers[0] == w && (forall b :: 0 < b < |s.writers| ==> s.writers[b].Idle?)
    && s.buckets[0] != [] && s.buckets[0][0] == 1
    && var page := s.pages[1];
       page.active && !page.free && !page.closed && page.version == 1 && page.written == 0
  }

  /** Page 1 has its first buffer, with `used` bytes in it. */
  ghost predicate Buffered(c: Config, s: State, used: nat) {
    && |s.pages| >= 2 && s.pages[1].wbuf.Some? && s.pages[1].wbuf.value < |s.wbufs|
    && var w := s.wbufs[s.pages[1].wbuf.value];
       !w.full && w.offset == 0 && w.used == used && |w.buf| == c.wbufSize
  }

  ghost predicate Unbuffered(s: State) {
    |s.pages| >= 2 && s.pages[1].wbuf.None? && s.pages[1].alloc == 0 && s.wbufStack != []
  }

  /** The record of no bytes right after a full first buffer. */
  function Nothing(c: Config): Record {
    Record(1, 1, c.wbufSize, [])
  }

  lemma OpensPageOne(c: Config)
    requires c.Valid() && c.PageCount() >= 2
    ensures CanFind(c, Init(c), 0, c.freeBucket[1]) && SafeFind(c, Init(c), 0, c.freeBucket[1])
    ensures var t := Find(c, Init(c), 0, c.freeBucket[1], c.wbufSize);
      Writing(c, t, Found(1, c.wbufSize, c.freeBucket[1])) && Unbuffered(t)
  {
    hide c.Apart;
    var (list, lists) := FreeFrom(c, 2);
    var fb := c.freeBucket[1];
    assert FreeFrom(c, 1) == (if fb == 0 then ([1] + list, lists) else (list, lists[fb := [1] + lists[fb]]));
  }

  lemma TakesBuffer(c: Config, s: State, fb: nat)
    requires Inv(c, s) && Writing(c, s, Found(1, c.wbufSize, fb)) && Unbuffered(s)
    ensures CanLock(c, s, 0) && SafeLock(c, s, 0)
    ensures var t := Lock(c, s, 0); Writing(c, t, Holding(1, c.wbufSize)) && Buffered(c, t, 0)
  {
    hide c.Apart, PagesOk, VersionsDiffer, Partitioned, WritesOk, IosOk, ProgressOk, WritersOk, RecordsOk, RefcountsOk;
    hide ReadsOk, MaintOk;
  }

  lemma FillsBuffer(c: Config, s: State)
    requires Writing(c, s, Holding(1, c.wbufSize)) && Buffered(c, s, 0)
    ensures CanWrite(c, s, 0, Zeroes(c.wbufSize)) && SafeWrite(c, s, 0, Zeroes(c.wbufSize))
    ensures var t := Commit(s, 0, Zeroes(c.wbufSize)); Writing(c, t, Idle) && Buffered(c, t, c.wbufSize)
  {}

  lemma FindsPageAgain(c: Config, s: State, fb: nat)
    requires Writing(c, s, Idle) && Buffered(c, s, c.wbufSize) && fb < c.bucketCount
    ensures CanFind(c, s, 0, fb) && SafeFind(c, s, 0, fb)
    ensures var t := Find(c, s, 0, fb, 0); Writing(c, t, Found(1, 0, fb)) && Buffered(c, t, c.wbufSize)
  {}

  lemma NothingFits(c: Config, s: State, fb: nat)
    requires Inv(c, s) && Writing(c, s, Found(1, 0, fb)) && Buffered(c, s, c.wbufSize)
    ensures CanLock(c, s, 0) && SafeLock(c, s, 0)
    ensures var t := Lock(c, s, 0); Writing(c, t, Holding(1, 0)) && Buffered(c, t, c.wbufSize)
  {
    hide c.Apart, PagesOk, VersionsDiffer, Partitioned, WritesOk, IosOk, ProgressOk, WritersOk, RecordsOk, RefcountsOk;
    hide ReadsOk, MaintOk;
  }

  lemma WritesNothing(c: Config, s: State)
    requires Writing(c, s, Holding(1, 0)) && Buffered(c, s, c.wbufSize)
    ensures CanWrite(c, s, 0, []) && SafeWrite(c, s, 0, [])
    ensures var t := Commit(s, 0, []);
      Writing(c, t, Idle) && Buffered(c, t, c.wbufSize) && Nothing(c) in t.commits
  {}

  lemma ReadBreaks(c: Config, s: State, id: nat)
    requires Writing(c, s, Idle) && Buffered(c, s, c.wbufSize) && Nothing(c) in s.commits
    ensures CanSubmit(c, s, id, Nothing(c))
    ensures var t := Submit(s, id, Nothing(c));
      && CanBegin(c, t, id) && SafeBegin(c, t, id) && Buffered(c, t, c.wbufSize)
      && var u := StartRead(c, t, id);
         id in u.lookups && u.lookups[id] == Read(Nothing(c), Done(Broken)) && u.commits == s.commits
  {}

  /** A run may go on with any step that is enabled. */
  lemma Grow(c: Config, states: seq<State>, steps: seq<Step>, step: Step) returns (t: State)
    requires c.Valid() && IsRun(c, states, steps) && Enabled(c, states[|states| - 1], step)
    ensures Safe(c, states[|states| - 1], step) && t == Apply(c, states[|states| - 1], step)
    ensures IsRun(c, states + [t], steps + [step]) && Inv(c, t)
  {
    hide Enabled, Safe, Apply, Inv, c.Valid, Init;
    var s := states[|states| - 1];
    RunKeepsInv(c, states, steps, |states| - 1);
    InvIsSafe(c, s, step);
    t := Apply(c, s, step);
    StepKeeps(c, s, step);
    var more, next := states + [t], steps + [step];
    forall i | 0 <= i < |next|
      ensures Enabled(c, more[i], next[i]) && (Safe(c, more[i], next[i]) ==> more[i + 1] == Apply(c, more[i], next[i]))
    {
      if i < |steps| {
        assert Enabled(c, states[i], steps[i]);
      }
    }
  }

  /** The first three steps: a record that fills the buffer. */
  lemma FillFirst(c: Config) returns (states: seq<State>, steps: seq<Step>)
    requires c.Valid() && c.PageCount() >= 2
    ensures IsRun(c, states, steps)
    ensures var s := states[|states| - 1]; Writing(c, s, Idle) && Buffered(c, s, c.wbufSize)
  {
    hide Writing, Buffered, Unbuffered, Inv, c.Apart, Init, Find, Lock, Commit;
    hide CanFind, CanLock, CanWrite, SafeFind, SafeLock, SafeWrite;
    states, steps := [Init(c)], [];
    OpensPageOne(c);
    var t := Grow(c, states, steps, FindPage(0, c.freeBucket[1], c.wbufSize));
    states, steps := states + [t], steps + [FindPage(0, c.freeBucket[1], c.wbufSize)];
    TakesBuffer(c, t, c.freeBucket[1]);
    t := Grow(c, states, steps, LockPage(0));
    states, steps := states + [t], steps + [LockPage(0)];
    FillsBuffer(c, t);
    t := Grow(c, states, steps, Write(0, Zeroes(c.wbufSize)));
    states, steps := states + [t], steps + [Write(0, Zeroes(c.wbufSize))];
  }

  /** Three more: the record of no bytes. */
  lemma WriteEmpty(c: Config) returns (states: seq<State>, steps: seq<Step>)
    requires c.Valid() && c.PageCount() >= 2
    ensures IsRun(c, states, steps)
    ensures var s := states[|states| - 1];
      Writing(c, s, Idle) && Buffered(c, s, c.wbufSize) && Nothing(c) in s.commits
  {
    hide Writing, Buffered, Unbuffered, Inv, Init, Find, Lock, Commit;
    hide CanFind, CanLock, CanWrite, SafeFind, SafeLock, SafeWrite, c.Apart;
    states, steps := FillFirst(c);
    var fb := c.freeBucket[1];
    FindsPageAgain(c, states[|states| - 1], fb);
    var t := Grow(c, states, steps, FindPage(0, fb, 0));
    states, steps := states + [t], steps + [FindPage(0, fb, 0)];
    NothingFits(c, t, fb);
    t := Grow(c, states, steps, LockPage(0));
    states, steps := states + [t], steps + [LockPage(0)];
    WritesNothing(c, t);
    t := Grow(c, states, steps, Write(0, []));
    states, steps := states + [t], steps + [Write(0, [])];
  }

  /** The property fails for empty records, with every configuration that has a page to write to:
      eight steps from start-up the read of a committed record ends in the failed assertion. */
  lemma EmptyRecordBreaks(c: Config, id: nat) returns (states: seq<State>, steps: seq<Step>)
    requires c.Valid() && c.PageCount() >= 2
    ensures IsRun(c, states, steps)
    ensures var s := states[|states| - 1];
      && id in s.lookups && s.lookups[id].phase == Done(Broken)
      && s.lookups[id].rec.data == [] && s.lookups[id].rec in s.commits
  {
    hide Writing, Buffered, Inv, Init, Submit, StartRead, CanSubmit, CanBegin, SafeBegin, c.Valid;
    states, steps := WriteEmpty(c);
    ReadBreaks(c, states[|states| - 1], id);
    var t := Grow(c, states, steps, SubmitRead(id, Nothing(c)));
    states, steps := states + [t], steps + [SubmitRead(id, Nothing(c))];
    t := Grow(c, states, steps, BeginRead(id));
    states, steps := states + [t], steps + [BeginRead(id)];
  }
}
