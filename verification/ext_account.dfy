/** The account of a page's objects over whole runs: what its counters hold is what was written to it
    since it was opened, less what was deleted. */
module ExtstoreAccount {
  import opened Common
  import opened Lists
  import opened Extstore
  import opened ExtstoreInv
  import opened ExtstoreSafe
  import opened ExtstoreWrites
  import opened ExtstorePages
  import opened ExtstoreRuns

  /** What was written to and deleted from a page since it was last opened, and what should be left of
      it.  Deleting more than is left leaves nothing. */
  datatype Tally = Tally(written: nat, writtenBytes: nat, deleted: nat, deletedBytes: nat, left: nat, leftBytes: nat)
  {
    function Write(n: nat): Tally {
      this.(written := written + 1, writtenBytes := writtenBytes + n, left := left + 1, leftBytes := leftBytes + n)
    }

    function Delete(count: nat, bytes: nat): Tally {
      this.(deleted := deleted + count, deletedBytes := deletedBytes + bytes,
            left := if left < count then 0 else left - count,
            leftBytes := if leftBytes < bytes then 0 else leftBytes - bytes)
    }
  }

  const NOTHING := Tally(0, 0, 0, 0, 0, 0)

  /** The step is the write of a writer that holds the page. */
  predicate WritesTo(s: State, step: Step, p: nat) {
    step.Write? && step.b < |s.writers| && s.writers[step.b].Holding? && s.writers[step.b].page == p
  }

  /** The step deletes objects of the page, under its version and before it is closed. */
  predicate DeletesFrom(s: State, step: Step, p: nat) {
    step.DeleteObjects? && step.p == p < |s.pages| && !s.pages[p].closed && s.pages[p].version == step.version
  }

  /** The step opens or frees the page. */
  predicate Renews(s: State, t: State, p: nat) {
    p < |s.pages| && p < |t.pages| &&
    (s.pages[p].version != t.pages[p].version || s.pages[p].free != t.pages[p].free)
  }

  /** The tally of page `p` in state `i` of a run. */
  ghost function TallyOf(states: seq<State>, steps: seq<Step>, p: nat, i: nat): Tally
    requires |states| == |steps| + 1 && i < |states|
  {
    if i == 0 then NOTHING
    else
      var s, step, before := states[i - 1], steps[i - 1], TallyOf(states, steps, p, i - 1);
      if Renews(s, states[i], p) then NOTHING
      else if WritesTo(s, step, p) then before.Write(|step.data|)
      else if DeletesFrom(s, step, p) then before.Delete(step.count, step.bytes)
      else before
  }

  // ----- One step

  predicate SameCounts(a: Page, b: Page) {
    a.objCount == b.objCount && a.bytesUsed == b.bytesUsed
  }

  /** The maintenance thread frees the page in this step, if it is freed at all. */
  predicate MayTake(s: State, step: Step, p: nat) {
    || (step.MaintScan? && s.maint.Scan? && s.maint.next == p)
    || (step.MaintEvict? && s.maint.Evict? && s.maint.page == p)
  }

  /** How a step may change the life and the counters of page `p`. */
  ghost predicate Moves(s: State, step: Step, t: State, p: nat) {
    p < |s.pages| == |t.pages| &&
    var a, b := s.pages[p], t.pages[p];
    if Renews(s, t, p) then
      if a.free then !b.free && SameCounts(a, b)
      else b.free && b.objCount == 0 && b.bytesUsed == 0 && MayTake(s, step, p)
    else if WritesTo(s, step, p) then
      !a.free && b.objCount == a.objCount + 1 && b.bytesUsed == a.bytesUsed + |step.data|
    else if DeletesFrom(s, step, p) then
      && b.objCount == (if a.objCount < step.count then 0 else a.objCount - step.count)
      && b.bytesUsed == (if a.bytesUsed < step.bytes then 0 else a.bytesUsed - step.bytes)
    else SameCounts(a, b)
  }

  lemma AllocateMoves(s: State, step: Step, b: nat, fb: nat, p: nat)
    requires b < |s.buckets| && fb < |s.freeBuckets| && p < |s.pages|
    requires var r := PopFree(s, fb).1; r.Some? ==> r.value < |s.pages| && s.pages[r.value].free
    requires !step.Write? && !step.DeleteObjects?
    ensures Moves(s, step, AllocatePage(s, b, fb).0, p)
  {}

  lemma FindMoves(c: Config, s: State, b: nat, fb: nat, len: nat, p: nat)
    requires Inv(c, s) && CanFind(c, s, b, fb) && SafeFind(c, s, b, fb) && p < |s.pages|
    ensures Moves(s, FindPage(b, fb, len), Find(c, s, b, fb, len), p)
  {
    hide Inv, AllocatePage;
    PopIsFree(c, s, fb);
    if s.buckets[b] == [] {
      AllocateMoves(s, FindPage(b, fb, len), b, fb, p);
    }
  }

  lemma GetMoves(c: Config, s: State, b: nat, p: nat)
    requires Inv(c, s) && CanGet(c, s, b) && SafeGet(c, s, b) && p < |s.pages|
    ensures Moves(s, GetPage(b), Get(c, s, b), p)
  {
    hide Inv, AllocatePage;
    PopIsFree(c, s, s.writers[b].freeBucket);
    AllocateMoves(s.WithWriter(b, Idle), GetPage(b), b, s.writers[b].freeBucket, p);
  }

  lemma LockMoves(c: Config, s: State, b: nat, p: nat)
    requires CanLock(c, s, b) && SafeLock(c, s, b) && p < |s.pages|
    ensures Moves(s, LockPage(b), Lock(c, s, b), p)
  {}

  lemma HeldIsInUse(c: Config, s: State, b: nat)
    requires Inv(c, s) && b < |s.writers| && s.writers[b].Holding?
    ensures s.writers[b].page < |s.pages| && !s.pages[s.writers[b].page].free
  {
    hide c.Apart, VersionsDiffer, Partitioned, BuffersOk, WritesOk, IosOk, ProgressOk, RecordsOk;
    hide RefcountsOk, ReadsOk, MaintOk;
    assert WriterOk(c, s.pages, s.wbufs, s.buckets[b], s.writers[b]);
    assert PageOk(c, s.pages[s.writers[b].page], s.wbufs, s.version);
  }

  lemma WriteMoves(c: Config, s: State, b: nat, data: seq<byte>, p: nat)
    requires Inv(c, s) && CanWrite(c, s, b, data) && SafeWrite(c, s, b, data) && p < |s.pages|
    ensures Moves(s, Write(b, data), Commit(s, b, data), p)
  {
    hide Inv;
    HeldIsInUse(c, s, b);
  }

  lemma FreeMoves(c: Config, s: State, step: Step, q: nat, p: nat)
    requires s.Sized(c) && q < |s.pages| && p < |s.pages| && MayUnlink(c, s, q) && !s.pages[q].free
    requires !step.Write? && !step.DeleteObjects? && MayTake(s, step, q)
    ensures Moves(s, step, FreePage(c, s, q), p)
  {
    hide Without;
  }

  lemma ScanMoves(c: Config, s: State, p: nat)
    requires CanScan(c, s) && SafeScan(c, s) && p < |s.pages|
    ensures Moves(s, MaintScan, Scanned(c, s), p)
  {
    hide FreePage;
    var i := s.maint.next;
    if i < |s.pages| && !s.pages[i].active && !s.pages[i].free && MayFree(s.pages[i]) {
      FreeMoves(c, s, MaintScan, i, p);
    }
  }

  lemma EvictMoves(c: Config, s: State, p: nat)
    requires Inv(c, s) && CanEvict(c, s) && SafeEvict(c, s) && p < |s.pages|
    ensures Moves(s, MaintEvict, Evicted(c, s), p)
  {
    hide Inv, FreePage;
    MaintIs(c, s);
    var q := s.maint.page;
    if !s.pages[q].closed && s.pages[q].refcount == 0 {
      var s1 := s.WithPage(q, s.pages[q].(closed := true));
      FreeMoves(c, s1, MaintEvict, q, p);
      assert FreePage(c, s1.(maint := Waiting), q).pages == FreePage(c, s1, q).pages by {
        FreeKeepsMaint(c, s1, q);
      }
    }
  }

  lemma FreeKeepsMaint(c: Config, s: State, q: nat)
    requires s.Sized(c) && q < |s.pages| && MayUnlink(c, s, q)
    ensures FreePage(c, s.(maint := Waiting), q).pages == FreePage(c, s, q).pages
  {}

  lemma FlushMoves(c: Config, s: State, io: nat, p: nat)
    requires CanFlush(c, s, io) && SafeFlush(c, s, io) && p < |s.pages|
    ensures Moves(s, FlushDone(io), Flushed(c, s, io), p)
  {}

  lemma BeginMoves(c: Config, s: State, id: nat, p: nat)
    requires CanBegin(c, s, id) && SafeBegin(c, s, id) && p < |s.pages|
    ensures Moves(s, BeginRead(id), StartRead(c, s, id), p)
  {
    hide FromWbuf, Readable;
  }

  lemma ReleaseMoves(c: Config, s: State, id: nat, p: nat)
    requires CanRelease(c, s, id) && SafeRelease(c, s, id) && p < |s.pages|
    ensures Moves(s, ReadRelease(id), Release(c, s, id), p)
  {}

  lemma DeleteMoves(s: State, q: nat, version: nat, count: nat, bytes: nat, p: nat)
    requires q < |s.pages| && p < |s.pages|
    ensures Moves(s, DeleteObjects(q, version, count, bytes), Delete(s, q, version, count, bytes), p)
  {}

  lemma CloseMoves(s: State, q: nat, version: nat, p: nat)
    requires q < |s.pages| && p < |s.pages|
    ensures Moves(s, ClosePage(q, version), Close(s, q, version), p)
  {}

  /** The other steps change no page. */
  lemma OthersMove(s: State, step: Step, t: State, p: nat)
    requires p < |s.pages| && t.pages == s.pages && !step.Write? && !step.DeleteObjects?
    ensures Moves(s, step, t, p)
  {}

  lemma StepMoves(c: Config, s: State, step: Step, p: nat)
    requires Inv(c, s) && Enabled(c, s, step) && Safe(c, s, step) && p < |s.pages|
    ensures Moves(s, step, Apply(c, s, step), p)
  {
    hide Inv, Moves, Find, Get, Lock, Commit, Flushed, StartRead, Release, Delete, Close, Scanned, Evicted;
    match step
    case FindPage(b, fb, len) => FindMoves(c, s, b, fb, len, p);
    case LockPage(b) => LockMoves(c, s, b, p);
    case GetPage(b) => GetMoves(c, s, b, p);
    case Write(b, data) => WriteMoves(c, s, b, data, p);
    case WriteByte(io, i) => OthersMove(s, step, PutByte(c, s, io, i), p);
    case FlushDone(io) => FlushMoves(c, s, io, p);
    case SubmitRead(id, rec) => OthersMove(s, step, Submit(s, id, rec), p);
    case BeginRead(id) => BeginMoves(c, s, id, p);
    case ReadByte(id, i) => OthersMove(s, step, TakeByte(c, s, id, i), p);
    case ReadDone(id) => OthersMove(s, step, Extstore.Finish(c, s, id), p);
    case ReadRelease(id) => ReleaseMoves(c, s, id, p);
    case DeleteObjects(q, version, count, bytes) => DeleteMoves(s, q, version, count, bytes, p);
    case ClosePage(q, version) => CloseMoves(s, q, version, p);
    case MaintStart => OthersMove(s, step, Start(s), p);
    case MaintScan => ScanMoves(c, s, p);
    case MaintEvict => EvictMoves(c, s, p);
  }

  // ----- Whole runs

  /** What step `i` of a run does to page `p`. */
  lemma RunMoves(c: Config, states: seq<State>, steps: seq<Step>, p: nat, i: nat)
    requires c.Valid() && IsRun(c, states, steps) && i < |steps| && p < c.PageCount()
    ensures Moves(states[i], steps[i], states[i + 1], p)
  {
    RunsAreSafe(c, states, steps, i);
    RunKeepsInv(c, states, steps, i);
    hide Inv, Moves, Enabled, Safe, Apply;
    SizedBy(c, states[i]);
    StepMoves(c, states[i], steps[i], p);
  }

  lemma TallyNext(states: seq<State>, steps: seq<Step>, p: nat, i: nat)
    requires |states| == |steps| + 1 && 0 < i < |states|
    requires Moves(states[i - 1], steps[i - 1], states[i], p)
    requires Agrees(states[i - 1], p, TallyOf(states, steps, p, i - 1))
    ensures Agrees(states[i], p, TallyOf(states, steps, p, i))
  {}

  /** The page's counters are what its tally has left, and a free page has nothing. */
  ghost predicate Agrees(s: State, p: nat, t: Tally) {
    && p < |s.pages| && s.pages[p].objCount == t.left && s.pages[p].bytesUsed == t.leftBytes
    && (s.pages[p].free ==> t.left == 0 && t.leftBytes == 0)
    && t.left <= t.written <= t.left + t.deleted
    && t.leftBytes <= t.writtenBytes <= t.leftBytes + t.deletedBytes
  }

  /** In every state of every run a page's object and byte counts are what has been written to it since
      it was opened, lowered by every deletion since and never below zero. */
  lemma {:induction false} CountsAreTallied(c: Config, states: seq<State>, steps: seq<Step>, p: nat, i: nat)
    requires c.Valid() && IsRun(c, states, steps) && i < |states| && p < c.PageCount()
    ensures p < |states[i].pages|
    ensures var page, t := states[i].pages[p], TallyOf(states, steps, p, i);
      && page.objCount == t.left && page.bytesUsed == t.leftBytes
      && t.left <= t.written <= t.left + t.deleted
      && t.leftBytes <= t.writtenBytes <= t.leftBytes + t.deletedBytes
      && (page.free ==> page.objCount == 0 && page.bytesUsed == 0)
  {
    TalliesAgree(c, states, steps, p, i);
  }

  lemma {:induction false} TalliesAgree(c: Config, states: seq<State>, steps: seq<Step>, p: nat, i: nat)
    requires c.Valid() && IsRun(c, states, steps) && i < |states| && p < c.PageCount()
    ensures Agrees(states[i], p, TallyOf(states, steps, p, i))
  {
    hide Agrees, Moves, TallyOf, Enabled, Safe, Apply;
    if i == 0 {
      StartsEmpty(c, states, steps, p);
    } else {
      TalliesAgree(c, states, steps, p, i - 1);
      RunMoves(c, states, steps, p, i - 1);
      TallyNext(states, steps, p, i);
    }
  }

  lemma StartsEmpty(c: Config, states: seq<State>, steps: seq<Step>, p: nat)
    requires c.Valid() && |states| == |steps| + 1 && states[0] == Init(c) && p < c.PageCount()
    ensures Agrees(states[0], p, TallyOf(states, steps, p, 0))
  {
    hide c.Apart, FreeFrom;
  }

  /** A page that was not closed is freed by a scan only if at least as many objects were deleted from it
      as were written to it.  As long as fewer were, the scan leaves it as it is. */
  lemma ScanFreesTheDeleted(c: Config, states: seq<State>, steps: seq<Step>, p: nat, i: nat)
    requires c.Valid() && IsRun(c, states, steps) && i < |steps| && p < c.PageCount() && steps[i].MaintScan?
    ensures p < |states[i].pages| == |states[i + 1].pages|
    ensures var page, next, t := states[i].pages[p], states[i + 1].pages[p], TallyOf(states, steps, p, i);
      && (!page.free && next.free && !page.closed ==> t.written <= t.deleted)
      && (!page.closed && t.deleted < t.written ==> next == page)
  {
    hide TallyOf, Scanned, CanScan, SafeScan, Init;
    CountsAreTallied(c, states, steps, p, i);
    RunsAreSafe(c, states, steps, i);
    StepIs(c, states, steps, i);
    ScanSpares(c, states[i], p);
  }

  lemma StepIs(c: Config, states: seq<State>, steps: seq<Step>, i: nat)
    requires c.Valid() && IsRun(c, states, steps) && i < |steps|
    requires Enabled(c, states[i], steps[i]) && Safe(c, states[i], steps[i])
    ensures states[i + 1] == Apply(c, states[i], steps[i])
  {
    hide Enabled, Safe, Apply, Init;
  }

  lemma FreeTouches(c: Config, s: State, q: nat)
    requires s.Sized(c) && q < |s.pages| && MayUnlink(c, s, q)
    ensures FreePage(c, s, q).pages == s.pages[q := FreedPage(s.pages[q])]
  {
    hide Without;
  }

  /** A scan leaves a page alone that is open and not empty. */
  lemma ScanSpares(c: Config, s: State, p: nat)
    requires CanScan(c, s) && SafeScan(c, s) && p < |s.pages|
    ensures |Scanned(c, s).pages| == |s.pages|
    ensures s.pages[p].objCount > 0 && !s.pages[p].closed ==> Scanned(c, s).pages[p] == s.pages[p]
  {
    hide FreePage, LowerOf;
    var i := s.maint.next;
    if i < |s.pages| && !s.pages[i].active && !s.pages[i].free && MayFree(s.pages[i]) {
      FreeTouches(c, s, i);
    }
  }
}
