/** Start-up, whole runs and what holds in every one of them. */
module ExtstoreRuns {
  import opened Common
  import opened Lists
  import opened Extstore
  import opened ExtstoreInv
  import opened ExtstoreSafe
  import opened ExtstoreReads
  import opened ExtstoreWrites
  import opened ExtstoreFlush
  import opened ExtstorePages

  // ----- The state after start-up

  /** The free lists after pages `i` and up have been pushed, highest first. */
  function FreeFrom(c: Config, i: nat): (lists: (seq<nat>, seq<seq<nat>>))
    requires i > 0 && forall p :: 0 < p < |c.freeBucket| ==> c.freeBucket[p] < c.bucketCount
    ensures |lists.1| == c.bucketCount
    decreases |c.freeBucket| - i
  {
    if i >= |c.freeBucket| then ([], seq(c.bucketCount, _ => []))
    else
      var (list, buckets) := FreeFrom(c, i + 1);
      var fb := c.freeBucket[i];
      if fb == 0 then ([i] + list, buckets) else (list, buckets[fb := [i] + buckets[fb]])
  }

  function Countdown(n: nat): (s: seq<nat>)
    ensures |s| == n && forall i :: 0 <= i < n ==> s[i] == n - 1 - i
  {
    seq(n, i requires 0 <= i < n => n - 1 - i)
  }

  const FRESH_PAGE := Page(0, 0, 0, 0, 0, false, false, true, None, 0, 0)

  function Init(c: Config): State
    requires c.Valid()
  {
    var (list, buckets) := FreeFrom(c, 1);
    State(seq(c.PageCount(), _ => FRESH_PAGE), seq(c.wbufCount, _ => Wbuf(Zeroes(c.wbufSize), 0, 0, false)),
          Countdown(c.wbufCount), Countdown(c.wbufCount), map[], list, buckets, seq(c.bucketCount, _ => []),
          1, if c.PageCount() > 0 then c.PageCount() - 1 else 0, map[], seq(c.bucketCount, _ => Idle), Waiting,
          map[], {})
  }

  ghost predicate Above(list: seq<nat>, i: nat) {
    forall k :: 0 <= k < |list| ==> list[k] >= i
  }

  lemma OnFreeListCons(c: Config, pages: seq<Page>, list: seq<nat>, fb: nat, i: nat)
    requires |pages| == |c.freeBucket| && OnFreeList(c, pages, list, fb) && Above(list, i + 1)
    requires 0 < i < |pages| && pages[i].free && c.freeBucket[i] == fb
    ensures OnFreeList(c, pages, [i] + list, fb) && Above([i] + list, i)
  {}

  lemma {:induction false} EmptyTotal(lists: seq<seq<nat>>)
    requires forall k :: 0 <= k < |lists| ==> lists[k] == []
    ensures Total(lists) == 0
  {
    if lists != [] {
      EmptyTotal(lists[1..]);
    }
  }

  ghost predicate StartLists(c: Config, pages: seq<Page>, list: seq<nat>, buckets: seq<seq<nat>>, i: nat)
    requires |pages| == |c.freeBucket|
  {
    && |buckets| == c.bucketCount && OnFreeList(c, pages, list, 0) && Above(list, i)
    && (forall k :: 0 <= k < |buckets| ==> OnFreeList(c, pages, buckets[k], k) && Above(buckets[k], i))
    && (|buckets| > 0 ==> buckets[0] == [])
    && (forall p: nat :: i <= p < |pages| ==>
          if c.freeBucket[p] == 0 then p in list else c.freeBucket[p] < |buckets| && p in buckets[c.freeBucket[p]])
    && |list| + Total(buckets) == if i <= |pages| then |pages| - i else 0
  }

  lemma AboveLess(list: seq<nat>, i: nat)
    requires Above(list, i + 1)
    ensures Above(list, i)
  {}

  lemma PushDefault(c: Config, pages: seq<Page>, list: seq<nat>, buckets: seq<seq<nat>>, i: nat)
    requires |pages| == |c.freeBucket| && StartLists(c, pages, list, buckets, i + 1)
    requires 0 < i < |pages| && pages[i].free && c.freeBucket[i] == 0
    ensures StartLists(c, pages, [i] + list, buckets, i)
  {
    OnFreeListCons(c, pages, list, 0, i);
    forall k | 0 <= k < |buckets|
      ensures Above(buckets[k], i)
    {
      AboveLess(buckets[k], i);
    }
    hide OnFreeList, Total, Above;
  }

  lemma PushBucket(c: Config, pages: seq<Page>, list: seq<nat>, buckets: seq<seq<nat>>, i: nat)
    requires |pages| == |c.freeBucket| && StartLists(c, pages, list, buckets, i + 1)
    requires 0 < i < |pages| && pages[i].free && 0 < c.freeBucket[i] < |buckets|
    ensures StartLists(c, pages, list, buckets[c.freeBucket[i] := [i] + buckets[c.freeBucket[i]]], i)
  {
    var fb := c.freeBucket[i];
    OnFreeListCons(c, pages, buckets[fb], fb, i);
    TotalUpdate(buckets, fb, [i] + buckets[fb]);
    AboveLess(list, i);
    forall k | 0 <= k < |buckets|
      ensures Above(buckets[k], i)
    {
      AboveLess(buckets[k], i);
    }
    hide OnFreeList, Total, Above;
  }

  lemma {:induction false} FreeFromOk(c: Config, pages: seq<Page>, i: nat)
    requires c.Valid() && |pages| == |c.freeBucket| && i > 0 && forall p :: 0 <= p < |pages| ==> pages[p].free
    ensures StartLists(c, pages, FreeFrom(c, i).0, FreeFrom(c, i).1, i)
    decreases |c.freeBucket| - i
  {
    hide c.Apart;
    var (list, buckets) := FreeFrom(c, i);
    if i >= |c.freeBucket| {
      EmptyTotal(buckets);
    } else {
      hide StartLists;
      FreeFromOk(c, pages, i + 1);
      var (l, bs) := FreeFrom(c, i + 1);
      if c.freeBucket[i] == 0 {
        PushDefault(c, pages, l, bs, i);
      } else {
        PushBucket(c, pages, l, bs, i);
      }
    }
  }

  lemma InitLists(c: Config)
    requires c.Valid()
    ensures var s := Init(c);
      && Partitioned(c, s.pages, s.freelist, s.freeBuckets, s.buckets)
      && s.pageFree == |s.freelist| + Total(s.freeBuckets)
  {
    hide c.Apart;
    var s := Init(c);
    FreeFromOk(c, s.pages, 1);
    hide Total, FreeFrom;
  }

  lemma InitBuffers(c: Config)
    requires c.Valid()
    ensures var s := Init(c);
      && BuffersOk(c, s.pages, s.wbufs, s.wbufStack)
      && WritesOk(c, s.pages, s.wbufs, s.writes) && IosOk(c, s.writes, s.ioStack)
  {
    hide c.Apart, FreeFrom;
    var s := Init(c);
    assert Attached(s.pages) == {};
    assert WritePages(s.writes) == {};
  }

  lemma InitOk(c: Config)
    requires c.Valid()
    ensures Inv(c, Init(c))
  {
    InitLists(c);
    InitBuffers(c);
    hide c.Apart, Partitioned, BuffersOk, WritesOk, IosOk, FreeFrom, Total;
    var s := Init(c);
    forall p | 0 <= p < |s.pages|
      ensures Holders(s.lookups, p) == {}
    {}
  }

  // ----- Runs

  /** One step keeps every invariant. */
  lemma StepKeeps(c: Config, s: State, step: Step)
    requires Inv(c, s) && Enabled(c, s, step) && Safe(c, s, step)
    ensures Inv(c, Apply(c, s, step))
  {
    hide Inv;
    match step
    case FindPage(b, fb, len) => FindKeeps(c, s, b, fb, len);
    case LockPage(b) => LockKeeps(c, s, b);
    case GetPage(b) => GetKeeps(c, s, b);
    case Write(b, data) => CommitKeeps(c, s, b, data);
    case WriteByte(io, i) => PutKeeps(c, s, io, i);
    case FlushDone(io) => FlushKeeps(c, s, io);
    case SubmitRead(id, rec) => SubmitKeeps(c, s, id, rec);
    case BeginRead(id) => BeginKeeps(c, s, id);
    case ReadByte(id, i) => TakeKeeps(c, s, id, i);
    case ReadDone(id) => FinishKeeps(c, s, id);
    case ReadRelease(id) => ReleaseKeeps(c, s, id);
    case DeleteObjects(p, version, count, bytes) => DeleteKeeps(c, s, p, version, count, bytes);
    case ClosePage(p, version) => CloseKeeps(c, s, p, version);
    case MaintStart => StartKeeps(c, s);
    case MaintScan => ScanKeeps(c, s);
    case MaintEvict => EvictKeeps(c, s);
  }

  /** A run of the engine.  A step outside `Safe` has no defined effect, so after one anything
      could follow. */
  ghost predicate IsRun(c: Config, states: seq<State>, steps: seq<Step>)
    requires c.Valid()
  {
    && |states| == |steps| + 1 && states[0] == Init(c)
    && forall i :: 0 <= i < |steps| ==>
        Enabled(c, states[i], steps[i]) &&
        (Safe(c, states[i], steps[i]) ==> states[i + 1] == Apply(c, states[i], steps[i]))
  }

  lemma {:induction false} RunKeepsInv(c: Config, states: seq<State>, steps: seq<Step>, i: nat)
    requires c.Valid() && IsRun(c, states, steps) && i < |states|
    ensures Inv(c, states[i])
  {
    hide Inv, Enabled, Safe, Apply, c.Valid;
    if i == 0 {
      InitOk(c);
    } else {
      RunKeepsInv(c, states, steps, i - 1);
      var s, step := states[i - 1], steps[i - 1];
      assert Enabled(c, s, step);
      InvIsSafe(c, s, step);
      StepKeeps(c, s, step);
    }
  }

  /** No run ever fails an assertion of the engine, pops an empty io stack or follows a missing
      buffer or page. */
  lemma RunsAreSafe(c: Config, states: seq<State>, steps: seq<Step>, i: nat)
    requires c.Valid() && IsRun(c, states, steps) && i < |steps|
    ensures Enabled(c, states[i], steps[i]) && Safe(c, states[i], steps[i])
  {
    RunKeepsInv(c, states, steps, i);
    hide Inv;
    InvIsSafe(c, states[i], steps[i]);
  }

  /** In every state of every run, a read that has ended either missed or delivered exactly the bytes
      committed under its page, version and offset.  A record of no bytes may instead have found no
      buffer to be read from. */
  lemma ReadsAreExact(c: Config, states: seq<State>, steps: seq<Step>, i: nat, id: nat)
    requires c.Valid() && IsRun(c, states, steps) && i < |states| && id in states[i].lookups
    ensures var r := states[i].lookups[id];
      && r.rec in states[i].commits
      && (r.phase.Called? ==> r.phase.outcome == Data(r.rec.data))
      && (r.phase.Done? ==> r.phase.outcome == Miss || r.phase.outcome == Data(r.rec.data)
                            || (r.rec.data == [] && r.phase.outcome == Broken))
  {
    RunKeepsInv(c, states, steps, i);
    ReadsFit(c, states[i], id);
  }

  lemma ReadsFit(c: Config, s: State, id: nat)
    requires Inv(c, s) && id in s.lookups
    ensures s.lookups[id].rec in s.commits && ReadOk(s.pages, s.lookups[id])
  {
    hide c.Apart, PagesOk, VersionsDiffer, Partitioned, BuffersOk, WritesOk, IosOk, ProgressOk, WritersOk, RecordsOk;
    hide RefcountsOk, MaintOk, ReadOk;
  }

  /** A read that starts while its record's page is still readable does not miss.  It breaks exactly
      when the record is empty and its page is being written but has no buffer reaching past it. */
  lemma ReadableIsServed(c: Config, states: seq<State>, steps: seq<Step>, i: nat, id: nat)
    requires c.Valid() && IsRun(c, states, steps) && i < |states| && CanBegin(c, states[i], id)
    requires var s := states[i];
      s.lookups[id].rec.page < |s.pages| && Readable(s.pages[s.lookups[id].rec.page], s.lookups[id].rec)
    ensures SafeBegin(c, states[i], id)
    ensures var s := states[i]; var rec := s.lookups[id].rec; var page := s.pages[rec.page];
      var after := StartRead(c, s, id).lookups[id].phase;
      && (after == Done(Broken) <==> rec.data == [] && page.active && rec.offset >= page.written
                                     && (page.wbuf.None? || rec.offset == page.written + c.wbufSize))
      && (after != Done(Broken) ==> after == Done(Data(rec.data)) || after == Copying(map[]))
  {
    RunKeepsInv(c, states, steps, i);
    BeginIsSafe(c, states[i], id);
    BeginOutcome(c, states[i], id);
  }

  lemma BeginOutcome(c: Config, s: State, id: nat)
    requires Inv(c, s) && CanBegin(c, s, id) && SafeBegin(c, s, id) &&
      Readable(s.pages[s.lookups[id].rec.page], s.lookups[id].rec)
    ensures var rec := s.lookups[id].rec; var page := s.pages[rec.page];
      var after := StartRead(c, s, id).lookups[id].phase;
      && (after == Done(Broken) <==> rec.data == [] && page.active && rec.offset >= page.written
                                     && (page.wbuf.None? || rec.offset == page.written + c.wbufSize))
      && (after != Done(Broken) ==> after == Done(Data(rec.data)) || after == Copying(map[]))
  {
    hide c.Apart, VersionsDiffer, Partitioned, WritesOk, IosOk, ProgressOk, WritersOk, FromWbuf;
    hide RefcountsOk, MaintOk;
    var rec := s.lookups[id].rec;
    var page := s.pages[rec.page];
    assert PageOk(c, page, s.wbufs, s.version);
    if page.active && rec.offset >= page.written {
      assert Live(page, rec) && Stored(c, page, s.wbufs, s.disk, rec);
      BufferServes(c, page, s.wbufs, s.version, s.disk, rec);
    }
  }

  /** No read or flush of the page is under way, and nobody holds a reference or a buffer of it. */
  ghost predicate AtRest(s: State, p: nat) {
    && p < |s.pages| && s.pages[p].refcount == 0 && s.pages[p].wbuf.None?
    && (forall io :: io in s.writes ==> s.writes[io].page != p)
    && (forall id :: id in s.lookups ==> !HoldsRef(s.lookups[id], p))
  }

  /** A page changes version only while at rest, so a disk read that passed the version check ends,
      callback included, before its page is freed or reused. */
  lemma VersionsChangeAtRest(c: Config, states: seq<State>, steps: seq<Step>, i: nat, p: nat)
    requires c.Valid() && IsRun(c, states, steps) && i < |steps| && p < |states[i].pages|
    requires p < |states[i + 1].pages| ==> states[i].pages[p].version != states[i + 1].pages[p].version
                                           || (!states[i].pages[p].free && states[i + 1].pages[p].free)
    ensures AtRest(states[i], p)
  {
    RunKeepsInv(c, states, steps, i);
    RunKeepsInv(c, states, steps, i + 1);
    RunsAreSafe(c, states, steps, i);
    hide Inv;
    SizedBy(c, states[i]);
    SizedBy(c, states[i + 1]);
    OnlyIdleChange(c, states[i], steps[i], p);
    IdleIsAtRest(c, states[i], p);
  }

  lemma IdleIsAtRest(c: Config, s: State, p: nat)
    requires Inv(c, s) && p < |s.pages| && (s.pages[p].free || (!s.pages[p].active && s.pages[p].refcount == 0))
    ensures AtRest(s, p)
  {
    hide c.Apart, VersionsDiffer, Partitioned, BuffersOk, IosOk, ProgressOk, WritersOk, RecordsOk;
    hide MaintOk, WritePages;
    assert PageOk(c, s.pages[p], s.wbufs, s.version);
    forall io | io in s.writes
      ensures s.writes[io].page != p
    {
      assert WriteOk(c, s.pages, s.wbufs, s.writes[io]);
    }
    forall id | id in s.lookups
      ensures !HoldsRef(s.lookups[id], p)
    {
      assert ReadOk(s.pages, s.lookups[id]);
      if !s.pages[p].free {
        NotRead(s.pages, s.lookups, p);
      }
    }
    assert Holders(s.lookups, p) == {};
  }

  ghost predicate SameLife(a: Page, b: Page) {
    a.version == b.version && a.free == b.free
  }

  ghost predicate Restful(page: Page) {
    page.free || (!page.active && page.refcount == 0)
  }

  /** The page lives on, or it was free or idle. */
  ghost predicate LivesOrRests(s: State, t: State, p: nat) {
    p < |s.pages| == |t.pages| && (SameLife(s.pages[p], t.pages[p]) || Restful(s.pages[p]))
  }

  lemma AllocateLives(s: State, b: nat, fb: nat, p: nat)
    requires b < |s.buckets| && fb < |s.freeBuckets| && p < |s.pages|
    requires var r := PopFree(s, fb).1; r.Some? ==> r.value < |s.pages| && s.pages[r.value].free
    ensures LivesOrRests(s, AllocatePage(s, b, fb).0, p)
  {}

  lemma FindLives(c: Config, s: State, b: nat, fb: nat, len: nat, p: nat)
    requires Inv(c, s) && CanFind(c, s, b, fb) && SafeFind(c, s, b, fb) && p < |s.pages|
    ensures LivesOrRests(s, Find(c, s, b, fb, len), p)
  {
    hide Inv, AllocatePage;
    PopIsFree(c, s, fb);
    if s.buckets[b] == [] {
      AllocateLives(s, b, fb, p);
    }
  }

  lemma GetLives(c: Config, s: State, b: nat, p: nat)
    requires Inv(c, s) && CanGet(c, s, b) && SafeGet(c, s, b) && p < |s.pages|
    ensures LivesOrRests(s, Get(c, s, b), p)
  {
    hide Inv, AllocatePage;
    PopIsFree(c, s, s.writers[b].freeBucket);
    AllocateLives(s.WithWriter(b, Idle), b, s.writers[b].freeBucket, p);
  }

  lemma LockLives(c: Config, s: State, b: nat, p: nat)
    requires CanLock(c, s, b) && SafeLock(c, s, b) && p < |s.pages|
    ensures LivesOrRests(s, Lock(c, s, b), p)
  {}

  lemma FreeLives(c: Config, s: State, q: nat, p: nat)
    requires s.Sized(c) && q < |s.pages| && p < |s.pages| && MayUnlink(c, s, q) && Restful(s.pages[q])
    ensures LivesOrRests(s, FreePage(c, s, q), p)
  {
    hide Without;
  }

  lemma ScanLives(c: Config, s: State, p: nat)
    requires CanScan(c, s) && SafeScan(c, s) && p < |s.pages|
    ensures LivesOrRests(s, Scanned(c, s), p)
  {
    hide FreePage;
    var i := s.maint.next;
    if i < |s.pages| && !s.pages[i].active && !s.pages[i].free && MayFree(s.pages[i]) {
      FreeLives(c, s, i, p);
    }
  }

  lemma EvictLives(c: Config, s: State, p: nat)
    requires Inv(c, s) && CanEvict(c, s) && SafeEvict(c, s) && p < |s.pages|
    ensures LivesOrRests(s, Evicted(c, s), p)
  {
    hide Inv, FreePage;
    MaintIs(c, s);
    var q := s.maint.page;
    if !s.pages[q].closed && s.pages[q].refcount == 0 {
      FreeLives(c, s.WithPage(q, s.pages[q].(closed := true)).(maint := Waiting), q, p);
    }
  }

  /** Only the freeing of an idle page and the opening of a free one touch versions. */
  lemma OnlyIdleChange(c: Config, s: State, step: Step, p: nat)
    requires Inv(c, s) && Enabled(c, s, step) && Safe(c, s, step) && p < |s.pages|
    ensures LivesOrRests(s, Apply(c, s, step), p)
  {
    hide Inv, Find, Get, Lock, Scanned, Evicted, AllocatePage, FreePage;
    match step
    case FindPage(b, fb, len) => FindLives(c, s, b, fb, len, p);
    case GetPage(b) => GetLives(c, s, b, p);
    case LockPage(b) => LockLives(c, s, b, p);
    case MaintScan => ScanLives(c, s, p);
    case MaintEvict => EvictLives(c, s, p);
    case _ =>
  }

  lemma PopIsFree(c: Config, s: State, fb: nat)
    requires Inv(c, s) && fb < |s.freeBuckets|
    ensures var r := PopFree(s, fb).1; r.Some? ==> r.value < |s.pages| && s.pages[r.value].free
  {
    hide c.Apart, PagesOk, VersionsDiffer, Partitioned, BuffersOk, WritesOk, IosOk, ProgressOk, WritersOk, RecordsOk;
    hide RefcountsOk, ReadsOk, MaintOk;
    FreeLists(c, s);
  }

  /** Write buffers and ios are conserved: each is free, or attached, or submitted. */
  lemma BuffersConserved(c: Config, states: seq<State>, steps: seq<Step>, i: nat)
    requires c.Valid() && IsRun(c, states, steps) && i < |states|
    ensures var s := states[i];
      && |s.wbufStack| + |Attached(s.pages)| == c.wbufCount
      && |s.ioStack| + |s.writes| == c.wbufCount
      && |s.writes| <= |Attached(s.pages)|
  {
    RunKeepsInv(c, states, steps, i);
    WritesAttached(c, states[i]);
  }

  lemma WritesAttached(c: Config, s: State)
    requires Inv(c, s)
    ensures |s.wbufStack| + |Attached(s.pages)| == c.wbufCount && |s.ioStack| + |s.writes| == c.wbufCount
    ensures |s.writes| <= |Attached(s.pages)|
  {
    hide c.Apart, PagesOk, VersionsDiffer, Partitioned, ProgressOk, WritersOk, RecordsOk, RefcountsOk, ReadsOk, MaintOk;
    assert WritePages(s.writes) <= Attached(s.pages) by {
      forall io | io in s.writes
        ensures s.writes[io].page in Attached(s.pages)
      {
        assert WriteOk(c, s.pages, s.wbufs, s.writes[io]);
      }
    }
    SubsetSize(WritePages(s.writes), Attached(s.pages));
  }

  /** How often a page number is on a list. */
  ghost function Count(list: seq<nat>, p: nat): nat {
    multiset(list)[p]
  }

  ghost function CountAll(lists: seq<seq<nat>>, p: nat): nat {
    if lists == [] then 0 else Count(lists[0], p) + CountAll(lists[1..], p)
  }

  lemma {:induction false} CountAllNone(lists: seq<seq<nat>>, p: nat)
    requires forall k :: 0 <= k < |lists| ==> p !in lists[k]
    ensures CountAll(lists, p) == 0
  {
    if lists != [] {
      CountAllNone(lists[1..], p);
    }
  }

  lemma {:induction false} CountAllOnce(lists: seq<seq<nat>>, p: nat, k: nat)
    requires k < |lists| && NoDup(lists[k]) && p in lists[k]
    requires forall j :: 0 <= j < |lists| && j != k ==> p !in lists[j]
    ensures CountAll(lists, p) == 1
  {
    if k == 0 {
      CountOnce(lists[0], p);
      assert forall j :: 0 <= j < |lists[1..]| ==> p !in lists[1..][j];
      CountAllNone(lists[1..], p);
    } else {
      assert p !in lists[0];
      CountAllOnce(lists[1..], p, k - 1);
    }
  }

  lemma {:induction false} CountOnce(list: seq<nat>, p: nat)
    requires NoDup(list) && p in list
    ensures Count(list, p) == 1
  {
    var i :| 0 <= i < |list| && list[i] == p;
    assert list == list[..i] + [p] + list[i + 1..];
    assert p !in list[..i] && p !in list[i + 1..];
  }

  /** Every page from 1 on is on exactly one list exactly once, page 0 on none, and the free count
      is the length of the free lists. */
  lemma PagesArePartitioned(c: Config, states: seq<State>, steps: seq<Step>, i: nat, p: nat)
    requires c.Valid() && IsRun(c, states, steps) && i < |states| && p < |states[i].pages|
    ensures var s := states[i];
      && Count(s.freelist, p) + CountAll(s.freeBuckets, p) + CountAll(s.buckets, p) == (if p == 0 then 0 else 1)
      && s.pageFree == |s.freelist| + Total(s.freeBuckets)
  {
    RunKeepsInv(c, states, steps, i);
    hide Inv;
    FreeCount(c, states[i]);
    PlacedOnce(c, states[i], p);
  }

  lemma FreeCount(c: Config, s: State)
    requires Inv(c, s)
    ensures s.pageFree == |s.freelist| + Total(s.freeBuckets)
  {}

  lemma PlacedOnce(c: Config, s: State, p: nat)
    requires Inv(c, s) && p < |s.pages|
    ensures Count(s.freelist, p) + CountAll(s.freeBuckets, p) + CountAll(s.buckets, p) == (if p == 0 then 0 else 1)
  {
    hide c.Apart, PagesOk, VersionsDiffer, BuffersOk, WritesOk, IosOk, ProgressOk, WritersOk, RecordsOk;
    hide RefcountsOk, ReadsOk, MaintOk, Count, CountAll, NoDup, Total;
    var free, fb, b := s.pages[p].free, c.freeBucket[p], s.pages[p].bucket;
    forall k | 0 <= k < |s.buckets|
      ensures p == 0 || free || k != b ==> p !in s.buckets[k]
      ensures p == 0 || !free || k != fb ==> p !in s.freeBuckets[k]
    {
      assert OnBucket(c, s.pages, s.buckets[k], k) && OnFreeList(c, s.pages, s.freeBuckets[k], k);
    }
    assert p == 0 || !free || fb != 0 ==> p !in s.freelist;
    if p > 0 {
      assert Listed(c, s.pages, s.freelist, s.freeBuckets, s.buckets, p);
    }
    PlaceCounts(s.freelist, s.freeBuckets, s.buckets, p, p > 0 && free && fb == 0, p > 0 && free && fb != 0, fb,
                p > 0 && !free, b);
  }

  lemma PlaceCounts(list: seq<nat>, frees: seq<seq<nat>>, stacks: seq<seq<nat>>, p: nat,
                    inList: bool, inFrees: bool, fb: nat, inStacks: bool, b: nat)
    requires if inList then NoDup(list) && p in list else p !in list
    requires if inFrees then && fb < |frees| && NoDup(frees[fb]) && p in frees[fb]
                             && forall k :: 0 <= k < |frees| && k != fb ==> p !in frees[k]
             else forall k :: 0 <= k < |frees| ==> p !in frees[k]
    requires if inStacks then && b < |stacks| && NoDup(stacks[b]) && p in stacks[b]
                              && forall k :: 0 <= k < |stacks| && k != b ==> p !in stacks[k]
             else forall k :: 0 <= k < |stacks| ==> p !in stacks[k]
    ensures Count(list, p) + CountAll(frees, p) + CountAll(stacks, p)
         == (if inList then 1 else 0) + (if inFrees then 1 else 0) + (if inStacks then 1 else 0)
  {
    if inList {
      CountOnce(list, p);
    }
    hide NoDup;
    if inFrees {
      CountAllOnce(frees, p, fb);
    } else {
      CountAllNone(frees, p);
    }
    if inStacks {
      CountAllOnce(stacks, p, b);
    } else {
      CountAllNone(stacks, p);
    }
  }

  /** Only the page on top of a bucket's stack can have space left, and pages in use differ in
      version. */
  lemma OnlyTopsAreOpen(c: Config, states: seq<State>, steps: seq<Step>, i: nat, b: nat, k: nat)
    requires c.Valid() && IsRun(c, states, steps) && i < |states| && b < |states[i].buckets| &&
      1 <= k < |states[i].buckets[b]|
    ensures var s := states[i]; s.buckets[b][k] < |s.pages| && s.pages[s.buckets[b][k]].alloc == c.pageSize
    ensures VersionsDiffer(states[i].pages)
  {
    RunKeepsInv(c, states, steps, i);
    assert OnBucket(c, states[i].pages, states[i].buckets[b], b);
  }
}
