/** The external store engine as a step system.  Every section that runs under a mutex is one
    step; `pwrite` and `pread` copy single bytes in any order, with other steps in between. */
module Extstore {
  import opened Common
  import opened Lists

  /** What start-up fixes: sizes, and for each page its file, its place in it and the free list it
      returns to.  List 0 is the default one. */
  datatype Config = Config(pageSize: nat, wbufSize: nat, wbufCount: nat, bucketCount: nat,
                           fd: seq<nat>, base: seq<nat>, freeBucket: seq<nat>)
  {
    function PageCount(): nat {
      |fd|
    }

    /** Distinct pages of one file do not overlap on disk. */
    ghost predicate Apart() {
      |base| == |fd| &&
      forall p, q :: 0 <= p < |fd| && 0 <= q < |fd| && p != q && fd[p] == fd[q] ==>
        base[p] + pageSize <= base[q] || base[q] + pageSize <= base[p]
    }

    ghost predicate Valid() {
      && wbufSize > 0 && pageSize > 0 && pageSize % wbufSize == 0
      && 1 <= bucketCount <= wbufCount
      && |fd| == |base| == |freeBucket|
      && Apart()
      && forall p :: 0 < p < |fd| ==> freeBucket[p] < bucketCount
    }
  }

  datatype Page = Page(version: nat, refcount: nat, alloc: nat, written: nat, bucket: nat,
                       active: bool, closed: bool, free: bool, wbuf: Option<nat>,
                       objCount: nat, bytesUsed: nat)

  /** A write buffer; `used` is the buffer size less its free count. */
  datatype Wbuf = Wbuf(buf: seq<byte>, used: nat, offset: nat, full: bool)

  /** A submitted flush: the page, the buffer and the bytes that have reached the disk. */
  datatype WriteIo = WriteIo(page: nat, wbuf: nat, offset: nat, done: set<nat>)

  /** What a completed write hands back to its caller, with the bytes it stored. */
  datatype Record = Record(page: nat, version: nat, offset: nat, data: seq<byte>)

  /** How a read ends.  `Broken` stands for a failed assertion or a copy from outside the buffer. */
  datatype Outcome = Miss | Data(bytes: seq<byte>) | Broken

  datatype Phase = Queued | Copying(got: map<nat, byte>) | Called(outcome: Outcome) | Done(outcome: Outcome)

  datatype Read = Read(rec: Record, phase: Phase)

  /** The writer of one bucket: where it is between the locked sections of a write. */
  datatype Writer =
    | Idle
    | Found(page: nat, len: nat, freeBucket: nat)
    | NeedPage(freeBucket: nat)
    | Holding(page: nat, len: nat)

  datatype Maint =
    | Waiting
    | Scan(next: nat, evict: bool, low: Option<(nat, nat)>)
    | Evict(page: nat)

  datatype State = State(
    pages: seq<Page>,
    wbufs: seq<Wbuf>,
    wbufStack: seq<nat>,
    ioStack: seq<nat>,
    writes: map<nat, WriteIo>,
    freelist: seq<nat>,
    freeBuckets: seq<seq<nat>>,
    buckets: seq<seq<nat>>,
    version: nat,
    pageFree: nat,
    disk: Disk,
    writers: seq<Writer>,
    maint: Maint,
    lookups: map<nat, Read>,
    commits: set<Record>)
  {
    /** The number of ids, buckets and pages matches the configuration. */
    predicate Sized(c: Config) {
      && |pages| == c.PageCount() == |c.base| == |c.freeBucket|
      && |wbufs| == c.wbufCount
      && |freeBuckets| == |buckets| == |writers| == c.bucketCount
    }

    /** No writer sits between its write request and its write on page `p`. */
    predicate Unlocked(p: nat) {
      forall b :: 0 <= b < |writers| ==> !(writers[b].Holding? && writers[b].page == p)
    }

    function WithPage(p: nat, page: Page): State
      requires p < |pages|
    {
      this.(pages := pages[p := page])
    }

    function WithWriter(b: nat, w: Writer): State
      requires b < |writers|
    {
      this.(writers := writers[b := w])
    }
  }

  type Disk = map<(nat, nat), byte>

  /** Byte `i` of page `p` on disk. */
  function OnDisk(c: Config, disk: Disk, p: nat, i: nat): byte
    requires p < |c.fd| == |c.base|
  {
    var k := (c.fd[p], c.base[p] + i);
    if k in disk then disk[k] else 0
  }

  function Zeroes(n: nat): (z: seq<byte>)
    ensures |z| == n
  {
    seq(n, _ => 0)
  }

  // ----- Pages

  /** Takes a page off the wanted free list, else off the default one. */
  function PopFree(s: State, fb: nat): (State, Option<nat>)
    requires fb < |s.freeBuckets|
  {
    if fb != 0 && s.freeBuckets[fb] != [] then
      (s.(freeBuckets := s.freeBuckets[fb := s.freeBuckets[fb][1..]]), Some(s.freeBuckets[fb][0]))
    else if s.freelist != [] then
      (s.(freelist := s.freelist[1..]), Some(s.freelist[0]))
    else
      (s, None)
  }

  function OpenPage(page: Page, version: nat, bucket: nat): Page {
    page.(active := true, free := false, closed := false, version := version, bucket := bucket)
  }

  function AllocatePage(s: State, b: nat, fb: nat): (State, Option<nat>)
    requires b < |s.buckets| && fb < |s.freeBuckets|
    requires var r := PopFree(s, fb); r.1.Some? ==> r.1.value < |s.pages|
  {
    var (s1, tmp) := PopFree(s, fb);
    if s1.pageFree > 0 && tmp.Some? then
      var p := tmp.value;
      (s1.(pages := s1.pages[p := OpenPage(s1.pages[p], s1.version, b)],
           buckets := s1.buckets[b := [p] + s1.buckets[b]],
           version := s1.version + 1,
           pageFree := s1.pageFree - 1),
       tmp)
    else
      (s1, tmp)
  }

  function FreedPage(page: Page): Page {
    page.(version := 0, objCount := 0, bytesUsed := 0, alloc := 0, written := 0, bucket := 0,
          active := false, closed := false, free := true)
  }

  function FreePage(c: Config, s: State, p: nat): State
    requires s.Sized(c) && p < |s.pages| && s.pages[p].bucket < |s.buckets|
    requires c.freeBucket[p] < |s.freeBuckets|
  {
    var b, fb := s.pages[p].bucket, c.freeBucket[p];
    var s1 := s.(pages := s.pages[p := FreedPage(s.pages[p])],
                 buckets := s.buckets[b := Without(s.buckets[b], p)],
                 pageFree := s.pageFree + 1);
    if fb != 0 then s1.(freeBuckets := s.freeBuckets[fb := [p] + s.freeBuckets[fb]])
    else s1.(freelist := [p] + s.freelist)
  }

  // ----- Writing

  /** The page cannot take more: it is finished, or its last buffer is full or gone. */
  predicate PageIsFull(c: Config, s: State, page: Page)
    requires page.wbuf.Some? ==> page.wbuf.value < |s.wbufs|
  {
    || !page.active
    || ((page.wbuf.None? || s.wbufs[page.wbuf.value].full) && page.alloc >= c.pageSize)
  }

  /** Hands the page's buffer to the io threads and marks it full; the unused end is cleared. */
  function SubmitWbuf(c: Config, s: State, p: nat): State
    requires p < |s.pages| && s.pages[p].wbuf.Some? && s.pages[p].wbuf.value < |s.wbufs|
    requires s.ioStack != [] && var w := s.wbufs[s.pages[p].wbuf.value]; w.used <= c.wbufSize && w.used <= |w.buf|
  {
    var id, io := s.pages[p].wbuf.value, s.ioStack[0];
    var w := s.wbufs[id];
    s.(ioStack := s.ioStack[1..],
       wbufs := s.wbufs[id := w.(buf := w.buf[..w.used] + Zeroes(c.wbufSize - w.used), full := true)],
       writes := s.writes[io := WriteIo(p, id, w.offset, {})])
  }

  function AllocateWbuf(c: Config, s: State, p: nat): State
    requires p < |s.pages| && (s.wbufStack != [] ==> s.wbufStack[0] < |s.wbufs|)
  {
    if s.wbufStack == [] then s
    else
      var id, page := s.wbufStack[0], s.pages[p];
      s.(wbufStack := s.wbufStack[1..],
         wbufs := s.wbufs[id := s.wbufs[id].(offset := page.alloc, used := 0, full := false)],
         pages := s.pages[p := page.(alloc := page.alloc + c.wbufSize, wbuf := Some(id))])
  }

  /** Room for `len` bytes in the page's open buffer. */
  predicate HasRoom(c: Config, s: State, p: nat, len: nat)
    requires p < |s.pages| && (s.pages[p].wbuf.Some? ==> s.pages[p].wbuf.value < |s.wbufs|)
  {
    s.pages[p].wbuf.Some? &&
    var w := s.wbufs[s.pages[p].wbuf.value];
    !w.full && w.used + len <= c.wbufSize
  }

  /** The open buffer does not take `len` more bytes. */
  predicate MustFlush(c: Config, s: State, p: nat, len: nat)
    requires p < |s.pages| && (s.pages[p].wbuf.Some? ==> s.pages[p].wbuf.value < |s.wbufs|)
  {
    s.pages[p].wbuf.Some? &&
    var w := s.wbufs[s.pages[p].wbuf.value];
    c.wbufSize < w.used + len && !w.full
  }

  /** What the locked part of a write request dereferences: the page's buffer, the top of the
      buffer stack and, when it flushes, the top of the io stack. */
  predicate Usable(c: Config, s: State, p: nat, len: nat) {
    && p < |s.pages|
    && (s.wbufStack != [] ==> s.wbufStack[0] < |s.wbufs|)
    && (s.pages[p].wbuf.Some? ==>
          && s.pages[p].wbuf.value < |s.wbufs|
          && var w := s.wbufs[s.pages[p].wbuf.value]; w.used <= c.wbufSize == |w.buf|)
    && (MustFlush(c, s, p, len) ==> s.ioStack != [])
  }

  /** The locked part of a write request up to the point where it is seen whether the bytes fit. */
  function Prepare(c: Config, s: State, p: nat, len: nat): State
    requires Usable(c, s, p, len)
  {
    if MustFlush(c, s, p, len) then SubmitWbuf(c, s, p)
    else if s.pages[p].wbuf.None? && s.pages[p].alloc < c.pageSize then AllocateWbuf(c, s, p)
    else s
  }

  /** Copies the caller's bytes into the open buffer and reports where they went. */
  function Commit(s: State, b: nat, data: seq<byte>): State
    requires b < |s.writers| && s.writers[b].Holding? && s.writers[b].page < |s.pages|
    requires var page := s.pages[s.writers[b].page];
      page.wbuf.Some? && page.wbuf.value < |s.wbufs| &&
      var w := s.wbufs[page.wbuf.value]; w.used + |data| <= |w.buf|
  {
    var p := s.writers[b].page;
    var page := s.pages[p];
    var w := s.wbufs[page.wbuf.value];
    s.(wbufs := s.wbufs[page.wbuf.value :=
                          w.(buf := w.buf[..w.used] + data + w.buf[w.used + |data|..], used := w.used + |data|)],
       pages := s.pages[p := page.(bytesUsed := page.bytesUsed + |data|, objCount := page.objCount + 1)],
       writers := s.writers[b := Idle],
       commits := s.commits + {Record(p, page.version, w.offset + w.used, data)})
  }

  /** The callback of a finished flush. */
  function Flushed(c: Config, s: State, io: nat): State
    requires io in s.writes && s.writes[io].page < |s.pages|
  {
    var p, id := s.writes[io].page, s.writes[io].wbuf;
    var page := s.pages[p];
    var written := page.written + c.wbufSize;
    s.(pages := s.pages[p := page.(written := written, wbuf := None,
                                   active := page.active && written != c.pageSize)],
       wbufStack := [id] + s.wbufStack,
       ioStack := [io] + s.ioStack,
       writes := s.writes - {io})
  }

  // ----- Reading

  /** The copy out of the page's buffer, with the assertions and bounds it relies on. */
  function FromWbuf(c: Config, wbufs: seq<Wbuf>, page: Page, rec: Record): Outcome
    requires page.wbuf.Some? ==> page.wbuf.value < |wbufs|
  {
    if page.wbuf.None? || rec.offset >= page.written + c.wbufSize then Broken
    else
      var w := wbufs[page.wbuf.value];
      if rec.offset < w.offset || rec.offset - w.offset + |rec.data| > |w.buf| then Broken
      else Data(w.buf[rec.offset - w.offset..][..|rec.data|])
  }

  /** The page is the one the record was written to, and still readable. */
  predicate Readable(page: Page, rec: Record) {
    !page.free && !page.closed && page.version == rec.version
  }

  function StartRead(c: Config, s: State, id: nat): State
    requires id in s.lookups && s.lookups[id].rec.page < |s.pages|
    requires var page := s.pages[s.lookups[id].rec.page]; page.wbuf.Some? ==> page.wbuf.value < |s.wbufs|
  {
    var rec := s.lookups[id].rec;
    var page := s.pages[rec.page];
    if !Readable(page, rec) then
      s.(lookups := s.lookups[id := Read(rec, Done(Miss))])
    else if page.active && rec.offset >= page.written then
      s.(lookups := s.lookups[id := Read(rec, Done(FromWbuf(c, s.wbufs, page, rec)))])
    else
      s.(lookups := s.lookups[id := Read(rec, Copying(map[]))],
         pages := s.pages[rec.page := page.(refcount := page.refcount + 1)])
  }

  // ----- Maintenance

  function LowerOf(c: Config, s: State, i: nat, low: Option<(nat, nat)>): Option<(nat, nat)>
    requires i < |s.pages| && i < |c.freeBucket|
  {
    var page := s.pages[i];
    if page.objCount > 0 && !page.closed && c.freeBucket[i] == 0 && (low.None? || page.version < low.value.1)
    then Some((i, page.version)) else low
  }

  predicate MayFree(page: Page) {
    (page.objCount == 0 || page.closed) && page.refcount == 0
  }

  function Sub(a: nat, b: nat): nat {
    if a >= b then a - b else 0
  }

  /** Version numbers are 32-bit; a run allocates fewer pages than that. */
  const VERSION_LIMIT: nat := 0x1_0000_0000

  // ----- What each step waits for, what it asserts or dereferences, and what it does

  predicate CanFind(c: Config, s: State, b: nat, fb: nat) {
    s.Sized(c) && b < c.bucketCount && fb < c.bucketCount && s.writers[b].Idle? && s.version < VERSION_LIMIT
  }

  /** The assertion of page allocation: the bucket's current page is used up.  The popped page and
      the free count must be there too. */
  predicate MayAllocate(c: Config, s: State, b: nat, fb: nat)
    requires s.Sized(c) && b < c.bucketCount && fb < c.bucketCount
  {
    && (s.buckets[b] != [] ==> s.buckets[b][0] < |s.pages| && s.pages[s.buckets[b][0]].alloc == c.pageSize)
    && var (_, tmp) := PopFree(s, fb); tmp.Some? ==> tmp.value < |s.pages| && s.pageFree > 0
  }

  predicate SafeFind(c: Config, s: State, b: nat, fb: nat)
    requires CanFind(c, s, b, fb)
  {
    if s.buckets[b] == [] then MayAllocate(c, s, b, fb) else s.buckets[b][0] < |s.pages|
  }

  /** The first section of a write request: the bucket's page, or a new one. */
  function Find(c: Config, s: State, b: nat, fb: nat, len: nat): State
    requires CanFind(c, s, b, fb) && SafeFind(c, s, b, fb)
  {
    if s.buckets[b] != [] then s.WithWriter(b, Found(s.buckets[b][0], len, fb))
    else
      var (s1, r) := AllocatePage(s, b, fb);
      if r.None? then s1 else s1.WithWriter(b, Found(r.value, len, fb))
  }

  predicate CanLock(c: Config, s: State, b: nat) {
    s.Sized(c) && b < c.bucketCount && s.writers[b].Found? && s.Unlocked(s.writers[b].page)
  }

  predicate SafeLock(c: Config, s: State, b: nat)
    requires CanLock(c, s, b)
  {
    Usable(c, s, s.writers[b].page, s.writers[b].len)
  }

  /** The second section of a write request, under the page's lock, which a success keeps. */
  function Lock(c: Config, s: State, b: nat): State
    requires CanLock(c, s, b) && SafeLock(c, s, b)
  {
    var w := s.writers[b];
    if PageIsFull(c, s, s.pages[w.page]) then s.WithWriter(b, NeedPage(w.freeBucket))
    else
      var s1 := Prepare(c, s, w.page, w.len);
      s1.WithWriter(b, if HasRoom(c, s1, w.page, w.len) then Holding(w.page, w.len) else Idle)
  }

  predicate CanGet(c: Config, s: State, b: nat) {
    s.Sized(c) && b < c.bucketCount && s.writers[b].NeedPage? && s.version < VERSION_LIMIT
  }

  predicate SafeGet(c: Config, s: State, b: nat)
    requires CanGet(c, s, b)
  {
    s.writers[b].freeBucket < c.bucketCount && MayAllocate(c, s, b, s.writers[b].freeBucket)
  }

  /** The last section of a write request that found its page full: a fresh page for next time. */
  function Get(c: Config, s: State, b: nat): State
    requires CanGet(c, s, b) && SafeGet(c, s, b)
  {
    AllocatePage(s.WithWriter(b, Idle), b, s.writers[b].freeBucket).0
  }

  predicate CanWrite(c: Config, s: State, b: nat, data: seq<byte>) {
    s.Sized(c) && b < c.bucketCount && s.writers[b].Holding? && |data| == s.writers[b].len
  }

  predicate SafeWrite(c: Config, s: State, b: nat, data: seq<byte>)
    requires CanWrite(c, s, b, data)
  {
    var p := s.writers[b].page;
    p < |s.pages| && s.pages[p].wbuf.Some? && s.pages[p].wbuf.value < |s.wbufs| &&
    var w := s.wbufs[s.pages[p].wbuf.value];
    !w.full && w.used + |data| <= c.wbufSize == |w.buf|
  }

  predicate CanWriteByte(c: Config, s: State, io: nat, i: nat) {
    s.Sized(c) && io in s.writes && i < c.wbufSize
  }

  predicate SafeWriteByte(c: Config, s: State, io: nat, i: nat)
    requires CanWriteByte(c, s, io, i)
  {
    var w := s.writes[io];
    w.page < |s.pages| && w.wbuf < |s.wbufs| && c.wbufSize == |s.wbufs[w.wbuf].buf|
  }

  /** One byte of a flush reaches the disk. */
  function PutByte(c: Config, s: State, io: nat, i: nat): State
    requires CanWriteByte(c, s, io, i) && SafeWriteByte(c, s, io, i)
  {
    var w := s.writes[io];
    s.(disk := s.disk[(c.fd[w.page], c.base[w.page] + (w.offset + i)) := s.wbufs[w.wbuf].buf[i]],
       writes := s.writes[io := w.(done := w.done + {i})])
  }

  predicate CanFlush(c: Config, s: State, io: nat) {
    && s.Sized(c) && io in s.writes && s.Unlocked(s.writes[io].page)
    && forall i: nat :: i < c.wbufSize ==> i in s.writes[io].done
  }

  /** The two assertions of the flush callback. */
  predicate SafeFlush(c: Config, s: State, io: nat)
    requires CanFlush(c, s, io)
  {
    var p, id := s.writes[io].page, s.writes[io].wbuf;
    && p < |s.pages| && id < |s.wbufs|
    && s.pages[p].wbuf == Some(id) && s.pages[p].written == s.wbufs[id].offset
  }

  predicate CanSubmit(c: Config, s: State, id: nat, rec: Record) {
    s.Sized(c) && id !in s.lookups && rec in s.commits
  }

  function Submit(s: State, id: nat, rec: Record): State {
    s.(lookups := s.lookups[id := Read(rec, Queued)])
  }

  predicate CanBegin(c: Config, s: State, id: nat) {
    s.Sized(c) && id in s.lookups && s.lookups[id].phase.Queued? && s.Unlocked(s.lookups[id].rec.page)
  }

  predicate SafeBegin(c: Config, s: State, id: nat)
    requires CanBegin(c, s, id)
  {
    var p := s.lookups[id].rec.page;
    p < |s.pages| && (s.pages[p].wbuf.Some? ==> s.pages[p].wbuf.value < |s.wbufs|)
  }

  predicate CanReadByte(c: Config, s: State, id: nat, i: nat) {
    s.Sized(c) && id in s.lookups && s.lookups[id].phase.Copying? && i < |s.lookups[id].rec.data|
  }

  /** One byte of a read comes off the disk. */
  function TakeByte(c: Config, s: State, id: nat, i: nat): State
    requires CanReadByte(c, s, id, i) && s.lookups[id].rec.page < |s.pages|
  {
    var r := s.lookups[id];
    var v := OnDisk(c, s.disk, r.rec.page, r.rec.offset + i);
    s.(lookups := s.lookups[id := r.(phase := Copying(r.phase.got[i := v]))])
  }

  predicate CanFinish(c: Config, s: State, id: nat) {
    s.Sized(c) && id in s.lookups && s.lookups[id].phase.Copying? &&
    forall i: nat :: i < |s.lookups[id].rec.data| ==> i in s.lookups[id].phase.got
  }

  /** All bytes are there and the reader's callback runs on them. */
  function Finish(c: Config, s: State, id: nat): State
    requires CanFinish(c, s, id)
  {
    var r := s.lookups[id];
    var bytes := seq(|r.rec.data|, i requires 0 <= i < |r.rec.data| => r.phase.got[i]);
    s.(lookups := s.lookups[id := r.(phase := Called(Data(bytes)))])
  }

  predicate CanRelease(c: Config, s: State, id: nat) {
    s.Sized(c) && id in s.lookups && s.lookups[id].phase.Called? && s.Unlocked(s.lookups[id].rec.page)
  }

  predicate SafeRelease(c: Config, s: State, id: nat)
    requires CanRelease(c, s, id)
  {
    s.lookups[id].rec.page < |s.pages| && s.pages[s.lookups[id].rec.page].refcount > 0
  }

  function Release(c: Config, s: State, id: nat): State
    requires CanRelease(c, s, id) && SafeRelease(c, s, id)
  {
    var r := s.lookups[id];
    var page := s.pages[r.rec.page];
    s.(lookups := s.lookups[id := r.(phase := Done(r.phase.outcome))],
       pages := s.pages[r.rec.page := page.(refcount := page.refcount - 1)])
  }

  predicate CanTouch(c: Config, s: State, p: nat) {
    s.Sized(c) && p < |s.pages| && s.Unlocked(p)
  }

  function Delete(s: State, p: nat, version: nat, count: nat, bytes: nat): State
    requires p < |s.pages|
  {
    var page := s.pages[p];
    if page.closed || page.version != version then s
    else s.WithPage(p, page.(bytesUsed := Sub(page.bytesUsed, bytes), objCount := Sub(page.objCount, count)))
  }

  function Close(s: State, p: nat, version: nat): State
    requires p < |s.pages|
  {
    var page := s.pages[p];
    if page.closed || page.version != version then s else s.WithPage(p, page.(closed := true))
  }

  predicate CanStart(c: Config, s: State) {
    s.Sized(c) && s.maint.Waiting?
  }

  function Start(s: State): State {
    s.(maint := Scan(0, s.pageFree == 0 || s.freelist == [], None))
  }

  predicate MayUnlink(c: Config, s: State, p: nat)
    requires s.Sized(c) && p < |s.pages|
  {
    s.pages[p].bucket < |s.buckets| && p in s.buckets[s.pages[p].bucket] && c.freeBucket[p] < |s.freeBuckets|
  }

  predicate CanScan(c: Config, s: State) {
    s.Sized(c) && s.maint.Scan? && (s.maint.next < |s.pages| ==> s.Unlocked(s.maint.next))
  }

  predicate SafeScan(c: Config, s: State)
    requires CanScan(c, s)
  {
    var i := s.maint.next;
    i < |s.pages| && !s.pages[i].active && !s.pages[i].free && MayFree(s.pages[i]) ==> MayUnlink(c, s, i)
  }

  /** The maintenance thread looks at one page, or ends its scan. */
  function Scanned(c: Config, s: State): State
    requires CanScan(c, s) && SafeScan(c, s)
  {
    var Scan(i, evict, low) := s.maint;
    if i >= |s.pages| then s.(maint := if evict && low.Some? then Evict(low.value.0) else Waiting)
    else
      var page := s.pages[i];
      if page.active || page.free then s.(maint := Scan(i + 1, evict, low))
      else
        var low1 := LowerOf(c, s, i, low);
        if MayFree(page) then FreePage(c, s, i).(maint := Scan(i + 1, false, low1))
        else s.(maint := Scan(i + 1, evict, low1))
  }

  predicate CanEvict(c: Config, s: State) {
    s.Sized(c) && s.maint.Evict? && s.maint.page < |s.pages| && s.Unlocked(s.maint.page)
  }

  predicate SafeEvict(c: Config, s: State)
    requires CanEvict(c, s)
  {
    var p := s.maint.page;
    !s.pages[p].closed && s.pages[p].refcount == 0 ==> MayUnlink(c, s, p)
  }

  function Evicted(c: Config, s: State): State
    requires CanEvict(c, s) && SafeEvict(c, s)
  {
    var p := s.maint.page;
    var page := s.pages[p];
    if page.closed then s.(maint := Waiting)
    else
      var s1 := s.WithPage(p, page.(closed := true)).(maint := Waiting);
      if page.refcount == 0 then FreePage(c, s1, p) else s1
  }

  // ----- Steps

  datatype Step =
    | FindPage(b: nat, fb: nat, len: nat)
    | LockPage(b: nat)
    | GetPage(b: nat)
    | Write(b: nat, data: seq<byte>)
    | WriteByte(io: nat, i: nat)
    | FlushDone(io: nat)
    | SubmitRead(id: nat, rec: Record)
    | BeginRead(id: nat)
    | ReadByte(id: nat, i: nat)
    | ReadDone(id: nat)
    | ReadRelease(id: nat)
    | DeleteObjects(p: nat, version: nat, count: nat, bytes: nat)
    | ClosePage(p: nat, version: nat)
    | MaintStart
    | MaintScan
    | MaintEvict

  predicate Enabled(c: Config, s: State, step: Step) {
    match step
    case FindPage(b, fb, len) => CanFind(c, s, b, fb)
    case LockPage(b) => CanLock(c, s, b)
    case GetPage(b) => CanGet(c, s, b)
    case Write(b, data) => CanWrite(c, s, b, data)
    case WriteByte(io, i) => CanWriteByte(c, s, io, i)
    case FlushDone(io) => CanFlush(c, s, io)
    case SubmitRead(id, rec) => CanSubmit(c, s, id, rec)
    case BeginRead(id) => CanBegin(c, s, id)
    case ReadByte(id, i) => CanReadByte(c, s, id, i)
    case ReadDone(id) => CanFinish(c, s, id)
    case ReadRelease(id) => CanRelease(c, s, id)
    case DeleteObjects(p, version, count, bytes) => CanTouch(c, s, p)
    case ClosePage(p, version) => CanTouch(c, s, p)
    case MaintStart => CanStart(c, s)
    case MaintScan => CanScan(c, s)
    case MaintEvict => CanEvict(c, s)
  }

  /** Everything the code asserts or dereferences in a step. */
  predicate Safe(c: Config, s: State, step: Step)
    requires Enabled(c, s, step)
  {
    match step
    case FindPage(b, fb, len) => SafeFind(c, s, b, fb)
    case LockPage(b) => SafeLock(c, s, b)
    case GetPage(b) => SafeGet(c, s, b)
    case Write(b, data) => SafeWrite(c, s, b, data)
    case WriteByte(io, i) => SafeWriteByte(c, s, io, i)
    case FlushDone(io) => SafeFlush(c, s, io)
    case SubmitRead(id, rec) => true
    case BeginRead(id) => SafeBegin(c, s, id)
    case ReadByte(id, i) => s.lookups[id].rec.page < |s.pages|
    case ReadDone(id) => true
    case ReadRelease(id) => SafeRelease(c, s, id)
    case DeleteObjects(p, version, count, bytes) => true
    case ClosePage(p, version) => true
    case MaintStart => true
    case MaintScan => SafeScan(c, s)
    case MaintEvict => SafeEvict(c, s)
  }

  function Apply(c: Config, s: State, step: Step): State
    requires Enabled(c, s, step) && Safe(c, s, step)
  {
    match step
    case FindPage(b, fb, len) => Find(c, s, b, fb, len)
    case LockPage(b) => Lock(c, s, b)
    case GetPage(b) => Get(c, s, b)
    case Write(b, data) => Commit(s, b, data)
    case WriteByte(io, i) => PutByte(c, s, io, i)
    case FlushDone(io) => Flushed(c, s, io)
    case SubmitRead(id, rec) => Submit(s, id, rec)
    case BeginRead(id) => StartRead(c, s, id)
    case ReadByte(id, i) => TakeByte(c, s, id, i)
    case ReadDone(id) => Finish(c, s, id)
    case ReadRelease(id) => Release(c, s, id)
    case DeleteObjects(p, version, count, bytes) => Delete(s, p, version, count, bytes)
    case ClosePage(p, version) => Close(s, p, version)
    case MaintStart => Start(s)
    case MaintScan => Scanned(c, s)
    case MaintEvict => Evicted(c, s)
  }
}
