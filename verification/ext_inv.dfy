/** The invariants of the engine, each over just the fields it speaks about. */
module ExtstoreInv {
  import opened Common
  import opened Extstore

  function Total(lists: seq<seq<nat>>): nat {
    if lists == [] then 0 else |lists[0]| + Total(lists[1..])
  }

  // ----- Each page by itself

  /** How a page's counters, flags and buffer fit together.  A page fills front to back, one buffer
      at a time, and stops being active exactly when all of it is written. */
  ghost predicate PageOk(c: Config, page: Page, wbufs: seq<Wbuf>, version: nat)
    requires c.wbufSize > 0
  {
    && page.alloc <= c.pageSize && page.written % c.wbufSize == 0
    && (page.free ==> page.version == 0 && page.written == 0 && !page.active && page.wbuf.None?)
    && (!page.free ==> 1 <= page.version < version)
    && (page.wbuf.None? ==> page.alloc == page.written)
    && (page.wbuf.Some? ==>
          && page.active && page.wbuf.value < |wbufs|
          && wbufs[page.wbuf.value].offset == page.written
          && page.alloc == page.written + c.wbufSize)
    && (page.active ==> page.written < c.pageSize)
    && (!page.free && !page.active ==> page.written == c.pageSize)
  }

  ghost predicate PagesOk(c: Config, pages: seq<Page>, wbufs: seq<Wbuf>, version: nat)
    requires c.wbufSize > 0
  {
    && (forall p :: 0 <= p < |pages| ==> PageOk(c, pages[p], wbufs, version))
    && (|pages| > 0 ==> pages[0].free)
  }

  /** No two pages in use carry the same version. */
  ghost predicate VersionsDiffer(pages: seq<Page>) {
    forall p, q :: 0 <= p < q < |pages| && !pages[p].free && !pages[q].free ==> pages[p].version != pages[q].version
  }

  // ----- Free lists and bucket stacks

  ghost predicate OnFreeList(c: Config, pages: seq<Page>, list: seq<nat>, fb: nat)
    requires |pages| == |c.freeBucket|
  {
    NoDup(list) &&
    forall i :: 0 <= i < |list| ==> 0 < list[i] < |pages| && pages[list[i]].free && c.freeBucket[list[i]] == fb
  }

  ghost predicate OnBucket(c: Config, pages: seq<Page>, list: seq<nat>, b: nat) {
    && NoDup(list)
    && (forall i :: 0 <= i < |list| ==> 0 < list[i] < |pages| && !pages[list[i]].free && pages[list[i]].bucket == b)
    && (forall i :: 1 <= i < |list| ==> pages[list[i]].alloc == c.pageSize)
  }

  /** Every page but page 0 is on exactly one list: its free list while free, its bucket's stack
      while in use. */
  ghost predicate Partitioned(c: Config, pages: seq<Page>, freelist: seq<nat>, freeBuckets: seq<seq<nat>>,
                              buckets: seq<seq<nat>>)
    requires |pages| == |c.freeBucket|
  {
    && |freeBuckets| == |buckets| == c.bucketCount
    && OnFreeList(c, pages, freelist, 0)
    && (forall k :: 0 <= k < |freeBuckets| ==> OnFreeList(c, pages, freeBuckets[k], k))
    && (|freeBuckets| > 0 ==> freeBuckets[0] == [])
    && (forall b :: 0 <= b < |buckets| ==> OnBucket(c, pages, buckets[b], b))
    && (forall p :: 0 < p < |pages| ==> Listed(c, pages, freelist, freeBuckets, buckets, p))
  }

  ghost predicate Listed(c: Config, pages: seq<Page>, freelist: seq<nat>, freeBuckets: seq<seq<nat>>,
                         buckets: seq<seq<nat>>, p: nat)
    requires p < |pages| == |c.freeBucket|
  {
    if pages[p].free then
      if c.freeBucket[p] == 0 then p in freelist
      else c.freeBucket[p] < |freeBuckets| && p in freeBuckets[c.freeBucket[p]]
    else
      pages[p].bucket < |buckets| && p in buckets[pages[p].bucket]
  }

  // ----- Write buffers and ios

  ghost function Attached(pages: seq<Page>): set<nat> {
    set p: nat | p < |pages| && pages[p].wbuf.Some?
  }

  ghost predicate BuffersOk(c: Config, pages: seq<Page>, wbufs: seq<Wbuf>, wbufStack: seq<nat>) {
    && (forall w :: 0 <= w < |wbufs| ==> |wbufs[w].buf| == c.wbufSize && wbufs[w].used <= c.wbufSize)
    && NoDup(wbufStack)
    && (forall i :: 0 <= i < |wbufStack| ==> wbufStack[i] < |wbufs|)
    && (forall p, i :: 0 <= p < |pages| && 0 <= i < |wbufStack| ==> pages[p].wbuf != Some(wbufStack[i]))
    && (forall p, q :: 0 <= p < q < |pages| && pages[p].wbuf.Some? ==> pages[p].wbuf != pages[q].wbuf)
    && |wbufStack| + |Attached(pages)| == c.wbufCount
  }

  ghost function WritePages(writes: map<nat, WriteIo>): set<nat> {
    set io | io in writes :: writes[io].page
  }

  ghost predicate WriteOk(c: Config, pages: seq<Page>, wbufs: seq<Wbuf>, w: WriteIo) {
    && w.page < |pages| && w.wbuf < |wbufs| && pages[w.page].wbuf == Some(w.wbuf)
    && wbufs[w.wbuf].full && w.offset == wbufs[w.wbuf].offset
  }

  /** Each submitted flush belongs to the page whose full buffer it carries, and a full buffer has
      its flush submitted. */
  ghost predicate WritesOk(c: Config, pages: seq<Page>, wbufs: seq<Wbuf>, writes: map<nat, WriteIo>) {
    && (forall io :: io in writes ==> WriteOk(c, pages, wbufs, writes[io]))
    && (forall p :: 0 <= p < |pages| && pages[p].wbuf.Some? && pages[p].wbuf.value < |wbufs|
                    && wbufs[pages[p].wbuf.value].full ==>
          p in WritePages(writes))
    && (forall a, b :: a in writes && b in writes && a != b ==> writes[a].page != writes[b].page)
  }

  /** Ios are conserved, and no two of those out serve the same page. */
  ghost predicate IosOk(c: Config, writes: map<nat, WriteIo>, ioStack: seq<nat>) {
    && NoDup(ioStack)
    && (forall i :: 0 <= i < |ioStack| ==> ioStack[i] !in writes)
    && |WritePages(writes)| == |writes|
    && |ioStack| + |writes| == c.wbufCount
  }

  /** The bytes a flush has copied so far are the buffer's. */
  ghost predicate DoneOk(c: Config, wbufs: seq<Wbuf>, disk: Disk, w: WriteIo)
    requires w.page < |c.fd| == |c.base| && w.wbuf < |wbufs|
  {
    forall i :: i in w.done ==> i < |wbufs[w.wbuf].buf| && OnDisk(c, disk, w.page, w.offset + i) == wbufs[w.wbuf].buf[i]
  }

  ghost predicate ProgressOk(c: Config, wbufs: seq<Wbuf>, disk: Disk, writes: map<nat, WriteIo>) {
    |c.fd| == |c.base| &&
    forall io :: io in writes ==>
      writes[io].page < |c.fd| && writes[io].wbuf < |wbufs| && DoneOk(c, wbufs, disk, writes[io])
  }

  // ----- Writers

  ghost predicate HeadFull(c: Config, pages: seq<Page>, list: seq<nat>) {
    list != [] ==> list[0] < |pages| && pages[list[0]].alloc == c.pageSize
  }

  ghost predicate WriterOk(c: Config, pages: seq<Page>, wbufs: seq<Wbuf>, list: seq<nat>, w: Writer) {
    match w
    case Idle => true
    case Found(p, len, fb) =>
      p < |pages| && fb < c.bucketCount && ((list != [] && list[0] == p) || HeadFull(c, pages, list))
    case NeedPage(fb) =>
      fb < c.bucketCount && HeadFull(c, pages, list)
    case Holding(p, len) =>
      && p < |pages| && pages[p].wbuf.Some? && pages[p].wbuf.value < |wbufs|
      && !wbufs[pages[p].wbuf.value].full && wbufs[pages[p].wbuf.value].used + len <= c.wbufSize
  }

  ghost predicate WritersOk(c: Config, pages: seq<Page>, wbufs: seq<Wbuf>, buckets: seq<seq<nat>>,
                            writers: seq<Writer>)
  {
    && |writers| == |buckets|
    && (forall b :: 0 <= b < |writers| ==> WriterOk(c, pages, wbufs, buckets[b], writers[b]))
    && (forall a, b :: 0 <= a < b < |writers| && writers[a].Holding? && writers[b].Holding? ==>
          writers[a].page != writers[b].page)
  }

  // ----- Committed records

  ghost predicate StoredOnDisk(c: Config, page: Page, disk: Disk, rec: Record)
    requires rec.page < |c.fd| == |c.base|
  {
    rec.offset + |rec.data| <= page.written &&
    forall i :: 0 <= i < |rec.data| ==> OnDisk(c, disk, rec.page, rec.offset + i) == rec.data[i]
  }

  ghost predicate StoredInBuffer(page: Page, wbufs: seq<Wbuf>, rec: Record) {
    page.wbuf.Some? && page.wbuf.value < |wbufs| &&
    var w := wbufs[page.wbuf.value];
    page.written <= rec.offset && rec.offset + |rec.data| <= page.written + w.used <= page.written + |w.buf| &&
    forall i :: 0 <= i < |rec.data| ==> w.buf[rec.offset - page.written + i] == rec.data[i]
  }

  /** The record's bytes are where a reader will look for them. */
  ghost predicate Stored(c: Config, page: Page, wbufs: seq<Wbuf>, disk: Disk, rec: Record)
    requires rec.page < |c.fd| == |c.base|
  {
    StoredOnDisk(c, page, disk, rec) || StoredInBuffer(page, wbufs, rec)
  }

  /** The page still is the one the record was written to. */
  ghost predicate Live(page: Page, rec: Record) {
    !page.free && page.version == rec.version
  }

  ghost predicate RecordsOk(c: Config, pages: seq<Page>, wbufs: seq<Wbuf>, version: nat, disk: Disk,
                            commits: set<Record>)
  {
    |pages| == |c.fd| == |c.base| &&
    forall rec :: rec in commits ==>
      && rec.page < |pages| && 1 <= rec.version < version
      && (Live(pages[rec.page], rec) ==> Stored(c, pages[rec.page], wbufs, disk, rec))
  }

  // ----- Reads

  predicate HoldsRef(r: Read, p: nat) {
    r.rec.page == p && (r.phase.Copying? || r.phase.Called?)
  }

  ghost function Holders(lookups: map<nat, Read>, p: nat): set<nat> {
    set id | id in lookups && HoldsRef(lookups[id], p)
  }

  ghost predicate RefcountsOk(pages: seq<Page>, lookups: map<nat, Read>) {
    forall p :: 0 <= p < |pages| ==> pages[p].refcount == |Holders(lookups, p)|
  }

  /** An empty record is the one case in which a read can end in a failed assertion. */
  ghost predicate OutcomeOk(rec: Record, o: Outcome) {
    o == Miss || o == Data(rec.data) || (o == Broken && rec.data == [])
  }

  ghost predicate ReadOk(pages: seq<Page>, r: Read) {
    && r.rec.page < |pages|
    && (HoldsRef(r, r.rec.page) ==>
          && Live(pages[r.rec.page], r.rec)
          && r.rec.offset + |r.rec.data| <= pages[r.rec.page].written)
    && match r.phase
       case Queued => true
       case Copying(got) => forall i :: i in got ==> i < |r.rec.data| && got[i] == r.rec.data[i]
       case Called(o) => o == Data(r.rec.data)
       case Done(o) => OutcomeOk(r.rec, o)
  }

  ghost predicate ReadsOk(pages: seq<Page>, lookups: map<nat, Read>, commits: set<Record>) {
    forall id :: id in lookups ==> lookups[id].rec in commits && ReadOk(pages, lookups[id])
  }

  // ----- Maintenance

  /** A page picked for eviction is in use and no longer written. */
  ghost predicate Evictable(pages: seq<Page>, p: nat) {
    p < |pages| && !pages[p].free && !pages[p].active
  }

  ghost predicate MaintOk(pages: seq<Page>, m: Maint) {
    match m
    case Waiting => true
    case Scan(i, evict, low) => i <= |pages| && (low.Some? ==> low.value.0 < i && Evictable(pages, low.value.0))
    case Evict(p) => Evictable(pages, p)
  }

  // ----- All of it

  ghost predicate Inv(c: Config, s: State) {
    && c.Valid() && s.Sized(c) && s.version >= 1
    && PagesOk(c, s.pages, s.wbufs, s.version)
    && VersionsDiffer(s.pages)
    && Partitioned(c, s.pages, s.freelist, s.freeBuckets, s.buckets)
    && s.pageFree == |s.freelist| + Total(s.freeBuckets)
    && BuffersOk(c, s.pages, s.wbufs, s.wbufStack)
    && WritesOk(c, s.pages, s.wbufs, s.writes)
    && IosOk(c, s.writes, s.ioStack)
    && ProgressOk(c, s.wbufs, s.disk, s.writes)
    && WritersOk(c, s.pages, s.wbufs, s.buckets, s.writers)
    && RecordsOk(c, s.pages, s.wbufs, s.version, s.disk, s.commits)
    && RefcountsOk(s.pages, s.lookups)
    && ReadsOk(s.pages, s.lookups, s.commits)
    && MaintOk(s.pages, s.maint)
  }
}
