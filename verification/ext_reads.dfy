/** Disk traffic and reads keep the invariants. */
module ExtstoreReads {
  import opened Common
  import opened Extstore
  import opened ExtstoreInv
  import opened ExtstoreSafe

  // ----- A byte of a flush

  /** Bytes of distinct places in the store have distinct places on disk. */
  lemma PlacesDiffer(c: Config, p: nat, i: nat, q: nat, j: nat)
    requires c.Apart() && p < |c.fd| && q < |c.fd| && i < c.pageSize && j < c.pageSize
    requires p != q || i != j
    ensures (c.fd[p], c.base[p] + i) != (c.fd[q], c.base[q] + j)
  {}

  function Put(c: Config, disk: Disk, p: nat, i: nat, v: byte): Disk
    requires p < |c.fd| == |c.base|
  {
    disk[(c.fd[p], c.base[p] + i) := v]
  }

  /** Writing one byte of a page changes that byte and no other of any page. */
  lemma PutElsewhere(c: Config, disk: Disk, p: nat, i: nat, v: byte, q: nat, j: nat)
    requires c.Apart() && p < |c.fd| && q < |c.fd| && i < c.pageSize && j < c.pageSize
    ensures OnDisk(c, Put(c, disk, p, i, v), q, j) == if q == p && j == i then v else OnDisk(c, disk, q, j)
  {
    if q != p || j != i {
      PlacesDiffer(c, p, i, q, j);
    }
  }

  /** A flush writes the buffer right after what its page has on disk. */
  ghost predicate InRegion(c: Config, pages: seq<Page>, wbufs: seq<Wbuf>, w: WriteIo) {
    && w.page < |pages| && w.wbuf < |wbufs| && |wbufs[w.wbuf].buf| == c.wbufSize
    && pages[w.page].wbuf == Some(w.wbuf)
    && w.offset == pages[w.page].written && w.offset + c.wbufSize <= c.pageSize
  }

  ghost predicate AllInRegion(c: Config, pages: seq<Page>, wbufs: seq<Wbuf>, writes: map<nat, WriteIo>) {
    forall io :: io in writes ==> InRegion(c, pages, wbufs, writes[io])
  }

  lemma FlushRegion(c: Config, pages: seq<Page>, wbufs: seq<Wbuf>, version: nat, wbufStack: seq<nat>,
                    writes: map<nat, WriteIo>)
    requires c.wbufSize > 0 && PagesOk(c, pages, wbufs, version) && BuffersOk(c, pages, wbufs, wbufStack)
    requires WritesOk(c, pages, wbufs, writes)
    ensures AllInRegion(c, pages, wbufs, writes)
  {
    forall io | io in writes
      ensures InRegion(c, pages, wbufs, writes[io])
    {
      assert WriteOk(c, pages, wbufs, writes[io]);
      assert PageOk(c, pages[writes[io].page], wbufs, version);
    }
  }

  lemma PutKeepsDone(c: Config, pages: seq<Page>, wbufs: seq<Wbuf>, disk: Disk, v: WriteIo, i: nat, w: WriteIo,
                     done: set<nat>)
    requires c.Apart() && InRegion(c, pages, wbufs, v) && InRegion(c, pages, wbufs, w) && |pages| == |c.fd| == |c.base|
    requires i < c.wbufSize && DoneOk(c, wbufs, disk, w)
    requires done <= w.done + if w.page == v.page then {i} else {}
    ensures DoneOk(c, wbufs, Put(c, disk, v.page, v.offset + i, wbufs[v.wbuf].buf[i]), w.(done := done))
  {
    hide c.Apart, Put, OnDisk;
    var t := Put(c, disk, v.page, v.offset + i, wbufs[v.wbuf].buf[i]);
    forall j | j in done
      ensures j < c.wbufSize && OnDisk(c, t, w.page, w.offset + j) == wbufs[w.wbuf].buf[j]
    {
      PutElsewhere(c, disk, v.page, v.offset + i, wbufs[v.wbuf].buf[i], w.page, w.offset + j);
    }
  }

  lemma PutKeepsProgress(c: Config, pages: seq<Page>, wbufs: seq<Wbuf>, disk: Disk, writes: map<nat, WriteIo>, io: nat,
                         i: nat)
    requires c.Apart() && |pages| == |c.fd| && io in writes && i < c.wbufSize
    requires ProgressOk(c, wbufs, disk, writes) && AllInRegion(c, pages, wbufs, writes)
    ensures var w := writes[io];
      ProgressOk(c, wbufs, Put(c, disk, w.page, w.offset + i, wbufs[w.wbuf].buf[i]),
                 writes[io := w.(done := w.done + {i})])
  {
    hide c.Apart, Put, DoneOk;
    var v := writes[io];
    var t := writes[io := v.(done := v.done + {i})];
    forall o | o in t
      ensures DoneOk(c, wbufs, Put(c, disk, v.page, v.offset + i, wbufs[v.wbuf].buf[i]), t[o])
    {
      assert InRegion(c, pages, wbufs, writes[o]) && DoneOk(c, wbufs, disk, writes[o]);
      PutKeepsDone(c, pages, wbufs, disk, v, i, writes[o], t[o].done);
    }
  }

  lemma PutKeepsRecords(c: Config, pages: seq<Page>, wbufs: seq<Wbuf>, version: nat, disk: Disk, commits: set<Record>,
                        p: nat, k: nat, v: byte)
    requires c.Apart() && RecordsOk(c, pages, wbufs, version, disk, commits)
    requires p < |pages| && pages[p].written <= k < c.pageSize
    requires forall q :: 0 <= q < |pages| ==> pages[q].written <= c.pageSize
    ensures RecordsOk(c, pages, wbufs, version, Put(c, disk, p, k, v), commits)
  {
    hide c.Apart, Put, OnDisk;
    var t := Put(c, disk, p, k, v);
    forall rec | rec in commits && Live(pages[rec.page], rec)
      ensures Stored(c, pages[rec.page], wbufs, t, rec)
    {
      assert Stored(c, pages[rec.page], wbufs, disk, rec);
      if StoredOnDisk(c, pages[rec.page], disk, rec) {
        forall i | 0 <= i < |rec.data|
          ensures OnDisk(c, t, rec.page, rec.offset + i) == rec.data[i]
        {
          PutElsewhere(c, disk, p, k, v, rec.page, rec.offset + i);
        }
        assert StoredOnDisk(c, pages[rec.page], t, rec);
      }
    }
  }

  lemma PutKeepsWrites(c: Config, pages: seq<Page>, wbufs: seq<Wbuf>, writes: map<nat, WriteIo>, io: nat,
                       done: set<nat>)
    requires WritesOk(c, pages, wbufs, writes) && io in writes
    ensures WritesOk(c, pages, wbufs, writes[io := writes[io].(done := done)])
  {
    SamePages(writes, writes[io := writes[io].(done := done)]);
    hide WritePages;
  }

  lemma PutKeepsIos(c: Config, writes: map<nat, WriteIo>, ioStack: seq<nat>, io: nat, done: set<nat>)
    requires IosOk(c, writes, ioStack) && io in writes
    ensures IosOk(c, writes[io := writes[io].(done := done)], ioStack)
  {
    var t := writes[io := writes[io].(done := done)];
    SamePages(writes, t);
    hide WritePages;
    assert t.Keys == writes.Keys && |t| == |t.Keys| == |writes|;
  }

  lemma SamePages(a: map<nat, WriteIo>, b: map<nat, WriteIo>)
    requires a.Keys == b.Keys && forall io :: io in a ==> a[io].page == b[io].page
    ensures WritePages(a) == WritePages(b)
  {}

  lemma WrittenWithin(c: Config, pages: seq<Page>, wbufs: seq<Wbuf>, version: nat)
    requires c.wbufSize > 0 && PagesOk(c, pages, wbufs, version)
    ensures forall q :: 0 <= q < |pages| ==> pages[q].written <= pages[q].alloc <= c.pageSize
  {
    forall q | 0 <= q < |pages|
      ensures pages[q].written <= pages[q].alloc <= c.pageSize
    {
      assert PageOk(c, pages[q], wbufs, version);
    }
  }

  lemma PutKeeps(c: Config, s: State, io: nat, i: nat)
    requires Inv(c, s) && CanWriteByte(c, s, io, i) && SafeWriteByte(c, s, io, i)
    ensures Inv(c, PutByte(c, s, io, i))
  {
    hide c.Apart, PagesOk, VersionsDiffer, Partitioned, BuffersOk, WritesOk, IosOk, ProgressOk, WritersOk, RecordsOk;
    hide RefcountsOk, ReadsOk, MaintOk;
    var w := s.writes[io];
    FlushRegion(c, s.pages, s.wbufs, s.version, s.wbufStack, s.writes);
    WrittenWithin(c, s.pages, s.wbufs, s.version);
    assert InRegion(c, s.pages, s.wbufs, w);
    PutKeepsProgress(c, s.pages, s.wbufs, s.disk, s.writes, io, i);
    PutKeepsRecords(c, s.pages, s.wbufs, s.version, s.disk, s.commits, w.page, w.offset + i, s.wbufs[w.wbuf].buf[i]);
    PutKeepsWrites(c, s.pages, s.wbufs, s.writes, io, w.done + {i});
    PutKeepsIos(c, s.writes, s.ioStack, io, w.done + {i});
  }

  // ----- Reads

  lemma HoldersSame(lookups: map<nat, Read>, id: nat, r: Read, p: nat)
    requires HoldsRef(r, p) == (id in lookups && HoldsRef(lookups[id], p))
    ensures Holders(lookups[id := r], p) == Holders(lookups, p)
  {}

  lemma RefcountsSame(pages: seq<Page>, lookups: map<nat, Read>, id: nat, r: Read)
    requires RefcountsOk(pages, lookups)
    requires forall p :: 0 <= p < |pages| ==> HoldsRef(r, p) == (id in lookups && HoldsRef(lookups[id], p))
    ensures RefcountsOk(pages, lookups[id := r])
  {
    hide Holders, HoldsRef;
    forall p | 0 <= p < |pages|
      ensures pages[p].refcount == |Holders(lookups[id := r], p)|
    {
      HoldersSame(lookups, id, r, p);
    }
  }

  lemma SubmitKeeps(c: Config, s: State, id: nat, rec: Record)
    requires Inv(c, s) && CanSubmit(c, s, id, rec)
    ensures Inv(c, Submit(s, id, rec))
  {
    hide c.Apart, PagesOk, VersionsDiffer, Partitioned, BuffersOk, WritesOk, IosOk, ProgressOk, WritersOk;
    hide RefcountsOk, MaintOk;
    RefcountsSame(s.pages, s.lookups, id, Read(rec, Queued));
  }

  lemma TakeKeeps(c: Config, s: State, id: nat, i: nat)
    requires Inv(c, s) && CanReadByte(c, s, id, i) && s.lookups[id].rec.page < |s.pages|
    ensures Inv(c, TakeByte(c, s, id, i))
  {
    hide c.Apart, PagesOk, VersionsDiffer, Partitioned, BuffersOk, WritesOk, IosOk, ProgressOk, WritersOk;
    hide RefcountsOk, MaintOk;
    var r := s.lookups[id];
    assert ReadOk(s.pages, r);
    assert Stored(c, s.pages[r.rec.page], s.wbufs, s.disk, r.rec);
    var v := OnDisk(c, s.disk, r.rec.page, r.rec.offset + i);
    assert v == r.rec.data[i];
    RefcountsSame(s.pages, s.lookups, id, r.(phase := Copying(r.phase.got[i := v])));
  }

  lemma FinishKeeps(c: Config, s: State, id: nat)
    requires Inv(c, s) && CanFinish(c, s, id)
    ensures Inv(c, Finish(c, s, id))
  {
    hide c.Apart, PagesOk, VersionsDiffer, Partitioned, BuffersOk, WritesOk, IosOk, ProgressOk, WritersOk, RecordsOk;
    hide RefcountsOk, MaintOk;
    var r := s.lookups[id];
    assert ReadOk(s.pages, r);
    var bytes := seq(|r.rec.data|, i requires 0 <= i < |r.rec.data| => r.phase.got[i]);
    assert bytes == r.rec.data;
    RefcountsSame(s.pages, s.lookups, id, r.(phase := Called(Data(bytes))));
  }

  // ----- Pages that differ in counters and the closed mark only

  ghost predicate Alike(a: seq<Page>, b: seq<Page>) {
    |a| == |b| &&
    forall p :: 0 <= p < |a| ==>
      b[p] == a[p].(refcount := b[p].refcount, closed := b[p].closed, objCount := b[p].objCount,
                    bytesUsed := b[p].bytesUsed)
  }

  lemma AlikeLists(c: Config, s: State, pages: seq<Page>)
    requires c.wbufSize > 0 && |s.pages| == |c.freeBucket| && Alike(s.pages, pages)
    requires PagesOk(c, s.pages, s.wbufs, s.version) && VersionsDiffer(s.pages)
    requires Partitioned(c, s.pages, s.freelist, s.freeBuckets, s.buckets)
    ensures PagesOk(c, pages, s.wbufs, s.version) && VersionsDiffer(pages)
    ensures Partitioned(c, pages, s.freelist, s.freeBuckets, s.buckets)
  {
    forall p | 0 <= p < |pages|
      ensures PageOk(c, pages[p], s.wbufs, s.version)
    {
      assert PageOk(c, s.pages[p], s.wbufs, s.version);
    }
    forall p | 0 < p < |pages|
      ensures Listed(c, pages, s.freelist, s.freeBuckets, s.buckets, p)
    {
      assert Listed(c, s.pages, s.freelist, s.freeBuckets, s.buckets, p);
    }
    forall b | 0 <= b < |s.buckets|
      ensures OnBucket(c, pages, s.buckets[b], b) && OnFreeList(c, pages, s.freeBuckets[b], b)
    {
      assert OnBucket(c, s.pages, s.buckets[b], b) && OnFreeList(c, s.pages, s.freeBuckets[b], b);
    }
  }

  lemma AlikeBuffers(c: Config, s: State, pages: seq<Page>)
    requires Alike(s.pages, pages) && BuffersOk(c, s.pages, s.wbufs, s.wbufStack)
    requires WritesOk(c, s.pages, s.wbufs, s.writes)
    ensures BuffersOk(c, pages, s.wbufs, s.wbufStack)
    ensures WritesOk(c, pages, s.wbufs, s.writes)
  {
    assert Attached(pages) == Attached(s.pages);
    forall io | io in s.writes
      ensures WriteOk(c, pages, s.wbufs, s.writes[io])
    {
      assert WriteOk(c, s.pages, s.wbufs, s.writes[io]);
    }
  }

  lemma AlikeWriters(c: Config, s: State, pages: seq<Page>)
    requires Alike(s.pages, pages) && WritersOk(c, s.pages, s.wbufs, s.buckets, s.writers)
    ensures WritersOk(c, pages, s.wbufs, s.buckets, s.writers)
  {
    forall b | 0 <= b < |s.writers|
      ensures WriterOk(c, pages, s.wbufs, s.buckets[b], s.writers[b])
    {
      assert WriterOk(c, s.pages, s.wbufs, s.buckets[b], s.writers[b]);
    }
  }

  lemma AlikeReads(c: Config, s: State, pages: seq<Page>)
    requires Alike(s.pages, pages)
    requires RecordsOk(c, s.pages, s.wbufs, s.version, s.disk, s.commits)
    requires ReadsOk(s.pages, s.lookups, s.commits) && MaintOk(s.pages, s.maint)
    ensures RecordsOk(c, pages, s.wbufs, s.version, s.disk, s.commits)
    ensures ReadsOk(pages, s.lookups, s.commits) && MaintOk(pages, s.maint)
  {
    forall rec | rec in s.commits && Live(pages[rec.page], rec)
      ensures Stored(c, pages[rec.page], s.wbufs, s.disk, rec)
    {
      assert Live(s.pages[rec.page], rec) && Stored(c, s.pages[rec.page], s.wbufs, s.disk, rec);
    }
    forall id | id in s.lookups
      ensures ReadOk(pages, s.lookups[id])
    {
      assert ReadOk(s.pages, s.lookups[id]);
    }
  }

  /** Such pages keep every invariant, given that reads and reference counts still fit. */
  lemma AlikeKeeps(c: Config, s: State, pages: seq<Page>, lookups: map<nat, Read>)
    requires Inv(c, s) && Alike(s.pages, pages)
    requires RefcountsOk(pages, lookups) && ReadsOk(pages, lookups, s.commits)
    ensures Inv(c, s.(pages := pages, lookups := lookups))
  {
    hide c.Apart, PagesOk, VersionsDiffer, Partitioned, BuffersOk, WritesOk, IosOk, ProgressOk, WritersOk, RecordsOk;
    hide RefcountsOk, ReadsOk, MaintOk;
    AlikeLists(c, s, pages);
    AlikeBuffers(c, s, pages);
    AlikeWriters(c, s, pages);
    AlikeReads(c, s, pages);
  }

  lemma HolderJoins(pages: seq<Page>, lookups: map<nat, Read>, id: nat, r: Read)
    requires RefcountsOk(pages, lookups) && r.rec.page < |pages| && HoldsRef(r, r.rec.page)
    requires id in lookups && lookups[id].rec == r.rec && !HoldsRef(lookups[id], r.rec.page)
    ensures var page := pages[r.rec.page];
      RefcountsOk(pages[r.rec.page := page.(refcount := page.refcount + 1)], lookups[id := r])
  {
    var t := lookups[id := r];
    forall p | 0 <= p < |pages|
      ensures |Holders(t, p)| == |Holders(lookups, p)| + if p == r.rec.page then 1 else 0
    {
      if p == r.rec.page {
        assert Holders(t, p) == Holders(lookups, p) + {id};
        assert id !in Holders(lookups, p);
      } else {
        HoldersSame(lookups, id, r, p);
      }
    }
  }

  lemma HolderLeaves(pages: seq<Page>, lookups: map<nat, Read>, id: nat, r: Read)
    requires RefcountsOk(pages, lookups) && r.rec.page < |pages| && !HoldsRef(r, r.rec.page)
    requires id in lookups && lookups[id].rec == r.rec && HoldsRef(lookups[id], r.rec.page)
    requires pages[r.rec.page].refcount > 0
    ensures var page := pages[r.rec.page];
      RefcountsOk(pages[r.rec.page := page.(refcount := page.refcount - 1)], lookups[id := r])
  {
    var t := lookups[id := r];
    forall p | 0 <= p < |pages|
      ensures |Holders(t, p)| == |Holders(lookups, p)| - if p == r.rec.page then 1 else 0
    {
      if p == r.rec.page {
        assert Holders(t, p) == Holders(lookups, p) - {id};
        assert id in Holders(lookups, p);
      } else {
        HoldersSame(lookups, id, r, p);
      }
    }
  }

  lemma ReadsUpdate(pages: seq<Page>, lookups: map<nat, Read>, commits: set<Record>, id: nat, r: Read)
    requires ReadsOk(pages, lookups, commits) && r.rec in commits && ReadOk(pages, r)
    ensures ReadsOk(pages, lookups[id := r], commits)
  {}

  lemma ReleaseKeeps(c: Config, s: State, id: nat)
    requires Inv(c, s) && CanRelease(c, s, id) && SafeRelease(c, s, id)
    ensures Inv(c, Release(c, s, id))
  {
    hide c.Apart, PagesOk, VersionsDiffer, Partitioned, BuffersOk, WritesOk, IosOk, ProgressOk, WritersOk, RecordsOk;
    hide RefcountsOk, MaintOk;
    var r := s.lookups[id];
    var page, r1 := s.pages[r.rec.page], r.(phase := Done(r.phase.outcome));
    var pages := s.pages[r.rec.page := page.(refcount := page.refcount - 1)];
    assert ReadOk(s.pages, r);
    HolderLeaves(s.pages, s.lookups, id, r1);
    AlikeReads(c, s, pages);
    ReadsUpdate(pages, s.lookups, s.commits, id, r1);
    AlikeKeeps(c, s, pages, s.lookups[id := r1]);
  }

  /** Serving a committed record from the page's buffer gives its bytes; only an empty record can
      find no buffer, or lie past it. */
  lemma BufferServes(c: Config, page: Page, wbufs: seq<Wbuf>, version: nat, disk: Disk, rec: Record)
    requires c.wbufSize > 0 && PageOk(c, page, wbufs, version) && rec.page < |c.fd| == |c.base|
    requires page.wbuf.Some? ==> |wbufs[page.wbuf.value].buf| == c.wbufSize
    requires page.active && rec.offset >= page.written && Stored(c, page, wbufs, disk, rec)
    ensures FromWbuf(c, wbufs, page, rec) == Broken <==>
            rec.data == [] && (page.wbuf.None? || rec.offset == page.written + c.wbufSize)
    ensures FromWbuf(c, wbufs, page, rec) != Broken ==> FromWbuf(c, wbufs, page, rec) == Data(rec.data)
  {
    if StoredInBuffer(page, wbufs, rec) {
      var w := wbufs[page.wbuf.value];
      if rec.offset < page.written + c.wbufSize {
        assert w.buf[rec.offset - w.offset..][..|rec.data|] == rec.data;
      }
    } else {
      assert rec.data == [];
    }
  }

  lemma ServedFromBuffer(c: Config, s: State, id: nat)
    requires Inv(c, s) && CanBegin(c, s, id) && SafeBegin(c, s, id)
    requires var page := s.pages[s.lookups[id].rec.page];
      Readable(page, s.lookups[id].rec) && page.active && s.lookups[id].rec.offset >= page.written
    ensures var rec := s.lookups[id].rec; OutcomeOk(rec, FromWbuf(c, s.wbufs, s.pages[rec.page], rec))
  {
    hide c.Apart, VersionsDiffer, Partitioned, WritesOk, IosOk, ProgressOk, WritersOk, FromWbuf;
    hide RefcountsOk, MaintOk;
    var rec := s.lookups[id].rec;
    assert PageOk(c, s.pages[rec.page], s.wbufs, s.version);
    BufferServes(c, s.pages[rec.page], s.wbufs, s.version, s.disk, rec);
  }

  lemma BeginFromDisk(c: Config, s: State, id: nat)
    requires Inv(c, s) && CanBegin(c, s, id) && SafeBegin(c, s, id)
    requires var page := s.pages[s.lookups[id].rec.page];
      Readable(page, s.lookups[id].rec) && !(page.active && s.lookups[id].rec.offset >= page.written)
    ensures Inv(c, StartRead(c, s, id))
  {
    hide c.Apart, VersionsDiffer, Partitioned, BuffersOk, WritesOk, IosOk, ProgressOk, WritersOk;
    hide RefcountsOk, MaintOk;
    var rec := s.lookups[id].rec;
    var page, r := s.pages[rec.page], Read(rec, Copying(map[]));
    assert ReadOk(s.pages, s.lookups[id]) && PageOk(c, page, s.wbufs, s.version);
    assert rec.offset + |rec.data| <= page.written by {
      assert Live(page, rec) && Stored(c, page, s.wbufs, s.disk, rec);
    }
    var pages := s.pages[rec.page := page.(refcount := page.refcount + 1)];
    HolderJoins(s.pages, s.lookups, id, r);
    AlikeReads(c, s, pages);
    ReadsUpdate(pages, s.lookups, s.commits, id, r);
    AlikeKeeps(c, s, pages, s.lookups[id := r]);
  }

  lemma EndAtOnce(c: Config, s: State, id: nat, o: Outcome)
    requires Inv(c, s) && id in s.lookups && s.lookups[id].phase.Queued? && OutcomeOk(s.lookups[id].rec, o)
    ensures Inv(c, s.(lookups := s.lookups[id := Read(s.lookups[id].rec, Done(o))]))
  {
    hide c.Apart, PagesOk, VersionsDiffer, Partitioned, BuffersOk, WritesOk, IosOk, ProgressOk, WritersOk, RecordsOk;
    hide RefcountsOk, MaintOk;
    var r := Read(s.lookups[id].rec, Done(o));
    assert ReadOk(s.pages, s.lookups[id]);
    ReadsUpdate(s.pages, s.lookups, s.commits, id, r);
    RefcountsSame(s.pages, s.lookups, id, r);
  }

  lemma BeginKeeps(c: Config, s: State, id: nat)
    requires Inv(c, s) && CanBegin(c, s, id) && SafeBegin(c, s, id)
    ensures Inv(c, StartRead(c, s, id))
  {
    hide Inv, FromWbuf;
    var rec := s.lookups[id].rec;
    var page := s.pages[rec.page];
    if !Readable(page, rec) {
      EndAtOnce(c, s, id, Miss);
    } else if page.active && rec.offset >= page.written {
      ServedFromBuffer(c, s, id);
      EndAtOnce(c, s, id, FromWbuf(c, s.wbufs, page, rec));
    } else {
      BeginFromDisk(c, s, id);
    }
  }

  // ----- Deleting, closing and the start of maintenance

  lemma RefcountsKept(a: seq<Page>, b: seq<Page>, lookups: map<nat, Read>)
    requires |a| == |b| && (forall p :: 0 <= p < |a| ==> a[p].refcount == b[p].refcount) && RefcountsOk(a, lookups)
    ensures RefcountsOk(b, lookups)
  {}

  lemma TouchKeeps(c: Config, s: State, p: nat, page: Page)
    requires Inv(c, s) && p < |s.pages|
    requires page == s.pages[p].(closed := page.closed, objCount := page.objCount, bytesUsed := page.bytesUsed)
    ensures Inv(c, s.WithPage(p, page))
  {
    hide c.Apart, PagesOk, VersionsDiffer, Partitioned, BuffersOk, WritesOk, IosOk, ProgressOk, WritersOk, RecordsOk;
    hide RefcountsOk, MaintOk, ReadsOk;
    var pages := s.pages[p := page];
    RefcountsKept(s.pages, pages, s.lookups);
    AlikeReads(c, s, pages);
    AlikeKeeps(c, s, pages, s.lookups);
  }

  lemma DeleteKeeps(c: Config, s: State, p: nat, version: nat, count: nat, bytes: nat)
    requires Inv(c, s) && CanTouch(c, s, p)
    ensures Inv(c, Delete(s, p, version, count, bytes))
  {
    hide Inv;
    var page := s.pages[p];
    TouchKeeps(c, s, p, page.(bytesUsed := Sub(page.bytesUsed, bytes), objCount := Sub(page.objCount, count)));
  }

  lemma CloseKeeps(c: Config, s: State, p: nat, version: nat)
    requires Inv(c, s) && CanTouch(c, s, p)
    ensures Inv(c, Close(s, p, version))
  {
    hide Inv;
    TouchKeeps(c, s, p, s.pages[p].(closed := true));
  }

  lemma MaintChange(c: Config, s: State, m: Maint)
    requires Inv(c, s) && MaintOk(s.pages, m)
    ensures Inv(c, s.(maint := m))
  {
    hide c.Apart, PagesOk, VersionsDiffer, Partitioned, BuffersOk, WritesOk, IosOk, ProgressOk, WritersOk, RecordsOk;
    hide RefcountsOk, ReadsOk, MaintOk;
  }

  lemma StartKeeps(c: Config, s: State)
    requires Inv(c, s) && CanStart(c, s)
    ensures Inv(c, Start(s))
  {
    hide Inv;
    MaintChange(c, s, Scan(0, s.pageFree == 0 || s.freelist == [], None));
  }
}
