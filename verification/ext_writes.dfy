/** Filling, submitting, attaching and flushing write buffers keep the invariants. */
module ExtstoreWrites {
  import opened Common
  import opened Extstore
  import opened ExtstoreInv
  import opened ExtstoreSafe
  import opened ExtstoreReads
  import opened Division

  // ----- A writer moves on

  lemma WriterChange(c: Config, s: State, b: nat, w: Writer)
    requires Inv(c, s) && b < |s.writers| && WriterOk(c, s.pages, s.wbufs, s.buckets[b], w)
    requires w.Holding? ==> s.Unlocked(w.page)
    ensures Inv(c, s.WithWriter(b, w))
  {
    hide c.Apart, PagesOk, VersionsDiffer, Partitioned, BuffersOk, WritesOk, IosOk, ProgressOk, RecordsOk;
    hide RefcountsOk, ReadsOk, MaintOk, WriterOk;
  }

  // ----- Changing the bytes of one open buffer

  /** Buffers that differ in one, whose place and state stay. */
  ghost predicate Refilled(a: seq<Wbuf>, b: seq<Wbuf>, id: nat) {
    && |a| == |b| && id < |a| && b == a[id := b[id]]
    && b[id].offset == a[id].offset && |b[id].buf| == |a[id].buf|
  }

  lemma RefilledPages(c: Config, pages: seq<Page>, a: seq<Wbuf>, b: seq<Wbuf>, id: nat, version: nat)
    requires c.wbufSize > 0 && Refilled(a, b, id) && PagesOk(c, pages, a, version)
    ensures PagesOk(c, pages, b, version)
  {
    forall p | 0 <= p < |pages|
      ensures PageOk(c, pages[p], b, version)
    {
      assert PageOk(c, pages[p], a, version);
    }
  }

  lemma RefilledBuffers(c: Config, pages: seq<Page>, a: seq<Wbuf>, b: seq<Wbuf>, id: nat, wbufStack: seq<nat>)
    requires Refilled(a, b, id) && BuffersOk(c, pages, a, wbufStack) && b[id].used <= c.wbufSize
    ensures BuffersOk(c, pages, b, wbufStack)
  {
    hide Attached;
  }

  /** A submitted flush works on full buffers, so it does not see a change to an open one. */
  lemma RefilledProgress(c: Config, pages: seq<Page>, a: seq<Wbuf>, b: seq<Wbuf>, id: nat, disk: Disk,
                         writes: map<nat, WriteIo>)
    requires Refilled(a, b, id) && !a[id].full && WritesOk(c, pages, a, writes)
    requires ProgressOk(c, a, disk, writes)
    ensures ProgressOk(c, b, disk, writes)
  {
    hide WritePages, OnDisk;
    forall io | io in writes
      ensures DoneOk(c, b, disk, writes[io])
    {
      assert WriteOk(c, pages, a, writes[io]) && DoneOk(c, a, disk, writes[io]);
    }
  }

  lemma RefilledWrites(c: Config, pages: seq<Page>, a: seq<Wbuf>, b: seq<Wbuf>, id: nat, writes: map<nat, WriteIo>)
    requires Refilled(a, b, id) && a[id].full == b[id].full && WritesOk(c, pages, a, writes)
    ensures WritesOk(c, pages, b, writes)
  {
    hide WritePages;
    forall io | io in writes
      ensures WriteOk(c, pages, b, writes[io])
    {
      assert WriteOk(c, pages, a, writes[io]);
    }
  }

  /** Two pages never share a buffer. */
  lemma OwnBuffer(c: Config, pages: seq<Page>, wbufs: seq<Wbuf>, wbufStack: seq<nat>, p: nat, q: nat)
    requires BuffersOk(c, pages, wbufs, wbufStack) && p < |pages| && q < |pages| && p != q && pages[p].wbuf.Some?
    ensures pages[q].wbuf != pages[p].wbuf
  {
    hide Attached;
    if p < q {
      assert pages[p].wbuf != pages[q].wbuf;
    } else if pages[q].wbuf.Some? {
      assert pages[q].wbuf != pages[p].wbuf;
    }
  }

  lemma RefilledWriters(c: Config, s: State, b: seq<Wbuf>, p: nat)
    requires p < |s.pages| && s.pages[p].wbuf.Some? && Refilled(s.wbufs, b, s.pages[p].wbuf.value) && s.Unlocked(p)
    requires WritersOk(c, s.pages, s.wbufs, s.buckets, s.writers) && BuffersOk(c, s.pages, s.wbufs, s.wbufStack)
    ensures WritersOk(c, s.pages, b, s.buckets, s.writers)
  {
    hide BuffersOk;
    forall i | 0 <= i < |s.writers|
      ensures WriterOk(c, s.pages, b, s.buckets[i], s.writers[i])
    {
      assert WriterOk(c, s.pages, s.wbufs, s.buckets[i], s.writers[i]);
      if s.writers[i].Holding? {
        OwnBuffer(c, s.pages, s.wbufs, s.wbufStack, p, s.writers[i].page);
      }
    }
  }

  /** Records survive a change behind the used part of their page's buffer. */
  lemma RefilledRecords(c: Config, s: State, b: seq<Wbuf>, p: nat)
    requires p < |s.pages| && s.pages[p].wbuf.Some? && Refilled(s.wbufs, b, s.pages[p].wbuf.value)
    requires var id := s.pages[p].wbuf.value;
      s.wbufs[id].used <= b[id].used <= |b[id].buf| &&
        b[id].buf[..s.wbufs[id].used] == s.wbufs[id].buf[..s.wbufs[id].used]
    requires RecordsOk(c, s.pages, s.wbufs, s.version, s.disk, s.commits) && BuffersOk(c, s.pages, s.wbufs, s.wbufStack)
    ensures RecordsOk(c, s.pages, b, s.version, s.disk, s.commits)
  {
    hide BuffersOk, OnDisk;
    var id := s.pages[p].wbuf.value;
    forall rec | rec in s.commits && Live(s.pages[rec.page], rec)
      ensures Stored(c, s.pages[rec.page], b, s.disk, rec)
    {
      assert Stored(c, s.pages[rec.page], s.wbufs, s.disk, rec);
      if StoredInBuffer(s.pages[rec.page], s.wbufs, rec) {
        if rec.page != p {
          OwnBuffer(c, s.pages, s.wbufs, s.wbufStack, p, rec.page);
        } else {
          forall i | 0 <= i < |rec.data|
            ensures b[id].buf[rec.offset - s.pages[p].written + i] == rec.data[i]
          {
            var k := rec.offset - s.pages[p].written + i;
            assert b[id].buf[k] == b[id].buf[..s.wbufs[id].used][k];
            assert s.wbufs[id].buf[k] == s.wbufs[id].buf[..s.wbufs[id].used][k];
          }
        }
      }
    }
  }

  // ----- A write

  function Filled(w: Wbuf, data: seq<byte>): Wbuf
    requires w.used + |data| <= |w.buf|
  {
    w.(buf := w.buf[..w.used] + data + w.buf[w.used + |data|..], used := w.used + |data|)
  }

  /** The new record is found where the write put it. */
  lemma NewRecordStored(c: Config, page: Page, wbufs: seq<Wbuf>, disk: Disk, p: nat, data: seq<byte>)
    requires p < |c.fd| == |c.base| && page.wbuf.Some? && page.wbuf.value < |wbufs|
    requires var w := wbufs[page.wbuf.value]; w.used + |data| <= |w.buf| && w.offset == page.written
    ensures var w := wbufs[page.wbuf.value];
      Stored(c, page, wbufs[page.wbuf.value := Filled(w, data)], disk, Record(p, page.version, w.offset + w.used, data))
  {
    var w := wbufs[page.wbuf.value];
    assert StoredInBuffer(page, wbufs[page.wbuf.value := Filled(w, data)],
                          Record(p, page.version, w.offset + w.used, data));
  }

  lemma RecordsAdd(c: Config, pages: seq<Page>, wbufs: seq<Wbuf>, version: nat, disk: Disk, commits: set<Record>,
                   rec: Record)
    requires RecordsOk(c, pages, wbufs, version, disk, commits) && rec.page < |pages| && 1 <= rec.version < version
    requires Stored(c, pages[rec.page], wbufs, disk, rec)
    ensures RecordsOk(c, pages, wbufs, version, disk, commits + {rec})
  {
    hide Stored, Live;
  }

  lemma MoreCommits(pages: seq<Page>, lookups: map<nat, Read>, commits: set<Record>, rec: Record)
    requires ReadsOk(pages, lookups, commits)
    ensures ReadsOk(pages, lookups, commits + {rec})
  {}

  /** What is known of a page with a buffer. */
  lemma AttachedPage(c: Config, s: State, p: nat)
    requires Inv(c, s) && p < |s.pages| && s.pages[p].wbuf.Some?
    ensures var page := s.pages[p];
      && page.active && !page.free && page.wbuf.value < |s.wbufs|
      && s.wbufs[page.wbuf.value].offset == page.written && page.alloc == page.written + c.wbufSize <= c.pageSize
      && 1 <= page.version < s.version
  {
    hide c.Apart, VersionsDiffer, Partitioned, BuffersOk, WritesOk, IosOk, ProgressOk, WritersOk, RecordsOk;
    hide RefcountsOk, ReadsOk, MaintOk;
    assert PageOk(c, s.pages[p], s.wbufs, s.version);
  }

  lemma FillKeeps(c: Config, s: State, p: nat, data: seq<byte>)
    requires Inv(c, s) && p < |s.pages| && s.pages[p].wbuf.Some? && s.Unlocked(p) && s.pages[p].wbuf.value < |s.wbufs|
    requires var w := s.wbufs[s.pages[p].wbuf.value]; !w.full && w.used + |data| <= c.wbufSize == |w.buf|
    ensures var id := s.pages[p].wbuf.value; var w := s.wbufs[id];
      Inv(c, s.(wbufs := s.wbufs[id := Filled(w, data)],
                commits := s.commits + {Record(p, s.pages[p].version, w.offset + w.used, data)}))
  {
    hide c.Apart, PagesOk, VersionsDiffer, Partitioned, BuffersOk, WritesOk, IosOk, ProgressOk, WritersOk, RecordsOk;
    hide RefcountsOk, ReadsOk, MaintOk, Stored;
    var page, id := s.pages[p], s.pages[p].wbuf.value;
    var w := s.wbufs[id];
    var b := s.wbufs[id := Filled(w, data)];
    AttachedPage(c, s, p);
    assert Filled(w, data).buf[..w.used] == w.buf[..w.used];
    RefilledPages(c, s.pages, s.wbufs, b, id, s.version);
    RefilledBuffers(c, s.pages, s.wbufs, b, id, s.wbufStack);
    RefilledProgress(c, s.pages, s.wbufs, b, id, s.disk, s.writes);
    RefilledWrites(c, s.pages, s.wbufs, b, id, s.writes);
    RefilledWriters(c, s, b, p);
    RefilledRecords(c, s, b, p);
    NewRecordStored(c, page, s.wbufs, s.disk, p, data);
    RecordsAdd(c, s.pages, b, s.version, s.disk, s.commits, Record(p, page.version, w.offset + w.used, data));
    MoreCommits(s.pages, s.lookups, s.commits, Record(p, page.version, w.offset + w.used, data));
  }

  lemma OnlyHolder(c: Config, s: State, b: nat)
    requires Inv(c, s) && b < |s.writers| && s.writers[b].Holding?
    ensures s.WithWriter(b, Idle).Unlocked(s.writers[b].page)
  {
    hide c.Apart, PagesOk, VersionsDiffer, Partitioned, BuffersOk, WritesOk, IosOk, ProgressOk, RecordsOk;
    hide RefcountsOk, ReadsOk, MaintOk, WriterOk;
  }

  /** A write, taken apart: the lock goes, the bytes go in, the counters move. */
  lemma CommitTakenApart(c: Config, s: State, b: nat, data: seq<byte>)
    requires CanWrite(c, s, b, data) && SafeWrite(c, s, b, data)
    ensures var p := s.writers[b].page; var page := s.pages[p]; var id := page.wbuf.value; var w := s.wbufs[id];
      Commit(s, b, data)
      == s.WithWriter(b, Idle).(wbufs := s.wbufs[id := Filled(w, data)],
                                commits := s.commits + {Record(p, page.version, w.offset + w.used, data)})
          .WithPage(p, page.(bytesUsed := page.bytesUsed + |data|, objCount := page.objCount + 1))
  {}

  lemma CommitKeeps(c: Config, s: State, b: nat, data: seq<byte>)
    requires Inv(c, s) && CanWrite(c, s, b, data) && SafeWrite(c, s, b, data)
    ensures Inv(c, Commit(s, b, data))
  {
    hide Inv, Commit, Filled, s.Unlocked;
    OnlyHolder(c, s, b);
    CommitTakenApart(c, s, b, data);
    var p := s.writers[b].page;
    var page, id := s.pages[p], s.pages[p].wbuf.value;
    var w := s.wbufs[id];
    WriterChange(c, s, b, Idle);
    var s1 := s.WithWriter(b, Idle);
    FillKeeps(c, s1, p, data);
    var s2 := s1.(wbufs := s.wbufs[id := Filled(w, data)],
                  commits := s.commits + {Record(p, page.version, w.offset + w.used, data)});
    TouchKeeps(c, s2, p, page.(bytesUsed := page.bytesUsed + |data|, objCount := page.objCount + 1));
  }

  // ----- Submitting a buffer

  lemma NotYetSubmitted(c: Config, pages: seq<Page>, wbufs: seq<Wbuf>, writes: map<nat, WriteIo>, p: nat, id: nat)
    requires WritesOk(c, pages, wbufs, writes) && p < |pages| && pages[p].wbuf == Some(id) && id < |wbufs| &&
      !wbufs[id].full
    ensures p !in WritePages(writes)
  {
    forall o | o in writes
      ensures writes[o].page != p
    {
      assert WriteOk(c, pages, wbufs, writes[o]);
    }
  }

  lemma OneMorePage(writes: map<nat, WriteIo>, io: nat, w: WriteIo)
    requires io !in writes
    ensures WritePages(writes[io := w]) == WritePages(writes) + {w.page}
  {
    var t := writes[io := w];
    assert t[io].page == w.page;
    assert forall o :: o in writes ==> o in t && t[o] == writes[o];
  }

  lemma SubmitWrites(c: Config, pages: seq<Page>, a: seq<Wbuf>, b: seq<Wbuf>, writes: map<nat, WriteIo>, io: nat,
                     p: nat, id: nat)
    requires WritesOk(c, pages, a, writes) && io !in writes && Refilled(a, b, id) && !a[id].full && b[id].full
    requires p < |pages| && pages[p].wbuf == Some(id)
    requires forall q :: 0 <= q < |pages| && q != p ==> pages[q].wbuf != Some(id)
    ensures WritesOk(c, pages, b, writes[io := WriteIo(p, id, b[id].offset, {})])
  {
    var t := writes[io := WriteIo(p, id, b[id].offset, {})];
    NotYetSubmitted(c, pages, a, writes, p, id);
    OneMorePage(writes, io, WriteIo(p, id, b[id].offset, {}));
    assert forall o :: o in writes ==> writes[o].page in WritePages(writes);
    hide WritePages;
    forall o | o in t
      ensures WriteOk(c, pages, b, t[o])
    {
      if o != io {
        assert WriteOk(c, pages, a, writes[o]);
      }
    }
  }

  lemma SubmitIos(c: Config, writes: map<nat, WriteIo>, ioStack: seq<nat>, w: WriteIo)
    requires IosOk(c, writes, ioStack) && ioStack != [] && w.page !in WritePages(writes)
    ensures IosOk(c, writes[ioStack[0] := w], ioStack[1..])
  {
    OneMorePage(writes, ioStack[0], w);
    hide WritePages;
    assert |writes[ioStack[0] := w]| == |writes| + 1;
  }

  lemma NewProgress(c: Config, wbufs: seq<Wbuf>, disk: Disk, writes: map<nat, WriteIo>, io: nat, w: WriteIo)
    requires ProgressOk(c, wbufs, disk, writes) && w.done == {} && w.page < |c.fd| == |c.base| && w.wbuf < |wbufs|
    ensures ProgressOk(c, wbufs, disk, writes[io := w])
  {
    hide OnDisk;
  }

  lemma TopIsFree(c: Config, writes: map<nat, WriteIo>, ioStack: seq<nat>)
    requires IosOk(c, writes, ioStack) && ioStack != []
    ensures ioStack[0] !in writes
  {}

  lemma OthersDiffer(c: Config, s: State, p: nat)
    requires Inv(c, s) && p < |s.pages| && s.pages[p].wbuf.Some?
    ensures forall q :: 0 <= q < |s.pages| && q != p ==> s.pages[q].wbuf != s.pages[p].wbuf
  {
    hide c.Apart, PagesOk, VersionsDiffer, Partitioned, BuffersOk, WritesOk, IosOk, ProgressOk, WritersOk, RecordsOk;
    hide RefcountsOk, ReadsOk, MaintOk;
    forall q | 0 <= q < |s.pages| && q != p
      ensures s.pages[q].wbuf != s.pages[p].wbuf
    {
      OwnBuffer(c, s.pages, s.wbufs, s.wbufStack, p, q);
    }
  }

  lemma SubmitWbufKeeps(c: Config, s: State, p: nat, len: nat)
    requires Inv(c, s) && Usable(c, s, p, len) && MustFlush(c, s, p, len) && s.Unlocked(p)
    ensures Inv(c, SubmitWbuf(c, s, p))
  {
    hide c.Apart, PagesOk, VersionsDiffer, Partitioned, BuffersOk, WritesOk, IosOk, ProgressOk, WritersOk, RecordsOk;
    hide RefcountsOk, ReadsOk, MaintOk;
    var id, io := s.pages[p].wbuf.value, s.ioStack[0];
    var w := s.wbufs[id];
    var w1 := w.(buf := w.buf[..w.used] + Zeroes(c.wbufSize - w.used), full := true);
    var b := s.wbufs[id := w1];
    assert w1.buf[..w.used] == w.buf[..w.used];
    RefilledPages(c, s.pages, s.wbufs, b, id, s.version);
    RefilledBuffers(c, s.pages, s.wbufs, b, id, s.wbufStack);
    RefilledProgress(c, s.pages, s.wbufs, b, id, s.disk, s.writes);
    RefilledWriters(c, s, b, p);
    RefilledRecords(c, s, b, p);
    OthersDiffer(c, s, p);
    TopIsFree(c, s.writes, s.ioStack);
    NotYetSubmitted(c, s.pages, s.wbufs, s.writes, p, id);
    SubmitWrites(c, s.pages, s.wbufs, b, s.writes, io, p, id);
    SubmitIos(c, s.writes, s.ioStack, WriteIo(p, id, w.offset, {}));
    NewProgress(c, b, s.disk, s.writes, io, WriteIo(p, id, w.offset, {}));
  }

  // ----- Attaching a buffer

  /** Buffers fill a page evenly: while any of it is left, a whole buffer fits. */
  lemma AttachPages(c: Config, pages: seq<Page>, wbufs: seq<Wbuf>, version: nat, p: nat, id: nat, w: Wbuf)
    requires c.Valid() && PagesOk(c, pages, wbufs, version) && p < |pages| && id < |wbufs|
    requires pages[p].wbuf.None? && pages[p].active && pages[p].alloc < c.pageSize && w.offset == pages[p].alloc
    requires forall q :: 0 <= q < |pages| ==> pages[q].wbuf != Some(id)
    ensures PagesOk(c, pages[p := pages[p].(alloc := pages[p].alloc + c.wbufSize, wbuf := Some(id))], wbufs[id := w],
                    version)
  {
    hide c.Apart;
    var t := pages[p := pages[p].(alloc := pages[p].alloc + c.wbufSize, wbuf := Some(id))];
    forall q | 0 <= q < |pages|
      ensures PageOk(c, t[q], wbufs[id := w], version)
    {
      assert PageOk(c, pages[q], wbufs, version);
      if q == p {
        RoomBetween(pages[p].alloc, c.pageSize, c.wbufSize);
      }
    }
  }

  /** Pages that keep their lists: they change in what is written and buffered only. */
  ghost predicate Reused(a: seq<Page>, b: seq<Page>) {
    |a| == |b| &&
    forall p :: 0 <= p < |a| ==>
      && b[p].free == a[p].free && b[p].bucket == a[p].bucket && b[p].version == a[p].version
      && (a[p].alloc == b[p].alloc || a[p].active)
  }

  lemma ReusedLists(c: Config, s: State, pages: seq<Page>)
    requires Reused(s.pages, pages) && |s.pages| == |c.freeBucket| && VersionsDiffer(s.pages)
    requires forall p :: 0 <= p < |pages| ==> s.pages[p].alloc == pages[p].alloc || s.pages[p].alloc != c.pageSize
    requires Partitioned(c, s.pages, s.freelist, s.freeBuckets, s.buckets)
    ensures VersionsDiffer(pages) && Partitioned(c, pages, s.freelist, s.freeBuckets, s.buckets)
  {
    forall p | 0 < p < |pages|
      ensures Listed(c, pages, s.freelist, s.freeBuckets, s.buckets, p)
    {
      assert Listed(c, s.pages, s.freelist, s.freeBuckets, s.buckets, p);
    }
    forall b | 0 <= b < |s.buckets|
      ensures OnBucket(c, pages, s.buckets[b], b) && OnFreeList(c, pages, s.freeBuckets[b], b)
    {
      assert OnBucket(c, s.pages, s.buckets[b], b) && OnFreeList(c, s.pages, s.freeBuckets[b], b);
    }
  }

  lemma AttachBuffers(c: Config, pages: seq<Page>, wbufs: seq<Wbuf>, wbufStack: seq<nat>, p: nat, page: Page, w: Wbuf)
    requires BuffersOk(c, pages, wbufs, wbufStack) && wbufStack != [] && p < |pages| && pages[p].wbuf.None?
    requires page.wbuf == Some(wbufStack[0]) && w.used == 0 && w.buf == wbufs[wbufStack[0]].buf
    ensures BuffersOk(c, pages[p := page], wbufs[wbufStack[0] := w], wbufStack[1..])
  {
    assert Attached(pages[p := page]) == Attached(pages) + {p};
    assert p !in Attached(pages);
    hide Attached;
  }

  lemma AttachWrites(c: Config, pages: seq<Page>, wbufs: seq<Wbuf>, writes: map<nat, WriteIo>, p: nat, page: Page,
                     id: nat, w: Wbuf)
    requires WritesOk(c, pages, wbufs, writes) && p < |pages| && id < |wbufs| && pages[p].wbuf.None?
    requires page.wbuf == Some(id) && !w.full
    requires forall q :: 0 <= q < |pages| ==> pages[q].wbuf != Some(id)
    ensures WritesOk(c, pages[p := page], wbufs[id := w], writes)
  {
    hide WritePages;
    forall io | io in writes
      ensures WriteOk(c, pages[p := page], wbufs[id := w], writes[io])
    {
      assert WriteOk(c, pages, wbufs, writes[io]);
    }
  }

  lemma AttachProgress(c: Config, pages: seq<Page>, wbufs: seq<Wbuf>, disk: Disk, writes: map<nat, WriteIo>, id: nat,
                       w: Wbuf)
    requires ProgressOk(c, wbufs, disk, writes) && WritesOk(c, pages, wbufs, writes) && id < |wbufs|
    requires forall q :: 0 <= q < |pages| ==> pages[q].wbuf != Some(id)
    ensures ProgressOk(c, wbufs[id := w], disk, writes)
  {
    hide WritePages, OnDisk;
    forall io | io in writes
      ensures DoneOk(c, wbufs[id := w], disk, writes[io])
    {
      assert WriteOk(c, pages, wbufs, writes[io]) && DoneOk(c, wbufs, disk, writes[io]);
    }
  }

  lemma AttachWriters(c: Config, s: State, p: nat, page: Page, id: nat, w: Wbuf)
    requires WritersOk(c, s.pages, s.wbufs, s.buckets, s.writers) && p < |s.pages| && id < |s.wbufs|
    requires s.pages[p].wbuf.None? && s.pages[p].alloc != c.pageSize
    requires forall q :: 0 <= q < |s.pages| ==> s.pages[q].wbuf != Some(id)
    ensures WritersOk(c, s.pages[p := page], s.wbufs[id := w], s.buckets, s.writers)
  {
    forall b | 0 <= b < |s.writers|
      ensures WriterOk(c, s.pages[p := page], s.wbufs[id := w], s.buckets[b], s.writers[b])
    {
      assert WriterOk(c, s.pages, s.wbufs, s.buckets[b], s.writers[b]);
    }
  }

  lemma AttachRecords(c: Config, s: State, p: nat, page: Page, id: nat, w: Wbuf)
    requires RecordsOk(c, s.pages, s.wbufs, s.version, s.disk, s.commits) && p < |s.pages| && id < |s.wbufs|
    requires s.pages[p].wbuf.None? && page.written == s.pages[p].written && page.free == s.pages[p].free
    requires page.version == s.pages[p].version
    requires forall q :: 0 <= q < |s.pages| ==> s.pages[q].wbuf != Some(id)
    ensures RecordsOk(c, s.pages[p := page], s.wbufs[id := w], s.version, s.disk, s.commits)
  {
    hide OnDisk;
    forall rec | rec in s.commits && Live(s.pages[p := page][rec.page], rec)
      ensures Stored(c, s.pages[p := page][rec.page], s.wbufs[id := w], s.disk, rec)
    {
      assert Live(s.pages[rec.page], rec) && Stored(c, s.pages[rec.page], s.wbufs, s.disk, rec);
      if StoredInBuffer(s.pages[rec.page], s.wbufs, rec) {
        assert StoredInBuffer(s.pages[p := page][rec.page], s.wbufs[id := w], rec);
      } else {
        assert StoredOnDisk(c, s.pages[p := page][rec.page], s.disk, rec);
      }
    }
  }

  lemma ReusedReads(pages: seq<Page>, lookups: map<nat, Read>, commits: set<Record>, p: nat, page: Page)
    requires ReadsOk(pages, lookups, commits) && p < |pages|
    requires page.free == pages[p].free && page.version == pages[p].version && page.written >= pages[p].written
    ensures ReadsOk(pages[p := page], lookups, commits)
  {
    forall id | id in lookups
      ensures ReadOk(pages[p := page], lookups[id])
    {
      assert ReadOk(pages, lookups[id]);
    }
  }

  lemma ReusedMaint(pages: seq<Page>, m: Maint, p: nat, page: Page)
    requires MaintOk(pages, m) && p < |pages| && pages[p].active && page.free == pages[p].free
    ensures MaintOk(pages[p := page], m)
  {}

  lemma TopIsDetached(c: Config, pages: seq<Page>, wbufs: seq<Wbuf>, wbufStack: seq<nat>)
    requires BuffersOk(c, pages, wbufs, wbufStack) && wbufStack != []
    ensures wbufStack[0] < |wbufs| && forall q :: 0 <= q < |pages| ==> pages[q].wbuf != Some(wbufStack[0])
  {
    hide Attached;
  }

  lemma AllocateWbufKeeps(c: Config, s: State, p: nat)
    requires Inv(c, s) && p < |s.pages| && s.pages[p].wbuf.None? && s.pages[p].active && s.pages[p].alloc < c.pageSize
    requires s.wbufStack != [] ==> s.wbufStack[0] < |s.wbufs|
    ensures Inv(c, AllocateWbuf(c, s, p))
  {
    hide c.Apart, PagesOk, VersionsDiffer, Partitioned, BuffersOk, WritesOk, IosOk, ProgressOk, WritersOk, RecordsOk;
    hide RefcountsOk, ReadsOk, MaintOk;
    if s.wbufStack != [] {
      var id, page := s.wbufStack[0], s.pages[p];
      var w, page1 := s.wbufs[id].(offset := page.alloc, used := 0, full := false),
        page.(alloc := page.alloc + c.wbufSize, wbuf := Some(id));
      var pages := s.pages[p := page1];
      TopIsDetached(c, s.pages, s.wbufs, s.wbufStack);
      AttachPages(c, s.pages, s.wbufs, s.version, p, id, w);
      ReusedLists(c, s, pages);
      AttachBuffers(c, s.pages, s.wbufs, s.wbufStack, p, page1, w);
      AttachWrites(c, s.pages, s.wbufs, s.writes, p, page1, id, w);
      AttachProgress(c, s.pages, s.wbufs, s.disk, s.writes, id, w);
      AttachWriters(c, s, p, page1, id, w);
      AttachRecords(c, s, p, page1, id, w);
      RefcountsKept(s.pages, pages, s.lookups);
      ReusedReads(s.pages, s.lookups, s.commits, p, page1);
      ReusedMaint(s.pages, s.maint, p, page1);
    }
  }

  // ----- The locked section of a write request

  lemma FoundPage(c: Config, s: State, b: nat)
    requires Inv(c, s) && CanLock(c, s, b)
    ensures WriterOk(c, s.pages, s.wbufs, s.buckets[b], s.writers[b])
    ensures s.writers[b].page < |s.pages| && PageOk(c, s.pages[s.writers[b].page], s.wbufs, s.version)
  {
    hide c.Apart, VersionsDiffer, Partitioned, BuffersOk, WritesOk, IosOk, ProgressOk, RecordsOk;
    hide RefcountsOk, ReadsOk, MaintOk, WriterOk, PageOk;
    assert WriterOk(c, s.pages, s.wbufs, s.buckets[b], s.writers[b]);
    assert s.writers[b].page < |s.pages| by {
      WriterPage(c, s.pages, s.wbufs, s.buckets[b], s.writers[b]);
    }
  }

  lemma WriterPage(c: Config, pages: seq<Page>, wbufs: seq<Wbuf>, list: seq<nat>, w: Writer)
    requires WriterOk(c, pages, wbufs, list, w) && w.Found?
    ensures w.page < |pages| && w.freeBucket < c.bucketCount &&
      ((list != [] && list[0] == w.page) || HeadFull(c, pages, list))
  {}

  /** A full page that heads its bucket has all its space handed out. */
  lemma FullIsAllocated(c: Config, s: State, p: nat, b: nat)
    requires Inv(c, s) && p < |s.pages| && b < c.bucketCount
    requires s.pages[p].wbuf.Some? ==> s.pages[p].wbuf.value < |s.wbufs|
    requires PageIsFull(c, s, s.pages[p]) && s.buckets[b] != [] && s.buckets[b][0] == p
    ensures s.pages[p].alloc == c.pageSize
  {
    hide c.Apart, VersionsDiffer, BuffersOk, WritesOk, IosOk, ProgressOk, RecordsOk, WritersOk;
    hide RefcountsOk, ReadsOk, MaintOk;
    assert PageOk(c, s.pages[p], s.wbufs, s.version);
    assert OnBucket(c, s.pages, s.buckets[b], b);
  }

  lemma RetryKeeps(c: Config, s: State, b: nat)
    requires Inv(c, s) && CanLock(c, s, b) && SafeLock(c, s, b) && PageIsFull(c, s, s.pages[s.writers[b].page])
    ensures Inv(c, s.WithWriter(b, NeedPage(s.writers[b].freeBucket)))
  {
    hide Inv, PageOk, PageIsFull, s.Unlocked;
    var w := s.writers[b];
    FoundPage(c, s, b);
    if s.buckets[b] != [] && s.buckets[b][0] == w.page {
      FullIsAllocated(c, s, w.page, b);
    }
    WriterChange(c, s, b, NeedPage(w.freeBucket));
  }

  lemma PrepareKeeps(c: Config, s: State, p: nat, len: nat)
    requires Inv(c, s) && Usable(c, s, p, len) && s.Unlocked(p) && s.pages[p].active
    ensures Inv(c, Prepare(c, s, p, len))
    ensures Prepare(c, s, p, len).writers == s.writers && Prepare(c, s, p, len).buckets == s.buckets
    ensures p < |Prepare(c, s, p, len).pages|
  {
    hide Inv, s.Unlocked;
    if MustFlush(c, s, p, len) {
      SubmitWbufKeeps(c, s, p, len);
    } else if s.pages[p].wbuf.None? && s.pages[p].alloc < c.pageSize {
      AllocateWbufKeeps(c, s, p);
    }
  }

  lemma BufferInRange(c: Config, s: State, p: nat)
    requires Inv(c, s) && p < |s.pages|
    ensures s.pages[p].wbuf.Some? ==> s.pages[p].wbuf.value < |s.wbufs|
  {
    hide c.Apart, VersionsDiffer, Partitioned, BuffersOk, WritesOk, IosOk, ProgressOk, RecordsOk, WritersOk;
    hide RefcountsOk, ReadsOk, MaintOk;
    assert PageOk(c, s.pages[p], s.wbufs, s.version);
  }

  lemma LockKeeps(c: Config, s: State, b: nat)
    requires Inv(c, s) && CanLock(c, s, b) && SafeLock(c, s, b)
    ensures Inv(c, Lock(c, s, b))
  {
    hide Inv, Prepare;
    var w := s.writers[b];
    if PageIsFull(c, s, s.pages[w.page]) {
      RetryKeeps(c, s, b);
    } else {
      var s1 := Prepare(c, s, w.page, w.len);
      PrepareKeeps(c, s, w.page, w.len);
      BufferInRange(c, s1, w.page);
      var next := if HasRoom(c, s1, w.page, w.len) then Holding(w.page, w.len) else Idle;
      WriterChange(c, s1, b, next);
    }
  }
}
