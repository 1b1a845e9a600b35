/** Start-up of the external store: the checks on its sizes and the spreading of pages over files. */
module ExtstoreConfig {
  import opened Common
  import opened Extstore

  datatype File = File(pageCount: nat, freeBucket: nat)

  datatype Error = BadWbufSize | NeedMoreWbuf | NeedMoreBuckets | PageWbufAlignment | TooManyPages

  datatype Result<T> = Ok(value: T) | Err(error: Error)

  const ALIGNMENT: nat := 1024 * 1024 * 2
  const UINT16_MAX: nat := 65535

  lemma {:induction false} SumPositive(counts: seq<nat>) returns (k: nat)
    requires Sum(counts) > 0
    ensures k < |counts| && counts[k] > 0
  {
    if counts[0] > 0 {
      k := 0;
    } else {
      var j := SumPositive(counts[1..]);
      k := j + 1;
    }
  }

  /** How many steps the search for the next file takes from `f` to `g`, going round. */
  function Distance(f: int, g: nat, n: nat): nat
    requires -1 <= f < n && g < n
  {
    if f < g then g - f else g + n - f
  }

  /** The first file with pages left, going round from the one after `f`; -1 is before the first. */
  method NextFile(left: seq<nat>, f: int) returns (g: nat)
    requires Sum(left) > 0 && -1 <= f < |left|
    ensures g < |left| && left[g] > 0
    ensures forall k :: 0 <= k < |left| && Distance(f, k, |left|) < Distance(f, g, |left|) ==> left[k] == 0
  {
    ghost var goal := SumPositive(left);
    ghost var walked := 0;
    var at := f;
    while true
      invariant -1 <= at < |left| && (walked == 0 ==> at == f)
      invariant walked > 0 ==> at >= 0 && Distance(f, at, |left|) == walked
      invariant forall k :: 0 <= k < |left| && Distance(f, k, |left|) <= walked ==> left[k] == 0
      decreases Distance(f, goal, |left|) - walked
    {
      if at == -1 || at == |left| - 1 {
        at := 0;
      } else {
        at := at + 1;
      }
      walked := walked + 1;
      if left[at] > 0 {
        return at;
      }
    }
  }

  /** Pages placed so far: those of one file stand side by side from its start, in order. */
  ghost predicate Placed(fd: seq<nat>, base: seq<nat>, next: seq<nat>, pageSize: nat) {
    && |fd| == |base|
    && (forall p :: 0 <= p < |fd| ==> fd[p] < |next| && base[p] + pageSize <= next[fd[p]])
    && (forall p, q :: 0 <= p < q < |fd| && fd[p] == fd[q] ==> base[p] + pageSize <= base[q])
  }

  lemma NothingPlaced(files: seq<File>, counts: seq<nat>, next: seq<nat>, pageSize: nat)
    requires |counts| == |files| == |next|
    requires forall f :: 0 <= f < |files| ==> counts[f] == files[f].pageCount && next[f] == 0
    ensures Placed([], [], next, pageSize) && Tallied(files, counts, next, [], pageSize)
  {}

  lemma PlacedOneMore(fd: seq<nat>, base: seq<nat>, next: seq<nat>, pageSize: nat, f: nat)
    requires Placed(fd, base, next, pageSize) && f < |next|
    ensures Placed(fd + [f], base + [next[f]], next[f := next[f] + pageSize], pageSize)
  {}

  /** Each file's next free place is its number of placed pages times the page size. */
  ghost predicate Tallied(files: seq<File>, left: seq<nat>, next: seq<nat>, fd: seq<nat>, pageSize: nat) {
    && |left| == |next| == |files|
    && forall f: nat :: f < |files| ==>
        && multiset(fd)[f] + left[f] == files[f].pageCount
        && next[f] == pageSize * multiset(fd)[f]
  }

  lemma TalliedOneMore(files: seq<File>, left: seq<nat>, next: seq<nat>, fd: seq<nat>, pageSize: nat, f: nat)
    requires Tallied(files, left, next, fd, pageSize) && f < |files| && left[f] > 0
    ensures Tallied(files, left[f := left[f] - 1], next[f := next[f] + pageSize], fd + [f], pageSize)
  {
    assert multiset(fd + [f]) == multiset(fd) + multiset{f};
    var n := multiset(fd)[f];
    assert pageSize * (n + 1) == pageSize * n + pageSize;
  }

  lemma {:induction false} NoneLeft(counts: seq<nat>)
    requires Sum(counts) == 0
    ensures forall k :: 0 <= k < |counts| ==> counts[k] == 0
  {
    if counts != [] {
      NoneLeft(counts[1..]);
      forall k | 0 <= k < |counts|
        ensures counts[k] == 0
      {
        if k > 0 {
          assert counts[k] == counts[1..][k - 1];
        }
      }
    }
  }

  /** The first file with pages, to which page 0 goes. */
  ghost predicate First(files: seq<File>, f: nat)
    requires f < |files|
  {
    files[f].pageCount > 0 && forall g :: 0 <= g < f ==> files[g].pageCount == 0
  }

  /** Deals the pages out to the files in turn. */
  method PlacePages(files: seq<File>, counts: seq<nat>, pageSize: nat)
    returns (fd: seq<nat>, base: seq<nat>, freeBucket: seq<nat>)
    requires |counts| == |files| && forall f :: 0 <= f < |files| ==> counts[f] == files[f].pageCount
    ensures |fd| == |base| == |freeBucket| == Sum(counts)
    ensures forall p :: 0 <= p < |fd| ==>
      fd[p] < |files| && freeBucket[p] == files[fd[p]].freeBucket && base[p] + pageSize <= pageSize * counts[fd[p]]
    ensures forall p, q :: 0 <= p < q < |fd| && fd[p] == fd[q] ==> base[p] + pageSize <= base[q]
    ensures forall f: nat :: f < |files| ==> multiset(fd)[f] == counts[f]
    ensures |fd| > 0 ==> First(files, fd[0])
  {
    hide Sum, Placed, Tallied;
    fd, base, freeBucket := [], [], [];
    var left: seq<nat>, next: seq<nat> := counts, seq(|files|, _ => 0);
    NothingPlaced(files, counts, next, pageSize);
    var f := -1;
    var i := 0;
    var n := Sum(counts);
    while i < n
      invariant i <= n && |fd| == |base| == |freeBucket| == i && -1 <= f < |files| && Sum(left) == n - i
      invariant |left| == |next| == |files|
      invariant Placed(fd, base, next, pageSize) && Tallied(files, left, next, fd, pageSize)
      invariant forall p :: 0 <= p < |fd| ==> fd[p] < |files| && freeBucket[p] == files[fd[p]].freeBucket
      invariant if i == 0 then f == -1 && left == counts else First(files, fd[0])
    {
      var g := NextFile(left, f);
      f := g;
      SumUpdate(left, g, left[g] - 1);
      PlacedOneMore(fd, base, next, pageSize, g);
      TalliedOneMore(files, left, next, fd, pageSize, g);
      left := left[g := left[g] - 1];
      fd := fd + [g];
      base := base + [next[g]];
      freeBucket := freeBucket + [files[g].freeBucket];
      next := next[g := next[g] + pageSize];
      i := i + 1;
    }
    NoneLeft(left);
    PlacedAll(files, left, next, fd, base, pageSize);
  }

  lemma PlacedAll(files: seq<File>, left: seq<nat>, next: seq<nat>, fd: seq<nat>, base: seq<nat>, pageSize: nat)
    requires Placed(fd, base, next, pageSize) && Tallied(files, left, next, fd, pageSize)
    requires forall k :: 0 <= k < |left| ==> left[k] == 0
    ensures forall p :: 0 <= p < |fd| ==> fd[p] < |files| && base[p] + pageSize <= pageSize * files[fd[p]].pageCount
    ensures forall p, q :: 0 <= p < q < |fd| && fd[p] == fd[q] ==> base[p] + pageSize <= base[q]
    ensures forall f: nat :: f < |files| ==> multiset(fd)[f] == files[f].pageCount
  {}

  function Counts(files: seq<File>): (s: seq<nat>)
    ensures |s| == |files| && forall f :: 0 <= f < |files| ==> s[f] == files[f].pageCount
  {
    seq(|files|, f requires 0 <= f < |files| => files[f].pageCount)
  }

  /** What the checks do not ask for although the engine needs it: that pages have a size, and that the
      files' pages return to free lists that exist.  Page 0 is on no list. */
  ghost predicate Workable(files: seq<File>, pageSize: nat, buckets: nat) {
    pageSize > 0 &&
    forall f :: 0 <= f < |files| && files[f].pageCount > (if First(files, f) then 1 else 0) ==>
      files[f].freeBucket < buckets
  }

  lemma ValidIfWorkable(files: seq<File>, c: Config)
    requires c.wbufSize > 0 && c.pageSize % c.wbufSize == 0 && 1 <= c.bucketCount <= c.wbufCount
    requires |c.fd| == |c.base| == |c.freeBucket|
    requires forall p :: 0 <= p < |c.fd| ==> c.fd[p] < |files| && c.freeBucket[p] == files[c.fd[p]].freeBucket
    requires forall p, q :: 0 <= p < q < |c.fd| && c.fd[p] == c.fd[q] ==> c.base[p] + c.pageSize <= c.base[q]
    requires forall f: nat :: f < |files| ==> multiset(c.fd)[f] == files[f].pageCount
    requires |c.fd| > 0 ==> First(files, c.fd[0])
    ensures c.Valid() <==> Workable(files, c.pageSize, c.bucketCount)
  {
    assert c.Apart();
    forall p | 0 < p < |c.fd|
      ensures files[c.fd[p]].pageCount > if First(files, c.fd[p]) then 1 else 0
    {
      RestOfPages(files, c.fd, c.fd[p]);
      assert c.fd[1..][p - 1] == c.fd[p];
    }
    forall f: nat | f < |files| && files[f].pageCount > (if First(files, f) then 1 else 0)
      ensures c.Valid() ==> files[f].freeBucket < c.bucketCount
    {
      RestOfPages(files, c.fd, f);
      var p :| 0 <= p < |c.fd[1..]| && c.fd[1..][p] == f;
      assert c.fd[p + 1] == f;
    }
  }

  /** A file has pages other than page 0 exactly if it has more than the one it may have of that. */
  lemma RestOfPages(files: seq<File>, fd: seq<nat>, f: nat)
    requires f < |files| && (forall p :: 0 <= p < |fd| ==> fd[p] < |files|)
    requires multiset(fd)[f] == files[f].pageCount && (|fd| > 0 ==> First(files, fd[0]))
    ensures |fd| > 0 ==> (f in fd[1..] <==> files[f].pageCount > if First(files, f) then 1 else 0)
    ensures |fd| == 0 ==> files[f].pageCount == 0
  {
    if |fd| > 0 {
      assert fd == [fd[0]] + fd[1..];
      assert multiset(fd) == multiset{fd[0]} + multiset(fd[1..]);
      assert f in fd[1..] <==> multiset(fd[1..])[f] > 0;
    }
  }

  /** The checks in their order, then the placement.  What is accepted is a configuration under which
      all of the engine's invariants hold from the start, exactly if it is workable. */
  method Configure(files: seq<File>, pageSize: nat, wbufSize: nat, buckets: nat, wbufCount: nat)
    returns (r: Result<Config>)
    requires wbufSize > 0
    ensures r == Err(BadWbufSize) <==> pageSize % wbufSize != 0
    ensures r == Err(NeedMoreWbuf) <==> pageSize % wbufSize == 0 && buckets > wbufCount
    ensures r == Err(NeedMoreBuckets) <==> pageSize % wbufSize == 0 && buckets <= wbufCount && buckets < 1
    ensures r == Err(PageWbufAlignment) <==>
      pageSize % wbufSize == 0 && 1 <= buckets <= wbufCount && (pageSize % 0x20_0000 != 0 || wbufSize % 0x20_0000 != 0)
    ensures r == Err(TooManyPages) <==>
      && pageSize % wbufSize == 0 && 1 <= buckets <= wbufCount && pageSize % 0x20_0000 == 0 && wbufSize % 0x20_0000 == 0
      && Sum(Counts(files)) >= 65535
    ensures r.Ok? ==> r.value.PageCount() == Sum(Counts(files))
    ensures r.Ok? ==> (r.value.Valid() <==> Workable(files, pageSize, buckets))
    ensures r.Ok? ==> forall f: nat :: f < |files| ==> multiset(r.value.fd)[f] == files[f].pageCount
    ensures r.Ok? ==> r.value.pageSize == pageSize && r.value.wbufSize == wbufSize && r.value.wbufCount == wbufCount
                      && r.value.bucketCount == buckets
  {
    if pageSize % wbufSize != 0 {
      return Err(BadWbufSize);
    }
    if buckets > wbufCount {
      return Err(NeedMoreWbuf);
    }
    if buckets < 1 {
      return Err(NeedMoreBuckets);
    }
    if pageSize % ALIGNMENT != 0 || wbufSize % ALIGNMENT != 0 {
      return Err(PageWbufAlignment);
    }
    if Sum(Counts(files)) >= UINT16_MAX {
      return Err(TooManyPages);
    }
    hide Sum;
    var fd, base, freeBucket := PlacePages(files, Counts(files), pageSize);
    r := Ok(Config(pageSize, wbufSize, wbufCount, buckets, fd, base, freeBucket));
    ValidIfWorkable(files, r.value);
  }
}
