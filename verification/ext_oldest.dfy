/** What the maintenance thread evicts: over whole runs, the oldest page among those its scan came by. */
module ExtstoreOldest {
  import opened Common
  import opened Lists
  import opened Extstore
  import opened ExtstoreInv
  import opened ExtstoreSafe
  import opened ExtstoreWrites
  import opened ExtstorePages
  import opened ExtstoreRuns
  import opened ExtstoreAccount

  /** What happened since the maintenance thread was last woken: whether the default free list was empty
      then, the pages looked at in order, those freed, and those fit for eviction with their versions. */
  datatype ScanLog = ScanLog(wanted: bool, looked: seq<nat>, freed: set<nat>, fit: set<(nat, nat)>)

  const NO_SCAN := ScanLog(false, [], {}, {})

  /** The page is in use, written in full, open, not empty, and belongs to the default free list. */
  predicate Fit(c: Config, page: Page, freeBucket: nat) {
    !page.free && page.written == c.pageSize && !page.closed && page.objCount > 0 && freeBucket == 0
  }

  ghost function Logged(c: Config, s: State, step: Step, t: State, log: ScanLog): ScanLog {
    if step.MaintStart? then ScanLog(s.freelist == [], [], {}, {})
    else if step.MaintScan? && s.maint.Scan? && s.maint.next < |s.pages| == |t.pages| == |c.freeBucket| then
      var n := s.maint.next;
      log.(looked := log.looked + [n],
           freed := log.freed + if !s.pages[n].free && t.pages[n].free then {n} else {},
           fit := log.fit + if Fit(c, s.pages[n], c.freeBucket[n]) then {(n, s.pages[n].version)} else {})
    else log
  }

  /** The log of the scan under way in state `i` of a run. */
  ghost function LogOf(c: Config, states: seq<State>, steps: seq<Step>, i: nat): ScanLog
    requires |states| == |steps| + 1 && i < |states|
  {
    if i == 0 then NO_SCAN
    else Logged(c, states[i - 1], steps[i - 1], states[i], LogOf(c, states, steps, i - 1))
  }

  // ----- What the scan remembers

  /** `low` is the one of least version, and none exactly if there is none. */
  ghost predicate IsOldest(fit: set<(nat, nat)>, low: Option<(nat, nat)>) {
    if low.None? then fit == {}
    else low.value in fit && forall x :: x in fit && x != low.value ==> low.value.1 < x.1
  }

  /** Pages fit when looked at are still in use under the same version. */
  ghost predicate StillInUse(pages: seq<Page>, fit: set<(nat, nat)>) {
    forall x :: x in fit ==> x.0 < |pages| && !pages[x.0].free && pages[x.0].version == x.1
  }

  ghost predicate UpTo(looked: seq<nat>, n: nat) {
    |looked| == n && forall k :: 0 <= k < n ==> looked[k] == k
  }

  ghost predicate AllBelow(fit: set<(nat, nat)>, n: nat) {
    forall x :: x in fit ==> x.0 < n
  }

  ghost predicate MaintIsLogged(pages: seq<Page>, m: Maint, log: ScanLog) {
    match m
    case Waiting => true
    case Scan(next, evict, low) =>
      && UpTo(log.looked, next) && AllBelow(log.fit, next) && StillInUse(pages, log.fit)
      && (evict <==> log.wanted && log.freed == {})
      && IsOldest(log.fit, low)
    case Evict(p) =>
      && UpTo(log.looked, |pages|) && StillInUse(pages, log.fit)
      && log.wanted && log.freed == {}
      && p < |pages| && IsOldest(log.fit, Some((p, pages[p].version)))
  }

  // ----- One step

  lemma KeepsInUse(s: State, step: Step, t: State, fit: set<(nat, nat)>)
    requires StillInUse(s.pages, fit)
    requires forall x :: x in fit ==> Moves(s, step, t, x.0) && !MayTake(s, step, x.0)
    ensures StillInUse(t.pages, fit)
  {
    forall x | x in fit
      ensures x.0 < |t.pages| && !t.pages[x.0].free && t.pages[x.0].version == x.1
    {
      assert Moves(s, step, t, x.0);
    }
  }

  lemma MaintStays(c: Config, s: State, step: Step)
    requires Enabled(c, s, step) && Safe(c, s, step) && !step.MaintStart? && !step.MaintScan? && !step.MaintEvict?
    ensures Apply(c, s, step).maint == s.maint
  {
    match step
    case FindPage(b, fb, len) => FindStays(c, s, b, fb, len);
    case LockPage(b) => LockStays(c, s, b);
    case GetPage(b) => GetStays(c, s, b);
    case _ =>
      hide Find, Lock, Get, FromWbuf;
  }

  lemma FindStays(c: Config, s: State, b: nat, fb: nat, len: nat)
    requires CanFind(c, s, b, fb) && SafeFind(c, s, b, fb)
    ensures Find(c, s, b, fb, len).maint == s.maint
  {}

  lemma LockStays(c: Config, s: State, b: nat)
    requires CanLock(c, s, b) && SafeLock(c, s, b)
    ensures Lock(c, s, b).maint == s.maint
  {}

  lemma GetStays(c: Config, s: State, b: nat)
    requires CanGet(c, s, b) && SafeGet(c, s, b)
    ensures Get(c, s, b).maint == s.maint
  {}

  /** A step of any other thread. */
  lemma OthersAreLogged(c: Config, s: State, step: Step, log: ScanLog)
    requires Inv(c, s) && Enabled(c, s, step) && Safe(c, s, step)
    requires !step.MaintStart? && !step.MaintScan? && !step.MaintEvict?
    requires MaintIsLogged(s.pages, s.maint, log)
    ensures MaintIsLogged(Apply(c, s, step).pages, Apply(c, s, step).maint, log)
  {
    hide Inv, Enabled, Safe, Apply, Moves, IsOldest, AllBelow, UpTo;
    MaintStays(c, s, step);
    var t := Apply(c, s, step);
    if !s.maint.Waiting? {
      PagesMove(c, s, step, log.fit);
      KeepsInUse(s, step, t, log.fit);
      SameNumber(c, s, step);
      if s.maint.Evict? {
        OldestIsIn(log.fit, (s.maint.page, s.pages[s.maint.page].version));
      }
    }
  }

  lemma OldestIsIn(fit: set<(nat, nat)>, x: (nat, nat))
    requires IsOldest(fit, Some(x))
    ensures x in fit
  {}

  lemma PagesMove(c: Config, s: State, step: Step, fit: set<(nat, nat)>)
    requires Inv(c, s) && Enabled(c, s, step) && Safe(c, s, step) && StillInUse(s.pages, fit)
    ensures forall x :: x in fit ==> Moves(s, step, Apply(c, s, step), x.0)
  {
    hide Inv, Enabled, Safe, Apply, Moves;
    forall x | x in fit
      ensures Moves(s, step, Apply(c, s, step), x.0)
    {
      StepMoves(c, s, step, x.0);
    }
  }

  lemma SameNumber(c: Config, s: State, step: Step)
    requires Inv(c, s) && Enabled(c, s, step) && Safe(c, s, step)
    ensures |Apply(c, s, step).pages| == |s.pages|
  {
    hide Inv, Enabled, Safe, Apply;
    StepKeeps(c, s, step);
    SizedBy(c, s);
    SizedBy(c, Apply(c, s, step));
  }

  /** One more page: the older of the one remembered and the one looked at. */
  lemma OldestOfBoth(pages: seq<Page>, fit: set<(nat, nat)>, low: Option<(nat, nat)>, n: nat)
    requires n < |pages| && !pages[n].free && VersionsDiffer(pages)
    requires StillInUse(pages, fit) && AllBelow(fit, n) && IsOldest(fit, low)
    ensures IsOldest(fit + {(n, pages[n].version)},
                     if low.None? || pages[n].version < low.value.1 then Some((n, pages[n].version)) else low)
  {
    assert forall x :: x in fit ==> x.1 != pages[n].version;
  }

  lemma MoreBelow(fit: set<(nat, nat)>, n: nat, v: nat)
    requires AllBelow(fit, n)
    ensures AllBelow(fit, n + 1) && AllBelow(fit + {(n, v)}, n + 1)
  {}

  /** What a turn at page `n` adds, before the page may be freed. */
  lemma TurnIsLogged(c: Config, s: State, log: ScanLog)
    requires Inv(c, s) && s.maint.Scan? && s.maint.next < |s.pages| && MaintIsLogged(s.pages, s.maint, log)
    requires !s.pages[s.maint.next].active && !s.pages[s.maint.next].free
    ensures s.Sized(c)
    ensures var n := s.maint.next; var v := s.pages[n].version;
      var fit := log.fit + if Fit(c, s.pages[n], c.freeBucket[n]) then {(n, v)} else {};
      IsOldest(fit, LowerOf(c, s, n, s.maint.low)) && AllBelow(fit, n + 1) && StillInUse(s.pages, fit)
  {
    hide Inv, IsOldest, AllBelow;
    SizedBy(c, s);
    FullIsInactive(c, s, s.maint.next);
    OldestOfBoth(s.pages, log.fit, s.maint.low, s.maint.next);
    MoreBelow(log.fit, s.maint.next, s.pages[s.maint.next].version);
    assert log.fit + {} == log.fit;
  }

  /** A page in use is written in full exactly when it is no longer active; versions in use differ. */
  lemma FullIsInactive(c: Config, s: State, p: nat)
    requires Inv(c, s) && p < |s.pages|
    ensures !s.pages[p].free ==> (s.pages[p].written == c.pageSize <==> !s.pages[p].active)
    ensures VersionsDiffer(s.pages)
  {
    hide c.Apart, VersionsDiffer, Partitioned, BuffersOk, WritesOk, IosOk, ProgressOk, WritersOk, RecordsOk;
    hide RefcountsOk, ReadsOk, MaintOk;
    assert PageOk(c, s.pages[p], s.wbufs, s.version);
  }

  lemma OneMore(looked: seq<nat>, n: nat)
    requires UpTo(looked, n)
    ensures UpTo(looked + [n], n + 1)
  {}

  /** A turn at a page that is being written, or is free, adds nothing. */
  lemma PassIsLogged(c: Config, s: State, log: ScanLog)
    requires Inv(c, s) && CanScan(c, s) && SafeScan(c, s) && MaintIsLogged(s.pages, s.maint, log)
    requires s.maint.next < |s.pages| && (s.pages[s.maint.next].active || s.pages[s.maint.next].free)
    ensures var t := Scanned(c, s); MaintIsLogged(t.pages, t.maint, Logged(c, s, MaintScan, t, log))
  {
    hide Inv, IsOldest, AllBelow, UpTo, StillInUse, FreePage, LowerOf;
    FullIsInactive(c, s, s.maint.next);
    MoreBelow(log.fit, s.maint.next, 0);
    OneMore(log.looked, s.maint.next);
    assert log.fit + {} == log.fit;
  }

  /** A turn at a page that is full. */
  lemma LookIsLogged(c: Config, s: State, log: ScanLog)
    requires Inv(c, s) && CanScan(c, s) && SafeScan(c, s) && MaintIsLogged(s.pages, s.maint, log)
    requires s.maint.next < |s.pages| && !s.pages[s.maint.next].active && !s.pages[s.maint.next].free
    ensures var t := Scanned(c, s); MaintIsLogged(t.pages, t.maint, Logged(c, s, MaintScan, t, log))
  {
    hide Inv, IsOldest, AllBelow, UpTo, StillInUse, FreePage, LowerOf, Fit;
    var n, t := s.maint.next, Scanned(c, s);
    TurnIsLogged(c, s, log);
    OneMore(log.looked, n);
    if MayFree(s.pages[n]) {
      FreeTouches(c, s, n);
      NotFit(c, s.pages, n, c.freeBucket[n], log.fit);
      assert log.fit + {} == log.fit;
      assert n in log.freed + {n};
    }
  }

  /** A page that is freed was not fit for eviction, and the others are not touched. */
  lemma NotFit(c: Config, pages: seq<Page>, n: nat, fb: nat, fit: set<(nat, nat)>)
    requires n < |pages| && MayFree(pages[n])
    requires StillInUse(pages, fit) && AllBelow(fit, n)
    ensures !Fit(c, pages[n], fb)
    ensures StillInUse(pages[n := FreedPage(pages[n])], fit)
  {}

  /** The end of a scan: a page is evicted exactly if the default list was empty when the scan began,
      nothing was freed, and some page is fit. */
  lemma EndIsLogged(c: Config, s: State, log: ScanLog)
    requires Inv(c, s) && CanScan(c, s) && SafeScan(c, s) && MaintIsLogged(s.pages, s.maint, log)
    requires s.maint.next >= |s.pages|
    ensures var t := Scanned(c, s);
      && MaintIsLogged(t.pages, t.maint, Logged(c, s, MaintScan, t, log))
      && (t.maint.Evict? <==> log.wanted && log.freed == {} && log.fit != {})
      && (t.maint.Evict? || t.maint.Waiting?)
  {
    hide Inv, UpTo, FreePage, LowerOf;
    MaintIs(c, s);
  }

  lemma StartIsLogged(c: Config, s: State, log: ScanLog)
    requires Inv(c, s)
    ensures MaintIsLogged(Start(s).pages, Start(s).maint, Logged(c, s, MaintStart, Start(s), log))
  {
    hide Inv;
    FreeCount(c, s);
  }

  lemma StepIsLogged(c: Config, s: State, step: Step, log: ScanLog)
    requires Inv(c, s) && Enabled(c, s, step) && Safe(c, s, step) && MaintIsLogged(s.pages, s.maint, log)
    ensures var t := Apply(c, s, step); MaintIsLogged(t.pages, t.maint, Logged(c, s, step, t, log))
  {
    hide Inv, MaintIsLogged, Scanned, Find, Lock, Get, Commit, Flushed, StartRead, Release, FreePage;
    match step
    case MaintStart => StartIsLogged(c, s, log);
    case MaintScan =>
      if s.maint.next >= |s.pages| {
        EndIsLogged(c, s, log);
      } else if s.pages[s.maint.next].active || s.pages[s.maint.next].free {
        PassIsLogged(c, s, log);
      } else {
        LookIsLogged(c, s, log);
      }
    case MaintEvict => EvictIsLogged(c, s, log);
    case _ => OthersAreLogged(c, s, step, log);
  }

  lemma EvictIsLogged(c: Config, s: State, log: ScanLog)
    requires CanEvict(c, s) && SafeEvict(c, s)
    ensures MaintIsLogged(Evicted(c, s).pages, Evicted(c, s).maint, log)
  {
    hide Without;
  }

  // ----- Whole runs

  lemma {:induction false} RunIsLogged(c: Config, states: seq<State>, steps: seq<Step>, i: nat)
    requires c.Valid() && IsRun(c, states, steps) && i < |states|
    ensures MaintIsLogged(states[i].pages, states[i].maint, LogOf(c, states, steps, i))
  {
    hide Inv, MaintIsLogged, Enabled, Safe, Apply, Logged;
    if i == 0 {
      StartsWaiting(c, states);
    } else {
      RunIsLogged(c, states, steps, i - 1);
      RunKeepsInv(c, states, steps, i - 1);
      RunsAreSafe(c, states, steps, i - 1);
      StepIsLogged(c, states[i - 1], steps[i - 1], LogOf(c, states, steps, i - 1));
    }
  }

  lemma StartsWaiting(c: Config, states: seq<State>)
    requires c.Valid() && |states| > 0 && states[0] == Init(c)
    ensures MaintIsLogged(states[0].pages, states[0].maint, NO_SCAN)
  {
    hide c.Apart, FreeFrom;
  }

  /** In every state of every run in which a page is picked for eviction, that page is older than every
      other page that was fit for eviction when the scan came by.  The scan has looked at every page once,
      and it began with the default free list empty and freed nothing. */
  lemma OldestIsEvicted(c: Config, states: seq<State>, steps: seq<Step>, i: nat)
    requires c.Valid() && IsRun(c, states, steps) && i < |states| && states[i].maint.Evict?
    ensures var s, log, p := states[i], LogOf(c, states, steps, i), states[i].maint.page;
      && log.wanted && log.freed == {} && log.looked == seq(|s.pages|, k => k)
      && p < |s.pages| && (p, s.pages[p].version) in log.fit
      && (forall x :: x in log.fit && x != (p, s.pages[p].version) ==> s.pages[p].version < x.1)
      && (forall x :: x in log.fit ==> x.0 < |s.pages| && !s.pages[x.0].free && s.pages[x.0].version == x.1)
  {
    RunIsLogged(c, states, steps, i);
    hide IsRun, Inv;
  }

  /** During a scan the page remembered is the oldest of those fit so far, and there is none exactly if
      none was. */
  lemma OldestIsRemembered(c: Config, states: seq<State>, steps: seq<Step>, i: nat)
    requires c.Valid() && IsRun(c, states, steps) && i < |states| && states[i].maint.Scan?
    ensures var m, log := states[i].maint, LogOf(c, states, steps, i);
      && log.looked == seq(m.next, k => k) && (m.evict <==> log.wanted && log.freed == {})
      && (m.low.None? <==> log.fit == {})
      && (m.low.Some? ==>
            m.low.value in log.fit && forall x :: x in log.fit && x != m.low.value ==> m.low.value.1 < x.1)
  {
    RunIsLogged(c, states, steps, i);
    hide IsRun, Inv;
  }

  /** A scan that has looked at every page ends in an eviction exactly if the default free list was empty
      when it began, it freed nothing and came by a page fit for eviction. */
  lemma ScanEndsInEviction(c: Config, states: seq<State>, steps: seq<Step>, i: nat)
    requires c.Valid() && IsRun(c, states, steps) && i < |steps| && steps[i].MaintScan? && states[i].maint.Scan?
    requires states[i].maint.next >= |states[i].pages|
    ensures var log := LogOf(c, states, steps, i);
      states[i + 1].maint.Evict? <==> log.wanted && log.freed == {} && log.fit != {}
  {
    RunIsLogged(c, states, steps, i);
    RunKeepsInv(c, states, steps, i);
    RunsAreSafe(c, states, steps, i);
    StepIs(c, states, steps, i);
    hide IsRun, Inv, MaintIsLogged, Scanned;
    EndIsLogged(c, states[i], LogOf(c, states, steps, i));
  }
}
