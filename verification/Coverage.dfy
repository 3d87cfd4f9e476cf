/** Scanning over all sessions: which heights have been scanned when a height is claimed,
    whatever fails, whenever the process crashes, however far reported heights go down, and
    wherever it restarts. */
module Coverage {
  import opened Prelude
  import opened StoreSpec
  import opened HeightFile
  import opened Scanner
  import opened Events
  import opened Pipeline

  /** Every height above lo and up to hi has been scanned. */
  ghost predicate Covers(scanned: set<uint32>, lo: int, hi: int) {
    forall x: uint32 :: lo < x <= hi ==> x in scanned
  }

  /** A scanner waiting at top, with these heights scanned, can claim no height above lo that has
      been missed. Two tops are special: from the largest height the scan begins again at 0, and
      the height below it is claimed only when it is scanned. */
  ghost predicate Harmless(scanned: set<uint32>, lo: int, top: uint32) {
    top == MAX_UINT32 || Covers(scanned, lo, Min(top, MAX_UINT32 - 2))
  }

  /** Likewise for a scanner in any phase; a tick towards the largest height never ends. */
  ghost predicate Safe(p: Process, scanned: set<uint32>, lo: int) {
    match p.phase
    case Waiting => Harmless(scanned, lo, p.top)
    case Between(newTop, h, _) => newTop < MAX_UINT32 ==> Covers(scanned, lo, Min(h - 1, newTop))
    case Inside(newTop, h, _, _) =>
      h <= newTop && (newTop < MAX_UINT32 ==> Covers(scanned, lo, h - 1))
  }

  // ---------- The scanner's steps ----------

  lemma SafeReport(p: Process, scanned: set<uint32>, lo: int, newTop: uint32)
    requires Safe(p, scanned, lo) && p.phase == Waiting && newTop != p.top
    ensures Safe(p.(phase := Between(newTop, Add32(p.top, 1), 0)), scanned, lo)
  {
  }

  lemma SafeEndBlock(p: Process, scanned: set<uint32>, lo: int)
    requires Safe(p, scanned, lo) && p.phase.Inside?
    ensures Safe(p.(phase := Between(p.phase.newTop, Add32(p.phase.h, 1), p.phase.toSign)), scanned + {p.phase.h}, lo)
  {
  }

  /** At its end a tick has scanned all it claims. */
  lemma SafeTickEnd(p: Process, scanned: set<uint32>, lo: int)
    requires Safe(p, scanned, lo) && AtTickEnd(p)
    ensures p.phase.newTop < MAX_UINT32 && Covers(scanned, lo, p.phase.newTop)
    ensures Harmless(scanned, lo, p.phase.newTop)
  {
  }

  /** The height a step completes. */
  function Scans(cfg: Config, p: Process, step: Step): set<uint32> {
    if step.EndBlock? && p.phase.Inside? && p.phase.at == |cfg.chain(p.phase.h)| then {p.phase.h} else {}
  }

  /** The step ends a tick, alive or in a crash that may leave its height in the file. */
  predicate Claims(cfg: Config, p: Process, step: Step) {
    AtTickEnd(p) && (step.EndTick? || (step.CrashWriting? && RecordsNow(cfg, p)))
  }

  lemma LedgerStep(cfg: Config, s: System, p: Process, step: Step)
    requires s.proc == Some(p)
    ensures var h, h', new' := s.hist, Apply(cfg, s, step).hist, Scans(cfg, p, step);
            && h'.base == h.base && h'.start == h.start
            && h'.scanned == h.scanned + new' && h'.seen == h.seen + new'
            && h'.hi == (if Claims(cfg, p, step) then Max(h.hi, p.phase.newTop) else h.hi)
            && h'.high == (if Claims(cfg, p, step) then Max(h.high, p.phase.newTop) else h.high)
  {
  }

  lemma SafeStep(cfg: Config, s: System, p: Process, step: Step, scanned: set<uint32>, lo: int)
    requires s.proc == Some(p) && Safe(p, scanned, lo)
    ensures Claims(cfg, p, step) ==> Covers(scanned, lo, p.phase.newTop)
    ensures var s' := Apply(cfg, s, step);
            s'.proc.Some? ==> Safe(s'.proc.value, scanned + Scans(cfg, p, step), lo)
  {
    hide Covers, Harmless;
    assert scanned + {} == scanned;
    match step
    case Report(newTop) =>
      if p.phase.Waiting? && !NothingNew(p.top, newTop) {
        NothingNewIsEqual(p.top, newTop);
        SafeReport(p, scanned, lo, newTop);
      }
    case Fetch => FetchIsSafe(p, scanned, lo);
    case EndBlock =>
      if p.phase.Inside? {
        SafeEndBlock(p, scanned, lo);
      }
    case Act(io) => SafeAct(cfg, s, p, io, scanned, lo);
    case EndTick(_) =>
      if AtTickEnd(p) {
        SafeTickEnd(p, scanned, lo);
      }
    case CrashWriting(_) =>
      if AtTickEnd(p) {
        SafeTickEnd(p, scanned, lo);
      }
    case _ =>
  }

  lemma FetchIsSafe(p: Process, scanned: set<uint32>, lo: int)
    requires Safe(p, scanned, lo)
    ensures p.phase.Between? && p.phase.h <= p.phase.newTop ==>
              Safe(p.(phase := Inside(p.phase.newTop, p.phase.h, p.phase.toSign, 0)), scanned, lo)
  {
  }

  lemma SafeAct(cfg: Config, s: System, p: Process, io: Io, scanned: set<uint32>, lo: int)
    requires s.proc == Some(p) && Safe(p, scanned, lo)
    ensures var s' := ActStep(cfg, s, p, io); s'.proc.Some? && Safe(s'.proc.value, scanned, lo)
  {
    hide Covers;
  }

  // ---------- One session ----------

  /** Above its own start, a session has scanned everything up to the highest height it claimed,
      and can claim nothing it has missed. */
  ghost predicate SessionCovered(s: System) {
    && s.hist.seen <= s.hist.scanned
    && (s.proc.Some? ==>
          && s.hist.start <= s.hist.high
          && Covers(s.hist.seen, s.hist.start, s.hist.high)
          && Safe(s.proc.value, s.hist.seen, s.hist.start))
  }

  lemma CoversMore(scanned: set<uint32>, more: set<uint32>, lo: int, hi: int)
    requires Covers(scanned, lo, hi)
    ensures Covers(scanned + more, lo, hi)
  {
  }

  lemma SessionCoveredStep(cfg: Config, s: System, step: Step)
    requires SessionCovered(s)
    ensures SessionCovered(Apply(cfg, s, step))
  {
    match s.proc
    case None =>
    case Some(p) =>
      hide Safe, Covers, ProcessStep, Scans;
      LedgerStep(cfg, s, p, step);
      SafeStep(cfg, s, p, step, s.hist.seen, s.hist.start);
      CoversMore(s.hist.seen, Scans(cfg, p, step), s.hist.start, s.hist.high);
      if Claims(cfg, p, step) {
        CoversMore(s.hist.seen, Scans(cfg, p, step), s.hist.start, p.phase.newTop);
      }
  }

  /** Every session of every run, whatever fails and wherever it started: every height above its
      own start up to the highest it has claimed was scanned in that session. */
  lemma {:induction false} SessionNoGaps(cfg: Config, file: Option<string>, steps: seq<Step>)
    ensures SessionCovered(Run(cfg, Initial(file), steps))
  {
    if steps == [] {
    } else {
      var n := |steps| - 1;
      SessionNoGaps(cfg, file, steps[..n]);
      SessionCoveredStep(cfg, Run(cfg, Initial(file), steps[..n]), steps[n]);
    }
  }

  /** When a tick has ended, the session has scanned every height above its start up to the
      largest it has been told of, this one or one before. */
  lemma TickCovers(cfg: Config, file: Option<string>, steps: seq<Step>, write: WriteOutcome)
    requires var s := Run(cfg, Initial(file), steps); s.proc.Some? && AtTickEnd(s.proc.value)
    ensures var s, s' := Run(cfg, Initial(file), steps), Run(cfg, Initial(file), steps + [EndTick(write)]);
            && s'.proc.Some? && s'.proc.value.top == s.proc.value.phase.newTop
            && s'.hist.high >= s'.proc.value.top && s'.hist.high >= s.hist.high
            && Covers(s'.hist.seen, s'.hist.start, s'.hist.high)
            && s'.hist.seen <= s'.hist.scanned
  {
    hide Covers, Safe;
    SessionNoGaps(cfg, file, steps + [EndTick(write)]);
    RunOneMore(cfg, Initial(file), steps, EndTick(write));
  }

  // ---------- All sessions ----------

  /** Above where the first session started, everything up to the highest height ever claimed has
      been scanned, and a running scanner can claim nothing that has been missed. */
  ghost predicate Covered(s: System) {
    match s.hist.base
    case None => s.proc == None
    case Some(b) =>
      && b <= s.hist.hi && Covers(s.hist.scanned, b, s.hist.hi)
      && (s.proc.Some? ==> Safe(s.proc.value, s.hist.scanned, b))
  }

  /** The file is as it was found, or claims no more than has been claimed so far. */
  ghost predicate FileClaims(s: System, file: Option<string>) {
    && (s.hist.base == None ==> s.proc == None && s.file == file)
    && (s.file == file || LastHeight(s.file) <= s.hist.hi)
  }

  /** A restart, if it is one, is harmless: at a height up to which all has been scanned, or at
      one of the two special tops. */
  ghost predicate GoodStart(s: System, step: Step) {
    step.Start? && s.proc == None && s.hist.base.Some? ==>
      Harmless(s.hist.scanned, s.hist.base.value, StartTop(step.startHeight, s.file))
  }

  lemma CoveredStep(cfg: Config, s: System, step: Step)
    requires Covered(s) && GoodStart(s, step)
    ensures Covered(Apply(cfg, s, step))
  {
    match s.proc
    case None =>
    case Some(p) =>
      hide Safe, Covers, ProcessStep, Scans;
      var b := s.hist.base.value;
      LedgerStep(cfg, s, p, step);
      SafeStep(cfg, s, p, step, s.hist.scanned, b);
      CoversMore(s.hist.scanned, Scans(cfg, p, step), b, s.hist.hi);
      if Claims(cfg, p, step) {
        CoversMore(s.hist.scanned, Scans(cfg, p, step), b, p.phase.newTop);
      }
  }

  lemma FileStep(cfg: Config, s: System, p: Process, step: Step)
    requires s.proc == Some(p)
    ensures var s' := Apply(cfg, s, step);
            s'.file == s.file || (Claims(cfg, p, step) && LastHeight(s'.file) <= p.phase.newTop)
  {
    hide AfterWrite, LastHeight, Scans;
    match step
    case EndTick(write) =>
      if AtTickEnd(p) {
        AfterWriteBound(s.file, p.phase.newTop, write);
        RefusedIsOld(s.file, p.phase.newTop, write);
      }
    case CrashWriting(written) =>
      if AtTickEnd(p) {
        AfterWriteBound(s.file, p.phase.newTop, Torn(written));
      }
    case Act(io) => assert ActStep(cfg, s, p, io).file == s.file;
    case Save(now, io) => assert SaveStep(cfg, s, p, now, io).file == s.file;
    case _ =>
  }

  lemma RefusedIsOld(file: Option<string>, h: uint32, w: WriteOutcome)
    ensures w.Refused? ==> AfterWrite(file, h, w) == file
  {
  }

  lemma FileClaimsStep(cfg: Config, s: System, step: Step, file: Option<string>)
    requires FileClaims(s, file)
    ensures FileClaims(Apply(cfg, s, step), file)
  {
    hide LastHeight;
    match s.proc
    case None =>
    case Some(p) =>
      hide ProcessStep, Scans;
      LedgerStep(cfg, s, p, step);
      FileStep(cfg, s, p, step);
  }

  /** Over every run, the height file is as it was found, or claims at most the first start or the
      highest height a tick has claimed. */
  lemma {:induction false} FileNeverAhead(cfg: Config, file: Option<string>, steps: seq<Step>)
    ensures FileClaims(Run(cfg, Initial(file), steps), file)
  {
    if steps == [] {
    } else {
      var n := |steps| - 1;
      FileNeverAhead(cfg, file, steps[..n]);
      FileClaimsStep(cfg, Run(cfg, Initial(file), steps[..n]), steps[n], file);
    }
  }

  ghost predicate GoodStarts(cfg: Config, s: System, steps: seq<Step>) {
    steps != [] ==>
      var n := |steps| - 1;
      GoodStarts(cfg, s, steps[..n]) && GoodStart(Run(cfg, s, steps[..n]), steps[n])
  }

  lemma {:induction false} CoveredRun(cfg: Config, s: System, steps: seq<Step>)
    requires Covered(s) && GoodStarts(cfg, s, steps)
    ensures Covered(Run(cfg, s, steps))
  {
    if steps == [] {
    } else {
      var n := |steps| - 1;
      CoveredRun(cfg, s, steps[..n]);
      CoveredStep(cfg, Run(cfg, s, steps[..n]), steps[n]);
    }
  }

  /** Over every run whose restarts are harmless, across fetch failures, crashes and torn or
      refused writes of the height file: every height above the first start up to the highest
      ever claimed has been scanned. */
  lemma NoGaps(cfg: Config, file: Option<string>, steps: seq<Step>)
    requires GoodStarts(cfg, Initial(file), steps)
    ensures var s := Run(cfg, Initial(file), steps);
            s.hist.base.Some? ==> Covers(s.hist.scanned, s.hist.base.value, s.hist.hi)
    ensures Covered(Run(cfg, Initial(file), steps))
  {
    hide Covers;
    CoveredRun(cfg, Initial(file), steps);
  }

  // ---------- Restarts from the checkpoint ----------

  /** While all sessions start from the checkpoint, the first one started from the file found. */
  lemma {:induction false} FirstFromFile(cfg: Config, file: Option<string>, steps: seq<Step>)
    requires forall i :: 0 <= i < |steps| && steps[i].Start? ==> steps[i].startHeight == 0
    ensures var s := Run(cfg, Initial(file), steps);
            s.hist.base.Some? ==> s.hist.base == Some(LastHeight(file))
  {
    hide LastHeight;
    if steps == [] {
    } else {
      var n := |steps| - 1;
      var s := Run(cfg, Initial(file), steps[..n]);
      FirstFromFile(cfg, file, steps[..n]);
      FileNeverAhead(cfg, file, steps[..n]);
      if s.proc.Some? {
        hide ProcessStep;
        LedgerStep(cfg, s, s.proc.value, steps[n]);
      }
    }
  }

  lemma CoversLess(scanned: set<uint32>, lo: int, hi: int, top: uint32)
    requires Covers(scanned, lo, hi) && top <= hi
    ensures Harmless(scanned, lo, top)
  {
  }

  /** After any run of harmless restarts, wherever its sessions started, a restart from the
      checkpoint is harmless if the file has been written since it was found, or claimed no more
      then than has been claimed now. */
  lemma CheckpointStart(cfg: Config, file: Option<string>, steps: seq<Step>, read: bool)
    requires GoodStarts(cfg, Initial(file), steps)
    ensures var s := Run(cfg, Initial(file), steps);
            s.file != file || (s.hist.base.Some? && LastHeight(file) <= s.hist.hi) ==> GoodStart(s, Start(0, read))
  {
    hide LastHeight, Covers, Harmless;
    var s := Run(cfg, Initial(file), steps);
    NoGaps(cfg, file, steps);
    FileNeverAhead(cfg, file, steps);
    if s.hist.base.Some? && LastHeight(s.file) <= s.hist.hi {
      CoversLess(s.hist.scanned, s.hist.base.value, s.hist.hi, LastHeight(s.file));
    }
  }

  /** Before that it may not be. After a first session that was configured to start at a height
      and scanned nothing, a restart from the file that was found is harmless exactly when the file
      claims no more than that height, or one of the special tops is involved. */
  lemma FirstStartBelowFile(cfg: Config, file: Option<string>, startHeight: uint32, read: bool)
    requires startHeight > 0
    ensures var s := Run(cfg, Initial(file), [Start(startHeight, read), Crash]);
            GoodStart(s, Start(0, read)) <==>
            LastHeight(file) <= startHeight || LastHeight(file) == MAX_UINT32 || startHeight >= MAX_UINT32 - 2
  {
    hide LastHeight;
    FirstStep(cfg, Initial(file), Start(startHeight, read));
    RunOneMore(cfg, Initial(file), [Start(startHeight, read)], Crash);
    assert [Start(startHeight, read)] + [Crash] == [Start(startHeight, read), Crash];
    var s := Run(cfg, Initial(file), [Start(startHeight, read), Crash]);
    assert s.hist.base == Some(startHeight) && s.hist.scanned == {} && s.file == file;
    NothingCovered(s.hist.scanned, startHeight, LastHeight(file));
  }

  lemma NothingCovered(scanned: set<uint32>, lo: uint32, top: uint32)
    requires scanned == {}
    ensures Harmless(scanned, lo, top) <==> top <= lo || top == MAX_UINT32 || lo >= MAX_UINT32 - 2
  {
    if lo < Min(top, MAX_UINT32 - 2) {
      var x: uint32 := lo + 1;
      assert x !in scanned;
    }
  }

  /** If all sessions start from the checkpoint, they all are harmless. */
  lemma {:induction false} CheckpointStarts(cfg: Config, file: Option<string>, steps: seq<Step>)
    requires forall i :: 0 <= i < |steps| && steps[i].Start? ==> steps[i].startHeight == 0
    ensures GoodStarts(cfg, Initial(file), steps)
  {
    if steps == [] {
    } else {
      hide LastHeight, Covered, FileClaims, Harmless;
      var n := |steps| - 1;
      CheckpointStarts(cfg, file, steps[..n]);
      NoGaps(cfg, file, steps[..n]);
      FirstFromFile(cfg, file, steps[..n]);
      if steps[n].Start? {
        BaseClaimed(Run(cfg, Initial(file), steps[..n]));
        CheckpointStart(cfg, file, steps[..n], steps[n].read);
      }
    }
  }

  lemma BaseClaimed(s: System)
    requires Covered(s)
    ensures s.hist.base.Some? ==> s.hist.base.value <= s.hist.hi
  {
  }

  /** A crash while the height is being written leaves some of its digits: the file then reads as
      the height without the missing ones, and the restart goes back. */
  lemma CrashWhileWriting(cfg: Config, s: System, written: nat)
    requires s.proc.Some? && AtTickEnd(s.proc.value) && RecordsNow(cfg, s.proc.value)
    ensures var h, s' := s.proc.value.phase.newTop, Apply(cfg, s, CrashWriting(written));
            && s'.proc == None && s'.store == s.store
            && LastHeight(s'.file) == WithoutDigits(h, |Format(h)| - Min(written, |Format(h)|)) <= h
  {
    var h := s.proc.value.phase.newTop;
    TornHeight(h, Min(written, |Format(h)|));
  }

  /** A report of the height reached starts nothing; any other starts a tick above it. */
  lemma ReportStarts(cfg: Config, s: System, newTop: uint32)
    requires s.proc.Some? && s.proc.value.phase == Waiting
    ensures var p, s' := s.proc.value, Apply(cfg, s, Report(newTop));
            && (newTop == p.top ==> s' == s)
            && (newTop != p.top ==>
                  var next := if p.top == 0xFFFF_FFFF then 0 else p.top + 1;
                  s' == s.(proc := Some(p.(phase := Between(newTop, next, 0)))))
  {
    NothingNewIsEqual(s.proc.value.top, newTop);
  }

  // ---------- What it means that a height is scanned ----------

  /** The first n actions of a block have been carried out: its items sent, its marks made. */
  ghost predicate CarriedOut(actions: seq<Action>, n: nat, hist: History) {
    forall i :: 0 <= i < n && i < |actions| ==>
      && (actions[i].Sign? ==> actions[i].item in hist.captured)
      && (actions[i].Relay? ==> actions[i].key in hist.relays)
  }

  /** Scanned blocks are carried out in full, the current one as far as the scan is; and what was
      sent comes from blocks that were fetched. */
  ghost predicate ScanMeans(cfg: Config, s: System) {
    && (forall h :: h in s.hist.scanned ==> CarriedOut(cfg.chain(h), |cfg.chain(h)|, s.hist))
    && (forall x :: x in s.hist.captured ==> exists h :: h in s.hist.fetched && Sign(x) in cfg.chain(h))
    && (s.proc.Some? && s.proc.value.phase.Inside? ==>
          var p := s.proc.value.phase;
          p.h in s.hist.fetched && p.at <= |cfg.chain(p.h)| && CarriedOut(cfg.chain(p.h), p.at, s.hist))
  }

  lemma CarriedOutMore(actions: seq<Action>, n: nat, hist: History, hist': History)
    requires CarriedOut(actions, n, hist) && hist.captured <= hist'.captured && hist.relays <= hist'.relays
    ensures CarriedOut(actions, n, hist')
  {
  }

  lemma HistoryGrows(cfg: Config, s: System, p: Process, step: Step)
    requires s.proc == Some(p)
    ensures var h, h' := s.hist, Apply(cfg, s, step).hist;
            && h.captured <= h'.captured && h.relays <= h'.relays && h.fetched <= h'.fetched
            && (!step.Act? ==> h'.captured == h.captured)
  {
  }

  lemma ScanMeansAct(cfg: Config, s: System, p: Process, io: Io)
    requires ScanMeans(cfg, s) && s.proc == Some(p)
    ensures var s' := ActStep(cfg, s, p, io);
            && (forall x :: x in s'.hist.captured ==> exists h :: h in s'.hist.fetched && Sign(x) in cfg.chain(h))
            && s'.proc.Some?
            && (s'.proc.value.phase.Inside? ==>
                  var q := s'.proc.value.phase;
                  q.h in s'.hist.fetched && q.at <= |cfg.chain(q.h)| && CarriedOut(cfg.chain(q.h), q.at, s'.hist))
  {
    hide DoneStep;
    var s' := ActStep(cfg, s, p, io);
    if p.phase.Inside? && p.phase.at < |cfg.chain(p.phase.h)| && cfg.chain(p.phase.h)[p.phase.at].Sign? {
      assert cfg.chain(p.phase.h)[p.phase.at] in cfg.chain(p.phase.h);
    }
  }

  lemma ScanMeansStep(cfg: Config, s: System, step: Step)
    requires ScanMeans(cfg, s)
    ensures ScanMeans(cfg, Apply(cfg, s, step))
  {
    match s.proc
    case None =>
    case Some(p) =>
      hide CarriedOut, ActStep, SaveStep, ReadStep;
      var s' := Apply(cfg, s, step);
      LedgerStep(cfg, s, p, step);
      HistoryGrows(cfg, s, p, step);
      forall h, n: nat | CarriedOut(cfg.chain(h), n, s.hist) ensures CarriedOut(cfg.chain(h), n, s'.hist) {
        CarriedOutMore(cfg.chain(h), n, s.hist, s'.hist);
      }
      if step.Act? {
        ScanMeansAct(cfg, s, p, step.io);
      }
  }

  /** Over every run: each item and each relay event of a scanned block has been sent or marked,
      and nothing was sent that is in no fetched block. */
  lemma {:induction false} ScannedMeans(cfg: Config, file: Option<string>, steps: seq<Step>)
    ensures ScanMeans(cfg, Run(cfg, Initial(file), steps))
  {
    hide Apply;
    if steps == [] {
    } else {
      var n := |steps| - 1;
      ScannedMeans(cfg, file, steps[..n]);
      ScanMeansStep(cfg, Run(cfg, Initial(file), steps[..n]), steps[n]);
    }
  }

  /** So with harmless restarts nothing is missed: every item and relay event of every block above
      the first start and up to the highest height claimed. */
  lemma NothingMissed(cfg: Config, file: Option<string>, steps: seq<Step>, h: uint32, a: Action)
    requires GoodStarts(cfg, Initial(file), steps)
    requires var s := Run(cfg, Initial(file), steps); s.hist.base.Some? && s.hist.base.value < h <= s.hist.hi
    requires a in cfg.chain(h)
    ensures var hist := Run(cfg, Initial(file), steps).hist;
            (a.Sign? ==> a.item in hist.captured) && (a.Relay? ==> a.key in hist.relays)
  {
    hide Run, GoodStarts, Safe;
    NoGaps(cfg, file, steps);
    ScannedMeans(cfg, file, steps);
    var i := IndexOf(cfg.chain(h), a);
  }

  // ---------- Exactly when a restart leaves no gap ----------

  ghost predicate NoStart(steps: seq<Step>) {
    forall i :: 0 <= i < |steps| ==> !steps[i].Start?
  }

  lemma {:induction false} NoStartIsGood(cfg: Config, s: System, steps: seq<Step>)
    requires NoStart(steps)
    ensures GoodStarts(cfg, s, steps)
  {
    if steps != [] {
      NoStartIsGood(cfg, s, steps[..|steps| - 1]);
    }
  }

  /** The steps of a block with the signer emptying the channel after each action. */
  function Drained(n: nat): (steps: seq<Step>)
    ensures NoStart(steps)
  {
    if n == 0 then [] else Drained(n - 1) + [Act(Io(true, true, true)), Take, GiveUp]
  }

  /** Within a block, nothing queued or in hand; how far the scan is does not depend on it. */
  ghost predicate AtAction(s: System, newTop: uint32, h: uint32, n: nat, hist: History) {
    && s.proc.Some? && s.proc.value.queue == [] && s.proc.value.hand == Free
    && s.proc.value.phase.Inside? && s.proc.value.phase.newTop == newTop
    && s.proc.value.phase.h == h && s.proc.value.phase.at == n
    && s.hist.scanned == hist.scanned && s.hist.hi == hist.hi && s.hist.base == hist.base
  }

  lemma OneDrained(cfg: Config, s: System, newTop: uint32, h: uint32, n: nat, hist: History)
    requires AtAction(s, newTop, h, n, hist) && n < |cfg.chain(h)|
    ensures var s1 := Apply(cfg, s, Act(Io(true, true, true)));
            AtAction(Apply(cfg, Apply(cfg, s1, Take), GiveUp), newTop, h, n + 1, hist)
  {
    var s1 := Apply(cfg, s, Act(Io(true, true, true)));
    var q := s1.proc.value.queue;
    assert q == [] || (|q| == 1 && q[1..] == []);
  }

  lemma {:induction false} BlockDrains(cfg: Config, s: System, newTop: uint32, h: uint32, n: nat, hist: History)
    requires AtAction(s, newTop, h, 0, hist) && n <= |cfg.chain(h)|
    ensures AtAction(Run(cfg, s, Drained(n)), newTop, h, n, hist)
  {
    hide Apply, AtAction;
    if n == 0 {
    } else {
      BlockDrains(cfg, s, newTop, h, n - 1, hist);
      var steps, act := Drained(n - 1), Act(Io(true, true, true));
      OneDrained(cfg, Run(cfg, s, steps), newTop, h, n - 1, hist);
      RunOneMore(cfg, s, steps, act);
      RunOneMore(cfg, s, steps + [act], Take);
      RunOneMore(cfg, s, steps + [act] + [Take], GiveUp);
      assert Drained(n) == steps + [act] + [Take] + [GiveUp];
    }
  }

  /** A tick to a height below the start ends at once, and claims it. */
  lemma ClaimBelow(cfg: Config, s: System, x: uint32)
    requires s.proc.Some? && s.proc.value.phase == Waiting && x < s.proc.value.top < MAX_UINT32
    ensures var s' := Run(cfg, s, [Report(x), EndTick(Written)]);
            s'.hist.base == s.hist.base && s'.hist.scanned == s.hist.scanned && s'.hist.hi >= x
  {
    NothingNewIsEqual(s.proc.value.top, x);
    FirstStep(cfg, s, Report(x));
    RunOneMore(cfg, s, [Report(x)], EndTick(Written));
    assert [Report(x)] + [EndTick(Written)] == [Report(x), EndTick(Written)];
  }

  /** The steps of a tick over the one block above the start. */
  function NextBlock(cfg: Config, h: uint32): (steps: seq<Step>)
    ensures NoStart(steps)
  {
    [Report(h), Fetch] + Drained(|cfg.chain(h)|) + [EndBlock, EndTick(Written)]
  }

  /** A tick over that block claims the start with it. */
  lemma ClaimNext(cfg: Config, s: System, h: uint32)
    requires s.proc.Some? && s.proc.value.phase == Waiting && s.proc.value.top + 1 == h < MAX_UINT32
    requires s.proc.value.queue == [] && s.proc.value.hand == Free
    ensures var s' := Run(cfg, s, NextBlock(cfg, h));
            s'.hist.base == s.hist.base && s'.hist.scanned == s.hist.scanned + {h} && s'.hist.hi >= h
  {
    hide Run, Drained, AfterWrite, LastHeight;
    var steps0, steps1, n := [Report(h)], [Report(h), Fetch], |cfg.chain(h)|;
    NothingNewIsEqual(s.proc.value.top, h);
    FirstStep(cfg, s, Report(h));
    RunOneMore(cfg, s, steps0, Fetch);
    assert steps0 + [Fetch] == steps1;
    var s1 := Run(cfg, s, steps1);
    assert AtAction(s1, h, h, 0, s.hist);
    RunOn(cfg, s, steps1, Drained(n));
    BlockDrains(cfg, s1, h, h, n, s.hist);
    var steps2 := steps1 + Drained(n);
    RunOneMore(cfg, s, steps2, EndBlock);
    RunOneMore(cfg, s, steps2 + [EndBlock], EndTick(Written));
    assert NextBlock(cfg, h) == steps2 + [EndBlock] + [EndTick(Written)];
  }

  /** The session started so keeps everything claimed scanned, until the next restart. */
  ghost predicate LeavesNoGap(cfg: Config, s: System) {
    forall steps :: NoStart(steps) ==>
      var s' := Run(cfg, s, steps);
      s'.hist.base.Some? && Covers(s'.hist.scanned, s'.hist.base.value, s'.hist.hi)
  }

  lemma HarmlessLeavesNoGap(cfg: Config, s: System)
    requires Covered(s) && s.hist.base.Some?
    ensures LeavesNoGap(cfg, s)
  {
    hide Covers, Safe;
    forall steps | NoStart(steps)
      ensures var s' := Run(cfg, s, steps);
              s'.hist.base.Some? && Covers(s'.hist.scanned, s'.hist.base.value, s'.hist.hi)
    {
      NoStartIsGood(cfg, s, steps);
      CoveredRun(cfg, s, steps);
      BaseStays(cfg, s, steps);
    }
  }

  lemma {:induction false} BaseStays(cfg: Config, s: System, steps: seq<Step>)
    requires s.hist.base.Some?
    ensures Run(cfg, s, steps).hist.base == s.hist.base
  {
    if steps != [] {
      var n := |steps| - 1;
      BaseStays(cfg, s, steps[..n]);
      var s1 := Run(cfg, s, steps[..n]);
      if s1.proc.Some? {
        hide ProcessStep;
        LedgerStep(cfg, s1, s1.proc.value, steps[n]);
      }
    }
  }

  /** Otherwise some missed height is claimed by the first tick, told the right height. */
  lemma HarmfulLeavesGap(cfg: Config, s: System)
    requires s.proc.Some? && s.hist.base.Some?
    requires var p := s.proc.value; p.phase == Waiting && p.queue == [] && p.hand == Free
    requires !Harmless(s.hist.scanned, s.hist.base.value, s.proc.value.top)
    ensures !LeavesNoGap(cfg, s)
  {
    hide Run;
    var b, top := s.hist.base.value, s.proc.value.top;
    var x: uint32 :| b < x <= Min(top, MAX_UINT32 - 2) && x !in s.hist.scanned;
    if x < top {
      ClaimBelow(cfg, s, x);
      assert NoStart([Report(x), EndTick(Written)]);
    } else {
      ClaimNext(cfg, s, top + 1);
      var steps := NextBlock(cfg, top + 1);
      assert NoStart(steps);
      var s' := Run(cfg, s, steps);
      assert x !in s'.hist.scanned && b < x <= s'.hist.hi;
      assert !Covers(s'.hist.scanned, s'.hist.base.value, s'.hist.hi);
    }
  }

  /** From a state without gaps, a restart keeps the claimed heights scanned, over all that can
      happen until the next restart, exactly when it is harmless. */
  lemma RestartExact(cfg: Config, s: System, startHeight: uint32, read: bool)
    requires Covered(s) && s.proc == None && s.hist.base.Some?
    ensures LeavesNoGap(cfg, Apply(cfg, s, Start(startHeight, read))) <==>
            Harmless(s.hist.scanned, s.hist.base.value, StartTop(startHeight, s.file))
  {
    hide LeavesNoGap, Covers, Harmless;
    var s' := Apply(cfg, s, Start(startHeight, read));
    if Harmless(s.hist.scanned, s.hist.base.value, StartTop(startHeight, s.file)) {
      CoveredStep(cfg, s, Start(startHeight, read));
      HarmlessLeavesNoGap(cfg, s');
    } else {
      HarmfulLeavesGap(cfg, s');
    }
  }

  // ---------- A restart that leaves a gap ----------

  lemma StartedAgain(cfg: Config, startHeight: uint32, read: bool)
    requires startHeight > 0
    ensures var s := Run(cfg, Initial(None), [Start(1, read), Crash, Start(startHeight, read)]);
            && s.proc == Some(Process(startHeight, startHeight, Waiting, [], Free, [], []))
            && s.hist.base == Some(1) && s.hist.scanned == {}
  {
    FirstStep(cfg, Initial(None), Start(1, read));
    RunOneMore(cfg, Initial(None), [Start(1, read)], Crash);
    RunOneMore(cfg, Initial(None), [Start(1, read), Crash], Start(startHeight, read));
    assert [Start(1, read)] + [Crash] == [Start(1, read), Crash];
    assert [Start(1, read), Crash] + [Start(startHeight, read)] == [Start(1, read), Crash, Start(startHeight, read)];
  }

  /** The shortest such history: a first session from height 1 that scans nothing, and a restart
      configured above height 1. Told the next height, it claims its start unscanned. */
  lemma StartAboveLeavesGap(cfg: Config, startHeight: uint32, read: bool)
    requires 1 < startHeight <= MAX_UINT32 - 2
    ensures var s := Run(cfg, Initial(None), [Start(1, read), Crash, Start(startHeight, read)]);
            var s' := Run(cfg, s, NextBlock(cfg, startHeight + 1));
            && s.hist.base == Some(1) == s'.hist.base
            && startHeight !in s'.hist.scanned && startHeight < s'.hist.hi
  {
    hide Run, NextBlock;
    StartedAgain(cfg, startHeight, read);
    var s := Run(cfg, Initial(None), [Start(1, read), Crash, Start(startHeight, read)]);
    ClaimNext(cfg, s, startHeight + 1);
  }
}
