/** The steps of the service, taken without interruption, are what the running code computes:
    a block is one call of CheckEvents, a tick one call of Tick, an item one call of Handle. */
module Uninterrupted {
  import opened Prelude
  import opened Wire
  import opened Codec
  import opened Records
  import opened StoreSpec
  import opened HeightFile
  import opened Scanner
  import opened Events
  import opened Pipeline
  import O = Observer
  import Sign = Signer

  // ---------- One block ----------

  /** The Act steps for the first n actions of a block. */
  function Acts(disk: nat -> Io, n: nat): (s: seq<Step>)
    ensures |s| == n
  {
    if n == 0 then [] else Acts(disk, n - 1) + [Act(disk(n - 1))]
  }

  lemma ActsLast(disk: nat -> Io, n: nat)
    requires n > 0
    ensures Acts(disk, n) == Acts(disk, n - 1) + [Act(disk(n - 1))]
  {
  }

  /** A process inside a block after its first actions: what they sent is queued, what they
      relayed is marked. */
  ghost predicate After(cfg: Config, s: System, p: Process, actions: seq<Action>, disk: nat -> Io, s': System) {
    && p.phase.Inside? && s'.proc.Some? && s'.file == s.file
    && s'.store == O.Relayed(cfg.cd, s.store, actions, disk)
    && s'.proc.value == p.(phase := p.phase.(at := |actions|, toSign := p.phase.toSign + |Items(actions)|),
                           queue := p.queue + Items(actions), sent := p.sent + Items(actions))
  }

  lemma ItemsOfPrefix(actions: seq<Action>, n: nat)
    requires n < |actions|
    ensures Items(actions[..n + 1]) == Items(actions[..n]) + if actions[n].Sign? then [actions[n].item] else []
    ensures |Items(actions[..n])| <= |Items(actions)|
    decreases |actions| - n
  {
    assert actions[..n + 1][..n] == actions[..n];
    if n + 1 < |actions| {
      ItemsOfPrefix(actions, n + 1);
    } else {
      assert actions[..n + 1] == actions;
    }
  }

  lemma AfterOneMore(cfg: Config, s: System, p: Process, disk: nat -> Io, n: nat, s1: System)
    requires p.phase.Inside? && n < |cfg.chain(p.phase.h)|
    requires |p.queue| + |Items(cfg.chain(p.phase.h)[..n + 1])| <= CHANNEL_SIZE
    requires After(cfg, s, p, cfg.chain(p.phase.h)[..n], disk, s1)
    ensures After(cfg, s, p, cfg.chain(p.phase.h)[..n + 1], disk, Apply(cfg, s1, Act(disk(n))))
  {
    hide DoneStep;
    var actions := cfg.chain(p.phase.h);
    assert actions[..n + 1] == actions[..n] + [actions[n]];
    O.OneMore(cfg.cd, s.store, actions[..n], actions[n], disk);
  }

  lemma NoActions(cfg: Config, s: System, p: Process, disk: nat -> Io)
    requires s.proc == Some(p) && p.phase.Inside? && p.phase.at == 0
    ensures After(cfg, s, p, cfg.chain(p.phase.h)[..0], disk, Run(cfg, s, Acts(disk, 0)))
  {
    assert cfg.chain(p.phase.h)[..0] == [];
    assert p.queue + [] == p.queue && p.sent + [] == p.sent;
  }

  lemma {:induction false} ActsAre(cfg: Config, s: System, p: Process, disk: nat -> Io, n: nat)
    requires s.proc == Some(p) && p.phase.Inside? && p.phase.at == 0
    requires n <= |cfg.chain(p.phase.h)|
    requires |p.queue| + |Items(cfg.chain(p.phase.h))| <= CHANNEL_SIZE
    ensures After(cfg, s, p, cfg.chain(p.phase.h)[..n], disk, Run(cfg, s, Acts(disk, n)))
  {
    hide Apply, After, Acts, O.Relayed, Items;
    if n == 0 {
      NoActions(cfg, s, p, disk);
    } else {
      ActsLast(disk, n);
      ActsAre(cfg, s, p, disk, n - 1);
      RunOneMore(cfg, s, Acts(disk, n - 1), Act(disk(n - 1)));
      ItemsFit(cfg.chain(p.phase.h), n);
      AfterOneMore(cfg, s, p, disk, n - 1, Run(cfg, s, Acts(disk, n - 1)));
    }
  }

  lemma ItemsFit(actions: seq<Action>, n: nat)
    requires n <= |actions|
    ensures |Items(actions[..n])| <= |Items(actions)|
  {
    if n < |actions| {
      ItemsOfPrefix(actions, n);
    } else {
      assert actions[..n] == actions;
    }
  }

  /** Fetching a block, its actions and its end, in one go. */
  function BlockSteps(cfg: Config, h: uint32, disk: nat -> Io): seq<Step> {
    [Fetch] + Acts(disk, |cfg.chain(h)|) + [EndBlock]
  }

  /** A process between blocks after some more of them. */
  ghost predicate Scanned(s: System, p: Process, h: uint32, more: seq<ToSign>, store: Store, s': System) {
    && p.phase.Between? && s'.proc.Some? && s'.file == s.file && s'.store == store
    && s'.proc.value == p.(phase := Between(p.phase.newTop, h, p.phase.toSign + |more|),
                           queue := p.queue + more, sent := p.sent + more)
  }

  lemma BlockIsCheckEvents(cfg: Config, s: System, p: Process, disk: nat -> Io)
    requires s.proc == Some(p) && p.phase.Between? && p.phase.h <= p.phase.newTop
    requires |p.queue| + |Items(cfg.chain(p.phase.h))| <= CHANNEL_SIZE
    ensures var actions := cfg.chain(p.phase.h);
            Scanned(s, p, Add32(p.phase.h, 1), Items(actions), O.Relayed(cfg.cd, s.store, actions, disk),
                    Run(cfg, s, BlockSteps(cfg, p.phase.h, disk)))
  {
    hide Run, Acts, O.Relayed, Items;
    var actions := cfg.chain(p.phase.h);
    var n := |actions|;
    var s1 := Apply(cfg, s, Fetch);
    FirstStep(cfg, s, Fetch);
    RunOn(cfg, s, [Fetch], Acts(disk, n));
    ActsAre(cfg, s1, s1.proc.value, disk, n);
    assert actions[..n] == actions;
    RunOneMore(cfg, s, [Fetch] + Acts(disk, n), EndBlock);
  }

  // ---------- One tick ----------

  /** The steps over the n heights from h on. */
  function HeightSteps(cfg: Config, h: nat, n: nat, disk: (int, nat) -> Io): seq<Step>
    requires h + n <= TWO_TO_THE_32
  {
    if n == 0 then []
    else HeightSteps(cfg, h, n - 1, disk) + BlockSteps(cfg, h + n - 1, O.DiskAt(disk, h + n - 1))
  }

  /** What these heights send, and what they mark. */
  function ItemsOver(cfg: Config, h: nat, n: nat): seq<ToSign>
    requires h + n <= TWO_TO_THE_32
  {
    if n == 0 then [] else ItemsOver(cfg, h, n - 1) + Items(cfg.chain(h + n - 1))
  }

  function RelayedOver(cfg: Config, s: Store, h: nat, n: nat, disk: (int, nat) -> Io): Store
    requires h + n <= TWO_TO_THE_32
  {
    if n == 0 then s
    else O.Relayed(cfg.cd, RelayedOver(cfg, s, h, n - 1, disk), cfg.chain(h + n - 1), O.DiskAt(disk, h + n - 1))
  }

  lemma ScannedTrans(s: System, p: Process, h1: uint32, more1: seq<ToSign>, store1: Store, s1: System,
                     h2: uint32, more2: seq<ToSign>, store2: Store, s2: System)
    requires Scanned(s, p, h1, more1, store1, s1)
    requires Scanned(s1, s1.proc.value, h2, more2, store2, s2)
    ensures Scanned(s, p, h2, more1 + more2, store2, s2)
  {
  }

  /** One more block after some. */
  lemma OneMoreBlock(cfg: Config, s: System, p: Process, h: uint32, more: seq<ToSign>, s1: System, disk: nat -> Io)
    requires p.phase.Between? && Scanned(s, p, h, more, s1.store, s1) && h <= p.phase.newTop
    requires |p.queue| + |more| + |Items(cfg.chain(h))| <= CHANNEL_SIZE
    ensures Scanned(s, p, Add32(h, 1), more + Items(cfg.chain(h)), O.Relayed(cfg.cd, s1.store, cfg.chain(h), disk),
                    Run(cfg, s1, BlockSteps(cfg, h, disk)))
  {
    hide Run, BlockSteps, O.Relayed, Items;
    var p1 := s1.proc.value;
    BlockIsCheckEvents(cfg, s1, p1, disk);
    ScannedTrans(s, p, h, more, s1.store, s1, Add32(h, 1), Items(cfg.chain(h)),
                 O.Relayed(cfg.cd, s1.store, cfg.chain(h), disk), Run(cfg, s1, BlockSteps(cfg, h, disk)));
  }

  lemma NoHeights(cfg: Config, s: System, p: Process, disk: (int, nat) -> Io)
    requires s.proc == Some(p) && p.phase.Between?
    ensures Scanned(s, p, p.phase.h, ItemsOver(cfg, p.phase.h, 0), RelayedOver(cfg, s.store, p.phase.h, 0, disk),
                    Run(cfg, s, HeightSteps(cfg, p.phase.h, 0, disk)))
  {
    assert p.queue + [] == p.queue && p.sent + [] == p.sent;
  }

  /** What a scan so far says of the process. */
  lemma ScannedFits(s: System, p: Process, h: uint32, more: seq<ToSign>, store: Store, s': System)
    requires Scanned(s, p, h, more, store, s')
    ensures s'.store == store
  {
  }

  lemma OverLast(cfg: Config, s: Store, h: nat, n: nat, disk: (int, nat) -> Io)
    requires n > 0 && h + n <= TWO_TO_THE_32
    ensures var last, at := h + n - 1, O.DiskAt(disk, h + n - 1);
            && HeightSteps(cfg, h, n, disk) == HeightSteps(cfg, h, n - 1, disk) + BlockSteps(cfg, last, at)
            && ItemsOver(cfg, h, n) == ItemsOver(cfg, h, n - 1) + Items(cfg.chain(last))
            && RelayedOver(cfg, s, h, n, disk)
               == O.Relayed(cfg.cd, RelayedOver(cfg, s, h, n - 1, disk), cfg.chain(last), at)
  {
  }

  lemma {:induction false} HeightsAre(cfg: Config, s: System, p: Process, n: nat, disk: (int, nat) -> Io)
    requires s.proc == Some(p) && p.phase.Between? && p.phase.newTop < MAX_UINT32
    requires n > 0 ==> p.phase.h + n <= p.phase.newTop + 1
    requires p.phase.h + n < TWO_TO_THE_32
    requires |p.queue| + |ItemsOver(cfg, p.phase.h, n)| <= CHANNEL_SIZE
    ensures Scanned(s, p, p.phase.h + n, ItemsOver(cfg, p.phase.h, n), RelayedOver(cfg, s.store, p.phase.h, n, disk),
                    Run(cfg, s, HeightSteps(cfg, p.phase.h, n, disk)))
    decreases n
  {
    hide Run, BlockSteps, O.Relayed, Items, Scanned, O.DiskAt, ItemsOver, RelayedOver, HeightSteps;
    if n == 0 {
      NoHeights(cfg, s, p, disk);
    } else {
      var h: uint32 := p.phase.h + n - 1;
      OverLast(cfg, s.store, p.phase.h, n, disk);
      HeightsAre(cfg, s, p, n - 1, disk);
      var before := HeightSteps(cfg, p.phase.h, n - 1, disk);
      var s1, more := Run(cfg, s, before), ItemsOver(cfg, p.phase.h, n - 1);
      ScannedFits(s, p, h, more, RelayedOver(cfg, s.store, p.phase.h, n - 1, disk), s1);
      RunOn(cfg, s, before, BlockSteps(cfg, h, O.DiskAt(disk, h)));
      OneMoreBlock(cfg, s, p, h, more, s1, O.DiskAt(disk, h));
    }
  }

  /** The service runs on the blocks of this chain. */
  ghost predicate RunsOn(cfg: Config, lib: Lib, hashKey: string, chain: O.Chain) {
    cfg.cd == CoderOf(lib) && forall h: uint32 :: cfg.chain(h) == O.ActionsAt(lib, hashKey, chain, h)
  }

  lemma AtLast(lib: Lib, hashKey: string, chain: O.Chain, s: Store, heights: seq<int>, disk: (int, nat) -> Io)
    requires heights != []
    ensures var n := |heights| - 1;
            var before, actions := heights[..n], O.ActionsAt(lib, hashKey, chain, heights[n]);
            && O.ItemsAt(lib, hashKey, chain, heights) == O.ItemsAt(lib, hashKey, chain, before) + Items(actions)
            && O.RelayedAt(lib, hashKey, chain, s, heights, disk)
               == O.Relayed(CoderOf(lib), O.RelayedAt(lib, hashKey, chain, s, before, disk),
                          actions, O.DiskAt(disk, heights[n]))
            && Sum(O.Counts(lib, hashKey, chain), heights)
               == Sum(O.Counts(lib, hashKey, chain), before) + |Items(actions)|
  {
    hide CoderOf, O.Relayed, O.ActionsAt, O.DiskAt, Items;
  }

  lemma OverNone(cfg: Config, lib: Lib, hashKey: string, chain: O.Chain, h: nat, s: Store, disk: (int, nat) -> Io)
    requires h <= TWO_TO_THE_32
    ensures ItemsOver(cfg, h, 0) == O.ItemsAt(lib, hashKey, chain, Range(h, h)) == []
    ensures RelayedOver(cfg, s, h, 0, disk) == O.RelayedAt(lib, hashKey, chain, s, Range(h, h), disk)
    ensures Sum(O.Counts(lib, hashKey, chain), Range(h, h)) == 0
  {
  }

  lemma {:induction false} OverIsAt(cfg: Config, lib: Lib, hashKey: string, chain: O.Chain, h: nat, n: nat,
                                    s: Store, disk: (int, nat) -> Io)
    requires RunsOn(cfg, lib, hashKey, chain) && h + n <= TWO_TO_THE_32
    ensures ItemsOver(cfg, h, n) == O.ItemsAt(lib, hashKey, chain, Range(h, h + n))
    ensures RelayedOver(cfg, s, h, n, disk) == O.RelayedAt(lib, hashKey, chain, s, Range(h, h + n), disk)
    ensures Sum(O.Counts(lib, hashKey, chain), Range(h, h + n)) == |ItemsOver(cfg, h, n)|
  {
    hide CoderOf, O.Relayed, O.ActionsAt, O.DiskAt, O.ItemsAt, O.RelayedAt, ItemsOver,
      RelayedOver, Sum, O.Counts, Items, HeightSteps;
    if n == 0 {
      OverNone(cfg, lib, hashKey, chain, h, s, disk);
    } else {
      OverIsAt(cfg, lib, hashKey, chain, h, n - 1, s, disk);
      OverLast(cfg, s, h, n, disk);
      var heights := Range(h, h + n);
      assert heights[..n - 1] == Range(h, h + n - 1) && heights[n - 1] == h + n - 1;
      AtLast(lib, hashKey, chain, s, heights, disk);
      assert cfg.chain(h + n - 1) == O.ActionsAt(lib, hashKey, chain, h + n - 1);
    }
  }

  function TickSteps(cfg: Config, newTop: uint32, h: nat, n: nat, disk: (int, nat) -> Io,
                    write: WriteOutcome): seq<Step>
    requires h + n <= TWO_TO_THE_32
  {
    [Report(newTop)] + HeightSteps(cfg, h, n, disk) + [EndTick(write)]
  }

  lemma ReportIs(cfg: Config, s: System, p: Process, newTop: uint32)
    requires s.proc == Some(p) && p.phase == Waiting && newTop != p.top
    ensures Run(cfg, s, [Report(newTop)]) == s.(proc := Some(p.(phase := Between(newTop, Add32(p.top, 1), 0))))
  {
    NothingNewIsEqual(p.top, newTop);
    FirstStep(cfg, s, Report(newTop));
  }

  lemma TickEnd(cfg: Config, s: System, p: Process, newTop: uint32, write: WriteOutcome)
    requires s.proc == Some(p) && p.phase.Between? && p.phase.newTop == newTop && p.phase.h > newTop
    ensures var s', records := Apply(cfg, s, EndTick(write)),
                               NeedsRecord(p.phase.toSign, newTop, p.lastRecorded, cfg.waitingCircle);
            && s'.proc.Some? && s'.proc.value.phase == Waiting && s'.proc.value.top == newTop
            && s'.proc.value.lastRecorded == (if records then newTop else p.lastRecorded)
            && s'.file == (if records then AfterWrite(s.file, newTop, write) else s.file)
            && s'.proc.value.queue == p.queue && s'.store == s.store
  {
  }

  /** How many heights a tick that ends dispatches. */
  function HeightsOf(top: uint32, newTop: uint32): nat {
    Max(0, newTop + 1 - Add32(top, 1))
  }

  /** A whole tick, in the machine's own terms. */
  lemma TickOver(cfg: Config, s: System, p: Process, newTop: uint32, disk: (int, nat) -> Io, write: WriteOutcome)
    requires s.proc == Some(p) && p.phase == Waiting && newTop != p.top && newTop < MAX_UINT32
    requires |p.queue| + |ItemsOver(cfg, Add32(p.top, 1), HeightsOf(p.top, newTop))| <= CHANNEL_SIZE
    ensures var h, n := Add32(p.top, 1), HeightsOf(p.top, newTop);
            var s' := Run(cfg, s, TickSteps(cfg, newTop, h, n, disk, write));
            var records := NeedsRecord(|ItemsOver(cfg, h, n)|, newTop, p.lastRecorded, cfg.waitingCircle);
            && s'.proc.Some? && s'.proc.value.phase == Waiting && s'.proc.value.top == newTop
            && s'.proc.value.lastRecorded == (if records then newTop else p.lastRecorded)
            && s'.file == (if records then AfterWrite(s.file, newTop, write) else s.file)
            && s'.proc.value.queue == p.queue + ItemsOver(cfg, h, n)
            && s'.store == RelayedOver(cfg, s.store, h, n, disk)
  {
    hide HeightSteps, ItemsOver, RelayedOver, Run, Apply, NeedsRecord, AfterWrite;
    var h, n := Add32(p.top, 1), HeightsOf(p.top, newTop);
    var steps1, steps2 := [Report(newTop)], HeightSteps(cfg, h, n, disk);
    ReportIs(cfg, s, p, newTop);
    var s1 := Run(cfg, s, steps1);
    RunOn(cfg, s, steps1, steps2);
    HeightsAre(cfg, s1, s1.proc.value, n, disk);
    var s2 := Run(cfg, s1, steps2);
    TickEnd(cfg, s2, s2.proc.value, newTop, write);
    RunOneMore(cfg, s, steps1 + steps2, EndTick(write));
  }

  /** A tick that ends, with room in the channel for what it sends, leaves the scanner, the file,
      the channel and the store exactly as the contract of Tick says. */
  lemma TickIsTick(cfg: Config, lib: Lib, hashKey: string, chain: O.Chain, s: System, newTop: uint32,
                   calls: seq<bool>, disk: (int, nat) -> Io, write: WriteOutcome, trail: seq<int>)
    requires RunsOn(cfg, lib, hashKey, chain)
    requires s.proc.Some? && s.proc.value.phase == Waiting
    requires newTop != s.proc.value.top && newTop < MAX_UINT32
    requires Finished(Add32(s.proc.value.top, 1), newTop, calls)
    requires var heights := Dispatched(Add32(s.proc.value.top, 1), newTop, calls);
             |s.proc.value.queue| + |O.ItemsAt(lib, hashKey, chain, heights)| <= CHANNEL_SIZE
    ensures var p, heights := s.proc.value, Dispatched(Add32(s.proc.value.top, 1), newTop, calls);
            var h, n := Add32(p.top, 1), HeightsOf(p.top, newTop);
            var s' := Run(cfg, s, TickSteps(cfg, newTop, h, n, disk, write));
            var t := AfterTick(Session(p.top, p.lastRecorded, s.file, trail), Height(newTop, calls, write),
                               O.Counts(lib, hashKey, chain), cfg.waitingCircle);
            && s'.proc.Some? && s'.proc.value.phase == Waiting
            && s'.proc.value.top == t.top && s'.proc.value.lastRecorded == t.lastRecorded && s'.file == t.file
            && s'.proc.value.queue == p.queue + O.ItemsAt(lib, hashKey, chain, heights)
            && s'.store == O.RelayedAt(lib, hashKey, chain, s.store, heights, disk)
  {
    hide HeightSteps, O.ItemsAt, O.RelayedAt, ItemsOver, RelayedOver,
      RunsOn, Dispatched, Reached, NeedsRecord, Sum, Run, TickSteps;
    var p := s.proc.value;
    var h, n := Add32(p.top, 1), HeightsOf(p.top, newTop);
    NothingNewIsEqual(p.top, newTop);
    TickDispatches(h, newTop, calls);
    assert Dispatched(h, newTop, calls) == Range(h, h + n);
    OverIsAt(cfg, lib, hashKey, chain, h, n, s.store, disk);
    TickOver(cfg, s, p, newTop, disk, write);
  }

  /** A started process stands where the observer's constructor does. */
  lemma StartIsOpen(cfg: Config, s: System, startHeight: uint32, read: bool)
    requires s.proc == None
    ensures var s', o := Apply(cfg, s, Start(startHeight, read)), Open(startHeight, s.file);
            && s'.proc.Some? && s'.proc.value.top == o.top && s'.proc.value.lastRecorded == o.lastRecorded
            && s'.file == o.file && s'.proc.value.phase == Waiting
            && o.top == if startHeight != 0 then startHeight else LastHeight(s.file)
  {
  }

  // ---------- One item ----------

  /** The signer's steps for an item that is handled so. */
  function HandleSteps(h: Sign.Handled, now: Time, io: Io): seq<Step> {
    match h
    case Dropped(_) => [Take, GiveUp]
    case Panicked(_) => [Take, Crash]
    case Refused => [Take, GiveUp]
    case Retrying => [Take]
    case Stored => [Take, Accept, Save(now, io)]
  }

  lemma TakeIs(cfg: Config, s: System)
    requires s.proc.Some? && s.proc.value.hand == Free && s.proc.value.queue != []
    ensures var p := s.proc.value;
            Apply(cfg, s, Take) == s.(proc := Some(p.(queue := p.queue[1..], hand := Holding(p.queue[0]))))
  {
  }

  lemma GiveUpIs(cfg: Config, s: System)
    requires s.proc.Some? && s.proc.value.hand.Holding?
    ensures var p := s.proc.value;
            Apply(cfg, s, GiveUp) == s.(proc := Some(p.(hand := Free, handled := p.handled + [p.hand.item])))
  {
  }

  lemma CrashIs(cfg: Config, s: System)
    requires s.proc.Some?
    ensures Apply(cfg, s, Crash) == s.(proc := None)
  {
  }

  lemma SaveIs(cfg: Config, s: System, now: Time, io: Io)
    requires s.proc.Some? && s.proc.value.hand.Holding?
    ensures var p, x := s.proc.value, s.proc.value.hand.item;
            var s' := Apply(cfg, Apply(cfg, s, Accept), Save(now, io));
            && s'.proc == Some(p.(hand := Free, handled := p.handled + [x])) && s'.file == s.file
            && s'.store == PutStep(cfg.cd, s.store, cfg.keyOf(x), cfg.toStore(x, now), io)
            && s'.hist.accepted == s.hist.accepted + [x]
  {
    hide PutStep;
  }

  lemma StepsOf(cfg: Config, s: System, now: Time, io: Io)
    ensures Run(cfg, s, [Take]) == Apply(cfg, s, Take)
    ensures Run(cfg, s, [Take, GiveUp]) == Apply(cfg, Apply(cfg, s, Take), GiveUp)
    ensures Run(cfg, s, [Take, Crash]) == Apply(cfg, Apply(cfg, s, Take), Crash)
    ensures Run(cfg, s, [Take, Accept, Save(now, io)])
            == Apply(cfg, Apply(cfg, Apply(cfg, s, Take), Accept), Save(now, io))
  {
    hide Apply, Run;
    FirstStep(cfg, s, Take);
    RunOneMore(cfg, s, [Take], GiveUp);
    RunOneMore(cfg, s, [Take], Crash);
    assert [Take] + [Crash] == [Take, Crash];
    RunOneMore(cfg, s, [Take], Accept);
    RunOneMore(cfg, s, [Take, Accept], Save(now, io));
    assert [Take] + [GiveUp] == [Take, GiveUp] && [Take] + [Accept] == [Take, Accept];
    assert [Take, Accept] + [Save(now, io)] == [Take, Accept, Save(now, io)];
  }

  /** For the program's own keys and records, these steps take the oldest item off the channel and
      leave the store exactly as the contract of Handle says; the signer has let go of the item
      unless it is still posting it, and the process has ended if the signer panicked. */
  lemma HandleIsHandle(lib: Lib, chain: uint32 -> seq<Action>, waitingCircle: uint32, s: System,
                       h: Sign.Handled, now: Time, io: Io)
    requires s.proc.Some? && s.proc.value.hand == Free && s.proc.value.queue != []
    ensures var p, x := s.proc.value, s.proc.value.queue[0];
            var s' := Run(ConfigOf(lib, chain, waitingCircle), s, HandleSteps(h, now, io));
            && s'.proc == (if h.Panicked? then None
                           else Some(p.(queue := p.queue[1..],
                                        hand := if h.Retrying? then Holding(x) else Free,
                                        handled := if h.Retrying? then p.handled else p.handled + [x])))
            && s'.file == s.file
            && s'.store == (if h.Stored?
                            then PutStep(CoderOf(lib), s.store, TxKey(lib, x.mtx), Sign.ToStore(x, now), io)
                            else s.store)
            && s'.hist.accepted == s.hist.accepted + (if h.Stored? then [x] else [])
  {
    hide CoderOf, PutStep, Apply, Run;
    var cfg := ConfigOf(lib, chain, waitingCircle);
    var s1 := Apply(cfg, s, Take);
    StepsOf(cfg, s, now, io);
    TakeIs(cfg, s);
    GiveUpIs(cfg, s1);
    CrashIs(cfg, s1);
    SaveIs(cfg, s1, now, io);
  }
}
