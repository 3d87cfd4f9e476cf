/** The whole service as a transition system: scanner, bounded channel, signer and store, with
    every interleaving of their steps, crashes at any point and restarts. */
module Pipeline {
  import opened Prelude
  import opened Wire
  import opened Codec
  import opened Records
  import opened StoreSpec
  import opened HeightFile
  import opened Scanner
  import opened Events
  import opened Signer

  const CHANNEL_SIZE := 100

  /** What does not change: how items are keyed and stored, what each block asks for, and the
      distance after which a height is recorded. */
  datatype Config = Config(
    cd: Coder,
    keyOf: ToSign -> Bytes,
    toStore: (ToSign, Time) -> Saved,
    chain: uint32 -> seq<Action>,
    waitingCircle: uint32)

  /** Items are stored unmarked, at the time given, under the key of their own hash. */
  ghost predicate ConfigOk(cfg: Config) {
    forall x, now ::
      var y := cfg.toStore(x, now);
      y.time == now && !y.done && KeyOf(cfg.cd, y) == cfg.keyOf(x)
  }

  function ConfigOf(lib: Lib, chain: uint32 -> seq<Action>, waitingCircle: uint32): Config {
    Config(CoderOf(lib), (x: ToSign) => TxKey(lib, x.mtx), (x: ToSign, now: Time) => ToStore(x, now),
           chain, waitingCircle)
  }

  lemma ConfigOfOk(lib: Lib, chain: uint32 -> seq<Action>, waitingCircle: uint32)
    ensures ConfigOk(ConfigOf(lib, chain, waitingCircle))
  {
  }

  // ---------- States ----------

  /** The scanner between ticks, between blocks of a tick, or inside a block. */
  datatype Phase =
    | Waiting
    | Between(newTop: uint32, h: uint32, toSign: nat)
    | Inside(newTop: uint32, h: uint32, toSign: nat, at: nat)

  /** The signer with nothing, with an item not yet accepted, or with one to be stored. */
  datatype Hand = Free | Holding(item: ToSign) | ToBeStored(item: ToSign)

  /** A running process. sent and handled are histories: all items put on the channel, and all
      items the signer is through with. */
  datatype Process = Process(
    top: uint32, lastRecorded: uint32, phase: Phase,
    queue: seq<ToSign>, hand: Hand,
    sent: seq<ToSign>, handled: seq<ToSign>)

  /** What has happened over all sessions: the height the first one started from, the highest
      height claimed as scanned, the heights scanned and fetched, the keys of relay events
      handled, the items sent to the signer, the items accepted, and those of them whose storing
      met no disk error. And over the last session: its start, the highest height it claimed, the
      heights it scanned. */
  datatype History = History(
    base: Option<uint32>, hi: uint32, scanned: set<uint32>, fetched: set<uint32>,
    relays: set<Bytes>, captured: set<ToSign>, accepted: seq<ToSign>, kept: seq<ToSign>,
    start: uint32, high: uint32, seen: set<uint32>)

  datatype System = System(file: Option<string>, store: Store, proc: Option<Process>, hist: History)

  function Initial(file: Option<string>): System {
    System(file, EMPTY, None, History(None, 0, {}, {}, {}, {}, [], [], 0, 0, {}))
  }

  // ---------- Steps ----------

  /** One atomic step. Retries that change nothing are not listed. CrashWriting is a crash while
      the height file is being written; a crash between the two writes of an insert is a Save
      step with a failed counter write, then a Crash. */
  datatype Step =
    | Start(startHeight: uint32, read: bool)
    | Crash
    | CrashWriting(written: nat)
    | Report(newTop: uint32)
    | Fetch
    | Act(io: Io)
    | EndBlock
    | EndTick(write: WriteOutcome)
    | Take
    | GiveUp
    | Accept
    | Save(now: Time, io: Io)
    | ReadBatch(ks: seq<Bytes>, vs: seq<Saved>)

  /** The process starts: the scanner at the configured or recorded height, the store reopened
      with or without its counter. */
  function StartStep(s: System, startHeight: uint32, read: bool): System {
    var top := StartTop(startHeight, s.file);
    var hist := s.hist.(start := top, high := top, seen := {});
    s.(proc := Some(Process(top, top, Waiting, [], Free, [], [])), store := Reopen(s.store, read),
       hist := if hist.base == None then hist.(base := Some(top), hi := top) else hist)
  }

  predicate AtTickEnd(p: Process) {
    p.phase.Between? && p.phase.h > p.phase.newTop
  }

  function RecordsNow(cfg: Config, p: Process): bool
    requires AtTickEnd(p)
  {
    NeedsRecord(p.phase.toSign, p.phase.newTop, p.lastRecorded, cfg.waitingCircle)
  }

  function TickEnded(s: System, newTop: uint32): History {
    s.hist.(hi := Max(s.hist.hi, newTop), high := Max(s.hist.high, newTop))
  }

  /** The action at the current position of the current block. */
  function ActStep(cfg: Config, s: System, p: Process, io: Io): System {
    if !p.phase.Inside? || p.phase.at >= |cfg.chain(p.phase.h)| then s
    else
      var next := p.phase.(at := p.phase.at + 1);
      match cfg.chain(p.phase.h)[p.phase.at]
      case Skip => s.(proc := Some(p.(phase := next)))
      case Sign(x) =>
        if |p.queue| >= CHANNEL_SIZE then s
        else s.(proc := Some(p.(phase := next.(toSign := next.toSign + 1),
                                queue := p.queue + [x], sent := p.sent + [x])),
                  hist := s.hist.(captured := s.hist.captured + {x}))
      case Relay(k) =>
        s.(proc := Some(p.(phase := next)), store := DoneStep(cfg.cd, s.store, k, io),
           hist := s.hist.(relays := s.hist.relays + {k}))
  }

  /** Storing an accepted item. */
  function SaveStep(cfg: Config, s: System, p: Process, now: Time, io: Io): System {
    if !p.hand.ToBeStored? then s
    else
      var x := p.hand.item;
      var y := cfg.toStore(x, now);
      var kept := io.get && io.put && cfg.cd.encode(y).Some?;
      s.(store := PutStep(cfg.cd, s.store, cfg.keyOf(x), y, io),
         proc := Some(p.(hand := Free, handled := p.handled + [x])),
         hist := s.hist.(accepted := s.hist.accepted + [x],
                         kept := if kept then s.hist.kept + [x] else s.hist.kept))
  }

  /** One step of a running process; a step that is not possible changes nothing. */
  ghost function ProcessStep(cfg: Config, s: System, p: Process, step: Step): System {
    match step
    case Start(_, _) => s
    case Crash => s.(proc := None)
    case CrashWriting(written) =>
      if AtTickEnd(p) && RecordsNow(cfg, p) then
        s.(proc := None, file := AfterWrite(s.file, p.phase.newTop, Torn(written)),
           hist := TickEnded(s, p.phase.newTop))
      else s
    case Report(newTop) =>
      if p.phase.Waiting? && !NothingNew(p.top, newTop)
      then s.(proc := Some(p.(phase := Between(newTop, Add32(p.top, 1), 0)))) else s
    case Fetch =>
      if p.phase.Between? && p.phase.h <= p.phase.newTop then
        s.(proc := Some(p.(phase := Inside(p.phase.newTop, p.phase.h, p.phase.toSign, 0))),
           hist := s.hist.(fetched := s.hist.fetched + {p.phase.h}))
      else s
    case Act(io) => ActStep(cfg, s, p, io)
    case EndBlock =>
      if p.phase.Inside? && p.phase.at == |cfg.chain(p.phase.h)| then
        s.(proc := Some(p.(phase := Between(p.phase.newTop, Add32(p.phase.h, 1), p.phase.toSign))),
           hist := s.hist.(scanned := s.hist.scanned + {p.phase.h}, seen := s.hist.seen + {p.phase.h}))
      else s
    case EndTick(write) =>
      if AtTickEnd(p) then
        var newTop, records := p.phase.newTop, RecordsNow(cfg, p);
        s.(proc := Some(p.(top := newTop, phase := Waiting,
                           lastRecorded := if records then newTop else p.lastRecorded)),
           file := if records then AfterWrite(s.file, newTop, write) else s.file,
           hist := TickEnded(s, newTop))
      else s
    case Take =>
      if p.hand.Free? && p.queue != []
      then s.(proc := Some(p.(hand := Holding(p.queue[0]), queue := p.queue[1..]))) else s
    case GiveUp =>
      if p.hand.Holding? then s.(proc := Some(p.(hand := Free, handled := p.handled + [p.hand.item]))) else s
    case Accept =>
      if p.hand.Holding? then s.(proc := Some(p.(hand := ToBeStored(p.hand.item)))) else s
    case Save(now, io) => SaveStep(cfg, s, p, now, io)
    case ReadBatch(ks, vs) => s.(store := ReadStep(cfg.cd, s.store, ks, vs))
  }

  ghost function Apply(cfg: Config, s: System, step: Step): System {
    match s.proc
    case Some(p) => ProcessStep(cfg, s, p, step)
    case None => if step.Start? then StartStep(s, step.startHeight, step.read) else s
  }

  ghost function Run(cfg: Config, s: System, steps: seq<Step>): System {
    if steps == [] then s
    else Apply(cfg, Run(cfg, s, steps[..|steps| - 1]), steps[|steps| - 1])
  }

  lemma RunOneMore(cfg: Config, s: System, steps: seq<Step>, step: Step)
    ensures Run(cfg, s, steps + [step]) == Apply(cfg, Run(cfg, s, steps), step)
  {
    assert (steps + [step])[..|steps|] == steps;
  }

  lemma {:induction false} RunOn(cfg: Config, s: System, a: seq<Step>, b: seq<Step>)
    ensures Run(cfg, s, a + b) == Run(cfg, Run(cfg, s, a), b)
    decreases |b|
  {
    if b == [] {
      assert a + b == a;
    } else {
      var n := |b| - 1;
      assert a + b == (a + b[..n]) + [b[n]];
      RunOneMore(cfg, s, a + b[..n], b[n]);
      RunOn(cfg, s, a, b[..n]);
    }
  }

  lemma FirstStep(cfg: Config, s: System, step: Step)
    ensures Run(cfg, s, [step]) == Apply(cfg, s, step)
  {
    RunOneMore(cfg, s, [], step);
    assert [] + [step] == [step];
  }

  // ---------- Conservation through the channel ----------

  function InHand(hand: Hand): seq<ToSign> {
    if hand.Free? then [] else [hand.item]
  }

  /** Everything sent is handled, in hand or queued, in order. */
  ghost predicate Conserved(s: System) {
    s.proc.Some? ==>
      var p := s.proc.value;
      |p.queue| <= 100 && p.sent == p.handled + InHand(p.hand) + p.queue
  }

  lemma ConservedStep(cfg: Config, s: System, step: Step)
    requires Conserved(s)
    ensures Conserved(Apply(cfg, s, step))
  {
    if s.proc.Some? {
      var p := s.proc.value;
      if step.Take? && p.hand.Free? && p.queue != [] {
        assert [p.queue[0]] + p.queue[1..] == p.queue;
        assert p.handled + [] + p.queue == p.handled + [p.queue[0]] + p.queue[1..];
      }
    }
  }

  /** A send waits exactly while a hundred items are queued, and then goes to the end. */
  lemma SendWaits(cfg: Config, s: System, io: Io)
    requires Conserved(s) && s.proc.Some? && s.proc.value.phase.Inside?
    requires s.proc.value.phase.at < |cfg.chain(s.proc.value.phase.h)|
    requires cfg.chain(s.proc.value.phase.h)[s.proc.value.phase.at].Sign?
    ensures var p, s' := s.proc.value, Apply(cfg, s, Act(io));
            var x := cfg.chain(p.phase.h)[p.phase.at].item;
            && (|p.queue| == 100 <==> s' == s)
            && (|p.queue| < 100 ==> s'.proc.Some? && s'.proc.value.queue == p.queue + [x])
  {
  }

  lemma {:induction false} Conservation(cfg: Config, file: Option<string>, steps: seq<Step>)
    ensures Conserved(Run(cfg, Initial(file), steps))
  {
    if steps == [] {
    } else {
      Conservation(cfg, file, steps[..|steps| - 1]);
      ConservedStep(cfg, Run(cfg, Initial(file), steps[..|steps| - 1]), steps[|steps| - 1]);
    }
  }
}
