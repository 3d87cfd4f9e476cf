/** The store inside the running service: what the marks mean, what is stored, and that the
    cache stays right over all interleavings, crashes and restarts. */
module Soundness {
  import opened Prelude
  import opened Wire
  import opened Codec
  import opened Records
  import opened StoreSpec
  import opened Batches
  import L = Lookups
  import S = StoreRuns
  import opened Events
  import opened Pipeline

  // ---------- What a step does to the store ----------

  /** The call a step makes on the database, if it makes one. */
  function CallOf(cfg: Config, s: System, step: Step): Option<S.Op> {
    match s.proc
    case None => if step.Start? then Some(S.Restart(step.read)) else None
    case Some(p) =>
      match step
      case Act(io) =>
        if p.phase.Inside? && p.phase.at < |cfg.chain(p.phase.h)| && cfg.chain(p.phase.h)[p.phase.at].Relay?
        then Some(S.Done(cfg.chain(p.phase.h)[p.phase.at].key, io)) else None
      case Save(now, io) =>
        if p.hand.ToBeStored?
        then Some(S.Put(cfg.keyOf(p.hand.item), cfg.toStore(p.hand.item, now), io)) else None
      case ReadBatch(ks, vs) => Some(S.Read(ks, vs))
      case _ => None
  }

  /** The store changes only by calls on the database. */
  lemma StepIsCall(cfg: Config, s: System, step: Step)
    ensures Apply(cfg, s, step).store
            == match CallOf(cfg, s, step) case None => s.store case Some(op) => S.Apply(cfg.cd, s.store, op)
  {
  }

  /** The calls a run makes, in order. */
  ghost function CallsOf(cfg: Config, s: System, steps: seq<Step>): seq<S.Op> {
    if steps == [] then []
    else
      var n := |steps| - 1;
      CallsOf(cfg, s, steps[..n])
      + match CallOf(cfg, Run(cfg, s, steps[..n]), steps[n]) case None => [] case Some(op) => [op]
  }

  lemma {:induction false} RunIsCalls(cfg: Config, s: System, steps: seq<Step>)
    ensures Run(cfg, s, steps).store == S.Run(cfg.cd, s.store, CallsOf(cfg, s, steps))
  {
    if steps == [] {
    } else {
      var n := |steps| - 1;
      RunIsCalls(cfg, s, steps[..n]);
      var before, calls := Run(cfg, s, steps[..n]), CallsOf(cfg, s, steps[..n]);
      StepIsCall(cfg, before, steps[n]);
      match CallOf(cfg, before, steps[n])
      case None => assert CallsOf(cfg, s, steps) == calls;
      case Some(op) =>
        assert CallsOf(cfg, s, steps) == calls + [op];
        assert (calls + [op])[..|calls|] == calls;
    }
  }

  /** So the counters mean in the service what they mean in the store: over every run the
      counter in memory is the records stored less those forgotten at restarts. */
  lemma ServiceCounters(cfg: Config, file: Option<string>, steps: seq<Step>)
    requires |Run(cfg, Initial(file), steps).store.table| < TWO_TO_THE_64
    ensures var s, calls := Run(cfg, Initial(file), steps).store, CallsOf(cfg, Initial(file), steps);
            && s.total == |s.table| - S.Forgotten(cfg.cd, EMPTY, calls)
            && Recorded(s) == s.total - S.Unrecorded(cfg.cd, EMPTY, calls)
  {
    RunIsCalls(cfg, Initial(file), steps);
    S.Counters(cfg.cd, CallsOf(cfg, Initial(file), steps));
  }

  // ---------- Marks in a store ----------

  /** Only records with keys in ks are marked, on disk or in the cache. */
  ghost predicate MarkedWithin(cd: Coder, s: Store, ks: set<Bytes>) {
    && Good(cd, s.table)
    && (forall k :: k in s.table && View(cd, s.table)[k].done ==> k in ks)
    && forall i :: 0 <= i < |s.cache| && s.cache[i].done ==> KeyOf(cd, s.cache[i]) in ks
  }

  lemma MarkedPut(cd: Coder, s: Store, h: Bytes, x: Saved, io: Io, ks: set<Bytes>)
    requires MarkedWithin(cd, s, ks) && (Inserts(cd, s, h, x, io) ==> Sound(cd, x) && KeyOf(cd, x) == h && !x.done)
    ensures MarkedWithin(cd, PutStep(cd, s, h, x, io), ks)
  {
    S.PutView(cd, s, h, x, io);
    var s' := PutStep(cd, s, h, x, io);
    if Inserts(cd, s, h, x, io) {
      forall i | 0 <= i < |s'.cache| && s'.cache[i].done ensures KeyOf(cd, s'.cache[i]) in ks {
        assert s'.cache[i] == if i == 0 then x else s.cache[i - 1];
      }
    }
  }

  lemma MarkedDoneCache(cd: Coder, cache: seq<Saved>, h: Bytes, ks: set<Bytes>, i: nat)
    requires forall i :: 0 <= i < |cache| && cache[i].done ==> KeyOf(cd, cache[i]) in ks
    requires i < |DoneCache(cd, cache, h)| && DoneCache(cd, cache, h)[i].done
    ensures KeyOf(cd, DoneCache(cd, cache, h)[i]) in ks + {h}
  {
    var f := Find(cd, cache, h);
    if f.Some? && f.value == i {
      assert DoneCache(cd, cache, h)[i].item == cache[i].item;
    } else {
      assert DoneCache(cd, cache, h)[i] == cache[i];
    }
  }

  lemma MarkedDone(cd: Coder, s: Store, h: Bytes, io: Io, ks: set<Bytes>)
    requires MarkedWithin(cd, s, ks)
    ensures MarkedWithin(cd, DoneStep(cd, s, h, io), ks + {h})
  {
    S.DoneView(cd, s.table, h, io);
    var cache' := DoneCache(cd, s.cache, h);
    forall i | 0 <= i < |cache'| && cache'[i].done ensures KeyOf(cd, cache'[i]) in ks + {h} {
      MarkedDoneCache(cd, s.cache, h, ks, i);
    }
  }

  /** Marks in a batch are marks of the table. */
  lemma MarkedRead(cd: Coder, s: Store, hs: seq<Bytes>, vs: seq<Saved>, ks: set<Bytes>)
    requires MarkedWithin(cd, s, ks)
    ensures MarkedWithin(cd, ReadStep(cd, s, hs, vs), ks)
  {
    hide View, Good, ListedBy;
    if !FastPath(s) && ListedBy(cd, s.table, hs, vs) {
      var cache' := ReadStep(cd, s, hs, vs).cache;
      forall i | 0 <= i < |cache'| && cache'[i].done ensures KeyOf(cd, cache'[i]) in ks {
        if i >= |s.cache| {
          assert cache'[i] == Top(vs)[i] == vs[i];
          ListedWithin(cd, s.table, hs, vs, i);
        }
      }
    }
  }

  // ---------- Marks in the service ----------

  /** What a step inserts survives its encoding; nothing is asked of a save that inserts nothing. */
  ghost predicate ProperStep(cfg: Config, s: System, step: Step) {
    match CallOf(cfg, s, step)
    case Some(Put(h, y, io)) => Inserts(cfg.cd, s.store, h, y, io) ==> Sound(cfg.cd, y)
    case _ => true
  }

  /** A marked record is under the key of a relay event of a block that was fetched. */
  ghost predicate DoneSound(cfg: Config, s: System) {
    && MarkedWithin(cfg.cd, s.store, s.hist.relays)
    && (forall k :: k in s.hist.relays ==> exists h :: h in s.hist.fetched && Relay(k) in cfg.chain(h))
    && (s.proc.Some? && s.proc.value.phase.Inside? ==> s.proc.value.phase.h in s.hist.fetched)
  }

  lemma DoneSoundStep(cfg: Config, s: System, step: Step)
    requires ConfigOk(cfg) && DoneSound(cfg, s) && ProperStep(cfg, s, step)
    ensures DoneSound(cfg, Apply(cfg, s, step))
  {
    hide Good, View, Find, Sound, ReadStep, DoneStep;
    match s.proc
    case None =>
    case Some(p) =>
      match step
      case Act(io) => DoneSoundAct(cfg, s, p, io);
      case Save(now, io) =>
        if p.hand.ToBeStored? {
          var x := p.hand.item;
          MarkedPut(cfg.cd, s.store, cfg.keyOf(x), cfg.toStore(x, now), io, s.hist.relays);
        }
      case ReadBatch(ks, vs) => MarkedRead(cfg.cd, s.store, ks, vs, s.hist.relays);
      case _ =>
  }

  lemma DoneSoundAct(cfg: Config, s: System, p: Process, io: Io)
    requires DoneSound(cfg, s) && s.proc == Some(p)
    ensures DoneSound(cfg, ActStep(cfg, s, p, io))
  {
    if p.phase.Inside? && p.phase.at < |cfg.chain(p.phase.h)| {
      var a := cfg.chain(p.phase.h)[p.phase.at];
      if a.Relay? {
        MarkedDone(cfg.cd, s.store, a.key, io, s.hist.relays);
        assert Relay(a.key) in cfg.chain(p.phase.h);
      }
    }
  }

  ghost predicate ProperRun(cfg: Config, s: System, steps: seq<Step>) {
    steps != [] ==>
      var n := |steps| - 1;
      ProperRun(cfg, s, steps[..n]) && ProperStep(cfg, Run(cfg, s, steps[..n]), steps[n])
  }

  /** Over every run, whatever fails and whenever the process crashes. */
  lemma {:induction false} DoneSoundness(cfg: Config, file: Option<string>, steps: seq<Step>)
    requires ConfigOk(cfg) && ProperRun(cfg, Initial(file), steps)
    ensures DoneSound(cfg, Run(cfg, Initial(file), steps))
  {
    if steps == [] {
    } else {
      var n := |steps| - 1;
      DoneSoundness(cfg, file, steps[..n]);
      DoneSoundStep(cfg, Run(cfg, Initial(file), steps[..n]), steps[n]);
    }
  }

  /** And what the disk takes is marked: after a relay action whose disk calls succeed, a stored
      record under its key is marked, on disk and for every lookup. */
  lemma RelayMarks(cfg: Config, s: System, io: Io, k: Bytes)
    requires Hits(cfg.cd, s.store, false) && s.proc.Some? && s.proc.value.phase.Inside?
    requires s.proc.value.phase.at < |cfg.chain(s.proc.value.phase.h)|
    requires cfg.chain(s.proc.value.phase.h)[s.proc.value.phase.at] == Relay(k)
    requires io.get && io.put && k in s.store.table
    ensures var t := Apply(cfg, s, Act(io)).store;
            Good(cfg.cd, t.table) && k in t.table && View(cfg.cd, t.table)[k].done && L.SeenDone(cfg.cd, t, k)
  {
    hide Good, View, Find, DoneCache, DoneTable;
    S.DoneView(cfg.cd, s.store.table, k, io);
    L.HitsDone(cfg.cd, s.store, k, io);
    L.SeenWhen(cfg.cd, DoneStep(cfg.cd, s.store, k, io), k);
  }

  /** For the program's own keys and the events of real blocks: a record that is marked, on disk
      or in the cache, is under the key of a relay event for this redeem key in a fetched block. */
  lemma MarkedOnlyByEvents(lib: Lib, hashKey: string, blocks: uint32 -> Block, cfg: Config, file: Option<string>,
                           steps: seq<Step>, k: Bytes)
    requires forall h :: BlockWellFormed(hashKey, blocks(h)) && cfg.chain(h) == BlockActions(lib, hashKey, blocks(h))
    requires cfg == ConfigOf(lib, cfg.chain, cfg.waitingCircle)
    requires ProperRun(cfg, Initial(file), steps)
    requires var s := Run(cfg, Initial(file), steps);
             (k in s.store.table && ParseSaved(lib, s.store.table[k]).Some?
              && ParseSaved(lib, s.store.table[k]).value.done)
             || exists i :: 0 <= i < |s.store.cache| && s.store.cache[i].done
                          && TxHash(lib, s.store.cache[i].item.mtx) == k
    ensures var s := Run(cfg, Initial(file), steps);
            exists h :: h in s.hist.fetched && HasRelay(lib, hashKey, blocks(h), k)
  {
    var s := Run(cfg, Initial(file), steps);
    ConfigOfOk(lib, cfg.chain, cfg.waitingCircle);
    DoneSoundness(cfg, file, steps);
    if k in s.store.table && ParseSaved(lib, s.store.table[k]).Some? && ParseSaved(lib, s.store.table[k]).value.done {
      assert cfg.cd.decode(s.store.table[k]) == Some(View(cfg.cd, s.store.table)[k]);
    }
    assert k in s.hist.relays;
    var h :| h in s.hist.fetched && Relay(k) in cfg.chain(h);
    RelaysAreEvents(lib, hashKey, blocks(h), k);
  }

  // ---------- Records never go back ----------

  lemma GrewApply(cfg: Config, s: System, step: Step)
    requires ConfigOk(cfg) && Good(cfg.cd, s.store.table) && ProperStep(cfg, s, step)
    ensures var s' := Apply(cfg, s, step);
            Good(cfg.cd, s'.store.table) && S.Grew(View(cfg.cd, s.store.table), View(cfg.cd, s'.store.table))
  {
    StepIsCall(cfg, s, step);
    match CallOf(cfg, s, step)
    case None =>
    case Some(op) => S.GrewStep(cfg.cd, s.store, op);
  }

  /** Once stored, a record keeps its item and time, and once marked it stays marked, through
      insertions, evictions, batch reads, failures, crashes and restarts. */
  lemma {:induction false} RecordsPersist(cfg: Config, s: System, steps: seq<Step>)
    requires ConfigOk(cfg) && Good(cfg.cd, s.store.table) && ProperRun(cfg, s, steps)
    ensures var s' := Run(cfg, s, steps);
            Good(cfg.cd, s'.store.table) && S.Grew(View(cfg.cd, s.store.table), View(cfg.cd, s'.store.table))
  {
    if steps == [] {
    } else {
      var n := |steps| - 1;
      RecordsPersist(cfg, s, steps[..n]);
      GrewApply(cfg, Run(cfg, s, steps[..n]), steps[n]);
    }
  }

  // ---------- Lookups in the service ----------

  lemma HitsApply(cfg: Config, s: System, step: Step, exact: bool)
    requires ConfigOk(cfg) && Hits(cfg.cd, s.store, exact) && ProperStep(cfg, s, step)
    requires exact ==> MarkReachesDisk(cfg, s, step)
    ensures Hits(cfg.cd, Apply(cfg, s, step).store, exact)
  {
    hide Hits, Inserts, Sound;
    StepIsCall(cfg, s, step);
    match CallOf(cfg, s, step)
    case None =>
    case Some(op) =>
      HitsGood(cfg.cd, s.store, exact);
      L.HitsStep(cfg.cd, s.store, op, exact);
  }

  lemma HitsGood(cd: Coder, s: Store, exact: bool)
    requires Hits(cd, s, exact)
    ensures Good(cd, s.table)
  {
  }

  /** A mark made by this step reaches the disk, or finds nothing unmarked in the cache. */
  ghost predicate MarkReachesDisk(cfg: Config, s: System, step: Step) {
    match CallOf(cfg, s, step)
    case Some(Done(h, io)) => Good(cfg.cd, s.store.table) ==> S.MarkReaches(cfg.cd, s.store, h, io)
    case _ => true
  }

  ghost predicate MarksReachDisk(cfg: Config, s: System, steps: seq<Step>) {
    steps != [] ==>
      var n := |steps| - 1;
      MarksReachDisk(cfg, s, steps[..n]) && MarkReachesDisk(cfg, Run(cfg, s, steps[..n]), steps[n])
  }

  lemma {:induction false} HitsRun(cfg: Config, s: System, steps: seq<Step>, exact: bool)
    requires ConfigOk(cfg) && ProperRun(cfg, s, steps) && Hits(cfg.cd, s.store, exact)
    requires exact ==> MarksReachDisk(cfg, s, steps)
    ensures Hits(cfg.cd, Run(cfg, s, steps).store, exact)
  {
    hide Apply, Hits, MarkReachesDisk, ProperStep, ConfigOk;
    if steps == [] {
    } else {
      var n := |steps| - 1;
      HitsRun(cfg, s, steps[..n], exact);
      HitsApply(cfg, Run(cfg, s, steps[..n]), steps[n], exact);
    }
  }

  lemma EmptyHits(cd: Coder)
    ensures Hits(cd, EMPTY, true)
  {
    S.EmptyAgrees(cd);
    AgreeHits(cd, EMPTY);
  }

  /** Whatever the clock does, whichever inserts and counter writes fail, however the steps
      interleave and whenever the process restarts: as long as the marks reach the disk, every
      lookup in the running service answers as a lookup in the table. */
  lemma ServiceLookups(cfg: Config, file: Option<string>, steps: seq<Step>)
    requires ConfigOk(cfg) && ProperRun(cfg, Initial(file), steps) && MarksReachDisk(cfg, Initial(file), steps)
    ensures var s := Run(cfg, Initial(file), steps).store;
            && Good(cfg.cd, s.table)
            && forall h, io: Io :: io.get ==> GetStep(cfg.cd, s, h, io) == Lookup(cfg.cd, s.table, h)
  {
    hide Run;
    EmptyHits(cfg.cd);
    HitsRun(cfg, Initial(file), steps, true);
    HitsGood(cfg.cd, Run(cfg, Initial(file), steps).store, true);
    GetIsLookup(cfg.cd, Run(cfg, Initial(file), steps).store);
  }

  /** And when marks fail to reach it: every lookup still finds a record exactly when there is
      one, with its item and time, and shows it done if the disk has it done. */
  lemma ServiceAnswers(cfg: Config, file: Option<string>, steps: seq<Step>, h: Bytes, io: Io)
    requires ConfigOk(cfg) && ProperRun(cfg, Initial(file), steps) && io.get
    ensures var s := Run(cfg, Initial(file), steps).store;
            && Good(cfg.cd, s.table)
            && (GetStep(cfg.cd, s, h, io).Some? <==> h in s.table)
            && (h in s.table ==> StandsFor(GetStep(cfg.cd, s, h, io).value, View(cfg.cd, s.table)[h], false))
  {
    hide Run, View, Good, Find;
    EmptyHits(cfg.cd);
    HitsWeaken(cfg.cd, EMPTY);
    HitsRun(cfg, Initial(file), steps, false);
    var s := Run(cfg, Initial(file), steps).store;
    HitsGood(cfg.cd, s, false);
    assert Hit(cfg.cd, s.cache, h).None? ==> GetStep(cfg.cd, s, h, io) == Lookup(cfg.cd, s.table, h);
  }

  /** In every reachable state: a mark that a lookup has shown is gone after a step exactly when
      it was in the cache and not on disk, and the step evicts the item or restarts. */
  lemma ServiceMarkGone(cfg: Config, file: Option<string>, steps: seq<Step>, step: Step, h: Bytes)
    requires ConfigOk(cfg) && ProperRun(cfg, Initial(file), steps)
    requires ProperStep(cfg, Run(cfg, Initial(file), steps), step)
    requires L.SeenDone(cfg.cd, Run(cfg, Initial(file), steps).store, h)
    ensures var s := Run(cfg, Initial(file), steps);
            var t, t' := s.store, Apply(cfg, s, step).store;
            && Good(cfg.cd, t.table) && h in t.table
            && (!L.SeenDone(cfg.cd, t', h) <==>
                  && Hit(cfg.cd, t.cache, h).Some? && !View(cfg.cd, t.table)[h].done
                  && Hit(cfg.cd, t'.cache, h).None?)
  {
    hide Run, View, Good, Find, L.SeenDone, Hit, Apply, Inserts, Sound;
    EmptyHits(cfg.cd);
    HitsWeaken(cfg.cd, EMPTY);
    HitsRun(cfg, Initial(file), steps, false);
    var s := Run(cfg, Initial(file), steps);
    HitsGood(cfg.cd, s.store, false);
    StepIsCall(cfg, s, step);
    match CallOf(cfg, s, step)
    case None => NothingGone(cfg.cd, s.store, h);
    case Some(op) => L.MarkGone(cfg.cd, s.store, op, h);
  }

  lemma NothingGone(cd: Coder, s: Store, h: Bytes)
    requires Hits(cd, s, false) && L.SeenDone(cd, s, h)
    ensures h in s.table
  {
    L.SeenWhen(cd, s, h);
  }

  lemma HitsWeaken(cd: Coder, s: Store)
    requires Hits(cd, s, true)
    ensures Hits(cd, s, false)
  {
  }

  // ---------- The cache in the service ----------

  /** What is inserted is later than all stored records besides, and no mark fails to reach. */
  ghost predicate CleanStep(cfg: Config, s: System, step: Step) {
    match CallOf(cfg, s, step)
    case None => true
    case Some(op) => Good(cfg.cd, s.store.table) && S.Regular(cfg.cd, s.store, op)
  }

  lemma AgreeApply(cfg: Config, s: System, step: Step)
    requires Agree(cfg.cd, s.store) && CleanStep(cfg, s, step)
    ensures Agree(cfg.cd, Apply(cfg, s, step).store)
  {
    hide Agree;
    StepIsCall(cfg, s, step);
    match CallOf(cfg, s, step)
    case None =>
    case Some(op) => S.AgreeStep(cfg.cd, s.store, op);
  }

  ghost predicate CleanRun(cfg: Config, s: System, steps: seq<Step>) {
    steps != [] ==>
      var n := |steps| - 1;
      CleanRun(cfg, s, steps[..n]) && CleanStep(cfg, Run(cfg, s, steps[..n]), steps[n])
  }

  /** As long as each record inserted is later than those stored, and marks reach the disk, the
      cache is the newest records of the table after every run of the whole service. */
  lemma {:induction false} ServiceAgrees(cfg: Config, file: Option<string>, steps: seq<Step>)
    requires CleanRun(cfg, Initial(file), steps)
    ensures Agree(cfg.cd, Run(cfg, Initial(file), steps).store)
  {
    hide Agree, Apply, CleanStep;
    if steps == [] {
      S.EmptyAgrees(cfg.cd);
    } else {
      var n := |steps| - 1;
      ServiceAgrees(cfg, file, steps[..n]);
      AgreeApply(cfg, Run(cfg, Initial(file), steps[..n]), steps[n]);
    }
  }
}
