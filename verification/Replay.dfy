/** Which records the service stores, and that going over old blocks again stores nothing new. */
module Replay {
  import opened Prelude
  import opened Codec
  import opened Records
  import opened StoreSpec
  import opened Batches
  import S = StoreRuns
  import opened Events
  import opened HeightFile
  import opened Pipeline
  import opened Soundness

  // ---------- The stored keys ----------

  ghost predicate CacheKeysIn(cd: Coder, s: Store, keys: set<Bytes>) {
    forall i :: 0 <= i < |s.cache| ==> KeyOf(cd, s.cache[i]) in keys
  }

  /** The keys a call adds: at most its own, and only where there was none. */
  lemma KeysOfPut(cd: Coder, s: Store, h: Bytes, x: Saved, io: Io)
    requires CacheKeysIn(cd, s, s.table.Keys) && KeyOf(cd, x) == h
    ensures var s', kept := PutStep(cd, s, h, x, io), io.get && io.put && cd.encode(x).Some?;
            && s'.table.Keys == s.table.Keys + (if kept then {h} else {})
            && CacheKeysIn(cd, s', s'.table.Keys)
  {
    var s' := PutStep(cd, s, h, x, io);
    if Inserts(cd, s, h, x, io) {
      assert s'.table.Keys == s.table.Keys + {h};
      forall i | 0 <= i < |s'.cache| ensures KeyOf(cd, s'.cache[i]) in s'.table.Keys {
        assert s'.cache[i] == if i == 0 then x else s.cache[i - 1];
      }
    }
  }

  lemma KeysOfDone(cd: Coder, s: Store, h: Bytes, io: Io, keys: set<Bytes>)
    requires CacheKeysIn(cd, s, keys)
    ensures DoneStep(cd, s, h, io).table.Keys == s.table.Keys
    ensures CacheKeysIn(cd, DoneStep(cd, s, h, io), keys)
  {
    var c, c' := s.cache, DoneCache(cd, s.cache, h);
    forall i | 0 <= i < |c'| ensures KeyOf(cd, c'[i]) in keys {
      assert c'[i].item == c[i].item;
    }
    assert DoneTable(cd, s.table, h, io).Keys == s.table.Keys;
  }

  lemma KeysOfRead(cd: Coder, s: Store, ks: seq<Bytes>, vs: seq<Saved>)
    requires Good(cd, s.table) && CacheKeysIn(cd, s, s.table.Keys)
    ensures CacheKeysIn(cd, ReadStep(cd, s, ks, vs), s.table.Keys)
  {
    hide View, Good, ListedBy;
    if !FastPath(s) && ListedBy(cd, s.table, ks, vs) {
      var cache' := ReadStep(cd, s, ks, vs).cache;
      forall i | 0 <= i < |cache'| ensures KeyOf(cd, cache'[i]) in s.table.Keys {
        if i >= |s.cache| {
          assert cache'[i] == Top(vs)[i] == vs[i];
          ListedWithin(cd, s.table, ks, vs, i);
        }
      }
    }
  }

  // ---------- When new records are dropped ----------

  /** Putting records under new keys never fails silently exactly when everything cached stands
      under a stored key; x is any item that encodes. */
  lemma NewKeysReach(cd: Coder, s: Store, x: Saved)
    requires cd.encode(x).Some?
    ensures (forall h, y, io: Io :: h !in s.table && io.get && io.put && cd.encode(y).Some? ==>
               Inserts(cd, s, h, y, io))
            <==> CacheKeysIn(cd, s, s.table.Keys)
  {
    if forall h, y, io: Io :: h !in s.table && io.get && io.put && cd.encode(y).Some? ==> Inserts(cd, s, h, y, io) {
      forall i | 0 <= i < |s.cache| ensures KeyOf(cd, s.cache[i]) in s.table.Keys {
        assert KeyOf(cd, s.cache[i]) !in s.table ==> Inserts(cd, s, KeyOf(cd, s.cache[i]), x, Io(true, true, true));
      }
    }
  }

  /** A batch read that scans into an empty cache keeps that so exactly when the batch decodes to
      items with stored keys; each record that survives its encoding does. */
  lemma ReadKeepsReach(cd: Coder, s: Store, ks: seq<Bytes>, vs: seq<Saved>)
    requires !FastPath(s) && s.cache == [] && ListedBy(cd, s.table, ks, vs)
    ensures CacheKeysIn(cd, ReadStep(cd, s, ks, vs), s.table.Keys) <==>
            forall i :: 0 <= i < |Top(vs)| ==> KeyOf(cd, Top(vs)[i]) in s.table.Keys
  {
    hide ListedBy;
    assert ReadStep(cd, s, ks, vs).cache == Top(vs);
  }

  /** The shortest history in which a new record is dropped with no error: x decodes to an item y
      with another key. It is stored, the process restarts, a batch read caches y, and z with y's
      key is not stored. */
  lemma ForeignRecordHidesNew(cd: Coder, x: Saved, y: Saved, z: Saved)
    requires cd.encode(x).Some? && cd.decode(cd.encode(x).value) == Some(y)
    requires KeyOf(cd, y) == KeyOf(cd, z) != KeyOf(cd, x)
    ensures var s := S.Run(cd, EMPTY, [S.StoreOk(cd, x), S.Restart(true), S.Read([KeyOf(cd, x)], [y])]);
            && ReadResult(cd, S.Run(cd, EMPTY, [S.StoreOk(cd, x), S.Restart(true)]), [KeyOf(cd, x)], [y]) == Some([y])
            && KeyOf(cd, z) !in s.table && S.Apply(cd, s, S.StoreOk(cd, z)) == s
  {
    hide S.Run;
    S.RunOneMore(cd, EMPTY, [], S.StoreOk(cd, x));
    S.RunOneMore(cd, EMPTY, [S.StoreOk(cd, x)], S.Restart(true));
    S.RunOneMore(cd, EMPTY, [S.StoreOk(cd, x), S.Restart(true)], S.Read([KeyOf(cd, x)], [y]));
    S.RunNothing(cd, EMPTY);
    assert [] + [S.StoreOk(cd, x)] == [S.StoreOk(cd, x)];
    assert [S.StoreOk(cd, x)] + [S.Restart(true)] == [S.StoreOk(cd, x), S.Restart(true)];
    assert [S.StoreOk(cd, x), S.Restart(true)] + [S.Read([KeyOf(cd, x)], [y])]
           == [S.StoreOk(cd, x), S.Restart(true), S.Read([KeyOf(cd, x)], [y])];
    StoredOnce(cd, x);
    ForeignBatch(cd, Reopen(S.Apply(cd, EMPTY, S.StoreOk(cd, x)), true), x, y, z);
  }

  lemma StoredOnce(cd: Coder, x: Saved)
    requires cd.encode(x).Some?
    ensures var s := S.Apply(cd, EMPTY, S.StoreOk(cd, x));
            s.table == map[KeyOf(cd, x) := cd.encode(x).value] && s.counter == Some(1)
  {
    FindIs(cd, [], KeyOf(cd, x), 0);
  }

  lemma ForeignBatch(cd: Coder, s: Store, x: Saved, y: Saved, z: Saved)
    requires s.cache == [] && s.total == 1 && cd.encode(x).Some?
    requires s.table == map[KeyOf(cd, x) := cd.encode(x).value] && cd.decode(cd.encode(x).value) == Some(y)
    requires KeyOf(cd, y) == KeyOf(cd, z) != KeyOf(cd, x)
    ensures var s' := ReadStep(cd, s, [KeyOf(cd, x)], [y]);
            && ReadResult(cd, s, [KeyOf(cd, x)], [y]) == Some([y])
            && KeyOf(cd, z) !in s'.table && PutStep(cd, s', KeyOf(cd, z), z, Io(true, true, true)) == s'
  {
    assert KeyOf(cd, x) in [KeyOf(cd, x)];
    assert ListedBy(cd, s.table, [KeyOf(cd, x)], [y]) && Top([y]) == [y];
    assert ReadStep(cd, s, [KeyOf(cd, x)], [y]).cache == [y];
    FindIs(cd, [y], KeyOf(cd, z), 0);
  }

  // ---------- The keys of the service ----------

  function KeysOf(cfg: Config, xs: seq<ToSign>): set<Bytes> {
    set x | x in xs :: cfg.keyOf(x)
  }

  lemma KeysOfMore(cfg: Config, xs: seq<ToSign>, ys: seq<ToSign>)
    ensures KeysOf(cfg, xs + ys) == KeysOf(cfg, xs) + KeysOf(cfg, ys)
  {
    assert forall k :: k in xs + ys <==> k in xs || k in ys;
  }

  /** The stored keys are those of the accepted items whose storing met no disk error. */
  ghost predicate KeysAreKept(cfg: Config, s: System) {
    && Good(cfg.cd, s.store.table)
    && s.store.table.Keys == KeysOf(cfg, s.hist.kept)
    && CacheKeysIn(cfg.cd, s.store, s.store.table.Keys)
  }

  /** The item kept by a step: only a save that meets no error keeps one. */
  function KeptItem(cfg: Config, s: System, step: Step): seq<ToSign> {
    match CallOf(cfg, s, step)
    case Some(Put(_, y, io)) => if io.get && io.put && cfg.cd.encode(y).Some? then [s.proc.value.hand.item] else []
    case _ => []
  }

  lemma KeptBy(cfg: Config, s: System, step: Step)
    ensures Apply(cfg, s, step).hist.kept == s.hist.kept + KeptItem(cfg, s, step)
  {
  }

  /** The key a call adds when it meets no error. */
  function AddedBy(cd: Coder, op: S.Op): set<Bytes> {
    if op.Put? && op.io.get && op.io.put && cd.encode(op.x).Some? then {op.h} else {}
  }

  lemma KeysOfCall(cd: Coder, s: Store, op: S.Op)
    requires Good(cd, s.table) && CacheKeysIn(cd, s, s.table.Keys)
    requires op.Put? ==> KeyOf(cd, op.x) == op.h
    ensures var s' := S.Apply(cd, s, op);
            s'.table.Keys == s.table.Keys + AddedBy(cd, op) && CacheKeysIn(cd, s', s'.table.Keys)
  {
    hide Good, ListedBy, CacheKeysIn, PutStep, DoneStep, ReadStep;
    match op
    case Put(h, y, io) => KeysOfPut(cd, s, h, y, io);
    case Done(h, io) => KeysOfDone(cd, s, h, io, s.table.Keys);
    case Read(ks, vs) =>
      KeysOfRead(cd, s, ks, vs);
      ReadKeepsTable(cd, s, ks, vs);
    case Restart(read) => NothingCached(cd, s, read);
  }

  lemma AddedIsKept(cfg: Config, s: System, step: Step)
    requires ConfigOk(cfg)
    ensures match CallOf(cfg, s, step)
            case None => KeptItem(cfg, s, step) == []
            case Some(op) =>
              && (op.Put? ==> KeyOf(cfg.cd, op.x) == op.h)
              && AddedBy(cfg.cd, op) == KeysOf(cfg, KeptItem(cfg, s, step))
  {
  }

  lemma KeysAreKeptStep(cfg: Config, s: System, step: Step)
    requires ConfigOk(cfg) && KeysAreKept(cfg, s) && ProperStep(cfg, s, step)
    ensures KeysAreKept(cfg, Apply(cfg, s, step))
  {
    hide Good, ProperStep, ConfigOk, CacheKeysIn, KeysOf, S.Apply, Apply, CallOf, View, S.Grew, AddedBy, KeptItem;
    StepIsCall(cfg, s, step);
    GrewApply(cfg, s, step);
    KeptBy(cfg, s, step);
    AddedIsKept(cfg, s, step);
    assert s.hist.kept + [] == s.hist.kept;
    match CallOf(cfg, s, step)
    case None =>
    case Some(op) =>
      KeysOfCall(cfg.cd, s.store, op);
      KeysOfMore(cfg, s.hist.kept, KeptItem(cfg, s, step));
  }

  lemma ReadKeepsTable(cd: Coder, s: Store, ks: seq<Bytes>, vs: seq<Saved>)
    ensures ReadStep(cd, s, ks, vs).table == s.table
    ensures ReadStep(cd, s, ks, vs).counter == s.counter && ReadStep(cd, s, ks, vs).total == s.total
  {
  }

  lemma NothingCached(cd: Coder, s: Store, read: bool)
    ensures CacheKeysIn(cd, Reopen(s, read), s.table.Keys)
  {
  }

  lemma NoKeys(cfg: Config, file: Option<string>)
    ensures KeysAreKept(cfg, Initial(file))
  {
  }

  /** The stored keys over every run. */
  lemma {:induction false} StoredKeys(cfg: Config, file: Option<string>, steps: seq<Step>)
    requires ConfigOk(cfg) && ProperRun(cfg, Initial(file), steps)
    ensures KeysAreKept(cfg, Run(cfg, Initial(file), steps))
  {
    hide Apply, KeysAreKept, ProperStep, ConfigOk;
    if steps == [] {
      NoKeys(cfg, file);
    } else {
      var n := |steps| - 1;
      StoredKeys(cfg, file, steps[..n]);
      KeysAreKeptStep(cfg, Run(cfg, Initial(file), steps[..n]), steps[n]);
    }
  }

  ghost predicate NoSaveError(cfg: Config, s: System, step: Step) {
    step.Save? && s.proc.Some? && s.proc.value.hand.ToBeStored? ==>
      step.io.get && step.io.put && cfg.cd.encode(cfg.toStore(s.proc.value.hand.item, step.now)).Some?
  }

  ghost predicate NoSaveErrors(cfg: Config, s: System, steps: seq<Step>) {
    steps != [] ==>
      var n := |steps| - 1;
      NoSaveErrors(cfg, s, steps[..n]) && NoSaveError(cfg, Run(cfg, s, steps[..n]), steps[n])
  }

  lemma KeptStep(cfg: Config, s: System, step: Step)
    requires s.hist.kept == s.hist.accepted && NoSaveError(cfg, s, step)
    ensures Apply(cfg, s, step).hist.kept == Apply(cfg, s, step).hist.accepted
  {
  }

  lemma {:induction false} AllKept(cfg: Config, file: Option<string>, steps: seq<Step>)
    requires NoSaveErrors(cfg, Initial(file), steps)
    ensures var s := Run(cfg, Initial(file), steps); s.hist.kept == s.hist.accepted
  {
    hide Apply, NoSaveError;
    if steps == [] {
    } else {
      var n := |steps| - 1;
      AllKept(cfg, file, steps[..n]);
      KeptStep(cfg, Run(cfg, Initial(file), steps[..n]), steps[n]);
    }
  }

  /** Without storage errors the stored keys are exactly those of the items posted and accepted,
      whatever the interleaving and however often the process restarts. */
  lemma AcceptedKeys(cfg: Config, file: Option<string>, steps: seq<Step>)
    requires ConfigOk(cfg) && ProperRun(cfg, Initial(file), steps) && NoSaveErrors(cfg, Initial(file), steps)
    ensures var s := Run(cfg, Initial(file), steps);
            s.store.table.Keys == KeysOf(cfg, s.hist.accepted)
  {
    StoredKeys(cfg, file, steps);
    AllKept(cfg, file, steps);
  }

  // ---------- Going over blocks again ----------

  ghost predicate SignsWithin(cfg: Config, h: uint32, keys: set<Bytes>) {
    forall x :: Sign(x) in cfg.chain(h) ==> cfg.keyOf(x) in keys
  }

  /** Everything on its way has a key in keys. */
  ghost predicate OldProcess(cfg: Config, s: System, keys: set<Bytes>) {
    s.proc.Some? ==>
      var p := s.proc.value;
      && (forall x :: x in p.queue ==> cfg.keyOf(x) in keys)
      && (!p.hand.Free? ==> cfg.keyOf(p.hand.item) in keys)
      && (p.phase.Inside? ==> SignsWithin(cfg, p.phase.h, keys))
  }

  /** And so has everything stored and cached. */
  ghost predicate OnlyOld(cfg: Config, s: System, keys: set<Bytes>) {
    && Good(cfg.cd, s.store.table)
    && s.store.table.Keys == keys && CacheKeysIn(cfg.cd, s.store, keys)
    && OldProcess(cfg, s, keys)
  }

  /** The step fetches no block with an item that is not stored yet. */
  ghost predicate Replays(cfg: Config, s: System, step: Step, keys: set<Bytes>) {
    step.Fetch? && s.proc.Some? && s.proc.value.phase.Between? && s.proc.value.phase.h <= s.proc.value.phase.newTop
    ==> SignsWithin(cfg, s.proc.value.phase.h, keys)
  }

  /** Neither record is touched, and only a restart sets the counter in memory. */
  lemma OnlyOldStore(cfg: Config, s: System, step: Step, keys: set<Bytes>)
    requires ConfigOk(cfg) && OnlyOld(cfg, s, keys)
    ensures ProperStep(cfg, s, step)
    ensures var t := Apply(cfg, s, step).store;
            && t.table.Keys == keys && CacheKeysIn(cfg.cd, t, keys)
            && t.counter == s.store.counter
            && t.total == (if !step.Start? || s.proc.Some? then s.store.total
                           else if step.read then Recorded(s.store) else 0)
  {
    StepIsCall(cfg, s, step);
    match CallOf(cfg, s, step)
    case None =>
    case Some(op) =>
      match op
      case Put(h, y, io) => assert !Inserts(cfg.cd, s.store, h, y, io);
      case Done(h, io) => KeysOfDone(cfg.cd, s.store, h, io, keys);
      case Read(ks, vs) => KeysOfRead(cfg.cd, s.store, ks, vs);
      case Restart(_) =>
  }

  lemma OldProcessStep(cfg: Config, s: System, step: Step, keys: set<Bytes>)
    requires OldProcess(cfg, s, keys) && Replays(cfg, s, step, keys)
    ensures OldProcess(cfg, Apply(cfg, s, step), keys)
  {
    hide ReadStep, DoneStep, PutStep, AfterWrite, RecordsNow, TickEnded;
  }

  lemma OnlyOldStep(cfg: Config, s: System, step: Step, keys: set<Bytes>)
    requires ConfigOk(cfg) && OnlyOld(cfg, s, keys) && Replays(cfg, s, step, keys)
    ensures OnlyOld(cfg, Apply(cfg, s, step), keys)
  {
    hide Good, OldProcess, Replays, Apply, CacheKeysIn, View;
    OnlyOldStore(cfg, s, step, keys);
    GrewApply(cfg, s, step);
    OldProcessStep(cfg, s, step, keys);
  }

  ghost predicate ReplayRun(cfg: Config, s: System, steps: seq<Step>, keys: set<Bytes>) {
    steps != [] ==>
      var n := |steps| - 1;
      ReplayRun(cfg, s, steps[..n], keys) && Replays(cfg, Run(cfg, s, steps[..n]), steps[n], keys)
  }

  lemma {:induction false} StaysOld(cfg: Config, s: System, steps: seq<Step>, keys: set<Bytes>)
    requires ConfigOk(cfg) && OnlyOld(cfg, s, keys) && ReplayRun(cfg, s, steps, keys)
    ensures ProperRun(cfg, s, steps)
    ensures var s' := Run(cfg, s, steps);
            && OnlyOld(cfg, s', keys) && s'.store.counter == s.store.counter
            && ((forall i :: 0 <= i < |steps| && steps[i].Start? ==>
                   steps[i].read && Recorded(s.store) == s.store.total) ==>
                  s'.store.total == s.store.total)
  {
    hide OnlyOld, Apply, Replays, ProperStep, ConfigOk;
    if steps == [] {
    } else {
      var n := |steps| - 1;
      StaysOld(cfg, s, steps[..n], keys);
      var before := Run(cfg, s, steps[..n]);
      OnlyOldStore(cfg, before, steps[n], keys);
      OnlyOldStep(cfg, before, steps[n], keys);
    }
  }

  /** The same records, item by item and time by time. */
  ghost predicate SameButMarks(xs: seq<Saved>, ys: seq<Saved>) {
    |xs| == |ys| && forall i :: 0 <= i < |xs| ==> xs[i].item == ys[i].item && xs[i].time == ys[i].time
  }

  /** The records of m' in the places of those of m. */
  function Versions(cd: Coder, xs: seq<Saved>, m': Table): (ys: seq<Saved>)
    requires forall i :: 0 <= i < |xs| ==> KeyOf(cd, xs[i]) in m'
    ensures |ys| == |xs| && forall i :: 0 <= i < |xs| ==> ys[i] == m'[KeyOf(cd, xs[i])]
  {
    seq(|xs|, i requires 0 <= i < |xs| => m'[KeyOf(cd, xs[i])])
  }

  lemma VersionsNewest(cd: Coder, xs: seq<Saved>, m: Table, m': Table)
    requires Newest(cd, xs, m) && Keyed(cd, m) && Keyed(cd, m') && m.Keys == m'.Keys && S.Grew(m, m')
    ensures forall i :: 0 <= i < |xs| ==> KeyOf(cd, xs[i]) in m'
    ensures Newest(cd, Versions(cd, xs, m'), m') && SameButMarks(xs, Versions(cd, xs, m'))
  {
    var ys := Versions(cd, xs, m');
    forall i | 0 <= i < |xs|
      ensures ys[i].item == xs[i].item && ys[i].time == xs[i].time && KeyOf(cd, ys[i]) == KeyOf(cd, xs[i])
    {
      assert m[KeyOf(cd, xs[i])] == xs[i];
    }
    forall k | k in m' ensures m'[k] in ys || OlderThan(m'[k], ys) {
      assert m[k] in xs || OlderThan(m[k], xs);
      if m[k] in xs {
        var i := IndexOf(xs, m[k]);
        assert ys[i] == m'[k];
      }
    }
  }

  lemma VersionsDistinct(m: Table, m': Table)
    requires DistinctTimes(m) && m.Keys == m'.Keys && S.Grew(m, m')
    ensures DistinctTimes(m')
  {
  }

  /** Marking does not change the order of records. */
  lemma SameOrder(cd: Coder, m: Table, m': Table)
    requires Keyed(cd, m) && Keyed(cd, m') && DistinctTimes(m)
    requires m.Keys == m'.Keys && S.Grew(m, m')
    ensures SameButMarks(ByTime(m), ByTime(m'))
  {
    hide Newest, SameButMarks, Keyed, DistinctTimes, ByTime;
    ByTimeIsNewest(cd, m);
    VersionsNewest(cd, ByTime(m), m, m');
    VersionsDistinct(m, m');
    assert |m'.Keys| == |m'| && |m.Keys| == |m|;
    NewestIsByTime(cd, Versions(cd, ByTime(m), m'), m');
    assert ByTime(m')[..|m'|] == ByTime(m');
  }

  /** Replay is idempotent: as long as only blocks are scanned whose items are all stored, and
      nothing else was on its way, any run, with crashes and restarts, leaves the stored keys,
      items, times and their order and the counter record as they were; marks can only be
      added. The counter in memory stays too, unless a restart changes what it counted. */
  lemma ReplayIdempotent(cfg: Config, s: System, steps: seq<Step>)
    requires ConfigOk(cfg) && Good(cfg.cd, s.store.table) && DistinctTimes(View(cfg.cd, s.store.table))
    requires OnlyOld(cfg, s, s.store.table.Keys) && ReplayRun(cfg, s, steps, s.store.table.Keys)
    ensures var s' := Run(cfg, s, steps);
            && s'.store.table.Keys == s.store.table.Keys
            && s'.store.counter == s.store.counter
            && ((forall i :: 0 <= i < |steps| && steps[i].Start? ==>
                   steps[i].read && Recorded(s.store) == s.store.total) ==>
                  s'.store.total == s.store.total)
            && Good(cfg.cd, s'.store.table)
            && S.Grew(View(cfg.cd, s.store.table), View(cfg.cd, s'.store.table))
            && SameButMarks(ByTime(View(cfg.cd, s.store.table)), ByTime(View(cfg.cd, s'.store.table)))
  {
    hide Run, ProperRun, ReplayRun;
    StaysOld(cfg, s, steps, s.store.table.Keys);
    RecordsPersist(cfg, s, steps);
    SameOrder(cfg.cd, View(cfg.cd, s.store.table), View(cfg.cd, Run(cfg, s, steps).store.table));
  }
}
