/** The store over whole runs: what every batch read returns, what the counters mean after
    failed writes and restarts, and what never changes about a stored record. */
module StoreRuns {
  import opened Prelude
  import opened Codec
  import opened Records
  import opened StoreSpec
  import opened Batches

  /** One call of the database, or a restart of the process. A crash between the two writes of
      a put leaves what a put with a failed counter write leaves, and then restarts. */
  datatype Op =
    | Put(h: Bytes, x: Saved, io: Io)
    | Done(h: Bytes, io: Io)
    | Read(ks: seq<Bytes>, vs: seq<Saved>)
    | Restart(read: bool)

  /** A batch read comes with what its scan comes to; see ReadStep for one that fails. */
  ghost function Apply(cd: Coder, s: Store, op: Op): Store {
    match op
    case Put(h, x, io) => PutStep(cd, s, h, x, io)
    case Done(h, io) => DoneStep(cd, s, h, io)
    case Read(ks, vs) => ReadStep(cd, s, ks, vs)
    case Restart(read) => Reopen(s, read)
  }

  ghost function Run(cd: Coder, s: Store, ops: seq<Op>): Store {
    if ops == [] then s
    else Apply(cd, Run(cd, s, ops[..|ops| - 1]), ops[|ops| - 1])
  }

  // ---------- Batch reads ----------

  /** The counter test passes although the cache lacks records it has room for. */
  predicate Stale(s: Store) {
    |s.cache| < 100 && |s.cache| == s.total && |s.cache| < |s.table|
  }

  lemma BackfillIs(s: Store, batch: seq<Saved>)
    requires |s.cache| <= |batch| && s.cache == batch[..|s.cache|]
    ensures Backfill(s, batch) == s.(cache := batch)
  {
  }

  lemma SlowRead(cd: Coder, s: Store, ks: seq<Bytes>, vs: seq<Saved>)
    requires Agree(cd, s) && !FastPath(s) && ListedBy(cd, s.table, ks, vs)
    ensures Top(vs) == FirstBatch(cd, s.table) && |Top(vs)| == Min(CACHE_SIZE, |s.table|)
    ensures ReadStep(cd, s, ks, vs) == s.(cache := FirstBatch(cd, s.table))
    ensures Agree(cd, ReadStep(cd, s, ks, vs))
  {
    hide Newest, ByTime, Keyed, DistinctTimes, Backfill, Good, ListedBy;
    OnlyOrder(cd, s.table, ks, vs);
    AgreeIsPrefix(cd, s);
    FirstBatchIsNewest(cd, s.table);
    BackfillIs(s, FirstBatch(cd, s.table));
  }

  lemma FastRead(cd: Coder, s: Store)
    requires Agree(cd, s)
    ensures |FirstBatch(cd, s.table)| == Min(CACHE_SIZE, |s.table|) >= |s.cache|
    ensures s.cache == FirstBatch(cd, s.table) <==> |s.cache| == Min(CACHE_SIZE, |s.table|)
  {
    AgreeIsPrefix(cd, s);
  }

  /** A batch read returns exactly the newest records, and leaves exactly them in the cache,
      unless the counter test passes on a cache that is not full. */
  lemma ReadIsFirstBatch(cd: Coder, s: Store, ks: seq<Bytes>, vs: seq<Saved>)
    requires Agree(cd, s) && ListedBy(cd, s.table, ks, vs)
    ensures ReadResult(cd, s, ks, vs) == Some(FirstBatch(cd, s.table)) <==> !Stale(s)
    ensures |s.cache| <= 100 && |FirstBatch(cd, s.table)| == Min(100, |s.table|)
    ensures !Stale(s) ==> ReadStep(cd, s, ks, vs).cache == FirstBatch(cd, s.table)
  {
    hide Newest, Good, ListedBy, FirstBatch, DistinctTimes, View;
    if FastPath(s) {
      FastRead(cd, s);
    } else {
      SlowRead(cd, s, ks, vs);
    }
  }

  /** And whether the scan succeeds or not, the invariant stays. */
  lemma ReadAgrees(cd: Coder, s: Store, ks: seq<Bytes>, vs: seq<Saved>)
    requires Agree(cd, s)
    ensures Agree(cd, ReadStep(cd, s, ks, vs))
  {
    hide Agree, ListedBy;
    if !FastPath(s) && ListedBy(cd, s.table, ks, vs) {
      SlowRead(cd, s, ks, vs);
    }
  }

  /** Reading again at once returns the same batch. */
  lemma ReadTwice(cd: Coder, s: Store, ks: seq<Bytes>, vs: seq<Saved>, ks': seq<Bytes>, vs': seq<Saved>)
    requires Agree(cd, s) && ListedBy(cd, s.table, ks, vs) && ListedBy(cd, s.table, ks', vs')
    ensures var s' := ReadStep(cd, s, ks, vs);
            && ReadResult(cd, s', ks', vs') == ReadResult(cd, s, ks, vs)
            && ReadStep(cd, s', ks', vs') == s'
  {
    hide Agree, ListedBy, FirstBatch;
    if !FastPath(s) {
      SlowRead(cd, s, ks, vs);
      var s' := ReadStep(cd, s, ks, vs);
      if !FastPath(s') {
        SlowRead(cd, s', ks', vs');
      }
    }
  }

  // ---------- The representation invariant over runs ----------

  /** What is inserted survives its encoding, stands under its own key and is later than all
      before it, and no mark is lost on disk that the cache holds. Nothing is asked of a put
      that inserts nothing, for whatever reason. */
  ghost predicate Regular(cd: Coder, s: Store, op: Op)
    requires Good(cd, s.table)
  {
    match op
    case Put(h, x, io) =>
      Inserts(cd, s, h, x, io) ==> KeyOf(cd, x) == h && Sound(cd, x) && Later(x, View(cd, s.table))
    case Done(h, io) => MarkReaches(cd, s, h, io)
    case _ => true
  }

  /** The disk takes the mark, or there is no unmarked cached item to disagree with it. */
  ghost predicate MarkReaches(cd: Coder, s: Store, h: Bytes, io: Io)
    requires Good(cd, s.table)
  {
    || (io.get && io.put)
    || Find(cd, s.cache, h).None?
    || (h in s.table && View(cd, s.table)[h].done)
  }

  lemma EmptyAgrees(cd: Coder)
    ensures Agree(cd, EMPTY)
  {
  }

  lemma AgreesGood(cd: Coder, s: Store)
    requires Agree(cd, s)
    ensures Good(cd, s.table)
  {
  }

  lemma AgreeStep(cd: Coder, s: Store, op: Op)
    requires Agree(cd, s) && Regular(cd, s, op)
    ensures Agree(cd, Apply(cd, s, op))
  {
    hide Agree, View, DistinctTimes, Sound, Find;
    AgreesGood(cd, s);
    match op
    case Put(h, x, io) =>
      if Inserts(cd, s, h, x, io) {
        PutAgree(cd, s, h, x, io);
      }
    case Done(h, io) => DoneAgree(cd, s, h, io);
    case Read(ks, vs) => ReadAgrees(cd, s, ks, vs);
    case Restart(read) => ReopenAgrees(cd, s, read);
  }

  ghost predicate RegularRun(cd: Coder, s: Store, ops: seq<Op>) {
    ops != [] ==>
      var n := |ops| - 1;
      var before := Run(cd, s, ops[..n]);
      RegularRun(cd, s, ops[..n]) && Good(cd, before.table) && Regular(cd, before, ops[n])
  }

  lemma {:induction false} AgreeRun(cd: Coder, s: Store, ops: seq<Op>)
    requires Agree(cd, s) && RegularRun(cd, s, ops)
    ensures Agree(cd, Run(cd, s, ops))
  {
    if ops == [] {
    } else {
      var n := |ops| - 1;
      AgreeRun(cd, s, ops[..n]);
      AgreeStep(cd, Run(cd, s, ops[..n]), ops[n]);
    }
  }

  // ---------- Records are never lost or changed, only marked ----------

  /** m' has all of m: same item and time, and every mark. */
  ghost predicate Grew(m: Table, m': Table) {
    forall k :: k in m ==>
      k in m' && m'[k].item == m[k].item && m'[k].time == m[k].time && (m[k].done ==> m'[k].done)
  }

  /** Any operation, whatever fails; what is inserted decodes, under its own key. */
  ghost predicate Proper(cd: Coder, s: Store, op: Op) {
    op.Put? && Inserts(cd, s, op.h, op.x, op.io) ==> KeyOf(cd, op.x) == op.h && Sound(cd, op.x)
  }

  lemma DoneView(cd: Coder, table: map<Bytes, Bytes>, h: Bytes, io: Io)
    requires Good(cd, table)
    ensures var table' := DoneTable(cd, table, h, io);
            && Good(cd, table')
            && View(cd, table') == if io.get && io.put && h in table
                                   then View(cd, table)[h := View(cd, table)[h].(done := true)]
                                   else View(cd, table)
  {
    if io.get && io.put && h in table {
      assert GoodRecord(cd, h, table[h]);
      ViewAfterWrite(cd, table, h, View(cd, table)[h].(done := true));
    }
  }

  lemma PutView(cd: Coder, s: Store, h: Bytes, x: Saved, io: Io)
    requires Good(cd, s.table) && (Inserts(cd, s, h, x, io) ==> KeyOf(cd, x) == h && Sound(cd, x))
    ensures var table' := PutStep(cd, s, h, x, io).table;
            && Good(cd, table')
            && View(cd, table') == if Inserts(cd, s, h, x, io) then View(cd, s.table)[h := x] else View(cd, s.table)
  {
    if Inserts(cd, s, h, x, io) {
      ViewAfterWrite(cd, s.table, h, x);
    }
  }

  lemma GrewByInsert(m: Table, h: Bytes, x: Saved)
    requires h !in m
    ensures Grew(m, m[h := x])
  {
  }

  lemma GrewByMark(m: Table, h: Bytes)
    requires h in m
    ensures Grew(m, m[h := m[h].(done := true)])
  {
  }

  lemma GrewByPut(cd: Coder, s: Store, h: Bytes, x: Saved, io: Io)
    requires Good(cd, s.table) && (Inserts(cd, s, h, x, io) ==> KeyOf(cd, x) == h && Sound(cd, x))
    ensures Good(cd, PutStep(cd, s, h, x, io).table)
    ensures Grew(View(cd, s.table), View(cd, PutStep(cd, s, h, x, io).table))
  {
    PutView(cd, s, h, x, io);
    if Inserts(cd, s, h, x, io) {
      GrewByInsert(View(cd, s.table), h, x);
    }
  }

  lemma GrewByDone(cd: Coder, table: map<Bytes, Bytes>, h: Bytes, io: Io)
    requires Good(cd, table)
    ensures Good(cd, DoneTable(cd, table, h, io))
    ensures Grew(View(cd, table), View(cd, DoneTable(cd, table, h, io)))
  {
    DoneView(cd, table, h, io);
    if h in table {
      GrewByMark(View(cd, table), h);
    }
  }

  /** A marked item that will not encode again erases its record. */
  lemma MarkErases(cd: Coder, table: map<Bytes, Bytes>, h: Bytes, io: Io, x: Saved)
    requires io.get && io.put && h in table && cd.decode(table[h]) == Some(x)
    requires cd.encode(x.(done := true)) == None
    ensures DoneTable(cd, table, h, io)[h] == []
    ensures cd.decode([]) == None ==> !AllDecode(cd, DoneTable(cd, table, h, io))
  {
    assert h in DoneTable(cd, table, h, io);
  }

  lemma GrewStep(cd: Coder, s: Store, op: Op)
    requires Good(cd, s.table) && Proper(cd, s, op)
    ensures var s' := Apply(cd, s, op);
            Good(cd, s'.table) && Grew(View(cd, s.table), View(cd, s'.table))
  {
    match op
    case Put(h, x, io) => GrewByPut(cd, s, h, x, io);
    case Done(h, io) => GrewByDone(cd, s.table, h, io);
    case Read(_, _) => assert Apply(cd, s, op).table == s.table;
    case Restart(_) =>
  }

  // ---------- The counters ----------

  ghost function InsertsBy(cd: Coder, s: Store, op: Op): nat {
    if op.Put? && Inserts(cd, s, op.h, op.x, op.io) then 1 else 0
  }

  /** Inserts since the counter record was last written or read back; negative, by what the
      record is ahead, after an opening that could not read it. */
  ghost function Unrecorded(cd: Coder, s: Store, ops: seq<Op>): int {
    if ops == [] then 0
    else
      var n := |ops| - 1;
      var before, op := Unrecorded(cd, s, ops[..n]), ops[n];
      if op.Restart? then (if op.read then 0 else 0 - Recorded(Run(cd, s, ops[..n])))
      else if InsertsBy(cd, Run(cd, s, ops[..n]), op) == 1 then (if op.io.count then 0 else before + 1)
      else before
  }

  /** Inserts the session does not know of: a restart forgets those unrecorded when it happened,
      or all of them if it cannot read the counter. */
  ghost function Forgotten(cd: Coder, s: Store, ops: seq<Op>): int {
    if ops == [] then 0
    else
      var n := |ops| - 1;
      if !ops[n].Restart? then Forgotten(cd, s, ops[..n])
      else if ops[n].read then Forgotten(cd, s, ops[..n]) + Unrecorded(cd, s, ops[..n])
      else |Run(cd, s, ops[..n]).table|
  }

  lemma SizeOfUpdate<K, V>(t: map<K, V>, k: K, v: V)
    ensures |t[k := v]| == |t| + if k in t then 0 else 1
  {
    var t' := t[k := v];
    assert t'.Keys == t.Keys + {k};
    assert |t'.Keys| == |t.Keys| + if k in t then 0 else 1;
  }

  lemma TableSizeStep(cd: Coder, s: Store, op: Op)
    ensures |Apply(cd, s, op).table| == |s.table| + InsertsBy(cd, s, op)
  {
    var t' := Apply(cd, s, op).table;
    match op
    case Put(h, x, io) =>
      if Inserts(cd, s, h, x, io) {
        SizeOfUpdate(s.table, h, t'[h]);
      }
    case Done(h, io) =>
      if h in s.table {
        SizeOfUpdate(s.table, h, t'[h]);
        assert t' == s.table[h := t'[h]];
      }
    case Read(_, _) =>
    case Restart(_) =>
  }

  /** One step in numbers: how many are stored, the counter in memory, the counter record. */
  lemma CounterStep(cd: Coder, s: Store, op: Op)
    requires s.total <= |s.table| && |Apply(cd, s, op).table| < TWO_TO_THE_64
    ensures var s', n := Apply(cd, s, op), InsertsBy(cd, s, op);
            && |s'.table| == |s.table| + n
            && s'.total == (if op.Restart? then (if op.read then Recorded(s) else 0) else s.total + n)
            && Recorded(s') == (if n == 1 && op.io.count then s'.total else Recorded(s))
  {
    TableSizeStep(cd, s, op);
  }

  lemma TableGrows(cd: Coder, s: Store, op: Op)
    ensures |s.table| <= |Apply(cd, s, op).table|
  {
    TableSizeStep(cd, s, op);
  }

  lemma RunLast(cd: Coder, s: Store, ops: seq<Op>)
    requires ops != []
    ensures Run(cd, s, ops) == Apply(cd, Run(cd, s, ops[..|ops| - 1]), ops[|ops| - 1])
  {
  }

  lemma ForgottenLast(cd: Coder, s: Store, ops: seq<Op>)
    requires ops != []
    ensures var n := |ops| - 1;
            var before, op := Run(cd, s, ops[..n]), ops[n];
            var u, f, i := Unrecorded(cd, s, ops[..n]), Forgotten(cd, s, ops[..n]), InsertsBy(cd, before, op);
            && Forgotten(cd, s, ops) == (if !op.Restart? then f else if op.read then f + u else |before.table|)
            && Unrecorded(cd, s, ops) == (if op.Restart? then (if op.read then 0 else 0 - Recorded(before))
                                          else if i == 1 && op.io.count then 0 else u + i)
  {
  }

  /** Whatever fails and whenever the process restarts: the counter in memory is the number of
      stored records less those forgotten at restarts, and the counter record is behind it by
      the inserts not yet recorded. Within a session nothing is forgotten; a restart forgets
      exactly what was unrecorded, or everything if it cannot read the counter. */
  lemma {:induction false} Counters(cd: Coder, ops: seq<Op>)
    requires |Run(cd, EMPTY, ops).table| < TWO_TO_THE_64
    ensures var s := Run(cd, EMPTY, ops);
            && s.total == |s.table| - Forgotten(cd, EMPTY, ops)
            && Recorded(s) == s.total - Unrecorded(cd, EMPTY, ops)
            && s.total <= |s.table| && Recorded(s) <= |s.table|
  {
    if ops == [] {
    } else {
      var n := |ops| - 1;
      var s, op := Run(cd, EMPTY, ops[..n]), ops[n];
      RunLast(cd, EMPTY, ops);
      TableGrows(cd, s, op);
      Counters(cd, ops[..n]);
      CounterStep(cd, s, op);
      ForgottenLast(cd, EMPTY, ops);
    }
  }

  /** As long as every restart reads the counter, the record never counts more than the memory,
      and the total reported is the counter in memory. */
  lemma {:induction false} CountersInOrder(cd: Coder, ops: seq<Op>)
    requires |Run(cd, EMPTY, ops).table| < TWO_TO_THE_64
    requires forall i :: 0 <= i < |ops| && ops[i].Restart? ==> ops[i].read
    ensures Unrecorded(cd, EMPTY, ops) >= 0
    ensures var s := Run(cd, EMPTY, ops); Recorded(s) <= s.total <= |s.table| && GetTotal(s) == s.total
  {
    hide Run, Apply, Forgotten;
    Counters(cd, ops);
    if ops != [] {
      RunLast(cd, EMPTY, ops);
      TableGrows(cd, Run(cd, EMPTY, ops[..|ops| - 1]), ops[|ops| - 1]);
      CountersInOrder(cd, ops[..|ops| - 1]);
    }
  }

  lemma {:induction false} AllRecorded(cd: Coder, ops: seq<Op>)
    requires forall i :: 0 <= i < |ops| ==> (ops[i].Put? ==> ops[i].io.count) && (ops[i].Restart? ==> ops[i].read)
    ensures Unrecorded(cd, EMPTY, ops) == 0 == Forgotten(cd, EMPTY, ops)
  {
    if ops == [] {
    } else {
      AllRecorded(cd, ops[..|ops| - 1]);
    }
  }

  /** Without errors of the counter the invariant holds after every regular run from the empty store,
      both counters are the number of stored records, and every batch read is the newest records. */
  lemma RegularRuns(cd: Coder, ops: seq<Op>, ks: seq<Bytes>, vs: seq<Saved>)
    requires RegularRun(cd, EMPTY, ops)
    requires forall i :: 0 <= i < |ops| ==> (ops[i].Put? ==> ops[i].io.count) && (ops[i].Restart? ==> ops[i].read)
    requires |Run(cd, EMPTY, ops).table| < TWO_TO_THE_64 && ListedBy(cd, Run(cd, EMPTY, ops).table, ks, vs)
    ensures var s := Run(cd, EMPTY, ops);
            && Agree(cd, s)
            && s.total == Recorded(s) == |s.table|
            && ReadResult(cd, s, ks, vs) == Some(FirstBatch(cd, s.table))
            && |FirstBatch(cd, s.table)| == Min(100, |s.table|)
            && ReadStep(cd, s, ks, vs).cache == FirstBatch(cd, s.table)
  {
    hide Run, RegularRun, Unrecorded, Forgotten, FirstBatch, ListedBy, Agree, ReadResult, ReadStep;
    EmptyAgrees(cd);
    AgreeRun(cd, EMPTY, ops);
    AgreesGood(cd, Run(cd, EMPTY, ops));
    Counters(cd, ops);
    AllRecorded(cd, ops);
    ReadIsFirstBatch(cd, Run(cd, EMPTY, ops), ks, vs);
  }

  // ---------- A session after lost counter writes ----------

  /** Sizes of the cache, the counter and the table: the cache is behind the counter, or holds
      all it can. */
  predicate Trusted(cached: nat, total: nat, stored: nat) {
    cached < total || cached == Min(CACHE_SIZE, stored)
  }

  /** The cache holds the inserts of this session, and the counter counts just them. */
  predicate Misled(cached: nat, total: nat, stored: nat) {
    total < stored && cached == Min(CACHE_SIZE, total)
  }

  ghost predicate TrustedStore(s: Store) {
    Trusted(|s.cache|, s.total, |s.table|)
  }

  ghost predicate MisledStore(s: Store) {
    Misled(|s.cache|, s.total, |s.table|)
  }

  lemma CacheSizeStep(cd: Coder, s: Store, op: Op)
    requires Agree(cd, s) && !op.Restart?
    ensures |Apply(cd, s, op).cache| ==
            if op.Read? && !FastPath(s) && ListedBy(cd, s.table, op.ks, op.vs) then Min(CACHE_SIZE, |s.table|)
            else Min(CACHE_SIZE, |s.cache| + InsertsBy(cd, s, op))
  {
    hide Newest, Good, ListedBy, View, Find;
    if op.Read? && !FastPath(s) && ListedBy(cd, s.table, op.ks, op.vs) {
      SlowRead(cd, s, op.ks, op.vs);
    }
  }

  lemma SizesStep(cached: nat, total: nat, stored: nat, n: nat, cached': nat)
    requires n <= 1 && cached <= CACHE_SIZE && total <= stored
    requires cached' == Min(CACHE_SIZE, cached + n)
             || (n == 0 && cached' == Min(CACHE_SIZE, stored) && cached != CACHE_SIZE && cached != total)
    ensures Trusted(cached, total, stored) ==> Trusted(cached', total + n, stored + n)
    ensures Misled(cached, total, stored) ==> Misled(cached', total + n, stored + n)
  {
  }

  lemma SessionStep(cd: Coder, s: Store, op: Op)
    requires Agree(cd, s) && !op.Restart?
    requires |Apply(cd, s, op).table| < TWO_TO_THE_64 && s.total <= |s.table|
    ensures Apply(cd, s, op).total <= |Apply(cd, s, op).table|
    ensures TrustedStore(s) ==> TrustedStore(Apply(cd, s, op))
    ensures MisledStore(s) ==> MisledStore(Apply(cd, s, op))
  {
    CounterStep(cd, s, op);
    CacheSizeStep(cd, s, op);
    SizesStep(|s.cache|, s.total, |s.table|, InsertsBy(cd, s, op), |Apply(cd, s, op).cache|);
  }

  lemma {:induction false} Session(cd: Coder, s: Store, ops: seq<Op>)
    requires Agree(cd, s) && RegularRun(cd, s, ops) && s.total <= |s.table|
    requires forall i :: 0 <= i < |ops| ==> !ops[i].Restart?
    requires |Run(cd, s, ops).table| < TWO_TO_THE_64
    ensures Run(cd, s, ops).total <= |Run(cd, s, ops).table|
    ensures TrustedStore(s) ==> TrustedStore(Run(cd, s, ops))
    ensures MisledStore(s) ==> MisledStore(Run(cd, s, ops))
  {
    if ops == [] {
    } else {
      var n := |ops| - 1;
      var s1 := Run(cd, s, ops[..n]);
      RunLast(cd, s, ops);
      TableGrows(cd, s1, ops[n]);
      Session(cd, s, ops[..n]);
      AgreeRun(cd, s, ops[..n]);
      SessionStep(cd, s1, ops[n]);
    }
  }

  lemma ReopenAgrees(cd: Coder, s: Store, read: bool)
    requires Agree(cd, s)
    ensures Agree(cd, Reopen(s, read))
  {
  }

  /** What a session opens with. */
  lemma Opened(s: Store, read: bool)
    requires Recorded(s) <= |s.table|
    ensures var o := Reopen(s, read);
            && o.total <= |o.table|
            && (o.total > 0 || s.table == map[] ==> TrustedStore(o))
            && (o.total == 0 && s.table != map[] ==> MisledStore(o))
  {
    assert s.table != map[] ==> |s.table| > 0;
  }

  lemma StaleWhen(s: Store)
    requires |s.cache| <= CACHE_SIZE
    ensures TrustedStore(s) ==> !Stale(s)
    ensures MisledStore(s) ==> (Stale(s) <==> |s.cache| < CACHE_SIZE)
  {
  }

  /** The shortest such history: the first record ever stored, its counter write lost in a crash.
      After the restart it is on disk, and the batch is empty. */
  lemma LostCounterHidesRecord(cd: Coder, x: Saved)
    requires Sound(cd, x)
    ensures var ops := [Put(KeyOf(cd, x), x, Io(true, true, false)), Restart(true)];
            var s := Run(cd, EMPTY, ops);
            && Agree(cd, s) && GetStep(cd, s, KeyOf(cd, x), Io(true, true, true)) == Some(x)
            && forall ks, vs :: ReadResult(cd, s, ks, vs) == Some([]) != Some(FirstBatch(cd, s.table))
  {
    var h, io := KeyOf(cd, x), Io(true, true, false);
    var ops := [Put(h, x, io), Restart(true)];
    assert ops[..1] == [Put(h, x, io)] && ops[..1][..0] == [];
    assert x == x.(done := x.done);
    assert Inserts(cd, EMPTY, h, x, io);
    var s1 := PutStep(cd, EMPTY, h, x, io);
    assert Run(cd, EMPTY, ops[..1]) == s1;
    assert Run(cd, EMPTY, ops) == Reopen(s1, true);
    EmptyAgrees(cd);
    PutKeepsAgree(cd, EMPTY, h, x, io);
    ReopenAgrees(cd, s1, true);
    AgreeHits(cd, Reopen(s1, true));
    GetIsLookup(cd, Reopen(s1, true));
    FirstBatchIsNewest(cd, s1.table);
    TableSizeStep(cd, EMPTY, ops[0]);
  }

  /** Two records, and the order in which a correct batch has them. */
  lemma BatchOfTwo(cd: Coder, table: map<Bytes, Bytes>, a: Saved, b: Saved)
    requires Good(cd, table) && KeyOf(cd, a) != KeyOf(cd, b) && b.time < a.time
    requires View(cd, table) == map[KeyOf(cd, a) := a, KeyOf(cd, b) := b]
    ensures FirstBatch(cd, table) == [a, b]
  {
    hide View, Good, ByTime, Newest, Keyed;
    var m := View(cd, table);
    assert m.Keys == {KeyOf(cd, a), KeyOf(cd, b)};
    assert |m.Keys| == 2 == |m|;
    NewestOfTwo(cd, a, b);
    NewestIsByTime(cd, [a, b], m);
    assert ByTime(m)[..2] == ByTime(m);
  }

  lemma NewestOfTwo(cd: Coder, a: Saved, b: Saved)
    requires KeyOf(cd, a) != KeyOf(cd, b) && b.time < a.time
    ensures Newest(cd, [a, b], map[KeyOf(cd, a) := a, KeyOf(cd, b) := b])
  {
    var m := map[KeyOf(cd, a) := a, KeyOf(cd, b) := b];
    forall k | k in m ensures m[k] in [a, b] {
      assert k == KeyOf(cd, a) || k == KeyOf(cd, b);
      assert [a, b][0] == a && [a, b][1] == b;
    }
  }

  lemma TwoTimes(cd: Coder, table: map<Bytes, Bytes>, a: Saved, b: Saved)
    requires Good(cd, table) && KeyOf(cd, a) != KeyOf(cd, b) && b.time < a.time
    requires View(cd, table) == map[KeyOf(cd, a) := a, KeyOf(cd, b) := b]
    ensures DistinctTimes(View(cd, table))
  {
    hide View;
  }

  function StoreOk(cd: Coder, x: Saved): Op {
    Put(KeyOf(cd, x), x, Io(true, true, true))
  }

  lemma RunOneMore(cd: Coder, s: Store, ops: seq<Op>, op: Op)
    ensures Run(cd, s, ops + [op]) == Apply(cd, Run(cd, s, ops), op)
  {
    assert (ops + [op])[..|ops|] == ops;
  }

  lemma RunNothing(cd: Coder, s: Store)
    ensures Run(cd, s, []) == s
  {
  }

  /** What storing a first record leaves. */
  lemma FirstStored(cd: Coder, x: Saved)
    requires Sound(cd, x)
    ensures var s := Run(cd, EMPTY, [StoreOk(cd, x)]);
            && Good(cd, s.table) && View(cd, s.table) == map[KeyOf(cd, x) := x]
            && s.cache == [x] && s.total == 1 && s.counter == Some(1)
  {
    hide View, Good, Find, Sound;
    SoundEncodes(cd, x);
    EmptyAgrees(cd);
    FindIs(cd, [], KeyOf(cd, x), 0);
    PutView(cd, EMPTY, KeyOf(cd, x), x, Io(true, true, true));
    RunOneMore(cd, EMPTY, [], StoreOk(cd, x));
    assert [] + [StoreOk(cd, x)] == [StoreOk(cd, x)];
  }

  lemma StoredAfterRestart(cd: Coder, s: Store, b: Saved)
    requires Good(cd, s.table) && Sound(cd, b) && KeyOf(cd, b) !in s.table && Recorded(s) == 1
    ensures var s' := Apply(cd, Reopen(s, true), StoreOk(cd, b));
            && Good(cd, s'.table) && View(cd, s'.table) == View(cd, s.table)[KeyOf(cd, b) := b]
            && s'.cache == [b] && s'.total == 2
  {
    hide View, Good, Find, Sound;
    SoundEncodes(cd, b);
    FindIs(cd, [], KeyOf(cd, b), 0);
    PutView(cd, Reopen(s, true), KeyOf(cd, b), b, Io(true, true, true));
  }

  /** What storing a, restarting and storing b leaves, when nothing fails. */
  lemma TwoSessions(cd: Coder, a: Saved, b: Saved)
    requires Sound(cd, a) && Sound(cd, b) && KeyOf(cd, a) != KeyOf(cd, b)
    ensures var s := Run(cd, EMPTY, [StoreOk(cd, a), Restart(true), StoreOk(cd, b)]);
            && Good(cd, s.table) && View(cd, s.table) == map[KeyOf(cd, a) := a, KeyOf(cd, b) := b]
            && s.cache == [b] && s.total == 2
  {
    hide Run, View, Good, Sound, PutStep;
    FirstStored(cd, a);
    RunOneMore(cd, EMPTY, [StoreOk(cd, a)], Restart(true));
    RunOneMore(cd, EMPTY, [StoreOk(cd, a), Restart(true)], StoreOk(cd, b));
    assert [StoreOk(cd, a)] + [Restart(true)] == [StoreOk(cd, a), Restart(true)];
    assert [StoreOk(cd, a), Restart(true)] + [StoreOk(cd, b)] == [StoreOk(cd, a), Restart(true), StoreOk(cd, b)];
    var s1 := Run(cd, EMPTY, [StoreOk(cd, a)]);
    assert KeyOf(cd, b) !in View(cd, s1.table).Keys;
    StoredAfterRestart(cd, s1, b);
  }

  lemma SoundEncodes(cd: Coder, x: Saved)
    requires Sound(cd, x)
    ensures cd.encode(x).Some?
  {
    assert x == x.(done := x.done);
  }

  /** The shortest history against a clock set back between two sessions. Nothing fails; the
      first batch read is right, and fills the cache with b twice, so the next read returns b
      twice and a, the newer record, not at all. */
  lemma ClockSetBackHidesRecord(cd: Coder, a: Saved, b: Saved)
    requires Sound(cd, a) && Sound(cd, b) && KeyOf(cd, a) != KeyOf(cd, b) && b.time < a.time
    ensures var s := Run(cd, EMPTY, [StoreOk(cd, a), Restart(true), StoreOk(cd, b)]);
            && Good(cd, s.table) && FirstBatch(cd, s.table) == [a, b] != [b, b]
            && forall ks, vs :: ListedBy(cd, s.table, ks, vs) ==>
                 && ReadResult(cd, s, ks, vs) == Some([a, b])
                 && forall ks', vs' :: ReadResult(cd, ReadStep(cd, s, ks, vs), ks', vs') == Some([b, b])
  {
    hide Run, View, Good, FirstBatch, ListedBy;
    var s := Run(cd, EMPTY, [StoreOk(cd, a), Restart(true), StoreOk(cd, b)]);
    TwoSessions(cd, a, b);
    BatchOfTwo(cd, s.table, a, b);
    forall ks, vs | ListedBy(cd, s.table, ks, vs)
      ensures && ReadResult(cd, s, ks, vs) == Some([a, b])
              && forall ks', vs' :: ReadResult(cd, ReadStep(cd, s, ks, vs), ks', vs') == Some([b, b])
    {
      TwoTimes(cd, s.table, a, b);
      OnlyOrder(cd, s.table, ks, vs);
      assert ReadStep(cd, s, ks, vs).cache == [b, b];
    }
  }

  lemma SessionStale(cd: Coder, s: Store, read: bool, ops: seq<Op>)
    requires Agree(cd, s) && Recorded(s) <= |s.table|
    requires RegularRun(cd, Reopen(s, read), ops)
    requires forall i :: 0 <= i < |ops| ==> !ops[i].Restart?
    requires |Run(cd, Reopen(s, read), ops).table| < TWO_TO_THE_64
    ensures var now := Run(cd, Reopen(s, read), ops);
            Stale(now) <==> Reopen(s, read).total == 0 && s.table != map[] && |now.cache| < 100
  {
    hide Run, RegularRun, Newest;
    var now := Run(cd, Reopen(s, read), ops);
    ReopenAgrees(cd, s, read);
    Opened(s, read);
    Session(cd, Reopen(s, read), ops);
    AgreeRun(cd, Reopen(s, read), ops);
    StaleWhen(now);
  }

  /** After any history of lost counter writes, the batch reads of a session are right unless
      the session opened with a zero counter over a table that was not empty, and then they
      are wrong until the cache is full. */
  lemma SessionReads(cd: Coder, s: Store, read: bool, ops: seq<Op>, ks: seq<Bytes>, vs: seq<Saved>)
    requires Agree(cd, s) && Recorded(s) <= |s.table|
    requires RegularRun(cd, Reopen(s, read), ops)
    requires forall i :: 0 <= i < |ops| ==> !ops[i].Restart?
    requires |Run(cd, Reopen(s, read), ops).table| < TWO_TO_THE_64
    requires ListedBy(cd, Run(cd, Reopen(s, read), ops).table, ks, vs)
    ensures var now := Run(cd, Reopen(s, read), ops);
            Agree(cd, now) &&
            (ReadResult(cd, now, ks, vs) == Some(FirstBatch(cd, now.table))
             <==> Reopen(s, read).total > 0 || s.table == map[] || |now.cache| == 100)
  {
    hide Run, RegularRun, ReadResult, FirstBatch, Newest, ListedBy;
    ReopenAgrees(cd, s, read);
    SessionStale(cd, s, read, ops);
    AgreeRun(cd, Reopen(s, read), ops);
    ReadIsFirstBatch(cd, Run(cd, Reopen(s, read), ops), ks, vs);
  }
}
