/** The store on values: what each call of the vendor database does to the table on disk, the
    counter record beside it, the bounded cache and the counter in memory. */
module StoreSpec {
  import opened Prelude
  import opened Codec
  import opened Records

  const CACHE_SIZE := 100

  /** The cache is listed as it is searched and returned, from the newest item to the oldest;
      counter is the counter record, absent at first. */
  datatype Store = Store(
    table: map<Bytes, Bytes>,
    counter: Option<uint64>,
    cache: seq<Saved>,
    total: uint64)

  /** Which LevelDB calls of one operation succeed: the read, the record write, the counter write. */
  datatype Io = Io(get: bool, put: bool, count: bool)

  const EMPTY := Store(map[], None, [], 0)

  // ---------- The cache ----------

  function Find(cd: Coder, cache: seq<Saved>, h: Bytes): (r: Option<nat>)
    ensures r.Some? ==> r.value < |cache| && KeyOf(cd, cache[r.value]) == h
    ensures r.None? ==> forall i :: 0 <= i < |cache| ==> KeyOf(cd, cache[i]) != h
  {
    if cache == [] then None
    else if KeyOf(cd, cache[0]) == h then Some(0)
    else
      match Find(cd, cache[1..], h)
      case None => None
      case Some(i) => Some(i + 1)
  }

  lemma {:induction false} FindIsFirst(cd: Coder, cache: seq<Saved>, h: Bytes, i: nat)
    requires Find(cd, cache, h).Some? && i < Find(cd, cache, h).value
    ensures KeyOf(cd, cache[i]) != h
  {
    if i > 0 {
      FindIsFirst(cd, cache[1..], h, i - 1);
    }
  }

  lemma {:induction false} FindIs(cd: Coder, cache: seq<Saved>, h: Bytes, n: nat)
    requires n <= |cache| && forall i :: 0 <= i < n ==> KeyOf(cd, cache[i]) != h
    requires n < |cache| ==> KeyOf(cd, cache[n]) == h
    ensures Find(cd, cache, h) == if n < |cache| then Some(n) else None
    decreases n
  {
    if n > 0 {
      FindIs(cd, cache[1..], h, n - 1);
    }
  }

  /** The newest item goes in front; if that is too many, the oldest goes out. */
  function PushTo(size: nat, cache: seq<Saved>, x: Saved): seq<Saved> {
    var c := [x] + cache;
    if |c| > size then c[..|c| - 1] else c
  }

  function Push(cache: seq<Saved>, x: Saved): seq<Saved> {
    PushTo(CACHE_SIZE, cache, x)
  }

  // ---------- The operations ----------

  function Recorded(s: Store): uint64 {
    match s.counter case None => 0 case Some(c) => c
  }

  /** A new session; if the counter record cannot be read, counting starts from zero. */
  function Reopen(s: Store, read: bool): Store {
    Store(s.table, s.counter, [], if read then Recorded(s) else 0)
  }

  function GetTotal(s: Store): uint64 {
    if s.total > 0 then s.total else Recorded(s)
  }

  /** The lookups of PutSignedTx find nothing; a failed read counts as a find. */
  predicate Absent(cd: Coder, s: Store, h: Bytes, io: Io) {
    Find(cd, s.cache, h).None? && io.get && h !in s.table
  }

  /** Whether PutSignedTx gets as far as writing the record. */
  predicate Inserts(cd: Coder, s: Store, h: Bytes, x: Saved, io: Io) {
    Absent(cd, s, h, io) && cd.encode(x).Some? && io.put
  }

  function PutStep(cd: Coder, s: Store, h: Bytes, x: Saved, io: Io): Store {
    if !Inserts(cd, s, h, x, io) then s
    else
      var total := (s.total + 1) % TWO_TO_THE_64;
      Store(s.table[h := cd.encode(x).value],
            if io.count then Some(total) else s.counter,
            Push(s.cache, x),
            total)
  }

  function GetStep(cd: Coder, s: Store, h: Bytes, io: Io): Option<Saved> {
    match Find(cd, s.cache, h)
    case Some(i) => Some(s.cache[i])
    case None => if io.get && h in s.table then cd.decode(s.table[h]) else None
  }

  /** The item in the cache first, whatever then happens to the one on disk. */
  function DoneCache(cd: Coder, cache: seq<Saved>, h: Bytes): seq<Saved> {
    match Find(cd, cache, h)
    case None => cache
    case Some(i) => cache[i := cache[i].(done := true)]
  }

  /** The record is read, marked and written back; an error of the last encoding is ignored and
      the record replaced by nothing. */
  function DoneTable(cd: Coder, table: map<Bytes, Bytes>, h: Bytes, io: Io): map<Bytes, Bytes> {
    if !io.get || h !in table || !io.put then table
    else
      match cd.decode(table[h])
      case None => table
      case Some(x) =>
        match cd.encode(x.(done := true))
        case None => table[h := []]
        case Some(raw) => table[h := raw]
  }

  function DoneStep(cd: Coder, s: Store, h: Bytes, io: Io): Store {
    s.(cache := DoneCache(cd, s.cache, h), table := DoneTable(cd, s.table, h, io))
  }

  /** The test that lets ReadFirstBatch answer from the cache alone. */
  predicate FastPath(s: Store) {
    |s.cache| == CACHE_SIZE || |s.cache| == s.total
  }

  /** Of the batch, the records beyond those cached are added, one by one, behind the oldest. */
  function Backfill(s: Store, batch: seq<Saved>): Store {
    s.(cache := s.cache + Slice(batch, |s.cache|, |batch|))
  }

  // ---------- The table read back ----------

  /** The record under h decodes, to an item with that hash that will encode again. */
  ghost predicate GoodRecord(cd: Coder, h: Bytes, raw: Bytes) {
    match cd.decode(raw)
    case None => false
    case Some(x) => Sound(cd, x) && KeyOf(cd, x) == h
  }

  ghost predicate Good(cd: Coder, table: map<Bytes, Bytes>) {
    forall h :: h in table ==> GoodRecord(cd, h, table[h])
  }

  lemma SameSize<K, V, W>(m: map<K, V>, n: map<K, W>)
    requires forall k :: k in m <==> k in n
    ensures m.Keys == n.Keys && |m| == |n|
  {
    assert m.Keys == n.Keys;
    assert |m.Keys| == |m| && |n.Keys| == |n|;
  }

  ghost function View(cd: Coder, table: map<Bytes, Bytes>): (m: Table)
    requires Good(cd, table)
    ensures m.Keys == table.Keys && |m| == |table|
    ensures forall h :: h in table ==> cd.decode(table[h]) == Some(m[h])
    ensures Keyed(cd, m)
  {
    assert forall h :: h in table ==> GoodRecord(cd, h, table[h]);
    var m := map h | h in table :: cd.decode(table[h]).value;
    SameSize(m, table);
    m
  }

  // ---------- The batch ----------

  function Top<T>(s: seq<T>): seq<T> {
    s[..Min(CACHE_SIZE, |s|)]
  }

  /** The reference batch of a good table, newest first, up to the size of the cache. */
  ghost function FirstBatch(cd: Coder, table: map<Bytes, Bytes>): seq<Saved>
    requires Good(cd, table)
  {
    Top(ByTime(View(cd, table)))
  }

  ghost predicate AllDecode(cd: Coder, table: map<Bytes, Bytes>) {
    forall h :: h in table ==> cd.decode(table[h]) != None
  }

  /** What scanning and sorting can come to: each key of the table once, with the item its record
      decodes to, no newer one after an older one. The sort leaves the order of equal times open. */
  ghost predicate ListedBy(cd: Coder, table: map<Bytes, Bytes>, ks: seq<Bytes>, vs: seq<Saved>) {
    && |ks| == |vs| && Distinct(ks)
    && (forall h :: h in table ==> h in ks)
    && (forall i :: 0 <= i < |ks| ==> ks[i] in table && cd.decode(table[ks[i]]) == Some(vs[i]))
    && (forall i, j :: 0 <= i < j < |vs| ==> vs[i].time >= vs[j].time)
  }

  /** A batch read whose scan comes to ks and vs. Anything that does not list the table stands for
      a scan that fails, which changes nothing. */
  ghost function ReadStep(cd: Coder, s: Store, ks: seq<Bytes>, vs: seq<Saved>): Store {
    if FastPath(s) || !ListedBy(cd, s.table, ks, vs) then s else Backfill(s, Top(vs))
  }

  ghost function ReadResult(cd: Coder, s: Store, ks: seq<Bytes>, vs: seq<Saved>): Option<seq<Saved>> {
    if FastPath(s) then Some(s.cache) else if ListedBy(cd, s.table, ks, vs) then Some(Top(vs)) else None
  }

  // ---------- Looking up ----------

  /** What the cache answers for a key. */
  function Hit(cd: Coder, cache: seq<Saved>, h: Bytes): Option<Saved> {
    match Find(cd, cache, h) case None => None case Some(i) => Some(cache[i])
  }

  /** x may be cached for the stored record y: the same item and time, and every mark of y;
      no further mark either if the marks are to be exact. */
  predicate StandsFor(x: Saved, y: Saved, exact: bool) {
    x.item == y.item && x.time == y.time && (y.done ==> x.done) && (exact ==> x == y)
  }

  /** Whatever the cache answers stands for the record on disk. */
  ghost predicate Hits(cd: Coder, s: Store, exact: bool) {
    && Good(cd, s.table)
    && forall h :: Hit(cd, s.cache, h).Some? ==>
         h in s.table && StandsFor(Hit(cd, s.cache, h).value, View(cd, s.table)[h], exact)
  }

  ghost function Lookup(cd: Coder, table: map<Bytes, Bytes>, h: Bytes): Option<Saved>
    requires Good(cd, table)
  {
    if h in table then Some(View(cd, table)[h]) else None
  }

  /** All lookups, through the cache or not, are lookups in the table exactly when the first
      cached item under each key is the stored record. */
  lemma GetIsLookup(cd: Coder, s: Store)
    requires Good(cd, s.table)
    ensures Hits(cd, s, true) <==> forall h, io: Io :: io.get ==> GetStep(cd, s, h, io) == Lookup(cd, s.table, h)
  {
    hide View, Good, Find;
    if forall h, io: Io :: io.get ==> GetStep(cd, s, h, io) == Lookup(cd, s.table, h) {
      forall h | Hit(cd, s.cache, h).Some?
        ensures h in s.table && StandsFor(Hit(cd, s.cache, h).value, View(cd, s.table)[h], true)
      {
        assert GetStep(cd, s, h, Io(true, true, true)) == Lookup(cd, s.table, h);
      }
    }
  }

  // ---------- The representation invariant ----------

  /** The cache is exactly the newest records of the table, flags included. */
  ghost predicate Agree(cd: Coder, s: Store) {
    && Good(cd, s.table)
    && DistinctTimes(View(cd, s.table))
    && Newest(cd, s.cache, View(cd, s.table))
    && |s.cache| <= CACHE_SIZE
  }

  /** The invariant in terms of the reference order. */
  lemma AgreeIsPrefix(cd: Coder, s: Store)
    requires Good(cd, s.table) && DistinctTimes(View(cd, s.table))
    ensures var all := ByTime(View(cd, s.table));
            && |all| == |s.table|
            && (Agree(cd, s) <==>
                |s.cache| <= Min(100, |s.table|) && s.cache == all[..|s.cache|])
  {
    NewestIsByTime(cd, s.cache, View(cd, s.table));
  }

  lemma CachedIsStored(cd: Coder, s: Store, i: nat)
    requires Agree(cd, s) && i < |s.cache|
    ensures var k := KeyOf(cd, s.cache[i]); k in s.table && View(cd, s.table)[k] == s.cache[i]
  {
  }

  lemma AgreeHits(cd: Coder, s: Store)
    requires Agree(cd, s)
    ensures Hits(cd, s, true)
  {
    forall h | Hit(cd, s.cache, h).Some?
      ensures h in s.table && Hit(cd, s.cache, h) == Some(View(cd, s.table)[h])
    {
      CachedIsStored(cd, s, Find(cd, s.cache, h).value);
    }
  }

  lemma GoodAfterWrite(cd: Coder, table: map<Bytes, Bytes>, h: Bytes, x: Saved)
    requires Good(cd, table) && Sound(cd, x) && cd.key(x.item) == h
    ensures cd.encode(x).Some? && cd.decode(cd.encode(x).value) == Some(x)
    ensures Good(cd, table[h := cd.encode(x).value])
  {
    assert x == x.(done := x.done);
    assert Survives(cd, x) && GoodRecord(cd, h, cd.encode(x).value);
  }

  /** The view is what the records decode to, and nothing else is. */
  lemma ViewIs(cd: Coder, table: map<Bytes, Bytes>, m: Table)
    requires Good(cd, table) && m.Keys == table.Keys
    requires forall h :: h in table ==> cd.decode(table[h]) == Some(m[h])
    ensures View(cd, table) == m
  {
    hide View, Good;
    forall h | h in m ensures View(cd, table)[h] == m[h] {
      assert h in table && cd.decode(table[h]) == Some(View(cd, table)[h]);
    }
  }

  lemma ViewAfterWrite(cd: Coder, table: map<Bytes, Bytes>, h: Bytes, x: Saved)
    requires Good(cd, table) && Sound(cd, x) && cd.key(x.item) == h
    ensures cd.encode(x).Some?
    ensures var table' := table[h := cd.encode(x).value];
            Good(cd, table') && View(cd, table') == View(cd, table)[h := x]
  {
    hide View, Good, Sound;
    GoodAfterWrite(cd, table, h, x);
    ViewIs(cd, table[h := cd.encode(x).value], View(cd, table)[h := x]);
  }

  /** Pushing keeps a prefix of the longer list. */
  lemma PushIsPrefix(cache: seq<Saved>, x: Saved)
    requires |cache| <= CACHE_SIZE
    ensures 0 < |Push(cache, x)| == Min(CACHE_SIZE, |cache| + 1)
    ensures Push(cache, x) == ([x] + cache)[..|Push(cache, x)|]
  {
    assert ([x] + cache)[..|cache| + 1] == [x] + cache;
  }

  lemma PutKeepsAgree(cd: Coder, s: Store, h: Bytes, x: Saved, io: Io)
    requires Agree(cd, s) && Inserts(cd, s, h, x, io) && KeyOf(cd, x) == h
    requires Sound(cd, x)
    ensures Agree(cd, PutStep(cd, s, h, x, io)) <==> Later(x, View(cd, s.table))
    ensures var s' := PutStep(cd, s, h, x, io);
            Good(cd, s'.table) && View(cd, s'.table) == View(cd, s.table)[h := x]
  {
    hide Push, Newest, Sound, Keyed, DistinctTimes, Later;
    ViewAfterWrite(cd, s.table, h, x);
    PushIsPrefix(s.cache, x);
    NewestAfterInsert(cd, x, s.cache, View(cd, s.table), |Push(s.cache, x)|);
  }

  /** Inserting keeps the invariant exactly when the new record survives its encoding and was
      received after everything stored. */
  lemma PutAgree(cd: Coder, s: Store, h: Bytes, x: Saved, io: Io)
    requires Agree(cd, s) && Inserts(cd, s, h, x, io) && KeyOf(cd, x) == h
    ensures Agree(cd, PutStep(cd, s, h, x, io)) <==> Sound(cd, x) && Later(x, View(cd, s.table))
  {
    var s' := PutStep(cd, s, h, x, io);
    if Agree(cd, s') {
      CachedIsStored(cd, s', 0);
      assert GoodRecord(cd, h, s'.table[h]);
    }
    if Sound(cd, x) {
      PutKeepsAgree(cd, s, h, x, io);
    }
  }

  /** Marking keeps the invariant unless the record is cached unmarked and the disk fails. */
  lemma DoneAgree(cd: Coder, s: Store, h: Bytes, io: Io)
    requires Agree(cd, s)
    ensures Agree(cd, DoneStep(cd, s, h, io)) <==>
            || (io.get && io.put)
            || Find(cd, s.cache, h).None?
            || (h in s.table && View(cd, s.table)[h].done)
  {
    var s', m := DoneStep(cd, s, h, io), View(cd, s.table);
    var f := Find(cd, s.cache, h);
    if f.Some? {
      CachedIsStored(cd, s, f.value);
    }
    if h in s.table && io.get && io.put {
      DoneAgreeWritten(cd, s, h, io);
    } else if f.Some? && !m[h].done {
      assert s'.cache[f.value] != m[h];
      if Agree(cd, s') {
        CachedIsStored(cd, s', f.value);
        assert false;
      }
    } else {
      assert s'.cache == s.cache;
    }
  }

  lemma DoneAgreeWritten(cd: Coder, s: Store, h: Bytes, io: Io)
    requires Agree(cd, s) && h in s.table && io.get && io.put
    ensures var s', m := DoneStep(cd, s, h, io), View(cd, s.table);
            Agree(cd, s') && View(cd, s'.table) == m[h := m[h].(done := true)]
  {
    var m := View(cd, s.table);
    var x := m[h].(done := true);
    assert GoodRecord(cd, h, s.table[h]);
    ViewAfterWrite(cd, s.table, h, x);
    NewestAfterMark(cd, h, s.cache, m);
    MarkedCache(cd, s, h);
  }

  /** Keys in an agreeing cache are distinct, so marking one item marks all with its key. */
  lemma MarkedCache(cd: Coder, s: Store, h: Bytes)
    requires Agree(cd, s)
    ensures DoneCache(cd, s.cache, h) == MarkAll(cd, h, s.cache)
  {
    var f, c := Find(cd, s.cache, h), s.cache;
    if f.Some? {
      forall i | 0 <= i < |c| && i != f.value ensures KeyOf(cd, c[i]) != h {
        NewestKeysDiffer(cd, c, View(cd, s.table), Min(i, f.value), Max(i, f.value));
      }
    }
  }
}
