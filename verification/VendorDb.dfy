/** The vendor database: LevelDB as a map with atomic single-key writes, and the cache of
    shared items, against the store of StoreSpec. */
module VendorDb {
  import opened Prelude
  import opened BigEndian
  import opened Wire
  import opened Codec
  import opened Records
  import opened StoreSpec
  import opened Batches
  import opened SavedItemArr

  /** "tx" and "total" in ASCII. */
  const TX_PREFIX: Bytes := [116, 120]
  const TOTALNUM_PREFIX: Bytes := [116, 111, 116, 97, 108]

  // ---------- LevelDB ----------

  type Disk = map<Bytes, Bytes>

  function TxHashes(kv: Disk): set<Bytes> {
    set k | k in kv && TX_PREFIX <= k :: k[2..]
  }

  /** What an iteration over the prefix sees, by hash. */
  function TxPart(kv: Disk): map<Bytes, Bytes> {
    map h | h in TxHashes(kv) && TX_PREFIX + h in kv :: kv[TX_PREFIX + h]
  }

  lemma InTxPart(kv: Disk, h: Bytes)
    ensures h in TxPart(kv) <==> TX_PREFIX + h in kv
    ensures h in TxPart(kv) ==> TxPart(kv)[h] == kv[TX_PREFIX + h]
  {
    assert (TX_PREFIX + h)[2..] == h;
  }

  lemma TxPartAfterPut(kv: Disk, h: Bytes, raw: Bytes)
    ensures TxPart(kv[TX_PREFIX + h := raw]) == TxPart(kv)[h := raw]
  {
    var kv' := kv[TX_PREFIX + h := raw];
    forall k ensures k in TxPart(kv') <==> k in TxPart(kv)[h := raw] {
      InTxPart(kv, k);
      InTxPart(kv', k);
      assert TX_PREFIX + k == TX_PREFIX + h ==> k == h by {
        assert (TX_PREFIX + k)[2..] == k && (TX_PREFIX + h)[2..] == h;
      }
    }
    forall k | k in TxPart(kv') ensures TxPart(kv')[k] == TxPart(kv)[h := raw][k] {
      InTxPart(kv', k);
      InTxPart(kv, k);
      assert (TX_PREFIX + k)[2..] == k && (TX_PREFIX + h)[2..] == h;
    }
  }

  /** The counter record does not start with the record prefix. */
  lemma TxPartAfterTotal(kv: Disk, raw: Bytes)
    ensures TxPart(kv[TOTALNUM_PREFIX := raw]) == TxPart(kv)
  {
    var kv' := kv[TOTALNUM_PREFIX := raw];
    forall k ensures k in TxPart(kv') <==> k in TxPart(kv) {
      InTxPart(kv, k);
      InTxPart(kv', k);
      assert (TX_PREFIX + k)[1] != TOTALNUM_PREFIX[1];
    }
    forall k | k in TxPart(kv') ensures TxPart(kv')[k] == TxPart(kv)[k] {
      InTxPart(kv', k);
      InTxPart(kv, k);
      assert (TX_PREFIX + k)[1] != TOTALNUM_PREFIX[1];
    }
  }

  function CounterPart(kv: Disk): Option<uint64> {
    if TOTALNUM_PREFIX in kv && |kv[TOTALNUM_PREFIX]| == 8 then Some(U64Of(kv[TOTALNUM_PREFIX])) else None
  }

  /** Only eight-byte counters are ever written. */
  predicate DiskOk(kv: Disk) {
    TOTALNUM_PREFIX in kv ==> |kv[TOTALNUM_PREFIX]| == 8
  }

  lemma CounterAfterTx(kv: Disk, h: Bytes, raw: Bytes)
    ensures CounterPart(kv[TX_PREFIX + h := raw]) == CounterPart(kv)
    ensures DiskOk(kv) ==> DiskOk(kv[TX_PREFIX + h := raw])
  {
    assert (TX_PREFIX + h)[1] != TOTALNUM_PREFIX[1];
  }

  lemma CounterAfterTotal(kv: Disk, v: uint64)
    ensures CounterPart(kv[TOTALNUM_PREFIX := U64Bytes(v)]) == Some(v)
  {
    hide U64Of, U64Bytes;
    U64RoundTrip(v);
  }

  /** The two kinds of records the program keeps in LevelDB. */
  class LevelDb {
    var kv: Disk

    constructor (disk: Disk)
      ensures kv == disk
    {
      kv := disk;
    }

    function Txs(): map<Bytes, Bytes>
      reads this
    {
      TxPart(kv)
    }

    function Counter(): Option<uint64>
      reads this
    {
      CounterPart(kv)
    }

    method GetTx(txHash: Bytes) returns (raw: Option<Bytes>)
      ensures raw == if txHash in Txs() then Some(Txs()[txHash]) else None
    {
      InTxPart(kv, txHash);
      var key := TX_PREFIX + txHash;
      return if key in kv then Some(kv[key]) else None;
    }

    method PutTx(txHash: Bytes, raw: Bytes)
      requires DiskOk(kv)
      modifies this
      ensures DiskOk(kv) && kv == old(kv)[[116, 120] + txHash := raw]
      ensures Txs() == old(Txs())[txHash := raw] && Counter() == old(Counter())
    {
      TxPartAfterPut(kv, txHash, raw);
      CounterAfterTx(kv, txHash, raw);
      kv := kv[TX_PREFIX + txHash := raw];
    }

    method GetTotal() returns (n: Option<uint64>)
      requires DiskOk(kv)
      ensures n == Counter()
    {
      if TOTALNUM_PREFIX !in kv {
        return None;
      }
      return Some(U64Of(kv[TOTALNUM_PREFIX]));
    }

    method PutTotal(n: uint64)
      modifies this
      ensures DiskOk(kv) && kv == old(kv)[[116, 111, 116, 97, 108] := U64Bytes(n)]
      ensures Txs() == old(Txs()) && Counter() == Some(n)
    {
      TxPartAfterTotal(kv, U64Bytes(n));
      CounterAfterTotal(kv, n);
      kv := kv[TOTALNUM_PREFIX := U64Bytes(n)];
    }
  }

  // ---------- The cache ----------

  /** c has the items of l by value, from the back of l to its front. */
  ghost predicate Shows(c: seq<Saved>, l: seq<SavedItem>)
    reads l
  {
    |c| == |l| && forall i :: 0 <= i < |l| ==> c[|l| - 1 - i] == l[i].Value()
  }

  /** The list after one more item: if that is too many, the oldest goes out. */
  function ListPush<T>(size: nat, l: seq<T>, item: T): seq<T> {
    var c := l + [item];
    if |c| > size then c[1..] else c
  }

  lemma DistinctPush<T>(size: nat, l: seq<T>, item: T)
    requires Distinct(l) && item !in l
    ensures Distinct(ListPush(size, l, item))
  {
    assert Distinct(l + [item]);
  }

  lemma ShowsPush(size: nat, c: seq<Saved>, l: seq<SavedItem>, item: SavedItem)
    requires Shows(c, l)
    ensures Shows(PushTo(size, c, item.Value()), ListPush(size, l, item))
  {
  }

  lemma ShowsFront(c: seq<Saved>, l: seq<SavedItem>, item: SavedItem)
    requires Shows(c, l)
    ensures Shows(c + [item.Value()], [item] + l)
  {
  }

  lemma ShownSize(c: seq<Saved>, l: seq<SavedItem>)
    requires Shows(c, l)
    ensures |c| == |l|
  {
  }

  lemma NotListed(cd: Coder, c: seq<Saved>, l: seq<SavedItem>, item: SavedItem)
    requires Shows(c, l) && Find(cd, c, KeyOf(cd, item.Value())) == None
    ensures item !in l
  {
    forall i | 0 <= i < |l| ensures l[i] != item {
      assert c[|l| - 1 - i] == l[i].Value();
    }
  }

  /** The items that are val itself, marked. */
  function MarkShared(c: seq<Saved>, l: seq<SavedItem>, val: SavedItem): (r: seq<Saved>)
    requires |c| == |l|
    ensures |r| == |c|
    ensures forall i :: 0 <= i < |c| ==> r[i] == if l[|l| - 1 - i] == val then c[i].(done := true) else c[i]
  {
    seq(|c|, i requires 0 <= i < |c| => if l[|l| - 1 - i] == val then c[i].(done := true) else c[i])
  }

  /** The newest cached item with this hash, marked wherever it is listed. */
  function DoneShared(cd: Coder, c: seq<Saved>, l: seq<SavedItem>, h: Bytes): seq<Saved>
    requires |c| == |l|
  {
    match Find(cd, c, h)
    case None => c
    case Some(i) => MarkShared(c, l, l[|l| - 1 - i])
  }

  lemma DoneOnce(cd: Coder, c: seq<Saved>, l: seq<SavedItem>, h: Bytes)
    requires |c| == |l| && Distinct(l)
    ensures DoneShared(cd, c, l, h) == DoneCache(cd, c, h)
  {
    match Find(cd, c, h)
    case None =>
    case Some(i) =>
      var r := MarkShared(c, l, l[|l| - 1 - i]);
      assert forall j :: 0 <= j < |c| ==> r[j] == c[i := c[i].(done := true)][j];
  }

  /** container/list as a sequence, front (oldest) to back (newest); contents is the list by
      value in the order in which it is searched and returned. */
  class VendorCache {
    var l: seq<SavedItem>
    const size: nat
    var totalCache: uint64
    ghost var contents: seq<Saved>

    ghost predicate Valid()
      reads this, l
    {
      Shows(contents, l)
    }

    constructor (size: nat)
      ensures Valid() && l == [] && totalCache == 0 && this.size == size
    {
      l, this.size, totalCache, contents := [], size, 0, [];
    }

    method Put(item: SavedItem)
      requires Valid()
      modifies this
      ensures Valid() && l == ListPush(size, old(l), item)
      ensures contents == PushTo(size, old(contents), item.Value())
      ensures totalCache == (old(totalCache) + 1) % TWO_TO_THE_64
    {
      hide Shows, PushTo;
      ShowsPush(size, contents, l, item);
      contents := PushTo(size, contents, item.Value());
      l := l + [item];
      if |l| > size {
        l := l[1..];
      }
      totalCache := (totalCache + 1) % TWO_TO_THE_64;
    }

    method PutToFront(item: SavedItem)
      requires Valid()
      modifies this
      ensures Valid() && l == [item] + old(l) && totalCache == old(totalCache)
      ensures contents == old(contents) + [item.Value()]
    {
      hide Shows;
      ShowsFront(contents, l, item);
      l := [item] + l;
      contents := contents + [item.Value()];
    }

    /** The newest item whose own hash is txHash. */
    method Get(lib: Lib, txHash: Bytes) returns (r: SavedItem?)
      requires Valid()
      ensures match Find(CoderOf(lib), contents, txHash)
              case None => r == null
              case Some(i) => r != null && r == l[|l| - 1 - i]
    {
      var v := |l|;
      while v > 0
        invariant 0 <= v <= |l|
        invariant forall i :: 0 <= i < |l| - v ==> KeyOf(CoderOf(lib), contents[i]) != txHash
      {
        assert contents[|l| - v] == l[v - 1].Value();
        if TxHash(lib, l[v - 1].item.mtx) == txHash {
          FindIs(CoderOf(lib), contents, txHash, |l| - v);
          return l[v - 1];
        }
        v := v - 1;
      }
      FindIs(CoderOf(lib), contents, txHash, |l|);
      return null;
    }

    /** Done set through a reference to a listed item. */
    method MarkItem(val: SavedItem)
      requires Valid()
      modifies val, this`contents
      ensures Valid() && |old(contents)| == |l| && contents == MarkShared(old(contents), l, val)
    {
      val.done := true;
      contents := MarkShared(contents, l, val);
    }

    method GetAll() returns (arr: seq<SavedItem>)
      ensures arr == Reverse(l)
    {
      arr := [];
      var young := |l|;
      while young > 0
        invariant 0 <= young <= |l|
        invariant arr == Reverse(l)[..|l| - young]
      {
        arr := arr + [l[young - 1]];
        young := young - 1;
      }
    }
  }

  // ---------- Scanning the table ----------

  /** vs has the items of l by value, in order. */
  ghost predicate Values(vs: seq<Saved>, l: seq<SavedItem>)
    reads l
  {
    |vs| == |l| && forall i :: 0 <= i < |l| ==> vs[i] == l[i].Value()
  }

  /** The items decoded from the records under the keys ks, each key once. */
  ghost predicate Scanned(cd: Coder, table: map<Bytes, Bytes>, ks: seq<Bytes>, arr: seq<SavedItem>)
    reads arr
  {
    && |ks| == |arr|
    && Distinct(ks) && Distinct(arr)
    && forall i :: 0 <= i < |ks| ==> ks[i] in table && cd.decode(table[ks[i]]) == Some(arr[i].Value())
  }

  lemma ScannedNext(cd: Coder, table: map<Bytes, Bytes>, ks: seq<Bytes>, arr: seq<SavedItem>, h: Bytes, item: SavedItem)
    requires Scanned(cd, table, ks, arr) && h in table && h !in ks && item !in arr
    requires cd.decode(table[h]) == Some(item.Value())
    ensures Scanned(cd, table, ks + [h], arr + [item])
  {
  }

  /** A scan in progress: the keys still to come and those done make up the table. */
  ghost predicate Scanning(cd: Coder, table: map<Bytes, Bytes>, todo: set<Bytes>, ks: seq<Bytes>, arr: seq<SavedItem>)
    reads arr
  {
    && todo <= table.Keys
    && Scanned(cd, table, ks, arr)
    && (forall h :: h in table ==> h in todo || h in ks)
    && (forall h :: h in ks ==> h !in todo)
  }

  lemma ScanningNext(cd: Coder, table: map<Bytes, Bytes>, todo: set<Bytes>, ks: seq<Bytes>, arr: seq<SavedItem>,
                     h: Bytes, item: SavedItem)
    requires Scanning(cd, table, todo, ks, arr) && h in todo && item !in arr
    requires cd.decode(table[h]) == Some(item.Value())
    ensures Scanning(cd, table, todo - {h}, ks + [h], arr + [item])
  {
    ScannedNext(cd, table, ks, arr, h, item);
  }

  lemma ScanningDone(cd: Coder, table: map<Bytes, Bytes>, ks: seq<Bytes>, arr: seq<SavedItem>)
    requires Scanning(cd, table, {}, ks, arr)
    ensures AllDecode(cd, table) && forall h :: h in table ==> h in ks
  {
    forall h | h in table ensures cd.decode(table[h]) != None {
      var i := IndexOf(ks, h);
    }
  }

  /** Where an item was before the sort. */
  ghost function PlaceOf<T>(s: seq<T>, x: T): (i: nat)
    requires x in s
    ensures i < |s| && s[i] == x
  {
    var i :| 0 <= i < |s| && s[i] == x;
    i
  }

  /** The keys in the order into which sorting brought their items. */
  ghost function SortedKeys(ks: seq<Bytes>, arr: seq<SavedItem>, sorted: seq<SavedItem>): (r: seq<Bytes>)
    requires |ks| == |arr| && forall x :: x in sorted ==> x in arr
    ensures |r| == |sorted|
    ensures forall i :: 0 <= i < |r| ==> r[i] == ks[PlaceOf(arr, sorted[i])]
  {
    seq(|sorted|, i requires 0 <= i < |sorted| => ks[PlaceOf(arr, sorted[i])])
  }

  lemma SortedKeysList(cd: Coder, table: map<Bytes, Bytes>, ks: seq<Bytes>, arr: seq<SavedItem>,
                       sorted: seq<SavedItem>, vs: seq<Saved>)
    requires Scanned(cd, table, ks, arr) && forall h :: h in table ==> h in ks
    requires |arr| == |sorted| && Distinct(sorted) && forall x :: x in sorted <==> x in arr
    requires NewestFirst(sorted) && Values(vs, sorted)
    ensures ListedBy(cd, table, SortedKeys(ks, arr, sorted), vs)
  {
    hide PlaceOf, SortedKeys;
    var r := SortedKeys(ks, arr, sorted);
    forall i | 0 <= i < |r| ensures r[i] in table && cd.decode(table[r[i]]) == Some(vs[i]) {
      assert arr[PlaceOf(arr, sorted[i])] == sorted[i];
    }
    forall h | h in table ensures h in r {
      var j := IndexOf(ks, h);
      assert arr[j] in sorted;
      var i := IndexOf(sorted, arr[j]);
      assert PlaceOf(arr, sorted[i]) == j;
      assert r[i] == h;
    }
    forall i, j | 0 <= i < j < |r| ensures r[i] != r[j] {
      assert PlaceOf(arr, sorted[i]) != PlaceOf(arr, sorted[j]);
    }
  }

  /** Sorting the scanned items lists the table. */
  lemma SortedScan(cd: Coder, table: map<Bytes, Bytes>, ks: seq<Bytes>, arr: seq<SavedItem>,
                   sorted: seq<SavedItem>, vs: seq<Saved>)
    requires Scanned(cd, table, ks, arr) && forall h :: h in table ==> h in ks
    requires multiset(arr) == multiset(sorted) && NewestFirst(sorted) && Values(vs, sorted)
    ensures forall x :: x in sorted ==> x in arr
    ensures ListedBy(cd, table, SortedKeys(ks, arr, sorted), vs)
  {
    hide PlaceOf, SortedKeys;
    RearrangedDistinct(arr, sorted);
    SortedKeysList(cd, table, ks, arr, sorted, vs);
  }

  lemma SliceOfTop<T>(s: seq<T>, k: nat)
    ensures |Top(s)| == Min(CACHE_SIZE, |s|)
    ensures Slice(Top(s), k, |Top(s)|) == Slice(s, k, Max(k, |Top(s)|))
  {
  }

  lemma ValuesOfTop(vs: seq<Saved>, l: seq<SavedItem>)
    requires Values(vs, l)
    ensures Values(Top(vs), Top(l))
  {
  }

  /** Some item listed has this hash. */
  predicate Cached(lib: Lib, c: seq<Saved>, h: Bytes) {
    exists i :: 0 <= i < |c| && TxHash(lib, c[i].item.mtx) == h
  }

  lemma CachedIsFound(lib: Lib, c: seq<Saved>, h: Bytes)
    ensures Cached(lib, c, h) <==> Find(CoderOf(lib), c, h).Some?
  {
    if i :| 0 <= i < |c| && TxHash(lib, c[i].item.mtx) == h {
      assert KeyOf(CoderOf(lib), c[i]) == h;
    }
    if Find(CoderOf(lib), c, h).Some? {
      assert KeyOf(CoderOf(lib), c[Find(CoderOf(lib), c, h).value]) == h;
    }
  }

  lemma PushedList<T>(l: seq<T>, item: T)
    ensures ListPush(CACHE_SIZE, l, item) == if |l| + 1 > 100 then l[1..] + [item] else l + [item]
  {
  }

  // ---------- The database ----------

  class VendorDB {
    const lib: Lib
    const db: LevelDb
    const txCache: VendorCache

    ghost predicate Valid()
      reads this, db, txCache, txCache.l
    {
      DiskOk(db.kv) && txCache.Valid() && txCache.size == CACHE_SIZE
    }

    /** No item is listed twice, so that marking one marks one. */
    ghost predicate Unshared()
      reads txCache
    {
      Distinct(txCache.l)
    }

    ghost function State(): Store
      reads this, db, txCache
    {
      Store(db.Txs(), db.Counter(), txCache.contents, txCache.totalCache)
    }

    /** Opening a disk starts a session with an empty cache; get says whether reading the counter
        succeeds. */
    constructor (lib: Lib, disk: Disk, get: bool)
      requires DiskOk(disk)
      ensures Valid() && Unshared() && fresh(db) && fresh(txCache) && this.lib == lib && db.kv == disk
      ensures State() == Reopen(Store(TxPart(disk), CounterPart(disk), [], 0), get)
    {
      this.lib := lib;
      db := new LevelDb(disk);
      txCache := new VendorCache(CACHE_SIZE);
      new;
      var total := GetTotalTxNum(get);
      txCache.totalCache := total;
    }

    method GetTotalTxNum(get: bool) returns (n: uint64)
      requires Valid()
      ensures n == if txCache.totalCache > 0 || get then GetTotal(State()) else 0
      ensures txCache.totalCache > 0 ==> n == txCache.totalCache
      ensures txCache.totalCache == 0 && get && db.Counter().Some? ==> n == db.Counter().value
      ensures txCache.totalCache == 0 && (!get || db.Counter().None?) ==> n == 0
    {
      if txCache.totalCache > 0 {
        return txCache.totalCache;
      }
      if !get {
        return 0;
      }
      var val := db.GetTotal();
      return if val == None then 0 else val.value;
    }

    /** Decodes one record into a new item. */
    method Decode(raw: Bytes) returns (item: SavedItem?)
      ensures (item == null) == (CoderOf(lib).decode(raw) == None)
      ensures item != null ==> fresh(item) && CoderOf(lib).decode(raw) == Some(item.Value())
    {
      var x := new SavedItem(ToSign(MsgTx(1, [], [], 0), []), 0, false);
      var ok := x.Deserialize(lib, raw);
      return if ok then x else null;
    }

    method Encode(item: SavedItem) returns (raw: Option<Bytes>)
      ensures raw == CoderOf(lib).encode(item.Value())
    {
      raw := item.Serialize(lib);
    }

    /** The record write of an insert, and the cache. */
    method WriteRecord(txHash: Bytes, raw: Bytes, item: SavedItem)
      requires Valid()
      modifies db, txCache
      ensures Valid() && txCache.l == ListPush(CACHE_SIZE, old(txCache.l), item)
      ensures db.Txs() == old(db.Txs())[txHash := raw] && db.Counter() == old(db.Counter())
      ensures txCache.contents == Push(old(txCache.contents), item.Value())
      ensures txCache.totalCache == (old(txCache.totalCache) + 1) % TWO_TO_THE_64
    {
      hide TxPart, Shows, PushTo, ListPush;
      db.PutTx(txHash, raw);
      txCache.Put(item);
    }

    /** The counter write. */
    method RecordTotal(count: bool)
      requires DiskOk(db.kv)
      modifies db
      ensures DiskOk(db.kv) && db.Txs() == old(db.Txs())
      ensures db.Counter() == if count then Some(txCache.totalCache) else old(db.Counter())
    {
      if count {
        db.PutTotal(txCache.totalCache);
      }
    }

    method Insert(txHash: Bytes, raw: Bytes, item: SavedItem, ghost io: Io, count: bool)
      requires Valid() && Inserts(CoderOf(lib), State(), txHash, item.Value(), io) && count == io.count
      requires CoderOf(lib).encode(item.Value()) == Some(raw)
      modifies db, txCache
      ensures Valid() && txCache.l == ListPush(CACHE_SIZE, old(txCache.l), item)
      ensures State() == PutStep(CoderOf(lib), old(State()), txHash, item.Value(), io)
    {
      hide CoderOf, TxPart, Shows, Push, ListPush;
      WriteRecord(txHash, raw, item);
      RecordTotal(count);
    }

    method IsAbsent(txHash: Bytes, io: Io) returns (absent: bool)
      requires Valid()
      ensures absent == Absent(CoderOf(lib), State(), txHash, io)
    {
      var cached := txCache.Get(lib, txHash);
      if cached != null {
        return false;
      }
      var stored := db.GetTx(txHash);
      return io.get && stored == None;
    }

    /** A failed or unexpected read is reported as success and drops the item. The list stays
        free of repetitions if the item is not listed, which is so when its own hash is the key. */
    method PutSignedTx(txHash: Bytes, item: SavedItem, io: Io) returns (ok: bool)
      requires Valid()
      modifies db, txCache
      ensures Valid()
      ensures State() == PutStep(CoderOf(lib), old(State()), txHash, item.Value(), io)
      ensures txCache.l == if Inserts(CoderOf(lib), old(State()), txHash, item.Value(), io)
                           then ListPush(CACHE_SIZE, old(txCache.l), item)
                           else old(txCache.l)
      ensures old(Unshared()) && (item !in old(txCache.l) || TxHash(lib, item.item.mtx) == txHash) ==> Unshared()
      ensures ok <==> || !Absent(CoderOf(lib), old(State()), txHash, io)
                      || (CoderOf(lib).encode(item.Value()).Some? && io.put && io.count)
      ensures var raw := SavedBytes(lib, item.Value());
              if !io.get || txHash in old(db.Txs()) || Cached(lib, old(txCache.contents), txHash) then
                ok && State() == old(State()) && txCache.l == old(txCache.l)
              else if raw == None || !io.put then
                !ok && State() == old(State()) && txCache.l == old(txCache.l)
              else
                && ok == io.count
                && db.Txs() == old(db.Txs())[txHash := raw.value]
                && txCache.l == (if |old(txCache.l)| + 1 > 100 then old(txCache.l)[1..] + [item]
                                 else old(txCache.l) + [item])
                && txCache.totalCache == (old(txCache.totalCache) + 1) % 0x1_0000_0000_0000_0000
                && db.Counter() == if io.count then Some(txCache.totalCache) else old(db.Counter())
    {
      hide SavedBytes, ParseSaved, TxPart, Shows, Push, ListPush, Find, Cached, TxHash;
      CachedIsFound(lib, txCache.contents, txHash);
      PushedList(txCache.l, item);
      var absent := IsAbsent(txHash, io);
      if !absent {
        return true;
      }
      var val := Encode(item);
      if val == None || !io.put {
        return false;
      }
      StaysUnshared(txHash, item);
      Insert(txHash, val.value, item, io, io.count);
      return io.count;
    }

    lemma StaysUnshared(txHash: Bytes, item: SavedItem)
      requires Valid() && Find(CoderOf(lib), txCache.contents, txHash).None?
      ensures Unshared() && (item !in txCache.l || TxHash(lib, item.item.mtx) == txHash) ==>
                Distinct(ListPush(CACHE_SIZE, txCache.l, item))
    {
      if Unshared() && (item !in txCache.l || TxHash(lib, item.item.mtx) == txHash) {
        if TxHash(lib, item.item.mtx) == txHash {
          NotListed(CoderOf(lib), txCache.contents, txCache.l, item);
        }
        DistinctPush(CACHE_SIZE, txCache.l, item);
      }
    }

    /** A cached item is returned itself, not a copy. */
    method GetSignedTx(txHash: Bytes, io: Io) returns (r: SavedItem?)
      requires Valid()
      ensures GetStep(CoderOf(lib), State(), txHash, io) == if r == null then None else Some(r.Value())
      ensures match Find(CoderOf(lib), State().cache, txHash)
              case Some(i) => r == txCache.l[|txCache.l| - 1 - i]
              case None => r == null || (fresh(r) && io.get && txHash in db.Txs())
    {
      r := txCache.Get(lib, txHash);
      if r != null {
        return;
      }
      var val := db.GetTx(txHash);
      if !io.get || val == None {
        return null;
      }
      r := Decode(val.value);
    }

    method MarkCached(txHash: Bytes)
      requires Valid()
      modifies txCache`contents, txCache.l
      ensures Valid()
      ensures |old(txCache.contents)| == |txCache.l|
              && txCache.contents == DoneShared(CoderOf(lib), old(txCache.contents), txCache.l, txHash)
    {
      hide CoderOf, Shows, DiskOk, Find;
      ShownSize(txCache.contents, txCache.l);
      var val := txCache.Get(lib, txHash);
      if val != null {
        txCache.MarkItem(val);
      }
    }

    method MarkStored(txHash: Bytes, io: Io) returns (ok: bool)
      requires Valid()
      modifies db
      ensures DiskOk(db.kv) && db.Counter() == old(db.Counter())
      ensures db.Txs() == DoneTable(CoderOf(lib), old(db.Txs()), txHash, io)
      ensures ok <==> && io.get && txHash in old(db.Txs())
                      && CoderOf(lib).decode(old(db.Txs()[txHash])).Some? && io.put
      ensures !ok ==> db.Txs() == old(db.Txs())
      ensures ok ==> txHash in db.Txs() && db.Txs() == old(db.Txs())[txHash := db.Txs()[txHash]]
    {
      var stored := db.GetTx(txHash);
      if !io.get || stored == None {
        return false;
      }
      var item := Decode(stored.value);
      if item == null {
        return false;
      }
      item.done := true;
      var raw := Encode(item);
      if !io.put {
        return false;
      }
      db.PutTx(txHash, if raw == None then [] else raw.value);
      return true;
    }

    /** The cached item is marked before the disk is touched, by reference: once if no item is
        listed twice. */
    method SetTxDone(txHash: Bytes, io: Io) returns (ok: bool)
      requires Valid()
      modifies db, txCache`contents, txCache.l
      ensures Valid()
      ensures |old(txCache.contents)| == |txCache.l|
      ensures State() == old(State()).(cache := DoneShared(CoderOf(lib), old(txCache.contents), txCache.l, txHash),
                                       table := DoneTable(CoderOf(lib), old(State().table), txHash, io))
      ensures Unshared() ==> State() == DoneStep(CoderOf(lib), old(State()), txHash, io)
      ensures ok <==> && io.get && txHash in old(State().table)
                      && CoderOf(lib).decode(old(State().table[txHash])).Some? && io.put
      ensures db.Counter() == old(db.Counter()) && (!ok ==> db.Txs() == old(db.Txs()))
      ensures ok ==> txHash in db.Txs() && db.Txs() == old(db.Txs())[txHash := db.Txs()[txHash]]
    {
      hide CoderOf, TxPart, Shows, DoneShared, DoneTable, DoneCache;
      if Unshared() {
        assert |txCache.contents| == |txCache.l| by { ShownSize(txCache.contents, txCache.l); }
        DoneOnce(CoderOf(lib), txCache.contents, txCache.l, txHash);
      }
      MarkCached(txHash);
      ok := MarkStored(txHash, io);
    }

    /** The loop over the iterator, in whatever order it yields the records. */
    method Scan(iterOk: bool) returns (ok: bool, arr: seq<SavedItem>, ghost ks: seq<Bytes>)
      ensures ok <==> iterOk && AllDecode(CoderOf(lib), db.Txs())
      ensures Scanned(CoderOf(lib), db.Txs(), ks, arr)
      ensures forall i :: 0 <= i < |arr| ==> fresh(arr[i])
      ensures ok ==> forall h :: h in db.Txs() ==> h in ks
    {
      hide CoderOf;
      ghost var cd := CoderOf(lib);
      var table := db.Txs();
      var todo := table.Keys;
      arr, ks := [], [];
      while todo != {}
        invariant Scanning(cd, table, todo, ks, arr)
        invariant forall i :: 0 <= i < |arr| ==> fresh(arr[i])
        decreases |todo|
      {
        var h :| h in todo;
        var item := Decode(table[h]);
        if item == null {
          assert !AllDecode(cd, table);
          return false, arr, ks;
        }
        var one: SavedItem := item;
        ScanningNext(cd, table, todo, ks, arr, h, one);
        todo, arr, ks := todo - {h}, arr + [one], ks + [h];
      }
      ScanningDone(cd, table, ks, arr);
      return iterOk, arr, ks;
    }

    /** Pushes sorted items, from the position the cache has reached, to the front of the list. */
    method Fill(arr: seq<SavedItem>, ghost vs: seq<Saved>)
      requires Valid() && Values(vs, arr)
      modifies txCache
      ensures Valid() && txCache.totalCache == old(txCache.totalCache)
      ensures var k := |old(txCache.l)|;
              var batch, vbatch := Top(arr), Top(vs);
              && txCache.l == Reverse(Slice(batch, k, |batch|)) + old(txCache.l)
              && txCache.contents == old(txCache.contents) + Slice(vbatch, k, |vbatch|)
    {
      hide Shows, Top, Slice, Reverse;
      var i := |txCache.l|;
      ghost var k, l0, c0 := i, txCache.l, txCache.contents;
      assert i <= Max(k, Min(CACHE_SIZE, |arr|));
      NothingPushed(arr, vs, k, l0, c0);
      while i < CACHE_SIZE && i < |arr|
        invariant Valid() && k <= i <= Max(k, Min(CACHE_SIZE, |arr|))
        invariant txCache.totalCache == old(txCache.totalCache)
        invariant txCache.l == Reverse(Slice(arr, k, i)) + l0
        invariant txCache.contents == c0 + Slice(vs, k, i)
      {
        SliceNext(arr, k, i);
        SliceNext(vs, k, i);
        txCache.PutToFront(arr[i]);
        i := i + 1;
      }
      SliceOfTop(arr, k);
      SliceOfTop(vs, k);
    }

    /** The scan and the sort; the items are new. */
    method ScanSorted(iterOk: bool)
      returns (ok: bool, arr: seq<SavedItem>, ghost ks: seq<Bytes>, ghost vs: seq<Saved>)
      ensures ok <==> iterOk && AllDecode(CoderOf(lib), db.Txs())
      ensures Values(vs, arr) && Distinct(arr) && fresh(arr)
      ensures ok ==> ListedBy(CoderOf(lib), db.Txs(), ks, vs)
    {
      hide CoderOf, ListedBy, TxPart;
      ghost var cd := CoderOf(lib);
      ghost var items;
      ok, arr, ks := Scan(iterOk);
      items := arr;
      var a := new SavedItem[|arr|](i requires 0 <= i < |arr| => arr[i]);
      assert a[..] == items;
      SortNewestFirst(a);
      arr := a[..];
      RearrangedDistinct(items, arr);
      vs := seq(|arr|, i requires 0 <= i < |arr| reads arr => arr[i].Value());
      forall i | 0 <= i < |arr| ensures fresh(arr[i]) {
        assert arr[i] in items;
      }
      if ok {
        SortedScan(cd, db.Txs(), ks, items, arr, vs);
        ks := SortedKeys(ks, items, arr);
      }
    }

    /** The slow path: everything is decoded and sorted into vs, and the cache filled from the
        top of it. */
    method ReadFromDisk(iterOk: bool)
      returns (r: Option<seq<SavedItem>>, ghost ks: seq<Bytes>, ghost vs: seq<Saved>)
      requires Valid()
      modifies txCache
      ensures Valid() && unchanged(db)
      ensures txCache.totalCache == old(txCache.totalCache)
      ensures r.Some? <==> iterOk && AllDecode(CoderOf(lib), db.Txs())
      ensures r == None ==> txCache.l == old(txCache.l) && txCache.contents == old(txCache.contents)
      ensures r.Some? ==>
                var k := |old(txCache.l)|;
                && ListedBy(CoderOf(lib), db.Txs(), ks, vs)
                && Values(Top(vs), r.value) && fresh(r.value) && Distinct(r.value)
                && txCache.l == Reverse(Slice(r.value, k, |r.value|)) + old(txCache.l)
                && txCache.contents == old(txCache.contents) + Slice(Top(vs), k, |Top(vs)|)
    {
      hide CoderOf, ListedBy, TxPart, AllDecode, Shows;
      var ok, arr;
      ok, arr, ks, vs := ScanSorted(iterOk);
      if !ok {
        return None, ks, vs;
      }
      ValuesOfTop(vs, arr);
      Fill(arr, vs);
      r := Some(if |arr| > CACHE_SIZE then arr[..CACHE_SIZE] else arr);
      assert r.value == Top(arr);
    }

    /** The newest items. From the cache they are the cached items themselves; from a scan they
        are new, and those that fill the cache are shared with it. Records received at the same
        time may come in any order, that of ks and vs. */
    method ReadFirstBatch(iterOk: bool)
      returns (r: Option<seq<SavedItem>>, ghost ks: seq<Bytes>, ghost vs: seq<Saved>)
      requires Valid()
      modifies txCache
      ensures Valid() && (old(Unshared()) ==> Unshared())
      ensures r.Some? <==> FastPath(old(State())) || (iterOk && AllDecode(CoderOf(lib), State().table))
      ensures r == None ==> State() == old(State()) && txCache.l == old(txCache.l)
      ensures r.Some? ==>
                && State() == ReadStep(CoderOf(lib), old(State()), ks, vs)
                && ReadResult(CoderOf(lib), old(State()), ks, vs).Some?
                && Values(ReadResult(CoderOf(lib), old(State()), ks, vs).value, r.value)
      ensures |old(txCache.l)| == 100 || |old(txCache.l)| == old(txCache.totalCache) ==>
                txCache.l == old(txCache.l) && r == Some(Reverse(txCache.l))
      ensures |old(txCache.l)| != 100 && |old(txCache.l)| != old(txCache.totalCache) && r.Some? ==>
                |r.value| == Min(100, |State().table|)
      ensures !FastPath(old(State())) && r.Some? ==>
                && ListedBy(CoderOf(lib), State().table, ks, vs) && fresh(r.value)
                && txCache.l == Reverse(Slice(r.value, |old(txCache.l)|, |r.value|)) + old(txCache.l)
    {
      hide CoderOf, TxPart, Shows, ListedBy, AllDecode, Reverse, Slice;
      ShownSize(txCache.contents, txCache.l);
      ghost var l0 := txCache.l;
      if |txCache.l| == CACHE_SIZE || |txCache.l| == txCache.totalCache {
        var all := txCache.GetAll();
        ReversedValues(txCache.contents, txCache.l);
        return Some(all), [], [];
      }
      r, ks, vs := ReadFromDisk(iterOk);
      if r.Some? {
        StillDistinct(r.value, |l0|, l0);
        ListedSize(CoderOf(lib), db.Txs(), ks, vs);
      }
    }
  }

  lemma NothingPushed(arr: seq<SavedItem>, vs: seq<Saved>, k: nat, l: seq<SavedItem>, c: seq<Saved>)
    ensures Reverse(Slice(arr, k, k)) + l == l && c + Slice(vs, k, k) == c
  {
  }

  lemma ReversedValues(c: seq<Saved>, l: seq<SavedItem>)
    requires Shows(c, l)
    ensures Values(c, Reverse(l))
  {
    forall i | 0 <= i < |l| ensures c[i] == Reverse(l)[i].Value() {
      assert c[|l| - 1 - (|l| - 1 - i)] == l[|l| - 1 - i].Value();
    }
  }

  lemma StillDistinct(batch: seq<SavedItem>, k: nat, l: seq<SavedItem>)
    requires Distinct(batch) && forall o :: o in batch ==> o !in l
    ensures Distinct(l) ==> Distinct(Reverse(Slice(batch, k, |batch|)) + l)
  {
    var back := Reverse(Slice(batch, k, |batch|));
    forall i | 0 <= i < |back| ensures k < |batch| && back[i] == batch[|batch| - 1 - i] {
    }
    assert forall i :: 0 <= i < |back| ==> back[i] in batch;
    assert Distinct(back);
  }
}
