/** Tables of stored records and their order by receive time. */
module Records {
  import opened Prelude
  import opened Wire
  import opened Codec

  type Table = map<Bytes, Saved>

  /** What the store needs of an item: the hash of its transaction, and an encoding that may
      fail either way. */
  datatype Coder = Coder(
    key: ToSign -> Bytes,
    encode: Saved -> Option<Bytes>,
    decode: Bytes -> Option<Saved>)

  /** The coder the program uses. */
  function CoderOf(lib: Lib): Coder {
    Coder((x: ToSign) => TxHash(lib, x.mtx),
          (x: Saved) => SavedBytes(lib, x),
          (raw: Bytes) => ParseSaved(lib, raw))
  }

  ghost predicate Survives(cd: Coder, x: Saved) {
    cd.encode(x).Some? && cd.decode(cd.encode(x).value) == Some(x)
  }

  /** The record survives its encoding, whatever its flag. */
  ghost predicate Sound(cd: Coder, x: Saved) {
    Survives(cd, x.(done := false)) && Survives(cd, x.(done := true))
  }

  lemma StorableIsSound(lib: Lib, x: Saved)
    requires Storable(lib, x)
    ensures Sound(CoderOf(lib), x)
  {
    SavedIsReadBack(lib, x.(done := false));
    SavedIsReadBack(lib, x.(done := true));
  }

  lemma SavedIsReadBack(lib: Lib, x: Saved)
    requires Storable(lib, x)
    ensures SavedBytes(lib, x).Some? && ParseSaved(lib, SavedBytes(lib, x).value) == Some(x)
  {
    SavedRoundTrip(lib, x, []);
    assert SavedBytes(lib, x).value + [] == SavedBytes(lib, x).value;
  }

  /** The hash the cache recomputes for each item it holds. */
  function KeyOf(cd: Coder, x: Saved): Bytes {
    cd.key(x.item)
  }

  /** Every record stands under the hash of its own transaction. */
  ghost predicate Keyed(cd: Coder, m: Table) {
    forall k :: k in m ==> KeyOf(cd, m[k]) == k
  }

  ghost predicate DistinctTimes(m: Table) {
    forall a, b :: a in m && b in m && a != b ==> m[a].time != m[b].time
  }

  /** x was received after everything in m. */
  ghost predicate Later(x: Saved, m: Table) {
    forall k :: k in m ==> m[k].time < x.time
  }

  // ---------- The reference order ----------

  ghost predicate IsLatest(k: Bytes, m: Table) {
    k in m && forall j :: j in m ==> m[j].time <= m[k].time
  }

  lemma {:induction false} LatestExists(m: Table)
    requires m != map[]
    ensures exists k :: IsLatest(k, m)
    decreases |m|
  {
    var k :| k in m;
    var rest := m - {k};
    assert forall j :: j in m ==> j == k || j in rest;
    if rest == map[] {
      assert IsLatest(k, m);
    } else {
      LatestExists(rest);
      var r :| IsLatest(r, rest);
      assert IsLatest(if m[k].time <= m[r].time then r else k, m);
    }
  }

  /** All records, newest first: take the latest, then the rest. */
  ghost function ByTime(m: Table): seq<Saved>
    decreases |m|
  {
    if m == map[] then []
    else
      LatestExists(m);
      var k :| IsLatest(k, m);
      [m[k]] + ByTime(m - {k})
  }

  // ---------- Being the newest records ----------

  ghost predicate Descending(xs: seq<Saved>) {
    forall i, j :: 0 <= i < j < |xs| ==> xs[i].time > xs[j].time
  }

  ghost predicate Within(cd: Coder, xs: seq<Saved>, m: Table) {
    forall i :: 0 <= i < |xs| ==> KeyOf(cd, xs[i]) in m && m[KeyOf(cd, xs[i])] == xs[i]
  }

  ghost predicate OlderThan(x: Saved, xs: seq<Saved>) {
    forall i :: 0 <= i < |xs| ==> x.time < xs[i].time
  }

  /** xs lists records of m, newest first, and everything it leaves out is older. */
  ghost predicate Newest(cd: Coder, xs: seq<Saved>, m: Table) {
    && Within(cd, xs, m)
    && Descending(xs)
    && forall k :: k in m ==> m[k] in xs || OlderThan(m[k], xs)
  }

  lemma NewestKeysDiffer(cd: Coder, xs: seq<Saved>, m: Table, i: nat, j: nat)
    requires Newest(cd, xs, m) && i < j < |xs|
    ensures KeyOf(cd, xs[i]) != KeyOf(cd, xs[j])
  {
    assert m[KeyOf(cd, xs[i])] == xs[i] && m[KeyOf(cd, xs[j])] == xs[j];
    assert xs[i].time > xs[j].time;
  }

  lemma InPrefixOrOlder(x: Saved, xs: seq<Saved>, n: nat)
    requires Descending(xs) && n <= |xs| && x in xs
    ensures x in xs[..n] || OlderThan(x, xs[..n])
  {
    var j :| 0 <= j < |xs| && xs[j] == x;
    if j < n {
      assert xs[..n][j] == x;
    }
  }

  lemma NewestPrefix(cd: Coder, xs: seq<Saved>, m: Table, n: nat)
    requires Newest(cd, xs, m) && n <= |xs|
    ensures Newest(cd, xs[..n], m)
  {
    forall k | k in m
      ensures m[k] in xs[..n] || OlderThan(m[k], xs[..n])
    {
      if m[k] in xs {
        InPrefixOrOlder(m[k], xs, n);
      }
    }
  }

  lemma LastIsNew(ps: seq<Saved>, x: Saved)
    requires Descending(ps + [x])
    ensures forall i :: 0 <= i < |ps| ==> ps[i] != x
  {
    assert forall i :: 0 <= i < |ps| ==> ps[i].time == (ps + [x])[i].time > (ps + [x])[|ps|].time;
  }

  /** A record that could follow ps is either y, which also could, or older than it. */
  lemma NextOrOlder(cd: Coder, ps: seq<Saved>, x: Saved, y: Saved, m: Table)
    requires Newest(cd, ps + [x], m) && Newest(cd, ps + [y], m)
    ensures x == y || x.time < y.time
  {
    LastIsNew(ps, x);
    var xs, ys := ps + [x], ps + [y];
    assert forall i :: 0 <= i < |ps| ==> ys[i] != x;
    var k := KeyOf(cd, xs[|ps|]);
    assert xs[|ps|] == x && m[k] == x && k in m;
    assert x in ys || OlderThan(x, ys);
    if OlderThan(x, ys) {
      assert x.time < ys[|ps|].time;
    } else {
      var i :| 0 <= i < |ys| && ys[i] == x;
      assert i == |ps| && x == y;
    }
  }

  lemma NextNewest(cd: Coder, ps: seq<Saved>, xs: seq<Saved>, ys: seq<Saved>, m: Table)
    requires Newest(cd, xs, m) && Newest(cd, ys, m)
    requires |xs| == |ys| == |ps| + 1 && xs[..|ps|] == ps == ys[..|ps|]
    ensures xs == ys
  {
    var x, y := xs[|ps|], ys[|ps|];
    assert xs == ps + [x] && ys == ps + [y];
    NextOrOlder(cd, ps, x, y, m);
    NextOrOlder(cd, ps, y, x, m);
  }

  /** Of two lists of newest records, the shorter is a prefix of the longer. */
  lemma {:induction false} NewestUnique(cd: Coder, xs: seq<Saved>, ys: seq<Saved>, m: Table)
    requires Newest(cd, xs, m) && Newest(cd, ys, m) && |xs| <= |ys|
    ensures xs == ys[..|xs|]
    decreases |xs|
  {
    if xs == [] {
    } else {
      var n := |xs| - 1;
      NewestPrefix(cd, xs, m, n);
      NewestUnique(cd, xs[..n], ys, m);
      NewestPrefix(cd, ys, m, n + 1);
      assert ys[..n + 1][..n] == ys[..n];
      NextNewest(cd, xs[..n], xs, ys[..n + 1], m);
    }
  }

  lemma SizeWithout(m: Table, k: Bytes)
    requires k in m
    ensures |m| == |m - {k}| + 1
  {
    assert m.Keys == (m - {k}).Keys + {k};
    assert |m.Keys| == |(m - {k}).Keys| + 1;
  }

  lemma SizeWith(m: Table, k: Bytes, x: Saved)
    ensures k in m ==> |m[k := x]| == |m|
    ensures k !in m ==> |m[k := x]| == |m| + 1
  {
    var m' := m[k := x];
    assert m'.Keys == m.Keys + {k};
    assert |m'.Keys| == |m.Keys| + if k in m then 0 else 1;
  }

  /** There are no more newest records than records. */
  lemma {:induction false} WithinSize(cd: Coder, xs: seq<Saved>, m: Table)
    requires Within(cd, xs, m) && forall i, j :: 0 <= i < j < |xs| ==> xs[i] != xs[j]
    ensures |xs| <= |m|
    decreases |xs|
  {
    if xs == [] {
    } else {
      var n := |xs| - 1;
      var k := KeyOf(cd, xs[n]);
      var rest := m - {k};
      SizeWithout(m, k);
      WithinSize(cd, xs[..n], rest);
    }
  }

  /** A newly received record goes in front. */
  lemma NewestAfterLater(cd: Coder, x: Saved, xs: seq<Saved>, m: Table)
    requires Newest(cd, xs, m) && Later(x, m) && KeyOf(cd, x) !in m
    ensures Newest(cd, [x] + xs, m[KeyOf(cd, x) := x])
  {
    var m', ys := m[KeyOf(cd, x) := x], [x] + xs;
    assert forall i :: 0 < i < |ys| ==> ys[i] == xs[i - 1];
    forall i, j | 0 <= i < j < |ys| ensures ys[i].time > ys[j].time {
      var y := xs[j - 1];
      assert m[KeyOf(cd, y)] == y;
    }
    forall k | k in m' ensures m'[k] in ys || OlderThan(m'[k], ys) {
      assert ys[0] == x;
      if k in m && m[k] in xs {
        var i := IndexOf(xs, m[k]);
        assert ys[i + 1] == m[k];
      }
    }
  }

  lemma LatestIsLater(m: Table, k: Bytes)
    requires IsLatest(k, m) && DistinctTimes(m)
    ensures Later(m[k], m - {k}) && (m - {k})[k := m[k]] == m
  {
  }

  /** The whole table, once each. */
  lemma {:induction false} ByTimeIsNewest(cd: Coder, m: Table)
    requires Keyed(cd, m) && DistinctTimes(m)
    ensures |ByTime(m)| == |m| && Newest(cd, ByTime(m), m)
    decreases |m|
  {
    if m == map[] {
    } else {
      LatestExists(m);
      var k :| IsLatest(k, m) && ByTime(m) == [m[k]] + ByTime(m - {k});
      var rest := m - {k};
      LatestIsLater(m, k);
      ByTimeIsNewest(cd, rest);
      NewestAfterLater(cd, m[k], ByTime(rest), rest);
      SizeWithout(m, k);
    }
  }

  /** A list of newest records is exactly a prefix of the sorted table. */
  lemma NewestIsByTime(cd: Coder, xs: seq<Saved>, m: Table)
    requires Keyed(cd, m) && DistinctTimes(m)
    ensures |ByTime(m)| == |m|
    ensures Newest(cd, xs, m) <==> |xs| <= |m| && xs == ByTime(m)[..|xs|]
  {
    ByTimeIsNewest(cd, m);
    if Newest(cd, xs, m) {
      WithinSize(cd, xs, m);
      NewestUnique(cd, xs, ByTime(m), m);
    }
    if |xs| <= |m| {
      NewestPrefix(cd, ByTime(m), m, |xs|);
    }
  }

  // ---------- What a sort of the whole table returns ----------

  /** Each record once, no newer one after an older one: all that sort.Sort promises. */
  ghost predicate Listing(cd: Coder, xs: seq<Saved>, m: Table) {
    && Within(cd, xs, m)
    && (forall k :: k in m ==> m[k] in xs)
    && (forall i, j :: 0 <= i < j < |xs| ==> xs[i] != xs[j])
    && (forall i, j :: 0 <= i < j < |xs| ==> xs[i].time >= xs[j].time)
  }

  lemma {:induction false} SetOfSeqSize<T>(s: seq<T>)
    ensures |set x | x in s| <= |s|
  {
    if s == [] {
    } else {
      var n := |s| - 1;
      SetOfSeqSize(s[..n]);
      assert (set x | x in s) == (set x | x in s[..n]) + {s[n]} by {
        assert s == s[..n] + [s[n]];
      }
    }
  }

  /** A list that names every record is at least as long as the table. */
  lemma CoverSize(cd: Coder, xs: seq<Saved>, m: Table)
    requires Keyed(cd, m) && forall k :: k in m ==> m[k] in xs
    ensures |m| <= |xs|
  {
    var ks := seq(|xs|, i requires 0 <= i < |xs| => KeyOf(cd, xs[i]));
    forall k | k in m ensures k in ks {
      var i :| 0 <= i < |xs| && xs[i] == m[k];
      assert ks[i] == k;
    }
    SetOfSeqSize(ks);
    var all := set k | k in ks;
    assert all == m.Keys + (all - m.Keys);
  }

  lemma ListingDescends(cd: Coder, xs: seq<Saved>, m: Table)
    requires Keyed(cd, m) && DistinctTimes(m) && Listing(cd, xs, m)
    ensures Newest(cd, xs, m)
  {
    forall i, j | 0 <= i < j < |xs| ensures xs[i].time > xs[j].time {
      assert m[KeyOf(cd, xs[i])] == xs[i] && m[KeyOf(cd, xs[j])] == xs[j];
    }
  }

  /** When no two records share a time, sorting leaves nothing to chance. */
  lemma ListingIsByTime(cd: Coder, xs: seq<Saved>, m: Table)
    requires Keyed(cd, m) && DistinctTimes(m) && Listing(cd, xs, m)
    ensures xs == ByTime(m) && |xs| == |m|
  {
    ListingDescends(cd, xs, m);
    NewestIsByTime(cd, xs, m);
    CoverSize(cd, xs, m);
  }

  // ---------- How the newest records change ----------

  /** A new record keeps the list of newest exactly when it is later than every stored one. */
  lemma NewestAfterInsert(cd: Coder, x: Saved, xs: seq<Saved>, m: Table, n: nat)
    requires Keyed(cd, m) && DistinctTimes(m) && Newest(cd, xs, m)
    requires KeyOf(cd, x) !in m
    requires 0 < n <= |xs| + 1
    ensures var m' := m[KeyOf(cd, x) := x];
            Newest(cd, ([x] + xs)[..n], m') && DistinctTimes(m') <==> Later(x, m)
  {
    var m' := m[KeyOf(cd, x) := x];
    var ys := ([x] + xs)[..n];
    if Later(x, m) {
      NewestAfterLater(cd, x, xs, m);
      NewestPrefix(cd, [x] + xs, m', n);
    }
    if Newest(cd, ys, m') {
      forall k | k in m ensures m[k].time < x.time {
        assert m'[k] == m[k] && m[k] != x && ys[0] == x;
      }
    }
  }

  /** The same record with Done set, if it is the one under k. */
  function Mark(cd: Coder, k: Bytes, x: Saved): Saved {
    if KeyOf(cd, x) == k then x.(done := true) else x
  }

  function MarkAll(cd: Coder, k: Bytes, xs: seq<Saved>): (ys: seq<Saved>)
    ensures |ys| == |xs| && forall i :: 0 <= i < |xs| ==> ys[i] == Mark(cd, k, xs[i])
  {
    seq(|xs|, i requires 0 <= i < |xs| => Mark(cd, k, xs[i]))
  }

  lemma NewestAfterMark(cd: Coder, k: Bytes, xs: seq<Saved>, m: Table)
    requires Keyed(cd, m) && DistinctTimes(m) && Newest(cd, xs, m) && k in m
    ensures var m' := m[k := m[k].(done := true)];
            Keyed(cd, m') && DistinctTimes(m') && Newest(cd, MarkAll(cd, k, xs), m')
  {
    var m' := m[k := m[k].(done := true)];
    var ys := MarkAll(cd, k, xs);
    forall j | j in m' ensures m'[j] in ys || OlderThan(m'[j], ys) {
      if m[j] in xs {
        var i :| 0 <= i < |xs| && xs[i] == m[j];
        assert ys[i] == m'[j];
      }
    }
  }

  /** Marking a record moves nothing. */
  lemma ByTimeAfterMark(cd: Coder, k: Bytes, m: Table)
    requires Keyed(cd, m) && DistinctTimes(m) && k in m
    ensures ByTime(m[k := m[k].(done := true)]) == MarkAll(cd, k, ByTime(m))
  {
    var m' := m[k := m[k].(done := true)];
    ByTimeIsNewest(cd, m);
    NewestAfterMark(cd, k, ByTime(m), m);
    SizeWith(m, k, m'[k]);
    NewestIsByTime(cd, MarkAll(cd, k, ByTime(m)), m');
  }

  /** A later record comes first and moves nothing else. */
  lemma ByTimeAfterInsert(cd: Coder, x: Saved, m: Table)
    requires Keyed(cd, m) && DistinctTimes(m)
    requires KeyOf(cd, x) !in m && Later(x, m)
    ensures ByTime(m[KeyOf(cd, x) := x]) == [x] + ByTime(m)
  {
    var m' := m[KeyOf(cd, x) := x];
    ByTimeIsNewest(cd, m);
    NewestAfterInsert(cd, x, ByTime(m), m, |m| + 1);
    assert ([x] + ByTime(m))[..|m| + 1] == [x] + ByTime(m);
    SizeWith(m, KeyOf(cd, x), x);
    NewestIsByTime(cd, [x] + ByTime(m), m');
  }
}
