/** The batch a scan of the table comes to, whatever order the sort leaves equal times in. */
module Batches {
  import opened Prelude
  import opened Codec
  import opened Records
  import opened StoreSpec

  // ---------- Listings ----------

  lemma ListedWithin(cd: Coder, table: map<Bytes, Bytes>, ks: seq<Bytes>, vs: seq<Saved>, i: nat)
    requires Good(cd, table) && ListedBy(cd, table, ks, vs) && i < |vs|
    ensures KeyOf(cd, vs[i]) == ks[i] && ks[i] in table && View(cd, table)[ks[i]] == vs[i]
  {
    assert cd.decode(table[ks[i]]) == Some(View(cd, table)[ks[i]]);
  }

  lemma ListingSize(cd: Coder, vs: seq<Saved>, m: Table)
    requires Keyed(cd, m) && Listing(cd, vs, m)
    ensures |vs| == |m|
  {
    WithinSize(cd, vs, m);
    CoverSize(cd, vs, m);
  }

  lemma KeyedListing(cd: Coder, ks: seq<Bytes>, vs: seq<Saved>, m: Table)
    requires |ks| == |vs| && Distinct(ks) && forall k :: k in m ==> k in ks
    requires forall i :: 0 <= i < |vs| ==> KeyOf(cd, vs[i]) == ks[i] && ks[i] in m && m[ks[i]] == vs[i]
    requires forall i, j :: 0 <= i < j < |vs| ==> vs[i].time >= vs[j].time
    ensures Listing(cd, vs, m)
  {
    forall k | k in m ensures m[k] in vs {
      var i := IndexOf(ks, k);
      assert vs[i] == m[k];
    }
    forall i, j | 0 <= i < j < |vs| ensures vs[i] != vs[j] {
      assert ks[i] != ks[j];
    }
  }

  /** A good table is listed as a table. */
  lemma ListedIsListing(cd: Coder, table: map<Bytes, Bytes>, ks: seq<Bytes>, vs: seq<Saved>)
    requires Good(cd, table) && ListedBy(cd, table, ks, vs)
    ensures Listing(cd, vs, View(cd, table)) && |vs| == |table|
  {
    hide View, Good, Keyed, Listing, KeyOf;
    var m := View(cd, table);
    forall i | 0 <= i < |vs| ensures KeyOf(cd, vs[i]) == ks[i] && ks[i] in m && m[ks[i]] == vs[i] {
      ListedWithin(cd, table, ks, vs, i);
    }
    KeyedListing(cd, ks, vs, m);
    ListingSize(cd, vs, m);
  }

  /** When the times of a good table differ, sorting leaves nothing to chance. */
  lemma OnlyOrder(cd: Coder, table: map<Bytes, Bytes>, ks: seq<Bytes>, vs: seq<Saved>)
    requires Good(cd, table) && DistinctTimes(View(cd, table)) && ListedBy(cd, table, ks, vs)
    ensures Top(vs) == FirstBatch(cd, table)
  {
    hide ListedBy, Listing, View, Good, ByTime, DistinctTimes, Keyed;
    ListedIsListing(cd, table, ks, vs);
    ListingIsByTime(cd, vs, View(cd, table));
  }

  /** ks and vs are a table in some order by time. */
  ghost predicate InOrder(m: Table, ks: seq<Bytes>, vs: seq<Saved>) {
    && |ks| == |vs| && Distinct(ks) && (forall h :: h in m <==> h in ks)
    && (forall i :: 0 <= i < |ks| ==> vs[i] == m[ks[i]])
    && (forall i, j :: 0 <= i < j < |vs| ==> vs[i].time >= vs[j].time)
  }

  lemma LatestFirst(m: Table, k: Bytes, ks: seq<Bytes>, vs: seq<Saved>)
    requires IsLatest(k, m) && InOrder(m - {k}, ks, vs)
    ensures InOrder(m, [k] + ks, [m[k]] + vs)
  {
    var ks', vs' := [k] + ks, [m[k]] + vs;
    forall i | 0 < i < |ks'| ensures ks'[i] in m && ks'[i] != k && vs'[i] == m[ks'[i]] {
      assert ks'[i] == ks[i - 1] && ks[i - 1] in ks;
    }
    forall i, j | 0 <= i < j < |ks'| ensures ks'[i] != ks'[j] && vs'[i].time >= vs'[j].time {
      if i > 0 {
        assert ks[i - 1] != ks[j - 1] && vs[i - 1].time >= vs[j - 1].time;
      }
    }
    forall h | h in m ensures h in ks' {
      if h != k {
        assert h in m - {k};
      }
    }
  }

  lemma {:induction false} SomeOrder(m: Table) returns (ks: seq<Bytes>, vs: seq<Saved>)
    ensures InOrder(m, ks, vs)
    decreases |m|
  {
    if m == map[] {
      ks, vs := [], [];
    } else {
      hide InOrder;
      LatestExists(m);
      var k :| IsLatest(k, m);
      SizeWithout(m, k);
      ks, vs := SomeOrder(m - {k});
      LatestFirst(m, k, ks, vs);
      ks, vs := [k] + ks, [m[k]] + vs;
    }
  }

  lemma OrderLists(cd: Coder, table: map<Bytes, Bytes>, m: Table, ks: seq<Bytes>, vs: seq<Saved>)
    requires forall h :: h in m <==> h in table
    requires forall h :: h in table ==> cd.decode(table[h]) == Some(m[h])
    requires InOrder(m, ks, vs)
    ensures ListedBy(cd, table, ks, vs)
  {
    assert forall i :: 0 <= i < |ks| ==> ks[i] in ks;
  }

  /** A table has a listing exactly when all its records decode. */
  lemma ListingExists(cd: Coder, table: map<Bytes, Bytes>)
    ensures (exists ks, vs :: ListedBy(cd, table, ks, vs)) <==> AllDecode(cd, table)
  {
    if AllDecode(cd, table) {
      var m := map h | h in table :: cd.decode(table[h]).value;
      var ks, vs := SomeOrder(m);
      OrderLists(cd, table, m, ks, vs);
    }
    if ks, vs :| ListedBy(cd, table, ks, vs) {
      forall h | h in table ensures cd.decode(table[h]) != None {
        var i := IndexOf(ks, h);
      }
    }
  }

  lemma {:induction false} DistinctSize<T>(s: seq<T>)
    requires Distinct(s)
    ensures |set x | x in s| == |s|
  {
    if s == [] {
    } else {
      var n := |s| - 1;
      DistinctSize(s[..n]);
      assert (set x | x in s) == (set x | x in s[..n]) + {s[n]} by {
        assert s == s[..n] + [s[n]];
      }
    }
  }

  /** A listing is as long as the table. */
  lemma ListedSize(cd: Coder, table: map<Bytes, Bytes>, ks: seq<Bytes>, vs: seq<Saved>)
    requires ListedBy(cd, table, ks, vs)
    ensures |vs| == |table|
  {
    DistinctSize(ks);
    assert (set k | k in ks) == table.Keys;
  }

  // ---------- What a right batch is ----------

  /** Records of the table, no newer one after an older one, each at most once, as many as there is
      room for, and none left out that is newer than one of them. */
  ghost predicate RightBatch(cd: Coder, table: map<Bytes, Bytes>, b: seq<Saved>)
    requires Good(cd, table)
  {
    var m := View(cd, table);
    && Within(cd, b, m) && Distinct(b) && |b| == Min(100, |table|)
    && (forall i, j :: 0 <= i < j < |b| ==> b[i].time >= b[j].time)
    && (forall k :: k in m ==> m[k] in b || forall i :: 0 <= i < |b| ==> m[k].time <= b[i].time)
  }

  lemma InTopOrOlder(vs: seq<Saved>, x: Saved)
    requires x in vs && forall i, j :: 0 <= i < j < |vs| ==> vs[i].time >= vs[j].time
    ensures x in Top(vs) || forall i :: 0 <= i < |Top(vs)| ==> x.time <= Top(vs)[i].time
  {
    var j := IndexOf(vs, x);
    if j < |Top(vs)| {
      assert Top(vs)[j] == x;
    }
  }

  lemma TopOfListing(cd: Coder, vs: seq<Saved>, m: Table)
    requires Listing(cd, vs, m)
    ensures Within(cd, Top(vs), m) && Distinct(Top(vs))
    ensures forall i, j :: 0 <= i < j < |Top(vs)| ==> Top(vs)[i].time >= Top(vs)[j].time
    ensures forall k :: k in m ==> m[k] in Top(vs) || forall i :: 0 <= i < |Top(vs)| ==> m[k].time <= Top(vs)[i].time
  {
    forall k | k in m ensures m[k] in Top(vs) || forall i :: 0 <= i < |Top(vs)| ==> m[k].time <= Top(vs)[i].time {
      InTopOrOlder(vs, m[k]);
    }
  }

  /** Whatever order the sort chose, the top of it is a right batch. */
  lemma TopIsRight(cd: Coder, table: map<Bytes, Bytes>, ks: seq<Bytes>, vs: seq<Saved>)
    requires Good(cd, table) && ListedBy(cd, table, ks, vs)
    ensures RightBatch(cd, table, Top(vs))
  {
    hide View, Good, ListedBy, Listing, Within;
    ListedIsListing(cd, table, ks, vs);
    TopOfListing(cd, vs, View(cd, table));
  }

  lemma FirstBatchIsNewest(cd: Coder, table: map<Bytes, Bytes>)
    requires Good(cd, table) && DistinctTimes(View(cd, table))
    ensures |FirstBatch(cd, table)| == Min(100, |table|)
    ensures Newest(cd, FirstBatch(cd, table), View(cd, table))
  {
    var m := View(cd, table);
    ByTimeIsNewest(cd, m);
    NewestPrefix(cd, ByTime(m), m, Min(CACHE_SIZE, |table|));
  }

  lemma NewestIsRight(cd: Coder, b: seq<Saved>, m: Table)
    requires Keyed(cd, m) && DistinctTimes(m)
    ensures Newest(cd, b, m) <==>
            && Within(cd, b, m) && Distinct(b)
            && (forall i, j :: 0 <= i < j < |b| ==> b[i].time >= b[j].time)
            && (forall k :: k in m ==> m[k] in b || forall i :: 0 <= i < |b| ==> m[k].time <= b[i].time)
  {
    if Within(cd, b, m) && Distinct(b) {
      forall i, j | 0 <= i < j < |b| ensures b[i].time != b[j].time {
        assert m[KeyOf(cd, b[i])] == b[i] && m[KeyOf(cd, b[j])] == b[j];
      }
      forall k, i | k in m && 0 <= i < |b| && m[k] !in b ensures m[k].time != b[i].time {
        assert m[KeyOf(cd, b[i])] == b[i];
      }
    }
  }

  /** Without equal times only the reference batch is right. */
  lemma RightIsFirst(cd: Coder, table: map<Bytes, Bytes>, b: seq<Saved>)
    requires Good(cd, table) && DistinctTimes(View(cd, table))
    ensures RightBatch(cd, table, b) <==> b == FirstBatch(cd, table)
  {
    hide View, Good, ByTime, DistinctTimes, Keyed, Newest;
    var m := View(cd, table);
    NewestIsRight(cd, b, m);
    FirstBatchIsNewest(cd, table);
    NewestIsByTime(cd, b, m);
  }

  // ---------- Batch reads of any store ----------

  lemma PrefixBackfill(cache: seq<Saved>, batch: seq<Saved>)
    ensures cache + Slice(batch, |cache|, |batch|) == batch <==> cache <= batch
  {
    assert (cache + Slice(batch, |cache|, |batch|))[..|cache|] == cache;
    if cache <= batch {
      assert cache + Slice(batch, |cache|, |batch|) == batch;
    }
  }

  /** Whatever the clock did: a batch read that scans returns a right batch, and leaves just it in
      the cache exactly when the cache already began it. */
  lemma ScanIsRight(cd: Coder, s: Store, ks: seq<Bytes>, vs: seq<Saved>)
    requires Good(cd, s.table) && !FastPath(s) && ListedBy(cd, s.table, ks, vs)
    ensures var r := ReadResult(cd, s, ks, vs);
            && r.Some? && RightBatch(cd, s.table, r.value)
            && (ReadStep(cd, s, ks, vs).cache == r.value <==> s.cache <= r.value)
  {
    hide Good, ListedBy, RightBatch;
    TopIsRight(cd, s.table, ks, vs);
    PrefixBackfill(s.cache, Top(vs));
  }

  /** So the next read, whatever order its own sort chooses, is right when it scans too, or when
      the cache began the batch; without equal times, exactly then. */
  lemma NextRead(cd: Coder, s: Store, ks: seq<Bytes>, vs: seq<Saved>, ks': seq<Bytes>, vs': seq<Saved>)
    requires Good(cd, s.table) && !FastPath(s)
    requires ListedBy(cd, s.table, ks, vs) && ListedBy(cd, s.table, ks', vs')
    ensures var s' := ReadStep(cd, s, ks, vs);
            var next := ReadResult(cd, s', ks', vs');
            && next.Some?
            && (!FastPath(s') || s.cache <= Top(vs) ==> RightBatch(cd, s.table, next.value))
            && (DistinctTimes(View(cd, s.table)) && RightBatch(cd, s.table, next.value) ==>
                  !FastPath(s') || s.cache <= Top(vs))
  {
    hide Good, ListedBy, RightBatch, View, DistinctTimes, FirstBatch;
    ScanIsRight(cd, s, ks, vs);
    var s' := ReadStep(cd, s, ks, vs);
    if !FastPath(s') {
      ScanIsRight(cd, s', ks', vs');
    }
    if DistinctTimes(View(cd, s.table)) {
      OnlyOrder(cd, s.table, ks, vs);
      RightIsFirst(cd, s.table, s'.cache);
    }
  }
}
