/** Lookups through the cache: they answer like the table whatever the clock does and whichever
    inserts fail, and after failed marks still with the right item and time. */
module Lookups {
  import opened Prelude
  import opened Codec
  import opened Records
  import opened StoreSpec
  import opened Batches
  import S = StoreRuns

  // ---------- What the cache answers after each change ----------

  lemma {:induction false} HitAppend(cd: Coder, a: seq<Saved>, b: seq<Saved>, h: Bytes)
    ensures Hit(cd, a + b, h) == if Hit(cd, a, h).Some? then Hit(cd, a, h) else Hit(cd, b, h)
  {
    if a == [] {
      assert a + b == b;
    } else {
      assert (a + b)[1..] == a[1..] + b;
      HitAppend(cd, a[1..], b, h);
    }
  }

  /** Taking items away at the end can only hide an answer. */
  lemma HitPrefix(cd: Coder, cache: seq<Saved>, n: nat, h: Bytes)
    requires n <= |cache|
    ensures Hit(cd, cache[..n], h).Some? ==> Hit(cd, cache[..n], h) == Hit(cd, cache, h)
  {
    HitAppend(cd, cache[..n], cache[n..], h);
    assert cache[..n] + cache[n..] == cache;
  }

  lemma HitPush(cd: Coder, cache: seq<Saved>, x: Saved, h: Bytes)
    ensures var hit := Hit(cd, Push(cache, x), h);
            hit.Some? ==> hit == if KeyOf(cd, x) == h then Some(x) else Hit(cd, cache, h)
  {
    var c := [x] + cache;
    assert c[1..] == cache && c[..|c|] == c;
    HitPrefix(cd, c, |c| - 1, h);
  }

  lemma HitDone(cd: Coder, cache: seq<Saved>, k: Bytes, h: Bytes)
    ensures Hit(cd, DoneCache(cd, cache, k), h)
            == match Hit(cd, cache, h)
               case None => None
               case Some(x) => Some(if h == k then x.(done := true) else x)
  {
    hide Find;
    var c', f := DoneCache(cd, cache, k), Find(cd, cache, h);
    assert forall i :: 0 <= i < |cache| ==> c'[i].item == cache[i].item;
    var n := if f.None? then |cache| else f.value;
    forall i | 0 <= i < n ensures KeyOf(cd, c'[i]) != h {
      if f.Some? {
        FindIsFirst(cd, cache, h, i);
      }
    }
    FindIs(cd, c', h, n);
  }

  lemma HitBatch(cd: Coder, table: map<Bytes, Bytes>, ks: seq<Bytes>, vs: seq<Saved>, k: nat, h: Bytes)
    requires Good(cd, table) && ListedBy(cd, table, ks, vs)
    ensures var hit := Hit(cd, Slice(Top(vs), k, |Top(vs)|), h);
            hit.Some? ==> h in table && hit == Some(View(cd, table)[h])
  {
    hide View, Good, ListedBy;
    var rest := Slice(Top(vs), k, |Top(vs)|);
    var f := Find(cd, rest, h);
    if f.Some? {
      var i := k + f.value;
      assert i < |Top(vs)| && rest[f.value] == Top(vs)[i] == vs[i];
      ListedWithin(cd, table, ks, vs, i);
    }
  }

  // ---------- One call ----------

  lemma HitsPut(cd: Coder, s: Store, h: Bytes, x: Saved, io: Io, exact: bool)
    requires Hits(cd, s, exact) && S.Proper(cd, s, S.Put(h, x, io))
    ensures Hits(cd, PutStep(cd, s, h, x, io), exact)
  {
    hide View, Good, Hit, Push, Find;
    S.PutView(cd, s, h, x, io);
    forall k { HitPush(cd, s.cache, x, k); }
  }

  /** Whatever order the sort chooses, and whether or not the scan succeeds. */
  lemma HitsRead(cd: Coder, s: Store, ks: seq<Bytes>, vs: seq<Saved>, exact: bool)
    requires Hits(cd, s, exact)
    ensures Hits(cd, ReadStep(cd, s, ks, vs), exact)
  {
    hide View, Good, Hit, ListedBy, Top;
    if !FastPath(s) && ListedBy(cd, s.table, ks, vs) {
      var rest := Slice(Top(vs), |s.cache|, |Top(vs)|);
      forall h | Hit(cd, s.cache + rest, h).Some?
        ensures h in s.table && StandsFor(Hit(cd, s.cache + rest, h).value, View(cd, s.table)[h], exact)
      {
        HitAppend(cd, s.cache, rest, h);
        HitBatch(cd, s.table, ks, vs, |s.cache|, h);
      }
    }
  }

  lemma HitsDone(cd: Coder, s: Store, k: Bytes, io: Io)
    requires Hits(cd, s, false)
    ensures Hits(cd, DoneStep(cd, s, k, io), false)
  {
    hide View, Good, Hit, DoneCache, DoneTable, Find;
    S.DoneView(cd, s.table, k, io);
    forall h { HitDone(cd, s.cache, k, h); }
  }

  lemma MarkReachesHit(cd: Coder, s: Store, k: Bytes, io: Io)
    requires Hits(cd, s, true)
    ensures S.MarkReaches(cd, s, k, io) <==>
            (io.get && io.put) || Hit(cd, s.cache, k).None? || Hit(cd, s.cache, k).value.done
  {
    hide View, Good, Find;
    assert Hit(cd, s.cache, k).None? <==> Find(cd, s.cache, k).None?;
  }

  /** A mark keeps the answers exact exactly when it reaches the disk or finds nothing unmarked
      to change in the cache. */
  lemma HitsDoneExact(cd: Coder, s: Store, k: Bytes, io: Io)
    requires Hits(cd, s, true)
    ensures Hits(cd, DoneStep(cd, s, k, io), true) <==> S.MarkReaches(cd, s, k, io)
  {
    hide View, Good, DoneCache, DoneTable, Find, Hit, S.MarkReaches;
    S.DoneView(cd, s.table, k, io);
    MarkReachesHit(cd, s, k, io);
    forall h { HitDone(cd, s.cache, k, h); }
    if Hits(cd, DoneStep(cd, s, k, io), true) {
      assert Hit(cd, s.cache, k).Some? ==> Hit(cd, DoneCache(cd, s.cache, k), k).Some?;
    }
  }

  /** Whatever fails and whatever the clock does, what the cache answers has the item and time of
      the record on disk and all its marks; and exactly its marks, if the marks made reach. */
  lemma HitsStep(cd: Coder, s: Store, op: S.Op, exact: bool)
    requires Hits(cd, s, exact) && S.Proper(cd, s, op)
    requires exact && op.Done? ==> S.MarkReaches(cd, s, op.h, op.io)
    ensures Hits(cd, S.Apply(cd, s, op), exact)
  {
    match op
    case Put(h, x, io) => HitsPut(cd, s, h, x, io, exact);
    case Done(h, io) =>
      if exact {
        HitsDoneExact(cd, s, h, io);
      } else {
        HitsDone(cd, s, h, io);
      }
    case Read(ks, vs) => HitsRead(cd, s, ks, vs, exact);
    case Restart(_) =>
  }

  // ---------- When a mark is no longer seen ----------

  const READS := Io(true, true, true)

  predicate SeenDone(cd: Coder, s: Store, h: Bytes) {
    GetStep(cd, s, h, READS).Some? && GetStep(cd, s, h, READS).value.done
  }

  /** What is seen depends on the cache first, then on the disk. */
  lemma SeenWhen(cd: Coder, s: Store, h: Bytes)
    requires Good(cd, s.table)
    ensures SeenDone(cd, s, h) <==>
            match Hit(cd, s.cache, h)
            case Some(x) => x.done
            case None => h in s.table && View(cd, s.table)[h].done
  {
    hide View, Good, Find;
  }

  /** A marked item that is still answered from the cache afterwards is still marked. */
  lemma CachedStaysSeen(cd: Coder, s: Store, op: S.Op, h: Bytes)
    requires Hits(cd, s, false) && S.Proper(cd, s, op) && SeenDone(cd, s, h)
    requires Hit(cd, S.Apply(cd, s, op).cache, h).Some?
    ensures Hit(cd, S.Apply(cd, s, op).cache, h).value.done
  {
    hide View, Good, Find, ListedBy, Top;
    SeenWhen(cd, s, h);
    match op
    case Put(k, x, io) =>
      if Inserts(cd, s, k, x, io) {
        HitPush(cd, s.cache, x, h);
      }
    case Done(k, io) => HitDone(cd, s.cache, k, h);
    case Read(ks, vs) =>
      if !FastPath(s) && ListedBy(cd, s.table, ks, vs) {
        HitAppend(cd, s.cache, Slice(Top(vs), |s.cache|, |Top(vs)|), h);
        HitBatch(cd, s.table, ks, vs, |s.cache|, h);
      }
    case Restart(_) =>
  }

  lemma CachedUnlessGone(cd: Coder, s: Store, op: S.Op, h: Bytes)
    requires Good(cd, s.table) && Hit(cd, s.cache, h).Some? && Hit(cd, S.Apply(cd, s, op).cache, h).None?
    ensures op.Put? || op.Restart?
  {
    hide View, Good, Find, ListedBy, Top;
    if op.Done? {
      HitDone(cd, s.cache, op.h, h);
    } else if op.Read? {
      HitAppend(cd, s.cache, Slice(Top(op.vs), |s.cache|, |Top(op.vs)|), h);
    }
  }

  /** A mark that a lookup has shown is gone after a call exactly when the disk never took it and
      the call takes the item out of the cache, by eviction or at a restart. */
  lemma MarkGone(cd: Coder, s: Store, op: S.Op, h: Bytes)
    requires Hits(cd, s, false) && S.Proper(cd, s, op) && SeenDone(cd, s, h)
    ensures h in s.table
    ensures !SeenDone(cd, S.Apply(cd, s, op), h) <==>
            && Hit(cd, s.cache, h).Some? && !View(cd, s.table)[h].done
            && Hit(cd, S.Apply(cd, s, op).cache, h).None?
    ensures !SeenDone(cd, S.Apply(cd, s, op), h) ==> op.Put? || op.Restart?
  {
    hide View, Good, Find, SeenDone, Hit;
    var s' := S.Apply(cd, s, op);
    hide S.Apply, S.Proper;
    S.GrewStep(cd, s, op);
    SeenWhen(cd, s, h);
    SeenWhen(cd, s', h);
    if Hit(cd, s'.cache, h).Some? {
      CachedStaysSeen(cd, s, op, h);
    } else if Hit(cd, s.cache, h).Some? {
      CachedUnlessGone(cd, s, op, h);
      UnmarkedStays(cd, s, op, h);
    }
  }

  /** Inserts and restarts mark nothing that is stored. */
  lemma UnmarkedStays(cd: Coder, s: Store, op: S.Op, h: Bytes)
    requires Good(cd, s.table) && S.Proper(cd, s, op) && (op.Put? || op.Restart?) && h in s.table
    ensures var s' := S.Apply(cd, s, op);
            Good(cd, s'.table) && h in s'.table && View(cd, s'.table)[h] == View(cd, s.table)[h]
  {
    hide View, Good;
    if op.Put? {
      S.PutView(cd, s, op.h, op.x, op.io);
    }
  }

  /** The shortest such history: an item stored, its mark lost by the disk, a restart. In between
      the cache says done and the disk does not. */
  lemma LostMarkIsSeen(cd: Coder, x: Saved)
    requires Sound(cd, x) && !x.done
    ensures var h := KeyOf(cd, x);
            var s := S.Run(cd, EMPTY, [S.StoreOk(cd, x), S.Done(h, Io(true, false, true))]);
            var s' := S.Run(cd, EMPTY, [S.StoreOk(cd, x), S.Done(h, Io(true, false, true)), S.Restart(true)]);
            && !Agree(cd, s) && SeenDone(cd, s, h) && GetStep(cd, s', h, READS) == Some(x)
  {
    hide View, Sound, Find, S.Run;
    var h, io := KeyOf(cd, x), Io(true, false, true);
    S.FirstStored(cd, x);
    S.RunOneMore(cd, EMPTY, [S.StoreOk(cd, x)], S.Done(h, io));
    S.RunOneMore(cd, EMPTY, [S.StoreOk(cd, x), S.Done(h, io)], S.Restart(true));
    assert [S.StoreOk(cd, x)] + [S.Done(h, io)] == [S.StoreOk(cd, x), S.Done(h, io)];
    assert [S.StoreOk(cd, x), S.Done(h, io)] + [S.Restart(true)] == [S.StoreOk(cd, x), S.Done(h, io), S.Restart(true)];
    var s1 := S.Run(cd, EMPTY, [S.StoreOk(cd, x)]);
    FindIs(cd, [x], h, 0);
    assert h in View(cd, s1.table).Keys;
    LostMark(cd, s1, x);
  }

  lemma LostMark(cd: Coder, s: Store, x: Saved)
    requires Good(cd, s.table) && s.cache == [x] && !x.done && Find(cd, [x], KeyOf(cd, x)) == Some(0)
    requires KeyOf(cd, x) in s.table && View(cd, s.table)[KeyOf(cd, x)] == x
    ensures var h := KeyOf(cd, x);
            var s' := DoneStep(cd, s, h, Io(true, false, true));
            && !Agree(cd, s') && SeenDone(cd, s', h) && s'.table == s.table
            && GetStep(cd, Reopen(s', true), h, READS) == Some(x)
  {
    hide View;
    var h := KeyOf(cd, x);
    var s' := DoneStep(cd, s, h, Io(true, false, true));
    assert s'.cache == [x.(done := true)];
    FindIs(cd, s'.cache, h, 0);
    FindIs(cd, [], h, 0);
    if Agree(cd, s') {
      CachedIsStored(cd, s', 0);
    }
  }
}
