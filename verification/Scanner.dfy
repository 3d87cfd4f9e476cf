/** The block scanner's arithmetic: which heights one tick dispatches under failing fetches,
    when a tick ends, and what the checkpoint says after it. */
module Scanner {
  import opened Prelude
  import opened HeightFile

  /** Where a session starts: a configured height wins over the checkpoint. */
  function StartTop(startHeight: uint32, file: Option<string>): uint32 {
    if startHeight != 0 then startHeight else LastHeight(file)
  }

  /** The unsigned test "newTop-top <= 0" holds only of equal heights. */
  predicate NothingNew(top: uint32, newTop: uint32) {
    Sub32(newTop, top) <= 0
  }

  lemma NothingNewIsEqual(top: uint32, newTop: uint32)
    ensures NothingNew(top, newTop) <==> newTop == top
  {
  }

  /** A checkpoint is written when something was captured or enough heights have passed, by
      unsigned distance. */
  predicate NeedsRecord(toSign: nat, top: uint32, lastRecorded: uint32, waitingCircle: uint32) {
    toSign > 0 || Sub32(top, lastRecorded) >= waitingCircle
  }

  // ---------- One tick ----------

  /** Heights dispatched from h on, when calls says which successive fetches succeed. */
  function Dispatched(h: uint32, newTop: uint32, calls: seq<bool>): seq<uint32>
    decreases |calls|
  {
    if h > newTop || calls == [] then []
    else if calls[0] then [h] + Dispatched(Add32(h, 1), newTop, calls[1..])
    else Dispatched(h, newTop, calls[1..])
  }

  /** The height the loop has reached when the calls are used up or the loop has ended. */
  function Reached(h: uint32, newTop: uint32, calls: seq<bool>): uint32
    decreases |calls|
  {
    if h > newTop || calls == [] then h
    else if calls[0] then Reached(Add32(h, 1), newTop, calls[1..])
    else Reached(h, newTop, calls[1..])
  }

  predicate Finished(h: uint32, newTop: uint32, calls: seq<bool>) {
    Reached(h, newTop, calls) > newTop
  }

  function Successes(calls: seq<bool>): nat {
    if calls == [] then 0 else (if calls[0] then 1 else 0) + Successes(calls[1..])
  }

  /** The heights a, a + 1, ..., b - 1. */
  function Range(a: int, b: int): (s: seq<int>)
    ensures |s| == if a < b then b - a else 0
    ensures forall i :: 0 <= i < |s| ==> s[i] == a + i
  {
    seq(if a < b then b - a else 0, i => a + i)
  }

  /** Below the largest 32-bit height, a tick dispatches consecutive heights, one for each
      successful fetch, and ends exactly when there were enough of them. */
  lemma {:induction false} TickDispatches(h: uint32, newTop: uint32, calls: seq<bool>)
    requires newTop < MAX_UINT32
    ensures Dispatched(h, newTop, calls) == Range(h, Min(h + Successes(calls), newTop + 1))
    ensures Reached(h, newTop, calls) == Max(h, Min(h + Successes(calls), newTop + 1))
    ensures Finished(h, newTop, calls) <==> h + Successes(calls) > newTop
    decreases |calls|
  {
    if h <= newTop && calls != [] {
      TickDispatches(if calls[0] then Add32(h, 1) else h, newTop, calls[1..]);
      if calls[0] {
        assert Add32(h, 1) == h + 1;
        var b := Min(h + Successes(calls), newTop + 1);
        assert Range(h, b) == [h] + Range(h + 1, b);
      }
    }
  }

  /** At the largest 32-bit height the loop counter wraps and the tick never ends. */
  lemma {:induction false} TickNeverEnds(h: uint32, calls: seq<bool>)
    ensures !Finished(h, MAX_UINT32, calls)
    decreases |calls|
  {
    if calls != [] {
      TickNeverEnds(if calls[0] then Add32(h, 1) else h, calls[1..]);
    }
  }

  /** A tick has nothing to do, or its loop ends. */
  predicate TickDone(top: uint32, newTop: uint32, calls: seq<bool>) {
    NothingNew(top, newTop) || Finished(Add32(top, 1), newTop, calls)
  }

  /** For which reported heights finitely many failures cannot keep a tick from ending: all but
      the largest, and that one too when it is where the scanner already stands. */
  lemma TickEnds(top: uint32, newTop: uint32)
    ensures (forall calls :: Successes(calls) > newTop ==> TickDone(top, newTop, calls))
            <==> NothingNew(top, newTop) || newTop < MAX_UINT32
  {
    if newTop < MAX_UINT32 {
      forall calls | Successes(calls) > newTop ensures TickDone(top, newTop, calls) {
        TickDispatches(Add32(top, 1), newTop, calls);
      }
    } else {
      var calls := seq(newTop + 1, _ => true);
      AllSucceed(newTop + 1);
      TickNeverEnds(Add32(top, 1), calls);
    }
  }

  lemma {:induction false} AllSucceed(n: nat)
    ensures Successes(seq(n, _ => true)) == n
  {
    if n > 0 {
      assert seq(n, _ => true)[1..] == seq(n - 1, _ => true);
      AllSucceed(n - 1);
    }
  }

  // ---------- A session of ticks ----------

  /** The variables of Listen, the file, and the heights dispatched so far this session. */
  datatype Session = Session(top: uint32, lastRecorded: uint32, file: Option<string>, trail: seq<int>)

  /** What happens at one tick: no height reported, or a height, the outcomes of the fetches,
      and of the write if there is one. */
  datatype Tick = NoHeight | Height(newTop: uint32, calls: seq<bool>, write: WriteOutcome)

  function Sum(count: int -> nat, heights: seq<int>): nat {
    if heights == [] then 0 else Sum(count, heights[..|heights| - 1]) + count(heights[|heights| - 1])
  }

  function Open(startHeight: uint32, file: Option<string>): Session {
    var top := StartTop(startHeight, file);
    Session(top, top, file, [])
  }

  /** The heights a tick dispatches. */
  function TickHeights(s: Session, t: Tick): seq<uint32> {
    if t.NoHeight? || NothingNew(s.top, t.newTop) then [] else Dispatched(Add32(s.top, 1), t.newTop, t.calls)
  }

  /** Whether a tick that ends writes a checkpoint; count gives the items to sign at each height. */
  predicate Records(s: Session, t: Tick, count: int -> nat, waitingCircle: uint32) {
    && t.Height? && !NothingNew(s.top, t.newTop)
    && NeedsRecord(Sum(count, TickHeights(s, t)), t.newTop, s.lastRecorded, waitingCircle)
  }

  /** A tick that ends. */
  function AfterTick(s: Session, t: Tick, count: int -> nat, waitingCircle: uint32): Session {
    if t.NoHeight? || NothingNew(s.top, t.newTop) then s
    else
      var records := Records(s, t, count, waitingCircle);
      Session(t.newTop,
              if records then t.newTop else s.lastRecorded,
              if records then AfterWrite(s.file, t.newTop, t.write) else s.file,
              s.trail + TickHeights(s, t))
  }

  function Ticks(s: Session, ts: seq<Tick>, count: int -> nat, waitingCircle: uint32): Session {
    if ts == [] then s
    else
      var n := |ts| - 1;
      AfterTick(Ticks(s, ts[..n], count, waitingCircle), ts[n], count, waitingCircle)
  }

  /** Every tick ends, below the largest height, and reports no height under the one before. */
  predicate Rising(top: uint32, ts: seq<Tick>)
    decreases |ts|
  {
    ts != [] ==>
      var t := ts[0];
      if t.NoHeight? then Rising(top, ts[1..])
      else
        && top <= t.newTop < MAX_UINT32
        && Finished(Add32(top, 1), t.newTop, t.calls)
        && Rising(t.newTop, ts[1..])
  }

  lemma {:induction false} TicksFrom(s: Session, ts: seq<Tick>, count: int -> nat, waitingCircle: uint32)
    requires ts != []
    ensures Ticks(s, ts, count, waitingCircle)
            == Ticks(AfterTick(s, ts[0], count, waitingCircle), ts[1..], count, waitingCircle)
    decreases |ts|
  {
    var n := |ts| - 1;
    if n == 0 {
      assert ts[..0] == [] && ts[1..] == [];
    } else {
      TicksFrom(s, ts[..n], count, waitingCircle);
      assert ts[1..][..n - 1] == ts[..n][1..];
    }
  }

  lemma TickInOrder(s: Session, t: Tick, start: uint32, count: int -> nat, waitingCircle: uint32)
    requires Rising(s.top, [t]) && start <= s.top && s.trail == Range(start + 1, s.top + 1)
    ensures var s' := AfterTick(s, t, count, waitingCircle);
            start <= s'.top && s'.trail == Range(start + 1, s'.top + 1)
  {
    hide Dispatched, AfterWrite, Sum, Reached, Records;
    if t.Height? && t.newTop != s.top {
      assert Add32(s.top, 1) == s.top + 1;
      TickDispatches(s.top + 1, t.newTop, t.calls);
      assert TickHeights(s, t) == Range(s.top + 1, t.newTop + 1);
    }
  }

  /** Over any session of rising heights, whatever fetches fail, each height after the start up
      to the last one reported has been dispatched exactly once, in increasing order. */
  lemma {:induction false} ExactlyOnce(s: Session, ts: seq<Tick>, start: uint32,
                                      count: int -> nat, waitingCircle: uint32)
    requires Rising(s.top, ts) && start <= s.top && s.trail == Range(start + 1, s.top + 1)
    ensures var s' := Ticks(s, ts, count, waitingCircle); s'.trail == Range(start + 1, s'.top + 1)
    decreases |ts|
  {
    if ts == [] {
    } else {
      TicksFrom(s, ts, count, waitingCircle);
      TickInOrder(s, ts[0], start, count, waitingCircle);
      ExactlyOnce(AfterTick(s, ts[0], count, waitingCircle), ts[1..], start, count, waitingCircle);
    }
  }

  lemma {:induction false} NothingToSign(count: int -> nat, heights: seq<int>, i: nat)
    requires Sum(count, heights) == 0 && i < |heights|
    ensures count(heights[i]) == 0
  {
    if i < |heights| - 1 {
      NothingToSign(count, heights[..|heights| - 1], i);
    }
  }

  lemma {:induction false} QuietSum(count: int -> nat, heights: seq<int>)
    ensures Sum(count, heights) == 0 <==> forall h :: h in heights ==> count(h) == 0
  {
    if heights == [] {
    } else {
      var n := |heights| - 1;
      QuietSum(count, heights[..n]);
      assert forall h :: h in heights <==> h in heights[..n] || h == heights[n];
    }
  }

  /** When a tick saves its height, in plain numbers. It does if something was captured. A quiet
      tick does if the height is at least the configured distance above the last one saved; or
      if it is below it, where the unsigned distance is the way round through 2^32. */
  lemma RecordRule(s: Session, t: Tick, count: int -> nat, waitingCircle: uint32)
    requires t.Height? && t.newTop != s.top
    ensures var s' := AfterTick(s, t, count, waitingCircle);
            var captured := exists h :: h in TickHeights(s, t) && count(h) > 0;
            var far := if t.newTop >= s.lastRecorded then t.newTop - s.lastRecorded >= waitingCircle
                       else 0x1_0000_0000 - (s.lastRecorded - t.newTop) >= waitingCircle;
            && s'.top == t.newTop
            && (Records(s, t, count, waitingCircle) <==> captured || far)
            && (captured || far ==>
                  && s'.lastRecorded == t.newTop
                  && (t.write.Written? ==> LastHeight(s'.file) == t.newTop)
                  && (t.write.Refused? ==> s'.file == s.file))
            && (!captured && !far ==> s'.lastRecorded == s.lastRecorded && s'.file == s.file)
            && (!captured ==> (s'.lastRecorded == t.newTop <==> t.newTop == s.lastRecorded || far))
  {
    hide Dispatched, Sum, AfterWrite;
    NothingNewIsEqual(s.top, t.newTop);
    QuietSum(count, TickHeights(s, t));
    AfterWriteBound(s.file, t.newTop, t.write);
  }

  lemma QuietHeights(count: int -> nat, a: int, b: int)
    requires Sum(count, Range(a, b)) == 0
    ensures forall h :: a <= h < b ==> count(h) == 0
  {
    forall h | a <= h < b ensures count(h) == 0 {
      NothingToSign(count, Range(a, b), h - a);
      assert Range(a, b)[h - a] == h;
    }
  }

  /** A height is the top, or lags behind it by less than the configured distance with nothing
      captured in between. */
  ghost predicate LagsLittle(h: uint32, top: uint32, count: int -> nat, waitingCircle: uint32) {
    && h <= top
    && (h == top || top - h < waitingCircle)
    && forall x :: h < x <= top ==> count(x) == 0
  }

  /** A session whose last recorded height lags little. */
  ghost predicate RecordedLags(s: Session, count: int -> nat, waitingCircle: uint32) {
    LagsLittle(s.lastRecorded, s.top, count, waitingCircle)
  }

  lemma TickLags(s: Session, t: Tick, count: int -> nat, waitingCircle: uint32)
    requires RecordedLags(s, count, waitingCircle) && Rising(s.top, [t])
    ensures RecordedLags(AfterTick(s, t, count, waitingCircle), count, waitingCircle)
    ensures Records(s, t, count, waitingCircle) ==>
              AfterTick(s, t, count, waitingCircle).lastRecorded > s.lastRecorded
  {
    hide Dispatched, AfterWrite, Sum, Reached;
    if t.Height? && t.newTop != s.top {
      assert Add32(s.top, 1) == s.top + 1;
      TickDispatches(s.top + 1, t.newTop, t.calls);
      assert TickHeights(s, t) == Range(s.top + 1, t.newTop + 1);
      if Sum(count, TickHeights(s, t)) == 0 {
        QuietHeights(count, s.top + 1, t.newTop + 1);
      }
    }
  }

  /** Some tick of the session writes a checkpoint. */
  predicate SomeRecord(s: Session, ts: seq<Tick>, count: int -> nat, waitingCircle: uint32)
    decreases |ts|
  {
    ts != [] && (Records(s, ts[0], count, waitingCircle)
                 || SomeRecord(AfterTick(s, ts[0], count, waitingCircle), ts[1..], count, waitingCircle))
  }

  /** Without write errors and with rising heights: the last recorded height stays close, and
      the file holds it as soon as a tick has recorded; before, both are as they were. */
  lemma {:induction false} RecordedStaysClose(s: Session, ts: seq<Tick>, count: int -> nat, waitingCircle: uint32)
    requires RecordedLags(s, count, waitingCircle) && Rising(s.top, ts)
    requires forall i :: 0 <= i < |ts| && ts[i].Height? ==> ts[i].write.Written?
    ensures var s' := Ticks(s, ts, count, waitingCircle);
            && RecordedLags(s', count, waitingCircle)
            && s'.lastRecorded >= s.lastRecorded
            && (SomeRecord(s, ts, count, waitingCircle) ==>
                  LastHeight(s'.file) == s'.lastRecorded > s.lastRecorded)
            && (!SomeRecord(s, ts, count, waitingCircle) ==>
                  s'.file == s.file && s'.lastRecorded == s.lastRecorded)
    decreases |ts|
  {
    hide RecordedLags, Records, AfterWrite, LastHeight, TickHeights, Finished;
    if ts == [] {
    } else {
      TicksFrom(s, ts, count, waitingCircle);
      TickLags(s, ts[0], count, waitingCircle);
      OneRecord(s, ts[0], count, waitingCircle);
      RecordedStaysClose(AfterTick(s, ts[0], count, waitingCircle), ts[1..], count, waitingCircle);
    }
  }

  lemma OneRecord(s: Session, t: Tick, count: int -> nat, waitingCircle: uint32)
    requires t.Height? ==> t.write.Written?
    ensures var s' := AfterTick(s, t, count, waitingCircle);
            && (Records(s, t, count, waitingCircle) ==> LastHeight(s'.file) == s'.lastRecorded)
            && (!Records(s, t, count, waitingCircle) ==> s'.file == s.file && s'.lastRecorded == s.lastRecorded)
  {
    if Records(s, t, count, waitingCircle) {
      AfterWriteBound(s.file, t.newTop, t.write);
    }
  }

  /** Over every session of rising heights whose writes succeed, wherever it started: the last
      recorded height is the top or close to it with nothing captured in between. The file holds
      it exactly when the session started from the file's height or some tick has recorded, and
      is itself as close to the top exactly when some tick has recorded or it was left so. */
  lemma CheckpointStaysClose(startHeight: uint32, file: Option<string>, ts: seq<Tick>,
                             count: int -> nat, waitingCircle: uint32)
    requires Rising(StartTop(startHeight, file), ts)
    requires forall i :: 0 <= i < |ts| && ts[i].Height? ==> ts[i].write.Written?
    ensures var s, s' := Open(startHeight, file), Ticks(Open(startHeight, file), ts, count, waitingCircle);
            var some := SomeRecord(s, ts, count, waitingCircle);
            && RecordedLags(s', count, waitingCircle)
            && (LastHeight(s'.file) == s'.lastRecorded <==> StartTop(startHeight, file) == LastHeight(file) || some)
            && (LagsLittle(LastHeight(s'.file), s'.top, count, waitingCircle) <==>
                  some || LagsLittle(LastHeight(file), s'.top, count, waitingCircle))
            && (!some ==> s'.file == file && s'.lastRecorded == s.top)
  {
    RecordedStaysClose(Open(startHeight, file), ts, count, waitingCircle);
  }

  /** One quiet tick from a configured height, with the shipped distance. */
  lemma QuietTick(startHeight: uint32)
    requires 0 < startHeight < MAX_UINT32 - 1
    ensures var s := Ticks(Open(startHeight, None), [Height(startHeight + 1, [true], Written)], _ => 0, 300);
            s.top == startHeight + 1 && s.lastRecorded == startHeight && s.file == None
  {
    var s, n: uint32, count := Open(startHeight, None), startHeight + 1, (_: int) => 0;
    var t := Height(n, [true], Written);
    assert [t][..0] == [];
    assert TickHeights(s, t) == [n] by {
      TickDispatches(n, n, [true]);
      assert [true][1..] == [];
    }
    assert Sum(count, [n]) == 0 by {
      assert [n][..0] == [];
    }
    assert !Records(s, t, count, 300);
  }

  /** From the shipped start height the file is then missing, and reads 0, not the 1 the session
      takes as recorded; from height 1000 it is too far behind besides. */
  lemma QuietTickUnrecorded()
    ensures var s := Ticks(Open(1, None), [Height(2, [true], Written)], _ => 0, 300);
            LastHeight(s.file) != s.lastRecorded && LagsLittle(LastHeight(s.file), s.top, _ => 0, 300)
    ensures var s := Ticks(Open(1000, None), [Height(1001, [true], Written)], _ => 0, 300);
            !LagsLittle(LastHeight(s.file), s.top, _ => 0, 300)
  {
    hide Ticks;
    QuietTick(1);
    QuietTick(1000);
  }
}
