/** The observer: the event loop over a block, and one tick of the scan, in the form of the
    source, against the actions of Events and the arithmetic of Scanner. */
module Observer {
  import opened Prelude
  import opened Wire
  import opened Codec
  import opened Records
  import opened StoreSpec
  import opened VendorDb
  import opened Events
  import opened Scanner
  import opened HeightFile

  /** The sending end of the channel: what was sent, and its value when it was sent. */
  class Sender {
    var items: seq<SharedItem>
    var values: seq<ToSign>

    constructor ()
      ensures items == [] && values == []
    {
      items, values := [], [];
    }

    method Send(item: SharedItem)
      modifies this
      ensures items == old(items) + [item] && values == old(values) + [item.Value()]
    {
      items, values := items + [item], values + [item.Value()];
    }
  }

  /** The store after the relay actions of a list; disk says how each one's database calls end. */
  function Relayed(cd: Coder, s: Store, actions: seq<Action>, disk: nat -> Io): Store {
    if actions == [] then s
    else
      var n := |actions| - 1;
      var before := Relayed(cd, s, actions[..n], disk);
      if actions[n].Relay? then DoneStep(cd, before, actions[n].key, disk(n)) else before
  }

  lemma OneMore(cd: Coder, s: Store, actions: seq<Action>, a: Action, disk: nat -> Io)
    ensures Relayed(cd, s, actions + [a], disk)
            == if a.Relay? then DoneStep(cd, Relayed(cd, s, actions, disk), a.key, disk(|actions|))
               else Relayed(cd, s, actions, disk)
    ensures Items(actions + [a]) == Items(actions) + if a.Sign? then [a.item] else []
  {
    assert (actions + [a])[..|actions|] == actions;
  }

  /** The blocks of the observed chain. */
  datatype Chain = Chain(blockAt: uint32 -> Block)

  ghost predicate ChainWellFormed(hashKey: string, chain: Chain) {
    forall h: uint32 :: BlockWellFormed(hashKey, chain.blockAt(h))
  }

  function ActionsAt(lib: Lib, hashKey: string, chain: Chain, h: int): seq<Action> {
    if 0 <= h < TWO_TO_THE_32 && BlockWellFormed(hashKey, chain.blockAt(h))
    then BlockActions(lib, hashKey, chain.blockAt(h)) else []
  }

  /** How many items to sign there are at each height. */
  function Counts(lib: Lib, hashKey: string, chain: Chain): int -> nat {
    (h: int) => |Items(ActionsAt(lib, hashKey, chain, h))|
  }

  /** What dispatching a list of heights sends. */
  function ItemsAt(lib: Lib, hashKey: string, chain: Chain, heights: seq<int>): seq<ToSign> {
    if heights == [] then []
    else
      var n := |heights| - 1;
      ItemsAt(lib, hashKey, chain, heights[..n]) + Items(ActionsAt(lib, hashKey, chain, heights[n]))
  }

  /** How the database calls end at one height. */
  function DiskAt(disk: (int, nat) -> Io, h: int): nat -> Io {
    (k: nat) => disk(h, k)
  }

  /** What dispatching a list of heights does to the store. */
  function RelayedAt(lib: Lib, hashKey: string, chain: Chain, s: Store,
                     heights: seq<int>, disk: (int, nat) -> Io): Store {
    if heights == [] then s
    else
      var n := |heights| - 1;
      Relayed(CoderOf(lib), RelayedAt(lib, hashKey, chain, s, heights[..n], disk),
              ActionsAt(lib, hashKey, chain, heights[n]), DiskAt(disk, heights[n]))
  }

  /** One tick so far: what the heights dispatched have sent, counted and marked. */
  ghost predicate Progress(ob: Observer, chain: Chain, disk: (int, nat) -> Io, heights: seq<int>,
                           toSign: nat, s: Store, sent: seq<ToSign>)
    reads ob.txchan, ob.vdb, ob.vdb.db, ob.vdb.txCache
  {
    && toSign == Sum(Counts(ob.lib, ob.hashKey, chain), heights)
    && ob.txchan.values == sent + ItemsAt(ob.lib, ob.hashKey, chain, heights)
    && ob.vdb.State() == RelayedAt(ob.lib, ob.hashKey, chain, s, heights, disk)
  }

  class Observer {
    const lib: Lib
    const hashKey: string
    const vdb: VendorDB
    const txchan: Sender
    const startHeight: uint32
    const waitingCircle: uint32
    var top: uint32
    var lastRecorded: uint32
    var file: Option<string>
    ghost var trail: seq<int>

    constructor (lib: Lib, hashKey: string, vdb: VendorDB, txchan: Sender,
                 startHeight: uint32, waitingCircle: uint32, file: Option<string>)
      ensures this.lib == lib && this.hashKey == hashKey && this.vdb == vdb && this.txchan == txchan
      ensures this.startHeight == startHeight && this.waitingCircle == waitingCircle
      ensures Now() == Open(startHeight, file)
    {
      this.lib, this.hashKey, this.vdb, this.txchan := lib, hashKey, vdb, txchan;
      this.startHeight, this.waitingCircle, this.file := startHeight, waitingCircle, file;
      var start := LastHeight(file);
      if startHeight != 0 {
        start := startHeight;
      }
      top, lastRecorded, trail := start, start, [];
    }

    ghost function Now(): Session
      reads this
    {
      Session(top, lastRecorded, file, trail)
    }

    /** One notification. The item sent keeps its scripts: only a copy is cleared, for the log. */
    method Notice(n: Notify, io: Io) returns (toSign: nat)
      requires WellFormed(hashKey, n) && vdb.Valid() && vdb.Unshared() && vdb.lib == lib
      modifies txchan, vdb.db, vdb.txCache`contents, vdb.txCache.l
      ensures vdb.Valid()
      ensures var a := ActionOf(lib, hashKey, n);
              && toSign == (if a.Sign? then 1 else 0)
              && txchan.values == old(txchan.values) + (if a.Sign? then [a.item] else [])
              && vdb.State() ==
                 if a.Relay? then DoneStep(CoderOf(lib), old(vdb.State()), a.key, io) else old(vdb.State())
    {
      hide CoderOf, DoneStep, DoneShared, DoneTable, Shows, Distinct, TxPart, CounterPart, DiskOk, Find, Strip;
      toSign := 0;
      if n.NotList? {
        return;
      }
      if n.states[0] == Text(TO_SIGN_TX_KEY) && n.states[1].text == hashKey {
        var tx := DecodeTx(lib, n.states[2].text);
        if tx == None {
          return;
        }
        var mtx := new Tx(tx.value);
        var item := new SharedItem(mtx, n.states[3].amts);
        txchan.Send(item);
        toSign := 1;
        var copy := mtx.Copy();
        copy.ClearScripts();
      } else if n.states[0] == Text(SIGNED_TX_KEY) && n.states[5].text == hashKey {
        var tx := DecodeTx(lib, n.states[3].text);
        if tx == None {
          return;
        }
        var mtx := new Tx(tx.value);
        mtx.ClearScripts();
        var ok := vdb.SetTxDone(TxHash(lib, mtx.Value()), io);
      }
    }

    /** The inner loop: the notifications of one event, seen notifications into the block. */
    method CheckEvent(e: seq<Notify>, disk: nat -> Io, seen: nat,
                      ghost before: seq<Action>, ghost s: Store, ghost sent: seq<ToSign>) returns (toSign: nat)
      requires forall j :: 0 <= j < |e| ==> WellFormed(hashKey, e[j])
      requires vdb.Valid() && vdb.Unshared() && vdb.lib == lib && seen == |before|
      requires txchan.values == sent + Items(before)
      requires vdb.State() == Relayed(CoderOf(lib), s, before, disk)
      modifies txchan, vdb.db, vdb.txCache`contents, vdb.txCache.l
      ensures var done := before + EventActions(lib, hashKey, e);
              && vdb.Valid()
              && |Items(before)| + toSign == |Items(done)|
              && txchan.values == sent + Items(done)
              && vdb.State() == Relayed(CoderOf(lib), s, done, disk)
    {
      hide CoderOf, DoneStep, ActionOf, TxPart, Items, Relayed;
      ghost var actions, done := EventActions(lib, hashKey, e), before;
      toSign := 0;
      for j := 0 to |e|
        invariant done == before + actions[..j]
        invariant vdb.Valid() && |Items(before)| + toSign == |Items(done)|
        invariant txchan.values == sent + Items(done)
        invariant vdb.State() == Relayed(CoderOf(lib), s, done, disk)
      {
        OneMore(CoderOf(lib), s, done, actions[j], disk);
        var one := Notice(e[j], disk(seen + j));
        assert actions[..j + 1] == actions[..j] + [actions[j]];
        toSign, done := toSign + one, done + [actions[j]];
      }
      assert actions[..|e|] == actions;
    }

    /** Every action of the block, once and in order; a database error stops none of them. */
    method CheckEvents(events: Block, disk: nat -> Io) returns (toSign: nat)
      requires BlockWellFormed(hashKey, events) && vdb.Valid() && vdb.Unshared() && vdb.lib == lib
      modifies txchan, vdb.db, vdb.txCache`contents, vdb.txCache.l
      ensures vdb.Valid()
      ensures var actions := BlockActions(lib, hashKey, events);
              && toSign == |Items(actions)|
              && txchan.values == old(txchan.values) + Items(actions)
              && vdb.State() == Relayed(CoderOf(lib), old(vdb.State()), actions, disk)
    {
      hide CoderOf, ActionOf, TxPart, EventActions;
      toSign := 0;
      var seen := 0;
      ghost var s, sent := vdb.State(), txchan.values;
      for i := 0 to |events|
        invariant vdb.Valid() && seen == |BlockActions(lib, hashKey, events[..i])|
        invariant toSign == |Items(BlockActions(lib, hashKey, events[..i]))|
        invariant txchan.values == sent + Items(BlockActions(lib, hashKey, events[..i]))
        invariant vdb.State() == Relayed(CoderOf(lib), s, BlockActions(lib, hashKey, events[..i]), disk)
      {
        assert events[..i + 1][..i] == events[..i];
        var one := CheckEvent(events[i], disk, seen, BlockActions(lib, hashKey, events[..i]), s, sent);
        toSign, seen := toSign + one, seen + |events[i]|;
      }
      assert events[..|events|] == events;
    }

    /** One dispatched height. */
    method ScanHeight(h: uint32, chain: Chain, disk: (int, nat) -> Io, toSign: nat,
                      ghost heights: seq<int>, ghost s: Store, ghost sent: seq<ToSign>) returns (total: nat)
      requires ChainWellFormed(hashKey, chain) && vdb.Valid() && vdb.Unshared() && vdb.lib == lib
      requires Progress(this, chain, disk, heights, toSign, s, sent)
      modifies txchan, vdb.db, vdb.txCache`contents, vdb.txCache.l
      ensures vdb.Valid() && Progress(this, chain, disk, heights + [h], total, s, sent)
    {
      hide CoderOf, BlockActions, TxPart, Relayed;
      assert (heights + [h])[..|heights|] == heights;
      var signCnt := CheckEvents(chain.blockAt(h), DiskAt(disk, h));
      total := toSign + signCnt;
    }

    lemma StartProgress(chain: Chain, disk: (int, nat) -> Io)
      ensures Progress(this, chain, disk, [], 0, vdb.State(), txchan.values)
    {
    }

    /** The loop over heights. calls gives the outcomes of successive fetches; when they run out
        first, the loop is still going on. */
    method ScanBlocks(newTop: uint32, chain: Chain, calls: seq<bool>, disk: (int, nat) -> Io)
      returns (h: uint32, toSign: nat)
      requires ChainWellFormed(hashKey, chain) && vdb.Valid() && vdb.Unshared() && vdb.lib == lib
      modifies txchan, vdb.db, vdb.txCache`contents, vdb.txCache.l
      ensures vdb.Valid() && h == Reached(Add32(top, 1), newTop, calls)
      ensures h > newTop <==> Finished(Add32(top, 1), newTop, calls)
      ensures Progress(this, chain, disk, Dispatched(Add32(top, 1), newTop, calls), toSign,
                       old(vdb.State()), old(txchan.values))
    {
      hide CoderOf, TxPart, ActionsAt, RelayedAt, ItemsAt, Sum;
      var i := 0;
      toSign, h := 0, Add32(top, 1);
      ghost var s, sent := vdb.State(), txchan.values;
      ghost var heights: seq<uint32> := [];
      StartProgress(chain, disk);
      while h <= newTop && i < |calls|
        invariant i <= |calls| && vdb.Valid()
        invariant heights + Dispatched(h, newTop, calls[i..]) == Dispatched(Add32(top, 1), newTop, calls)
        invariant Reached(h, newTop, calls[i..]) == Reached(Add32(top, 1), newTop, calls)
        invariant Progress(this, chain, disk, heights, toSign, s, sent)
        decreases |calls| - i
      {
        assert calls[i..][1..] == calls[i + 1..];
        if calls[i] {
          toSign := ScanHeight(h, chain, disk, toSign, heights, s, sent);
          heights := heights + [h];
          h := Add32(h, 1);
        }
        i := i + 1;
      }
      assert heights + [] == heights;
    }

    /** One tick of Listen. A tick that has not ended has recorded nothing. */
    method Tick(report: Option<uint32>, chain: Chain, calls: seq<bool>, disk: (int, nat) -> Io, write: WriteOutcome)
      returns (ended: bool)
      requires ChainWellFormed(hashKey, chain) && vdb.Valid() && vdb.Unshared() && vdb.lib == lib
      modifies this, txchan, vdb.db, vdb.txCache`contents, vdb.txCache.l
      ensures vdb.Valid()
      ensures var heights := if report == None || report.value == old(top) then []
                             else Dispatched(Add32(old(top), 1), report.value, calls);
              && txchan.values == old(txchan.values) + ItemsAt(lib, hashKey, chain, heights)
              && vdb.State() == RelayedAt(lib, hashKey, chain, old(vdb.State()), heights, disk)
              && trail == old(trail) + heights
      ensures ended <==> report == None || report.value == old(top)
                         || Finished(Add32(old(top), 1), report.value, calls)
      ensures ended ==>
                var t := if report == None then NoHeight else Height(report.value, calls, write);
                Now() == AfterTick(old(Now()), t, Counts(lib, hashKey, chain), waitingCircle)
      ensures !ended ==> top == old(top) && lastRecorded == old(lastRecorded) && file == old(file)
    {
      hide CoderOf, TxPart, ActionsAt, Dispatched, Reached, AfterWrite, Sum, NeedsRecord;
      if report == None {
        return true;
      }
      var newTop := report.value;
      NothingNewIsEqual(top, newTop);
      if Sub32(newTop, top) <= 0 {
        return true;
      }
      var h, toSign := ScanBlocks(newTop, chain, calls, disk);
      trail := trail + Dispatched(Add32(top, 1), newTop, calls);
      if h <= newTop {
        return false;
      }
      Record(newTop, toSign, write);
      return true;
    }

    /** The end of a tick; a failed write is logged and counts as done. */
    method Record(newTop: uint32, toSign: nat, write: WriteOutcome)
      modifies this`top, this`lastRecorded, this`file
      ensures var records := || toSign > 0
                             || (if newTop >= old(lastRecorded) then newTop - old(lastRecorded) >= waitingCircle
                                 else 0x1_0000_0000 - (old(lastRecorded) - newTop) >= waitingCircle);
              && records == NeedsRecord(toSign, newTop, old(lastRecorded), waitingCircle)
              && top == newTop
              && lastRecorded == (if records then newTop else old(lastRecorded))
              && file == (if records then AfterWrite(old(file), newTop, write) else old(file))
    {
      top := newTop;
      if toSign > 0 || Sub32(top, lastRecorded) >= waitingCircle {
        file := AfterWrite(file, top, write);
        lastRecorded := top;
      }
    }
  }
}
