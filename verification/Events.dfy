/** What the observer reads out of a block's events. */
module Events {
  import opened Prelude
  import opened Wire
  import opened Codec

  const SIGNED_TX_KEY := "btcTxToRelay"
  const TO_SIGN_TX_KEY := "makeBtcTx"

  /** One element of a notification's state list. */
  datatype State = Text(text: string) | Amounts(amts: seq<uint64>)

  /** A notification whose states are a list, or are not. */
  datatype Notify = NotList | List(states: seq<State>)

  /** A block's events, each with its notifications. */
  type Block = seq<seq<Notify>>

  /** The elements the observer looks at have the types it asserts; it would panic otherwise. */
  predicate WellFormed(hashKey: string, n: Notify) {
    n.List? ==>
      && |n.states| > 0
      && (n.states[0] == Text(TO_SIGN_TX_KEY) ==>
            && |n.states| > 1 && n.states[1].Text?
            && (n.states[1].text == hashKey ==> |n.states| > 3 && n.states[2].Text? && n.states[3].Amounts?))
      && (n.states[0] == Text(SIGNED_TX_KEY) ==>
            && |n.states| > 5 && n.states[5].Text?
            && (n.states[5].text == hashKey ==> n.states[3].Text?))
  }

  predicate BlockWellFormed(hashKey: string, b: Block) {
    forall i, j :: 0 <= i < |b| && 0 <= j < |b[i]| ==> WellFormed(hashKey, b[i][j])
  }

  /** What one notification asks for. */
  datatype Action = Skip | Sign(item: ToSign) | Relay(key: Bytes)

  function DecodeTx(lib: Lib, text: string): Option<MsgTx> {
    match lib.unhex(text)
    case None => None
    case Some(raw) => lib.decode(raw)
  }

  function ActionOf(lib: Lib, hashKey: string, n: Notify): Action
    requires WellFormed(hashKey, n)
  {
    if n.NotList? then Skip
    else if n.states[0] == Text(TO_SIGN_TX_KEY) && n.states[1].text == hashKey then
      match DecodeTx(lib, n.states[2].text)
      case None => Skip
      case Some(tx) => Sign(ToSign(tx, n.states[3].amts))
    else if n.states[0] == Text(SIGNED_TX_KEY) && n.states[5].text == hashKey then
      match DecodeTx(lib, n.states[3].text)
      case None => Skip
      case Some(tx) => Relay(TxKey(lib, tx))
    else Skip
  }

  /** The actions of one event, in order. */
  function EventActions(lib: Lib, hashKey: string, e: seq<Notify>): (s: seq<Action>)
    requires forall j :: 0 <= j < |e| ==> WellFormed(hashKey, e[j])
    ensures |s| == |e| && forall j :: 0 <= j < |e| ==> s[j] == ActionOf(lib, hashKey, e[j])
  {
    seq(|e|, j requires 0 <= j < |e| => ActionOf(lib, hashKey, e[j]))
  }

  /** The actions of a block, in order. */
  function BlockActions(lib: Lib, hashKey: string, b: Block): seq<Action>
    requires BlockWellFormed(hashKey, b)
  {
    if b == [] then []
    else
      var n := |b| - 1;
      assert forall j :: 0 <= j < |b[n]| ==> WellFormed(hashKey, b[n][j]);
      BlockActions(lib, hashKey, b[..n]) + EventActions(lib, hashKey, b[n])
  }

  /** The items a list of actions sends to the signer. */
  function Items(actions: seq<Action>): seq<ToSign> {
    if actions == [] then []
    else
      var n := |actions| - 1;
      Items(actions[..n]) + if actions[n].Sign? then [actions[n].item] else []
  }

  // ---------- Which events ask for what ----------

  /** The text decodes to this transaction: hexadecimal, then the wire format. */
  ghost predicate Encodes(lib: Lib, text: string, tx: MsgTx) {
    lib.unhex(text).Some? && lib.decode(lib.unhex(text).value) == Some(tx)
  }

  /** An event of the signing kind for this redeem key, with this item. */
  ghost predicate SignsItem(lib: Lib, hashKey: string, n: Notify, x: ToSign) {
    && n.List? && |n.states| > 3
    && n.states[0] == Text("makeBtcTx") && n.states[1] == Text(hashKey)
    && n.states[2].Text? && Encodes(lib, n.states[2].text, x.mtx)
    && n.states[3] == Amounts(x.amts)
  }

  /** An event of the relay kind for this redeem key, holding a transaction with this key. */
  ghost predicate RelaysKey(lib: Lib, hashKey: string, n: Notify, key: Bytes) {
    && n.List? && |n.states| > 5
    && n.states[0] == Text("btcTxToRelay") && n.states[5] == Text(hashKey)
    && n.states[3].Text?
    && exists tx :: Encodes(lib, n.states[3].text, tx) && TxKey(lib, tx) == key
  }

  lemma ActionWhen(lib: Lib, hashKey: string, n: Notify)
    requires WellFormed(hashKey, n)
    ensures forall x :: ActionOf(lib, hashKey, n) == Sign(x) <==> SignsItem(lib, hashKey, n, x)
    ensures forall k :: ActionOf(lib, hashKey, n) == Relay(k) <==> RelaysKey(lib, hashKey, n, k)
  {
    forall k | RelaysKey(lib, hashKey, n, k) ensures ActionOf(lib, hashKey, n) == Relay(k) {
      var tx :| Encodes(lib, n.states[3].text, tx) && TxKey(lib, tx) == k;
      assert DecodeTx(lib, n.states[3].text) == Some(tx);
    }
    forall k | ActionOf(lib, hashKey, n) == Relay(k) ensures RelaysKey(lib, hashKey, n, k) {
      assert Encodes(lib, n.states[3].text, DecodeTx(lib, n.states[3].text).value);
    }
  }

  /** What the observer can look at: anything that is no list; a list that starts with another name,
      or names another redeem key; and the two kinds of event for this one. */
  lemma AlwaysWellFormed(hashKey: string, first: State, key: string, text: string, amts: seq<uint64>, rest: seq<State>)
    ensures WellFormed(hashKey, NotList)
    ensures first != Text("makeBtcTx") && first != Text("btcTxToRelay") ==> WellFormed(hashKey, List([first] + rest))
    ensures key != hashKey ==> WellFormed(hashKey, List([Text("makeBtcTx"), Text(key)] + rest))
    ensures WellFormed(hashKey, List([Text("makeBtcTx"), Text(hashKey), Text(text), Amounts(amts)] + rest))
    ensures key != hashKey ==>
              WellFormed(hashKey, List([Text("btcTxToRelay"), first, first, first, first, Text(key)] + rest))
    ensures WellFormed(hashKey, List([Text("btcTxToRelay"), first, first, Text(text), first, Text(hashKey)] + rest))
  {
  }

  /** How many notifications there are in the first i events. */
  function Before(b: Block, i: nat): nat
    requires i <= |b|
  {
    if i == 0 then 0 else Before(b, i - 1) + |b[i - 1]|
  }

  lemma {:induction false} BeforeInPrefix(b: Block, n: nat, i: nat)
    requires i <= n <= |b|
    ensures Before(b[..n], i) == Before(b, i)
  {
    if i > 0 {
      BeforeInPrefix(b, n, i - 1);
    }
  }

  lemma {:induction false} BlockActionCount(lib: Lib, hashKey: string, b: Block)
    requires BlockWellFormed(hashKey, b)
    ensures |BlockActions(lib, hashKey, b)| == Before(b, |b|)
  {
    if b == [] {
    } else {
      var n := |b| - 1;
      BlockActionCount(lib, hashKey, b[..n]);
      BeforeInPrefix(b, n, n);
    }
  }

  /** The actions of a block are those of its notifications, each in its place. */
  lemma {:induction false} BlockActionAt(lib: Lib, hashKey: string, b: Block, i: nat, j: nat)
    requires BlockWellFormed(hashKey, b) && i < |b| && j < |b[i]|
    ensures Before(b, i) + j < |BlockActions(lib, hashKey, b)| == Before(b, |b|)
    ensures BlockActions(lib, hashKey, b)[Before(b, i) + j] == ActionOf(lib, hashKey, b[i][j])
  {
    hide ActionOf;
    var n := |b| - 1;
    BlockActionCount(lib, hashKey, b);
    BlockActionCount(lib, hashKey, b[..n]);
    BeforeInPrefix(b, n, n);
    var front, last := BlockActions(lib, hashKey, b[..n]), EventActions(lib, hashKey, b[n]);
    assert BlockActions(lib, hashKey, b) == front + last;
    if i < n {
      BlockActionAt(lib, hashKey, b[..n], i, j);
      BeforeInPrefix(b, n, i);
    }
  }

  /** And there are no others. */
  lemma {:induction false} PlaceOfAction(b: Block, p: nat) returns (i: nat, j: nat)
    requires p < Before(b, |b|)
    ensures i < |b| && j < |b[i]| && p == Before(b, i) + j
  {
    var n := |b| - 1;
    if p >= Before(b, n) {
      i, j := n, p - Before(b, n);
    } else {
      BeforeInPrefix(b, n, n);
      i, j := PlaceOfAction(b[..n], p);
      BeforeInPrefix(b, n, i);
    }
  }

  ghost predicate HasSign(lib: Lib, hashKey: string, b: Block, x: ToSign) {
    exists i, j :: 0 <= i < |b| && 0 <= j < |b[i]| && SignsItem(lib, hashKey, b[i][j], x)
  }

  ghost predicate HasRelay(lib: Lib, hashKey: string, b: Block, key: Bytes) {
    exists i, j :: 0 <= i < |b| && 0 <= j < |b[i]| && RelaysKey(lib, hashKey, b[i][j], key)
  }

  lemma ActionFromEvent(lib: Lib, hashKey: string, b: Block, a: Action)
    requires BlockWellFormed(hashKey, b)
    ensures a in BlockActions(lib, hashKey, b) <==>
            exists i, j :: 0 <= i < |b| && 0 <= j < |b[i]| && ActionOf(lib, hashKey, b[i][j]) == a
  {
    hide ActionOf, BlockActions, Before;
    var actions := BlockActions(lib, hashKey, b);
    BlockActionCount(lib, hashKey, b);
    if a in actions {
      var p := IndexOf(actions, a);
      var i, j := PlaceOfAction(b, p);
      BlockActionAt(lib, hashKey, b, i, j);
      assert ActionOf(lib, hashKey, b[i][j]) == a;
    }
    if i, j :| 0 <= i < |b| && 0 <= j < |b[i]| && ActionOf(lib, hashKey, b[i][j]) == a {
      BlockActionAt(lib, hashKey, b, i, j);
      assert actions[Before(b, i) + j] == a;
    }
  }

  /** A block's items to sign are those of its signing events for this redeem key. */
  lemma SignsAreEvents(lib: Lib, hashKey: string, b: Block, x: ToSign)
    requires BlockWellFormed(hashKey, b)
    ensures Sign(x) in BlockActions(lib, hashKey, b) <==> HasSign(lib, hashKey, b, x)
  {
    hide ActionOf, SignsItem, RelaysKey, WellFormed;
    ActionFromEvent(lib, hashKey, b, Sign(x));
    forall i, j | 0 <= i < |b| && 0 <= j < |b[i]|
      ensures ActionOf(lib, hashKey, b[i][j]) == Sign(x) <==> SignsItem(lib, hashKey, b[i][j], x)
    {
      ActionWhen(lib, hashKey, b[i][j]);
    }
  }

  /** Its relay actions are those of its relay events for this redeem key. */
  lemma RelaysAreEvents(lib: Lib, hashKey: string, b: Block, key: Bytes)
    requires BlockWellFormed(hashKey, b)
    ensures Relay(key) in BlockActions(lib, hashKey, b) <==> HasRelay(lib, hashKey, b, key)
  {
    hide ActionOf, SignsItem, RelaysKey, WellFormed;
    ActionFromEvent(lib, hashKey, b, Relay(key));
    forall i, j | 0 <= i < |b| && 0 <= j < |b[i]|
      ensures ActionOf(lib, hashKey, b[i][j]) == Relay(key) <==> RelaysKey(lib, hashKey, b[i][j], key)
    {
      ActionWhen(lib, hashKey, b[i][j]);
    }
  }

  /** The items are those of the signing actions at these places: all of them, once each and in
      order. */
  ghost predicate InPlaces(items: seq<ToSign>, actions: seq<Action>, at: seq<nat>) {
    && |at| == |items|
    && (forall i :: 0 <= i < |at| ==> at[i] < |actions| && actions[at[i]] == Sign(items[i]))
    && (forall i, j :: 0 <= i < j < |at| ==> at[i] < at[j])
    && (forall k :: 0 <= k < |actions| && actions[k].Sign? ==> k in at)
  }

  lemma OneMorePlace(items: seq<ToSign>, actions: seq<Action>, at: seq<nat>, a: Action)
    requires InPlaces(items, actions, at)
    ensures a.Sign? ==> InPlaces(items + [a.item], actions + [a], at + [|actions|])
    ensures !a.Sign? ==> InPlaces(items, actions + [a], at)
  {
    forall k | 0 <= k < |actions + [a]| && (actions + [a])[k].Sign?
      ensures k in at + [|actions|] && (k < |actions| ==> k in at)
    {
      if k < |actions| {
        assert actions[k].Sign? && k in at;
      }
    }
  }

  /** What is sent is what the signing actions ask for. */
  lemma {:induction false} ItemsInOrder(actions: seq<Action>) returns (at: seq<nat>)
    ensures InPlaces(Items(actions), actions, at)
  {
    if actions == [] {
      at := [];
    } else {
      hide InPlaces;
      var n := |actions| - 1;
      at := ItemsInOrder(actions[..n]);
      OneMorePlace(Items(actions[..n]), actions[..n], at, actions[n]);
      assert actions[..n] + [actions[n]] == actions;
      if actions[n].Sign? {
        at := at + [n];
      }
    }
  }
}
