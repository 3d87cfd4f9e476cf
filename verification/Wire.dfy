/** Bitcoin transactions as the tool sees them, the library functions it calls on them,
    and the key under which a transaction is stored: the hash of its script-free form. */
module Wire {
  import opened Prelude

  datatype OutPoint = OutPoint(hash: Bytes, index: uint32)
  datatype TxIn = TxIn(prev: OutPoint, sigScript: Bytes, witnessData: seq<Bytes>, sequence: uint32)
  datatype TxOut = TxOut(value: int, pkScript: Bytes)
  datatype MsgTx = MsgTx(version: int, ins: seq<TxIn>, outs: seq<TxOut>, lockTime: uint32)

  /** An instant; Before compares instants and the encoding below keeps them. */
  type Time = int

  datatype ScriptClass = MultiSigTy | ScriptHashTy | WitnessV0ScriptHashTy | OtherTy

  /** The libraries whose code is not part of this model:
      - encode/decode: MsgTx.BtcEncode and BtcDecode with witness encoding;
      - digest: double SHA-256 of the serialization; TxHash below never shows it a witness;
      - encodeTime/decodeTime: time.Time's GobEncode and GobDecode;
      - unhex: hex.DecodeString;
      - classify: txscript.GetScriptClass;
      - signInput: RawTxInSignature with the signer's key and redeem script, hash type "all";
      - signWitness: RawTxInWitnessSignature, likewise, for the given signed 64-bit amount. */
  datatype Lib = Lib(
    encode: MsgTx -> Bytes,
    decode: Bytes -> Option<MsgTx>,
    digest: MsgTx -> Bytes,
    encodeTime: Time -> Option<Bytes>,
    decodeTime: Bytes -> Option<Time>,
    unhex: string -> Option<Bytes>,
    classify: Bytes -> ScriptClass,
    signInput: (MsgTx, nat) -> Option<Bytes>,
    signWitness: (MsgTx, nat, int) -> Option<Bytes>)

  function Strip(tx: MsgTx): MsgTx {
    tx.(ins := seq(|tx.ins|, i requires 0 <= i < |tx.ins| => tx.ins[i].(sigScript := [])))
  }

  function DropWitness(tx: MsgTx): MsgTx {
    tx.(ins := seq(|tx.ins|, i requires 0 <= i < |tx.ins| => tx.ins[i].(witnessData := [])))
  }

  /** The transaction identifier covers everything but the witnesses (BIP 141). */
  function TxHash(lib: Lib, tx: MsgTx): Bytes {
    lib.digest(DropWitness(tx))
  }

  /** The key of a transaction in the store. */
  function TxKey(lib: Lib, tx: MsgTx): Bytes {
    TxHash(lib, Strip(tx))
  }

  /** Equal but for input scripts and witnesses. */
  ghost predicate SameUnsigned(a: MsgTx, b: MsgTx) {
    && a.version == b.version && a.outs == b.outs && a.lockTime == b.lockTime
    && |a.ins| == |b.ins|
    && forall i :: 0 <= i < |a.ins| ==> a.ins[i].prev == b.ins[i].prev && a.ins[i].sequence == b.ins[i].sequence
  }

  ghost predicate NoCollision(lib: Lib, a: MsgTx, b: MsgTx) {
    lib.digest(a) == lib.digest(b) ==> a == b
  }

  /** Two transactions have the same key exactly when they differ at most in scripts and
      witnesses; only the direction from keys to transactions needs the hash not to collide. */
  lemma KeyAgreement(lib: Lib, a: MsgTx, b: MsgTx)
    ensures SameUnsigned(a, b) ==> TxKey(lib, a) == TxKey(lib, b)
    ensures NoCollision(lib, DropWitness(Strip(a)), DropWitness(Strip(b))) && TxKey(lib, a) == TxKey(lib, b)
            ==> SameUnsigned(a, b)
  {
    var ua, ub := DropWitness(Strip(a)), DropWitness(Strip(b));
    if SameUnsigned(a, b) {
      assert ua.ins == ub.ins;
    } else if ua == ub {
      forall i | 0 <= i < |a.ins|
        ensures a.ins[i].prev == b.ins[i].prev && a.ins[i].sequence == b.ins[i].sequence
      {
        assert ua.ins[i] == ub.ins[i];
      }
    }
  }

  /** Alike in everything a transaction identifier covers: all but the witnesses. */
  ghost predicate SameButWitnesses(a: MsgTx, b: MsgTx) {
    && a.version == b.version && a.outs == b.outs && a.lockTime == b.lockTime
    && |a.ins| == |b.ins|
    && forall i :: 0 <= i < |a.ins| ==>
         && a.ins[i].prev == b.ins[i].prev && a.ins[i].sigScript == b.ins[i].sigScript
         && a.ins[i].sequence == b.ins[i].sequence
  }

  /** Two transactions have the same identifier exactly when they differ at most in witnesses. */
  lemma HashAgreement(lib: Lib, a: MsgTx, b: MsgTx)
    ensures SameButWitnesses(a, b) ==> TxHash(lib, a) == TxHash(lib, b)
    ensures NoCollision(lib, DropWitness(a), DropWitness(b)) && TxHash(lib, a) == TxHash(lib, b)
            ==> SameButWitnesses(a, b)
  {
    var ua, ub := DropWitness(a), DropWitness(b);
    if SameButWitnesses(a, b) {
      assert ua.ins == ub.ins;
    } else if ua == ub {
      forall i | 0 <= i < |a.ins|
        ensures && a.ins[i].prev == b.ins[i].prev && a.ins[i].sigScript == b.ins[i].sigScript
                && a.ins[i].sequence == b.ins[i].sequence
      {
        assert ua.ins[i] == ub.ins[i];
      }
    }
  }

  lemma StripTwice(tx: MsgTx)
    ensures Strip(Strip(tx)) == Strip(tx)
    ensures SameUnsigned(Strip(tx), tx)
  {
    assert Strip(Strip(tx)).ins == Strip(tx).ins;
  }

  /** A decoded transaction, whose input scripts callers clear in place. */
  class Tx {
    const version: int
    const outs: seq<TxOut>
    const lockTime: uint32
    const ins: array<TxIn>

    constructor (tx: MsgTx)
      ensures Value() == tx && fresh(ins)
    {
      version, outs, lockTime := tx.version, tx.outs, tx.lockTime;
      var a := new TxIn[|tx.ins|](i requires 0 <= i < |tx.ins| => tx.ins[i]);
      ins := a;
      new;
      assert ins[..] == tx.ins;
    }

    function Value(): MsgTx
      reads ins
    {
      MsgTx(version, ins[..], outs, lockTime)
    }

    /** The loop both the observer and the signer run before hashing. */
    method ClearScripts()
      modifies ins
      ensures Value() == Strip(old(Value()))
      ensures forall k :: 0 <= k < ins.Length ==> ins[k] == old(ins[k]).(sigScript := [])
    {
      for i := 0 to ins.Length
        invariant forall k :: 0 <= k < i ==> ins[k] == old(ins[k]).(sigScript := [])
        invariant forall k :: i <= k < ins.Length ==> ins[k] == old(ins[k])
      {
        ins[i] := ins[i].(sigScript := []);
      }
      assert ins[..] == Strip(old(Value())).ins;
    }

    method Copy() returns (c: Tx)
      ensures fresh(c) && fresh(c.ins) && c.Value() == Value()
    {
      c := new Tx(MsgTx(version, ins[..], outs, lockTime));
    }
  }
}
