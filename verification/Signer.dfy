/** The signer: one signature per input over the stripped transaction, posting with retry, and
    storing what was posted under the key the observer will look for. */
module Signer {
  import opened Prelude
  import opened Wire
  import opened Codec
  import opened Records
  import opened StoreSpec
  import opened VendorDb

  // ---------- Signatures ----------

  /** What signing one input comes to. */
  datatype InputResult = Signed(sig: Bytes) | Failed | WrongType | NoAmount

  /** Either a signature for every input, or the first input that has none and why; a missing
      amount is a panic. */
  datatype SigsResult = Sigs(sigs: seq<Bytes>) | Stopped(input: nat, why: InputResult)

  /** The conversion int64(amount), which wraps. */
  function Int64(v: uint64): int {
    if v < TWO_TO_THE_64 / 2 then v else v - TWO_TO_THE_64
  }

  /** The scheme is chosen by the input's original script; the signature is over the stripped
      transaction. */
  function SignInput(lib: Lib, x: ToSign, i: nat): InputResult
    requires i < |x.mtx.ins|
  {
    match lib.classify(x.mtx.ins[i].sigScript)
    case MultiSigTy | ScriptHashTy =>
      (match lib.signInput(Strip(x.mtx), i) case None => Failed case Some(sig) => Signed(sig))
    case WitnessV0ScriptHashTy =>
      if i >= |x.amts| then NoAmount
      else (match lib.signWitness(Strip(x.mtx), i, Int64(x.amts[i])) case None => Failed case Some(sig) => Signed(sig))
    case OtherTy => WrongType
  }

  ghost predicate IsSigs(lib: Lib, x: ToSign, r: SigsResult) {
    match r
    case Sigs(sigs) =>
      && |sigs| == |x.mtx.ins|
      && forall i :: 0 <= i < |sigs| ==> SignInput(lib, x, i) == Signed(sigs[i])
    case Stopped(n, why) =>
      && n < |x.mtx.ins|
      && (forall i :: 0 <= i < n ==> SignInput(lib, x, i).Signed?)
      && SignInput(lib, x, n) == why && !why.Signed?
  }

  /** The description leaves nothing open. */
  lemma SigsUnique(lib: Lib, x: ToSign, a: SigsResult, b: SigsResult)
    requires IsSigs(lib, x, a) && IsSigs(lib, x, b)
    ensures a == b
  {
    if a.Stopped? {
      assert SignInput(lib, x, a.input) == a.why;
    }
    if b.Stopped? {
      assert SignInput(lib, x, b.input) == b.why;
    }
    if a.Sigs? && b.Sigs? {
      assert forall i :: 0 <= i < |a.sigs| ==> Signed(a.sigs[i]) == SignInput(lib, x, i) == Signed(b.sigs[i]);
    }
  }

  /** Signing panics exactly when the first input it cannot sign is a witness input beyond the
      amounts; with an amount for every input it never does. */
  lemma PanicsWhen(lib: Lib, x: ToSign, r: SigsResult)
    requires IsSigs(lib, x, r)
    ensures r.Stopped? && r.why == NoAmount <==>
            exists n ::
              && 0 <= n < |x.mtx.ins| && n >= |x.amts|
              && lib.classify(x.mtx.ins[n].sigScript) == WitnessV0ScriptHashTy
              && forall i :: 0 <= i < n ==> SignInput(lib, x, i).Signed?
    ensures |x.amts| >= |x.mtx.ins| ==> !(r.Stopped? && r.why == NoAmount)
  {
    if n :| && 0 <= n < |x.mtx.ins| && n >= |x.amts|
            && lib.classify(x.mtx.ins[n].sigScript) == WitnessV0ScriptHashTy
            && forall i :: 0 <= i < n ==> SignInput(lib, x, i).Signed? {
      var r' := Stopped(n, NoAmount);
      assert IsSigs(lib, x, r');
      SigsUnique(lib, x, r, r');
    }
  }

  /** The smallest such item: one witness input, no amounts. */
  lemma MissingAmountPanics(lib: Lib, x: ToSign)
    requires |x.mtx.ins| == 1 && x.amts == []
    requires lib.classify(x.mtx.ins[0].sigScript) == WitnessV0ScriptHashTy
    ensures IsSigs(lib, x, Stopped(0, NoAmount))
    ensures forall r :: IsSigs(lib, x, r) ==> r == Stopped(0, NoAmount)
  {
    forall r | IsSigs(lib, x, r) ensures r == Stopped(0, NoAmount) {
      SigsUnique(lib, x, r, Stopped(0, NoAmount));
    }
  }

  /** What a witness input's amount is as the library sees it: itself, below 2^63. */
  ghost predicate IsAmount(a: int, v: uint64) {
    (v < 0x8000_0000_0000_0000 ==> a == v) && (v >= 0x8000_0000_0000_0000 ==> a == v - 0x1_0000_0000_0000_0000)
  }

  /** A check of a signature: of a transaction, an input, an amount if there is one. */
  type Check = (MsgTx, nat, Option<int>, Bytes) -> bool

  /** The library's signatures meet it for what they are made for. */
  ghost predicate Meets(lib: Lib, ok: Check) {
    && (forall tx, i :: lib.signInput(tx, i).Some? ==> ok(tx, i, None, lib.signInput(tx, i).value))
    && (forall tx, i, a :: lib.signWitness(tx, i, a).Some? ==> ok(tx, i, Some(a), lib.signWitness(tx, i, a).value))
  }

  /** The signature meets it for the stripped transaction, this input, and the amount of this input
      if it is a witness input. */
  ghost predicate Checks(lib: Lib, x: ToSign, i: nat, ok: Check, sig: Bytes)
    requires i < |x.mtx.ins|
  {
    match lib.classify(x.mtx.ins[i].sigScript)
    case MultiSigTy => ok(Strip(x.mtx), i, None, sig)
    case ScriptHashTy => ok(Strip(x.mtx), i, None, sig)
    case WitnessV0ScriptHashTy =>
      i < |x.amts| && exists a :: IsAmount(a, x.amts[i]) && ok(Strip(x.mtx), i, Some(a), sig)
    case OtherTy => false
  }

  /** Whatever the library's signatures can be checked for, each signature returned is one for its
      own input, and its own amount. */
  lemma SignaturesCheck(lib: Lib, x: ToSign, sigs: seq<Bytes>, ok: Check)
    requires IsSigs(lib, x, Sigs(sigs)) && Meets(lib, ok)
    ensures |sigs| == |x.mtx.ins|
    ensures forall i :: 0 <= i < |sigs| ==> Checks(lib, x, i, ok, sigs[i])
  {
    forall i | 0 <= i < |sigs| ensures Checks(lib, x, i, ok, sigs[i]) {
      assert SignInput(lib, x, i) == Signed(sigs[i]);
      if lib.classify(x.mtx.ins[i].sigScript) == WitnessV0ScriptHashTy {
        assert IsAmount(Int64(x.amts[i]), x.amts[i]);
      }
    }
  }

  /** If the library signs every input of a known kind, and witness inputs have amounts, signing
      stops only at an input of another kind; it gives that or a missing amount as its reason. */
  lemma StopsWhen(lib: Lib, x: ToSign, r: SigsResult)
    requires IsSigs(lib, x, r)
    requires forall tx, i :: lib.signInput(tx, i).Some?
    requires forall tx, i, a :: lib.signWitness(tx, i, a).Some?
    ensures r.Sigs? <==>
            forall i :: 0 <= i < |x.mtx.ins| ==>
              && lib.classify(x.mtx.ins[i].sigScript) != OtherTy
              && (lib.classify(x.mtx.ins[i].sigScript) == WitnessV0ScriptHashTy ==> i < |x.amts|)
    ensures r.Stopped? ==>
            r.why == if lib.classify(x.mtx.ins[r.input].sigScript) == OtherTy then WrongType else NoAmount
  {
    forall i | 0 <= i < |x.mtx.ins|
      ensures SignInput(lib, x, i).Signed? <==>
              && lib.classify(x.mtx.ins[i].sigScript) != OtherTy
              && (lib.classify(x.mtx.ins[i].sigScript) == WitnessV0ScriptHashTy ==> i < |x.amts|)
    {
    }
  }

  // ---------- Keys ----------

  /** What the signer stores for an item received at a time. */
  function ToStore(x: ToSign, now: Time): Saved {
    Saved(ToSign(Strip(x.mtx), x.amts), now, false)
  }

  /** The stored item is the one received, its input scripts gone and nothing else. */
  lemma StoredItemIs(x: ToSign, now: Time)
    ensures var y := ToStore(x, now);
            && y.time == now && !y.done && y.item.amts == x.amts
            && y.item.mtx.version == x.mtx.version && y.item.mtx.outs == x.mtx.outs
            && y.item.mtx.lockTime == x.mtx.lockTime && |y.item.mtx.ins| == |x.mtx.ins|
            && forall i :: 0 <= i < |x.mtx.ins| ==>
                 && y.item.mtx.ins[i].prev == x.mtx.ins[i].prev && y.item.mtx.ins[i].sigScript == []
                 && y.item.mtx.ins[i].witnessData == x.mtx.ins[i].witnessData
                 && y.item.mtx.ins[i].sequence == x.mtx.ins[i].sequence
  {
  }

  /** The key the signer stores under, the hash the cache recomputes, the hash of what decodes
      from disk and the key the observer computes from any transaction with the same unsigned
      part are all the same. */
  lemma KeysAgree(lib: Lib, x: ToSign, now: Time, relayed: MsgTx)
    requires SameUnsigned(x.mtx, relayed)
    ensures KeyOf(CoderOf(lib), ToStore(x, now)) == TxKey(lib, x.mtx) == TxKey(lib, relayed)
    ensures Storable(lib, ToStore(x, now)) ==>
              && SavedBytes(lib, ToStore(x, now)).Some?
              && ParseSaved(lib, SavedBytes(lib, ToStore(x, now)).value).Some?
              && TxHash(lib, ParseSaved(lib, SavedBytes(lib, ToStore(x, now)).value).value.item.mtx)
                 == TxKey(lib, relayed)
  {
    KeyAgreement(lib, x.mtx, relayed);
    if Storable(lib, ToStore(x, now)) {
      SavedIsReadBack(lib, ToStore(x, now));
    }
  }

  // ---------- Posting ----------

  /** How one call of BtcMultiSign ends. */
  datatype Post = Accepted | PostError | Rejected

  /** The first answer that is not a post error; none while the retries go on. */
  function Answer(posts: seq<Post>): Option<Post> {
    if posts == [] then None
    else if posts[0] == PostError then Answer(posts[1..])
    else Some(posts[0])
  }

  /** Post errors are retried as long as they last; the first other answer counts. */
  lemma {:induction false} AnswerAfterErrors(errors: nat, p: Post, rest: seq<Post>)
    requires p != PostError
    ensures Answer(seq(errors, _ => PostError)) == None
    ensures Answer(seq(errors, _ => PostError) + [p] + rest) == Some(p)
  {
    var posts := seq(errors, _ => PostError);
    if errors == 0 {
      assert posts + [p] + rest == [p] + rest;
    } else {
      AnswerAfterErrors(errors - 1, p, rest);
      assert posts[1..] == seq(errors - 1, _ => PostError);
      assert (posts + [p] + rest)[1..] == posts[1..] + [p] + rest;
    }
  }

  /** How the handling of one item ends; a missing amount is a panic, which ends the process. */
  datatype Handled = Dropped(r: SigsResult) | Panicked(input: nat) | Retrying | Refused | Stored

  class Signer {
    const lib: Lib
    const vdb: VendorDB

    constructor (lib: Lib, vdb: VendorDB)
      ensures this.lib == lib && this.vdb == vdb
    {
      this.lib, this.vdb := lib, vdb;
    }

    /** Whatever the result, every script of the item is cleared and nothing else changed. */
    method GetSigs(item: SharedItem) returns (r: SigsResult)
      modifies item.mtx.ins
      ensures item.Value() == ToSign(Strip(old(item.Value().mtx)), item.amts)
      ensures IsSigs(lib, old(item.Value()), r)
    {
      ghost var x := item.Value();
      var ins := item.mtx.ins;
      var pkScripts := new Bytes[ins.Length](_ => []);
      for i := 0 to ins.Length
        invariant forall k :: 0 <= k < i ==> pkScripts[k] == x.mtx.ins[k].sigScript
        invariant forall k :: 0 <= k < i ==> ins[k] == x.mtx.ins[k].(sigScript := [])
        invariant forall k :: i <= k < ins.Length ==> ins[k] == x.mtx.ins[k]
      {
        pkScripts[i] := ins[i].sigScript;
        ins[i] := ins[i].(sigScript := []);
      }
      assert item.mtx.Value() == Strip(x.mtx) by {
        assert ins[..] == Strip(x.mtx).ins;
      }
      var sigs := [];
      for i := 0 to pkScripts.Length
        invariant |sigs| == i && item.mtx.Value() == Strip(x.mtx)
        invariant forall k :: 0 <= k < pkScripts.Length ==> pkScripts[k] == x.mtx.ins[k].sigScript
        invariant forall k :: 0 <= k < i ==> SignInput(lib, x, k) == Signed(sigs[k])
      {
        var sig: Option<Bytes>;
        match lib.classify(pkScripts[i]) {
          case MultiSigTy | ScriptHashTy =>
            sig := lib.signInput(item.mtx.Value(), i);
          case WitnessV0ScriptHashTy =>
            if i >= |item.amts| {
              return Stopped(i, NoAmount);
            }
            sig := lib.signWitness(item.mtx.Value(), i, Int64(item.amts[i]));
          case OtherTy =>
            return Stopped(i, WrongType);
        }
        if sig == None {
          return Stopped(i, Failed);
        }
        sigs := sigs + [sig.value];
      }
      return Sigs(sigs);
    }

    /** One item received from the channel. The hash posted is the one before the scripts are
        cleared; the key stored under is the one after. */
    method Handle(item: SharedItem, posts: seq<Post>, now: Time, io: Io)
      returns (h: Handled, posted: Option<(Bytes, seq<Bytes>)>)
      requires vdb.Valid() && vdb.lib == lib
      modifies item.mtx.ins, vdb.db, vdb.txCache
      ensures vdb.Valid() && (old(vdb.Unshared()) ==> vdb.Unshared())
      ensures item.Value() == ToSign(Strip(old(item.Value().mtx)), item.amts)
      ensures h.Dropped? ==>
                IsSigs(lib, old(item.Value()), h.r) && h.r.Stopped? && h.r.why != NoAmount && posted == None
      ensures h.Panicked? ==> IsSigs(lib, old(item.Value()), Stopped(h.input, NoAmount)) && posted == None
      ensures !h.Dropped? && !h.Panicked? ==>
                && posted.Some? && posted.value.0 == TxHash(lib, old(item.Value().mtx))
                && IsSigs(lib, old(item.Value()), Sigs(posted.value.1))
                && Answer(posts) ==
                   match h case Retrying => None case Refused => Some(Rejected) case _ => Some(Accepted)
      ensures vdb.State() ==
              if h.Stored? then PutStep(CoderOf(lib), old(vdb.State()), TxKey(lib, old(item.Value().mtx)),
                                        ToStore(old(item.Value()), now), io)
              else old(vdb.State())
    {
      hide CoderOf, TxPart, CounterPart, PutStep, ListPush, Shows, Distinct, DiskOk, Inserts, Absent;
      ghost var x := item.Value();
      var txHash := TxHash(lib, item.mtx.Value());
      var sigs := GetSigs(item);
      if sigs.Stopped? {
        return if sigs.why == NoAmount then Panicked(sigs.input) else Dropped(sigs), None;
      }
      posted := Some((txHash, sigs.sigs));
      var i := 0;
      while i < |posts| && posts[i] == PostError
        invariant i <= |posts| && Answer(posts[i..]) == Answer(posts)
      {
        assert posts[i..][1..] == posts[i + 1..];
        i := i + 1;
      }
      if i == |posts| {
        return Retrying, posted;
      }
      if posts[i] == Rejected {
        return Refused, posted;
      }
      var mtx := item.mtx.Copy();
      mtx.ClearScripts();
      StripTwice(x.mtx);
      var key := TxHash(lib, mtx.Value());
      var saved := new SavedItem(ToSign(item.mtx.Value(), item.amts), now, false);
      var ok := vdb.PutSignedTx(key, saved, io);
      return Stored, posted;
    }
  }
}
