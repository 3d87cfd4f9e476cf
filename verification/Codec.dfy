/** The stored form of an item: length-prefixed, big-endian, nested. Blocks are read with a
    plain Read, which fills what it can, leaves the rest zero and reports only an empty tail. */
module Codec {
  import opened Prelude
  import opened BigEndian
  import opened Wire

  datatype ToSign = ToSign(mtx: MsgTx, amts: seq<uint64>)
  datatype Saved = Saved(item: ToSign, time: Time, done: bool)

  // ---------- The written form ----------

  function AmtBytes(amts: seq<uint64>): (s: Bytes)
    ensures |s| == 8 * |amts|
  {
    if amts == [] then [] else AmtBytes(amts[..|amts| - 1]) + U64Bytes(amts[|amts| - 1])
  }

  function Block(b: Bytes): Bytes {
    U32Bytes(|b|) + b
  }

  function ToSignBytes(lib: Lib, x: ToSign): Bytes {
    Block(lib.encode(x.mtx)) + (U32Bytes(|x.amts|) + AmtBytes(x.amts))
  }

  function BoolByte(b: bool): Bytes {
    if b then [1] else [0]
  }

  function SavedBytes(lib: Lib, x: Saved): Option<Bytes> {
    match lib.encodeTime(x.time)
    case None => None
    case Some(t) => Some(Block(ToSignBytes(lib, x.item)) + (Block(t) + BoolByte(x.done)))
  }

  // ---------- The reading discipline ----------

  /** What Read leaves in a zeroed buffer of n bytes. */
  function Padded(buf: Bytes, i: nat, n: nat): (s: Bytes)
    requires i <= |buf|
    ensures |s| == n
  {
    seq(n, k requires 0 <= k => if i + k < |buf| then buf[i + k] else 0)
  }

  /** A length, read in full, then a block, read short if need be; with the new position. */
  function ReadBlock(buf: Bytes, i: nat): (r: Option<(Bytes, nat)>)
    requires i <= |buf|
    ensures r.Some? ==> r.value.1 <= |buf|
  {
    if i + 4 >= |buf| then None
    else
      var n := U32Of(buf[i..i + 4]);
      Some((Padded(buf, i + 4, n), Min(i + 4 + n, |buf|)))
  }

  function ParseAmts(buf: Bytes, i: nat): Option<seq<uint64>>
    requires i <= |buf|
  {
    if i + 4 > |buf| then None
    else
      var m := U32Of(buf[i..i + 4]);
      if i + 4 + 8 * m > |buf| then None
      else Some(seq(m, k requires 0 <= k < m => U64Of(buf[i + 4 + 8 * k..i + 12 + 8 * k])))
  }

  function ParseToSign(lib: Lib, buf: Bytes): Option<ToSign> {
    match ReadBlock(buf, 0)
    case None => None
    case Some((raw, i)) =>
      match lib.decode(raw)
      case None => None
      case Some(tx) =>
        match ParseAmts(buf, i)
        case None => None
        case Some(amts) => Some(ToSign(tx, amts))
  }

  function ParseSaved(lib: Lib, buf: Bytes): Option<Saved> {
    match ReadBlock(buf, 0)
    case None => None
    case Some((raw, i)) =>
      match ParseToSign(lib, raw)
      case None => None
      case Some(item) =>
        match ReadBlock(buf, i)
        case None => None
        case Some((rawTime, j)) =>
          match lib.decodeTime(rawTime)
          case None => None
          case Some(t) => if j == |buf| then None else Some(Saved(item, t, buf[j] != 0))
  }

  // ---------- What comes back ----------

  lemma {:induction false} AmtBytesAt(amts: seq<uint64>, k: nat)
    requires k < |amts|
    ensures AmtBytes(amts)[8 * k..8 * k + 8] == U64Bytes(amts[k])
  {
    var n := |amts| - 1;
    if k < n {
      AmtBytesAt(amts[..n], k);
      assert AmtBytes(amts)[8 * k..8 * k + 8] == AmtBytes(amts[..n])[8 * k..8 * k + 8];
    }
  }

  /** A written block followed by anything is read back, unless nothing at all follows its length. */
  lemma ReadBlockBack(b: Bytes, rest: Bytes)
    requires |b| < TWO_TO_THE_32 && |b| + |rest| > 0
    ensures ReadBlock(Block(b) + rest, 0) == Some((b, 4 + |b|))
  {
    var buf := Block(b) + rest;
    assert buf[0..4] == U32Bytes(|b|);
    U32RoundTrip(|b|);
    var n: nat := U32Of(buf[0..4]);
    assert n == |b|;
    assert Padded(buf, 4, n) == b;
    assert Min(4 + n, |buf|) == 4 + n;
  }

  lemma ReadBlockShift(pre: Bytes, buf: Bytes)
    ensures ReadBlock(pre + buf, |pre|)
            == match ReadBlock(buf, 0) case None => None case Some((b, i)) => Some((b, |pre| + i))
  {
    if |buf| > 4 {
      assert (pre + buf)[|pre|..|pre| + 4] == buf[0..4];
      var n := U32Of(buf[0..4]);
      assert Padded(pre + buf, |pre| + 4, n) == Padded(buf, 4, n);
    }
  }

  lemma AmtAt(pre: Bytes, body: Bytes, post: Bytes, v: uint64, k: nat)
    requires 8 * k + 8 <= |body| && body[8 * k..8 * k + 8] == U64Bytes(v)
    ensures U64Of((pre + body + post)[|pre| + 8 * k..|pre| + 8 * k + 8]) == v
  {
    SliceOfMiddle(pre, body, post, 8 * k, 8 * k + 8);
    U64RoundTrip(v);
  }

  lemma CountAt(pre: Bytes, n: nat, post: Bytes)
    ensures U32Of((pre + U32Bytes(n) + post)[|pre|..|pre| + 4]) == n % TWO_TO_THE_32
  {
    SliceOfMiddle(pre, U32Bytes(n), post, 0, 4);
    U32RoundTrip(n);
  }

  /** The amounts are read one by one until the count is met or the buffer ends. */
  lemma ParseAmtsIs(buf: Bytes, i: nat, vals: seq<uint64>)
    requires i + 4 <= |buf| && |vals| == U32Of(buf[i..i + 4])
    requires i + 4 + 8 * |vals| <= |buf|
    requires forall k :: 0 <= k < |vals| ==> vals[k] == U64Of(buf[i + 4 + 8 * k..i + 12 + 8 * k])
    ensures ParseAmts(buf, i) == Some(vals)
  {
    assert ParseAmts(buf, i).value == vals;
  }

  lemma ParseAmtsBack(pre: Bytes, amts: seq<uint64>, body: Bytes, post: Bytes)
    requires |body| == 8 * |amts|
    requires forall k :: 0 <= k < |amts| ==> body[8 * k..8 * k + 8] == U64Bytes(amts[k])
    ensures ParseAmts(pre + (U32Bytes(|amts|) + body) + post, |pre|) == Some(amts[..|amts| % TWO_TO_THE_32])
  {
    hide U32Bytes, U64Bytes, U32Of, U64Of, ParseAmts;
    var head, m := pre + U32Bytes(|amts|), |amts| % TWO_TO_THE_32;
    var buf := pre + (U32Bytes(|amts|) + body) + post;
    assert buf == pre + U32Bytes(|amts|) + (body + post) == head + body + post;
    CountAt(pre, |amts|, body + post);
    forall k | 0 <= k < m
      ensures amts[..m][k] == U64Of(buf[|pre| + 4 + 8 * k..|pre| + 12 + 8 * k])
    {
      AmtAt(head, body, post, amts[k], k);
    }
    ParseAmtsIs(buf, |pre|, amts[..m]);
  }

  /** The transaction survives the library codec and fits its length field. */
  ghost predicate TxFits(lib: Lib, tx: MsgTx) {
    lib.decode(lib.encode(tx)) == Some(tx) && |lib.encode(tx)| < TWO_TO_THE_32
  }

  ghost predicate ItemFits(lib: Lib, x: ToSign) {
    TxFits(lib, x.mtx) && |x.amts| < TWO_TO_THE_32
  }

  /** Everything in the record survives its own codec and fits its length field. */
  ghost predicate Storable(lib: Lib, x: Saved) {
    && ItemFits(lib, x.item)
    && |ToSignBytes(lib, x.item)| < TWO_TO_THE_32
    && lib.encodeTime(x.time).Some?
    && |lib.encodeTime(x.time).value| < TWO_TO_THE_32
    && lib.decodeTime(lib.encodeTime(x.time).value) == Some(x.time)
  }

  /** Reading what was written, whatever follows it: the amount count is written modulo 2^32,
      and that many amounts come back, in order. */
  lemma ToSignReadBack(lib: Lib, x: ToSign, suffix: Bytes)
    requires TxFits(lib, x.mtx)
    ensures ParseToSign(lib, ToSignBytes(lib, x) + suffix)
            == Some(ToSign(x.mtx, x.amts[..|x.amts| % TWO_TO_THE_32]))
  {
    var tx, tail := lib.encode(x.mtx), U32Bytes(|x.amts|) + AmtBytes(x.amts);
    var buf := ToSignBytes(lib, x) + suffix;
    assert buf == Block(tx) + (tail + suffix);
    ReadBlockBack(tx, tail + suffix);
    forall k | 0 <= k < |x.amts|
      ensures AmtBytes(x.amts)[8 * k..8 * k + 8] == U64Bytes(x.amts[k])
    {
      AmtBytesAt(x.amts, k);
    }
    ParseAmtsBack(Block(tx), x.amts, AmtBytes(x.amts), suffix);
  }

  /** The round trip holds for exactly the items whose amount count fits 32 bits. */
  lemma ToSignRoundTrip(lib: Lib, x: ToSign, suffix: Bytes)
    requires TxFits(lib, x.mtx)
    ensures ParseToSign(lib, ToSignBytes(lib, x) + suffix) == Some(x) <==> |x.amts| < TWO_TO_THE_32
  {
    hide ParseToSign, ToSignBytes;
    ToSignReadBack(lib, x, suffix);
    if |x.amts| < TWO_TO_THE_32 {
      assert x.amts[..|x.amts|] == x.amts;
    }
  }

  lemma BlockThenByte(pre: Bytes, t: Bytes, last: byte, suffix: Bytes, buf: Bytes)
    requires |t| < TWO_TO_THE_32
    requires buf == pre + (Block(t) + ([last] + suffix))
    ensures ReadBlock(buf, |pre|) == Some((t, |pre| + 4 + |t|))
    ensures |pre| + 4 + |t| < |buf| && buf[|pre| + 4 + |t|] == last
  {
    ReadBlockShift(pre, Block(t) + ([last] + suffix));
    ReadBlockBack(t, [last] + suffix);
    assert buf == (pre + Block(t)) + ([last] + suffix);
  }

  lemma SavedRoundTrip(lib: Lib, x: Saved, suffix: Bytes)
    requires Storable(lib, x)
    ensures SavedBytes(lib, x).Some? && ParseSaved(lib, SavedBytes(lib, x).value + suffix) == Some(x)
  {
    hide ToSignBytes, ParseToSign, ReadBlock;
    var raw, t, last := ToSignBytes(lib, x.item), lib.encodeTime(x.time).value, BoolByte(x.done);
    var buf := SavedBytes(lib, x).value + suffix;
    var rest := Block(t) + (last + suffix);
    assert buf == Block(raw) + rest;
    ReadBlockBack(raw, rest);
    assert ParseToSign(lib, raw) == Some(x.item) by {
      ToSignRoundTrip(lib, x.item, []);
      assert raw + [] == raw;
    }
    BlockThenByte(Block(raw), t, last[0], suffix, buf);
  }

  /** No record's encoding starts another's, so equal bytes mean equal records. */
  lemma SavedPrefixFree(lib: Lib, x: Saved, y: Saved, suffix: Bytes)
    requires Storable(lib, x) && Storable(lib, y)
    requires SavedBytes(lib, y) == Some(SavedBytes(lib, x).value + suffix)
    ensures x == y && suffix == []
  {
    SavedRoundTrip(lib, x, suffix);
    SavedRoundTrip(lib, y, []);
    assert SavedBytes(lib, y).value + [] == SavedBytes(lib, y).value;
  }

  // ---------- The bytes themselves ----------

  /** An item's encoding in its parts: the length of the transaction, most significant byte first, the
      transaction, the number of amounts, and each amount in eight bytes. */
  lemma ToSignParts(lib: Lib, x: ToSign)
    ensures var raw, tx, n := ToSignBytes(lib, x), lib.encode(x.mtx), |x.amts|;
            && |raw| == 8 + |tx| + 8 * n
            && raw[..4] == [|tx| / 0x100_0000 % 256, |tx| / 0x1_0000 % 256, |tx| / 0x100 % 256, |tx| % 256]
            && raw[4..4 + |tx|] == tx
            && raw[4 + |tx|..8 + |tx|] == [n / 0x100_0000 % 256, n / 0x1_0000 % 256, n / 0x100 % 256, n % 256]
            && forall k :: 0 <= k < n ==> raw[8 + |tx| + 8 * k..16 + |tx| + 8 * k] == U64Bytes(x.amts[k])
  {
    hide U32Bytes, U64Bytes;
    var raw, tx, n := ToSignBytes(lib, x), lib.encode(x.mtx), |x.amts|;
    U32BytesAre(|tx|);
    U32BytesAre(n);
    assert raw == U32Bytes(|tx|) + tx + U32Bytes(n) + AmtBytes(x.amts);
    forall k | 0 <= k < n ensures raw[8 + |tx| + 8 * k..16 + |tx| + 8 * k] == U64Bytes(x.amts[k]) {
      AmtBytesAt(x.amts, k);
      assert raw[8 + |tx| + 8 * k..16 + |tx| + 8 * k] == AmtBytes(x.amts)[8 * k..8 * k + 8];
    }
  }

  /** A record's encoding: the length of its item, the item, the length of its time, the time, and
      1 or 0 last. */
  lemma SavedEdges(lib: Lib, x: Saved)
    requires SavedBytes(lib, x).Some?
    ensures var raw, n := SavedBytes(lib, x).value, |ToSignBytes(lib, x.item)|;
            && |raw| == n + |lib.encodeTime(x.time).value| + 9
            && raw[..4] == [n / 0x100_0000 % 256, n / 0x1_0000 % 256, n / 0x100 % 256, n % 256]
            && raw[4..4 + n] == ToSignBytes(lib, x.item)
            && raw[4 + n..8 + n] == U32Bytes(|lib.encodeTime(x.time).value|)
            && raw[8 + n..|raw| - 1] == lib.encodeTime(x.time).value
            && raw[|raw| - 1] == if x.done then 1 else 0
  {
    U32BytesAre(|ToSignBytes(lib, x.item)|);
  }

  /** Any last byte but 0 reads as done. */
  lemma AnyNonzeroIsDone(lib: Lib, x: Saved, last: byte)
    requires Storable(lib, x)
    ensures var raw := SavedBytes(lib, x).value;
            ParseSaved(lib, raw[..|raw| - 1] + [last]) == Some(x.(done := last != 0))
  {
    hide ToSignBytes, ParseToSign, ReadBlock;
    var item, t := ToSignBytes(lib, x.item), lib.encodeTime(x.time).value;
    var raw := SavedBytes(lib, x).value;
    var buf := raw[..|raw| - 1] + [last];
    var rest := Block(t) + ([last] + []);
    assert buf == Block(item) + rest;
    ReadBlockBack(item, rest);
    assert ParseToSign(lib, item) == Some(x.item) by {
      ToSignRoundTrip(lib, x.item, []);
      assert item + [] == item;
    }
    BlockThenByte(Block(item), t, last, [], buf);
  }

  function Zeros(n: nat): (s: Bytes)
    ensures |s| == n && forall i :: 0 <= i < n ==> s[i] == 0
  {
    seq(n, _ => 0)
  }

  /** A block cut short is read as if zeros followed, unless nothing of it is left. */
  lemma ShortBlock(n: uint32, b: Bytes)
    requires |b| <= n
    ensures ReadBlock(U32Bytes(n) + b, 0)
            == if b == [] then None else Some((b + Zeros(n - |b|), 4 + |b|))
  {
    var buf := U32Bytes(n) + b;
    if b != [] {
      assert buf[0..4] == U32Bytes(n);
      U32RoundTrip(n);
      assert Padded(buf, 4, n) == b + Zeros(n - |b|);
    }
  }

  // ---------- Truncated input ----------

  /** Cutting Block(b) + rest leaves a block that cannot be read, a reader with nothing left,
      or the whole block and a cut rest. */
  lemma CutBlock(b: Bytes, rest: Bytes, c: nat)
    requires |b| < TWO_TO_THE_32 && c < |Block(b) + rest|
    ensures var buf := (Block(b) + rest)[..c];
            match ReadBlock(buf, 0)
            case None => c <= 4
            case Some((raw, i)) =>
              || i == c <= 4 + |b|
              || (raw == b && i == 4 + |b| < c && buf == Block(b) + rest[..c - i])
  {
    var buf := (Block(b) + rest)[..c];
    if c > 4 + |b| {
      assert buf == Block(b) + rest[..c - 4 - |b|];
      ReadBlockBack(b, rest[..c - 4 - |b|]);
    } else if c > 4 {
      assert buf[0..4] == U32Bytes(|b|);
      U32RoundTrip(|b|);
    }
  }

  /** A strict prefix never parses, although a short Read is not an error by itself. */
  lemma ToSignTruncated(lib: Lib, x: ToSign, c: nat)
    requires ItemFits(lib, x) && c < |ToSignBytes(lib, x)|
    ensures ParseToSign(lib, ToSignBytes(lib, x)[..c]) == None
  {
    var tx, tail := lib.encode(x.mtx), U32Bytes(|x.amts|) + AmtBytes(x.amts);
    CutBlock(tx, tail, c);
    var buf := ToSignBytes(lib, x)[..c];
    if c >= 8 + |tx| {
      assert buf[4 + |tx|..8 + |tx|] == U32Bytes(|x.amts|);
      U32RoundTrip(|x.amts|);
    }
  }

  lemma SavedTruncated(lib: Lib, x: Saved, c: nat)
    requires Storable(lib, x) && c < |SavedBytes(lib, x).value|
    ensures ParseSaved(lib, SavedBytes(lib, x).value[..c]) == None
  {
    var raw, t, last := ToSignBytes(lib, x.item), lib.encodeTime(x.time).value, BoolByte(x.done);
    var tail := Block(t) + last;
    var buf := SavedBytes(lib, x).value[..c];
    CutBlock(raw, tail, c);
    if c > 4 + |raw| {
      var d := c - 4 - |raw|;
      ReadBlockShift(Block(raw), tail[..d]);
      CutBlock(t, last, d);
    }
  }

  // ---------- The running code ----------

  /** bytes.Reader over a fixed buffer. */
  class Reader {
    const s: Bytes
    var i: nat

    ghost predicate Valid()
      reads this
    {
      i <= |s|
    }

    constructor (buf: Bytes)
      ensures Valid() && s == buf && i == 0
    {
      s, i := buf, 0;
    }

    /** binary.Read of a uint32: all four bytes or an error. */
    method ReadU32() returns (r: Option<uint32>)
      requires Valid()
      modifies this
      ensures Valid()
      ensures r == if old(i) + 4 <= |s| then Some(U32Of(s[old(i)..old(i) + 4])) else None
      ensures r.Some? ==> i == old(i) + 4
    {
      if |s| - i < 4 {
        i := |s|;
        return None;
      }
      i := i + 4;
      return Some(U32Of(s[i - 4..i]));
    }

    method ReadU64() returns (r: Option<uint64>)
      requires Valid()
      modifies this
      ensures Valid()
      ensures r == if old(i) + 8 <= |s| then Some(U64Of(s[old(i)..old(i) + 8])) else None
      ensures r.Some? ==> i == old(i) + 8
    {
      if |s| - i < 8 {
        i := |s|;
        return None;
      }
      i := i + 8;
      return Some(U64Of(s[i - 8..i]));
    }

    /** Reader.Read into a fresh buffer of n bytes: an error only when nothing is left. */
    method Read(n: nat) returns (r: Option<Bytes>)
      requires Valid()
      modifies this
      ensures Valid()
      ensures r == if old(i) < |s| then Some(Padded(s, old(i), n)) else None
      ensures r.Some? ==> i == Min(old(i) + n, |s|)
    {
      if i >= |s| {
        return None;
      }
      r := Some(Padded(s, i, n));
      i := Min(i + n, |s|);
    }

    /** A length and the block after it. */
    method ReadPrefixed() returns (r: Option<Bytes>)
      requires Valid()
      modifies this
      ensures Valid()
      ensures match ReadBlock(s, old(i)) case None => r == None case Some((b, j)) => r == Some(b) && i == j
    {
      var n := ReadU32();
      if n == None {
        return None;
      }
      r := Read(n.value);
    }
  }

  /** A ToSignItem; its transaction is not shared here, see the signer for the shared form. */
  class ToSignItem {
    var mtx: MsgTx
    var amts: seq<uint64>

    constructor (mtx: MsgTx, amts: seq<uint64>)
      ensures Value() == ToSign(mtx, amts)
    {
      this.mtx, this.amts := mtx, amts;
    }

    function Value(): ToSign
      reads this
    {
      ToSign(mtx, amts)
    }

    method Serialize(lib: Lib) returns (buf: Bytes)
      ensures buf == ToSignBytes(lib, Value())
    {
      var tx := lib.encode(mtx);
      buf := U32Bytes(|tx|) + tx + U32Bytes(|amts|);
      ghost var head := buf;
      for k := 0 to |amts|
        invariant buf == head + AmtBytes(amts[..k])
      {
        assert amts[..k + 1][..k] == amts[..k];
        buf := buf + U64Bytes(amts[k]);
      }
      assert amts[..|amts|] == amts;
    }

    /** On an error the fields read before it may already have been replaced. */
    method Deserialize(lib: Lib, buf: Bytes) returns (ok: bool)
      modifies this
      ensures ok <==> ParseToSign(lib, buf).Some?
      ensures ok ==> Value() == ParseToSign(lib, buf).value
      ensures !ok ==> amts == old(amts)
    {
      var r := new Reader(buf);
      var raw := r.ReadPrefixed();
      if raw == None { return false; }
      var tx := lib.decode(raw.value);
      if tx == None { return false; }
      mtx := tx.value;
      ghost var i := r.i;
      var lenAmts := r.ReadU32();
      if lenAmts == None { return false; }
      var vals := [];
      for k := 0 to lenAmts.value
        invariant r.Valid() && r.i == i + 4 + 8 * k
        invariant |vals| == k
        invariant forall j :: 0 <= j < k ==> vals[j] == U64Of(buf[i + 4 + 8 * j..i + 12 + 8 * j])
        invariant mtx == tx.value && amts == old(amts)
      {
        var v := r.ReadU64();
        if v == None { return false; }
        vals := vals + [v.value];
      }
      ParseAmtsIs(buf, i, vals);
      amts := vals;
      return true;
    }
  }

  /** A SavedItem: what the store keeps and the cache shares by reference. */
  class SavedItem {
    var item: ToSign
    var time: Time
    var done: bool

    constructor (item: ToSign, time: Time, done: bool)
      ensures Value() == Saved(item, time, done)
    {
      this.item, this.time, this.done := item, time, done;
    }

    function Value(): Saved
      reads this
    {
      Saved(item, time, done)
    }

    method Serialize(lib: Lib) returns (r: Option<Bytes>)
      ensures r == SavedBytes(lib, Value())
    {
      var inner := new ToSignItem(item.mtx, item.amts);
      var raw := inner.Serialize(lib);
      var buf := U32Bytes(|raw|) + raw;
      var t := lib.encodeTime(time);
      if t == None { return None; }
      buf := buf + U32Bytes(|t.value|);
      buf := buf + t.value;
      buf := buf + BoolByte(done);
      assert buf == Block(raw) + (Block(t.value) + BoolByte(done));
      return Some(buf);
    }

    method Deserialize(lib: Lib, buf: Bytes) returns (ok: bool)
      modifies this
      ensures ok <==> ParseSaved(lib, buf).Some?
      ensures ok ==> Value() == ParseSaved(lib, buf).value
      ensures !ok ==> done == old(done)
    {
      hide ReadBlock, ParseToSign;
      var r := new Reader(buf);
      var raw := r.ReadPrefixed();
      if raw == None { return false; }
      var inner := new ToSignItem(MsgTx(1, [], [], 0), []);
      ok := inner.Deserialize(lib, raw.value);
      if !ok { return; }
      item := inner.Value();
      var rawTime := r.ReadPrefixed();
      if rawTime == None { return false; }
      var t := lib.decodeTime(rawTime.value);
      if t == None { return false; }
      time := t.value;
      if r.i >= |buf| { return false; }
      done := buf[r.i] != 0;
      return true;
    }
  }

  /** An item on its way to the signer, by reference. */
  class SharedItem {
    const mtx: Tx
    const amts: seq<uint64>

    constructor (mtx: Tx, amts: seq<uint64>)
      ensures this.mtx == mtx && this.amts == amts
    {
      this.mtx, this.amts := mtx, amts;
    }

    function Value(): ToSign
      reads mtx.ins
    {
      ToSign(mtx.Value(), amts)
    }
  }
}
