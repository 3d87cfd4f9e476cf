/** The checkpoint file: a height in decimal, written over the old one and possibly torn. */
module HeightFile {
  import opened Prelude

  // ---------- The library's decimal numbers ----------

  function Digit(d: nat): char
    requires d < 10
  {
    ['0', '1', '2', '3', '4', '5', '6', '7', '8', '9'][d]
  }

  predicate IsDigit(c: char) {
    '0' <= c <= '9'
  }

  function DigitValue(c: char): (d: nat)
    requires IsDigit(c)
    ensures d < 10 && Digit(d) == c
  {
    if c == '0' then 0 else if c == '1' then 1 else if c == '2' then 2 else if c == '3' then 3
    else if c == '4' then 4 else if c == '5' then 5 else if c == '6' then 6 else if c == '7' then 7
    else if c == '8' then 8 else 9
  }

  /** strconv.FormatUint in base 10. */
  function Format(n: nat): (s: string)
    ensures s != "" && forall i :: 0 <= i < |s| ==> IsDigit(s[i])
  {
    if n < 10 then [Digit(n)] else Format(n / 10) + [Digit(n % 10)]
  }

  function Value(s: string): nat
    requires forall i :: 0 <= i < |s| ==> IsDigit(s[i])
  {
    if s == "" then 0 else 10 * Value(s[..|s| - 1]) + DigitValue(s[|s| - 1])
  }

  /** strconv.ParseUint in base 10 for 32 bits: no sign, no blanks, in range. */
  function Parse(s: string): Option<uint32> {
    if s != "" && (forall i :: 0 <= i < |s| ==> IsDigit(s[i])) && Value(s) < TWO_TO_THE_32
    then Some(Value(s)) else None
  }

  // ---------- The file ----------

  predicate Blank(c: char) {
    c == ' ' || c == '\n'
  }

  function TrimLeft(s: string): string {
    if s != "" && Blank(s[0]) then TrimLeft(s[1..]) else s
  }

  function TrimRight(s: string): string {
    if s != "" && Blank(s[|s| - 1]) then TrimRight(s[..|s| - 1]) else s
  }

  /** A file that is missing or does not hold a height counts as height zero. */
  function LastHeight(file: Option<string>): uint32 {
    match file
    case None => 0
    case Some(text) =>
      match Parse(TrimRight(TrimLeft(text)))
      case None => 0
      case Some(h) => h
  }

  // ---------- Reading back ----------

  lemma DigitValueOf(d: nat)
    requires d < 10
    ensures DigitValue(Digit(d)) == d
  {
  }

  lemma {:induction false} ValueOfFormat(n: nat)
    ensures Value(Format(n)) == n
  {
    DigitValueOf(n % 10);
    if n < 10 {
      assert Format(n)[..0] == "";
    } else {
      ValueOfFormat(n / 10);
      assert Format(n)[..|Format(n)| - 1] == Format(n / 10);
    }
  }

  ghost predicate AllBlank(s: string) {
    forall i :: 0 <= i < |s| ==> Blank(s[i])
  }

  lemma {:induction false} TrimLeftBlanks(pre: string, s: string)
    requires AllBlank(pre) && (s != "" ==> !Blank(s[0]))
    ensures TrimLeft(pre + s) == s
  {
    if pre == "" {
      assert pre + s == s;
    } else {
      assert (pre + s)[1..] == pre[1..] + s;
      TrimLeftBlanks(pre[1..], s);
    }
  }

  lemma {:induction false} TrimRightBlanks(s: string, post: string)
    requires AllBlank(post) && (s != "" ==> !Blank(s[|s| - 1]))
    ensures TrimRight(s + post) == s
  {
    if post == "" {
      assert s + post == s;
    } else {
      var n := |post| - 1;
      assert (s + post)[..|s| + n] == s + post[..n];
      TrimRightBlanks(s, post[..n]);
    }
  }

  /** A height reads back as itself, whatever spaces and line ends surround it. */
  lemma HeightReadBack(pre: string, h: uint32, post: string)
    requires forall c :: c in pre + post ==> c in " \n"
    ensures LastHeight(Some(pre + Format(h) + post)) == h
  {
    BlanksAround(pre, post);
    TrimAround(pre, Format(h), post);
    ValueOfFormat(h);
  }

  lemma BlanksAround(pre: string, post: string)
    ensures (forall c :: c in pre + post ==> c in " \n") <==> AllBlank(pre) && AllBlank(post)
  {
    if forall c :: c in pre + post ==> c in " \n" {
      forall i | 0 <= i < |pre| ensures Blank(pre[i]) {
        assert pre[i] in pre + post;
      }
      forall i | 0 <= i < |post| ensures Blank(post[i]) {
        assert post[i] in pre + post;
      }
    }
  }

  lemma TrimAround(pre: string, s: string, post: string)
    requires AllBlank(pre) && AllBlank(post) && s != "" && !Blank(s[0]) && !Blank(s[|s| - 1])
    ensures TrimRight(TrimLeft(pre + s + post)) == s
  {
    assert pre + s + post == pre + (s + post);
    assert (s + post)[0] == s[0];
    TrimLeftBlanks(pre, s + post);
    TrimRightBlanks(s, post);
  }

  /** What is left of a text, and what was cut off. */
  lemma {:induction false} LeftCut(s: string) returns (pre: string)
    ensures s == pre + TrimLeft(s) && AllBlank(pre)
    decreases |s|
  {
    if s != "" && Blank(s[0]) {
      pre := LeftCut(s[1..]);
      pre := [s[0]] + pre;
    } else {
      pre := "";
    }
  }

  lemma {:induction false} RightCut(s: string) returns (post: string)
    ensures s == TrimRight(s) + post && AllBlank(post)
    decreases |s|
  {
    if s != "" && Blank(s[|s| - 1]) {
      post := RightCut(s[..|s| - 1]);
      post := post + [s[|s| - 1]];
    } else {
      post := "";
    }
  }

  /** The text is a decimal number below 2^32 with spaces and line ends around it. */
  ghost predicate Holds(text: string, pre: string, digits: string, post: string) {
    && text == pre + digits + post && (forall c :: c in pre + post ==> c in " \n")
    && digits != "" && (forall i :: 0 <= i < |digits| ==> IsDigit(digits[i])) && Value(digits) < 0x1_0000_0000
  }

  /** A missing file reads as 0, a text that holds a number as that number, and any other as 0. */
  lemma ReadsAs(text: string)
    ensures LastHeight(None) == 0
    ensures forall pre, digits, post :: Holds(text, pre, digits, post) ==> LastHeight(Some(text)) == Value(digits)
    ensures (forall pre, digits, post :: !Holds(text, pre, digits, post)) ==> LastHeight(Some(text)) == 0
  {
    forall pre, digits, post | Holds(text, pre, digits, post) ensures LastHeight(Some(text)) == Value(digits) {
      BlanksAround(pre, post);
      TrimAround(pre, digits, post);
    }
    var pre := LeftCut(text);
    var post := RightCut(TrimLeft(text));
    var digits := TrimRight(TrimLeft(text));
    assert text == pre + (digits + post) == pre + digits + post;
    BlanksAround(pre, post);
    assert Holds(text, pre, digits, post) || LastHeight(Some(text)) == 0;
  }

  // ---------- Torn writes ----------

  /** n without its last j decimal digits. */
  function WithoutDigits(n: nat, j: nat): (r: nat)
    ensures r <= n
  {
    if j == 0 then n else WithoutDigits(n / 10, j - 1)
  }

  lemma {:induction false} ValueOfPrefix(n: nat, k: nat)
    requires k <= |Format(n)|
    ensures Value(Format(n)[..k]) == WithoutDigits(n, |Format(n)| - k)
    decreases n
  {
    var s := Format(n);
    if k == |s| {
      assert s[..k] == s;
      ValueOfFormat(n);
    } else if n >= 10 {
      assert s[..k] == Format(n / 10)[..k];
      ValueOfPrefix(n / 10, k);
    }
  }

  lemma TrimDigits(s: string)
    requires forall i :: 0 <= i < |s| ==> IsDigit(s[i])
    ensures TrimRight(TrimLeft(s)) == s
  {
    assert "" + s == s && s + "" == s;
    TrimLeftBlanks("", s);
    TrimRightBlanks(s, "");
  }

  lemma HeightOfDigits(s: string)
    requires forall i :: 0 <= i < |s| ==> IsDigit(s[i])
    ensures LastHeight(Some(s)) == if s != "" && Value(s) < TWO_TO_THE_32 then Value(s) else 0
  {
    TrimDigits(s);
  }

  /** Whatever prefix of the digits reached the disk, even none, reads back as the height
      without its missing digits, so never as more than the height. */
  lemma TornHeight(h: uint32, k: nat)
    requires k <= |Format(h)|
    ensures LastHeight(Some(Format(h)[..k])) == WithoutDigits(h, |Format(h)| - k) <= h
  {
    ValueOfPrefix(h, k);
    HeightOfDigits(Format(h)[..k]);
  }

  // ---------- Writing ----------

  /** How a write of the file can end: done; refused before the old text is cut; or cut short,
      by an error or a crash, after some of the new text. */
  datatype WriteOutcome = Written | Refused | Torn(kept: nat)

  function AfterWrite(file: Option<string>, h: uint32, w: WriteOutcome): Option<string> {
    match w
    case Written => Some(Format(h))
    case Refused => file
    case Torn(k) => Some(Format(h)[..Min(k, |Format(h)|)])
  }

  /** No write, however it ends, leaves a height above both the old one and the new. */
  lemma AfterWriteBound(file: Option<string>, h: uint32, w: WriteOutcome)
    ensures LastHeight(AfterWrite(file, h, w)) <= Max(LastHeight(file), h)
    ensures w.Written? ==> LastHeight(AfterWrite(file, h, w)) == h
    ensures !w.Refused? ==> LastHeight(AfterWrite(file, h, w)) <= h
    ensures w.Refused? ==> AfterWrite(file, h, w) == file
  {
    match w
    case Written =>
      HeightReadBack("", h, "");
      assert "" + Format(h) + "" == Format(h);
    case Refused =>
    case Torn(k) => TornHeight(h, Min(k, |Format(h)|));
  }
}
