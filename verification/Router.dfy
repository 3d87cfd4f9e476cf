/** The REST router: compiling ":name" patterns into capture groups one replacement at a time,
    matching, and handing back the parameters. */
module Router {
  import opened Prelude

  // ---------- Patterns ----------

  /** The class \w of Go's regular expressions. */
  predicate IsWord(c: char) {
    '0' <= c <= '9' || 'A' <= c <= 'Z' || 'a' <= c <= 'z' || c == '_'
  }

  function WordLen(s: string): (n: nat)
    ensures n <= |s|
    ensures forall i :: 0 <= i < n ==> IsWord(s[i])
    ensures n < |s| ==> !IsWord(s[n])
  {
    if s != "" && IsWord(s[0]) then 1 + WordLen(s[1..]) else 0
  }

  predicate ParamAt(s: string, i: nat) {
    i + 1 < |s| && s[i] == ':' && IsWord(s[i + 1])
  }

  /** Where the first match of :(\w+) begins, or the end. */
  function FirstParam(s: string): (i: nat)
    ensures i <= |s|
    ensures i < |s| ==> ParamAt(s, i)
    ensures forall p :: 0 <= p < i ==> !ParamAt(s, p)
  {
    if s == "" || ParamAt(s, 0) then 0
    else
      var i := 1 + FirstParam(s[1..]);
      assert forall p {:trigger ParamAt(s, p)} :: 1 <= p < i ==> (ParamAt(s, p) <==> ParamAt(s[1..], p - 1));
      i
  }

  predicate Word(s: string) {
    s != "" && forall i :: 0 <= i < |s| ==> IsWord(s[i])
  }

  /** No colon followed by a word character. */
  predicate Clean(s: string) {
    forall i :: 0 <= i < |s| ==> !ParamAt(s, i)
  }

  lemma CleanPrefix(s: string, i: nat)
    requires i <= |s| && forall k :: 0 <= k < i ==> !ParamAt(s, k)
    ensures Clean(s[..i])
  {
    forall k | 0 <= k < i ensures !ParamAt(s[..i], k) {
      assert !ParamAt(s, k);
    }
  }

  /** The text around the first parameter: what precedes it, its name, what follows. */
  function Split(s: string): (r: Option<(string, string, string)>)
    ensures match r
            case None => Clean(s)
            case Some((lit, name, rest)) =>
              && s == lit + ([':'] + name) + rest && |rest| < |s|
              && Clean(lit) && Word(name) && (rest != "" ==> !IsWord(rest[0]))
  {
    var i := FirstParam(s);
    CleanPrefix(s, i);
    if i == |s| then
      assert s[..i] == s;
      None
    else
      var tail := s[i + 1..];
      var n := WordLen(tail);
      assert tail[0] == s[i + 1];
      assert s == s[..i] + ([':'] + tail[..n]) + tail[n..];
      Some((s[..i], tail[..n], tail[n..]))
  }

  /** Text put together from a literal, a parameter and what follows it is split there. */
  lemma SplitIs(lit: string, name: string, rest: string)
    requires Clean(lit) && Word(name) && (rest != "" ==> !IsWord(rest[0]))
    ensures Split(lit + ([':'] + name) + rest) == Some((lit, name, rest))
  {
    var s, i := lit + ([':'] + name) + rest, |lit|;
    forall k | 0 <= k < i ensures !ParamAt(s, k) {
      if k + 1 < i {
        assert !ParamAt(lit, k);
      } else {
        assert s[k + 1] == ':';
      }
    }
    assert ParamAt(s, i);
    assert FirstParam(s) == i;
    var tail := s[i + 1..];
    assert tail == name + rest && s[..i] == lit;
    assert tail[..|name|] == name && tail[|name|..] == rest;
    assert WordLen(tail) == |name|;
  }

  /** Literal text and named parameters, in turn. */
  datatype Pattern = End(lit: string) | Param(lit: string, name: string, rest: Pattern)

  function ParsePattern(s: string): Pattern
    decreases |s|
  {
    match Split(s)
    case None => End(s)
    case Some((lit, name, rest)) => Param(lit, name, ParsePattern(rest))
  }

  function Text(p: Pattern): string {
    match p
    case End(lit) => lit
    case Param(lit, name, rest) => lit + ([':'] + name) + Text(rest)
  }

  function Names(p: Pattern): seq<string> {
    match p
    case End(_) => []
    case Param(_, name, rest) => [name] + Names(rest)
  }

  const GROUP := ['(', '\\', 'w', '+', ')']

  /** The pattern with a capture group in place of each parameter. */
  function Rendered(p: Pattern): string {
    match p
    case End(lit) => lit
    case Param(lit, _, rest) => lit + GROUP + Rendered(rest)
  }

  /** What the parser guarantees: names are words as long as can be, and no parameter hides in a
      literal. */
  predicate Parsed(p: Pattern) {
    Clean(p.lit) && (p.Param? ==> Word(p.name) && (p.rest.lit != "" ==> !IsWord(p.rest.lit[0])) && Parsed(p.rest))
  }

  lemma LiteralStart(s: string)
    requires s != "" ==> !IsWord(s[0])
    ensures ParsePattern(s).lit != "" ==> !IsWord(ParsePattern(s).lit[0])
  {
    hide Split;
  }

  lemma {:induction false} ParseIsParsed(s: string)
    ensures Text(ParsePattern(s)) == s && Parsed(ParsePattern(s))
    decreases |s|
  {
    hide Split;
    match Split(s)
    case None =>
    case Some((lit, name, rest)) =>
      ParseIsParsed(rest);
      LiteralStart(rest);
  }

  // ---------- The replacement loop ----------

  predicate OccursAt(s: string, old': string, i: nat) {
    i + |old'| <= |s| && s[i..i + |old'|] == old'
  }

  /** strings.Replace with a count of one. */
  function ReplaceFirst(s: string, old': string, new': string, from: nat): string
    requires from <= |s|
    decreases |s| - from
  {
    if OccursAt(s, old', from) then s[..from] + new' + s[from + |old'|..]
    else if from == |s| then s
    else ReplaceFirst(s, old', new', from + 1)
  }

  lemma {:induction false} ReplaceFirstIs(s: string, old': string, new': string, from: nat, i: nat)
    requires from <= i <= |s| && OccursAt(s, old', i)
    requires forall k :: from <= k < i ==> !OccursAt(s, old', k)
    ensures ReplaceFirst(s, old', new', from) == s[..i] + new' + s[i + |old'|..]
    decreases i - from
  {
    if from < i {
      ReplaceFirstIs(s, old', new', from + 1, i);
    }
  }

  lemma OccursIsParam(s: string, name: string, k: nat)
    requires name != "" && IsWord(name[0])
    ensures OccursAt(s, [':'] + name, k) ==> ParamAt(s, k)
  {
    if OccursAt(s, [':'] + name, k) {
      var v := s[k..k + |name| + 1];
      assert v[0] == s[k] && v[1] == s[k + 1];
    }
  }

  /** Before the next parameter nothing looks like it, so it is what is replaced. */
  lemma ReplacesNext(done: string, lit: string, name: string, rest: string)
    requires Clean(done + lit) && name != "" && IsWord(name[0])
    ensures ReplaceFirst(done + (lit + ([':'] + name) + rest), [':'] + name, GROUP, 0) == (done + lit + GROUP) + rest
  {
    var s, i, v := done + (lit + ([':'] + name) + rest), |done + lit|, [':'] + name;
    assert s == (done + lit) + v + rest;
    SliceOfMiddle(done + lit, v, rest, 0, |v|);
    assert OccursAt(s, v, i);
    forall k | 0 <= k < i ensures !OccursAt(s, v, k) {
      if k + 1 < i {
        assert !ParamAt(done + lit, k);
      } else {
        assert s[k + 1] == ':';
      }
      OccursIsParam(s, name, k);
    }
    ReplaceFirstIs(s, v, GROUP, 0, i);
    assert s[..i] == done + lit && s[i + |v|..] == rest;
  }

  lemma CleanAfterGroup(done: string, lit: string)
    requires Clean(done) && (done != "" ==> done[|done| - 1] != ':')
    requires Clean(lit)
    ensures Clean(done + lit)
    ensures Clean(done + lit + GROUP)
  {
    var a, b := done + lit, done + lit + GROUP;
    forall i | 0 <= i < |a| ensures !ParamAt(a, i) {
      if i >= |done| {
        assert !ParamAt(lit, i - |done|);
      } else {
        assert !ParamAt(done, i);
      }
    }
    forall i | 0 <= i < |b| ensures !ParamAt(b, i) {
      if i < |a| {
        assert !ParamAt(a, i);
        assert b[i + 1] == if i + 1 < |a| then a[i + 1] else '(';
      } else {
        assert b[i] == GROUP[i - |a|];
      }
    }
  }

  /** One parameter of a pattern, taken apart. */
  lemma ParamParts(p: Pattern)
    requires p.Param? && Parsed(p)
    ensures Text(p) == p.lit + ([':'] + p.name) + Text(p.rest)
    ensures Names(p) == [p.name] + Names(p.rest)
    ensures Rendered(p) == p.lit + GROUP + Rendered(p.rest)
    ensures Word(p.name) && Parsed(p.rest) && Clean(p.lit)
  {
  }

  lemma EndParts(p: Pattern)
    ensures p.End? <==> Names(p) == []
    ensures p.End? ==> Text(p) == Rendered(p) == p.lit
  {
  }

  /** One turn of the loop of add. */
  lemma ReplaceStep(done: string, p: Pattern)
    requires p.Param? && Parsed(p)
    requires Clean(done) && (done != "" ==> done[|done| - 1] != ':')
    ensures var done' := done + p.lit + GROUP;
            && ReplaceFirst(done + Text(p), [':'] + p.name, GROUP, 0) == done' + Text(p.rest)
            && Clean(done') && done'[|done'| - 1] != ':'
            && done' + Rendered(p.rest) == done + Rendered(p)
  {
    hide Text, Rendered, Names, Parsed, ReplaceFirst;
    ParamParts(p);
    CleanAfterGroup(done, p.lit);
    ReplacesNext(done, p.lit, p.name, Text(p.rest));
  }

  /** The loop of add on the anchored path: for every path, each parameter becomes a group and
      the names are recorded in order. */
  method ReplaceParams(path: string) returns (text: string, params: seq<string>)
    ensures text == Rendered(ParsePattern(path)) && params == Names(ParsePattern(path))
  {
    hide Text, Rendered, Names, Parsed, ReplaceFirst, ParsePattern, Clean;
    var names := FindNames(path);
    text, params := path, [];
    ghost var done, rest := "", ParsePattern(path);
    ParseIsParsed(path);
    assert Clean("") by { CleanEmpty(); }
    for k := 0 to |names|
      invariant params == names[..k] && names[k..] == Names(rest) && Parsed(rest)
      invariant text == done + Text(rest)
      invariant Clean(done) && (done != "" ==> done[|done| - 1] != ':')
      invariant done + Rendered(rest) == Rendered(ParsePattern(path))
    {
      EndParts(rest);
      ParamParts(rest);
      ReplaceStep(done, rest);
      assert names[k] == rest.name;
      text := ReplaceFirst(text, [':'] + names[k], GROUP, 0);
      params := params + [names[k]];
      done, rest := done + rest.lit + GROUP, rest.rest;
      assert names[k + 1..] == names[k..][1..];
    }
    EndParts(rest);
    assert names[..|names|] == names;
  }

  lemma CleanEmpty()
    ensures Clean("")
  {
  }

  lemma NamesStep(s: string)
    ensures Names(ParsePattern(s))
            == match Split(s) case None => [] case Some((_, name, rest)) => [name] + Names(ParsePattern(rest))
  {
    hide Split;
  }

  /** FindAllStringSubmatch of :(\w+), keeping the group. */
  method FindNames(path: string) returns (names: seq<string>)
    ensures names == Names(ParsePattern(path))
  {
    hide Names, ParsePattern, Split;
    names := [];
    var s := path;
    while true
      invariant names + Names(ParsePattern(s)) == Names(ParsePattern(path))
      decreases |s|
    {
      NamesStep(s);
      match Split(s) {
        case None =>
          return;
        case Some((_, name, rest)) =>
          names, s := names + [name], rest;
      }
    }
  }

  // ---------- The anchors ----------

  function WithEnd(p: Pattern): Pattern {
    match p
    case End(lit) => End(lit + ['$'])
    case Param(lit, name, rest) => Param(lit, name, WithEnd(rest))
  }

  /** The pattern of "^" + path + "$". */
  function Anchored(p: Pattern): Pattern {
    match WithEnd(p)
    case End(lit) => End(['^'] + lit)
    case Param(lit, name, rest) => Param(['^'] + lit, name, rest)
  }

  lemma {:induction false} FirstParamWithEnd(s: string)
    ensures FirstParam(s + ['$']) == if FirstParam(s) < |s| then FirstParam(s) else |s| + 1
    decreases |s|
  {
    var t := s + ['$'];
    if s == "" {
      assert t[1..] == "";
    } else {
      assert ParamAt(t, 0) <==> ParamAt(s, 0);
      assert t[1..] == s[1..] + ['$'];
      FirstParamWithEnd(s[1..]);
    }
  }

  lemma {:induction false} WordLenWithEnd(s: string)
    ensures WordLen(s + ['$']) == WordLen(s)
    decreases |s|
  {
    if s != "" {
      assert (s + ['$'])[1..] == s[1..] + ['$'];
      WordLenWithEnd(s[1..]);
    }
  }

  lemma SplitWithEnd(s: string)
    ensures Split(s + ['$'])
            == match Split(s) case None => None case Some((lit, name, rest)) => Some((lit, name, rest + ['$']))
  {
    hide FirstParam, WordLen;
    FirstParamWithEnd(s);
    var t, i := s + ['$'], FirstParam(s);
    if i < |s| {
      var tail := s[i + 1..];
      var n := WordLen(tail);
      assert t[..i] == s[..i] && t[i + 1..] == tail + ['$'];
      WordLenWithEnd(tail);
      assert (tail + ['$'])[..n] == tail[..n] && (tail + ['$'])[n..] == tail[n..] + ['$'];
    }
  }

  lemma FirstParamWithStart(s: string)
    ensures FirstParam(['^'] + s) == FirstParam(s) + 1
  {
    var t := ['^'] + s;
    assert !ParamAt(t, 0) && t[1..] == s;
  }

  lemma SplitWithStart(s: string)
    ensures Split(['^'] + s)
            == match Split(s) case None => None case Some((lit, name, rest)) => Some((['^'] + lit, name, rest))
  {
    hide FirstParam, WordLen, ParamAt, IsWord, Clean, Word;
    FirstParamWithStart(s);
    var t, i := ['^'] + s, FirstParam(s);
    if i < |s| {
      assert t[..i + 1] == ['^'] + s[..i] && t[i + 2..] == s[i + 1..];
    }
  }

  lemma {:induction false} ParseWithEnd(s: string)
    ensures ParsePattern(s + ['$']) == WithEnd(ParsePattern(s))
    decreases |s|
  {
    hide Split;
    SplitWithEnd(s);
    match Split(s)
    case None =>
    case Some((_, _, rest)) => ParseWithEnd(rest);
  }

  lemma ParseAnchored(path: string)
    ensures ParsePattern(['^'] + (path + ['$'])) == Anchored(ParsePattern(path))
  {
    hide Split;
    ParseWithEnd(path);
    SplitWithStart(path + ['$']);
  }

  lemma {:induction false} RenderedWithEnd(p: Pattern)
    ensures Rendered(WithEnd(p)) == Rendered(p) + ['$'] && Names(WithEnd(p)) == Names(p)
  {
    if p.Param? {
      RenderedWithEnd(p.rest);
    }
  }

  lemma RenderedAnchored(p: Pattern)
    ensures Rendered(Anchored(p)) == ['^'] + Rendered(p) + ['$'] && Names(Anchored(p)) == Names(p)
  {
    RenderedWithEnd(p);
    match WithEnd(p)
    case End(lit) =>
    case Param(lit, _, rest) => assert ['^'] + (lit + GROUP + Rendered(rest)) == ['^'] + lit + GROUP + Rendered(rest);
  }

  // ---------- The part of regular expressions the router uses ----------

  predicate Meta(c: char) {
    c in ['\\', '.', '+', '*', '?', '(', ')', '|', '[', ']', '{', '}', '^', '$']
  }

  datatype Tok = Char(c: char) | Group

  function CompileBody(body: string): Option<seq<Tok>> {
    if body == "" then Some([])
    else if GROUP <= body then
      (match CompileBody(body[|GROUP|..]) case None => None case Some(ts) => Some([Group] + ts))
    else if Meta(body[0]) then None
    else (match CompileBody(body[1..]) case None => None case Some(ts) => Some([Char(body[0])] + ts))
  }

  /** An anchored expression of plain characters and word groups, taken apart; None for any other. */
  function Compile(text: string): Option<seq<Tok>> {
    if |text| >= 2 && text[0] == '^' && text[|text| - 1] == '$' then CompileBody(text[1..|text| - 1]) else None
  }

  function Groups(ts: seq<Tok>): nat {
    if ts == [] then 0 else (if ts[0] == Group then 1 else 0) + Groups(ts[1..])
  }

  /** A full match, with captures: a group takes as many word characters as it can, and gives
      some back only if the rest does not match. */
  function Match(ts: seq<Tok>, s: string): (r: Option<seq<string>>)
    ensures r.Some? ==> |r.value| == Groups(ts)
    decreases |ts|, 0
  {
    if ts == [] then (if s == "" then Some([]) else None)
    else
      match ts[0]
      case Char(c) => if s != "" && s[0] == c then Match(ts[1..], s[1..]) else None
      case Group => TryGroup(ts[1..], s, WordLen(s))
  }

  function TryGroup(ts: seq<Tok>, s: string, k: nat): (r: Option<seq<string>>)
    requires k <= |s|
    ensures r.Some? ==> |r.value| == 1 + Groups(ts)
    decreases |ts|, k + 1
  {
    if k == 0 then None
    else
      match Match(ts, s[k..])
      case Some(caps) => Some([s[..k]] + caps)
      case None => TryGroup(ts, s, k - 1)
  }

  // ---------- Patterns and their fillings ----------

  function Chars(lit: string): (ts: seq<Tok>)
    ensures |ts| == |lit|
  {
    seq(|lit|, i requires 0 <= i < |lit| => Char(lit[i]))
  }

  function Toks(p: Pattern): seq<Tok> {
    match p
    case End(lit) => Chars(lit)
    case Param(lit, _, rest) => Chars(lit) + ([Group] + Toks(rest))
  }

  predicate PlainText(lit: string) {
    forall i :: 0 <= i < |lit| ==> !Meta(lit[i])
  }

  predicate Plain(p: Pattern) {
    PlainText(p.lit) && (p.Param? ==> Plain(p.rest))
  }

  lemma {:induction false} CompileText(lit: string, rest: string)
    requires PlainText(lit)
    ensures CompileBody(lit + rest)
            == match CompileBody(rest) case None => None case Some(ts) => Some(Chars(lit) + ts)
    decreases |lit|
  {
    if lit == "" {
      assert lit + rest == rest;
      assert forall ts: seq<Tok> :: Chars(lit) + ts == ts;
    } else {
      var s := lit + rest;
      assert s[0] == lit[0] && Meta('(');
      assert s[1..] == lit[1..] + rest;
      CompileText(lit[1..], rest);
      assert Chars(lit) == [Char(lit[0])] + Chars(lit[1..]);
      assert forall ts: seq<Tok> :: [Char(lit[0])] + (Chars(lit[1..]) + ts) == Chars(lit) + ts;
    }
  }

  lemma {:induction false} CompileRendered(p: Pattern)
    requires Plain(p)
    ensures CompileBody(Rendered(p)) == Some(Toks(p))
  {
    match p
    case End(lit) =>
      CompileText(lit, "");
      assert lit + "" == lit && Chars(lit) + [] == Chars(lit);
    case Param(lit, _, rest) =>
      CompileRendered(rest);
      var body := GROUP + Rendered(rest);
      assert body[|GROUP|..] == Rendered(rest);
      assert lit + GROUP + Rendered(rest) == lit + body;
      CompileText(lit, body);
  }

  // ---------- Matching what was filled in ----------

  function Fill(p: Pattern, vals: seq<string>): string
    requires |vals| == |Names(p)|
  {
    match p
    case End(lit) => lit
    case Param(lit, _, rest) => lit + (vals[0] + Fill(rest, vals[1..]))
  }

  predicate Words(vals: seq<string>) {
    forall i :: 0 <= i < |vals| ==> Word(vals[i])
  }

  /** No parameter directly follows another. */
  predicate Separated(p: Pattern) {
    p.Param? ==> (p.rest.Param? ==> p.rest.lit != "") && Separated(p.rest)
  }

  lemma {:induction false} MatchText(lit: string, ts: seq<Tok>, s: string)
    ensures Match(Chars(lit) + ts, lit + s) == Match(ts, s)
    decreases |lit|
  {
    if lit == "" {
      assert Chars(lit) + ts == ts && lit + s == s;
    } else {
      var all := Chars(lit) + ts;
      assert all[0] == Char(lit[0]) && all[1..] == Chars(lit[1..]) + ts;
      assert (lit + s)[1..] == lit[1..] + s;
      MatchText(lit[1..], ts, s);
    }
  }

  lemma {:induction false} WordLenOf(v: string, s: string)
    requires forall i :: 0 <= i < |v| ==> IsWord(v[i])
    ensures WordLen(v + s) >= |v|
    ensures s == "" || !IsWord(s[0]) ==> WordLen(v + s) == |v|
    decreases |v|
  {
    if v == "" {
      assert v + s == s;
    } else {
      assert (v + s)[1..] == v[1..] + s;
      WordLenOf(v[1..], s);
    }
  }

  /** A group takes at least as much as would do. */
  lemma {:induction false} TakesAtLeast(ts: seq<Tok>, s: string, most: nat, k: nat)
    requires 0 < k <= most <= |s| && Match(ts, s[k..]).Some?
    ensures TryGroup(ts, s, most).Some? && |TryGroup(ts, s, most).value[0]| >= k
    decreases most
  {
    if most > k && Match(ts, s[most..]).None? {
      TakesAtLeast(ts, s, most - 1, k);
    }
  }

  lemma {:induction false} TakesNothing(ts: seq<Tok>, s: string, most: nat)
    requires most <= |s| && forall k :: 0 < k <= most ==> Match(ts, s[k..]).None?
    ensures TryGroup(ts, s, most).None?
    decreases most
  {
    if most > 0 {
      assert Match(ts, s[most..]).None?;
      TakesNothing(ts, s, most - 1);
    }
  }

  /** A group before something that cannot start with a word character takes exactly the word. */
  lemma TakesWord(ts: seq<Tok>, v: string, s: string)
    requires Word(v)
    requires if ts == [] then s == "" else ts[0].Char? && !IsWord(ts[0].c) && s != "" && s[0] == ts[0].c
    ensures Match([Group] + ts, v + s)
            == match Match(ts, s) case None => None case Some(caps) => Some([v] + caps)
  {
    hide WordLen;
    var all := v + s;
    WordLenOf(v, s);
    assert ([Group] + ts)[1..] == ts;
    assert all[|v|..] == s && all[..|v|] == v;
    forall k | 0 < k <= |v| - 1 ensures Match(ts, all[k..]).None? {
      assert all[k..][0] == v[k];
    }
    TakesNothing(ts, all, |v| - 1);
  }

  lemma FillStart(p: Pattern, vals: seq<string>)
    requires |vals| == |Names(p)| && Words(vals)
    ensures p.lit != "" ==>
              && Toks(p) != [] && Fill(p, vals) != ""
              && Toks(p)[0] == Char(p.lit[0]) && Fill(p, vals)[0] == p.lit[0]
    ensures p == End("") ==> Toks(p) == [] && Fill(p, vals) == ""
  {
  }

  /** A separated parameter is recovered, and the rest is matched on its own. */
  lemma MatchParam(p: Pattern, vals: seq<string>)
    requires p.Param? && Parsed(p) && (p.rest.Param? ==> p.rest.lit != "")
    requires |vals| == |Names(p)| && Words(vals)
    ensures Match(Toks(p), Fill(p, vals))
            == match Match(Toks(p.rest), Fill(p.rest, vals[1..]))
               case None => None case Some(caps) => Some([vals[0]] + caps)
  {
    hide Match;
    var ts, s := Toks(p.rest), Fill(p.rest, vals[1..]);
    MatchText(p.lit, [Group] + ts, vals[0] + s);
    FillStart(p.rest, vals[1..]);
    TakesWord(ts, vals[0], s);
  }

  /** Filling a separated pattern with words and matching gives the words back. */
  lemma {:induction false} MatchFill(p: Pattern, vals: seq<string>)
    requires Parsed(p) && Separated(p) && |vals| == |Names(p)| && Words(vals)
    ensures Match(Toks(p), Fill(p, vals)) == Some(vals)
    decreases p
  {
    hide Match;
    match p
    case End(lit) => MatchEnd(lit);
    case Param(lit, _, rest) =>
      MatchParam(p, vals);
      MatchFill(rest, vals[1..]);
      assert [vals[0]] + vals[1..] == vals;
  }

  lemma MatchEnd(lit: string)
    ensures Match(Chars(lit), lit) == Some([])
  {
    MatchText(lit, [], "");
    assert Chars(lit) + [] == Chars(lit) && lit + "" == lit;
  }

  /** Any filling of any pattern is matched somehow. */
  lemma {:induction false} MatchSome(p: Pattern, vals: seq<string>)
    requires |vals| == |Names(p)| && Words(vals)
    ensures Match(Toks(p), Fill(p, vals)).Some?
    decreases p
  {
    match p
    case End(lit) => MatchEnd(lit);
    case Param(lit, _, rest) =>
      MatchSome(rest, vals[1..]);
      GroupSome(Toks(rest), vals[0], Fill(rest, vals[1..]));
      MatchText(lit, [Group] + Toks(rest), vals[0] + Fill(rest, vals[1..]));
  }

  lemma GroupSome(ts: seq<Tok>, v: string, s: string)
    requires Word(v) && Match(ts, s).Some?
    ensures Match([Group] + ts, v + s).Some? && |Match([Group] + ts, v + s).value[0]| >= |v|
  {
    hide WordLen;
    WordLenOf(v, s);
    assert ([Group] + ts)[1..] == ts && (v + s)[|v|..] == s;
    TakesAtLeast(ts, v + s, WordLen(v + s), |v|);
  }

  // ---------- Adjacent parameters ----------

  function Ones(n: nat): (vals: seq<string>)
    ensures |vals| == n && Words(vals)
  {
    seq(n, _ => "a")
  }

  /** A filling that is not recovered: the first of two adjacent parameters takes what belongs
      to the second. */
  function Clash(p: Pattern): (vals: seq<string>)
    requires !Separated(p)
    ensures |vals| == |Names(p)| && Words(vals)
  {
    if p.rest.Param? && p.rest.lit == "" then ["a", "aa"] + Ones(|Names(p.rest.rest)|)
    else ["a"] + Clash(p.rest)
  }

  lemma {:induction false} ClashLost(p: Pattern)
    requires Parsed(p) && !Separated(p)
    ensures Match(Toks(p), Fill(p, Clash(p))) != Some(Clash(p))
    decreases p
  {
    var vals := Clash(p);
    if p.rest.Param? && p.rest.lit == "" {
      AdjacentLost(p, vals);
    } else {
      MatchParam(p, vals);
      assert vals[1..] == Clash(p.rest);
      ClashLost(p.rest);
      assert [vals[0]] + vals[1..] == vals;
    }
  }

  lemma AdjacentLost(p: Pattern, vals: seq<string>)
    requires p.Param? && p.rest.Param? && p.rest.lit == ""
    requires vals == ["a", "aa"] + Ones(|Names(p.rest.rest)|)
    ensures Match(Toks(p), Fill(p, vals)) != Some(vals)
  {
    hide Match;
    var last, ones := p.rest.rest, Ones(|Names(p.rest.rest)|);
    var ts, s := Toks(last), Fill(last, ones);
    assert vals[1..] == ["aa"] + ones && vals[1..][1..] == ones;
    assert Toks(p.rest) == [Group] + ts && Fill(p.rest, vals[1..]) == "aa" + s;
    MatchSome(last, ones);
    GroupSome(ts, "a", s);
    GroupSome([Group] + ts, "aa", "a" + s);
    assert "a" + ("aa" + s) == "aa" + ("a" + s);
    MatchText(p.lit, [Group] + ([Group] + ts), "a" + ("aa" + s));
  }

  // ---------- Parameters by name ----------

  /** The loop of parseParams: a later value replaces an earlier one of the same name. */
  function ParamsOf(names: seq<string>, vals: seq<string>): map<string, string>
    requires |names| == |vals|
  {
    if names == [] then map[]
    else
      var n := |names| - 1;
      ParamsOf(names[..n], vals[..n])[names[n] := vals[n]]
  }

  predicate DistinctNames(names: seq<string>) {
    forall i, j :: 0 <= i < j < |names| ==> names[i] != names[j]
  }

  predicate Recovers(m: map<string, string>, names: seq<string>, vals: seq<string>)
    requires |names| == |vals|
  {
    m.Keys == (set n | n in names) && forall i :: 0 <= i < |names| ==> names[i] in m && m[names[i]] == vals[i]
  }

  lemma {:induction false} ParamsRecover(names: seq<string>, vals: seq<string>)
    requires |names| == |vals| && DistinctNames(names)
    ensures Recovers(ParamsOf(names, vals), names, vals)
  {
    if names != [] {
      var n := |names| - 1;
      ParamsRecover(names[..n], vals[..n]);
      assert names == names[..n] + [names[n]];
    }
  }

  /** The parameters of a path under a route's expression, if it matches. */
  function ParseParams(names: seq<string>, ts: seq<Tok>, path: string): Option<map<string, string>>
    requires |names| == Groups(ts)
  {
    match Match(ts, path)
    case None => None
    case Some(caps) => Some(ParamsOf(names, caps))
  }

  lemma {:induction false} GroupsOfText(lit: string, ts: seq<Tok>)
    ensures Groups(Chars(lit) + ts) == Groups(ts)
    decreases |lit|
  {
    if lit == "" {
      assert Chars(lit) + ts == ts;
    } else {
      assert (Chars(lit) + ts)[1..] == Chars(lit[1..]) + ts;
      GroupsOfText(lit[1..], ts);
    }
  }

  lemma {:induction false} GroupsOfToks(p: Pattern)
    ensures Groups(Toks(p)) == |Names(p)|
  {
    match p
    case End(lit) =>
      GroupsOfText(lit, []);
      assert Chars(lit) + [] == Chars(lit);
    case Param(lit, _, rest) =>
      GroupsOfToks(rest);
      GroupsOfText(lit, [Group] + Toks(rest));
      assert ([Group] + Toks(rest))[1..] == Toks(rest);
  }

  /** The filled path gives the values back under their names. */
  ghost predicate GivesBack(p: Pattern, vals: seq<string>)
    requires |vals| == |Names(p)|
  {
    GroupsOfToks(p);
    var r := ParseParams(Names(p), Toks(p), Fill(p, vals));
    r.Some? && Recovers(r.value, Names(p), vals)
  }

  lemma DistinctGiveBack(p: Pattern, vals: seq<string>)
    requires Parsed(p) && DistinctNames(Names(p)) && |vals| == |Names(p)| && Words(vals)
    ensures GivesBack(p, vals) <==> Match(Toks(p), Fill(p, vals)) == Some(vals)
  {
    hide Match;
    GroupsOfToks(p);
    MatchSome(p, vals);
    var caps := Match(Toks(p), Fill(p, vals)).value;
    var names := Names(p);
    ParamsRecover(names, caps);
    if Recovers(ParamsOf(names, caps), names, vals) {
      assert forall i :: 0 <= i < |vals| ==> caps[i] == ParamsOf(names, caps)[names[i]] == vals[i];
      assert caps == vals;
    }
  }

  /** Two parameters of one name cannot both be given back. */
  lemma DuplicateLost(p: Pattern, i: nat, j: nat)
    requires i < j < |Names(p)| && Names(p)[i] == Names(p)[j]
    ensures var vals := Ones(|Names(p)|)[j := "b"]; Words(vals) && !GivesBack(p, vals)
  {
    hide Match, ParamsOf;
    var vals := Ones(|Names(p)|)[j := "b"];
    assert vals[i] != vals[j];
  }

  /** Every filling of a pattern with words is given back, under every name, exactly when the
      names are distinct and no parameter directly follows another. PlainRoute shows that for
      plain literals this is what the router hands out. */
  lemma ParametersComeBack(path: string)
    ensures var p := ParsePattern(path);
            (forall vals :: |vals| == |Names(p)| && Words(vals) ==> GivesBack(p, vals))
            <==> DistinctNames(Names(p)) && Separated(p)
  {
    hide Match, ParsePattern, GivesBack;
    var p := ParsePattern(path);
    ParseIsParsed(path);
    if DistinctNames(Names(p)) {
      if Separated(p) {
        forall vals | |vals| == |Names(p)| && Words(vals) ensures GivesBack(p, vals) {
          DistinctGiveBack(p, vals);
          MatchFill(p, vals);
        }
      } else {
        DistinctGiveBack(p, Clash(p));
        ClashLost(p);
      }
    } else {
      var i, j :| 0 <= i < j < |Names(p)| && Names(p)[i] == Names(p)[j];
      DuplicateLost(p, i, j);
    }
  }

  // ---------- The library's regular expressions ----------

  /** regexp.Compile and, for an expression that compiles, the captures of its first match. */
  datatype Regexps = Regexps(compiles: string -> bool, find: (string, string) -> Option<seq<string>>)

  /** On anchored expressions of plain characters and word groups the library does what Compile
      and Match describe; of all others nothing is assumed. */
  ghost predicate WordGroups(lib: Regexps) {
    forall text :: Compile(text).Some? ==>
      lib.compiles(text) && forall path :: lib.find(text, path) == Match(Compile(text).value, path)
  }

  /** The expression of a pattern. */
  function Expression(p: Pattern): string {
    ['^'] + Rendered(p) + ['$']
  }

  /** What parseParams makes of the captures; a capture without a name is an index panic. It is
      not asked when the route has no parameters. */
  function ParamsFrom(names: seq<string>, caps: seq<string>): Option<map<string, string>> {
    if names == [] then Some(map[])
    else if |caps| > |names| then None
    else Some(ParamsOf(names[..|caps|], caps))
  }

  /** For plain literals a route of the pattern compiles, has one capture for each parameter, and
      hands out what ParametersComeBack is about. */
  lemma PlainRoute(lib: Regexps, p: Pattern, path: string)
    requires WordGroups(lib) && Plain(p)
    ensures lib.compiles(Expression(p)) && |Names(p)| == Groups(Toks(p))
    ensures (match lib.find(Expression(p), path)
             case None => None
             case Some(caps) => ParamsFrom(Names(p), caps)) == ParseParams(Names(p), Toks(p), path)
  {
    hide Match, Toks, Names, Rendered, ParamsOf, CompileBody;
    GroupsOfToks(p);
    CompileRendered(p);
    var text := Expression(p);
    assert text[1..|text| - 1] == Rendered(p);
    assert Compile(text) == Some(Toks(p));
    assert lib.find(text, path) == Match(Toks(p), path);
    if lib.find(text, path).Some? {
      NoNames(lib.find(text, path).value);
      assert Names(p)[..|Names(p)|] == Names(p);
    }
  }

  /** Captures are handed out under the names in their order: with distinct names every capture
      under its own, no name besides, and a panic exactly if there are more captures than names. */
  lemma ParamsFromIs(names: seq<string>, caps: seq<string>)
    requires names != [] && DistinctNames(names)
    ensures match ParamsFrom(names, caps)
            case None => |caps| > |names|
            case Some(m) =>
              && |caps| <= |names|
              && m.Keys == (set i | 0 <= i < |caps| :: names[i])
              && forall i :: 0 <= i < |caps| ==> m[names[i]] == caps[i]
  {
    if |caps| <= |names| {
      ParamsRecover(names[..|caps|], caps);
      var m := ParamsOf(names[..|caps|], caps);
      assert forall i :: 0 <= i < |caps| ==> names[..|caps|][i] == names[i];
      forall n ensures n in m.Keys <==> n in (set i | 0 <= i < |caps| :: names[i]) {
        assert n in m.Keys <==> n in names[..|caps|];
      }
    }
  }

  /** Plain text has none of these characters, and outside a word group none of them is compiled
      here: what the library makes of them stays open. */
  lemma OutsideModel(c: char, rest: string)
    requires c in "\\.+*?()|[]{}^$" && !(GROUP <= [c] + rest)
    ensures !PlainText([c] + rest) && CompileBody([c] + rest) == None
  {
    assert Meta(c) && ([c] + rest)[0] == c;
  }

  /** Where the word characters begin and end, and a pattern in full. */
  lemma OnePattern()
    ensures (forall c :: c in "09AZ_az" ==> IsWord(c)) && forall c :: c in "/:@[^`{-.%$ " ==> !IsWord(c)
    ensures var p := ParsePattern("/tx/:id_1/raw"); Expression(p) == "^/tx/(\\w+)/raw$" && Names(p) == ["id_1"]
  {
    hide Split, ParamAt, Clean;
    var s := "/tx/:id_1/raw";
    assert s == "/tx/" + ([':'] + "id_1") + "/raw";
    NoColon("/tx/");
    NoColon("/raw");
    SplitIs("/tx/", "id_1", "/raw");
    SplitClean("/raw");
    assert ParsePattern(s) == Param("/tx/", "id_1", End("/raw"));
  }

  lemma NoColon(s: string)
    requires ':' !in s
    ensures Clean(s)
  {
  }

  lemma SplitClean(s: string)
    ensures Split(s).None? <==> Clean(s)
  {
  }

  lemma NoNames(caps: seq<string>)
    ensures caps == [] ==> ParamsOf([], caps) == map[]
  {
  }

  // ---------- Routes ----------

  datatype Route<H> = Route(httpMethod: string, path: string, params: seq<string>, handler: H)

  datatype Answer<H> = Found(handler: H, params: map<string, string>) | NotFound | Panic

  class Router<H> {
    const lib: Regexps
    var routes: seq<Route<H>>

    constructor (lib: Regexps)
      ensures this.lib == lib && routes == []
    {
      this.lib, routes := lib, [];
    }

    /** The route gets one group for each parameter, with the names in order; an expression that
        does not compile is a panic and adds nothing. */
    method Add(httpMethod: string, path: string, handler: H) returns (panics: bool)
      modifies this
      ensures var p := ParsePattern(path);
              && panics == !lib.compiles(Expression(p))
              && routes == if panics then old(routes)
                           else old(routes) + [Route(httpMethod, Expression(p), Names(p), handler)]
    {
      hide ParsePattern, Rendered, Names, Anchored;
      var text, params := ReplaceParams(['^'] + (path + ['$']));
      ParseAnchored(path);
      RenderedAnchored(ParsePattern(path));
      if !lib.compiles(text) {
        return true;
      }
      routes := routes + [Route(httpMethod, text, params, handler)];
      return false;
    }

    /** The first route of this method whose expression matches, at, answers with its parameters, or
        panics in collecting them; no route of another method is asked. */
    method Try(path: string, httpMethod: string) returns (r: Answer<H>, ghost at: nat)
      ensures at <= |routes|
      ensures forall k :: 0 <= k < at && routes[k].httpMethod == httpMethod ==> lib.find(routes[k].path, path) == None
      ensures at < |routes| ==> routes[at].httpMethod == httpMethod && lib.find(routes[at].path, path).Some?
      ensures r == if at == |routes| then NotFound
                   else
                     match ParamsFrom(routes[at].params, lib.find(routes[at].path, path).value)
                     case None => Panic
                     case Some(params) => Found(routes[at].handler, params)
    {
      hide ParamsOf;
      for i := 0 to |routes|
        invariant forall k :: 0 <= k < i && routes[k].httpMethod == httpMethod ==>
                    lib.find(routes[k].path, path) == None
      {
        var route := routes[i];
        if route.httpMethod == httpMethod {
          var m := lib.find(route.path, path);
          if m != None {
            if route.params == [] {
              return Found(route.handler, map[]), i;
            }
            if |m.value| > |route.params| {
              return Panic, i;
            }
            var params := ParamsByLoop(route.params, m.value);
            return Found(route.handler, params), i;
          }
        }
      }
      return NotFound, |routes|;
    }

    method ParamsByLoop(names: seq<string>, vals: seq<string>) returns (params: map<string, string>)
      requires |vals| <= |names|
      ensures params == ParamsOf(names[..|vals|], vals)
    {
      params := map[];
      for k := 0 to |vals|
        invariant params == ParamsOf(names[..k], vals[..k])
      {
        assert names[..k + 1][..k] == names[..k] && vals[..k + 1][..k] == vals[..k];
        params := params[names[k] := vals[k]];
      }
      assert vals[..|vals|] == vals;
    }
  }
}
