/**
 * Which clauses ask for FIPS, which name the reserved property, and where a query is cut into clauses: the
 * scanners of `PropertyQuery`, read as grammars.
 */
module PropertyGrammar {
  import opened Bytes
  import opened PropertyQuery

  // ---------------------------------------------------------------- letters in either case

  lemma EqualInEitherCase(value: string, expected: string)
    ensures AsciiEqual(value, expected) <==> InEitherCase(value, expected)
  {
  }

  // ---------------------------------------------------------------- the FIPS clause

  /** The pieces of a clause that asks for FIPS; `quote` is the kind of quote around the value, if any. */
  datatype FipsParts = FipsParts(
    lead: string, optional: bool, afterMark: string, name: string, beforeOp: string, afterOp: string,
    quote: Quote, value: string, closed: bool, trail: string)

  /** Blanks anywhere between the tokens, letters in either case; only a quote can be left unclosed. */
  predicate FipsPartsOk(p: FipsParts) {
    && Blank(p.lead) && Blank(p.afterMark) && Blank(p.beforeOp) && Blank(p.afterOp) && Blank(p.trail)
    && (!p.optional ==> p.afterMark == "")
    && AsciiEqual(p.name, "fips") && AsciiEqual(p.value, "yes")
  }

  function FipsValue(p: FipsParts): string {
    match p.quote
    case None => p.value
    case Some(q) => [q] + (p.value + if p.closed then [q] else "")
  }

  function FipsOperand(p: FipsParts): string {
    p.beforeOp + ("=" + (p.afterOp + FipsValue(p)))
  }

  function FipsBody(p: FipsParts): string {
    p.name + FipsOperand(p)
  }

  function FipsCore(p: FipsParts): string {
    if p.optional then "?" + (p.afterMark + FipsBody(p)) else FipsBody(p)
  }

  function FipsText(p: FipsParts): string {
    p.lead + (FipsCore(p) + p.trail)
  }

  // ---------------------------------------------------------------- every such text asks

  lemma FipsIsNoBlank(name: string)
    requires AsciiEqual(name, "fips")
    ensures |name| == 4 && forall i :: 0 <= i < 4 ==> IsNameChar(name[i]) && !IsSpace(name[i])
  {
    assert forall i :: 0 <= i < 4 ==> IsNameChar("fips"[i]) && Lower(name[i]) == Lower("fips"[i]);
  }

  lemma YesHasNoQuote(value: string)
    requires AsciiEqual(value, "yes")
    ensures |value| == 3 && forall i :: 0 <= i < 3 ==> !IsSpace(value[i]) && value[i] != '\'' && value[i] != '"'
  {
    assert forall i :: 0 <= i < 3 ==> !IsSpace("yes"[i]) && Lower(value[i]) == Lower("yes"[i]);
    assert forall i :: 0 <= i < 3 ==> "yes"[i] != '\'' && "yes"[i] != '"';
  }

  lemma {:induction false} QuotedLengthIs(value: string, rest: string, q: char)
    requires q !in value && (rest != "" ==> rest[0] == q)
    ensures QuotedLength(value + rest, q) == |value|
  {
    if value == "" {
      assert value + rest == rest;
    } else {
      assert (value + rest)[1..] == value[1..] + rest && (value + rest)[0] == value[0];
      QuotedLengthIs(value[1..], rest, q);
    }
  }

  lemma QuotedYesIsYes(value: string, q: char, closed: bool)
    requires AsciiEqual(value, "yes") && (q == '\'' || q == '"')
    ensures IsQuotedYes(value + if closed then [q] else "", q)
  {
    YesHasNoQuote(value);
    var rest := if closed then [q] else "";
    QuotedLengthIs(value, rest, q);
    assert (value + rest)[3..] == rest && DropFirst(rest) == "";
  }

  lemma OperandIsYes(p: FipsParts)
    requires FipsPartsOk(p)
    ensures IsYesValue(FipsOperand(p))
  {
    hide IsQuotedYes, AsciiEqual;
    var x := FipsValue(p);
    var rest := "=" + (p.afterOp + x);
    SkipToNothing(p.beforeOp);
    SkipConcat(p.beforeOp, rest);
    assert rest[0] == '=' && rest[1..] == p.afterOp + x && SkipSpaces(rest) == rest;
    YesHasNoQuote(p.value);
    SkipToNothing(p.afterOp);
    SkipConcat(p.afterOp, x);
    assert SkipSpaces(x) == x;
    if p.quote.Some? {
      QuotedYesIsYes(p.value, p.quote.value, p.closed);
      assert x[1..] == p.value + if p.closed then [p.quote.value] else "";
    } else {
      BareYesIsYes(p.value);
    }
  }

  lemma BareYesIsYes(value: string)
    requires AsciiEqual(value, "yes")
    ensures IsBareYes(value)
  {
    YesHasNoQuote(value);
    WordLengthIs(value);
  }

  lemma FipsCoreEnds(p: FipsParts)
    requires FipsPartsOk(p)
    ensures FipsCore(p) != "" && !IsSpace(FipsCore(p)[0]) && !IsSpace(FipsCore(p)[|FipsCore(p)| - 1])
    ensures FipsBody(p) != "" && IsNameChar(FipsBody(p)[0]) && !IsSpace(FipsBody(p)[0])
  {
    FipsIsNoBlank(p.name);
    YesHasNoQuote(p.value);
    var x := FipsValue(p);
    assert !IsSpace(x[|x| - 1]);
    var core := FipsCore(p);
    assert core[|core| - 1] == x[|x| - 1];
  }

  lemma FipsBodyAsks(p: FipsParts)
    requires FipsPartsOk(p)
    ensures var u := FipsBody(p);
      u != "" && u[0] != '-' && IsYesValue(u[NameLength(u)..]) && AsciiEqual(u[..NameLength(u)], "fips")
  {
    hide IsYesValue;
    FipsIsNoBlank(p.name);
    assert FipsOperand(p)[0] == if p.beforeOp == "" then '=' else p.beforeOp[0];
    NameLengthIs(p.name, FipsOperand(p));
    var u := FipsBody(p);
    assert u[..|p.name|] == p.name && u[|p.name|..] == FipsOperand(p);
    OperandIsYes(p);
  }

  lemma PartsAsk(p: FipsParts)
    requires FipsPartsOk(p)
    ensures ClauseFips(FipsText(p))
  {
    hide IsYesValue, FipsBody, AsciiEqual, NameLength;
    var core := FipsCore(p);
    FipsCoreEnds(p);
    SkipToNothing(p.lead);
    SkipConcat(p.lead, core + p.trail);
    assert (core + p.trail)[0] == core[0] && SkipSpaces(core + p.trail) == core + p.trail;
    TrimBlank(core, p.trail);
    if p.optional {
      assert core[1..] == p.afterMark + FipsBody(p);
      SkipToNothing(p.afterMark);
      SkipConcat(p.afterMark, FipsBody(p));
      assert SkipSpaces(FipsBody(p)) == FipsBody(p);
    } else {
      assert core[0] != '?';
    }
    assert AfterMark(core) == FipsBody(p);
    FipsBodyAsks(p);
  }

  // ---------------------------------------------------------------- whatever asks is such a text

  lemma ValueParts(x: string) returns (quote: Quote, value: string, closed: bool, rest: string)
    requires if x != "" && (x[0] == '\'' || x[0] == '"') then IsQuotedYes(x[1..], x[0]) else IsBareYes(x)
    ensures AsciiEqual(value, "yes") && Blank(rest)
    ensures x == (match quote case None => value case Some(q) => [q] + (value + if closed then [q] else "")) + rest
  {
    hide AsciiEqual;
    if x != "" && (x[0] == '\'' || x[0] == '"') {
      hide IsQuotedYes, IsBareYes, Blank;
      quote, value, closed, rest := QuotedParts(x[1..], x[0]);
      QuotedJoins(x, value + if closed then [x[0]] else "", rest);
    } else {
      value, rest := BareParts(x);
      quote, closed := None, false;
    }
  }

  lemma QuotedJoins(x: string, quoted: string, rest: string)
    requires x != "" && x[1..] == quoted + rest
    ensures x == ([x[0]] + quoted) + rest
  {
  }

  lemma BareParts(x: string) returns (value: string, rest: string)
    requires IsBareYes(x)
    ensures AsciiEqual(value, "yes") && Blank(rest) && x == value + rest
  {
    hide AsciiEqual;
    var n := WordLength(x);
    value, rest := x[..n], x[n..];
    SkipToNothing(rest);
  }

  lemma QuotedParts(y: string, q: char) returns (quote: Quote, value: string, closed: bool, rest: string)
    requires (q == '\'' || q == '"') && IsQuotedYes(y, q)
    ensures quote == Some(q) && AsciiEqual(value, "yes") && Blank(rest)
    ensures y == (value + if closed then [q] else "") + rest
  {
    hide AsciiEqual;
    var n := QuotedLength(y, q);
    quote, value, closed, rest := Some(q), y[..n], n < |y|, DropFirst(y[n..]);
    SkipToNothing(rest);
    QuotedEnds(y, q);
    if closed {
      assert y[n..] == [q] + rest;
    }
  }

  lemma {:induction false} QuotedEnds(y: string, q: char)
    ensures QuotedLength(y, q) < |y| ==> y[QuotedLength(y, q)] == q
  {
    if y != "" && y[0] != q {
      QuotedEnds(y[1..], q);
    }
  }

  /** The pieces behind the name. */
  lemma YesParts(v: string) returns (p: FipsParts, rest: string)
    requires IsYesValue(v)
    ensures Blank(p.beforeOp) && Blank(p.afterOp) && Blank(rest) && AsciiEqual(p.value, "yes")
    ensures v == FipsOperand(p) + rest
  {
    hide IsQuotedYes, IsBareYes, AsciiEqual, SkipSpaces, Blank;
    var w := SkipSpaces(v);
    var x := SkipSpaces(w[1..]);
    SkipSplit(v);
    SkipSplit(w[1..]);
    var quote, value, closed, tail := ValueParts(x);
    rest := tail;
    p := FipsParts("", false, "", "", Skipped(v), Skipped(w[1..]), quote, value, closed, "");
    hide Skipped, IsYesValue;
    OperandAndRest(p, v, w, x, rest);
  }

  lemma OperandAndRest(p: FipsParts, v: string, w: string, x: string, rest: string)
    requires v == p.beforeOp + w && w != "" && w[0] == '=' && w[1..] == p.afterOp + x && x == FipsValue(p) + rest
    ensures v == FipsOperand(p) + rest
  {
    hide FipsValue;
    assert w == "=" + w[1..];
    MoveRight(p.afterOp, FipsValue(p), rest);
    MoveRight("=", p.afterOp + FipsValue(p), rest);
    MoveRight(p.beforeOp, "=" + (p.afterOp + FipsValue(p)), rest);
  }

  lemma BodyParts(u: string) returns (p: FipsParts, rest: string)
    requires IsYesValue(u[NameLength(u)..]) && AsciiEqual(u[..NameLength(u)], "fips")
    ensures FipsPartsOk(p) && Blank(rest) && !p.optional && p.lead == p.trail == "" && u == FipsBody(p) + rest
  {
    hide IsYesValue, AsciiEqual;
    var q, tail := YesParts(u[NameLength(u)..]);
    rest := tail;
    p := q.(lead := "", optional := false, afterMark := "", name := u[..NameLength(u)], trail := "");
    MoveRight(p.name, FipsOperand(p), rest);
  }

  lemma MarkParts(t: string) returns (optional: bool, afterMark: string)
    ensures Blank(afterMark) && (!optional ==> afterMark == "")
    ensures t == if optional then "?" + (afterMark + AfterMark(t)) else AfterMark(t)
  {
    optional := t != "" && t[0] == '?';
    afterMark := "";
    if optional {
      SkipSplit(t[1..]);
      afterMark := Skipped(t[1..]);
      assert t == "?" + t[1..];
    }
  }

  lemma ClauseHasParts(c: string) returns (p: FipsParts)
    requires ClauseFips(c)
    ensures FipsPartsOk(p) && c == FipsText(p)
  {
    hide IsYesValue, AsciiEqual, SkipSpaces, TrimEnd, NameLength, Blank;
    var lead, tail := Ends(c);
    var t := TrimEnd(SkipSpaces(c));
    var optional, afterMark := MarkParts(t);
    var q, rest := BodyParts(AfterMark(t));
    p := q.(lead := lead, optional := optional, afterMark := afterMark, trail := rest + tail);
    hide AfterMark;
    BlanksJoin(rest, tail);
    assert FipsBody(p) == FipsBody(q);
    if optional {
      MoveRight(afterMark, FipsBody(p), rest);
      MoveRight("?", afterMark + FipsBody(p), rest);
    }
    assert t == FipsCore(p) + rest;
    MoveRight(FipsCore(p), rest, tail);
  }

  lemma BlanksJoin(a: string, b: string)
    requires Blank(a) && Blank(b)
    ensures Blank(a + b)
  {
  }

  /**
   * The clauses that ask for FIPS, exactly: an optional `?`, `fips`, `=`, then `yes`, bare or in one kind of quote
   * whose closing one may be missing, with blanks anywhere between them and letters in either case.
   */
  lemma FipsGrammar(c: string)
    ensures ClauseFips(c) <==> exists p :: FipsPartsOk(p) && FipsText(p) == c
  {
    if ClauseFips(c) {
      var p := ClauseHasParts(c);
    }
    forall p | FipsPartsOk(p) && FipsText(p) == c
      ensures ClauseFips(c)
    {
      PartsAsk(p);
    }
  }

  // ---------------------------------------------------------------- the clauses that name the property

  /** `rest` is what follows the name: it does not lengthen it. */
  datatype NamedParts = NamedParts(
    lead: string, optional: bool, afterMark: string, dash: bool, name: string, rest: string)

  predicate NamedPartsOk(p: NamedParts) {
    && Blank(p.lead) && Blank(p.afterMark) && (!p.optional ==> p.afterMark == "")
    && AsciiEqual(p.name, PROPERTY) && (p.rest != "" ==> !IsNameChar(p.rest[0]))
  }

  function NamedBody(p: NamedParts): string {
    (if p.dash then "-" else "") + (p.name + p.rest)
  }

  function NamedCore(p: NamedParts): string {
    if p.optional then "?" + (p.afterMark + NamedBody(p)) else NamedBody(p)
  }

  function NamedText(p: NamedParts): string {
    p.lead + NamedCore(p)
  }

  /** Trimming stops at the last character that is no blank. */
  lemma {:induction false} TrimBehind(a: string, rest: string) returns (k: nat)
    requires a != "" && !IsSpace(a[|a| - 1])
    ensures k <= |rest| && TrimEnd(a + rest) == a + rest[..k]
  {
    k := |rest|;
    if rest == "" {
      assert a + rest == a && rest[..k] == "";
    } else if IsSpace(rest[k - 1]) {
      k := TrimBehind(a, rest[..|rest| - 1]);
      assert (a + rest)[..|a + rest| - 1] == a + rest[..|rest| - 1];
      assert rest[..|rest| - 1][..k] == rest[..k];
    } else {
      assert rest[..k] == rest;
    }
  }

  function NamedHead(p: NamedParts): string {
    var named := (if p.dash then "-" else "") + p.name;
    if p.optional then "?" + (p.afterMark + named) else named
  }

  lemma HeadAndRest(p: NamedParts)
    ensures NamedCore(p) == NamedHead(p) + p.rest
  {
    var d := if p.dash then "-" else "";
    MoveRight(d, p.name, p.rest);
    if p.optional {
      MoveRight(p.afterMark, d + p.name, p.rest);
      MoveRight("?", p.afterMark + (d + p.name), p.rest);
    }
  }

  lemma HeadEndsInName(p: NamedParts)
    requires NamedPartsOk(p)
    ensures NamedHead(p) != "" && !IsSpace(NamedHead(p)[|NamedHead(p)| - 1])
  {
    PropertyIsName(p.name);
    var head := NamedHead(p);
    assert |p.name| > 0 && IsNameChar(p.name[|p.name| - 1]);
    assert head[|head| - 1] == p.name[|p.name| - 1];
  }

  /** Trimming takes blanks off the rest only. */
  lemma TrimKeepsName(p: NamedParts) returns (q: NamedParts)
    requires NamedPartsOk(p)
    ensures NamedPartsOk(q) && q == p.(rest := q.rest) && TrimEnd(NamedCore(p)) == NamedCore(q)
  {
    hide AsciiEqual, Blank, TrimEnd, NamedCore;
    HeadAndRest(p);
    HeadEndsInName(p);
    var k := TrimBehind(NamedHead(p), p.rest);
    q := p.(rest := p.rest[..k]);
    HeadAndRest(q);
    assert NamedHead(q) == NamedHead(p);
  }

  lemma NamedIsFound(p: NamedParts)
    requires NamedPartsOk(p)
    ensures NamesProperty(AfterDash(AfterMark(NamedCore(p))))
  {
    PropertyIsName(p.name);
    var core, body := NamedCore(p), NamedBody(p);
    assert body[0] == if p.dash then '-' else p.name[0];
    assert |p.name| > 0 && IsNameChar(p.name[0]);
    if p.optional {
      assert core[1..] == p.afterMark + body;
      SkipToNothing(p.afterMark);
      SkipConcat(p.afterMark, body);
      assert SkipSpaces(body) == body;
    }
    assert AfterMark(core) == body;
    assert AfterDash(body) == p.name + p.rest by {
      assert p.dash ==> body[1..] == p.name + p.rest;
      assert !p.dash ==> body == p.name + p.rest;
    }
    NameLengthIs(p.name, p.rest);
    assert (p.name + p.rest)[..|p.name|] == p.name;
  }

  lemma NamedNames(p: NamedParts)
    requires NamedPartsOk(p)
    ensures !ClauseMarker(NamedText(p)).ABSENT?
  {
    PropertyIsName(p.name);
    var core := NamedCore(p);
    assert core != "" && !IsSpace(core[0]) by {
      assert |p.name| > 0 && IsNameChar(p.name[0]);
      assert core[0] == if p.optional then '?' else if p.dash then '-' else p.name[0];
    }
    SkipToNothing(p.lead);
    SkipConcat(p.lead, core);
    assert SkipSpaces(NamedText(p)) == core;
    var q := TrimKeepsName(p);
    hide NamesProperty, AfterMark, AfterDash, SkipSpaces, TrimEnd;
    NamedIsFound(q);
  }

  lemma NameStops(u: string)
    ensures NameLength(u) < |u| ==> !IsNameChar(u[NameLength(u)])
  {
    if u != "" && IsNameChar(u[0]) {
      NameStops(u[1..]);
    }
  }

  /** The name cannot go on in what was trimmed away. */
  lemma RestAndBlanks(rest: string, tail: string)
    requires Blank(tail) && (rest != "" ==> !IsNameChar(rest[0]))
    ensures rest + tail != "" ==> !IsNameChar((rest + tail)[0])
  {
  }

  lemma NamesInClause(c: string)
    requires !ClauseMarker(c).ABSENT?
    ensures NamesProperty(AfterDash(AfterMark(TrimEnd(SkipSpaces(c)))))
  {
    hide NamesProperty, AfterDash, AfterMark, TrimEnd, SkipSpaces, IsGuardValue;
  }

  lemma NameAndRest(u: string) returns (name: string, rest: string)
    requires NamesProperty(u)
    ensures u == name + rest && AsciiEqual(name, PROPERTY) && (rest != "" ==> !IsNameChar(rest[0]))
  {
    hide AsciiEqual;
    NameStops(u);
    name, rest := u[..NameLength(u)], u[NameLength(u)..];
  }

  lemma NamedHasParts(c: string) returns (p: NamedParts)
    requires !ClauseMarker(c).ABSENT?
    ensures NamedPartsOk(p) && NamedText(p) == c
  {
    hide ClauseMarker, AsciiEqual, SkipSpaces, TrimEnd, Blank, NamesProperty, AfterMark, AfterDash, NamedCore, PROPERTY;
    NamesInClause(c);
    var lead, tail := Ends(c);
    var t := TrimEnd(SkipSpaces(c));
    var optional, afterMark := MarkParts(t);
    var dash, u := DashParts(AfterMark(t));
    var name, rest := NameAndRest(u);
    RestAndBlanks(rest, tail);
    p := NamedParts(lead, optional, afterMark, dash, name, rest + tail);
    NamedJoins(p, t, AfterMark(t), rest, tail);
  }

  lemma NamedJoins(p: NamedParts, t: string, m: string, rest: string, tail: string)
    requires p.rest == rest + tail && m == (if p.dash then "-" else "") + (p.name + rest)
    requires t == if p.optional then "?" + (p.afterMark + m) else m
    ensures t + tail == NamedCore(p)
  {
    MoveRight(p.name, rest, tail);
    MoveRight(if p.dash then "-" else "", p.name + rest, tail);
    if p.optional {
      MoveRight(p.afterMark, m, tail);
      MoveRight("?", p.afterMark + m, tail);
    }
  }

  /**
   * The clauses that name the reserved property, as the guard or in conflict with it: an optional `?`, an
   * optional dash, and the name in either case with nothing that lengthens it behind it.
   */
  lemma NamedGrammar(c: string)
    ensures !ClauseMarker(c).ABSENT? <==> exists p :: NamedPartsOk(p) && NamedText(p) == c
  {
    if !ClauseMarker(c).ABSENT? {
      var p := NamedHasParts(c);
    }
    forall p | NamedPartsOk(p) && NamedText(p) == c
      ensures !ClauseMarker(c).ABSENT?
    {
      NamedNames(p);
    }
  }

  // ---------------------------------------------------------------- where a query is cut

  datatype Token = Comma | Bare(c: char) | InQuotes(q: char, s: string)

  predicate IsQuote(c: char) {
    c == '\'' || c == '"'
  }

  predicate TokenOk(t: Token) {
    match t
    case Comma => true
    case Bare(c) => c != ',' && !IsQuote(c)
    case InQuotes(q, s) => IsQuote(q) && q !in s
  }

  predicate TokensOk(ts: seq<Token>) {
    forall i :: 0 <= i < |ts| ==> TokenOk(ts[i])
  }

  function TokenText(t: Token): string {
    match t
    case Comma => ","
    case Bare(c) => [c]
    case InQuotes(q, s) => [q] + (s + [q])
  }

  function TokensText(ts: seq<Token>): string {
    if ts == [] then "" else TokenText(ts[0]) + TokensText(ts[1..])
  }

  /** A quote that is opened behind all tokens and never closed. */
  predicate OpenOk(open: string) {
    open != "" ==> IsQuote(open[0]) && open[0] !in open[1..]
  }

  function Prepend(text: string, clauses: seq<string>): seq<string>
    requires clauses != []
  {
    [text + clauses[0]] + clauses[1..]
  }

  /** Cut at the comma tokens, and nowhere else. */
  function Cut(ts: seq<Token>, open: string): (cs: seq<string>)
    ensures cs != []
  {
    if ts == [] then [open]
    else if ts[0].Comma? then [""] + Cut(ts[1..], open)
    else Prepend(TokenText(ts[0]), Cut(ts[1..], open))
  }

  lemma {:induction false} SplitInQuotes(s: string, q: char, rest: string)
    requires IsQuote(q) && q !in s
    ensures Split(s + ([q] + rest), Some(q)) == Prepend(s + [q], Split(rest, None))
    ensures QuoteAfter(Some(q), s + ([q] + rest)) == QuoteAfter(None, rest)
    decreases |s|
  {
    var text := s + ([q] + rest);
    if s == "" {
      assert text == [q] + rest && text[1..] == rest && s + [q] == [q];
    } else {
      assert text[0] == s[0] && text[1..] == s[1..] + ([q] + rest);
      SplitInQuotes(s[1..], q, rest);
      var cs := Split(rest, None);
      assert [s[0]] + (s[1..] + [q] + cs[0]) == s + [q] + cs[0];
    }
  }

  lemma {:induction false} SplitOpen(s: string, q: char)
    requires IsQuote(q) && q !in s
    ensures Split(s, Some(q)) == [s] && QuoteAfter(Some(q), s) == Some(q)
    decreases |s|
  {
    if s != "" {
      SplitOpen(s[1..], q);
      assert [s[0]] + s[1..] == s;
    }
  }

  lemma SplitToken(t: Token, rest: string)
    requires TokenOk(t)
    ensures Split(TokenText(t) + rest, None)
         == if t.Comma? then [""] + Split(rest, None) else Prepend(TokenText(t), Split(rest, None))
    ensures QuoteAfter(None, TokenText(t) + rest) == QuoteAfter(None, rest)
  {
    if t.InQuotes? {
      SplitQuotedToken(t.q, t.s, rest);
    } else {
      assert (TokenText(t) + rest)[1..] == rest;
    }
  }

  lemma SplitQuotedToken(q: char, s: string, rest: string)
    requires IsQuote(q) && q !in s
    ensures var text := [q] + (s + [q]) + rest;
      && Split(text, None) == Prepend([q] + (s + [q]), Split(rest, None))
      && QuoteAfter(None, text) == QuoteAfter(None, rest)
  {
    var text := [q] + (s + [q]) + rest;
    SplitInQuotes(s, q, rest);
    QuotedText(q, s, rest);
    QuotedText(q, s, Split(rest, None)[0]);
  }

  lemma QuotedText(q: char, s: string, rest: string)
    ensures var text := [q] + (s + [q]) + rest; text[0] == q && text[1..] == s + ([q] + rest)
    ensures [q] + (s + [q]) + rest == [q] + (s + [q] + rest)
  {
  }

  /** A query of these tokens, with what is left open at its end, has exactly these clauses. */
  lemma {:induction false} CutsAtCommas(ts: seq<Token>, open: string)
    requires TokensOk(ts) && OpenOk(open)
    ensures Clauses(TokensText(ts) + open) == Cut(ts, open)
    ensures Closed(TokensText(ts) + open) <==> open == ""
    decreases |ts|
  {
    hide TokenOk, TokenText;
    if ts == [] {
      assert TokensText(ts) + open == open;
      if open != "" {
        SplitOpen(open[1..], open[0]);
        assert [open[0]] + open[1..] == open;
      }
    } else {
      CutsAtCommas(ts[1..], open);
      var rest := TokensText(ts[1..]) + open;
      MoveRight(TokenText(ts[0]), TokensText(ts[1..]), open);
      SplitToken(ts[0], rest);
    }
  }

  lemma {:induction false} EveryQueryHasTokens(query: string) returns (ts: seq<Token>, open: string)
    ensures TokensOk(ts) && OpenOk(open) && query == TokensText(ts) + open
    decreases |query|
  {
    if query == "" {
      ts, open := [], "";
    } else if IsQuote(query[0]) && QuotedLength(query[1..], query[0]) == |query| - 1 {
      ts, open := [], query;
      QuotedHasNone(query[1..], query[0]);
      assert query[1..][..|query| - 1] == query[1..];
    } else {
      var first, n := FirstToken(query);
      var rest, end := EveryQueryHasTokens(query[n..]);
      ts, open := [first] + rest, end;
      TokensGrow(first, rest, open);
    }
  }

  lemma TokensGrow(first: Token, rest: seq<Token>, open: string)
    requires TokenOk(first) && TokensOk(rest)
    ensures TokensOk([first] + rest)
    ensures TokensText([first] + rest) + open == TokenText(first) + (TokensText(rest) + open)
  {
    assert ([first] + rest)[1..] == rest;
    MoveRight(TokenText(first), TokensText(rest), open);
  }

  lemma FirstToken(query: string) returns (first: Token, n: nat)
    requires query != "" && (IsQuote(query[0]) ==> QuotedLength(query[1..], query[0]) < |query| - 1)
    ensures TokenOk(first) && 0 < n <= |query| && query == TokenText(first) + query[n..]
  {
    if IsQuote(query[0]) {
      var q, y := query[0], query[1..];
      var m := QuotedLength(y, q);
      QuotedEnds(y, q);
      QuotedHasNone(y, q);
      hide QuotedLength;
      first, n := InQuotes(q, y[..m]), m + 2;
      assert query == [q] + y && y == y[..m] + ([q] + y[m + 1..]) && y[m + 1..] == query[n..];
    } else {
      first, n := if query[0] == ',' then Comma else Bare(query[0]), 1;
    }
  }

  lemma {:induction false} QuotedHasNone(y: string, q: char)
    ensures q !in y[..QuotedLength(y, q)]
  {
    if y != "" && y[0] != q {
      QuotedHasNone(y[1..], q);
      assert y[..QuotedLength(y, q)] == [y[0]] + y[1..][..QuotedLength(y[1..], q)];
    }
  }

  predicate IsCut(query: string, clauses: seq<string>, ts: seq<Token>, open: string) {
    TokensOk(ts) && OpenOk(open) && query == TokensText(ts) + open && clauses == Cut(ts, open)
  }

  /**
   * The clauses of any query: it is cut at the commas outside quotes, where a quote ends at the next of its kind
   * and an unclosed one takes in all the rest.
   */
  lemma ClausesExactly(query: string, clauses: seq<string>)
    ensures clauses == Clauses(query) <==> exists ts, open :: IsCut(query, clauses, ts, open)
  {
    hide Clauses, TokensOk, TokensText, Cut, OpenOk, Closed;
    forall ts, open | IsCut(query, clauses, ts, open)
      ensures clauses == Clauses(query)
    {
      CutsAtCommas(ts, open);
    }
    var ts, open := EveryQueryHasTokens(query);
    CutsAtCommas(ts, open);
    assert clauses == Clauses(query) ==> IsCut(query, clauses, ts, open);
  }
}
