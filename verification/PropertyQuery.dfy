/**
 * The quote-aware scanners of OpenSSL property queries (src/napi.c, `awskms_marker_clause`,
 * `awskms_marker_state`, `awskms_append_default_property`; src/provider.c,
 * `awskms_propq_requests_fips`) and the laws by which queries compose.
 */
module PropertyQuery {
  import opened Bytes

  const PROPERTY := "keyobject.aws_kms"
  const GUARD := "?keyobject.aws_kms!=yes"

  datatype Marker = ABSENT | GUARDED | CONFLICT

  // ---------------------------------------------------------------- characters

  /** Space, or one of tab, newline, vertical tab, form feed, carriage return. */
  predicate IsSpace(c: char) {
    c == ' ' || 9 <= c as int <= 13
  }

  predicate IsNameChar(c: char) {
    'a' <= c <= 'z' || 'A' <= c <= 'Z' || '0' <= c <= '9' || c == '_' || c == '.'
  }

  function Lower(c: char): char {
    if 'A' <= c <= 'Z' then ((c as int) + 32) as char else c
  }

  predicate AsciiEqual(value: string, expected: string) {
    |value| == |expected| && forall i :: 0 <= i < |value| ==> Lower(value[i]) == Lower(expected[i])
  }

  // ---------------------------------------------------------------- one clause

  function SkipSpaces(s: string): string {
    if s != "" && IsSpace(s[0]) then SkipSpaces(s[1..]) else s
  }

  function TrimEnd(s: string): string {
    if s != "" && IsSpace(s[|s| - 1]) then TrimEnd(s[..|s| - 1]) else s
  }

  function NameLength(s: string): (n: nat)
    ensures n <= |s|
  {
    if s != "" && IsNameChar(s[0]) then 1 + NameLength(s[1..]) else 0
  }

  function WordLength(s: string): (n: nat)
    ensures n <= |s|
  {
    if s != "" && !IsSpace(s[0]) then 1 + WordLength(s[1..]) else 0
  }

  /** Up to the first occurrence of `delimiter`. */
  function QuotedLength(s: string, delimiter: char): (n: nat)
    ensures n <= |s|
  {
    if s != "" && s[0] != delimiter then 1 + QuotedLength(s[1..], delimiter) else 0
  }

  function AfterMark(t: string): string {
    if t != "" && t[0] == '?' then SkipSpaces(t[1..]) else t
  }

  function AfterDash(t: string): string {
    if t != "" && t[0] == '-' then t[1..] else t
  }

  /** The name at the head of a marker clause is the reserved property. */
  predicate NamesProperty(u: string) {
    AsciiEqual(u[..NameLength(u)], PROPERTY)
  }

  predicate IsBareYes(x: string) {
    var n := WordLength(x);
    AsciiEqual(x[..n], "yes") && SkipSpaces(x[n..]) == ""
  }

  /** `!= yes` and nothing else. */
  predicate IsGuardValue(u: string) {
    var w := SkipSpaces(u);
    && |w| >= 2 && w[0] == '!' && w[1] == '='
    && var x := SkipSpaces(w[2..]);
       IsBareYes(x)
  }

  function ClauseMarker(clause: string): Marker {
    var t := TrimEnd(SkipSpaces(clause));
    var u := AfterDash(AfterMark(t));
    if !NamesProperty(u) then ABSENT
    else if t[0] == '?' && IsGuardValue(u[NameLength(u)..]) then GUARDED
    else CONFLICT
  }

  function DropFirst(s: string): string {
    if s == "" then "" else s[1..]
  }

  /** A quoted `yes`; the closing quote may be missing at the very end. */
  predicate IsQuotedYes(x: string, delimiter: char) {
    var n := QuotedLength(x, delimiter);
    AsciiEqual(x[..n], "yes") && SkipSpaces(DropFirst(x[n..])) == ""
  }

  /** `= yes`, bare or quoted, and nothing else. */
  predicate IsYesValue(u: string) {
    var w := SkipSpaces(u);
    && w != "" && w[0] == '='
    && var x := SkipSpaces(w[1..]);
       if x != "" && (x[0] == '\'' || x[0] == '"') then IsQuotedYes(x[1..], x[0]) else IsBareYes(x)
  }

  predicate ClauseFips(clause: string) {
    var u := AfterMark(TrimEnd(SkipSpaces(clause)));
    && u != "" && u[0] != '-'
    && IsYesValue(u[NameLength(u)..]) && AsciiEqual(u[..NameLength(u)], "fips")
  }

  // ---------------------------------------------------------------- the clauses of a query

  /** The open quote, if any. */
  type Quote = q: Option<char> | q == None || q == Some('\'') || q == Some('"') witness None

  /** The open quote after one more character. */
  function NextQuote(quote: Quote, c: char): Quote {
    if quote.None? && (c == '\'' || c == '"') then Some(c)
    else if quote == Some(c) then None
    else quote
  }

  function QuoteAfter(quote: Quote, s: string): Quote
    decreases |s|
  {
    if s == "" then quote else QuoteAfter(NextQuote(quote, s[0]), s[1..])
  }

  /** Every quote opened in `s` is closed in `s`. */
  predicate Closed(s: string) {
    QuoteAfter(None, s).None?
  }

  /** One more character in front of the first clause. */
  function Grow(c: char, clauses: seq<string>): (cs: seq<string>)
    requires clauses != []
    ensures |cs| == |clauses|
  {
    [[c] + clauses[0]] + clauses[1..]
  }

  function ExtendLast(clauses: seq<string>, text: string): seq<string>
    requires clauses != []
  {
    clauses[..|clauses| - 1] + [clauses[|clauses| - 1] + text]
  }

  /** Split at the commas outside quotes. */
  function Split(s: string, quote: Quote): (cs: seq<string>)
    ensures cs != []
  {
    if s == "" then [""]
    else if s[0] == ',' && quote.None? then [""] + Split(s[1..], None)
    else Grow(s[0], Split(s[1..], NextQuote(quote, s[0])))
  }

  function Clauses(query: string): seq<string> {
    Split(query, None)
  }

  /** Two guards conflict; a conflict stays one. */
  function Combine(a: Marker, b: Marker): Marker {
    if a.CONFLICT? || b.CONFLICT? || (a.GUARDED? && b.GUARDED?) then CONFLICT
    else if a.GUARDED? || b.GUARDED? then GUARDED
    else ABSENT
  }

  function FoldMarkers(found: Marker, clauses: seq<string>): Marker
    decreases |clauses|
  {
    if clauses == [] then found else FoldMarkers(Combine(found, ClauseMarker(clauses[0])), clauses[1..])
  }

  function MarkerState(query: string): Marker {
    FoldMarkers(ABSENT, Clauses(query))
  }

  ghost predicate RequestsFips(query: string) {
    exists c :: c in Clauses(query) && ClauseFips(c)
  }

  // ---------------------------------------------------------------- laws of composition

  lemma GrowConcat(c: char, a: seq<string>, b: seq<string>)
    requires a != []
    ensures Grow(c, a + b) == Grow(c, a) + b
  {
    assert (a + b)[1..] == a[1..] + b;
  }

  lemma {:induction false} SplitConcat(a: string, b: string, quote: Quote)
    requires QuoteAfter(quote, a).None?
    ensures Split(a + "," + b, quote) == Split(a, quote) + Split(b, None)
  {
    if a == "" {
      assert a + "," + b == "," + b;
      assert ("," + b)[1..] == b;
    } else {
      assert (a + "," + b)[1..] == a[1..] + "," + b && (a + "," + b)[0] == a[0];
      if a[0] == ',' && quote.None? {
        SplitConcat(a[1..], b, None);
        assert [""] + (Split(a[1..], None) + Split(b, None)) == [""] + Split(a[1..], None) + Split(b, None);
      } else {
        SplitConcat(a[1..], b, NextQuote(quote, a[0]));
        GrowConcat(a[0], Split(a[1..], NextQuote(quote, a[0])), Split(b, None));
      }
    }
  }

  lemma {:induction false} SplitQuoted(s: string, quote: Quote)
    requires quote.Some? && quote.value !in s
    ensures Split(s, quote) == [s]
  {
    if s != "" {
      SplitQuoted(s[1..], quote);
      assert [s[0]] + s[1..] == s;
    }
  }

  lemma GrowExtend(c: char, clauses: seq<string>, text: string)
    requires clauses != []
    ensures Grow(c, ExtendLast(clauses, text)) == ExtendLast(Grow(c, clauses), text)
  {
    var last := |clauses| - 1;
    var a, b := Grow(c, ExtendLast(clauses, text)), ExtendLast(Grow(c, clauses), text);
    assert [c] + (clauses[0] + text) == ([c] + clauses[0]) + text;
    assert |a| == |b| == last + 1 && a[last] == b[last];
    forall k | 0 <= k < last
      ensures a[k] == b[k]
    {
      assert a[k] == if k == 0 then [c] + clauses[0] else clauses[k];
    }
  }

  /** Behind an open quote a text without quotes only lengthens the last clause. */
  lemma {:induction false} SplitUnclosed(a: string, b: string, quote: Quote)
    requires QuoteAfter(quote, a).Some? && '\'' !in b && '"' !in b
    ensures Split(a + b, quote) == ExtendLast(Split(a, quote), b)
    decreases |a|
  {
    if a == "" {
      assert a + b == b;
      SplitQuoted(b, quote);
    } else {
      assert (a + b)[1..] == a[1..] + b && (a + b)[0] == a[0];
      if a[0] == ',' && quote.None? {
        SplitUnclosed(a[1..], b, None);
        var rest := Split(a[1..], None);
        assert [""] + ExtendLast(rest, b) == ExtendLast([""] + rest, b);
      } else {
        SplitUnclosed(a[1..], b, NextQuote(quote, a[0]));
        GrowExtend(a[0], Split(a[1..], NextQuote(quote, a[0])), b);
      }
    }
  }

  lemma {:induction false} FoldConcat(found: Marker, a: seq<string>, b: seq<string>)
    ensures FoldMarkers(found, a + b) == FoldMarkers(FoldMarkers(found, a), b)
    decreases |a|
  {
    if a == [] {
      assert a + b == b;
    } else {
      assert (a + b)[1..] == a[1..] + b;
      FoldConcat(Combine(found, ClauseMarker(a[0])), a[1..], b);
    }
  }

  lemma {:induction false} FoldFrom(found: Marker, a: seq<string>)
    ensures FoldMarkers(found, a) == Combine(found, FoldMarkers(ABSENT, a))
    decreases |a|
  {
    if a != [] {
      var m := ClauseMarker(a[0]);
      FoldFrom(Combine(found, m), a[1..]);
      FoldFrom(Combine(ABSENT, m), a[1..]);
    }
  }

  /**
   * Composition: behind a query whose quotes are closed, the marker state of the joined query is the
   * combination of the two, and FIPS is requested exactly if either half requests it.
   */
  lemma QueriesCompose(q1: string, q2: string)
    requires Closed(q1)
    ensures MarkerState(q1 + "," + q2) == Combine(MarkerState(q1), MarkerState(q2))
    ensures RequestsFips(q1 + "," + q2) <==> RequestsFips(q1) || RequestsFips(q2)
  {
    SplitConcat(q1, q2, None);
    FoldConcat(ABSENT, Clauses(q1), Clauses(q2));
    FoldFrom(MarkerState(q1), Clauses(q2));
    assert forall c :: c in Clauses(q1) + Clauses(q2) <==> c in Clauses(q1) || c in Clauses(q2);
  }

  // ---------------------------------------------------------------- appending the guard

  function Appended(query: string): string {
    if query == "" then GUARD else query + "," + GUARD
  }

  const APPENDIX := "," + GUARD

  lemma {:induction false} SplitPlain(s: string, quote: Quote)
    requires ',' !in s
    ensures Split(s, quote) == [s]
  {
    if s != "" {
      SplitPlain(s[1..], NextQuote(quote, s[0]));
      assert [s[0]] + s[1..] == s;
    }
  }

  /** The guard on its own is one clause, is recognised, and is no FIPS request. */
  lemma GuardAlone()
    ensures Clauses(GUARD) == [GUARD] && MarkerState(GUARD) == GUARDED && !RequestsFips(GUARD)
  {
    hide ClauseMarker, ClauseFips;
    SplitPlain(GUARD, None);
    GuardClause();
    var clauses := [GUARD];
    assert clauses[1..] == [];
    assert FoldMarkers(ABSENT, clauses) == FoldMarkers(GUARDED, []);
  }

  /** A clause that is just a question mark and a body without blanks at either end. */
  lemma OptionalClause(c: string, u: string)
    requires c != "" && c[0] == '?' && !IsSpace(c[|c| - 1]) && c[1..] == u
    requires u != "" && !IsSpace(u[0]) && u[0] != '-'
    ensures var v := u[NameLength(u)..];
      && ClauseMarker(c) == (if !NamesProperty(u) then ABSENT else if IsGuardValue(v) then GUARDED else CONFLICT)
      && (ClauseFips(c) <==> IsYesValue(v) && AsciiEqual(u[..NameLength(u)], "fips"))
  {
    assert SkipSpaces(c) == c && TrimEnd(c) == c && SkipSpaces(u) == u;
  }

  lemma GuardClause()
    ensures ClauseMarker(GUARD) == GUARDED && !ClauseFips(GUARD)
  {
    GuardBody();
    OptionalClause(GUARD, PROPERTY + "!=yes");
  }

  lemma GuardBody()
    ensures GUARD[1..] == PROPERTY + "!=yes"
    ensures var u := PROPERTY + "!=yes";
      NameLength(u) == |PROPERTY| && u[..|PROPERTY|] == PROPERTY && u[|PROPERTY|..] == "!=yes"
      && IsGuardValue("!=yes") && !IsYesValue("!=yes")
  {
    NameLengthIs(PROPERTY, "!=yes");
    OperatorAndYes();
  }

  lemma OperatorAndYes()
    ensures IsGuardValue("!=yes") && !IsYesValue("!=yes")
  {
    assert "!=yes"[2..] == "yes";
    WordLengthIs("yes");
    assert "yes"[3..] == "";
  }

  lemma {:induction false} NameLengthIs(name: string, rest: string)
    requires forall i :: 0 <= i < |name| ==> IsNameChar(name[i])
    requires rest != "" ==> !IsNameChar(rest[0])
    ensures NameLength(name + rest) == |name|
  {
    if name == "" {
      assert name + rest == rest;
    } else {
      assert (name + rest)[1..] == name[1..] + rest;
      NameLengthIs(name[1..], rest);
    }
  }

  lemma {:induction false} WordLengthIs(word: string)
    requires forall i :: 0 <= i < |word| ==> !IsSpace(word[i])
    ensures WordLength(word) == |word|
  {
    if word != "" {
      WordLengthIs(word[1..]);
    }
  }

  // ---------------------------------------------------------------- scanning a concatenation

  predicate Blank(s: string) {
    forall i :: 0 <= i < |s| ==> IsSpace(s[i])
  }

  lemma {:induction false} SkipConcat(a: string, b: string)
    ensures SkipSpaces(a + b) == if SkipSpaces(a) != "" then SkipSpaces(a) + b else SkipSpaces(b)
  {
    if a == "" {
      assert a + b == b;
    } else {
      assert (a + b)[1..] == a[1..] + b && (a + b)[0] == a[0];
      if IsSpace(a[0]) {
        SkipConcat(a[1..], b);
      }
    }
  }

  lemma {:induction false} SkipToNothing(s: string)
    ensures SkipSpaces(s) == "" <==> Blank(s)
    ensures SkipSpaces(s) != "" ==> !IsSpace(SkipSpaces(s)[0])
  {
    if s != "" && IsSpace(s[0]) {
      SkipToNothing(s[1..]);
      assert forall i :: 1 <= i < |s| ==> s[i] == s[1..][i - 1];
    }
  }

  lemma {:induction false} TrimSplit(s: string)
    ensures TrimEnd(s) <= s && Blank(s[|TrimEnd(s)|..])
    ensures TrimEnd(s) != "" ==> !IsSpace(TrimEnd(s)[|TrimEnd(s)| - 1])
  {
    if s != "" && IsSpace(s[|s| - 1]) {
      var t := s[..|s| - 1];
      TrimSplit(t);
      var n := |TrimEnd(t)|;
      assert TrimEnd(s) == TrimEnd(t) && t[n..] == s[n..|s| - 1];
      assert s[n..] == s[n..|s| - 1] + [s[|s| - 1]];
    }
  }

  lemma {:induction false} NameLengthStops(a: string, b: string)
    requires b == "" || !IsNameChar(b[0])
    ensures NameLength(a + b) == NameLength(a)
  {
    if a == "" {
      assert a + b == b;
    } else {
      assert (a + b)[1..] == a[1..] + b && (a + b)[0] == a[0];
      if IsNameChar(a[0]) {
        NameLengthStops(a[1..], b);
      }
    }
  }

  // ---------------------------------------------------------------- a clause with the guard run into it

  /** All that matters of the text run in: it starts with a comma and ends in an `s`. */
  lemma AppendixShape()
    ensures |APPENDIX| == 24 && APPENDIX[0] == ',' && APPENDIX[23] == 's'
    ensures SkipSpaces(APPENDIX) == APPENDIX && HeadName(APPENDIX) == "" == HeadName("")
  {
  }

  /** The name a clause starts with, once blanks, '?' and '-' are out of the way. */
  function HeadName(t: string): string {
    var u := AfterDash(AfterMark(t));
    u[..NameLength(u)]
  }

  lemma HeadNameStops(y: string, blanks: string)
    requires y != "" && Blank(blanks)
    ensures HeadName(y + blanks + APPENDIX) == HeadName(y)
  {
    hide APPENDIX;
    AppendixShape();
    var tail := blanks + APPENDIX;
    assert y + blanks + APPENDIX == y + tail;
    assert (y + tail)[0] == y[0] && (y + tail)[1..] == y[1..] + tail;
    SkipToNothing(blanks);
    SkipConcat(blanks, APPENDIX);
    if y[0] == '?' {
      SkipConcat(y[1..], tail);
      var z := SkipSpaces(y[1..]);
      if z != "" {
        HeadNameRest(z, tail);
      } else {
        assert AfterMark(y + tail) == APPENDIX;
      }
    } else {
      HeadNameRest(y, tail);
    }
  }

  lemma HeadNameRest(z: string, tail: string)
    requires z != "" && tail != "" && !IsNameChar(tail[0])
    ensures var u := AfterDash(z + tail); var v := AfterDash(z); u[..NameLength(u)] == v[..NameLength(v)]
  {
    assert (z + tail)[0] == z[0] && (z + tail)[1..] == z[1..] + tail;
    NameLengthStops(AfterDash(z), tail);
    assert AfterDash(z + tail) == AfterDash(z) + tail;
  }

  /** Running the guard into a clause changes neither whose property the clause names... */
  lemma AppendixKeepsAbsent(c: string)
    ensures ClauseMarker(c + APPENDIX).ABSENT? <==> ClauseMarker(c).ABSENT?
  {
    hide APPENDIX;
    AppendixShape();
    var t := SkipSpaces(c);
    var y := TrimEnd(t);
    SkipToNothing(c);
    SkipConcat(c, APPENDIX);
    assert SkipSpaces(c + APPENDIX) == t + APPENDIX;
    assert (t + APPENDIX)[|t + APPENDIX| - 1] == 's';
    assert TrimEnd(t + APPENDIX) == t + APPENDIX;
    TrimSplit(t);
    if y == "" {
      assert t[|y|..] == t && t == "";
      assert t + APPENDIX == APPENDIX;
    } else {
      assert t == y + t[|y|..];
      HeadNameStops(y, t[|y|..]);
    }
  }

  lemma AppendixIsNoYes(x: string, delimiter: char)
    requires |x| >= |APPENDIX| && x[|x| - |APPENDIX|..] == APPENDIX
    ensures !IsBareYes(x) && !IsQuotedYes(x, delimiter)
  {
    hide APPENDIX;
    AppendixShape();
    assert x[|x| - 1] == APPENDIX[23] == 's';
    SkipToNothing(x[3..]);
    assert x[3..][|x| - 4] == 's';
    SkipToNothing(DropFirst(x[3..]));
    assert DropFirst(x[3..])[|x| - 5] == 's';
  }

  lemma AppendixIsNoYesValue(q: string)
    ensures !IsYesValue(q + APPENDIX)
  {
    hide IsBareYes, IsQuotedYes, APPENDIX;
    AppendixShape();
    SkipConcat(q, APPENDIX);
    var z := SkipSpaces(q);
    assert SkipSpaces(q + APPENDIX) == z + APPENDIX;
    if z != "" {
      assert (z + APPENDIX)[1..] == z[1..] + APPENDIX && (z + APPENDIX)[0] == z[0];
      SkipConcat(z[1..], APPENDIX);
      var r := SkipSpaces(z[1..]);
      assert r == "" ==> r + APPENDIX == APPENDIX;
      assert SkipSpaces((z + APPENDIX)[1..]) == r + APPENDIX;
      AppendixIsNoOperand(r);
    } else {
      assert z + APPENDIX == APPENDIX;
    }
  }

  lemma AppendixIsNoOperand(r: string)
    ensures var x := r + APPENDIX;
      !(if x != "" && (x[0] == '\'' || x[0] == '"') then IsQuotedYes(x[1..], x[0]) else IsBareYes(x))
  {
    hide IsBareYes, IsQuotedYes, APPENDIX;
    AppendixShape();
    AppendixIsNoYes(r + APPENDIX, ' ');
    if r != "" {
      assert (r + APPENDIX)[1..] == r[1..] + APPENDIX;
      AppendixIsNoYes(r[1..] + APPENDIX, r[0]);
    } else {
      assert r + APPENDIX == APPENDIX;
    }
  }

  /** ...nor leaves it a FIPS request. */
  lemma AppendixLosesFips(c: string)
    ensures !ClauseFips(c + APPENDIX)
  {
    hide IsYesValue, APPENDIX;
    AppendixShape();
    var t := SkipSpaces(c);
    TrimsToAppendix(c);
    var p := AfterMark(t);
    MarkBeforeAppendix(t);
    hide SkipSpaces, TrimEnd, AfterMark;
    NameLengthStops(p, APPENDIX);
    assert (p + APPENDIX)[NameLength(p)..] == p[NameLength(p)..] + APPENDIX;
    AppendixIsNoYesValue(p[NameLength(p)..]);
  }

  lemma MarkBeforeAppendix(t: string)
    ensures AfterMark(t + APPENDIX) == AfterMark(t) + APPENDIX
  {
    hide APPENDIX;
    AppendixShape();
    if t != "" {
      assert (t + APPENDIX)[1..] == t[1..] + APPENDIX && (t + APPENDIX)[0] == t[0];
      SkipConcat(t[1..], APPENDIX);
      assert SkipSpaces(t[1..]) == "" ==> "" + APPENDIX == APPENDIX;
    } else {
      assert t + APPENDIX == APPENDIX;
    }
  }

  lemma TrimsToAppendix(c: string)
    ensures TrimEnd(SkipSpaces(c + APPENDIX)) == SkipSpaces(c) + APPENDIX
  {
    hide APPENDIX;
    AppendixShape();
    SkipToNothing(c);
    SkipConcat(c, APPENDIX);
    var t := SkipSpaces(c);
    assert SkipSpaces(c + APPENDIX) == t + APPENDIX;
    assert (t + APPENDIX)[|t + APPENDIX| - 1] == 's';
  }

  // ---------------------------------------------------------------- what appending the guard does

  lemma {:induction false} AllAbsent(clauses: seq<string>)
    ensures FoldMarkers(ABSENT, clauses) == ABSENT <==>
      forall i :: 0 <= i < |clauses| ==> ClauseMarker(clauses[i]) == ABSENT
  {
    if clauses != [] {
      FoldFrom(Combine(ABSENT, ClauseMarker(clauses[0])), clauses[1..]);
      AllAbsent(clauses[1..]);
      assert forall i :: 1 <= i < |clauses| ==> clauses[i] == clauses[1..][i - 1];
    }
  }

  lemma UnclosedClauses(query: string)
    requires !Closed(query)
    ensures Clauses(Appended(query)) == ExtendLast(Clauses(query), APPENDIX)
  {
    AppendixIsCommaGuard();
    assert query != "";
    hide GUARD, APPENDIX;
    assert query + "," + GUARD == query + APPENDIX;
    SplitUnclosed(query, APPENDIX, None);
  }

  lemma AppendixIsCommaGuard()
    ensures APPENDIX == "," + GUARD && '\'' !in APPENDIX && '"' !in APPENDIX
  {
  }

  /**
   * To a query without the marker, registration appends the guard.  It takes hold exactly when every
   * quote of the query is closed; behind an open quote it is swallowed and the marker stays absent.
   */
  lemma GuardTakesHold(query: string)
    requires MarkerState(query) == ABSENT
    ensures MarkerState(Appended(query)) == GUARDED <==> Closed(query)
    ensures !Closed(query) ==> MarkerState(Appended(query)) == ABSENT
  {
    hide ClauseMarker, Split;
    if Closed(query) {
      GuardAlone();
      if query != "" {
        QueriesCompose(query, GUARD);
      }
    } else {
      var cs := Clauses(query);
      UnclosedClauses(query);
      AllAbsent(cs);
      AppendixKeepsAbsent(cs[|cs| - 1]);
      AllAbsent(ExtendLast(cs, APPENDIX));
    }
  }

  /** Only the last clause, left open by a quote, asks for FIPS. */
  ghost predicate OnlyOpenClauseRequests(query: string) {
    var cs := Clauses(query);
    var last := |cs| - 1;
    !Closed(query) && ClauseFips(cs[last]) && forall i :: 0 <= i < last ==> !ClauseFips(cs[i])
  }

  /** Such a query: the scanner takes the quoted value for `yes` though its closing quote is missing. */
  lemma OpenQuoteAsks()
    ensures var query := "fips='yes";
      && !Closed(query) && OnlyOpenClauseRequests(query)
      && RequestsFips(query) && !RequestsFips(Appended(query))
      && MarkerState(query).ABSENT? && MarkerState(Appended(query)).ABSENT?
  {
    hide Split, QuoteAfter, ClauseFips, ClauseMarker, Appended;
    var query := "fips='yes";
    OpenQuoteClauses();
    OpenQuoteIsFips();
    assert Clauses(query)[0] == query;
    GuardKeepsFips(query);
    assert query in Clauses(query);
    assert FoldMarkers(ABSENT, [query]) == Combine(ABSENT, ClauseMarker(query)) by {
      assert [query][1..] == [];
    }
    GuardTakesHold(query);
  }

  lemma OpenQuoteClauses()
    ensures !Closed("fips='yes") && Clauses("fips='yes") == ["fips='yes"]
  {
    hide Split, QuoteAfter, Closed;
    SplitPlain("fips='yes", None);
    QuoteStaysOpen("fips=", "yes");
    assert "fips='yes" == "fips=" + "'yes" && "'yes" == "'" + "yes";
  }

  lemma QuoteStaysOpen(a: string, b: string)
    requires '\'' !in a && '"' !in a && '\'' !in b && '"' !in b
    ensures !Closed(a + ("'" + b))
  {
    QuotesConcat(a, "'" + b, None);
    QuotesPass(a, None);
    QuotesPass(b, Some('\''));
    assert ("'" + b)[1..] == b;
  }

  /** Behind text without quotes the quotes are as before. */
  lemma {:induction false} QuotesPass(s: string, quote: Quote)
    requires '\'' !in s && '"' !in s
    ensures QuoteAfter(quote, s) == quote
    decreases |s|
  {
    if s != "" {
      assert NextQuote(quote, s[0]) == quote;
      QuotesPass(s[1..], quote);
    }
  }

  lemma {:induction false} QuotesConcat(a: string, b: string, quote: Quote)
    ensures QuoteAfter(quote, a + b) == QuoteAfter(QuoteAfter(quote, a), b)
    decreases |a|
  {
    if a == "" {
      assert a + b == b;
    } else {
      assert (a + b)[1..] == a[1..] + b && (a + b)[0] == a[0];
      QuotesConcat(a[1..], b, NextQuote(quote, a[0]));
    }
  }

  lemma OpenQuoteIsFips()
    ensures ClauseFips("fips='yes") && ClauseMarker("fips='yes").ABSENT?
  {
    var s := "fips='yes";
    assert SkipSpaces(s) == s && TrimEnd(s) == s && AfterMark(s) == s && AfterDash(s) == s;
    FipsIsName();
    OpenQuoteValue();
    hide SkipSpaces, TrimEnd, AfterMark, AfterDash, NameLength, IsYesValue;
    assert s[4..] == "='yes" && s[..4] == "fips";
  }

  lemma FipsIsName()
    ensures NameLength("fips='yes") == 4
  {
    NameLengthIs("fips", "='yes");
    hide NameLength;
    assert "fips" + "='yes" == "fips='yes";
  }

  lemma OpenQuoteValue()
    ensures IsYesValue("='yes")
  {
    var w := "='yes";
    assert SkipSpaces(w) == w && w[1..] == "'yes" && SkipSpaces("'yes") == "'yes" && "'yes"[1..] == "yes";
    assert "yes"[1..] == "es" && "es"[1..] == "s" && "s"[1..] == "";
    assert QuotedLength("yes", '\'') == 3;
    assert "yes"[..3] == "yes" && "yes"[3..] == "" && SkipSpaces(DropFirst("")) == "";
    hide QuotedLength, SkipSpaces;
  }

  lemma LosesLastRequest(cs: seq<string>)
    requires cs != []
    ensures (exists c :: c in ExtendLast(cs, APPENDIX) && ClauseFips(c)) <==>
      exists i :: 0 <= i < |cs| - 1 && ClauseFips(cs[i])
  {
    hide ClauseFips;
    var last := |cs| - 1;
    var ds := ExtendLast(cs, APPENDIX);
    AppendixLosesFips(cs[last]);
    assert ds[last] == cs[last] + APPENDIX;
    assert forall i :: 0 <= i < last ==> ds[i] == cs[i];
  }

  /** Appending the guard never changes the FIPS answer, except where the asking clause is left open. */
  lemma GuardKeepsFips(query: string)
    ensures (RequestsFips(Appended(query)) <==> RequestsFips(query)) <==> !OnlyOpenClauseRequests(query)
    ensures Closed(query) ==> (RequestsFips(Appended(query)) <==> RequestsFips(query))
  {
    hide ClauseFips, Appended;
    if Closed(query) {
      ClosedKeepsFips(query);
    } else {
      OpenLosesFips(query);
      FipsFirstOrLast(Clauses(query));
    }
  }

  lemma ClosedKeepsFips(query: string)
    requires Closed(query)
    ensures RequestsFips(Appended(query)) <==> RequestsFips(query)
  {
    hide ClauseFips, QuoteAfter, MarkerState;
    GuardAlone();
    if query == "" {
      assert Clauses(query) == [""];
      EmptyAsksNothing();
    } else {
      QueriesCompose(query, GUARD);
    }
  }

  lemma EmptyAsksNothing()
    ensures !ClauseFips("")
  {
  }

  /** In a query left open, the guard is swallowed by the last clause, which then asks for nothing. */
  lemma OpenLosesFips(query: string)
    requires !Closed(query)
    ensures RequestsFips(Appended(query)) <==>
      exists i :: 0 <= i < |Clauses(query)| - 1 && ClauseFips(Clauses(query)[i])
  {
    hide ClauseFips, Appended;
    UnclosedClauses(query);
    LosesLastRequest(Clauses(query));
  }

  lemma FipsFirstOrLast(cs: seq<string>)
    requires cs != []
    ensures (exists c :: c in cs && ClauseFips(c)) <==>
      ClauseFips(cs[|cs| - 1]) || exists i :: 0 <= i < |cs| - 1 && ClauseFips(cs[i])
  {
    hide ClauseFips;
    if c :| c in cs && ClauseFips(c) {
      var i :| 0 <= i < |cs| && cs[i] == c;
    }
  }

  // ---------------------------------------------------------------- which clauses are the guard

  /** The pieces of a guard clause: blanks anywhere between the tokens, and an optional dash. */
  datatype GuardParts = GuardParts(
    lead: string, afterMark: string, dash: bool, name: string, beforeOp: string, afterOp: string, value: string,
    trail: string)

  predicate PartsOk(p: GuardParts) {
    && Blank(p.lead) && Blank(p.afterMark) && Blank(p.beforeOp) && Blank(p.afterOp) && Blank(p.trail)
    && AsciiEqual(p.name, PROPERTY) && AsciiEqual(p.value, "yes")
  }

  function Operand(p: GuardParts): string {
    p.beforeOp + ("!=" + (p.afterOp + p.value))
  }

  function Core(p: GuardParts): string {
    "?" + (p.afterMark + ((if p.dash then "-" else "") + (p.name + Operand(p))))
  }

  function Text(p: GuardParts): string {
    p.lead + (Core(p) + p.trail)
  }

  lemma {:induction false} TrimBlank(core: string, trail: string)
    requires Blank(trail) && core != "" && !IsSpace(core[|core| - 1])
    ensures TrimEnd(core + trail) == core
  {
    if trail == "" {
      assert core + trail == core;
    } else {
      assert (core + trail)[..|core + trail| - 1] == core + trail[..|trail| - 1];
      TrimBlank(core, trail[..|trail| - 1]);
    }
  }

  lemma OperandIsGuardValue(p: GuardParts)
    requires PartsOk(p)
    ensures IsGuardValue(Operand(p))
  {
    var rest := "!=" + (p.afterOp + p.value);
    SkipToNothing(p.beforeOp);
    SkipConcat(p.beforeOp, rest);
    assert rest[0] == '!' && SkipSpaces(rest) == rest;
    assert rest[2..] == p.afterOp + p.value;
    SkipToNothing(p.afterOp);
    SkipConcat(p.afterOp, p.value);
    YesHasNoBlanks(p.value);
    WordLengthIs(p.value);
  }

  lemma YesHasNoBlanks(value: string)
    requires AsciiEqual(value, "yes")
    ensures forall i :: 0 <= i < |value| ==> !IsSpace(value[i])
    ensures SkipSpaces(value) == value
  {
    assert forall i :: 0 <= i < 3 ==> !IsSpace("yes"[i]) && Lower(value[i]) == Lower("yes"[i]);
  }

  lemma PropertyIsName(name: string)
    requires AsciiEqual(name, PROPERTY)
    ensures forall i :: 0 <= i < |name| ==> IsNameChar(name[i])
  {
    assert forall i :: 0 <= i < |PROPERTY| ==> IsNameChar(PROPERTY[i]) && Lower(name[i]) == Lower(PROPERTY[i]);
  }

  function Body(p: GuardParts): string {
    (if p.dash then "-" else "") + (p.name + Operand(p))
  }

  lemma ScanToCore(p: GuardParts)
    requires PartsOk(p)
    ensures TrimEnd(SkipSpaces(Text(p))) == Core(p)
  {
    var core := Core(p);
    YesHasNoBlanks(p.value);
    assert core[|core| - 1] == p.value[2] && core[0] == '?';
    SkipToNothing(p.lead);
    SkipConcat(p.lead, core + p.trail);
    assert (core + p.trail)[0] == '?';
    TrimBlank(core, p.trail);
  }

  lemma ScanToName(p: GuardParts)
    requires PartsOk(p)
    ensures AfterDash(AfterMark(Core(p))) == p.name + Operand(p)
  {
    PropertyIsName(p.name);
    assert Core(p)[1..] == p.afterMark + Body(p) && Core(p)[0] == '?';
    SkipToNothing(p.afterMark);
    SkipConcat(p.afterMark, Body(p));
    assert Body(p)[0] == (if p.dash then '-' else p.name[0]);
    assert IsNameChar(p.name[0]);
    assert SkipSpaces(Body(p)) == Body(p);
    assert p.dash ==> Body(p)[1..] == p.name + Operand(p);
    assert !p.dash ==> Body(p) == p.name + Operand(p);
  }

  lemma ScanName(p: GuardParts)
    requires PartsOk(p)
    ensures var u := p.name + Operand(p);
      NameLength(u) == |p.name| && u[..|p.name|] == p.name && u[|p.name|..] == Operand(p)
  {
    PropertyIsName(p.name);
    assert Operand(p)[0] == (if p.beforeOp == "" then '!' else p.beforeOp[0]);
    NameLengthIs(p.name, Operand(p));
  }

  lemma PartsMakeGuard(p: GuardParts)
    requires PartsOk(p)
    ensures ClauseMarker(Text(p)) == GUARDED
  {
    ScanToCore(p);
    ScanToName(p);
    ScanName(p);
    OperandIsGuardValue(p);
    assert Core(p)[0] == '?';
  }

  /** The blanks `SkipSpaces` skips. */
  function Skipped(s: string): string
    requires |SkipSpaces(s)| <= |s|
  {
    s[..|s| - |SkipSpaces(s)|]
  }

  lemma {:induction false} SkipSplit(s: string)
    ensures |SkipSpaces(s)| <= |s| && s == Skipped(s) + SkipSpaces(s) && Blank(Skipped(s))
  {
    if s != "" && IsSpace(s[0]) {
      SkipSplit(s[1..]);
      assert Skipped(s) == [s[0]] + Skipped(s[1..]);
    }
  }

  lemma MoveRight(a: string, b: string, c: string)
    ensures a + (b + c) == (a + b) + c
  {
  }

  lemma OperandParts(v: string) returns (beforeOp: string, afterOp: string, value: string, trail: string)
    requires IsGuardValue(v)
    ensures Blank(beforeOp) && Blank(afterOp) && Blank(trail) && AsciiEqual(value, "yes")
    ensures v == (beforeOp + ("!=" + (afterOp + value))) + trail
  {
    var w := SkipSpaces(v);
    var rest := w[2..];
    var x := SkipSpaces(rest);
    var k := WordLength(x);
    SkipSplit(v);
    SkipSplit(rest);
    SkipToNothing(x[k..]);
    beforeOp, afterOp, value, trail := Skipped(v), Skipped(rest), x[..k], x[k..];
    hide SkipSpaces, WordLength, IsGuardValue;
    assert w == "!=" + rest && x == value + trail;
    OperandJoins(beforeOp, afterOp, value, trail);
  }

  lemma OperandJoins(beforeOp: string, afterOp: string, value: string, trail: string)
    ensures beforeOp + ("!=" + (afterOp + (value + trail))) == (beforeOp + ("!=" + (afterOp + value))) + trail
  {
    MoveRight(afterOp, value, trail);
    MoveRight("!=", afterOp + value, trail);
    MoveRight(beforeOp, "!=" + (afterOp + value), trail);
  }

  lemma HeadParts(t: string) returns (afterMark: string, dash: bool, u: string)
    requires t != "" && t[0] == '?'
    ensures Blank(afterMark) && u == AfterDash(AfterMark(t))
    ensures t == "?" + (afterMark + ((if dash then "-" else "") + u))
  {
    hide SkipSpaces;
    SkipSplit(t[1..]);
    var m := AfterMark(t);
    afterMark := Skipped(t[1..]);
    assert t[1..] == afterMark + m;
    assert t == "?" + t[1..];
    dash, u := DashParts(m);
  }

  lemma DashParts(m: string) returns (dash: bool, u: string)
    ensures u == AfterDash(m) && m == (if dash then "-" else "") + u
  {
    dash, u := m != "" && m[0] == '-', AfterDash(m);
    assert dash ==> m == "-" + m[1..];
    assert "" + m == m;
  }

  /** The parts of a clause without blanks at its ends. */
  lemma TrimmedHasParts(t: string) returns (p: GuardParts)
    requires t != "" && t[0] == '?'
    requires var u := AfterDash(AfterMark(t)); NamesProperty(u) && IsGuardValue(u[NameLength(u)..])
    ensures PartsOk(p) && t == Core(p) + p.trail
  {
    var afterMark, dash, u := HeadParts(t);
    var name, v := u[..NameLength(u)], u[NameLength(u)..];
    var beforeOp, afterOp, value, rest := OperandParts(v);
    p := GuardParts("", afterMark, dash, name, beforeOp, afterOp, value, rest);
    PartsJoin(p, u, rest);
  }

  lemma Ends(c: string) returns (lead: string, tail: string)
    ensures Blank(lead) && Blank(tail) && c == lead + (TrimEnd(SkipSpaces(c)) + tail)
  {
    hide *;
    var s := SkipSpaces(c);
    SkipSplit(c);
    TrimSplit(s);
    lead, tail := Skipped(c), s[|TrimEnd(s)|..];
    PrefixAndRest(TrimEnd(s), s);
  }

  lemma PrefixAndRest(a: string, s: string)
    requires a <= s
    ensures s == a + s[|a|..]
  {
  }

  lemma AddBlanks(q: GuardParts, lead: string, tail: string) returns (p: GuardParts)
    requires PartsOk(q) && Blank(lead) && Blank(tail)
    ensures PartsOk(p) && Text(p) == lead + ((Core(q) + q.trail) + tail)
  {
    p := q.(lead := lead, trail := q.trail + tail);
    MoveRight(Core(q), q.trail, tail);
  }

  lemma GuardHasParts(c: string) returns (p: GuardParts)
    requires ClauseMarker(c) == GUARDED
    ensures PartsOk(p) && c == Text(p)
  {
    var lead, tail := Ends(c);
    p := TrimmedHasParts(TrimEnd(SkipSpaces(c)));
    p := AddBlanks(p, lead, tail);
  }

  lemma PartsJoin(p: GuardParts, u: string, rest: string)
    requires u == p.name + (Operand(p) + rest)
    ensures "?" + (p.afterMark + ((if p.dash then "-" else "") + u)) == Core(p) + rest
  {
    var d := if p.dash then "-" else "";
    MoveRight(p.name, Operand(p), rest);
    MoveRight(d, p.name + Operand(p), rest);
    MoveRight(p.afterMark, Body(p), rest);
    MoveRight("?", p.afterMark + Body(p), rest);
  }

  /**
   * The guard, exactly: `?`, then optionally a dash, then the reserved name, `!=` and `yes`, letters in
   * either case, blanks anywhere between them.
   */
  lemma GuardGrammar(c: string)
    ensures ClauseMarker(c) == GUARDED <==> exists p :: PartsOk(p) && Text(p) == c
  {
    if ClauseMarker(c) == GUARDED {
      var p := GuardHasParts(c);
    }
    forall p | PartsOk(p) && Text(p) == c
      ensures ClauseMarker(c) == GUARDED
    {
      PartsMakeGuard(p);
    }
  }

  /** A dash before the name does not make the clause a conflict, contrary to the comment in the code. */
  lemma DashedGuardIsAccepted(p: GuardParts)
    requires PartsOk(p) && p.dash
    ensures ClauseMarker(Text(p)) == GUARDED && exists q :: PartsOk(q) && q.dash && Text(q)[..2] == "?-"
  {
    PartsMakeGuard(p);
    var q := GuardParts("", "", true, PROPERTY, "", "", "yes", "");
    assert Text(q)[..2] == "?-";
  }
}
