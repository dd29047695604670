/**
 * The pointer loops of the property-query scanners (src/napi.c:99-182, src/provider.c:51-107) and the
 * construction of the merged query (src/napi.c:184-198), proved against the definitions of `PropertyQuery`.
 * A C string is the text in front of its terminator; a pointer into it is an index.
 */
module PropertyScanner {
  import opened Bytes
  import opened PropertyQuery

  // ---------------------------------------------------------------- scanning inside one clause

  method SkipForward(s: string, begin: nat, end: nat) returns (b: nat)
    requires begin <= end <= |s|
    ensures begin <= b <= end && s[b..end] == SkipSpaces(s[begin..end])
  {
    b := begin;
    while b < end && IsSpace(s[b])
      invariant begin <= b <= end
      invariant SkipSpaces(s[b..end]) == SkipSpaces(s[begin..end])
    {
      assert s[b..end][1..] == s[b + 1..end];
      b := b + 1;
    }
  }

  method SkipBackward(s: string, begin: nat, end: nat) returns (e: nat)
    requires begin <= end <= |s|
    ensures begin <= e <= end && s[begin..e] == TrimEnd(s[begin..end])
  {
    e := end;
    while begin < e && IsSpace(s[e - 1])
      invariant begin <= e <= end
      invariant TrimEnd(s[begin..e]) == TrimEnd(s[begin..end])
    {
      assert s[begin..e][..e - begin - 1] == s[begin..e - 1];
      e := e - 1;
    }
  }

  method ScanName(s: string, begin: nat, end: nat) returns (b: nat)
    requires begin <= end <= |s|
    ensures b == begin + NameLength(s[begin..end])
  {
    b := begin;
    while b < end && IsNameChar(s[b])
      invariant begin <= b <= end
      invariant b + NameLength(s[b..end]) == begin + NameLength(s[begin..end])
    {
      assert s[b..end][1..] == s[b + 1..end];
      b := b + 1;
    }
  }

  method ScanWord(s: string, begin: nat, end: nat) returns (b: nat)
    requires begin <= end <= |s|
    ensures b == begin + WordLength(s[begin..end])
  {
    b := begin;
    while b < end && !IsSpace(s[b])
      invariant begin <= b <= end
      invariant b + WordLength(s[b..end]) == begin + WordLength(s[begin..end])
    {
      assert s[b..end][1..] == s[b + 1..end];
      b := b + 1;
    }
  }

  method ScanQuoted(s: string, begin: nat, end: nat, delimiter: char) returns (b: nat)
    requires begin <= end <= |s|
    ensures b == begin + QuotedLength(s[begin..end], delimiter)
  {
    b := begin;
    while b < end && s[b] != delimiter
      invariant begin <= b <= end
      invariant b + QuotedLength(s[b..end], delimiter) == begin + QuotedLength(s[begin..end], delimiter)
    {
      assert s[b..end][1..] == s[b + 1..end];
      b := b + 1;
    }
  }

  /** The optional mark at the head of a clause, and the blanks behind it. */
  method SkipMark(s: string, begin: nat, end: nat) returns (b: nat)
    requires begin <= end <= |s|
    ensures begin <= b <= end && s[b..end] == AfterMark(s[begin..end])
  {
    b := begin;
    if b < end && s[b] == '?' {
      assert s[b..end][1..] == s[b + 1..end];
      b := SkipForward(s, b + 1, end);
    }
  }

  method EqualsIgnoringCase(value: string, expected: string) returns (equal: bool)
    ensures equal <==> AsciiEqual(value, expected)
  {
    if |expected| != |value| {
      return false;
    }
    for i := 0 to |value|
      invariant forall k :: 0 <= k < i ==> Lower(value[k]) == Lower(expected[k])
    {
      if Lower(value[i]) != Lower(expected[i]) {
        return false;
      }
    }
    return true;
  }

  /** The blanks, the mark and the dash in front of a name. */
  method ClauseHead(query: string, from: nat, to: nat) returns (begin: nat, end: nat, optional: bool)
    requires from <= to <= |query|
    ensures begin <= end <= |query|
    ensures var t := TrimEnd(SkipSpaces(query[from..to]));
      query[begin..end] == AfterDash(AfterMark(t)) && (optional <==> t != "" && t[0] == '?')
  {
    begin := SkipForward(query, from, to);
    end := SkipBackward(query, begin, to);
    optional := begin < end && query[begin] == '?';
    begin := SkipMark(query, begin, end);
    if begin < end && query[begin] == '-' {
      assert query[begin..end][1..] == query[begin + 1..end];
      begin := begin + 1;
    }
  }

  lemma MarkerByParts(clause: string, u: string)
    requires u == AfterDash(AfterMark(TrimEnd(SkipSpaces(clause))))
    ensures !NamesProperty(u) ==> ClauseMarker(clause) == ABSENT
    ensures var t := TrimEnd(SkipSpaces(clause));
      NamesProperty(u) ==>
        t != "" && ClauseMarker(clause) == if t[0] == '?' && IsGuardValue(u[NameLength(u)..]) then GUARDED else CONFLICT
  {
    if NamesProperty(u) {
      assert |u[..NameLength(u)]| == |PROPERTY| == 17;
    }
  }

  method MarkerClause(query: string, from: nat, to: nat) returns (marker: Marker)
    requires from <= to <= |query|
    ensures marker == ClauseMarker(query[from..to])
  {
    var name, end, optional := ClauseHead(query, from, to);
    ghost var u := query[name..end];
    MarkerByParts(query[from..to], u);
    var begin := ScanName(query, name, end);
    assert query[name..begin] == u[..NameLength(u)] && query[begin..end] == u[NameLength(u)..];
    var reserved := EqualsIgnoringCase(query[name..begin], PROPERTY);
    if !reserved {
      return ABSENT;
    }
    if !optional {
      return CONFLICT;
    }
    var guard := GuardValue(query, begin, end);
    return if guard then GUARDED else CONFLICT;
  }

  /** The operator and the value behind the reserved name. */
  method GuardValue(query: string, from: nat, end: nat) returns (guard: bool)
    requires from <= end <= |query|
    ensures guard <==> IsGuardValue(query[from..end])
  {
    hide IsBareYes;
    var begin := SkipForward(query, from, end);
    ghost var w := query[begin..end];
    if end - begin < 2 || query[begin] != '!' || query[begin + 1] != '=' {
      return false;
    }
    assert w[2..] == query[begin + 2..end];
    begin := SkipForward(query, begin + 2, end);
    guard := BareYes(query, begin, end);
  }

  method BareYes(query: string, from: nat, end: nat) returns (yes: bool)
    requires from <= end <= |query|
    ensures yes <==> IsBareYes(query[from..end])
  {
    ghost var x := query[from..end];
    var begin := ScanWord(query, from, end);
    assert query[from..begin] == x[..WordLength(x)] && query[begin..end] == x[WordLength(x)..];
    var equal := EqualsIgnoringCase(query[from..begin], "yes");
    begin := SkipForward(query, begin, end);
    yes := begin == end && equal;
  }

  method QuotedYes(query: string, from: nat, end: nat, delimiter: char) returns (yes: bool)
    requires from <= end <= |query|
    ensures yes <==> IsQuotedYes(query[from..end], delimiter)
  {
    ghost var x := query[from..end];
    var begin := ScanQuoted(query, from, end, delimiter);
    assert query[from..begin] == x[..QuotedLength(x, delimiter)];
    assert query[begin..end] == x[QuotedLength(x, delimiter)..];
    var equal := EqualsIgnoringCase(query[from..begin], "yes");
    if begin < end {
      assert query[begin..end][1..] == query[begin + 1..end];
      begin := begin + 1;
    }
    begin := SkipForward(query, begin, end);
    yes := begin == end && equal;
  }

  method YesValue(query: string, from: nat, end: nat) returns (yes: bool)
    requires from <= end <= |query|
    ensures yes <==> IsYesValue(query[from..end])
  {
    hide IsQuotedYes, IsBareYes;
    var begin := SkipForward(query, from, end);
    ghost var w := query[begin..end];
    if begin == end || query[begin] != '=' {
      return false;
    }
    assert w[1..] == query[begin + 1..end];
    begin := SkipForward(query, begin + 1, end);
    if begin < end && (query[begin] == '\'' || query[begin] == '"') {
      assert query[begin..end][1..] == query[begin + 1..end];
      yes := QuotedYes(query, begin + 1, end, query[begin]);
    } else {
      yes := BareYes(query, begin, end);
    }
  }

  method FipsClause(query: string, from: nat, to: nat) returns (fips: bool)
    requires from <= to <= |query|
    ensures fips <==> ClauseFips(query[from..to])
  {
    var begin := SkipForward(query, from, to);
    var end := SkipBackward(query, begin, to);
    begin := SkipMark(query, begin, end);
    ghost var u := query[begin..end];
    if begin == end || query[begin] == '-' {
      return false;
    }
    var name := begin;
    begin := ScanName(query, begin, end);
    assert query[name..begin] == u[..NameLength(u)] && query[begin..end] == u[NameLength(u)..];
    var named := EqualsIgnoringCase(query[name..begin], "fips");
    var yes := YesValue(query, begin, end);
    return yes && named;
  }

  // ---------------------------------------------------------------- the two scans over all clauses

  /** The clauses still to be inspected: what was read since the last comma, then the rest of the query. */
  ghost function Remaining(query: string, clause: nat, cursor: nat, quote: Quote): seq<string>
    requires clause <= cursor <= |query|
  {
    var rest := Split(query[cursor..], quote);
    [query[clause..cursor] + rest[0]] + rest[1..]
  }

  /** At the end of a clause the first remaining clause is the text read. */
  lemma ClauseEnds(query: string, clause: nat, cursor: nat, quote: Quote)
    requires clause <= cursor <= |query|
    requires cursor == |query| || (query[cursor] == ',' && quote.None?)
    ensures Remaining(query, clause, cursor, quote) ==
      [query[clause..cursor]] + if cursor == |query| then [] else Remaining(query, cursor + 1, cursor + 1, None)
  {
    assert query[clause..cursor] + "" == query[clause..cursor];
    if cursor == |query| {
      assert query[cursor..] == "";
    } else {
      assert query[cursor..][1..] == query[cursor + 1..];
      assert Split(query[cursor..], quote)[1..] == Split(query[cursor + 1..], None);
      var next := Split(query[cursor + 1..], None);
      assert query[cursor + 1..cursor + 1] + next[0] == next[0];
      assert [next[0]] + next[1..] == next;
    }
  }

  /** Any other character only moves the cursor. */
  lemma ClauseGoesOn(query: string, clause: nat, cursor: nat, quote: Quote)
    requires clause <= cursor < |query|
    requires !(query[cursor] == ',' && quote.None?)
    ensures Remaining(query, clause, cursor, quote)
         == Remaining(query, clause, cursor + 1, NextQuote(quote, query[cursor]))
  {
    assert query[cursor..][1..] == query[cursor + 1..];
    var rest := Split(query[cursor + 1..], NextQuote(quote, query[cursor]));
    assert query[clause..cursor] + ([query[cursor]] + rest[0]) == query[clause..cursor + 1] + rest[0];
  }

  lemma StartsWithAll(query: string)
    ensures Remaining(query, 0, 0, None) == Clauses(query)
  {
    assert query[0..] == query;
    assert query[0..0] + Clauses(query)[0] == Clauses(query)[0];
  }

  /** What the end of a clause adds to the state found so far. */
  lemma FoldClause(query: string, clause: nat, cursor: nat, quote: Quote, found: Marker)
    requires clause <= cursor <= |query|
    requires cursor == |query| || (query[cursor] == ',' && quote.None?)
    ensures var now := Combine(found, ClauseMarker(query[clause..cursor]));
      var total := FoldMarkers(found, Remaining(query, clause, cursor, quote));
      && (cursor == |query| ==> total == now)
      && (cursor < |query| ==> total == FoldMarkers(now, Remaining(query, cursor + 1, cursor + 1, None)))
      && (now.CONFLICT? ==> total.CONFLICT?)
  {
    ClauseEnds(query, clause, cursor, quote);
    var now := Combine(found, ClauseMarker(query[clause..cursor]));
    var rest := if cursor == |query| then [] else Remaining(query, cursor + 1, cursor + 1, None);
    assert ([query[clause..cursor]] + rest)[1..] == rest;
    FoldFrom(now, rest);
  }

  method ComputeMarkerState(query: string) returns (found: Marker)
    ensures found == MarkerState(query)
  {
    hide ClauseMarker;
    var clause, cursor := 0, 0;
    var quote: Quote := None;
    found := ABSENT;
    StartsWithAll(query);
    while true
      invariant clause <= cursor <= |query| && !found.CONFLICT?
      invariant FoldMarkers(found, Remaining(query, clause, cursor, quote)) == MarkerState(query)
      decreases |query| - cursor
    {
      if cursor == |query| || (query[cursor] == ',' && quote.None?) {
        FoldClause(query, clause, cursor, quote, found);
        var current := MarkerClause(query, clause, cursor);
        if current.CONFLICT? || (current.GUARDED? && found.GUARDED?) {
          return CONFLICT;
        }
        if current.GUARDED? {
          found := current;
        }
        if cursor == |query| {
          return;
        }
        clause := cursor + 1;
      } else {
        ClauseGoesOn(query, clause, cursor, quote);
        quote := NextQuote(quote, query[cursor]);
      }
      cursor := cursor + 1;
    }
  }

  /** A missing query (None) requests nothing. */
  method PropqRequestsFips(propq: Option<string>) returns (fips: bool)
    ensures fips <==> propq.Some? && RequestsFips(propq.value)
  {
    if propq.None? {
      return false;
    }
    var query := propq.value;
    var clause, cursor := 0, 0;
    var quote: Quote := None;
    StartsWithAll(query);
    while true
      invariant clause <= cursor <= |query|
      invariant RequestsFips(query) <==> AnyFips(Remaining(query, clause, cursor, quote))
      decreases |query| - cursor
    {
      if cursor == |query| || (query[cursor] == ',' && quote.None?) {
        ClauseEnds(query, clause, cursor, quote);
        ghost var rest := if cursor == |query| then [] else Remaining(query, cursor + 1, cursor + 1, None);
        AnyFipsFirst(query[clause..cursor], rest);
        var current := FipsClause(query, clause, cursor);
        if current {
          return true;
        }
        if cursor == |query| {
          return false;
        }
        clause := cursor + 1;
      } else {
        ClauseGoesOn(query, clause, cursor, quote);
        quote := NextQuote(quote, query[cursor]);
      }
      cursor := cursor + 1;
    }
  }

  ghost predicate AnyFips(clauses: seq<string>) {
    exists c :: c in clauses && ClauseFips(c)
  }

  lemma AnyFipsFirst(first: string, rest: seq<string>)
    ensures AnyFips([first] + rest) <==> ClauseFips(first) || AnyFips(rest)
  {
    assert forall c :: c in [first] + rest <==> c == first || c in rest;
  }

  // ---------------------------------------------------------------- the merged query

  const SIZE_MAX: nat := 0xffff_ffff_ffff_ffff

  /**
   * The merged query in a fresh buffer with its terminator, or None if the size would not fit a
   * `size_t` or the allocation fails.  The size test itself never wraps around.
   */
  method AppendDefaultProperty(properties: string, granted: bool) returns (merged: array?<char>)
    requires |properties| < SIZE_MAX
    ensures merged == null <==> !granted || |Appended(properties)| + 1 > SIZE_MAX
    ensures merged != null ==> fresh(merged) && merged[..] == Appended(properties) + ['\0']
  {
    var oldLength := |properties|;
    var guardLength := |GUARD|;
    var separatorLength := if oldLength == 0 then 0 else 1;
    assert 0 <= SIZE_MAX - guardLength - separatorLength - 1;
    if oldLength > SIZE_MAX - guardLength - separatorLength - 1 {
      return null;
    }
    if !granted {
      return null;
    }
    merged := new char[oldLength + separatorLength + guardLength + 1];
    CopyText(merged, 0, properties);
    if separatorLength != 0 {
      merged[oldLength] := ',';
    }
    ghost var head := if oldLength == 0 then "" else properties + ",";
    assert merged[..oldLength + separatorLength] == head;
    CopyText(merged, oldLength + separatorLength, GUARD + ['\0']);
    hide *;
    assert merged[..] == merged[..oldLength + separatorLength] + merged[oldLength + separatorLength..];
    AppendedText(properties);
  }

  lemma AppendedText(properties: string)
    ensures var head := if |properties| == 0 then "" else properties + ",";
      head + (GUARD + ['\0']) == Appended(properties) + ['\0']
  {
    hide GUARD;
    MoveRight(if |properties| == 0 then "" else properties + ",", GUARD, ['\0']);
  }

  /** `memcpy(target + at, text, |text|)`. */
  method CopyText(target: array<char>, at: nat, text: string)
    requires at + |text| <= target.Length
    modifies target
    ensures target[..at] == old(target[..at]) && target[at..at + |text|] == text
  {
    for i := 0 to |text|
      invariant target[..at] == old(target[..at]) && target[at..at + i] == text[..i]
    {
      target[at + i] := text[i];
      assert target[at..at + i + 1] == target[at..at + i] + [text[i]];
    }
    assert text[..|text|] == text;
  }
}
