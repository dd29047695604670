/**
 * What NODE_OPTIONS texts mean, without a parser: a text is a row of tokens, and perhaps something left open
 * at its end.  Every text can be read so, and the parser of `NodeOptions` gives what the tokens say.
 */
module NodeOptionsGrammar {
  import opened Bytes
  import opened NodeOptions

  /** A character between double quotes, plain or behind a backslash. */
  datatype Inner = Raw(c: char) | Behind(c: char)

  datatype Token =
    | Gap(c: char)                    // white space outside quotes
    | Bare(c: char)
    | Escaped(c: char)
    | Single(s: string)               // '...', a backslash stands for itself
    | Double(inner: seq<Inner>)       // "..."

  /** What a text ends with behind its last token. */
  datatype End = Nothing | Backslash | OpenSingle(s: string) | OpenDouble(inner: seq<Inner>, backslash: bool)

  predicate InnerOk(x: Inner) {
    x.Raw? ==> x.c != '"' && x.c != '\\'
  }

  predicate TokenOk(t: Token) {
    match t
    case Gap(c) => IsSpace(c)
    case Bare(c) => !IsSpace(c) && c != '"' && c != '\'' && c != '\\'
    case Escaped(_) => true
    case Single(s) => '\'' !in s
    case Double(s) => forall i :: 0 <= i < |s| ==> InnerOk(s[i])
  }

  predicate EndOk(end: End) {
    match end
    case OpenSingle(s) => '\'' !in s
    case OpenDouble(s, _) => forall i :: 0 <= i < |s| ==> InnerOk(s[i])
    case _ => true
  }

  predicate TokensOk(ts: seq<Token>) {
    forall i :: 0 <= i < |ts| ==> TokenOk(ts[i])
  }

  function InnerText(s: seq<Inner>): string {
    if s == [] then "" else InnerText(s[..|s| - 1]) + if s[|s| - 1].Raw? then [s[|s| - 1].c] else ['\\', s[|s| - 1].c]
  }

  function InnerValue(s: seq<Inner>): string {
    if s == [] then "" else InnerValue(s[..|s| - 1]) + [s[|s| - 1].c]
  }

  function TokenText(t: Token): string {
    match t
    case Gap(c) => [c]
    case Bare(c) => [c]
    case Escaped(c) => ['\\', c]
    case Single(s) => "'" + s + "'"
    case Double(s) => "\"" + InnerText(s) + "\""
  }

  function TokensText(ts: seq<Token>): string {
    if ts == [] then "" else TokensText(ts[..|ts| - 1]) + TokenText(ts[|ts| - 1])
  }

  function EndText(end: End): string {
    match end
    case Nothing => ""
    case Backslash => "\\"
    case OpenSingle(s) => "'" + s
    case OpenDouble(s, backslash) => "\"" + InnerText(s) + if backslash then "\\" else ""
  }

  /** What a token adds to its word. */
  function TokenValue(t: Token): string
    requires !t.Gap?
  {
    match t
    case Bare(c) => [c]
    case Escaped(c) => [c]
    case Single(s) => s
    case Double(s) => InnerValue(s)
  }

  /** The word the tokens end in: what follows the last gap. */
  function LastWord(ts: seq<Token>): string {
    if ts == [] || ts[|ts| - 1].Gap? then "" else LastWord(ts[..|ts| - 1]) + TokenValue(ts[|ts| - 1])
  }

  /** The words in front of the last gap; empty ones do not count. */
  function WordsBefore(ts: seq<Token>): seq<string> {
    if ts == [] then []
    else if ts[|ts| - 1].Gap? then Flush(WordsBefore(ts[..|ts| - 1]), LastWord(ts[..|ts| - 1]))
    else WordsBefore(ts[..|ts| - 1])
  }

  // ---------------------------------------------------------------- the parser reads tokens

  lemma FeedOne(p: Parser, s: string, c: char)
    ensures Feed(p, s + [c]) == Read(Feed(p, s), c)
  {
    FeedConcat(p, s, [c]);
    assert [c][1..] == "";
    assert Feed(Feed(p, s), [c]) == Feed(Read(Feed(p, s), c), "");
  }

  lemma {:induction false} FeedSingle(p: Parser, s: string)
    requires '\'' !in s && p.quote == Some('\'') && !p.escaped
    ensures Feed(p, s) == p.(current := p.current + s)
    decreases |s|
  {
    if s == "" {
      assert p.current + "" == p.current;
    } else {
      var q := p.(current := p.current + [s[0]]);
      FeedSingle(q, s[1..]);
      assert q.current + s[1..] == p.current + s;
    }
  }

  lemma {:induction false} FeedInner(p: Parser, s: seq<Inner>)
    requires p.quote == Some('"') && !p.escaped && forall i :: 0 <= i < |s| ==> InnerOk(s[i])
    ensures Feed(p, InnerText(s)) == p.(current := p.current + InnerValue(s))
    decreases |s|
  {
    if s == [] {
      assert p.current + "" == p.current;
    } else {
      var front, x := s[..|s| - 1], s[|s| - 1];
      FeedInner(p, front);
      var q := p.(current := p.current + InnerValue(front));
      assert (p.current + InnerValue(front)) + [x.c] == p.current + (InnerValue(front) + [x.c]);
      if x.Raw? {
        FeedOne(p, InnerText(front), x.c);
      } else {
        FeedOne(p, InnerText(front), '\\');
        FeedOne(p, InnerText(front) + ['\\'], x.c);
        assert (InnerText(front) + ['\\']) + [x.c] == InnerText(front) + ['\\', x.c];
      }
    }
  }

  lemma FeedToken(p: Parser, t: Token)
    requires TokenOk(t) && p.quote.None? && !p.escaped
    ensures Feed(p, TokenText(t))
         == if t.Gap? then p.(args := Flush(p.args, p.current), current := "")
            else p.(current := p.current + TokenValue(t))
  {
    hide Feed, InnerText, InnerValue;
    FeedNothing(p);
    match t
    case Gap(c) => FeedOne(p, "", c);
    case Bare(c) => FeedOne(p, "", c);
    case Escaped(c) =>
      FeedOne(p, "", '\\');
      FeedOne(p, "" + ['\\'], c);
      assert "" + ['\\'] + [c] == ['\\', c];
    case Single(s) =>
      FeedOpenSingle(p, s);
      FeedOne(p, "'" + s, '\'');
    case Double(s) =>
      FeedOpenDouble(p, s);
      FeedOne(p, "\"" + InnerText(s), '"');
  }

  lemma FeedNothing(p: Parser)
    ensures Feed(p, "") == p && forall c: char :: "" + [c] == [c]
  {
  }

  lemma FeedOpenSingle(p: Parser, s: string)
    requires '\'' !in s && p.quote.None? && !p.escaped
    ensures Feed(p, "'" + s) == p.(quote := Some('\''), current := p.current + s)
  {
    assert ("'" + s)[1..] == s;
    FeedSingle(p.(quote := Some('\'')), s);
  }

  lemma FeedOpenDouble(p: Parser, s: seq<Inner>)
    requires p.quote.None? && !p.escaped && forall i :: 0 <= i < |s| ==> InnerOk(s[i])
    ensures Feed(p, "\"" + InnerText(s)) == p.(quote := Some('"'), current := p.current + InnerValue(s))
  {
    assert ("\"" + InnerText(s))[1..] == InnerText(s);
    FeedInner(p.(quote := Some('"')), s);
  }

  lemma {:induction false} FeedTokens(ts: seq<Token>)
    requires TokensOk(ts)
    ensures Feed(START, TokensText(ts)) == Parser(WordsBefore(ts), LastWord(ts), None, false)
    decreases |ts|
  {
    hide Feed, TokenOk, TokenText, TokenValue;
    if ts == [] {
      FeedNothing(START);
    } else {
      var front, t := ts[..|ts| - 1], ts[|ts| - 1];
      FeedTokens(front);
      FeedConcat(START, TokensText(front), TokenText(t));
      FeedToken(Parser(WordsBefore(front), LastWord(front), None, false), t);
    }
  }

  /**
   * The meaning of a text: its words, a backslash at the very end standing for itself; with a quote left open
   * it has none.
   */
  lemma ParseMeans(ts: seq<Token>, end: End)
    requires TokensOk(ts) && EndOk(end)
    ensures Parse(TokensText(ts) + EndText(end)) == match end
      case Nothing => Ok(Flush(WordsBefore(ts), LastWord(ts)))
      case Backslash => Ok(Flush(WordsBefore(ts), LastWord(ts) + "\\"))
      case _ => UnmatchedQuote
  {
    hide Feed, TokensText, WordsBefore, LastWord, InnerText, InnerValue, TokenOk;
    var p := Parser(WordsBefore(ts), LastWord(ts), None, false);
    FeedTokens(ts);
    FeedConcat(START, TokensText(ts), EndText(end));
    FeedNothing(p);
    match end
    case Nothing => assert p.current + "" == p.current;
    case Backslash => FeedOne(p, "", '\\');
    case OpenSingle(s) => FeedOpenSingle(p, s);
    case OpenDouble(s, backslash) =>
      FeedOpenDouble(p, s);
      if backslash {
        FeedOne(p, "\"" + InnerText(s), '\\');
      } else {
        assert "\"" + InnerText(s) + "" == "\"" + InnerText(s);
      }
  }

  // ---------------------------------------------------------------- every text has tokens

  lemma TokensGrow(ts: seq<Token>, t: Token)
    requires TokensOk(ts) && TokenOk(t)
    ensures TokensOk(ts + [t]) && TokensText(ts + [t]) == TokensText(ts) + TokenText(t)
  {
    assert (ts + [t])[..|ts|] == ts;
  }

  lemma InnerGrows(s: seq<Inner>, x: Inner)
    ensures InnerText(s + [x]) == InnerText(s) + if x.Raw? then [x.c] else ['\\', x.c]
  {
    assert (s + [x])[..|s|] == s;
  }

  /** One more character closes, opens or lengthens what the text ends with. */
  lemma OneMore(ts: seq<Token>, end: End, c: char) returns (ts': seq<Token>, end': End)
    requires TokensOk(ts) && EndOk(end)
    ensures TokensOk(ts') && EndOk(end')
    ensures TokensText(ts') + EndText(end') == TokensText(ts) + EndText(end) + [c]
  {
    hide TokensText, InnerText, TokensOk;
    ts', end' := ts, end;
    match end
    case Nothing =>
      if c == '\\' {
        end' := Backslash;
      } else if c == '\'' {
        end' := OpenSingle("");
      } else if c == '"' {
        end' := OpenDouble([], false);
        NoInner();
      } else {
        ts' := ts + [if IsSpace(c) then Gap(c) else Bare(c)];
        TokensGrow(ts, if IsSpace(c) then Gap(c) else Bare(c));
      }
    case Backslash =>
      ts', end' := ts + [Escaped(c)], Nothing;
      TokensGrow(ts, Escaped(c));
    case OpenSingle(s) =>
      if c == '\'' {
        ts', end' := ts + [Single(s)], Nothing;
        TokensGrow(ts, Single(s));
      } else {
        end' := OpenSingle(s + [c]);
      }
    case OpenDouble(s, backslash) =>
      if backslash {
        end' := OpenDouble(s + [Behind(c)], false);
        InnerGrows(s, Behind(c));
      } else if c == '"' {
        ts', end' := ts + [Double(s)], Nothing;
        TokensGrow(ts, Double(s));
      } else if c == '\\' {
        end' := OpenDouble(s, true);
      } else {
        end' := OpenDouble(s + [Raw(c)], false);
        InnerGrows(s, Raw(c));
      }
  }

  lemma NoInner()
    ensures InnerText([]) == ""
  {
  }

  lemma NoTokens()
    ensures TokensOk([]) && EndOk(Nothing) && TokensText([]) + EndText(Nothing) == ""
  {
  }

  lemma {:induction false} EveryTextHasTokens(text: string) returns (ts: seq<Token>, end: End)
    ensures TokensOk(ts) && EndOk(end) && text == TokensText(ts) + EndText(end)
    decreases |text|
  {
    hide *;
    if text == "" {
      ts, end := [], Nothing;
      NoTokens();
    } else {
      var last := |text| - 1;
      ts, end := EveryTextHasTokens(text[..last]);
      ts, end := OneMore(ts, end, text[last]);
      assert text == text[..last] + [text[last]];
    }
  }

  /** Tokens whose words are the arguments, and nothing left open but perhaps a backslash. */
  predicate Reads(text: string, args: seq<string>, ts: seq<Token>, end: End) {
    && TokensOk(ts) && text == TokensText(ts) + EndText(end)
    && (end.Nothing? || end.Backslash?)
    && args == Flush(WordsBefore(ts), LastWord(ts) + if end.Backslash? then "\\" else "")
  }

  /** The parser, exactly: it gives the arguments a text can be read as, and fails if it cannot be read. */
  lemma ParseExactly(text: string, args: seq<string>)
    ensures Parse(text) == Ok(args) <==> exists ts, end :: Reads(text, args, ts, end)
  {
    hide Parse, TokensText, EndText, WordsBefore, LastWord, TokensOk;
    forall ts, end | Reads(text, args, ts, end)
      ensures Parse(text) == Ok(args)
    {
      ParseMeans(ts, end);
      assert LastWord(ts) + "" == LastWord(ts);
    }
    if Parse(text) == Ok(args) {
      var ts, end := EveryTextHasTokens(text);
      ParseMeans(ts, end);
      assert LastWord(ts) + "" == LastWord(ts);
      assert Reads(text, args, ts, end);
    }
  }

  // ---------------------------------------------------------------- what is printed is JSON

  function HexVal(c: char): int {
    if '0' <= c <= '9' then c as int - '0' as int else if 'a' <= c <= 'f' then c as int - 'a' as int + 10 else -1
  }

  /** The character a two-character escape stands for (section 7 of RFC 8259). */
  function Escape(c: char): Option<char> {
    match c
    case '"' => Some('"')
    case '\\' => Some('\\')
    case '/' => Some('/')
    case 'b' => Some(8 as char)
    case 'f' => Some(12 as char)
    case 'n' => Some(10 as char)
    case 'r' => Some(13 as char)
    case 't' => Some(9 as char)
    case _ => None
  }

  /** The text between the quotes of a JSON string, as far as escapes of the first 256 characters go. */
  function Unescape(s: string): Option<string>
    decreases |s|
  {
    if s == "" then Some("")
    else if s[0] == '"' || s[0] as int < 0x20 then None
    else
      var n, c :=
        if s[0] != '\\' then 1 else if |s| > 1 && s[1] != 'u' then 2 else 6,
        if s[0] != '\\' then Some(s[0])
        else if |s| > 1 && s[1] != 'u' then Escape(s[1])
        else if |s| > 5 && s[2] == '0' && s[3] == '0' && HexVal(s[4]) >= 0 && HexVal(s[5]) >= 0 then
          Some((16 * HexVal(s[4]) + HexVal(s[5])) as char)
        else None;
      if c.None? || n > |s| then None
      else
        var rest := Unescape(s[n..]);
        if rest.None? then None else Some([c.value] + rest.value)
  }

  lemma JsonCharReads(c: char, rest: string)
    requires Unescape(rest).Some?
    ensures Unescape(JsonChar(c) + rest) == Some([c] + Unescape(rest).value)
  {
    var t := JsonChar(c);
    assert (t + rest)[|t|..] == rest;
    if IsControl(c) {
      ControlNameReads(c);
    }
    hide ControlName;
  }

  lemma ControlNameReads(c: char)
    requires IsControl(c)
    ensures var name := ControlName(c);
      || (|name| == 1 && name[0] != 'u' && Escape(name[0]) == Some(c))
      || (|name| == 5 && name[0] == 'u' && name[1] == name[2] == '0' && HexVal(name[3]) >= 0 && HexVal(name[4]) >= 0
          && 16 * HexVal(name[3]) + HexVal(name[4]) == c as int)
  {
  }

  /** A printed argument is a JSON string that says what the argument is. */
  lemma {:induction false} PrintedIsJson(arg: string)
    ensures Json(arg) == "\"" + (JsonChars(arg) + "\"") && Unescape(JsonChars(arg)) == Some(arg)
  {
    hide JsonChar, Unescape;
    if arg == "" {
      NothingReads();
    } else {
      PrintedIsJson(arg[1..]);
      JsonCharReads(arg[0], JsonChars(arg[1..]));
      assert arg == [arg[0]] + arg[1..];
    }
  }

  lemma NothingReads()
    ensures Unescape("") == Some("")
  {
  }
}
