/**
 * How the command-line wrapper reads and rewrites NODE_OPTIONS (npm/core/bin/awskms.js:51-54, 79-127): a
 * shell-like parser, the removal of openssl-config options, and a printer made of JSON strings.
 * Characters are Unicode scalar values, so a lone surrogate is not part of this model.
 */
module NodeOptions {
  import opened Bytes

  datatype Result<+T> = Ok(value: T) | UnmatchedQuote

  /** `\s` of JavaScript. */
  predicate IsSpace(c: char) {
    var u := c as int;
    || 9 <= u <= 13 || u == 0x20 || u == 0xa0 || u == 0x1680 || 0x2000 <= u <= 0x200a
    || u == 0x2028 || u == 0x2029 || u == 0x202f || u == 0x205f || u == 0x3000 || u == 0xfeff
  }

  // ---------------------------------------------------------------- parsing

  datatype Parser = Parser(args: seq<string>, current: string, quote: Option<char>, escaped: bool)

  const START := Parser([], "", None, false)

  function Flush(args: seq<string>, current: string): seq<string> {
    if current != "" then args + [current] else args
  }

  function Read(p: Parser, c: char): Parser {
    if p.escaped then p.(current := p.current + [c], escaped := false)
    else if c == '\\' && p.quote != Some('\'') then p.(escaped := true)
    else if p.quote.Some? then if p.quote.value == c then p.(quote := None) else p.(current := p.current + [c])
    else if c == '"' || c == '\'' then p.(quote := Some(c))
    else if IsSpace(c) then p.(args := Flush(p.args, p.current), current := "")
    else p.(current := p.current + [c])
  }

  function Feed(p: Parser, s: string): Parser
    decreases |s|
  {
    if s == "" then p else Feed(Read(p, s[0]), s[1..])
  }

  /** A backslash at the very end stands for itself. */
  function Finish(p: Parser): Result<seq<string>> {
    if p.quote.Some? then UnmatchedQuote
    else Ok(Flush(p.args, p.current + if p.escaped then "\\" else ""))
  }

  function Parse(value: string): Result<seq<string>> {
    Finish(Feed(START, value))
  }

  method ParseNodeOptions(value: Option<string>) returns (parsed: Result<seq<string>>)
    ensures parsed == Parse(if value.Some? then value.value else "")
  {
    var text := if value.Some? then value.value else "";
    var args: seq<string>, current := [], "";
    var quote: Option<char> := None;
    var escaped := false;
    for i := 0 to |text|
      invariant Feed(Parser(args, current, quote, escaped), text[i..]) == Feed(START, text)
    {
      var character := text[i];
      assert text[i..][1..] == text[i + 1..];
      if escaped {
        current := current + [character];
        escaped := false;
      } else if character == '\\' && quote != Some('\'') {
        escaped := true;
      } else if quote.Some? {
        if Some(character) == quote {
          quote := None;
        } else {
          current := current + [character];
        }
      } else if character == '"' || character == '\'' {
        quote := Some(character);
      } else if IsSpace(character) {
        if current != "" {
          args := args + [current];
          current := "";
        }
      } else {
        current := current + [character];
      }
    }
    if escaped {
      current := current + "\\";
    } else {
      assert current + "" == current;
    }
    if quote.Some? {
      return UnmatchedQuote;
    }
    if current != "" {
      args := args + [current];
    }
    return Ok(args);
  }

  // ---------------------------------------------------------------- printing

  function HexDigit(v: nat): char
    requires v < 16
  {
    if v < 10 then (v + '0' as int) as char else (v - 10 + 'a' as int) as char
  }

  predicate IsControl(c: char) {
    c as int < 0x20
  }

  /** What JSON writes behind the backslash for a control character. */
  function ControlName(c: char): (name: string)
    requires IsControl(c)
    ensures name != ""
  {
    match c as int
    case 8 => "b"
    case 9 => "t"
    case 10 => "n"
    case 12 => "f"
    case 13 => "r"
    case u => ['u', '0', '0', HexDigit(u / 16), HexDigit(u % 16)]
  }

  function JsonChar(c: char): string {
    if c == '"' || c == '\\' then ['\\', c]
    else if IsControl(c) then "\\" + ControlName(c)
    else [c]
  }

  function JsonChars(s: string): string {
    if s == "" then "" else JsonChar(s[0]) + JsonChars(s[1..])
  }

  /** `JSON.stringify` of a string. */
  function Json(s: string): string {
    "\"" + (JsonChars(s) + "\"")
  }

  /** `args.map((argument) => JSON.stringify(argument)).join(' ')` */
  function Print(args: seq<string>): string {
    if args == [] then ""
    else if |args| == 1 then Json(args[0])
    else Json(args[0]) + (" " + Print(args[1..]))
  }

  // ---------------------------------------------------------------- what comes back

  /** The parser drops the backslash of every escape, so a control character comes back as its name. */
  function Seen(s: string): string {
    if s == "" then "" else (if IsControl(s[0]) then ControlName(s[0]) else [s[0]]) + Seen(s[1..])
  }

  function AllSeen(args: seq<string>): seq<string> {
    if args == [] then []
    else Flush([], Seen(args[0])) + AllSeen(args[1..])
  }

  /** An argument that survives printing and parsing. */
  predicate IsClean(arg: string) {
    arg != "" && ControlFree(arg)
  }

  predicate ControlFree(arg: string) {
    forall i :: 0 <= i < |arg| ==> !IsControl(arg[i])
  }

  ghost predicate AllClean(args: seq<string>) {
    forall i :: 0 <= i < |args| ==> IsClean(args[i])
  }

  lemma {:induction false} FeedConcat(p: Parser, a: string, b: string)
    ensures Feed(p, a + b) == Feed(Feed(p, a), b)
    decreases |a|
  {
    hide Read;
    if a == "" {
      assert a + b == b;
    } else {
      assert (a + b)[1..] == a[1..] + b && (a + b)[0] == a[0];
      FeedConcat(Read(p, a[0]), a[1..], b);
    }
  }

  /** Characters that are plain inside double quotes. */
  predicate Plain(s: string) {
    '"' !in s && '\\' !in s
  }

  lemma {:induction false} FeedPlain(args: seq<string>, current: string, s: string)
    requires Plain(s)
    ensures Feed(Parser(args, current, Some('"'), false), s) == Parser(args, current + s, Some('"'), false)
    decreases |s|
  {
    if s == "" {
      assert current + s == current;
    } else {
      FeedPlain(args, current + [s[0]], s[1..]);
      assert (current + [s[0]]) + s[1..] == current + s;
    }
  }

  lemma FeedEscape(args: seq<string>, current: string, c: char, rest: string)
    requires Plain(rest)
    ensures Feed(Parser(args, current, Some('"'), false), ['\\', c] + rest)
         == Parser(args, current + ([c] + rest), Some('"'), false)
  {
    var s := ['\\', c] + rest;
    assert s[1..][0] == c && s[1..][1..] == rest;
    var p := Parser(args, current, Some('"'), false);
    assert Read(Read(p, '\\'), c) == Parser(args, current + [c], Some('"'), false);
    assert Feed(p, s) == Feed(Read(p, '\\'), s[1..]) == Feed(Read(Read(p, '\\'), c), rest);
    FeedPlain(args, current + [c], rest);
    assert (current + [c]) + rest == current + ([c] + rest);
  }

  lemma NameIsPlain(c: char)
    requires IsControl(c)
    ensures Plain(ControlName(c)) && !IsControl(ControlName(c)[0])
  {
  }

  lemma FeedJsonChar(args: seq<string>, current: string, c: char)
    ensures Feed(Parser(args, current, Some('"'), false), JsonChar(c))
         == Parser(args, current + (if IsControl(c) then ControlName(c) else [c]), Some('"'), false)
  {
    hide Feed, Read, ControlName;
    if c == '"' || c == '\\' {
      FeedEscape(args, current, c, "");
      assert ['\\', c] + "" == ['\\', c] && [c] + "" == [c];
    } else if IsControl(c) {
      NameIsPlain(c);
      var name := ControlName(c);
      FeedEscape(args, current, name[0], name[1..]);
      assert "\\" + name == ['\\', name[0]] + name[1..] && [name[0]] + name[1..] == name;
    } else {
      FeedPlain(args, current, [c]);
    }
  }

  lemma {:induction false} FeedJsonChars(args: seq<string>, current: string, s: string)
    ensures Feed(Parser(args, current, Some('"'), false), JsonChars(s))
         == Parser(args, current + Seen(s), Some('"'), false)
    decreases |s|
  {
    hide Read, ControlName, JsonChar;
    if s == "" {
      assert current + "" == current;
    } else {
      var piece := if IsControl(s[0]) then ControlName(s[0]) else [s[0]];
      FeedConcat(Parser(args, current, Some('"'), false), JsonChar(s[0]), JsonChars(s[1..]));
      FeedJsonChar(args, current, s[0]);
      FeedJsonChars(args, current + piece, s[1..]);
      assert (current + piece) + Seen(s[1..]) == current + (piece + Seen(s[1..]));
    }
  }

  lemma FeedJson(args: seq<string>, s: string)
    ensures Feed(Parser(args, "", None, false), Json(s)) == Parser(args, Seen(s), None, false)
  {
    hide JsonChars, Seen;
    var open := Parser(args, "", Some('"'), false);
    assert Json(s)[1..] == JsonChars(s) + "\"" && Json(s)[0] == '"';
    FeedConcat(open, JsonChars(s), "\"");
    FeedJsonChars(args, "", s);
    var closing := Parser(args, "" + Seen(s), Some('"'), false);
    assert "" + Seen(s) == Seen(s);
    assert Feed(closing, "\"") == Feed(Read(closing, '"'), ""[0..]);
  }

  lemma FeedSpace(args: seq<string>, current: string)
    ensures Read(Parser(args, current, None, false), ' ') == Parser(Flush(args, current), "", None, false)
  {
  }

  /** A printed argument and the blank behind it. */
  lemma FeedArgument(args: seq<string>, s: string, rest: string)
    ensures Feed(Parser(args, "", None, false), Json(s) + (" " + rest))
         == Feed(Parser(Flush(args, Seen(s)), "", None, false), rest)
  {
    hide Read, Json, Seen;
    FeedJson(args, s);
    FeedConcat(Parser(args, "", None, false), Json(s), " " + rest);
    FeedSpace(args, Seen(s));
    assert (" " + rest)[0] == ' ' && (" " + rest)[1..] == rest;
  }

  lemma {:induction false} FeedPrint(args: seq<string>, done: seq<string>)
    ensures var p := Feed(Parser(done, "", None, false), Print(args));
      p.quote.None? && !p.escaped && Flush(p.args, p.current) == done + AllSeen(args)
    decreases |args|
  {
    hide Read, Json, Seen;
    if args == [] {
      assert done + [] == done;
    } else {
      var first := Flush([], Seen(args[0]));
      var next := Flush(done, Seen(args[0]));
      assert next == done + first && done + (first + AllSeen(args[1..])) == next + AllSeen(args[1..]);
      if |args| > 1 {
        FeedArgument(done, args[0], Print(args[1..]));
        FeedPrint(args[1..], next);
      } else {
        FeedJson(done, args[0]);
        assert args[1..] == [] && first + [] == first;
      }
    }
  }

  /** Whatever is printed parses: empty arguments vanish, control characters come back as their names. */
  lemma PrintedAlwaysParses(args: seq<string>)
    ensures Parse(Print(args)) == Ok(AllSeen(args))
  {
    hide Feed, Print, AllSeen;
    FeedPrint(args, []);
    assert [] + AllSeen(args) == AllSeen(args);
    var p := Feed(START, Print(args));
    assert p.current + "" == p.current;
  }

  lemma {:induction false} SeenExactly(s: string)
    ensures Seen(s) == s <==> forall i :: 0 <= i < |s| ==> !IsControl(s[i])
    ensures Seen(s) == "" <==> s == ""
  {
    if s != "" {
      SeenExactly(s[1..]);
      assert forall i :: 1 <= i < |s| ==> s[i] == s[1..][i - 1];
      if IsControl(s[0]) {
        NameIsPlain(s[0]);
        assert Seen(s)[0] == ControlName(s[0])[0];
      } else {
        assert Seen(s)[1..] == Seen(s[1..]) && [s[0]] + s[1..] == s;
      }
    }
  }

  lemma {:induction false} AllSeenExactly(args: seq<string>)
    ensures AllSeen(args) == args <==> AllClean(args)
    ensures |AllSeen(args)| <= |args|
  {
    hide Seen;
    if args != [] {
      var first, rest := args[0], args[1..];
      SeenExactly(first);
      AllSeenExactly(rest);
      assert args == [first] + rest;
      assert forall i :: 1 <= i < |args| ==> args[i] == rest[i - 1];
      assert AllClean(args) <==> IsClean(first) && AllClean(rest);
      if first != "" {
        assert AllSeen(args)[0] == Seen(first) && AllSeen(args)[1..] == AllSeen(rest);
      }
    }
  }

  /** Parsing undoes printing exactly for arguments that are not empty and hold no control character. */
  lemma ParseUndoesPrint(args: seq<string>)
    ensures Parse(Print(args)) == Ok(args) <==> AllClean(args)
  {
    PrintedAlwaysParses(args);
    AllSeenExactly(args);
  }

  lemma {:induction false} FeedKeepsNonEmpty(p: Parser, s: string)
    requires "" !in p.args
    ensures "" !in Feed(p, s).args
    decreases |s|
  {
    if s != "" {
      FeedKeepsNonEmpty(Read(p, s[0]), s[1..]);
    }
  }

  lemma ParsedAreNonEmpty(value: string)
    requires Parse(value).Ok?
    ensures "" !in Parse(value).value
  {
    FeedKeepsNonEmpty(START, value);
  }

  // ---------------------------------------------------------------- the openssl-config options

  const OPTION := "--openssl-config"

  /** The option with its value in the same argument. */
  predicate IsJoined(arg: string) {
    OPTION + "=" <= arg
  }

  ghost predicate HasOpenSSLConfig(args: seq<string>) {
    exists i :: 0 <= i < |args| && (args[i] == OPTION || IsJoined(args[i]))
  }

  /** A bare option takes the next argument, if there is one, with it. */
  function Without(args: seq<string>): seq<string> {
    if args == [] then []
    else if args[0] == OPTION then if |args| == 1 then [] else Without(args[2..])
    else if IsJoined(args[0]) then Without(args[1..])
    else [args[0]] + Without(args[1..])
  }

  method WithoutOpenSSLConfig(args: seq<string>) returns (retained: seq<string>)
    ensures retained == Without(args)
  {
    retained := [];
    var index := 0;
    assert args[0..] == args && [] + Without(args) == Without(args);
    while index < |args|
      invariant index <= |args| + 1
      invariant retained + (if index < |args| then Without(args[index..]) else []) == Without(args)
    {
      ghost var rest := args[index..];
      assert rest[1..] == args[index + 1..] && (|rest| > 1 ==> rest[2..] == args[index + 2..]);
      if args[index] == OPTION {
        index := index + 1;
      } else if !IsJoined(args[index]) {
        assert retained + ([args[index]] + Without(rest[1..])) == (retained + [args[index]]) + Without(rest[1..]);
        retained := retained + [args[index]];
      }
      index := index + 1;
    }
    assert retained + [] == retained;
  }

  /** Nothing is left of the option, what had none is left as it is, and nothing new comes in. */
  lemma {:induction false} WithoutHasNone(args: seq<string>)
    ensures !HasOpenSSLConfig(Without(args))
    ensures !HasOpenSSLConfig(args) ==> Without(args) == args
    ensures forall arg :: arg in Without(args) ==> arg in args
  {
    if args != [] {
      var rest := args[1..];
      assert args == [args[0]] + rest;
      if args[0] == OPTION {
        if |args| > 1 {
          WithoutHasNone(args[2..]);
        }
      } else {
        WithoutHasNone(rest);
        assert forall i :: 0 <= i < |rest| ==> args[i + 1] == rest[i];
      }
    }
  }

  /** Argument `k` is the value a bare option in front of it takes. */
  predicate IsValue(args: seq<string>, k: nat)
    requires k < |args|
  {
    k > 0 && args[k - 1] == OPTION && !IsValue(args, k - 1)
  }

  /** The value of a bare option, whatever it looks like, a bare option, or an option joined with its value. */
  ghost predicate IsTaken(args: seq<string>, k: nat)
    requires k < |args|
  {
    IsValue(args, k) || args[k] == OPTION || exists value :: args[k] == OPTION + "=" + value
  }

  /** The first n arguments without those taken, in order and with repetitions. */
  ghost function Untaken(args: seq<string>, n: nat): seq<string>
    requires n <= |args|
  {
    if n == 0 then [] else Untaken(args, n - 1) + if IsTaken(args, n - 1) then [] else [args[n - 1]]
  }

  lemma JoinedExactly(arg: string)
    ensures IsJoined(arg) <==> exists value :: arg == OPTION + "=" + value
  {
    if IsJoined(arg) {
      assert arg == OPTION + "=" + arg[|OPTION + "="|..];
    }
  }

  lemma {:induction false} UntakenFrom(args: seq<string>, i: nat)
    requires i <= |args| && (i < |args| ==> !IsValue(args, i))
    ensures Untaken(args, |args|) == Untaken(args, i) + Without(args[i..])
    decreases |args| - i
  {
    var rest := args[i..];
    if i < |args| {
      assert rest[1..] == args[i + 1..];
      JoinedExactly(args[i]);
      if args[i] == OPTION && i + 1 < |args| {
        assert rest[2..] == args[i + 2..];
        UntakenFrom(args, i + 2);
      } else {
        UntakenFrom(args, i + 1);
      }
    }
  }

  /** What is kept is all that is not taken, for every list of arguments. */
  lemma WithoutKeepsTheRest(args: seq<string>)
    ensures Without(args) == Untaken(args, |args|)
  {
    UntakenFrom(args, 0);
    assert args[0..] == args;
  }

  /** The NODE_OPTIONS of the child: the old arguments without the option, then the option once. */
  function Rewritten(args: seq<string>, path: string): seq<string> {
    Without(args) + [OPTION + "=" + path]
  }

  method NodeOptionsWithConfig(value: Option<string>, path: string) returns (rewritten: Result<string>)
    ensures match Parse(if value.Some? then value.value else "")
      case UnmatchedQuote => rewritten == UnmatchedQuote
      case Ok(args) => rewritten == Ok(Print(Rewritten(args, path)))
  {
    var parsed := ParseNodeOptions(value);
    match parsed {
      case UnmatchedQuote =>
        return UnmatchedQuote;
      case Ok(args) =>
        var retained := WithoutOpenSSLConfig(args);
        return Ok(Print(retained + [OPTION + "=" + path]));
    }
  }

  /**
   * The rewritten value parses to the old arguments that are not taken by an openssl-config option, plus
   * exactly one such option at the end, precisely when neither those arguments nor the path hold a control
   * character.
   */
  lemma RewriteParses(value: string, path: string)
    requires Parse(value).Ok?
    ensures var args := Parse(value).value; var line := Print(Rewritten(args, path));
      var kept := Untaken(args, |args|);
      && Parse(line).Ok?
      && (Parse(line) == Ok(kept + [OPTION + "=" + path]) <==>
            ControlFree(path) && forall i :: 0 <= i < |kept| ==> ControlFree(kept[i]))
      && !HasOpenSSLConfig(kept)
  {
    WithoutKeepsTheRest(Parse(value).value);
    hide Untaken;
    var args := Parse(value).value;
    var kept, last := Without(args), OPTION + "=" + path;
    ParsedAreNonEmpty(value);
    OptionIsClean(path);
    hide Parse, Print, Without, HasOpenSSLConfig, ControlFree;
    var all := Rewritten(args, path);
    PrintedAlwaysParses(all);
    ParseUndoesPrint(all);
    WithoutHasNone(args);
    assert all[|all| - 1] == last;
    assert forall i :: 0 <= i < |kept| ==> all[i] == kept[i] && kept[i] in kept && kept[i] != "";
    assert AllClean(all) <==> IsClean(last) && forall i :: 0 <= i < |kept| ==> ControlFree(kept[i]);
  }

  lemma OptionIsClean(path: string)
    ensures IsClean(OPTION + "=" + path) <==> ControlFree(path)
  {
    var head := OPTION + "=";
    assert forall i :: 0 <= i < |head| ==> !IsControl(head[i]);
    assert forall i :: 0 <= i < |path| ==> (head + path)[|head| + i] == path[i];
  }

  /** Rewriting once more, with any path, keeps what the first rewriting retained. */
  lemma RewriteIsStable(args: seq<string>, path: string, other: string)
    ensures Rewritten(Rewritten(args, path), other) == Rewritten(args, other)
  {
    WithoutHasNone(args);
    WithoutConcat(Without(args), OPTION + "=" + path);
  }

  lemma {:induction false} WithoutConcat(args: seq<string>, last: string)
    requires !HasOpenSSLConfig(args) && IsJoined(last)
    ensures Without(args + [last]) == args
  {
    if args == [] {
      assert args + [last] == [last];
      assert [last][1..] == [];
      assert |last| > |OPTION|;
    } else {
      var rest := args[1..];
      assert forall i :: 0 <= i < |rest| ==> rest[i] == args[i + 1];
      assert (args + [last])[1..] == rest + [last];
      assert args[0] != OPTION && !IsJoined(args[0]);
      WithoutConcat(rest, last);
      assert [args[0]] + rest == args;
    }
  }
}
