/**
 * The attribute layer of aws-kms URIs (src/uri.c:27-297): percent decoding, the `;`-separated attributes
 * of the opaque path, the query attributes, and the region of a key ARN.
 * The pathname and the decoded query list are those the WHATWG layer hands over.
 */
module Uri {
  import opened Bytes

  datatype Error =
    | NOT_NAME_VALUE
    | UNKNOWN_ATTRIBUTE
    | REPEATED_ATTRIBUTE
    | MALFORMED_ESCAPE
    | UNKNOWN_QUERY
    | REPEATED_QUERY
    | NUL_IN_QUERY
    | MISSING_KEY_ID
    | REGION_CONFLICT

  datatype Result<+T> = Ok(value: T) | Err(error: Error)

  // ---------------------------------------------------------------- percent decoding

  function HexVal(c: char): (v: int)
    ensures -1 <= v < 16
  {
    if '0' <= c <= '9' then c as int - '0' as int
    else if 'a' <= c <= 'f' then c as int - 'a' as int + 10
    else if 'A' <= c <= 'F' then c as int - 'A' as int + 10
    else -1
  }

  /** The byte an escape stands for; 0 stands for no escape, and for the escape of NUL. */
  function Escaped(s: string): (v: nat)
    ensures v < 256
  {
    if |s| < 3 || s[0] != '%' || HexVal(s[1]) < 0 || HexVal(s[2]) < 0 then 0
    else 16 * HexVal(s[1]) + HexVal(s[2])
  }

  function Prepend(c: char, s: Option<string>): Option<string> {
    match s
    case None => None
    case Some(t) => Some([c] + t)
  }

  function Decode(s: string): Option<string> {
    if s == "" then Some("")
    else if s[0] != '%' then Prepend(s[0], Decode(s[1..]))
    else if Escaped(s) == 0 then None
    else Prepend(Escaped(s) as char, Decode(s[3..]))
  }

  /** `e` spells `s`: each character as itself, unless it is a percent sign, or as an escape in either case. */
  ghost predicate Spells(e: string, s: string)
    decreases |s|
  {
    if s == "" then e == ""
    else
      || (e != "" && e[0] == s[0] != '%' && Spells(e[1..], s[1..]))
      || (Escaped(e) == s[0] as int != 0 && Spells(e[3..], s[1..]))
  }

  /** Decoding accepts exactly the spellings. */
  lemma {:induction false} DecodesSpellings(e: string, s: string)
    ensures Decode(e) == Some(s) <==> Spells(e, s)
    decreases |e|
  {
    if e != "" && s != "" {
      var tail := if e[0] != '%' then e[1..] else if Escaped(e) == 0 then "" else e[3..];
      DecodesSpellings(tail, s[1..]);
      assert forall c: char, t: string :: [c] + t == s <==> c == s[0] && t == s[1..];
    }
  }

  function HexDigit(v: nat): (c: char)
    requires v < 16
    ensures HexVal(c) == v
  {
    if v < 10 then (v + '0' as int) as char else (v - 10 + 'A' as int) as char
  }

  /** The hexadecimal digits, letters in either case. */
  lemma HexExactly(c: char, v: nat)
    requires v < 16
    ensures HexVal(c) == v <==> c == "0123456789abcdef"[v] || c == "0123456789ABCDEF"[v]
  {
    assert "0123456789abcdef"[v] == if v < 10 then (v + '0' as int) as char else (v - 10 + 'a' as int) as char;
    assert "0123456789ABCDEF"[v] == if v < 10 then (v + '0' as int) as char else (v - 10 + 'A' as int) as char;
  }

  /** Percent-encoding (section 2.1 of RFC 3986) of the characters in `reserved`. */
  function Encode(s: string, reserved: set<char>): string {
    if s == "" then ""
    else if s[0] in reserved && s[0] as int < 256 then
      "%" + [HexDigit(s[0] as int / 16), HexDigit(s[0] as int % 16)] + Encode(s[1..], reserved)
    else [s[0]] + Encode(s[1..], reserved)
  }

  lemma {:induction false} EncodeSpells(s: string, reserved: set<char>)
    requires '%' in reserved && '\0' !in s
    ensures Spells(Encode(s, reserved), s)
    ensures ';' in reserved ==> ';' !in Encode(s, reserved)
  {
    if s != "" {
      EncodeSpells(s[1..], reserved);
      var e := Encode(s, reserved);
      if s[0] in reserved && s[0] as int < 256 {
        assert e[0] == '%' && e[1] == HexDigit(s[0] as int / 16) && e[2] == HexDigit(s[0] as int % 16);
        assert e[3..] == Encode(s[1..], reserved);
        assert HexVal(';') == -1;
      } else {
        assert e[1..] == Encode(s[1..], reserved);
      }
    }
  }

  /** Decoding undoes percent-encoding, and decoded text never holds a NUL that was not there before. */
  lemma DecodeUndoesEncode(s: string, reserved: set<char>)
    requires '%' in reserved && '\0' !in s
    ensures Decode(Encode(s, reserved)) == Some(s)
  {
    EncodeSpells(s, reserved);
    DecodesSpellings(Encode(s, reserved), s);
  }

  lemma {:induction false} DecodedIsCString(e: string)
    requires '\0' !in e && Decode(e).Some?
    ensures '\0' !in Decode(e).value && |Decode(e).value| <= |e|
  {
    if e != "" {
      DecodedIsCString(if e[0] != '%' then e[1..] else e[3..]);
    }
  }

  // ---------------------------------------------------------------- path attributes

  function IndexOf(s: string, c: char): (i: nat)
    ensures i <= |s| && c !in s[..i] && (i < |s| ==> s[i] == c)
  {
    if s == "" || s[0] == c then 0
    else
      assert s[..1 + IndexOf(s[1..], c)] == [s[0]] + s[1..][..IndexOf(s[1..], c)];
      1 + IndexOf(s[1..], c)
  }

  function Segments(s: string): (segments: seq<string>)
    ensures segments != []
    decreases |s|
  {
    var i := IndexOf(s, ';');
    if i == |s| then [s] else [s[..i]] + Segments(s[i + 1..])
  }

  datatype Name = KEY_ID | REGION

  function NameOf(text: string): Option<Name> {
    if text == "key-id" then Some(KEY_ID) else if text == "region" then Some(REGION) else None
  }

  /** The two slots the path attributes fill. */
  datatype Slots = Slots(keyId: Option<string>, region: Option<string>) {
    function Get(name: Name): Option<string> {
      if name == KEY_ID then keyId else region
    }

    function Set(name: Name, value: string): Slots {
      if name == KEY_ID then this.(keyId := Some(value)) else this.(region := Some(value))
    }
  }

  function ParseSegment(slots: Slots, segment: string): Result<Slots> {
    var eq := IndexOf(segment, '=');
    if segment == "" then Ok(slots)
    else if eq == |segment| then Err(NOT_NAME_VALUE)
    else match NameOf(segment[..eq])
      case None => Err(UNKNOWN_ATTRIBUTE)
      case Some(name) =>
        if slots.Get(name).Some? then Err(REPEATED_ATTRIBUTE)
        else match Decode(segment[eq + 1..])
          case None => Err(MALFORMED_ESCAPE)
          case Some(value) => Ok(slots.Set(name, value))
  }

  /** Stops at the first error. */
  function ParseSegments(slots: Slots, segments: seq<string>): Result<Slots>
    decreases |segments|
  {
    if segments == [] then Ok(slots)
    else match ParseSegment(slots, segments[0])
      case Err(e) => Err(e)
      case Ok(next) => ParseSegments(next, segments[1..])
  }

  function ParsePath(path: string): Result<Slots> {
    ParseSegments(Slots(None, None), Segments(path))
  }

  // ---------------------------------------------------------------- query attributes

  datatype Pair = Pair(key: string, value: string)

  function CheckKeys(query: seq<Pair>, profiles: nat, endpoints: nat): Option<Error> {
    if query == [] then None
    else if query[0].key == "profile" then
      if profiles + 1 > 1 then Some(REPEATED_QUERY) else CheckKeys(query[1..], profiles + 1, endpoints)
    else if query[0].key == "endpoint" then
      if endpoints + 1 > 1 then Some(REPEATED_QUERY) else CheckKeys(query[1..], profiles, endpoints + 1)
    else Some(UNKNOWN_QUERY)
  }

  /** `URLSearchParams.get`: the first value. */
  function FirstValue(query: seq<Pair>, key: string): Option<string> {
    if query == [] then None
    else if query[0].key == key then Some(query[0].value)
    else FirstValue(query[1..], key)
  }

  predicate HasNul(value: Option<string>) {
    value.Some? && '\0' in value.value
  }

  // ---------------------------------------------------------------- the region of an ARN

  /** The text in front of the first colon and the text behind it. */
  function Field(s: string): Option<(string, string)> {
    var i := IndexOf(s, ':');
    if i == |s| then None else Some((s[..i], s[i + 1..]))
  }

  /** The first n fields, each ended by a colon. */
  function SplitFields(s: string, n: nat): (fields: Option<seq<string>>)
    ensures fields.Some? ==> |fields.value| == n
  {
    if n == 0 then Some([])
    else match Field(s)
      case None => None
      case Some((first, rest)) =>
        match SplitFields(rest, n - 1)
        case None => None
        case Some(others) => Some([first] + others)
  }

  /** Partition, service, region and account: all four must be there, the service `kms`, the region not empty. */
  function ArnRegion(id: string): Option<string> {
    if !("arn:" <= id) then None
    else match SplitFields(id[4..], 4)
      case None => None
      case Some(fields) => if fields[1] != "kms" || fields[2] == "" then None else Some(fields[2])
  }

  // ---------------------------------------------------------------- the whole URI

  datatype Fields = Fields(
    keyId: Option<string>, region: Option<string>, profile: Option<string>, endpoint: Option<string>)

  const NOTHING := Fields(None, None, None, None)

  function Complete(slots: Slots, profile: Option<string>, endpoint: Option<string>): Result<Fields> {
    if slots.keyId.None? || slots.keyId.value == "" then Err(MISSING_KEY_ID)
    else
      var arn := ArnRegion(slots.keyId.value);
      if arn.Some? && slots.region.Some? && slots.region != arn then Err(REGION_CONFLICT)
      else Ok(Fields(slots.keyId, if arn.Some? then arn else slots.region, profile, endpoint))
  }

  function Parse(path: string, query: seq<Pair>): Result<Fields> {
    match ParsePath(path)
    case Err(e) => Err(e)
    case Ok(slots) =>
      if CheckKeys(query, 0, 0).Some? then Err(CheckKeys(query, 0, 0).value)
      else if HasNul(FirstValue(query, "profile")) || HasNul(FirstValue(query, "endpoint")) then Err(NUL_IN_QUERY)
      else Complete(slots, FirstValue(query, "profile"), FirstValue(query, "endpoint"))
  }

  // ---------------------------------------------------------------- what is accepted

  /** `segment` gives attribute `name` the value `value`. */
  ghost predicate Gives(segment: string, name: Name, value: string) {
    var eq := IndexOf(segment, '=');
    eq < |segment| && NameOf(segment[..eq]) == Some(name) && Spells(segment[eq + 1..], value)
  }

  ghost predicate Given(segments: seq<string>, name: Name, value: string) {
    exists i :: 0 <= i < |segments| && Gives(segments[i], name, value)
  }

  ghost predicate IsAttribute(segment: string) {
    exists name, value :: Gives(segment, name, value)
  }

  function NameAt(segment: string): Option<Name> {
    NameOf(segment[..IndexOf(segment, '=')])
  }

  /** Every non-empty segment is a well-formed attribute, and no name occurs twice. */
  ghost predicate GoodSegments(segments: seq<string>) {
    && (forall i :: 0 <= i < |segments| ==> segments[i] == "" || IsAttribute(segments[i]))
    && (forall i, j :: 0 <= i < j < |segments| && segments[i] != "" && segments[j] != "" ==>
          NameAt(segments[i]) != NameAt(segments[j]))
  }

  /** No segment names a slot that is taken. */
  ghost predicate Untaken(slots: Slots, segments: seq<string>) {
    forall i :: 0 <= i < |segments| && segments[i] != "" && NameAt(segments[i]).Some? ==>
      slots.Get(NameAt(segments[i]).value).None?
  }

  lemma ParsesAttribute(slots: Slots, segment: string)
    ensures segment != "" ==>
      (ParseSegment(slots, segment).Ok? <==>
        IsAttribute(segment) && NameAt(segment).Some? && slots.Get(NameAt(segment).value).None?)
    ensures forall name, value :: Gives(segment, name, value) && slots.Get(name).None? ==>
      segment != "" && ParseSegment(slots, segment) == Ok(slots.Set(name, value))
  {
    var eq := IndexOf(segment, '=');
    if eq < |segment| {
      var text := segment[eq + 1..];
      forall value
        ensures Spells(text, value) <==> Decode(text) == Some(value)
      {
        DecodesSpellings(text, value);
      }
      if Decode(text).Some? && NameOf(segment[..eq]).Some? {
        assert Gives(segment, NameOf(segment[..eq]).value, Decode(text).value);
      }
    }
  }

  lemma GoodHead(segments: seq<string>)
    requires segments != []
    ensures var head, rest := segments[0], segments[1..];
      GoodSegments(segments) <==>
        && (head == "" || IsAttribute(head)) && GoodSegments(rest)
        && (head != "" ==> forall j :: 0 <= j < |rest| && rest[j] != "" ==> NameAt(head) != NameAt(rest[j]))
  {
    hide IsAttribute, NameAt;
    var rest := segments[1..];
    assert forall i :: 1 <= i < |segments| ==> segments[i] == rest[i - 1];
    assert forall j :: 0 <= j < |rest| ==> rest[j] == segments[j + 1];
  }

  lemma GivenHead(segments: seq<string>, name: Name, value: string)
    requires segments != []
    ensures Given(segments, name, value) <==> Gives(segments[0], name, value) || Given(segments[1..], name, value)
  {
    hide Gives;
    var rest := segments[1..];
    assert forall i :: 1 <= i < |segments| ==> segments[i] == rest[i - 1];
    assert forall j :: 0 <= j < |rest| ==> rest[j] == segments[j + 1];
  }

  lemma UntakenTail(slots: Slots, segments: seq<string>)
    requires segments != []
    ensures var head := segments[0];
      Untaken(slots, segments) <==>
        && Untaken(slots, segments[1..])
        && (head != "" && NameAt(head).Some? ==> slots.Get(NameAt(head).value).None?)
  {
    hide NameAt;
    var rest := segments[1..];
    assert forall i :: 1 <= i < |segments| ==> segments[i] == rest[i - 1];
    assert forall j :: 0 <= j < |rest| ==> rest[j] == segments[j + 1];
  }

  lemma UntakenNext(slots: Slots, name: Name, value: string, rest: seq<string>)
    ensures Untaken(slots.Set(name, value), rest) <==>
      Untaken(slots, rest) && forall j :: 0 <= j < |rest| && rest[j] != "" ==> NameAt(rest[j]) != Some(name)
  {
    hide NameAt;
  }

  lemma AttributeHasName(segment: string) returns (name: Name, value: string)
    requires IsAttribute(segment)
    ensures Gives(segment, name, value) && NameAt(segment) == Some(name) && segment != ""
  {
    name, value :| Gives(segment, name, value);
  }

  lemma GivesOne(segment: string, name: Name, value: string, other: Name, text: string)
    requires Gives(segment, name, value) && Gives(segment, other, text)
    ensures name == other && value == text
  {
    var eq := IndexOf(segment, '=');
    DecodesSpellings(segment[eq + 1..], value);
    DecodesSpellings(segment[eq + 1..], text);
  }

  lemma {:induction false} SegmentsParse(slots: Slots, segments: seq<string>)
    ensures ParseSegments(slots, segments).Ok? <==> GoodSegments(segments) && Untaken(slots, segments)
    ensures ParseSegments(slots, segments).Ok? ==> forall name, value ::
      ParseSegments(slots, segments).value.Get(name) == Some(value) <==>
        slots.Get(name) == Some(value) || Given(segments, name, value)
    decreases |segments|
  {
    hide ParseSegment, NameAt, Gives, IsAttribute;
    if segments != [] {
      var head, rest := segments[0], segments[1..];
      GoodHead(segments);
      UntakenTail(slots, segments);
      ParsesAttribute(slots, head);
      forall name, value
        ensures Given(segments, name, value) <==> Gives(head, name, value) || Given(rest, name, value)
      {
        GivenHead(segments, name, value);
      }
      if head == "" {
        EmptyParses(slots);
        SegmentsParse(slots, rest);
      } else if ParseSegment(slots, head).Ok? {
        var name, value := AttributeHasName(head);
        var next := slots.Set(name, value);
        UntakenNext(slots, name, value, rest);
        SegmentsParse(next, rest);
        assert ParseSegment(slots, head) == Ok(next);
        forall other, text | Gives(head, other, text)
          ensures other == name && text == value
        {
          GivesOne(head, name, value, other, text);
        }
      } else if IsAttribute(head) {
        var name, value := AttributeHasName(head);
      }
    }
  }

  lemma EmptyParses(slots: Slots)
    ensures ParseSegment(slots, "") == Ok(slots) && forall name, value :: !Gives("", name, value)
  {
  }

  // ---------------------------------------------------------------- the query

  ghost predicate GoodQuery(query: seq<Pair>) {
    && (forall i :: 0 <= i < |query| ==> query[i].key == "profile" || query[i].key == "endpoint")
    && (forall i, j :: 0 <= i < j < |query| ==> query[i].key != query[j].key)
  }

  ghost predicate NotIn(query: seq<Pair>, key: string) {
    forall i :: 0 <= i < |query| ==> query[i].key != key
  }

  lemma {:induction false} KeysChecked(query: seq<Pair>, profiles: nat, endpoints: nat)
    requires profiles <= 1 && endpoints <= 1
    ensures CheckKeys(query, profiles, endpoints).None? <==>
      && GoodQuery(query)
      && (profiles == 1 ==> NotIn(query, "profile")) && (endpoints == 1 ==> NotIn(query, "endpoint"))
  {
    if query != [] {
      var key, rest := query[0].key, query[1..];
      assert forall i :: 1 <= i < |query| ==> query[i] == rest[i - 1];
      assert forall j :: 0 <= j < |rest| ==> rest[j] == query[j + 1];
      assert GoodQuery(query) <==> (key == "profile" || key == "endpoint") && GoodQuery(rest) && NotIn(rest, key);
      assert "profile" != "endpoint";
      assert forall k :: NotIn(query, k) <==> key != k && NotIn(rest, k);
      if key == "profile" && profiles == 0 {
        KeysChecked(rest, 1, endpoints);
      } else if key == "endpoint" && endpoints == 0 {
        KeysChecked(rest, profiles, 1);
      }
    }
  }

  lemma {:induction false} FirstIsTheOne(query: seq<Pair>, key: string, value: string)
    requires forall i, j :: 0 <= i < j < |query| ==> query[i].key != query[j].key
    ensures FirstValue(query, key) == Some(value) <==> Pair(key, value) in query
  {
    if query != [] {
      var rest := query[1..];
      assert query == [query[0]] + rest;
      assert forall i :: 0 <= i < |rest| ==> rest[i] == query[i + 1];
      FirstIsTheOne(rest, key, value);
      assert query[0].key == key ==> forall v :: Pair(key, v) !in rest;
    }
  }

  // ---------------------------------------------------------------- acceptance

  /** The region attribute, if there is one, is the region of the key's ARN, if it is an ARN. */
  ghost predicate RegionAgrees(segments: seq<string>, keyId: string) {
    forall region :: Given(segments, REGION, region) && ArnRegion(keyId).Some? ==> ArnRegion(keyId) == Some(region)
  }

  ghost predicate NulFree(query: seq<Pair>) {
    forall i :: 0 <= i < |query| ==> '\0' !in query[i].value
  }

  ghost predicate Accepted(path: string, query: seq<Pair>, keyId: string) {
    && GoodSegments(Segments(path)) && GoodQuery(query) && NulFree(query)
    && keyId != "" && Given(Segments(path), KEY_ID, keyId) && RegionAgrees(Segments(path), keyId)
  }

  lemma NulsFound(query: seq<Pair>)
    requires GoodQuery(query)
    ensures NulFree(query) <==> !HasNul(FirstValue(query, "profile")) && !HasNul(FirstValue(query, "endpoint"))
  {
    forall value, key
      ensures FirstValue(query, key) == Some(value) <==> Pair(key, value) in query
    {
      FirstIsTheOne(query, key, value);
    }
    forall i | 0 <= i < |query|
      ensures FirstValue(query, query[i].key) == Some(query[i].value)
    {
      assert query[i] == Pair(query[i].key, query[i].value);
    }
  }

  lemma PathParses(path: string)
    ensures ParsePath(path).Ok? <==> GoodSegments(Segments(path))
    ensures ParsePath(path).Ok? ==> forall name, value ::
      ParsePath(path).value.Get(name) == Some(value) <==> Given(Segments(path), name, value)
  {
    SegmentsParse(Slots(None, None), Segments(path));
  }

  lemma AcceptedBySlots(path: string, query: seq<Pair>, keyId: string)
    requires ParsePath(path).Ok?
    ensures var slots := ParsePath(path).value;
      Accepted(path, query, keyId) <==>
        && GoodQuery(query) && NulFree(query)
        && keyId != "" && slots.keyId == Some(keyId)
        && (slots.region.Some? && ArnRegion(keyId).Some? ==> slots.region == ArnRegion(keyId))
  {
    hide GoodSegments, Segments, Given, GoodQuery, NulFree, ArnRegion;
    PathParses(path);
    var slots := ParsePath(path).value;
    assert slots.Get(KEY_ID) == slots.keyId && slots.Get(REGION) == slots.region;
    if slots.region.Some? {
      assert Given(Segments(path), REGION, slots.region.value);
    }
  }

  /**
   * Acceptance, exactly: every non-empty segment is `name=value` with a known name and a well-formed
   * value, no name repeated; the query names are known and not repeated, their values without NUL; the
   * key id is there and not empty; and a region attribute agrees with the region of a key ARN.
   */
  lemma AcceptedExactly(path: string, query: seq<Pair>)
    ensures Parse(path, query).Ok? <==> exists keyId :: Accepted(path, query, keyId)
    ensures Parse(path, query).Ok? ==> var f := Parse(path, query).value;
      f.keyId.Some? && Accepted(path, query, f.keyId.value)
  {
    hide ParsePath, GoodSegments, Segments, Given, GoodQuery, NulFree, CheckKeys, FirstValue, HasNul, ArnRegion;
    PathParses(path);
    KeysChecked(query, 0, 0);
    if GoodQuery(query) {
      NulsFound(query);
    }
    if ParsePath(path).Ok? {
      forall keyId
        ensures var slots := ParsePath(path).value;
          Accepted(path, query, keyId) <==>
            && GoodQuery(query) && NulFree(query)
            && keyId != "" && slots.keyId == Some(keyId)
            && (slots.region.Some? && ArnRegion(keyId).Some? ==> slots.region == ArnRegion(keyId))
      {
        AcceptedBySlots(path, query, keyId);
      }
    }
  }

  /** The URI contradicts itself about the region, and has nothing else wrong with it. */
  ghost predicate Contradicts(path: string, query: seq<Pair>, keyId: string, region: string) {
    && GoodSegments(Segments(path)) && GoodQuery(query) && NulFree(query)
    && keyId != "" && Given(Segments(path), KEY_ID, keyId) && Given(Segments(path), REGION, region)
    && ArnRegion(keyId).Some? && ArnRegion(keyId) != Some(region)
  }

  /** The error with a reason of its own: exactly a region that contradicts the key ARN in a URI else good. */
  lemma ConflictExactly(path: string, query: seq<Pair>)
    ensures Parse(path, query) == Err(REGION_CONFLICT) <==>
      exists keyId, region :: Contradicts(path, query, keyId, region)
  {
    hide ParsePath, GoodSegments, Segments, Given, GoodQuery, NulFree, CheckKeys, FirstValue, HasNul, ArnRegion;
    PathParses(path);
    KeysChecked(query, 0, 0);
    if GoodQuery(query) {
      NulsFound(query);
    }
    ErrorsInFront(path, query);
    if ParsePath(path).Ok? {
      var slots := ParsePath(path).value;
      assert slots.Get(KEY_ID) == slots.keyId && slots.Get(REGION) == slots.region;
      if Parse(path, query) == Err(REGION_CONFLICT) {
        assert Contradicts(path, query, slots.keyId.value, slots.region.value);
      }
    }
  }

  /** What is wrong in front of the region is reported as something else. */
  lemma ErrorsInFront(path: string, query: seq<Pair>)
    ensures ParsePath(path) != Err(REGION_CONFLICT)
    ensures CheckKeys(query, 0, 0) != Some(REGION_CONFLICT)
  {
    hide Segments;
    SegmentErrors(Slots(None, None), Segments(path));
    KeyErrors(query, 0, 0);
  }

  lemma {:induction false} SegmentErrors(slots: Slots, segments: seq<string>)
    ensures ParseSegments(slots, segments) != Err(REGION_CONFLICT)
    decreases |segments|
  {
    if segments != [] && ParseSegment(slots, segments[0]).Ok? {
      SegmentErrors(ParseSegment(slots, segments[0]).value, segments[1..]);
    }
  }

  lemma {:induction false} KeyErrors(query: seq<Pair>, profiles: nat, endpoints: nat)
    ensures CheckKeys(query, profiles, endpoints) != Some(REGION_CONFLICT)
    decreases |query|
  {
    if query != [] {
      KeyErrors(query[1..], profiles + 1, endpoints);
      KeyErrors(query[1..], profiles, endpoints + 1);
    }
  }

  /** On success the fields are the given values, with the region of a key ARN filled in. */
  lemma FieldsAreGiven(path: string, query: seq<Pair>)
    requires Parse(path, query).Ok?
    ensures var f := Parse(path, query).value;
      && f.keyId.Some? && Given(Segments(path), KEY_ID, f.keyId.value)
      && (ArnRegion(f.keyId.value).Some? ==> f.region == ArnRegion(f.keyId.value))
      && (ArnRegion(f.keyId.value).None? ==>
            forall r :: f.region == Some(r) <==> Given(Segments(path), REGION, r))
      && (forall v :: f.profile == Some(v) <==> Pair("profile", v) in query)
      && (forall v :: f.endpoint == Some(v) <==> Pair("endpoint", v) in query)
  {
    hide GoodSegments, Segments, Given, CheckKeys, FirstValue, HasNul, ArnRegion;
    PathParses(path);
    KeysChecked(query, 0, 0);
    forall key, v
      ensures FirstValue(query, key) == Some(v) <==> Pair(key, v) in query
    {
      FirstIsTheOne(query, key, v);
    }
    var slots := ParsePath(path).value;
    assert slots.Get(KEY_ID) == slots.keyId && slots.Get(REGION) == slots.region;
  }

  // ---------------------------------------------------------------- regions of ARNs

  predicate ColonFree(s: string) {
    ':' !in s
  }

  /** Fields, each with a colon behind it, then the rest. */
  function Colons(fields: seq<string>, rest: string): string {
    if fields == [] then rest else fields[0] + (":" + Colons(fields[1..], rest))
  }

  /** `arn:partition:kms:region:account:rest` */
  function Arn(partition: string, region: string, account: string, rest: string): string {
    "arn:" + Colons([partition, "kms", region, account], rest)
  }

  lemma {:induction false} IndexInFront(s: string, c: char, rest: string)
    requires c !in s && rest != "" && rest[0] == c
    ensures IndexOf(s + rest, c) == |s|
  {
    if s == "" {
      assert s + rest == rest;
    } else {
      assert (s + rest)[1..] == s[1..] + rest;
      IndexInFront(s[1..], c, rest);
    }
  }

  lemma FieldInFront(s: string, rest: string)
    requires ColonFree(s)
    ensures Field(s + (":" + rest)) == Some((s, rest))
  {
    IndexInFront(s, ':', ":" + rest);
    assert (s + (":" + rest))[|s| + 1..] == rest;
  }

  lemma {:induction false} SplitsColons(fields: seq<string>, rest: string)
    requires forall i :: 0 <= i < |fields| ==> ColonFree(fields[i])
    ensures SplitFields(Colons(fields, rest), |fields|) == Some(fields)
  {
    hide Field, ColonFree;
    if fields != [] {
      SplitsColons(fields[1..], rest);
      FieldInFront(fields[0], Colons(fields[1..], rest));
      assert [fields[0]] + fields[1..] == fields;
    }
  }

  lemma FieldSplits(s: string) returns (first: string, rest: string)
    requires Field(s).Some?
    ensures Field(s).value == (first, rest) && ColonFree(first) && s == first + (":" + rest)
  {
    first, rest := Field(s).value.0, Field(s).value.1;
  }

  lemma ColonsStep(first: string, others: seq<string>, rest: string)
    ensures Colons([first] + others, rest) == first + (":" + Colons(others, rest))
  {
    assert ([first] + others)[1..] == others;
  }

  lemma {:induction false} SplitFindsColons(s: string, n: nat) returns (rest: string)
    requires SplitFields(s, n).Some?
    ensures var fields := SplitFields(s, n).value;
      s == Colons(fields, rest) && forall i :: 0 <= i < n ==> ColonFree(fields[i])
  {
    if n == 0 {
      rest := s;
    } else {
      hide ColonFree, Field, Colons;
      var first, behind := FieldSplits(s);
      rest := SplitFindsColons(behind, n - 1);
      ColonsStep(first, SplitFields(behind, n - 1).value, rest);
    }
  }

  /** The region is found in every ARN of KMS built from colon-free fields... */
  lemma RegionOfArn(partition: string, region: string, account: string, rest: string)
    requires ColonFree(partition) && ColonFree(region) && ColonFree(account) && region != ""
    ensures ArnRegion(Arn(partition, region, account, rest)) == Some(region)
  {
    var fields := [partition, "kms", region, account];
    SplitsColons(fields, rest);
    hide Colons, SplitFields;
    assert Arn(partition, region, account, rest)[4..] == Colons(fields, rest);
  }

  /** ...and in nothing else. */
  lemma OnlyArnsHaveRegions(id: string) returns (partition: string, account: string, rest: string)
    requires ArnRegion(id).Some?
    ensures ColonFree(partition) && ColonFree(account) && ColonFree(ArnRegion(id).value)
    ensures id == Arn(partition, ArnRegion(id).value, account, rest)
  {
    hide SplitFields, ColonFree, Colons;
    rest := SplitFindsColons(id[4..], 4);
    var fields := SplitFields(id[4..], 4).value;
    partition, account := fields[0], fields[3];
    assert fields == [partition, "kms", fields[2], account];
    assert id == "arn:" + id[4..];
  }

  // ---------------------------------------------------------------- parsing undoes printing

  function Join(segments: seq<string>): string
    requires segments != []
  {
    if |segments| == 1 then segments[0] else segments[0] + (";" + Join(segments[1..]))
  }

  lemma SegmentsStep(first: string, rest: string)
    requires ';' !in first
    ensures Segments(first) == [first] && Segments(first + (";" + rest)) == [first] + Segments(rest)
  {
    var s := first + (";" + rest);
    IndexInFront(first, ';', ";" + rest);
    hide IndexOf;
    assert s[..|first|] == first && s[|first| + 1..] == rest;
  }

  lemma {:induction false} SegmentsOfJoin(segments: seq<string>)
    requires segments != [] && forall i :: 0 <= i < |segments| ==> ';' !in segments[i]
    ensures Segments(Join(segments)) == segments
  {
    hide Segments;
    var first, rest := segments[0], segments[1..];
    assert segments == [first] + rest;
    if |segments| == 1 {
      SegmentsStep(first, "");
    } else {
      SegmentsOfJoin(rest);
      SegmentsStep(first, Join(rest));
    }
  }

  lemma {:induction false} SegmentsConcat(slots: Slots, a: seq<string>, b: seq<string>)
    ensures ParseSegments(slots, a + b) ==
      match ParseSegments(slots, a) case Err(e) => Err(e) case Ok(next) => ParseSegments(next, b)
    decreases |a|
  {
    if a == [] {
      assert a + b == b;
    } else {
      assert (a + b)[1..] == a[1..] + b;
      if ParseSegment(slots, a[0]).Ok? {
        SegmentsConcat(ParseSegment(slots, a[0]).value, a[1..], b);
      }
    }
  }

  /** n empty segments: stray semicolons. */
  function Strays(n: nat): (r: seq<string>)
    ensures forall i :: 0 <= i < |r| ==> r[i] == ""
  {
    if n == 0 then [] else [""] + Strays(n - 1)
  }

  lemma {:induction false} StraysParse(slots: Slots, n: nat)
    ensures ParseSegments(slots, Strays(n)) == Ok(slots)
  {
    if n > 0 {
      assert Strays(n)[1..] == Strays(n - 1);
      StraysParse(slots, n - 1);
    }
  }

  function NameText(name: Name): string {
    if name == KEY_ID then "key-id" else "region"
  }

  function Attribute(name: Name, value: string, reserved: set<char>): string {
    NameText(name) + ("=" + Encode(value, reserved))
  }

  lemma AttributeParses(slots: Slots, name: Name, value: string, reserved: set<char>)
    requires '%' in reserved && ';' in reserved && '\0' !in value && slots.Get(name).None?
    ensures ParseSegment(slots, Attribute(name, value, reserved)) == Ok(slots.Set(name, value))
    ensures ';' !in Attribute(name, value, reserved)
  {
    var rest := "=" + Encode(value, reserved);
    IndexInFront(NameText(name), '=', rest);
    EncodeSpells(value, reserved);
    DecodeUndoesEncode(value, reserved);
    assert (NameText(name) + rest)[|NameText(name)| + 1..] == Encode(value, reserved);
    assert (NameText(name) + rest)[..|NameText(name)|] == NameText(name);
  }

  /** The attributes in the order given, with stray semicolons around them. */
  function Printed(first: string, second: Option<string>, n0: nat, n1: nat, n2: nat): (segments: seq<string>)
    ensures segments != []
  {
    Strays(n0) + [first] + Strays(n1) + (if second.Some? then [second.value] + Strays(n2) else [])
  }

  lemma OneAttribute(slots: Slots, name: Name, value: string, reserved: set<char>, n: nat)
    requires '%' in reserved && ';' in reserved && '\0' !in value && slots.Get(name).None?
    ensures ParseSegments(slots, [Attribute(name, value, reserved)] + Strays(n)) == Ok(slots.Set(name, value))
  {
    var a := Attribute(name, value, reserved);
    AttributeParses(slots, name, value, reserved);
    assert ([a] + Strays(n))[1..] == Strays(n);
    StraysParse(slots.Set(name, value), n);
  }

  lemma TwoAttributes(name: Name, value: string, other: Name, text: string, reserved: set<char>, n0: nat, n1: nat,
        n2: nat)
    requires '%' in reserved && ';' in reserved && '\0' !in value && '\0' !in text && name != other
    ensures var a, b := Attribute(name, value, reserved), Attribute(other, text, reserved);
      ParsePath(Join(Printed(a, Some(b), n0, n1, n2))) == Ok(Slots(None, None).Set(name, value).Set(other, text))
  {
    hide Attribute, ParseSegment;
    var a, b := Attribute(name, value, reserved), Attribute(other, text, reserved);
    var none := Slots(None, None);
    AttributeParses(none, name, value, reserved);
    AttributeParses(none, other, text, reserved);
    OneAttribute(none, name, value, reserved, n1);
    OneAttribute(none.Set(name, value), other, text, reserved, n2);
    StraysParse(none, n0);
    var front, back := [a] + Strays(n1), [b] + Strays(n2);
    var segments := Printed(a, Some(b), n0, n1, n2);
    assert segments == Strays(n0) + (front + back);
    SegmentsConcat(none, front, back);
    SegmentsConcat(none, Strays(n0), front + back);
    SegmentsOfJoin(segments);
  }

  lemma JustOneAttribute(name: Name, value: string, reserved: set<char>, n0: nat, n1: nat)
    requires '%' in reserved && ';' in reserved && '\0' !in value
    ensures ParsePath(Join(Printed(Attribute(name, value, reserved), None, n0, n1, 0)))
         == Ok(Slots(None, None).Set(name, value))
  {
    hide Attribute, ParseSegment;
    var a := Attribute(name, value, reserved);
    var none := Slots(None, None);
    AttributeParses(none, name, value, reserved);
    OneAttribute(none, name, value, reserved, n1);
    StraysParse(none, n0);
    var segments := Printed(a, None, n0, n1, 0);
    assert segments == Strays(n0) + ([a] + Strays(n1));
    SegmentsConcat(none, Strays(n0), [a] + Strays(n1));
    SegmentsOfJoin(segments);
  }

  /** The path of a key id and an optional region, in either order. */
  function Print(keyId: string, region: Option<string>, regionFirst: bool, reserved: set<char>, n0: nat, n1: nat,
        n2: nat): string
  {
    var k := Attribute(KEY_ID, keyId, reserved);
    if region.None? then Join(Printed(k, None, n0, n1, 0))
    else
      var r := Attribute(REGION, region.value, reserved);
      if regionFirst then Join(Printed(r, Some(k), n0, n1, n2)) else Join(Printed(k, Some(r), n0, n1, n2))
  }

  /**
   * Parsing undoes printing: percent-encode at least `%` and `;`, put the attributes in either order,
   * add any stray semicolons, and the same key id and region come back.
   */
  lemma ParseUndoesPrint(keyId: string, region: Option<string>, regionFirst: bool, reserved: set<char>, n0: nat,
        n1: nat, n2: nat)
    requires '%' in reserved && ';' in reserved
    requires keyId != "" && '\0' !in keyId && !HasNul(region)
    requires region.Some? && ArnRegion(keyId).Some? ==> region == ArnRegion(keyId)
    ensures Parse(Print(keyId, region, regionFirst, reserved, n0, n1, n2), []) ==
      Ok(Fields(Some(keyId), if region.Some? then region else ArnRegion(keyId), None, None))
  {
    hide ParsePath, Attribute, Join, Printed, ArnRegion;
    if region.None? {
      JustOneAttribute(KEY_ID, keyId, reserved, n0, n1);
    } else if regionFirst {
      TwoAttributes(REGION, region.value, KEY_ID, keyId, reserved, n0, n1, n2);
    } else {
      TwoAttributes(KEY_ID, keyId, REGION, region.value, reserved, n0, n1, n2);
    }
  }
}
