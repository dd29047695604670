/**
 * The parser of the URI attribute layer as the code runs it (src/uri.c:27-118, 144-159, 199-297): a write
 * index into a buffer, a pointer over the path, slots filled in place, and a cleanup on every failure.
 */
module UriParser {
  import opened Bytes
  import opened Uri

  /** `memchr`: the position of `c` in [from, to), or `to`. */
  method Find(s: string, from: nat, to: nat, c: char) returns (i: nat)
    requires from <= to <= |s|
    ensures i == from + IndexOf(s[from..to], c)
  {
    i := from;
    while i < to && s[i] != c
      invariant from <= i <= to
      invariant i + IndexOf(s[i..to], c) == from + IndexOf(s[from..to], c)
    {
      assert s[i..to][1..] == s[i + 1..to];
      i := i + 1;
    }
  }

  lemma PrependConcat(head: string, c: char, tail: Option<string>)
    ensures Joined(head, Prepend(c, tail)) == Joined(head + [c], tail)
  {
    if tail.Some? {
      assert head + ([c] + tail.value) == (head + [c]) + tail.value;
    }
  }

  /** What was written so far, in front of what is still to be decoded. */
  function Joined(written: string, rest: Option<string>): Option<string> {
    match rest
    case None => None
    case Some(t) => Some(written + t)
  }

  /** Percent-decodes [begin, end) into a buffer of one more than its length; the writes stay inside it. */
  method DecodeRange(s: string, begin: nat, end: nat) returns (text: Option<string>)
    requires begin <= end <= |s|
    ensures text == Decode(s[begin..end])
  {
    var n := end - begin;
    var out := new char[n + 1];
    var w := 0;
    var p := begin;
    assert out[..0] == "";
    assert Joined("", Decode(s[begin..end])) == Decode(s[begin..end]) by {
      if Decode(s[begin..end]).Some? {
        assert "" + Decode(s[begin..end]).value == Decode(s[begin..end]).value;
      }
    }
    while p < end
      invariant begin <= p <= end && w <= p - begin
      invariant Joined(out[..w], Decode(s[p..end])) == Decode(s[begin..end])
    {
      ghost var rest := s[p..end];
      ghost var before := out[..w];
      if s[p] == '%' {
        if end - p < 3 || HexVal(s[p + 1]) < 0 || HexVal(s[p + 2]) < 0 {
          assert Escaped(rest) == 0;
          return None;
        }
        var value := 16 * HexVal(s[p + 1]) + HexVal(s[p + 2]);
        assert value == Escaped(rest);
        if value == 0 {
          return None;
        }
        PrependConcat(before, value as char, Decode(rest[3..]));
        assert rest[3..] == s[p + 3..end];
        out[w] := value as char;
        w := w + 1;
        p := p + 3;
      } else {
        PrependConcat(before, s[p], Decode(rest[1..]));
        assert rest[1..] == s[p + 1..end];
        out[w] := s[p];
        w := w + 1;
        p := p + 1;
      }
      assert out[..w] == before + [out[w - 1]];
    }
    assert s[p..end] == "" && out[..w] + "" == out[..w];
    out[w] := '\0';
    text := Some(out[..w]);
  }

  function Collected(found: seq<string>, rest: Option<seq<string>>): Option<seq<string>> {
    match rest
    case None => None
    case Some(fields) => Some(found + fields)
  }

  lemma FieldAt(id: string, p: nat)
    requires p <= |id|
    ensures var colon := p + IndexOf(id[p..], ':');
      Field(id[p..]) == if colon == |id| then None else Some((id[p..colon], id[colon + 1..]))
  {
    var colon := p + IndexOf(id[p..], ':');
    if colon < |id| {
      assert id[p..][..colon - p] == id[p..colon] && id[p..][colon - p + 1..] == id[colon + 1..];
    }
  }

  lemma SplitStep(s: string, n: nat)
    requires n > 0
    ensures SplitFields(s, n) ==
      if Field(s).None? then None else Collected([Field(s).value.0], SplitFields(Field(s).value.1, n - 1))
  {
    hide Field;
  }

  lemma CollectedTwice(found: seq<string>, first: string, rest: Option<seq<string>>)
    ensures Collected(found, Collected([first], rest)) == Collected(found + [first], rest)
  {
    if rest.Some? {
      assert found + ([first] + rest.value) == (found + [first]) + rest.value;
    }
  }

  /** One more field collected. */
  lemma CollectField(id: string, p: nat, colon: nat, found: seq<string>, n: nat)
    requires p <= |id| && n > 0 && colon == p + IndexOf(id[p..], ':')
    ensures var rest := SplitFields(id[p..], n);
      if colon == |id| then rest.None?
      else Collected(found, rest) == Collected(found + [id[p..colon]], SplitFields(id[colon + 1..], n - 1))
  {
    hide Field, IndexOf, SplitFields, Collected;
    FieldAt(id, p);
    SplitStep(id[p..], n);
    if colon < |id| {
      CollectedTwice(found, id[p..colon], SplitFields(id[colon + 1..], n - 1));
    } else {
      NothingCollected(found);
    }
  }

  lemma NothingCollected(found: seq<string>)
    ensures Collected(found, None) == None
  {
  }

  lemma RegionByFields(id: string)
    requires |id| >= 4 && id[..4] == "arn:"
    ensures var fields := SplitFields(id[4..], 4);
      ArnRegion(id) ==
        if fields.None? || fields.value[1] != "kms" || fields.value[2] == "" then None else Some(fields.value[2])
  {
    hide SplitFields;
  }

  /** `text` lies between the start `a` and the colon in front of the start `b`. */
  ghost predicate Between(id: string, a: nat, b: nat, text: string) {
    a < b <= |id| && id[a..b - 1] == text
  }

  /** The loop over the four fields: where they start, unless one of them is missing. */
  method FieldStarts(id: string) returns (fields: array<nat>, complete: bool, ghost found: seq<string>)
    requires |id| >= 4
    ensures fields.Length == 4 && complete == SplitFields(id[4..], 4).Some?
    ensures complete ==>
      && SplitFields(id[4..], 4) == Some(found) && |found| == 4
      && Between(id, fields[1], fields[2], found[1]) && Between(id, fields[2], fields[3], found[2])
  {
    hide SplitFields, IndexOf, Collected;
    fields := new nat[4];
    var p := 4;
    found := [];
    ghost var bounds: seq<nat> := [4];
    StartCollecting(SplitFields(id[4..], 4));
    for i := 0 to 4
      invariant p <= |id| && |found| == i && |bounds| == i + 1 && bounds[i] == p
      invariant forall k :: 0 <= k < i ==> bounds[k] == fields[k]
      invariant forall k :: 0 <= k < i ==> Between(id, bounds[k], bounds[k + 1], found[k])
      invariant Collected(found, SplitFields(id[p..], 4 - i)) == SplitFields(id[4..], 4)
    {
      fields[i] := p;
      assert id[p..|id|] == id[p..];
      var colon := Find(id, p, |id|, ':');
      CollectField(id, p, colon, found, 4 - i);
      if colon == |id| {
        NothingCollected(found);
        complete := false;
        return;
      }
      found := found + [id[p..colon]];
      p := colon + 1;
      bounds := bounds + [p];
    }
    NothingLeft(found, id[p..]);
    assert Between(id, bounds[1], bounds[2], found[1]) && Between(id, bounds[2], bounds[3], found[2]);
    complete := true;
  }

  method RegionOf(id: string) returns (region: Option<string>)
    ensures region == ArnRegion(id)
  {
    if |id| < 4 || id[..4] != "arn:" {
      return None;
    }
    hide ArnRegion, SplitFields;
    RegionByFields(id);
    var fields, complete, found := FieldStarts(id);
    if !complete {
      return None;
    }
    if id[fields[1]..fields[2] - 1] != "kms" || fields[3] - fields[2] - 1 == 0 {
      return None;
    }
    return Some(id[fields[2]..fields[3] - 1]);
  }

  lemma StartCollecting(fields: Option<seq<string>>)
    ensures Collected([], fields) == fields
  {
    if fields.Some? {
      assert [] + fields.value == fields.value;
    }
  }

  lemma NothingLeft(found: seq<string>, s: string)
    ensures Collected(found, SplitFields(s, 0)) == Some(found)
  {
    assert found + [] == found;
  }

  // ---------------------------------------------------------------- the record and its slots

  lemma SegmentsFrom(path: string, p: nat)
    requires p < |path|
    ensures var end := p + IndexOf(path[p..], ';');
      Segments(path[p..]) == [path[p..end]] + if end == |path| then [] else Segments(path[end + 1..])
  {
    var n := IndexOf(path[p..], ';');
    TailSlices(path, p, n);
    hide IndexOf;
  }

  lemma TailSlices(path: string, p: nat, n: nat)
    requires p + n <= |path|
    ensures path[p..][..n] == path[p..p + n]
    ensures if p + n < |path| then path[p..][n + 1..] == path[p + n + 1..] else path[p..] == path[p..p + n]
  {
  }

  class AwskmsUri {
    var keyId: Option<string>
    var region: Option<string>
    var profile: Option<string>
    var endpoint: Option<string>

    constructor ()
      ensures Contents() == NOTHING
    {
      keyId, region, profile, endpoint := None, None, None, None;
    }

    function Contents(): Fields
      reads this
    {
      Fields(keyId, region, profile, endpoint)
    }

    function PathSlots(): Slots
      reads this
    {
      Slots(keyId, region)
    }

    /** One `name=value` item of the path, [p, end), which is not empty. */
    method ParseItem(path: string, p: nat, end: nat) returns (error: Option<Error>)
      requires p < end <= |path|
      modifies `keyId, `region
      ensures match ParseSegment(old(PathSlots()), path[p..end])
        case Ok(next) => error.None? && PathSlots() == next
        case Err(e) => error == Some(e)
    {
      var eq := Find(path, p, end, '=');
      ghost var segment := path[p..end];
      if eq == end {
        return Some(NOT_NAME_VALUE);
      }
      assert path[p..eq] == segment[..eq - p] && path[eq + 1..end] == segment[eq - p + 1..];
      var name := NameOf(path[p..eq]);
      if name.None? {
        return Some(UNKNOWN_ATTRIBUTE);
      }
      if PathSlots().Get(name.value).Some? {
        return Some(REPEATED_ATTRIBUTE);
      }
      var value := DecodeRange(path, eq + 1, end);
      if value.None? {
        return Some(MALFORMED_ESCAPE);
      }
      match name.value {
        case KEY_ID => keyId := value;
        case REGION => region := value;
      }
      return None;
    }

    method ParsePathAttributes(path: string) returns (error: Option<Error>)
      requires keyId.None? && region.None?
      modifies `keyId, `region
      ensures match ParsePath(path)
        case Ok(slots) => error.None? && PathSlots() == slots
        case Err(e) => error == Some(e)
    {
      hide ParseSegment, Segments;
      var p := 0;
      assert path[0..] == path;
      if path == "" {
        EmptyPath();
      }
      while p < |path|
        invariant p <= |path|
        invariant p < |path| ==> ParseSegments(PathSlots(), Segments(path[p..])) == ParsePath(path)
        invariant p == |path| ==> Ok(PathSlots()) == ParsePath(path)
      {
        SegmentsFrom(path, p);
        assert path[p..|path|] == path[p..];
        var end := Find(path, p, |path|, ';');
        ghost var rest := if end == |path| then [] else Segments(path[end + 1..]);
        assert ([path[p..end]] + rest)[1..] == rest;
        if end == p {
          EmptyParses(PathSlots());
          assert path[p..end] == "";
        } else {
          error := ParseItem(path, p, end);
          if error.Some? {
            return;
          }
        }
        if end + 1 == |path| {
          LastEmpty(PathSlots(), path[end + 1..]);
        }
        p := if end == |path| then end else end + 1;
      }
      error := None;
    }

    method Cleanup()
      modifies this
      ensures Contents() == NOTHING
    {
      keyId, region, profile, endpoint := None, None, None, None;
    }

    /** All or nothing: the parsed fields on success, four null fields on any failure. */
    method ParseUri(path: string, query: seq<Pair>) returns (error: Option<Error>)
      requires Contents() == NOTHING
      modifies this
      ensures match Parse(path, query)
        case Ok(fields) => error.None? && Contents() == fields
        case Err(e) => error == Some(e) && Contents() == NOTHING
    {
      error := ParseFields(path, query);
      if error.Some? {
        Cleanup();
      }
    }

    /** The parse without the cleanup at its end: a failure may leave some fields behind. */
    method ParseFields(path: string, query: seq<Pair>) returns (error: Option<Error>)
      requires Contents() == NOTHING
      modifies this
      ensures match Parse(path, query)
        case Ok(fields) => error.None? && Contents() == fields
        case Err(e) => error == Some(e)
    {
      hide ParsePath, ArnRegion, CheckKeys, FirstValue;
      error := ParsePathAttributes(path);
      if error.Some? {
        return;
      }
      error := CheckQueryKeys(query);
      if error.Some? {
        return;
      }
      profile := FirstValue(query, "profile");
      if HasNul(profile) {
        return Some(NUL_IN_QUERY);
      }
      endpoint := FirstValue(query, "endpoint");
      if HasNul(endpoint) {
        return Some(NUL_IN_QUERY);
      }
      if keyId.None? || keyId.value == "" {
        return Some(MISSING_KEY_ID);
      }
      var arn := RegionOf(keyId.value);
      if arn.Some? {
        if region.Some? {
          if region != arn {
            return Some(REGION_CONFLICT);
          }
        } else {
          region := arn;
        }
      }
      return None;
    }
  }

  lemma EmptyPath()
    ensures ParsePath("") == Ok(Slots(None, None))
  {
    LastEmpty(Slots(None, None), "");
  }

  lemma LastEmpty(slots: Slots, text: string)
    requires text == ""
    ensures ParseSegments(slots, Segments(text)) == Ok(slots)
  {
    assert Segments(text) == [""];
    assert [""][1..] == [];
    EmptyParses(slots);
  }

  method CheckQueryKeys(query: seq<Pair>) returns (error: Option<Error>)
    ensures error == CheckKeys(query, 0, 0)
  {
    var profiles, endpoints := 0, 0;
    for i := 0 to |query|
      invariant profiles <= 1 && endpoints <= 1
      invariant CheckKeys(query[i..], profiles, endpoints) == CheckKeys(query, 0, 0)
    {
      assert query[i..][1..] == query[i + 1..];
      match query[i].key {
        case "profile" => profiles := profiles + 1;
        case "endpoint" => endpoints := endpoints + 1;
        case _ => return Some(UNKNOWN_QUERY);
      }
      if profiles > 1 || endpoints > 1 {
        return Some(REPEATED_QUERY);
      }
    }
    return None;
  }
}
