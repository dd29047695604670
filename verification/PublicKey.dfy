/**
 * The public half of a KMS key: parsing and checking the SubjectPublicKeyInfo, copying the view, and the
 * ML-DSA message representative (src/spki.c).
 *
 * Decoding is the other provider's work: what it finds is an input here.  The `fips` field of a decoded
 * key records, for the model only, under which property query it was decoded.
 */
module PublicKey {
  import opened Bytes
  import opened KeySpec

  /** An EVP_PKEY of another provider, as far as it is looked at. */
  datatype Pkey = Pkey(names: set<string>, group: Option<string>, bits: int, raw: Option<Bytes>, size: int, fips: bool)

  /** A public view; absent parts are None or empty. */
  datatype Pub = Pub(der: Bytes, pkey: Option<Pkey>, spec: Option<Spec>, raw: Bytes, tr: Option<Bytes>)

  const EMPTY := Pub([], None, None, [], None)

  const LONG_MAX: nat := 0x7fff_ffff_ffff_ffff

  /** What the libraries answer: a copy of the DER, the decoder and how far it read, a copy of the raw key, SHAKE256. */
  datatype Answers = Answers(copied: bool, decoded: Option<Pkey>, consumed: nat, rawCopied: bool, shakes: bool)

  /** SHAKE256 with 64 bytes of output. */
  type Shake = Bytes -> Bytes

  function RsaBits(spec: Spec): int {
    if spec.name == "RSA_2048" then 2048
    else if spec.name == "RSA_3072" then 3072
    else if spec.name == "RSA_4096" then 4096
    else 0
  }

  /** The raw public value has the length the table demands. */
  predicate RawFits(spec: Spec, pkey: Pkey) {
    pkey.raw.Some? && pkey.raw.value != [] && (spec.publicLength != 0 ==> |pkey.raw.value| == spec.publicLength)
  }

  /** The decoded key is what the key spec says it is. */
  predicate Matches(spec: Spec, pkey: Pkey) {
    && spec.keyType in pkey.names
    && match spec.family
       case RSA => RsaBits(spec) != 0 && pkey.bits == RsaBits(spec)
       case EC => spec.group.Some? && pkey.group == spec.group
       case _ => RawFits(spec, pkey)
  }

  /** Everything the parse demands of its input, and of the libraries. */
  predicate Accepts(spec: Spec, der: Bytes, o: Answers) {
    && 0 < |der| <= LONG_MAX && o.copied && o.decoded.Some? && o.consumed == |der|
    && Matches(spec, o.decoded.value)
    && (spec.family.ED25519? || spec.family.ML_DSA? ==> o.rawCopied)
    && (spec.family.ML_DSA? ==> o.shakes)
  }

  /** The view of an accepted input: the DER kept as it is, the decoder's key with its provenance. */
  function Parsed(spec: Spec, der: Bytes, fips: bool, pkey: Pkey, shake: Shake): Pub {
    var raw := if (spec.family.ED25519? || spec.family.ML_DSA?) && pkey.raw.Some? then pkey.raw.value else [];
    Pub(der, Some(pkey.(fips := fips)), Some(spec), raw, if spec.family.ML_DSA? then Some(shake(raw)) else None)
  }

  /** What AWS documents of a key spec: the kind of key, and its size, its curve or the length of its public value. */
  predicate IsKeyOf(name: string, pkey: Pkey) {
    || (name == "RSA_2048" && "RSA" in pkey.names && pkey.bits == 2048)
    || (name == "RSA_3072" && "RSA" in pkey.names && pkey.bits == 3072)
    || (name == "RSA_4096" && "RSA" in pkey.names && pkey.bits == 4096)
    || (name == "ECC_NIST_P256" && "EC" in pkey.names && pkey.group == Some("prime256v1"))
    || (name == "ECC_NIST_P384" && "EC" in pkey.names && pkey.group == Some("secp384r1"))
    || (name == "ECC_NIST_P521" && "EC" in pkey.names && pkey.group == Some("secp521r1"))
    || (name == "ECC_NIST_EDWARDS25519" && "ED25519" in pkey.names && pkey.raw.Some? && |pkey.raw.value| == 32)
    || (name == "ML_DSA_44" && "ML-DSA-44" in pkey.names && pkey.raw.Some? && |pkey.raw.value| == 1312)
    || (name == "ML_DSA_65" && "ML-DSA-65" in pkey.names && pkey.raw.Some? && |pkey.raw.value| == 1952)
    || (name == "ML_DSA_87" && "ML-DSA-87" in pkey.names && pkey.raw.Some? && |pkey.raw.value| == 2592)
  }

  /** Row by row. */
  lemma RowMatches(i: nat, pkey: Pkey)
    requires i < |SPECS|
    ensures Matches(SPECS[i], pkey) <==> IsKeyOf(SPECS[i].name, pkey)
  {
    RowNames(i);
    NamesApart();
  }

  /**
   * What is taken for a public key of KMS: all of a DER text that decodes to the kind of key its spec names, of
   * its size or on its curve or with a public value of its length.
   */
  lemma AcceptsExactly(spec: Spec, der: Bytes, o: Answers)
    requires Known(spec)
    ensures Accepts(spec, der, o) <==>
      && 0 < |der| <= LONG_MAX && o.copied && o.decoded.Some? && o.consumed == |der|
      && IsKeyOf(spec.name, o.decoded.value)
      && (!spec.family.RSA? && !spec.family.EC? ==> o.rawCopied) && (spec.family.ML_DSA? ==> o.shakes)
  {
    hide Matches, IsKeyOf;
    var i :| 0 <= i < |SPECS| && SPECS[i] == spec;
    if o.decoded.Some? {
      RowMatches(i, o.decoded.value);
    }
  }

  /** The raw public value is kept where the message representative needs it, and tr is its hash (FIPS 204). */
  lemma ParsedKeeps(spec: Spec, der: Bytes, fips: bool, o: Answers, shake: Shake)
    requires Known(spec) && Accepts(spec, der, o)
    ensures var p, pkey := Parsed(spec, der, fips, o.decoded.value, shake), o.decoded.value;
      && p.der == der && p.spec == Some(spec) && p.pkey == Some(pkey.(fips := fips))
      && (spec.family.ML_DSA? ==> pkey.raw == Some(p.raw) && p.tr == Some(shake(p.raw)))
      && (spec.family.ED25519? ==> pkey.raw == Some(p.raw))
      && (!spec.family.ML_DSA? ==> p.tr.None?)
  {
  }

  class PublicView {
    var der: Bytes
    var pkey: Option<Pkey>
    var spec: Option<Spec>
    var raw: Bytes
    var tr: Option<Bytes>

    constructor ()
      ensures Contents() == EMPTY
    {
      der, pkey, spec, raw, tr := [], None, None, [], None;
    }

    function Contents(): Pub
      reads this
    {
      Pub(der, pkey, spec, raw, tr)
    }

    method Cleanup()
      modifies this
      ensures Contents() == EMPTY
    {
      der, pkey, spec, raw, tr := [], None, None, [], None;
    }

    method LoadRawPublic(o: Answers) returns (ok: bool)
      requires pkey.Some? && spec.Some?
      modifies `raw
      ensures ok <==> RawFits(spec.value, pkey.value) && o.rawCopied
      ensures ok ==> raw == pkey.value.raw.value
    {
      if pkey.value.raw.None? || pkey.value.raw.value == [] {
        return false;
      }
      if !o.rawCopied {
        return false;
      }
      raw := pkey.value.raw.value;
      return spec.value.publicLength == 0 || |raw| == spec.value.publicLength;
    }

    /** The fields are filled in order; a failure half-way leaves the ones before it behind. */
    method Fill(input: Bytes, name: Option<string>, fips: bool, o: Answers, shake: Shake) returns (ok: bool)
      requires Contents() == EMPTY
      modifies this
      ensures ok ==> spec.Some? && Known(spec.value) && name == Some(spec.value.name) && Accepts(spec.value, input, o)
      ensures ok ==> Contents() == Parsed(spec.value, input, fips, o.decoded.value, shake)
      ensures !ok ==> forall s :: Known(s) && name == Some(s.name) ==> !Accepts(s, input, o)
    {
      spec := ByName(name);
      if spec.None? {
        return false;
      }
      ghost var row := spec.value;
      forall s | Known(s) && name == Some(s.name)
        ensures s == row
      {
        NamesAreDistinct(s, row);
      }
      if input == [] || |input| > LONG_MAX || !o.copied {
        return false;
      }
      der := input;
      if o.decoded.None? {
        return false;
      }
      pkey := Some(o.decoded.value.(fips := fips));
      if o.consumed != |der| {
        return false;
      }
      if spec.value.keyType !in pkey.value.names {
        return false;
      }
      match spec.value.family {
        case EC =>
          TableFacts(spec.value);
          return pkey.value.group == spec.value.group;
        case ED25519 =>
          ok := LoadRawPublic(o);
        case ML_DSA =>
          ok := LoadRawPublic(o);
          if ok {
            if o.shakes {
              tr := Some(shake(raw));
            } else {
              ok := false;
            }
          }
        case RSA =>
          return RsaBits(spec.value) != 0 && pkey.value.bits == RsaBits(spec.value);
      }
    }

    /**
     * Parses the SPKI under `fips`: on success the view is the checked one with that provenance, on any
     * failure it is empty again.  It fails only if the key spec is unknown, the input is not acceptable
     * for it, or a library call fails.
     */
    method FromSpki(input: Bytes, name: Option<string>, fips: bool, o: Answers, shake: Shake) returns (ok: bool)
      requires Contents() == EMPTY
      modifies this
      ensures ok <==> exists s :: Known(s) && name == Some(s.name) && Accepts(s, input, o)
      ensures ok ==> spec.Some? && Known(spec.value) && name == Some(spec.value.name) && Accepts(spec.value, input, o)
      ensures ok ==> Contents() == Parsed(spec.value, input, fips, o.decoded.value, shake)
      ensures !ok ==> Contents() == EMPTY
    {
      ok := Fill(input, name, fips, o, shake);
      if !ok {
        Cleanup();
      }
    }

    /** Copies another view: all of it, or nothing. */
    method Dup(src: PublicView, copied: bool, retained: bool) returns (ok: bool)
      requires this != src ==> Contents() == EMPTY
      modifies this
      ensures ok <==>
        && this != src
        && (copied || (old(src.der) == [] && old(src.raw) == [])) && (retained || old(src.pkey).None?)
      ensures this != src ==> Contents() == if ok then src.Contents() else EMPTY
      ensures this == src ==> unchanged(this)
    {
      if this == src {
        return false;
      }
      spec := src.spec;
      if |src.der| != 0 {
        if !copied {
          Cleanup();
          return false;
        }
        der := src.der;
      }
      if src.pkey.Some? {
        if !retained {
          Cleanup();
          return false;
        }
        pkey := src.pkey;
      }
      if |src.raw| != 0 {
        if !copied {
          Cleanup();
          return false;
        }
        raw := src.raw;
      }
      tr := src.tr;
      return true;
    }
  }

  // ---------------------------------------------------------------- provenance and reparsing

  /** A complete view, parsed from its own DER under its own spec. */
  ghost predicate Complete(p: Pub, shake: Shake) {
    && p.spec.Some? && Known(p.spec.value) && p.pkey.Some?
    && Matches(p.spec.value, p.pkey.value)
    && p == Parsed(p.spec.value, p.der, p.pkey.value.fips, p.pkey.value, shake)
  }

  /** An accepted input gives a complete view with the provenance asked for. */
  lemma AcceptedIsComplete(spec: Spec, der: Bytes, fips: bool, o: Answers, shake: Shake)
    requires Known(spec) && Accepts(spec, der, o)
    ensures var p := Parsed(spec, der, fips, o.decoded.value, shake);
      Complete(p, shake) && p.pkey.value.fips == fips && p.der == der && p.spec == Some(spec)
      && |p.raw| == spec.publicLength
  {
    TableFacts(spec);
  }

  /**
   * Reparsing the retained DER of a complete view under FIPS gives a view of the same key: the same
   * spec and DER, and, where the decoder finds the same raw value, the same raw value and tr.
   */
  lemma ReparseIsSameKey(p: Pub, o: Answers, shake: Shake)
    requires Complete(p, shake) && Accepts(p.spec.value, p.der, o)
    ensures var q := Parsed(p.spec.value, p.der, true, o.decoded.value, shake);
      && Complete(q, shake) && q.der == p.der && q.spec == p.spec && q.pkey.value.fips
      && (o.decoded.value.raw == p.pkey.value.raw ==> q.raw == p.raw && q.tr == p.tr)
  {
    AcceptedIsComplete(p.spec.value, p.der, true, o, shake);
  }

  // ---------------------------------------------------------------- the ML-DSA message representative

  /** `IntegerToBytes(x, 1)` of FIPS 204. */
  function OneByte(x: nat): Bytes
    requires x < 256
  {
    [x as byte]
  }

  /** M' of algorithm 2 (section 5.2 of FIPS 204): domain separator, length of the context, context, message. */
  function Formatted(context: Bytes, msg: Bytes): Bytes
    requires |context| <= 255
  {
    OneByte(0) + OneByte(|context|) + context + msg
  }

  /** The input of the hash in algorithm 7 (section 6.2 of FIPS 204): tr, then M'. */
  function Framed(tr: Bytes, context: Bytes, msg: Bytes): Bytes
    requires |context| <= 255
  {
    tr + Formatted(context, msg)
  }

  /** Where everything is in the input of the hash: 64 bytes of tr, 0, the length of the context, context, message. */
  lemma FramedLayout(tr: Bytes, context: Bytes, msg: Bytes)
    requires |tr| == 64 && |context| <= 255
    ensures var f, n := Framed(tr, context, msg), |context|;
      && |f| == 66 + n + |msg| && f[..64] == tr && f[64] == 0 && f[65] as int == n
      && f[66..66 + n] == context && f[66 + n..] == msg
  {
  }

  /** The digest is fed piece by piece; None stands for a context that is too long, or for a failing library. */
  method Mu(tr: Bytes, context: Bytes, msg: Bytes, works: bool, shake: Shake) returns (mu: Option<Bytes>)
    requires |tr| == 64
    ensures mu.Some? <==> |context| <= 255 && works
    ensures mu.Some? ==> mu.value == shake(Framed(tr, context, msg))
  {
    if |context| > 255 {
      return None;
    }
    if !works {
      return None;
    }
    var prefix: Bytes := [0, |context| as byte];
    var absorbed: Bytes := tr;
    absorbed := absorbed + prefix;
    if |context| != 0 {
      absorbed := absorbed + context;
    }
    absorbed := absorbed + msg;
    assert absorbed == Framed(tr, context, msg);
    mu := Some(shake(absorbed));
  }

  /** For one key no two pairs of context and message are hashed as the same string. */
  lemma FramingIsInjective(tr: Bytes, context: Bytes, msg: Bytes, tr': Bytes, context': Bytes, msg': Bytes)
    requires |tr| == 64 && |tr'| == 64 && |context| <= 255 && |context'| <= 255
    requires Framed(tr, context, msg) == Framed(tr', context', msg')
    ensures tr == tr' && context == context' && msg == msg'
  {
    var f, f' := Framed(tr, context, msg), Framed(tr', context', msg');
    var n, n' := |context|, |context'|;
    assert f[..64] == tr && f'[..64] == tr';
    assert f[65] == n as byte && f'[65] == n' as byte;
    assert f[66..66 + n] == context && f'[66..66 + n'] == context';
    assert f[66 + n..] == msg && f'[66 + n'..] == msg';
  }
}
