/**
 * What the parameters of a signature context promise (src/signature.c:168-180, 220-407), and exactly
 * when an operation asks KMS for a signature (src/signature.c:537-597, 820-917).
 */
module SignatureParams {
  import opened Bytes
  import opened KeySpec
  import opened PublicKey
  import opened Signature

  // ---------------------------------------------------------------- decimal salt lengths

  function Digits(n: nat): (s: string)
    ensures s != ""
  {
    if n < 10 then [(n + '0' as int) as char] else Digits(n / 10) + [(n % 10 + '0' as int) as char]
  }

  function Decimal(n: int): string {
    if n < 0 then "-" + Digits(-n) else Digits(n)
  }

  lemma {:induction false} DigitsRead(n: nat)
    ensures AllDigits(Digits(n)) && Magnitude(Digits(n)) == n
  {
    var s := Digits(n);
    if n < 10 {
      assert s[..|s| - 1] == "";
    } else {
      DigitsRead(n / 10);
      assert s[..|s| - 1] == Digits(n / 10);
    }
  }

  /** Every integer reads back as itself if it fits an `int`, with or without a plus sign, and is refused if not. */
  lemma DecimalRoundTrip(n: int)
    ensures ParseDecimal(Decimal(n)) == if INT_MIN <= n <= INT_MAX then Some(n) else None
    ensures n >= 0 ==> ParseDecimal("+" + Decimal(n)) == ParseDecimal(Decimal(n))
  {
    hide Magnitude;
    var digits := Digits(if n < 0 then -n else n);
    DigitsRead(if n < 0 then -n else n);
    hide Digits;
    assert '0' <= digits[0] <= '9';
    assert ("-" + digits)[1..] == digits && ("+" + digits)[1..] == digits;
  }

  /**
   * A salt length can be honoured exactly if it demands nothing in particular or names the length of the
   * digest; the maximum, other negative numbers and other lengths cannot.
   */
  lemma SaltPolicy(c: Ctx, text: string, digestLength: nat)
    requires SaltOf(Utf8(text)).Some?
    ensures ApplySalt(c, Some(Utf8(text))).ok
    ensures SaltSatisfiable(ApplySalt(c, Some(Utf8(text))).ctx, digestLength) <==>
      || text == "digest" || text == "auto"
      || ParseDecimal(text) == Some(-1) || ParseDecimal(text) == Some(-2) || ParseDecimal(text) == Some(digestLength)
  {
    if text == "digest" || text == "auto" || text == "max" {
      WordsAreNoNumbers(text);
    }
  }

  lemma WordsAreNoNumbers(text: string)
    requires text == "digest" || text == "auto" || text == "max"
    ensures ParseDecimal(text).None?
  {
    assert text[0] == 'd' || text[0] == 'a' || text[0] == 'm';
    assert Unsigned(text) == text && !('0' <= text[0] <= '9');
  }

  // ---------------------------------------------------------------- what parameters change

  /** What one parameter asks for, or the present value if it is not given. */
  function Given<T>(p: Option<Param>, read: Param -> Option<T>, present: T): T {
    if p.Some? && read(p.value).Some? then read(p.value).value else present
  }

  /**
   * If all parameters are accepted each one given has taken effect, and nothing else has changed: not the
   * key, not its views, not the running digest.
   */
  lemma ParamsTakeEffect(c: Ctx, p: Params, e: Env)
    requires SetParams(c, Some(p), e).ok
    ensures var d := SetParams(c, Some(p), e).ctx;
      && d == c.(md := d.md, digest := d.digest, pad := d.pad, saltLen := d.saltLen, context := d.context,
                 instance := d.instance)
      && d.pad == Given(p.pad, PadOf, c.pad)
      && d.saltLen == Given(p.salt, SaltOf, c.saltLen)
      && d.context == (if p.context.Some? then p.context.value.data else c.context)
      && d.instance == (if p.instance.Some? then Some(p.instance.value.text) else c.instance)
      && (p.digest.None? ==> d.md == c.md && d.digest == c.digest)
      && (p.digest.Some? && p.digest.value.text != "" ==>
            d.md == e.paramMd && d.md.Some? && d.digest == d.md.value.digest)
      && (p.digest.Some? && p.digest.value.text == "" ==> d.md == None && d.digest == NONE)
      && (p.mgf1.Some? ==> d.md.Some? && e.mgf1Is)
    ensures p.context.Some? ==> p.context.value.Octets? && |p.context.value.data| <= MAX_CONTEXT
    ensures p.instance.Some? ==> p.instance.value.Utf8?
    ensures p.digest.Some? ==> p.digest.value.Utf8?
  {
    hide ApplyDigest, ApplyPad, ApplySalt, ApplyContext, ApplyInstance, Given;
    var c1 := ApplyDigest(c, p.digest, e).ctx;
    var c2 := ApplyPad(c1, p.pad).ctx;
    var c3 := ApplySalt(c2, p.salt).ctx;
    DigestEffect(c, p.digest, e);
    OtherEffects(c1, p);
    OtherEffects(c2, p);
    OtherEffects(c3, p);
    OtherEffects(ApplyContext(c3, p.context).ctx, p);
    SamePresent(c, c1, c2, p);
  }

  lemma SamePresent(c: Ctx, c1: Ctx, c2: Ctx, p: Params)
    requires c1.pad == c.pad && c2.saltLen == c.saltLen
    ensures Given(p.pad, PadOf, c1.pad) == Given(p.pad, PadOf, c.pad)
    ensures Given(p.salt, SaltOf, c2.saltLen) == Given(p.salt, SaltOf, c.saltLen)
  {
  }

  lemma DigestEffect(c: Ctx, p: Option<Param>, e: Env)
    requires ApplyDigest(c, p, e).ok
    ensures var d := ApplyDigest(c, p, e).ctx;
      && d == c.(md := d.md, digest := d.digest) && (p.Some? ==> p.value.Utf8?)
      && (p.None? ==> d == c)
      && (p.Some? && p.value.text != "" ==> d.md == e.paramMd && d.md.Some? && d.digest == d.md.value.digest)
      && (p.Some? && p.value.text == "" ==> d.md == None && d.digest == NONE)
  {
  }

  lemma OtherEffects(c: Ctx, p: Params)
    ensures ApplyPad(c, p.pad).ok ==> ApplyPad(c, p.pad).ctx == c.(pad := Given(p.pad, PadOf, c.pad))
    ensures ApplySalt(c, p.salt).ok ==> ApplySalt(c, p.salt).ctx == c.(saltLen := Given(p.salt, SaltOf, c.saltLen))
    ensures ApplyContext(c, p.context).ok ==>
      && (p.context.Some? ==> p.context.value.Octets? && |p.context.value.data| <= MAX_CONTEXT)
      && ApplyContext(c, p.context).ctx == c.(context := if p.context.Some? then p.context.value.data else c.context)
    ensures ApplyInstance(c, p.instance).ok ==>
      && (p.instance.Some? ==> p.instance.value.Utf8?)
      && ApplyInstance(c, p.instance).ctx
           == c.(instance := if p.instance.Some? then Some(p.instance.value.text) else c.instance)
  {
    hide PadOf, SaltOf;
  }

  /** The first k parameters, in the order they are applied: digest, padding, salt, context, instance, MGF1. */
  function Front(p: Params, k: nat): Params {
    Params(
      if k > 0 then p.digest else None, if k > 1 then p.pad else None, if k > 2 then p.salt else None,
      if k > 3 then p.context else None, if k > 4 then p.instance else None, if k > 5 then p.mgf1 else None)
  }

  /** A digest that is no digest, or one that could be fetched and has a fixed length. */
  predicate DigestFound(p: Param, e: Env) {
    var name := GetUtf8(p, 64);
    name.Some? && (name.value == "" || (e.paramMd.Some? && !e.paramMd.value.xof))
  }

  /** The digest a call with these parameters ends up with, if there is one. */
  predicate HasDigest(c: Ctx, p: Option<Param>) {
    if p.Some? then p.value.Utf8? && p.value.text != "" else c.md.Some?
  }

  /** The k-th parameter, where it is given, is one the context can take; MGF1 only with the digest itself. */
  predicate Takes(c: Ctx, p: Params, e: Env, k: nat) {
    match k
    case 0 => p.digest.Some? ==> DigestFound(p.digest.value, e)
    case 1 => p.pad.Some? ==> PadOf(p.pad.value).Some?
    case 2 => p.salt.Some? ==> SaltOf(p.salt.value).Some?
    case 3 => p.context.Some? ==> p.context.value.Octets? && |p.context.value.data| <= MAX_CONTEXT
    case 4 => p.instance.Some? ==> GetUtf8(p.instance.value, 32).Some?
    case 5 => p.mgf1.Some? ==> GetUtf8(p.mgf1.value, 64).Some? && HasDigest(c, p.digest) && e.mgf1Is
    case _ => true
  }

  /** The first parameter that cannot be taken, or 6. */
  function FirstRefused(c: Ctx, p: Params, e: Env): (k: nat)
    ensures k <= 6 && (k < 6 ==> !Takes(c, p, e, k)) && forall j :: 0 <= j < k ==> Takes(c, p, e, j)
  {
    if !Takes(c, p, e, 0) then 0
    else if !Takes(c, p, e, 1) then 1
    else if !Takes(c, p, e, 2) then 2
    else if !Takes(c, p, e, 3) then 3
    else if !Takes(c, p, e, 4) then 4
    else if !Takes(c, p, e, 5) then 5
    else 6
  }

  lemma DigestTaken(c: Ctx, p: Option<Param>, e: Env)
    ensures ApplyDigest(c, p, e).ok <==> (p.Some? ==> DigestFound(p.value, e))
    ensures !ApplyDigest(c, p, e).ok ==> ApplyDigest(c, p, e).ctx == c
    ensures ApplyDigest(c, p, e).ok ==> (ApplyDigest(c, p, e).ctx.md.Some? <==> HasDigest(c, p))
  {
  }

  lemma OthersTaken(c: Ctx, p: Params, e: Env, d: Ctx)
    requires d.md.Some? <==> HasDigest(c, p.digest)
    ensures ApplyPad(d, p.pad).ok <==> Takes(c, p, e, 1)
    ensures ApplySalt(d, p.salt).ok <==> Takes(c, p, e, 2)
    ensures ApplyContext(d, p.context).ok <==> Takes(c, p, e, 3)
    ensures ApplyInstance(d, p.instance).ok <==> Takes(c, p, e, 4)
    ensures (CheckMgf1(d, p.mgf1, e).ok <==> Takes(c, p, e, 5)) && CheckMgf1(d, p.mgf1, e).ctx == d
    ensures !ApplyPad(d, p.pad).ok ==> ApplyPad(d, p.pad).ctx == d
    ensures !ApplySalt(d, p.salt).ok ==> ApplySalt(d, p.salt).ctx == d
    ensures !ApplyContext(d, p.context).ok ==> ApplyContext(d, p.context).ctx == d
    ensures !ApplyInstance(d, p.instance).ok ==> ApplyInstance(d, p.instance).ctx == d
    ensures ApplyPad(d, p.pad).ctx.md == ApplySalt(d, p.salt).ctx.md == d.md
    ensures ApplyContext(d, p.context).ctx.md == ApplyInstance(d, p.instance).ctx.md == d.md
  {
    hide PadOf, SaltOf, GetUtf8;
  }

  lemma NotGiven(c: Ctx, e: Env)
    ensures ApplyDigest(c, None, e) == ApplyPad(c, None) == ApplySalt(c, None) == Outcome(c, true)
    ensures ApplyContext(c, None) == ApplyInstance(c, None) == CheckMgf1(c, None, e) == Outcome(c, true)
  {
  }

  /**
   * A call succeeds exactly if every parameter given can be taken.  If not, it leaves the context as a
   * successful call with only the parameters in front of the first refused one would.
   */
  lemma FailureAppliesFront(c: Ctx, p: Params, e: Env)
    ensures var k := FirstRefused(c, p, e);
      && (SetParams(c, Some(p), e).ok <==> k == 6)
      && SetParams(c, Some(Front(p, k)), e).ok
      && SetParams(c, Some(p), e).ctx == SetParams(c, Some(Front(p, k)), e).ctx
  {
    hide ApplyDigest, ApplyPad, ApplySalt, ApplyContext, ApplyInstance, CheckMgf1, DigestFound, HasDigest;
    var k := FirstRefused(c, p, e);
    var c1 := ApplyDigest(c, p.digest, e).ctx;
    var c2 := ApplyPad(c1, p.pad).ctx;
    var c3 := ApplySalt(c2, p.salt).ctx;
    var c4 := ApplyContext(c3, p.context).ctx;
    var c5 := ApplyInstance(c4, p.instance).ctx;
    DigestTaken(c, p.digest, e);
    NotGiven(c, e);
    if k > 0 {
      OthersTaken(c, p, e, c1);
      OthersTaken(c, p, e, c2);
      OthersTaken(c, p, e, c3);
      OthersTaken(c, p, e, c4);
      OthersTaken(c, p, e, c5);
      NotGiven(c1, e);
      NotGiven(c2, e);
      NotGiven(c3, e);
      NotGiven(c4, e);
      NotGiven(c5, e);
    }
  }

  /** Binding touches the key and its reparsed view, nothing else; without a key the current one stays. */
  lemma BindTakesEffect(c: Ctx, key: Option<Key>, e: Env, lib: Lib)
    ensures var o := BindKey(c, key, e, lib);
      && o.ctx == c.(key := o.ctx.key, fipsPub := o.ctx.fipsPub)
      && (o.ok ==> o.ctx.key.Some? && o.ctx.key == (if key.Some? then key else c.key))
      && (o.ok && key.None? ==> o.ctx == c)
      && (o.ok && key.Some? && (key.value.fips || !c.fips) ==> o.ctx.fipsPub == EMPTY)
      && (o.ok && key.Some? && !key.value.fips && c.fips ==> Reparse(key.value, e.spki, lib) == Some(o.ctx.fipsPub))
      && (!o.ok ==> o.ctx == c)
      && (o.ok <==> match key
                    case None => c.key.Some?
                    case Some(k) => e.upRef && (c.fips && !k.fips ==> Reparse(k, e.spki, lib).Some?))
  {
    hide Reparse;
  }

  /** Exactly when an initialisation succeeds; a digest has to be there at the end, or none to be named. */
  lemma InitsExactly(c: Ctx, name: string, key: Option<Key>, p: Params, e: Env, lib: Lib)
    ensures var bound := BindKey(c, key, e, lib);
      var taken := bound.ok && FirstRefused(bound.ctx, p, e) == 6;
      && (SignInit(c, key, Some(p), e, lib).ok <==> taken)
      && (DigestInit(c, name, key, Some(p), e, lib).ok <==>
            && taken && e.allocates && e.digestInits
            && (if name != "" then e.nameMd.Some? && !e.nameMd.value.xof else HasDigest(bound.ctx, p.digest)))
      && (OneshotInit(c, name, key, Some(p), e, lib).ok <==>
            && taken && name == "" && var d := SetParams(bound.ctx, Some(p), e).ctx;
            d.key.Some? && d.key.value.pub.spec.Some? && Supported(d, d.key.value.pub.spec.value))
  {
    hide BindKey, SetParams, FirstRefused, HasDigest, IsPureInstance;
    var b := BindKey(c, key, e, lib).ctx;
    FailureAppliesFront(b, p, e);
    DigestLeft(b, p, e);
  }

  /** After accepted parameters there is a digest exactly if they leave one. */
  lemma DigestLeft(c: Ctx, p: Params, e: Env)
    ensures SetParams(c, Some(p), e).ok ==> (SetParams(c, Some(p), e).ctx.md.Some? <==> HasDigest(c, p.digest))
  {
    hide ApplyDigest, ApplyPad, ApplySalt, ApplyContext, ApplyInstance, CheckMgf1, HasDigest;
    DigestTaken(c, p.digest, e);
    var c1 := ApplyDigest(c, p.digest, e).ctx;
    var c2 := ApplyPad(c1, p.pad).ctx;
    var c3 := ApplySalt(c2, p.salt).ctx;
    var c4 := ApplyContext(c3, p.context).ctx;
    if SetParams(c, Some(p), e).ok {
      OthersTaken(c, p, e, c1);
      OthersTaken(c, p, e, c2);
      OthersTaken(c, p, e, c3);
      OthersTaken(c, p, e, c4);
      OthersTaken(c, p, e, ApplyInstance(c4, p.instance).ctx);
    }
  }

  /** A signature of Ed25519 or ML-DSA has the length of its kind; any other is as long as the public key says. */
  lemma SizesExactly(c: Ctx)
    requires SpecOf(c).Some? && Known(SpecOf(c).value)
    ensures var spec := SpecOf(c).value;
      RequiredSize(c) ==
        if spec.family.ED25519? then 64
        else if spec.family.ML_DSA? then spec.signatureLength
        else if OperationPub(c).Some? && OperationPub(c).value.pkey.Some? && OperationPub(c).value.pkey.value.size > 0
        then OperationPub(c).value.pkey.value.size
        else 0
  {
    var spec := SpecOf(c).value;
    TableFacts(spec);
    hide OperationPub;
    assert forall i :: 0 <= i < |SPECS| ==> (SPECS[i].family.ED25519? ==> SPECS[i].signatureLength == 64);
  }

  /**
   * A successful initialisation has the key asked for; for a digest signature the running digest is empty
   * and of the named digest; for a one-shot signature no digest is left and none was named.
   */
  lemma InitsTakeEffect(c: Ctx, name: string, key: Option<Key>, params: Option<Params>, e: Env, lib: Lib)
    ensures var o := DigestInit(c, name, key, params, e, lib);
      o.ok ==>
        && o.ctx.key == (if key.Some? then key else c.key) && o.ctx.key.Some?
        && o.ctx.md.Some? && o.ctx.mdctx == Some(Hashing(o.ctx.md.value, []))
        && (name != "" ==> o.ctx.md == e.nameMd && o.ctx.digest == o.ctx.md.value.digest && !o.ctx.md.value.xof)
    ensures var o := OneshotInit(c, name, key, params, e, lib);
      o.ok ==>
        && name == "" && o.ctx.digest == NONE && o.ctx.mdctx == c.mdctx
        && o.ctx.key == (if key.Some? then key else c.key) && o.ctx.key.Some?
        && SpecOf(o.ctx).Some? && Supported(o.ctx, SpecOf(o.ctx).value)
  {
    hide Reparse, PadOf, SaltOf, GetUtf8, Supported;
    BindTakesEffect(c, key, e, lib);
    ParamsKeepKey(BindKey(c, key, e, lib).ctx, params, e);
    hide SetParams, BindKey;
  }

  predicate SameKey(c: Ctx, d: Ctx) {
    d.key == c.key && d.fips == c.fips && d.fipsPub == c.fipsPub && d.mdctx == c.mdctx
  }

  lemma OneParamKeepsKey(c: Ctx, p: Option<Param>, e: Env)
    ensures SameKey(c, ApplyDigest(c, p, e).ctx) && SameKey(c, ApplyPad(c, p).ctx) && SameKey(c, ApplySalt(c, p).ctx)
    ensures SameKey(c, ApplyContext(c, p).ctx) && SameKey(c, ApplyInstance(c, p).ctx)
  {
    hide PadOf, SaltOf, GetUtf8;
  }

  lemma ParamsKeepKey(c: Ctx, params: Option<Params>, e: Env)
    ensures SameKey(c, SetParams(c, params, e).ctx)
  {
    hide ApplyDigest, ApplyPad, ApplySalt, ApplyContext, ApplyInstance;
    if params.Some? {
      var p := params.value;
      OneParamKeepsKey(c, p.digest, e);
      var c1 := ApplyDigest(c, p.digest, e).ctx;
      OneParamKeepsKey(c1, p.pad, e);
      var c2 := ApplyPad(c1, p.pad).ctx;
      OneParamKeepsKey(c2, p.salt, e);
      var c3 := ApplySalt(c2, p.salt).ctx;
      OneParamKeepsKey(c3, p.context, e);
      OneParamKeepsKey(ApplyContext(c3, p.context).ctx, p.instance, e);
    }
  }

  // ---------------------------------------------------------------- exactly when a signature is asked for

  predicate HoldsSignature(c: Ctx, out: Buffer) {
    out.present && out.hasLength && 0 < RequiredSize(c) <= out.size
  }

  /** The digests KMS signs with a key: any SHA-2 for RSA, its curve's own for EC, none for the rest. */
  predicate CanSign(spec: Spec, digest: Digest) {
    match spec.family
    case RSA => DigestLength(digest) > 0
    case EC => digest == spec.digest
    case _ => false
  }

  /** Nothing KMS can honour is refused, and nothing else is sent. */
  lemma SignsExactly(c: Ctx, out: Buffer, hashed: Bytes, e: Env)
    requires SpecOf(c).Some? && Known(SpecOf(c).value)
    ensures var spec := SpecOf(c).value;
      SignDigest(c, out, hashed, e).request.Some? <==>
        && HoldsSignature(c, out) && CanSign(spec, c.digest) && Supported(c, spec)
        && |hashed| == DigestLength(c.digest)
        && (spec.family.RSA? && c.pad.PSS? ==> SaltSatisfiable(c, DigestLength(c.digest)))
    ensures var s := SignDigest(c, out, hashed, e);
      s.request.Some? ==>
        && s.request.value.message == hashed && s.request.value.reserved == out.size
        && (s.ok <==> e.signature.Some? && e.signature.value <= out.size) && (s.ok ==> s.length == e.signature)
  {
    hide Supported, SaltSatisfiable;
    var spec := SpecOf(c).value;
    TableFacts(spec);
    AlgorithmMatches(spec, c.digest, UsesPss(c, spec));
  }

  /**
   * The same for keys that sign the message: Ed25519 sends it as it is, 1 to 4096 bytes; ML-DSA sends the
   * 64 bytes of SHAKE256 over tr, the context and the message, however long that is.
   */
  lemma OneshotSignsExactly(c: Ctx, out: Buffer, msg: Bytes, e: Env, lib: Lib)
    requires SpecOf(c).Some? && Known(SpecOf(c).value)
    ensures var spec := SpecOf(c).value; var view := OperationPub(c);
      OneshotSign(c, out, msg, e, lib).request.Some? <==>
        && HoldsSignature(c, out) && Supported(c, spec)
        && match spec.family
           case ED25519 => 1 <= |msg| <= 4096
           case ML_DSA => view.Some? && view.value.tr.Some? && |c.context| <= 255 && e.muWorks
           case _ => false
    ensures var r := OneshotSign(c, out, msg, e, lib).request;
      && (r.Some? && SpecOf(c).value.family.ED25519? ==> r.value.message == msg)
      && (r.Some? && !SpecOf(c).value.family.ED25519? ==>
            r.value.message == lib.shake(Framed(OperationPub(c).value.tr.value, c.context, msg)))
  {
    hide Supported, OperationPub;
    var spec := SpecOf(c).value;
    TableFacts(spec);
    AlgorithmMatches(spec, NONE, false);
  }
}
