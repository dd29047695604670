/**
 * What a caller asks of a signature context, and what reaches KMS (src/signature.c:210-407, 656-758).  The
 * parameters accepted so far are kept as they were given, and read here a second time: by the values OpenSSL
 * documents for them, not by the fields of the context.
 */
module SignatureSettings {
  import opened Bytes
  import opened KeySpec
  import opened PublicKey
  import opened Signature
  import opened SignatureParams
  import opened SignatureRuns

  // ---------------------------------------------------------------- decimal texts

  predicate Zeros(s: string) {
    forall i :: 0 <= i < |s| ==> s[i] == '0'
  }

  /** An optional sign, any number of zeros in front, and the digits of the number. */
  ghost predicate IsDecimalOf(text: string, n: int) {
    exists zeros :: Zeros(zeros) &&
      ((n >= 0 && (text == zeros + Digits(n) || text == "+" + (zeros + Digits(n))))
       || (n <= 0 && text == "-" + (zeros + Digits(-n))))
  }

  lemma {:induction false} ZerosCount(zeros: string, s: string)
    requires Zeros(zeros) && AllDigits(s)
    ensures AllDigits(zeros + s) && Magnitude(zeros + s) == Magnitude(s)
    decreases |zeros| + |s|
  {
    var t := zeros + s;
    if s != "" {
      ZerosCount(zeros, s[..|s| - 1]);
      assert t[..|t| - 1] == zeros + s[..|s| - 1];
    } else if zeros != "" {
      ZerosCount(zeros[..|zeros| - 1], "");
      assert t[..|t| - 1] == zeros[..|zeros| - 1] + "";
    }
  }

  lemma OneMoreDigit(m: nat, d: char)
    requires '0' <= d <= '9'
    ensures var n := 10 * m + (d as int - '0' as int);
      if m == 0 then Digits(m) == "0" && Digits(n) == [d] else Digits(n) == Digits(m) + [d]
  {
    var k := d as int - '0' as int;
    assert (10 * m + k) / 10 == m && (10 * m + k) % 10 == k;
  }

  lemma LastDigit(t: string, d: char)
    requires AllDigits(t) && '0' <= d <= '9'
    ensures AllDigits(t + [d]) && Magnitude(t + [d]) == 10 * Magnitude(t) + (d as int - '0' as int)
  {
    assert (t + [d])[..|t|] == t;
  }

  /** Digits are those of their value behind some zeros. */
  lemma {:induction false} DigitsAreCanonical(s: string) returns (zeros: string)
    requires s != "" && AllDigits(s)
    ensures Zeros(zeros) && s == zeros + Digits(Magnitude(s))
    decreases |s|
  {
    hide Magnitude, Digits;
    var t, d := s[..|s| - 1], s[|s| - 1];
    assert s == t + [d];
    LastDigit(t, d);
    OneMoreDigit(Magnitude(t), d);
    zeros := "";
    if t == "" {
      NoDigits();
    } else {
      zeros := DigitsAreCanonical(t);
      if Magnitude(t) == 0 {
        zeros := zeros + "0";
      }
    }
  }

  lemma NoDigits()
    ensures Magnitude("") == 0
  {
  }

  lemma ReadIsDecimal(text: string, n: int)
    requires ParseDecimal(text) == Some(n)
    ensures INT_MIN <= n <= INT_MAX && IsDecimalOf(text, n)
  {
    hide Magnitude, Digits;
    var digits := Unsigned(text);
    var zeros := DigitsAreCanonical(digits);
    assert text != digits ==> text == [text[0]] + digits;
  }

  /** Digits with either sign or none. */
  lemma SignsAreRead(s: string)
    requires s != "" && AllDigits(s)
    ensures ParseDecimal(s) == (if Magnitude(s) <= INT_MAX then Some(Magnitude(s)) else None)
    ensures ParseDecimal("+" + s) == ParseDecimal(s)
    ensures ParseDecimal("-" + s) == (if INT_MIN <= 0 - Magnitude(s) then Some(0 - Magnitude(s)) else None)
  {
    hide Magnitude;
    assert '0' <= s[0] <= '9';
    assert ("+" + s)[1..] == s && ("-" + s)[1..] == s;
  }

  lemma DigitsBehindZeros(zeros: string, m: nat)
    requires Zeros(zeros)
    ensures var s := zeros + Digits(m); s != "" && AllDigits(s) && Magnitude(s) == m
  {
    DigitsRead(m);
    ZerosCount(zeros, Digits(m));
  }

  lemma DecimalIsRead(text: string, n: int)
    requires INT_MIN <= n <= INT_MAX && IsDecimalOf(text, n)
    ensures ParseDecimal(text) == Some(n)
  {
    hide Magnitude, Digits, ParseDecimal, AllDigits;
    var m: nat := if n < 0 then -n else n;
    var zeros :| Zeros(zeros) &&
      ((n >= 0 && (text == zeros + Digits(n) || text == "+" + (zeros + Digits(n))))
       || (n <= 0 && text == "-" + (zeros + Digits(-n))));
    DigitsBehindZeros(zeros, m);
    SignsAreRead(zeros + Digits(m));
  }

  /** The salt lengths a text can name: exactly the decimal spellings of what fits an `int`. */
  lemma DecimalGrammar(text: string, n: int)
    ensures ParseDecimal(text) == Some(n) <==> INT_MIN <= n <= INT_MAX && IsDecimalOf(text, n)
  {
    hide ParseDecimal, IsDecimalOf;
    if ParseDecimal(text) == Some(n) {
      ReadIsDecimal(text, n);
    }
    if INT_MIN <= n <= INT_MAX && IsDecimalOf(text, n) {
      DecimalIsRead(text, n);
    }
  }

  // ---------------------------------------------------------------- what the values mean

  /** RSA_PKCS1_PSS_PADDING, as a number or by name. */
  predicate AsksPss(p: Param) {
    p == Integer(6) || p == Utf8("pss")
  }

  /** RSA_PKCS1_PADDING. */
  predicate AsksPkcs1(p: Param) {
    p == Integer(1) || p == Utf8("pkcs1")
  }

  /** The salt length a value stands for. */
  ghost predicate StandsFor(p: Param, n: int) {
    match p
    case Integer(v) => n == v
    case Utf8(text) =>
      || (text == "digest" && n == -1) || (text == "auto" && n == -2) || (text == "max" && n == -3)
      || IsDecimalOf(text, n)
    case _ => false
  }

  /** A text short enough, without NUL. */
  predicate IsText(p: Param, size: nat) {
    p.Utf8? && |p.text| < size && '\0' !in p.text
  }

  ghost predicate IsSalt(p: Param) {
    (p.Integer? || IsText(p, 32)) && exists n :: INT_MIN <= n <= INT_MAX && StandsFor(p, n)
  }

  /** The values last accepted, as they were given; and the digest chosen last. */
  datatype Asked = Asked(
    digest: Digest, pad: Option<Param>, salt: Option<Param>, context: Option<Param>, instance: Option<Param>)

  const NOTHING_ASKED := Asked(NONE, None, None, None, None)

  predicate PssAsked(a: Asked) {
    a.pad.Some? && AsksPss(a.pad.value)
  }

  function ContextAsked(a: Asked): Bytes {
    if a.context.Some? && a.context.value.Octets? then a.context.value.data else []
  }

  /** The length of the digest, or left to the other side. */
  ghost predicate SaltCanBe(a: Asked, digestLength: nat) {
    a.salt.None? || StandsFor(a.salt.value, -1) || StandsFor(a.salt.value, -2) || StandsFor(a.salt.value, digestLength)
  }

  /** No instance, or the pure one of Ed25519. */
  predicate InstanceCanBe(a: Asked, spec: Spec) {
    && (a.instance.Some? && a.instance.value != Utf8("") ==>
          a.instance.value.Utf8? && spec.family.ED25519? && InEitherCase(a.instance.value.text, "Ed25519"))
  }

  // ---------------------------------------------------------------- keeping account

  /** One parameter after the other, up to the first that is not accepted. */
  ghost function TakeParams(a: Asked, p: Params, e: Env): Asked {
    if p.digest.Some? && !(IsText(p.digest.value, 64)
                           && (p.digest.value.text == "" || (e.paramMd.Some? && !e.paramMd.value.xof))) then a
    else
      var digest :=
        if p.digest.None? then a.digest else if p.digest.value.text == "" then NONE else e.paramMd.value.digest;
      var a1 := a.(digest := digest);
      if p.pad.Some? && !AsksPss(p.pad.value) && !AsksPkcs1(p.pad.value) then a1
      else
        var a2 := a1.(pad := if p.pad.Some? then p.pad else a.pad);
        if p.salt.Some? && !IsSalt(p.salt.value) then a2
        else
          var a3 := a2.(salt := if p.salt.Some? then p.salt else a.salt);
          if p.context.Some? && !(p.context.value.Octets? && |p.context.value.data| <= 255) then a3
          else
            var a4 := a3.(context := if p.context.Some? then p.context else a.context);
            if p.instance.Some? && !IsText(p.instance.value, 32) then a4
            else a4.(instance := if p.instance.Some? then p.instance else a.instance)
  }

  ghost function TakeGiven(a: Asked, params: Option<Params>, e: Env): Asked {
    if params.Some? then TakeParams(a, params.value, e) else a
  }

  /** Parameters count once the key is bound; a named digest counts if everything before it went well. */
  ghost function NextAsked(a: Asked, c: Ctx, op: Op, e: Env, lib: Lib): Asked {
    match op
    case SetParamsOp(params) => TakeGiven(a, params, e)
    case SignInitOp(key, params) => if BindKey(c, key, e, lib).ok then TakeGiven(a, params, e) else a
    case DigestInitOp(name, key, params) =>
      var b := if BindKey(c, key, e, lib).ok then TakeGiven(a, params, e) else a;
      if SignInit(c, key, params, e, lib).ok && name != "" && e.nameMd.Some? && !e.nameMd.value.xof
      then b.(digest := e.nameMd.value.digest) else b
    case OneshotInitOp(name, key, params) =>
      var b := if BindKey(c, key, e, lib).ok then TakeGiven(a, params, e) else a;
      if SignInit(c, key, params, e, lib).ok && name == "" then b.(digest := NONE) else b
    case _ => a
  }

  ghost function AskedStep(asks: seq<Asked>, s: State, ev: Event, lib: Lib): seq<Asked>
    requires |asks| == |s.ctxs|
  {
    match ev
    case New(_) => asks + [NOTHING_ASKED]
    case Duplicate(i, works) => if works && i < |asks| then asks + [asks[i]] else asks
    case Run(i, op, e) => if i < |asks| then asks[i := NextAsked(asks[i], s.ctxs[i], op, e, lib)] else asks
  }

  ghost function AskedAfter(asks: seq<Asked>, s: State, run: seq<Event>, lib: Lib): (r: seq<Asked>)
    requires |asks| == |s.ctxs|
    ensures |r| == |After(s, run, lib).ctxs|
    decreases |run|
  {
    if run == [] then asks
    else AskedAfter(AskedStep(asks, s, run[0], lib), Step(s, run[0], lib), run[1..], lib)
  }

  // ---------------------------------------------------------------- the context remembers what was asked

  ghost predicate SaltKept(c: Ctx, a: Asked) {
    && INT_MIN <= c.saltLen <= INT_MAX
    && if a.salt.None? then c.saltLen == -1
       else (a.salt.value.Integer? || IsText(a.salt.value, 32)) && StandsFor(a.salt.value, c.saltLen)
  }

  /** A context holds what was asked of it. */
  ghost predicate Remembers(c: Ctx, a: Asked) {
    && c.digest == a.digest
    && (c.pad.PSS? <==> PssAsked(a))
    && SaltKept(c, a)
    && c.context == ContextAsked(a) && |c.context| <= 255
    && (if a.instance.Some? then a.instance.value.Utf8? && c.instance == Some(a.instance.value.text)
        else c.instance.None?)
  }

  ghost predicate AllRemember(ctxs: seq<Ctx>, asks: seq<Asked>) {
    |ctxs| == |asks| && forall i :: 0 <= i < |ctxs| ==> Remembers(ctxs[i], asks[i])
  }

  lemma DigestRemembered(c: Ctx, a: Asked, p: Params, e: Env)
    requires Remembers(c, a)
    ensures var taken := p.digest.None? || (IsText(p.digest.value, 64)
        && (p.digest.value.text == "" || (e.paramMd.Some? && !e.paramMd.value.xof)));
      var o := ApplyDigest(c, p.digest, e);
      && o.ok == taken
      && Remembers(o.ctx, if !taken || p.digest.None? then a
                          else a.(digest := if p.digest.value.text == "" then NONE else e.paramMd.value.digest))
  {
    hide StandsFor;
  }

  lemma PadRemembered(c: Ctx, a: Asked, p: Option<Param>)
    requires Remembers(c, a)
    ensures var taken := p.None? || AsksPss(p.value) || AsksPkcs1(p.value);
      var o := ApplyPad(c, p);
      o.ok == taken && Remembers(o.ctx, a.(pad := if taken && p.Some? then p else a.pad))
  {
    hide StandsFor;
    assert GetUtf8(Utf8("pss"), 32) == Some("pss") && GetUtf8(Utf8("pkcs1"), 32) == Some("pkcs1");
  }

  lemma WordsStandForOne(text: string, n: int)
    requires text == "digest" || text == "auto" || text == "max"
    ensures !(INT_MIN <= n <= INT_MAX && IsDecimalOf(text, n)) && IsText(Utf8(text), 32)
  {
    WordsAreNoNumbers(text);
    DecimalGrammar(text, n);
  }

  /** Reading a salt is finding the one number it stands for. */
  lemma SaltStandsForOne(p: Param, n: int)
    ensures SaltOf(p) == Some(n) <==> (p.Integer? || IsText(p, 32)) && INT_MIN <= n <= INT_MAX && StandsFor(p, n)
  {
    hide IsDecimalOf, ParseDecimal;
    if p.Utf8? {
      DecimalGrammar(p.text, n);
      if p.text == "digest" || p.text == "auto" || p.text == "max" {
        WordsStandForOne(p.text, n);
      }
    }
  }

  lemma SaltRemembered(c: Ctx, a: Asked, p: Option<Param>)
    requires Remembers(c, a)
    ensures var taken := p.None? || IsSalt(p.value);
      var o := ApplySalt(c, p);
      o.ok == taken && Remembers(o.ctx, a.(salt := if taken && p.Some? then p else a.salt))
  {
    hide StandsFor, SaltOf;
    if p.Some? {
      if SaltOf(p.value).Some? {
        SaltStandsForOne(p.value, SaltOf(p.value).value);
      }
      forall n | INT_MIN <= n <= INT_MAX && StandsFor(p.value, n) && (p.value.Integer? || IsText(p.value, 32))
        ensures SaltOf(p.value) == Some(n)
      {
        SaltStandsForOne(p.value, n);
      }
    }
  }

  lemma ContextRemembered(c: Ctx, a: Asked, p: Option<Param>)
    requires Remembers(c, a)
    ensures var taken := p.None? || (p.value.Octets? && |p.value.data| <= 255);
      var o := ApplyContext(c, p);
      o.ok == taken && Remembers(o.ctx, a.(context := if taken && p.Some? then p else a.context))
  {
    hide StandsFor;
  }

  lemma InstanceRemembered(c: Ctx, a: Asked, p: Option<Param>)
    requires Remembers(c, a)
    ensures var taken := p.None? || IsText(p.value, 32);
      var o := ApplyInstance(c, p);
      o.ok == taken && Remembers(o.ctx, a.(instance := if taken && p.Some? then p else a.instance))
  {
    hide StandsFor;
  }

  lemma ParamsRemembered(c: Ctx, a: Asked, params: Option<Params>, e: Env)
    requires Remembers(c, a)
    ensures Remembers(SetParams(c, params, e).ctx, TakeGiven(a, params, e))
  {
    hide Remembers, IsSalt, AsksPss, AsksPkcs1, ApplyDigest, ApplyPad, ApplySalt, ApplyContext, ApplyInstance;
    if params.Some? {
      var p := params.value;
      DigestRemembered(c, a, p, e);
      var o1 := ApplyDigest(c, p.digest, e);
      if o1.ok {
        var a1 := a.(digest :=
          if p.digest.None? then a.digest else if p.digest.value.text == "" then NONE else e.paramMd.value.digest);
        PadRemembered(o1.ctx, a1, p.pad);
        var o2, a2 := ApplyPad(o1.ctx, p.pad), a1.(pad := if p.pad.Some? then p.pad else a.pad);
        if o2.ok {
          SaltRemembered(o2.ctx, a2, p.salt);
          var o3, a3 := ApplySalt(o2.ctx, p.salt), a2.(salt := if p.salt.Some? then p.salt else a.salt);
          if o3.ok {
            ContextRemembered(o3.ctx, a3, p.context);
            var a4 := a3.(context := if p.context.Some? then p.context else a.context);
            if ApplyContext(o3.ctx, p.context).ok {
              InstanceRemembered(ApplyContext(o3.ctx, p.context).ctx, a4, p.instance);
            }
          }
        }
      }
    }
  }

  lemma BindRemembers(c: Ctx, a: Asked, key: Option<Key>, e: Env, lib: Lib)
    requires Remembers(c, a)
    ensures Remembers(BindKey(c, key, e, lib).ctx, a)
  {
    hide Reparse, StandsFor;
  }

  lemma InitRemembers(c: Ctx, a: Asked, key: Option<Key>, params: Option<Params>, e: Env, lib: Lib)
    requires Remembers(c, a)
    ensures Remembers(SignInit(c, key, params, e, lib).ctx,
                      if BindKey(c, key, e, lib).ok then TakeGiven(a, params, e) else a)
  {
    hide Remembers, BindKey, SetParams;
    BindRemembers(c, a, key, e, lib);
    ParamsRemembered(BindKey(c, key, e, lib).ctx, a, params, e);
  }

  lemma NamedRemembers(c: Ctx, a: Asked, name: string, e: Env)
    requires Remembers(c, a)
    ensures var n := Named(c, name, e);
      var b := if name != "" && e.nameMd.Some? && !e.nameMd.value.xof then a.(digest := e.nameMd.value.digest) else a;
      Remembers(n.ctx, b) && Remembers(StartDigest(n.ctx, e).ctx, b)
  {
    hide StandsFor;
  }

  lemma DigestNoneRemembers(c: Ctx, a: Asked)
    requires Remembers(c, a)
    ensures Remembers(c.(digest := NONE), a.(digest := NONE))
  {
    hide StandsFor;
  }

  /** Only the running digest changes. */
  lemma SigningRemembers(c: Ctx, a: Asked, op: Op, e: Env, lib: Lib)
    requires Remembers(c, a) && (op.SignOp? || op.UpdateOp? || op.FinalOp? || op.VerifyFinalOp? || op.OneshotSignOp?)
    ensures Remembers(Apply(c, op, e, lib).ctx, a)
  {
    var d := Apply(c, op, e, lib).ctx;
    OnlyRunningDigest(c, op, e, lib);
    hide Apply, StandsFor;
  }

  lemma OnlyRunningDigest(c: Ctx, op: Op, e: Env, lib: Lib)
    requires op.SignOp? || op.UpdateOp? || op.FinalOp? || op.VerifyFinalOp? || op.OneshotSignOp?
    ensures var d := Apply(c, op, e, lib).ctx; d == c.(mdctx := d.mdctx)
  {
    hide RequiredSize, Supported, SigningAlgorithm, UsesPss, SaltSatisfiable, MuOf;
  }

  lemma OpRemembers(c: Ctx, a: Asked, op: Op, e: Env, lib: Lib)
    requires Remembers(c, a)
    ensures Remembers(Apply(c, op, e, lib).ctx, NextAsked(a, c, op, e, lib))
  {
    hide Remembers, SignInit, BindKey, SetParams, TakeGiven, Named, StartDigest, Supported, SignDigest, OneshotSign;
    hide DigestFinal, DigestUpdate, VerifyFinal;
    match op
    case SetParamsOp(params) => ParamsRemembered(c, a, params, e);
    case SignInitOp(key, params) => InitRemembers(c, a, key, params, e, lib);
    case DigestInitOp(name, key, params) =>
      InitRemembers(c, a, key, params, e, lib);
      var b := if BindKey(c, key, e, lib).ok then TakeGiven(a, params, e) else a;
      NamedRemembers(SignInit(c, key, params, e, lib).ctx, b, name, e);
    case OneshotInitOp(name, key, params) =>
      InitRemembers(c, a, key, params, e, lib);
      var b := if BindKey(c, key, e, lib).ok then TakeGiven(a, params, e) else a;
      DigestNoneRemembers(SignInit(c, key, params, e, lib).ctx, b);
    case _ => SigningRemembers(c, a, op, e, lib);
  }

  lemma NewRemembers(fips: bool)
    ensures Remembers(NewCtx(fips), NOTHING_ASKED)
  {
  }

  lemma DupRemembers(c: Ctx, a: Asked)
    requires Remembers(c, a)
    ensures Remembers(Dup(c), a)
  {
    hide StandsFor;
  }

  lemma StepRemembers(asks: seq<Asked>, s: State, ev: Event, lib: Lib)
    requires AllRemember(s.ctxs, asks)
    ensures AllRemember(Step(s, ev, lib).ctxs, AskedStep(asks, s, ev, lib))
  {
    hide Remembers, Apply, NextAsked, NewCtx, Dup;
    match ev
    case New(fips) => NewRemembers(fips);
    case Duplicate(i, works) =>
      if i < |s.ctxs| {
        DupRemembers(s.ctxs[i], asks[i]);
      }
    case Run(i, op, e) =>
      if i < |s.ctxs| {
        OpRemembers(s.ctxs[i], asks[i], op, e, lib);
      }
  }

  lemma {:induction false} RunRemembers(asks: seq<Asked>, s: State, run: seq<Event>, lib: Lib)
    requires AllRemember(s.ctxs, asks)
    ensures AllRemember(After(s, run, lib).ctxs, AskedAfter(asks, s, run, lib))
    decreases |run|
  {
    hide Remembers, Step, AskedStep;
    if run != [] {
      StepRemembers(asks, s, run[0], lib);
      RunRemembers(AskedStep(asks, s, run[0], lib), Step(s, run[0], lib), run[1..], lib);
    }
  }

  // ---------------------------------------------------------------- what reaches KMS

  lemma PureExactly(text: string)
    ensures IsPureInstance(text) <==> InEitherCase(text, "Ed25519")
  {
  }

  lemma SupportedExactly(c: Ctx, a: Asked, spec: Spec)
    requires Remembers(c, a)
    ensures Supported(c, spec) <==> InstanceCanBe(a, spec) && (ContextAsked(a) == [] || spec.family.ML_DSA?)
  {
    hide StandsFor, IsPureInstance, InEitherCase;
    if c.instance.Some? {
      PureExactly(c.instance.value);
    }
  }

  lemma SaltExactly(c: Ctx, a: Asked, digestLength: nat)
    requires Remembers(c, a) && digestLength <= INT_MAX
    ensures SaltSatisfiable(c, digestLength) <==> SaltCanBe(a, digestLength)
  {
    if a.salt.Some? {
      var p := a.salt.value;
      SaltStandsForOne(p, c.saltLen);
      SaltStandsForOne(p, -1);
      SaltStandsForOne(p, -2);
      SaltStandsForOne(p, digestLength);
    }
  }

  /** What a request must be, by what was asked. */
  ghost predicate AsAsked(a: Asked, spec: Spec, r: Request) {
    && MeaningOf(r.algorithm)
         == Meaning(spec.family, spec.msgType, if spec.msgType.DIGEST? then a.digest else NONE,
                    spec.family.RSA? && PssAsked(a))
    && (spec.family.RSA? && PssAsked(a) ==> SaltCanBe(a, |r.message|))
    && InstanceCanBe(a, spec)
    && (ContextAsked(a) == [] || spec.family.ML_DSA?)
  }

  lemma ValidIsAsAsked(c: Ctx, a: Asked, r: Request)
    requires Remembers(c, a) && ValidRequest(c, r)
    ensures AsAsked(a, SpecOf(c).value, r)
  {
    hide Remembers, SaltKept, StandsFor, Supported, InstanceCanBe;
    RememberedPad(c, a);
    var spec := SpecOf(c).value;
    SupportedExactly(c, a, spec);
    SupportedParts(c, spec);
    if spec.family.RSA? && PssAsked(a) {
      assert |r.message| <= 64;
      SaltExactly(c, a, |r.message|);
    }
  }

  lemma RememberedPad(c: Ctx, a: Asked)
    requires Remembers(c, a)
    ensures (c.pad.PSS? <==> PssAsked(a)) && c.digest == a.digest && c.context == ContextAsked(a)
  {
  }

  lemma SupportedParts(c: Ctx, spec: Spec)
    ensures Supported(c, spec) <==> InstanceSupported(c, spec) && (c.context == [] || spec.family.ML_DSA?)
  {
  }

  /**
   * In every run: whatever a context asks of KMS next is what was asked of the context.  PSS goes out exactly
   * after RSA_PKCS1_PSS_PADDING or "pss", only with a salt length left open or equal to the digest length;
   * PKCS#1 otherwise; the digest is the one chosen last; another instance or a context string that KMS cannot
   * take makes no request at all.
   */
  lemma RequestsAreAsAsked(run: seq<Event>, i: nat, op: Op, e: Env, lib: Lib)
    requires ValidRun(State([], []), run, lib) && LibOk(lib) && i < |After(State([], []), run, lib).ctxs|
    requires OpOk(op, e)
    ensures var r := Apply(After(State([], []), run, lib).ctxs[i], op, e, lib);
      r.request.Some? ==>
        && SpecOf(r.ctx).Some?
        && AsAsked(AskedAfter([], State([], []), run, lib)[i], SpecOf(r.ctx).value, r.request.value)
  {
    RunKeepsInv(State([], []), run, lib);
    RunRemembers([], State([], []), run, lib);
    hide CtxOk, EntryOk, Apply, Remembers, Step, AskedStep, LibOk, OpOk, AsAsked, ValidRequest, NextAsked;
    var c, a := After(State([], []), run, lib).ctxs[i], AskedAfter([], State([], []), run, lib)[i];
    ApplyKeepsOk(c, op, e, lib);
    OpRemembers(c, a, op, e, lib);
    if Apply(c, op, e, lib).request.Some? {
      QuietAsksNothing(a, c, op, e, lib);
      ValidHasSpec(Apply(c, op, e, lib).ctx, Apply(c, op, e, lib).request.value);
      ValidIsAsAsked(Apply(c, op, e, lib).ctx, a, Apply(c, op, e, lib).request.value);
    }
  }

  lemma ValidHasSpec(c: Ctx, r: Request)
    requires ValidRequest(c, r)
    ensures SpecOf(c).Some?
  {
  }

  lemma QuietAsksNothing(a: Asked, c: Ctx, op: Op, e: Env, lib: Lib)
    requires Apply(c, op, e, lib).request.Some?
    ensures NextAsked(a, c, op, e, lib) == a
  {
    hide SetParams, SignInit, DigestInit, OneshotInit, SignDigest, DigestFinal, OneshotSign, VerifyFinal;
  }

  /** The buffer holds a signature, and KMS can sign the digest with the key as it was asked to. */
  ghost predicate SignsAsAsked(c: Ctx, a: Asked, out: Buffer, hashed: Bytes)
    requires SpecOf(c).Some?
  {
    var spec := SpecOf(c).value;
    && HoldsSignature(c, out) && CanSign(spec, a.digest) && |hashed| == DigestLength(a.digest)
    && (spec.family.RSA? && PssAsked(a) ==> SaltCanBe(a, |hashed|))
    && InstanceCanBe(a, spec) && (ContextAsked(a) == [] || spec.family.ML_DSA?)
  }

  /** And nothing KMS can do as asked is refused: exactly when signing a digest makes a request. */
  lemma SignsWhatIsAsked(run: seq<Event>, i: nat, out: Buffer, hashed: Bytes, e: Env, lib: Lib)
    requires ValidRun(State([], []), run, lib) && LibOk(lib) && i < |After(State([], []), run, lib).ctxs|
    requires SpecOf(After(State([], []), run, lib).ctxs[i]).Some?
    ensures var c, a := After(State([], []), run, lib).ctxs[i], AskedAfter([], State([], []), run, lib)[i];
      Apply(c, SignOp(out, hashed), e, lib).request.Some? <==> SignsAsAsked(c, a, out, hashed)
  {
    hide CtxOk, EntryOk, Remembers, Step, AskedStep, LibOk, Apply, SignsAsAsked;
    RunKeepsInv(State([], []), run, lib);
    RunRemembers([], State([], []), run, lib);
    SignsByContext(After(State([], []), run, lib).ctxs[i], AskedAfter([], State([], []), run, lib)[i], out, hashed, e,
                   lib);
  }

  lemma SignsByContext(c: Ctx, a: Asked, out: Buffer, hashed: Bytes, e: Env, lib: Lib)
    requires CtxOk(c, lib) && Remembers(c, a) && SpecOf(c).Some?
    ensures Apply(c, SignOp(out, hashed), e, lib).request.Some? <==> SignsAsAsked(c, a, out, hashed)
  {
    hide Remembers, SignDigest, CanSign, HoldsSignature, InstanceCanBe;
    hide DigestOk, MdCtxOk, FipsPubOk, Known, SaltCanBe, SaltSatisfiable, Supported;
    var spec := SpecOf(c).value;
    SignsExactly(c, out, hashed, e);
    RememberedPad(c, a);
    SupportedExactly(c, a, spec);
    SaltExactly(c, a, DigestLength(c.digest));
  }
}
