/**
 * What each operation on a signature context means (src/signature.c): the new context, whether it
 * succeeds, and the KMS request it makes, if any.  `SignatureContext` proves the code against this.
 */
module Signature {
  import opened Bytes
  import opened KeySpec
  import opened PublicKey

  // ---------------------------------------------------------------- state

  /** A key as signature operations see it: once it is published only its policy can change, to a stricter one. */
  datatype Key = Key(keyId: Option<string>, pub: Pub, fips: bool)

  /** A fetched digest. */
  datatype Md = Md(name: string, digest: Digest, size: nat, xof: bool)

  /** A digest context: just allocated, taking data, or finalised.  A finalised one refuses everything. */
  datatype MdCtx = Unready | Hashing(md: Md, data: Bytes) | Finished(md: Md, data: Bytes)

  datatype PadMode = PKCS1 | PSS

  const SALT_DIGEST := -1
  const SALT_AUTO := -2
  const SALT_MAX := -3

  const MAX_CONTEXT := 255
  const MAX_MESSAGE := 4096

  datatype Ctx = Ctx(
    key: Option<Key>, fips: bool, fipsPub: Pub, digest: Digest, md: Option<Md>, mdctx: Option<MdCtx>, pad: PadMode,
    saltLen: int, context: Bytes, instance: Option<string>)

  /** The hash functions, and SHAKE256 with 64 bytes of output. */
  datatype Lib = Lib(hash: (Md, Bytes) -> Bytes, shake: Shake)

  /** What libcrypto and KMS answer to the calls of one operation, as far as they are made. */
  datatype Env = Env(
    upRef: bool, spki: Answers, paramMd: Option<Md>, nameMd: Option<Md>, mgf1Is: bool, allocates: bool,
    digestInits: bool, digestUpdates: bool, digestFinals: bool, muWorks: bool, signature: Option<nat>)

  function NewCtx(fips: bool): Ctx {
    Ctx(None, fips, EMPTY, NONE, None, None, PKCS1, SALT_DIGEST, [], None)
  }

  // ---------------------------------------------------------------- FIPS policy and public view

  predicate RequiresFips(c: Ctx) {
    c.fips || (c.key.Some? && c.key.value.fips)
  }

  predicate NeedsReparse(c: Ctx, key: Key) {
    c.fips && !key.fips
  }

  function OperationPub(c: Ctx): Option<Pub> {
    if c.key.None? then None
    else if NeedsReparse(c, c.key.value) then if c.fipsPub.pkey.Some? then Some(c.fipsPub) else None
    else Some(c.key.value.pub)
  }

  /** The key requires FIPS, but its public view was not parsed under it. */
  predicate Stale(key: Key) {
    key.fips && key.pub.pkey.Some? && !key.pub.pkey.value.fips
  }

  /** The retained SPKI, parsed again under FIPS. */
  function Reparse(key: Key, o: Answers, lib: Lib): Option<Pub> {
    if key.pub.spec.None? || key.pub.der == [] then None
    else if Accepts(key.pub.spec.value, key.pub.der, o) then
      Some(Parsed(key.pub.spec.value, key.pub.der, true, o.decoded.value, lib.shake))
    else None
  }

  datatype Outcome = Outcome(ctx: Ctx, ok: bool)

  /** A failure leaves the context as it is; no key means the current one. */
  function BindKey(c: Ctx, key: Option<Key>, e: Env, lib: Lib): Outcome {
    match key
    case None => Outcome(c, c.key.Some?)
    case Some(k) =>
      if !e.upRef then Outcome(c, false)
      else if NeedsReparse(c, k) then
        match Reparse(k, e.spki, lib)
        case None => Outcome(c, false)
        case Some(pub) => Outcome(c.(key := key, fipsPub := pub), true)
      else Outcome(c.(key := key, fipsPub := EMPTY), true)
  }

  // ---------------------------------------------------------------- parameters

  /** An OSSL_PARAM by its type; Unreadable stands for one its getter refuses. */
  datatype Param = Utf8(text: string) | Integer(value: int) | Octets(data: Bytes) | Unreadable

  datatype Params = Params(
    digest: Option<Param>, pad: Option<Param>, salt: Option<Param>, context: Option<Param>, instance: Option<Param>,
    mgf1: Option<Param>)

  const INT_MIN := -0x8000_0000
  const INT_MAX := 0x7fff_ffff

  function GetUtf8(p: Param, size: nat): Option<string> {
    if p.Utf8? && |p.text| < size && '\0' !in p.text then Some(p.text) else None
  }

  function GetInt(p: Param): Option<int> {
    if p.Integer? && INT_MIN <= p.value <= INT_MAX then Some(p.value) else None
  }

  predicate AllDigits(s: string) {
    forall i :: 0 <= i < |s| ==> '0' <= s[i] <= '9'
  }

  function Magnitude(s: string): nat
    requires AllDigits(s)
  {
    if s == "" then 0 else 10 * Magnitude(s[..|s| - 1]) + (s[|s| - 1] as int - '0' as int)
  }

  function Unsigned(s: string): string {
    if s != "" && (s[0] == '+' || s[0] == '-') then s[1..] else s
  }

  /** A decimal integer with an optional sign, if it fits an `int`. */
  function ParseDecimal(s: string): Option<int> {
    var digits := Unsigned(s);
    if digits == "" || !AllDigits(digits) then None
    else
      var value: int := if s[0] == '-' then 0 - Magnitude(digits) else Magnitude(digits);
      if INT_MIN <= value <= INT_MAX then Some(value) else None
  }

  function SetDigest(c: Ctx, name: string, fetched: Option<Md>): Outcome {
    if name == "" then Outcome(c.(md := None, digest := NONE), true)
    else match fetched
      case None => Outcome(c, false)
      case Some(md) =>
        if md.xof then Outcome(c, false) else Outcome(c.(md := fetched, digest := md.digest), true)
  }

  function ApplyDigest(c: Ctx, p: Option<Param>, e: Env): Outcome {
    if p.None? then Outcome(c, true)
    else match GetUtf8(p.value, 64)
      case None => Outcome(c, false)
      case Some(name) => SetDigest(c, name, e.paramMd)
  }

  function PadOf(p: Param): Option<PadMode> {
    match p
    case Integer(_) => (
      match GetInt(p)
      case Some(v) => if v == 1 then Some(PKCS1) else if v == 6 then Some(PSS) else None
      case None => None)
    case Utf8(_) => (
      match GetUtf8(p, 32)
      case Some(t) => if t == "pkcs1" then Some(PKCS1) else if t == "pss" then Some(PSS) else None
      case None => None)
    case _ => None
  }

  function ApplyPad(c: Ctx, p: Option<Param>): Outcome {
    if p.None? then Outcome(c, true)
    else match PadOf(p.value)
      case None => Outcome(c, false)
      case Some(pad) => Outcome(c.(pad := pad), true)
  }

  function SaltOf(p: Param): Option<int> {
    match p
    case Integer(_) => GetInt(p)
    case Utf8(_) => (
      match GetUtf8(p, 32)
      case Some(t) =>
        if t == "digest" then Some(SALT_DIGEST)
        else if t == "auto" then Some(SALT_AUTO)
        else if t == "max" then Some(SALT_MAX)
        else ParseDecimal(t)
      case None => None)
    case _ => None
  }

  function ApplySalt(c: Ctx, p: Option<Param>): Outcome {
    if p.None? then Outcome(c, true)
    else match SaltOf(p.value)
      case None => Outcome(c, false)
      case Some(n) => Outcome(c.(saltLen := n), true)
  }

  function ApplyContext(c: Ctx, p: Option<Param>): Outcome {
    if p.None? then Outcome(c, true)
    else if !p.value.Octets? || |p.value.data| > MAX_CONTEXT then Outcome(c, false)
    else Outcome(c.(context := p.value.data), true)
  }

  function ApplyInstance(c: Ctx, p: Option<Param>): Outcome {
    if p.None? then Outcome(c, true)
    else match GetUtf8(p.value, 32)
      case None => Outcome(c, false)
      case Some(t) => Outcome(c.(instance := Some(t)), true)
  }

  function CheckMgf1(c: Ctx, p: Option<Param>, e: Env): Outcome {
    Outcome(c, p.None? || (GetUtf8(p.value, 64).Some? && c.md.Some? && e.mgf1Is))
  }

  /** In this order; the first failure stops, and what was applied before it stays. */
  function SetParams(c: Ctx, params: Option<Params>, e: Env): Outcome {
    if params.None? then Outcome(c, true)
    else
      var p := params.value;
      var o1 := ApplyDigest(c, p.digest, e);
      if !o1.ok then o1
      else
        var o2 := ApplyPad(o1.ctx, p.pad);
        if !o2.ok then o2
        else
          var o3 := ApplySalt(o2.ctx, p.salt);
          if !o3.ok then o3
          else
            var o4 := ApplyContext(o3.ctx, p.context);
            if !o4.ok then o4
            else
              var o5 := ApplyInstance(o4.ctx, p.instance);
              if !o5.ok then o5 else CheckMgf1(o5.ctx, p.mgf1, e)
  }

  // ---------------------------------------------------------------- initialisation

  function SignInit(c: Ctx, key: Option<Key>, params: Option<Params>, e: Env, lib: Lib): Outcome {
    var o := BindKey(c, key, e, lib);
    if !o.ok then o else SetParams(o.ctx, params, e)
  }

  /** No name and an empty name are the same. */
  function Named(c: Ctx, name: string, e: Env): Outcome {
    if name == "" then Outcome(c, true) else SetDigest(c, name, e.nameMd)
  }

  function StartDigest(c: Ctx, e: Env): Outcome {
    if c.md.None? then Outcome(c, false)
    else if !e.allocates then Outcome(c.(mdctx := None), false)
    else if !e.digestInits then Outcome(c.(mdctx := Some(Unready)), false)
    else Outcome(c.(mdctx := Some(Hashing(c.md.value, []))), true)
  }

  function DigestInit(c: Ctx, name: string, key: Option<Key>, params: Option<Params>, e: Env, lib: Lib): Outcome {
    var o := SignInit(c, key, params, e, lib);
    if !o.ok then o
    else
      var n := Named(o.ctx, name, e);
      if !n.ok then n else StartDigest(n.ctx, e)
  }

  function Lower(c: char): char {
    if 'A' <= c <= 'Z' then ((c as int) + 32) as char else c
  }

  /** "Ed25519", letters in either case. */
  predicate IsPureInstance(s: string) {
    && |s| == 7 && Lower(s[0]) == 'e' && Lower(s[1]) == 'd'
    && s[2] == '2' && s[3] == '5' && s[4] == '5' && s[5] == '1' && s[6] == '9'
  }

  predicate InstanceSupported(c: Ctx, spec: Spec) {
    c.instance.None? || c.instance.value == "" || (spec.family.ED25519? && IsPureInstance(c.instance.value))
  }

  /** An instance must be the pure one, a context only goes with ML-DSA. */
  predicate Supported(c: Ctx, spec: Spec) {
    InstanceSupported(c, spec) && (c.context == [] || spec.family.ML_DSA?)
  }

  function OneshotInit(c: Ctx, name: string, key: Option<Key>, params: Option<Params>, e: Env, lib: Lib): Outcome {
    var o := SignInit(c, key, params, e, lib);
    if !o.ok then o
    else if name != "" then Outcome(o.ctx, false)
    else
      var n := o.ctx.(digest := NONE);
      Outcome(n, n.key.Some? && n.key.value.pub.spec.Some? && Supported(n, n.key.value.pub.spec.value))
  }

  // ---------------------------------------------------------------- signing

  datatype Request = Request(
    keyId: Option<string>, algorithm: Algorithm, msgType: MsgType, message: Bytes, reserved: nat, fips: bool)

  /** The output buffer: `sig` may be NULL, and so may `siglen`. */
  datatype Buffer = Buffer(present: bool, hasLength: bool, size: nat)

  /** `length` is what is written to `*siglen`, if anything is. */
  datatype Signed = Signed(ctx: Ctx, ok: bool, length: Option<nat>, request: Option<Request>)

  function Refused(c: Ctx): Signed {
    Signed(c, false, None, None)
  }

  function SpecOf(c: Ctx): Option<Spec> {
    if c.key.None? then None else c.key.value.pub.spec
  }

  function MaxSigSize(c: Ctx): nat {
    match OperationPub(c)
    case None => 0
    case Some(p) => if p.pkey.Some? && p.pkey.value.size > 0 then p.pkey.value.size else 0
  }

  function RequiredSize(c: Ctx): nat {
    match SpecOf(c)
    case None => 0
    case Some(spec) => if spec.signatureLength != 0 then spec.signatureLength else MaxSigSize(c)
  }

  /** The answers that need no signature: to a size probe, and to a buffer that is too small. */
  function SizeOnly(c: Ctx, out: Buffer): Option<Signed> {
    var required := RequiredSize(c);
    if !out.present then
      Some(if out.hasLength then Signed(c, required != 0, Some(required), None) else Refused(c))
    else if !out.hasLength || required == 0 then Some(Refused(c))
    else if out.size < required then Some(Signed(c, false, Some(required), None))
    else None
  }

  /** The call of KMS: its signature must fit the buffer. */
  function KmsSign(c: Ctx, algorithm: Algorithm, msgType: MsgType, message: Bytes, out: Buffer, e: Env): Signed {
    var keyId := if c.key.Some? then c.key.value.keyId else None;
    var request := Request(keyId, algorithm, msgType, message, out.size, RequiresFips(c));
    match e.signature
    case None => Signed(c, false, None, Some(request))
    case Some(n) =>
      if n > out.size then Signed(c, false, None, Some(request)) else Signed(c, true, Some(n), Some(request))
  }

  predicate SaltSatisfiable(c: Ctx, digestLength: nat) {
    c.saltLen == SALT_DIGEST || c.saltLen == SALT_AUTO || (c.saltLen >= 0 && c.saltLen == digestLength)
  }

  predicate UsesPss(c: Ctx, spec: Spec) {
    spec.family.RSA? && c.pad.PSS?
  }

  function SignDigest(c: Ctx, out: Buffer, digest: Bytes, e: Env): Signed {
    match SpecOf(c)
    case None => Refused(c)
    case Some(spec) =>
      var algorithm := SigningAlgorithm(spec, c.digest, UsesPss(c, spec));
      if SizeOnly(c, out).Some? then SizeOnly(c, out).value
      else if c.digest.NONE? || !Supported(c, spec) || algorithm.None? then Refused(c)
      else if |digest| != DigestLength(c.digest) then Refused(c)
      else if UsesPss(c, spec) && !SaltSatisfiable(c, |digest|) then Refused(c)
      else KmsSign(c, algorithm.value, DIGEST, digest, out, e)
  }

  function DigestUpdate(c: Ctx, data: Bytes, e: Env): Outcome {
    if c.mdctx.None? || !c.mdctx.value.Hashing? || !e.digestUpdates then Outcome(c, false)
    else Outcome(c.(mdctx := Some(Hashing(c.mdctx.value.md, c.mdctx.value.data + data))), true)
  }

  function Finish(c: Ctx): Ctx
    requires c.mdctx.Some? && c.mdctx.value.Hashing?
  {
    c.(mdctx := Some(Finished(c.mdctx.value.md, c.mdctx.value.data)))
  }

  predicate CanFinish(c: Ctx, e: Env) {
    c.mdctx.Some? && c.mdctx.value.Hashing? && e.digestFinals
  }

  /** A probe or a short buffer is answered before the digest is finalised. */
  function DigestFinal(c: Ctx, out: Buffer, e: Env, lib: Lib): Signed {
    if c.mdctx.None? || c.key.None? then Refused(c)
    else if SizeOnly(c, out).Some? then SizeOnly(c, out).value
    else if !CanFinish(c, e) then Refused(c)
    else SignDigest(Finish(c), out, lib.hash(c.mdctx.value.md, c.mdctx.value.data), e)
  }

  function VerifyFinal(c: Ctx, e: Env): Ctx {
    if CanFinish(c, e) then Finish(c) else c
  }

  function MuOf(c: Ctx, msg: Bytes, e: Env, lib: Lib): Option<Bytes> {
    match OperationPub(c)
    case None => None
    case Some(pub) =>
      if pub.tr.None? || |c.context| > MAX_CONTEXT || !e.muWorks then None
      else Some(lib.shake(Framed(pub.tr.value, c.context, msg)))
  }

  /** The message itself, or its representative. */
  function SendOneshot(c: Ctx, spec: Spec, algorithm: Algorithm, out: Buffer, msg: Bytes, e: Env, lib: Lib): Signed {
    match spec.msgType
    case RAW =>
      if |msg| == 0 || |msg| > MAX_MESSAGE then Refused(c) else KmsSign(c, algorithm, RAW, msg, out, e)
    case EXTERNAL_MU => (
      match MuOf(c, msg, e, lib)
      case None => Refused(c)
      case Some(mu) => KmsSign(c, algorithm, EXTERNAL_MU, mu, out, e))
    case DIGEST => Refused(c)
  }

  function OneshotSign(c: Ctx, out: Buffer, msg: Bytes, e: Env, lib: Lib): Signed {
    match SpecOf(c)
    case None => Refused(c)
    case Some(spec) =>
      var algorithm := SigningAlgorithm(spec, NONE, false);
      if SizeOnly(c, out).Some? then SizeOnly(c, out).value
      else if !Supported(c, spec) || algorithm.None? then Refused(c)
      else SendOneshot(c, spec, algorithm.value, out, msg, e, lib)
  }

  // ---------------------------------------------------------------- duplicates

  /** A copy of everything, the running digest included; the public view is only copied if there is one. */
  function Dup(c: Ctx): Ctx {
    if c.fipsPub.pkey.Some? then c else c.(fipsPub := EMPTY)
  }
}
