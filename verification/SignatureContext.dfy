/**
 * The shared key object and the signature context as the code runs them (src/key.c, src/signature.c):
 * fields updated in place, references counted, every operation proved against its meaning in `Signature`.
 * The atomic addition of `awskms_key_free` is taken to succeed.
 */
module SignatureContext {
  import opened Bytes
  import opened KeySpec
  import opened PublicKey
  import opened Signature

  // ---------------------------------------------------------------- the key

  class AwskmsKey {
    var keyId: Option<string>
    var pub: Pub
    var fipsRequired: bool
    var refcnt: int

    /** Empty, with one reference, held by the caller. */
    constructor ()
      ensures refcnt == 1 && View() == Key(None, EMPTY, false)
    {
      keyId, pub, fipsRequired, refcnt := None, EMPTY, false, 1;
    }

    function View(): Key
      reads `keyId, `pub, `fipsRequired
    {
      Key(keyId, pub, fipsRequired)
    }

    method UpRef(works: bool) returns (ok: bool)
      requires refcnt > 0
      modifies `refcnt
      ensures ok == works && refcnt == old(refcnt) + (if ok then 1 else 0)
    {
      if works {
        refcnt := refcnt + 1;
      }
      return works;
    }

    /** The last reference takes the contents with it; any other leaves them alone. */
    method Free()
      requires refcnt > 0
      modifies this
      ensures refcnt == old(refcnt) - 1
      ensures View() == if refcnt == 0 then Key(None, EMPTY, false) else old(View())
    {
      refcnt := refcnt - 1;
      if refcnt > 0 {
        return;
      }
      pub := EMPTY;
      keyId := None;
      fipsRequired := false;
    }
  }

  // ---------------------------------------------------------------- KMS

  /** What was asked of KMS so far. */
  class Kms {
    var log: seq<Request>

    constructor ()
      ensures log == []
    {
      log := [];
    }

    /** One request; the answer is the length of the signature, if there is one. */
    method Sign(request: Request, answer: Option<nat>, size: nat) returns (ok: bool, length: Option<nat>)
      modifies this
      ensures log == old(log) + [request]
      ensures ok == (answer.Some? && answer.value <= size) && length == if ok then answer else None
    {
      log := log + [request];
      if answer.None? || answer.value > size {
        return false, None;
      }
      return true, answer;
    }
  }

  function Logged(request: Option<Request>): seq<Request> {
    if request.Some? then [request.value] else []
  }

  // ---------------------------------------------------------------- salt lengths

  lemma MagnitudeStep(s: string, i: nat)
    requires i < |s| && AllDigits(s)
    ensures Magnitude(s[..i + 1]) == 10 * Magnitude(s[..i]) + (s[i] as int - '0' as int)
  {
    assert s[..i + 1][..i] == s[..i];
  }

  /** Rejects what `strtol` would take beyond the digits, and what does not fit an `int`. */
  method ParseDecimalInt(text: string) returns (value: Option<int>)
    ensures value == ParseDecimal(text)
  {
    var p := 0;
    if text != "" && (text[0] == '+' || text[0] == '-') {
      p := 1;
    }
    ghost var digits := Unsigned(text);
    assert digits == text[p..];
    if p == |text| {
      return None;
    }
    for i := p to |text|
      invariant forall k :: p <= k < i ==> '0' <= text[k] <= '9'
    {
      if text[i] < '0' || '9' < text[i] {
        assert digits[i - p] == text[i];
        return None;
      }
    }
    var parsed: nat := 0;
    assert AllDigits(digits);
    for i := p to |text|
      invariant parsed == Magnitude(digits[..i - p])
    {
      MagnitudeStep(digits, i - p);
      parsed := 10 * parsed + (text[i] as int - '0' as int);
    }
    assert digits[..|text| - p] == digits;
    var signed: int := if text[0] == '-' then 0 - parsed else parsed;
    if signed < INT_MIN || INT_MAX < signed {
      return None;
    }
    return Some(signed);
  }

  // ---------------------------------------------------------------- the signature context

  class SigCtx {
    var key: AwskmsKey?
    var fips: bool
    var fipsPub: Pub
    var digest: Digest
    var md: Option<Md>
    var mdctx: Option<MdCtx>
    var pad: PadMode
    var saltLen: int
    var context: Bytes
    var instance: Option<string>

    constructor (fipsRequested: bool)
      ensures key == null && Value() == NewCtx(fipsRequested)
    {
      key := null;
      fips, fipsPub := fipsRequested, EMPTY;
      digest, md, mdctx := NONE, None, None;
      pad, saltLen := PKCS1, SALT_DIGEST;
      context, instance := [], None;
    }

    function Value(): Ctx
      reads this, key
    {
      Ctx(if key == null then None else Some(key.View()), fips, fipsPub, digest, md, mdctx, pad, saltLen, context,
          instance)
    }

    /** Its key, if it has one, is alive. */
    predicate Valid()
      reads this, key
    {
      key != null ==> key.refcnt > 0
    }

    /**
     * The context held `was` and now holds `provkey` if the binding went well: each gains or loses the one
     * reference it should, and a key whose count is still positive keeps its contents.
     */
    twostate predicate Moved(was: AwskmsKey?, provkey: AwskmsKey?, bound: bool)
      reads this, was, provkey
    {
      && key == (if bound && provkey != null then provkey else was)
      && (provkey != null ==>
            && provkey.View() == old(provkey.View())
            && provkey.refcnt == old(provkey.refcnt) + (if bound && was != provkey then 1 else 0))
      && (was != null && was != provkey ==>
            && was.refcnt == old(was.refcnt) - (if bound && provkey != null then 1 else 0)
            && (was.refcnt > 0 ==> was.View() == old(was.View())))
    }

    /**
     * Takes a reference to the new key before it gives up the old one, so binding the key already bound
     * never drops it; a failure changes nothing at all.
     */
    method Bind(provkey: AwskmsKey?, e: Env, lib: Lib) returns (ok: bool)
      requires Valid() && (provkey != null ==> provkey.refcnt > 0)
      requires provkey != null && NeedsReparse(Value(), provkey.View()) ==>
        provkey.pub.spec.Some? && Known(provkey.pub.spec.value)
      modifies `key, `fipsPub, key, provkey
      ensures var o := BindKey(old(Value()), if provkey == null then None else Some(old(provkey.View())), e, lib);
        ok == o.ok && Value() == o.ctx
      ensures Moved(old(key), provkey, ok)
      ensures Valid()
    {
      hide Reparse, Known, EMPTY;
      if provkey == null {
        return key != null;
      }
      var retained := provkey.UpRef(e.upRef);
      if !retained {
        return false;
      }
      var view := OwnView(provkey, e, lib);
      if view.None? {
        provkey.Free();
        return false;
      }
      if key != null {
        key.Free();
      }
      key := provkey;
      fipsPub := view.value;
      return true;
    }

    /** The context's own view of a key: parsed again if its policy is stricter, else none; None if that fails. */
    method OwnView(provkey: AwskmsKey, e: Env, lib: Lib) returns (view: Option<Pub>)
      requires NeedsReparse(Value(), provkey.View()) ==> provkey.pub.spec.Some? && Known(provkey.pub.spec.value)
      ensures view ==
        if NeedsReparse(Value(), provkey.View()) then Reparse(provkey.View(), e.spki, lib) else Some(EMPTY)
    {
      hide Reparse, Known;
      if fips && !provkey.fipsRequired {
        if provkey.pub.der == [] {
          NothingToReparse(provkey.View(), e, lib);
          return None;
        }
        var parsed := new PublicView();
        var works := ParseAgain(parsed, provkey, e, lib);
        return if works then Some(parsed.Contents()) else None;
      }
      return Some(EMPTY);
    }

    /** `awskms_pubkey_from_spki` on the retained DER, under FIPS. */
    static method ParseAgain(parsed: PublicView, provkey: AwskmsKey, e: Env, lib: Lib) returns (works: bool)
      requires parsed.Contents() == EMPTY && provkey.pub.der != []
      requires provkey.pub.spec.Some? && Known(provkey.pub.spec.value)
      modifies parsed
      ensures works == Reparse(provkey.View(), e.spki, lib).Some?
      ensures works ==> parsed.Contents() == Reparse(provkey.View(), e.spki, lib).value
    {
      hide Accepts, Parsed;
      var spec := provkey.pub.spec.value;
      forall s | Known(s) && Some(spec.name) == Some(s.name)
        ensures s == spec
      {
        NamesAreDistinct(s, spec);
      }
      works := parsed.FromSpki(provkey.pub.der, Some(spec.name), true, e.spki, lib.shake);
    }

    // -------------------------------------------------------------- parameters

    method SelectDigest(name: string, fetched: Option<Md>) returns (ok: bool)
      modifies `md, `digest
      ensures var o := SetDigest(old(Value()), name, fetched); ok == o.ok && Value() == o.ctx
    {
      if name == "" {
        md := None;
        digest := NONE;
        return true;
      }
      if fetched.None? {
        return false;
      }
      if fetched.value.xof {
        return false;
      }
      md := fetched;
      digest := fetched.value.digest;
      return true;
    }

    method SetPad(p: Param) returns (ok: bool)
      modifies `pad
      ensures var o := ApplyPad(old(Value()), Some(p)); ok == o.ok && Value() == o.ctx
    {
      var mode := 0;
      match p {
        case Integer(_) =>
          var v := GetInt(p);
          if v.None? {
            return false;
          }
          mode := v.value;
        case Utf8(_) =>
          var t := GetUtf8(p, 32);
          if t.None? {
            return false;
          }
          mode := if t.value == "pkcs1" then 1 else if t.value == "pss" then 6 else -1;
        case _ =>
          return false;
      }
      if mode != 1 && mode != 6 {
        return false;
      }
      pad := if mode == 1 then PKCS1 else PSS;
      return true;
    }

    method SetSalt(p: Param) returns (ok: bool)
      modifies `saltLen
      ensures var o := ApplySalt(old(Value()), Some(p)); ok == o.ok && Value() == o.ctx
    {
      hide ParseDecimal;
      match p {
        case Integer(_) =>
          var v := GetInt(p);
          if v.None? {
            return false;
          }
          saltLen := v.value;
        case Utf8(_) =>
          var t := GetUtf8(p, 32);
          if t.None? {
            return false;
          }
          if t.value == "digest" {
            saltLen := SALT_DIGEST;
          } else if t.value == "auto" {
            saltLen := SALT_AUTO;
          } else if t.value == "max" {
            saltLen := SALT_MAX;
          } else {
            var n := ParseDecimalInt(t.value);
            if n.None? {
              return false;
            }
            saltLen := n.value;
          }
        case _ =>
          return false;
      }
      return true;
    }

    method SetContextString(p: Param) returns (ok: bool)
      modifies `context
      ensures var o := ApplyContext(old(Value()), Some(p)); ok == o.ok && Value() == o.ctx
    {
      if !p.Octets? {
        return false;
      }
      if |p.data| > MAX_CONTEXT {
        return false;
      }
      context := p.data;
      return true;
    }

    method SetInstance(p: Param) returns (ok: bool)
      modifies `instance
      ensures var o := ApplyInstance(old(Value()), Some(p)); ok == o.ok && Value() == o.ctx
    {
      var t := GetUtf8(p, 32);
      if t.None? {
        return false;
      }
      instance := t;
      return true;
    }

    /** One parameter after the other; a failure leaves the ones before it applied. */
    method SetCtxParams(params: Option<Params>, e: Env) returns (ok: bool)
      modifies `md, `digest, `pad, `saltLen, `context, `instance
      ensures var o := SetParams(old(Value()), params, e); ok == o.ok && Value() == o.ctx
    {
      hide SetDigest, GetUtf8, ApplyPad, ApplySalt, ApplyContext, ApplyInstance, Value;
      NoParam(Value());
      if params.None? {
        return true;
      }
      var p := params.value;
      ok := SetDigestParam(p.digest, e);
      if !ok {
        return;
      }
      NoParam(Value());
      if p.pad.Some? {
        ok := SetPad(p.pad.value);
        if !ok {
          return;
        }
      }
      NoParam(Value());
      if p.salt.Some? {
        ok := SetSalt(p.salt.value);
        if !ok {
          return;
        }
      }
      NoParam(Value());
      if p.context.Some? {
        ok := SetContextString(p.context.value);
        if !ok {
          return;
        }
      }
      NoParam(Value());
      if p.instance.Some? {
        ok := SetInstance(p.instance.value);
        if !ok {
          return;
        }
      }
      ok := CheckMgf1Param(p.mgf1, e);
    }

    method SetDigestParam(p: Option<Param>, e: Env) returns (ok: bool)
      modifies `md, `digest
      ensures var o := ApplyDigest(old(Value()), p, e); ok == o.ok && Value() == o.ctx
    {
      hide SetDigest, GetUtf8, Value;
      if p.None? {
        return true;
      }
      var name := GetUtf8(p.value, 64);
      if name.None? {
        return false;
      }
      ok := SelectDigest(name.value, e.paramMd);
    }

    method CheckMgf1Param(p: Option<Param>, e: Env) returns (ok: bool)
      ensures CheckMgf1(Value(), p, e) == Outcome(Value(), ok)
    {
      if p.Some? {
        if GetUtf8(p.value, 64).None? {
          return false;
        }
        if md.None? || !e.mgf1Is {
          return false;
        }
      }
      return true;
    }

    // -------------------------------------------------------------- initialisation

    /** What the operations that bind a key demand. */
    ghost predicate Bindable(provkey: AwskmsKey?)
      reads this, key, provkey
    {
      && Valid() && (provkey != null ==> provkey.refcnt > 0)
      && (provkey != null && NeedsReparse(Value(), provkey.View()) ==>
            provkey.pub.spec.Some? && Known(provkey.pub.spec.value))
    }

    method InitSign(provkey: AwskmsKey?, params: Option<Params>, e: Env, lib: Lib) returns (ok: bool)
      requires Bindable(provkey)
      modifies this, key, provkey
      ensures Valid()
      ensures
        var bound := if provkey == null then None else Some(old(provkey.View()));
        var o := SignInit(old(Value()), bound, params, e, lib);
        ok == o.ok && Value() == o.ctx && Moved(old(key), provkey, BindKey(old(Value()), bound, e, lib).ok)
    {
      hide BindKey, SetParams, Value;
      ok := Bind(provkey, e, lib);
      if !ok {
        return;
      }
      ok := SetCtxParams(params, e);
    }

    method InitDigestSign(name: string, provkey: AwskmsKey?, params: Option<Params>, e: Env, lib: Lib)
      returns (ok: bool)
      requires Bindable(provkey)
      modifies this, key, provkey
      ensures Valid()
      ensures
        var bound := if provkey == null then None else Some(old(provkey.View()));
        var o := DigestInit(old(Value()), name, bound, params, e, lib);
        ok == o.ok && Value() == o.ctx && Moved(old(key), provkey, BindKey(old(Value()), bound, e, lib).ok)
    {
      hide SignInit, SetDigest, StartDigest, Value, BindKey;
      ok := InitSign(provkey, params, e, lib);
      if !ok {
        return;
      }
      if name != "" {
        ok := SelectDigest(name, e.nameMd);
        if !ok {
          return;
        }
      }
      ok := StartHashing(e);
    }

    method StartHashing(e: Env) returns (ok: bool)
      modifies `mdctx
      ensures var o := StartDigest(old(Value()), e); ok == o.ok && Value() == o.ctx
    {
      if md.None? {
        return false;
      }
      mdctx := None;
      if !e.allocates {
        return false;
      }
      mdctx := Some(Unready);
      if !e.digestInits {
        return false;
      }
      mdctx := Some(Hashing(md.value, []));
      return true;
    }

    method InitOneshot(name: string, provkey: AwskmsKey?, params: Option<Params>, e: Env, lib: Lib) returns (ok: bool)
      requires Bindable(provkey)
      modifies this, key, provkey
      ensures Valid()
      ensures
        var bound := if provkey == null then None else Some(old(provkey.View()));
        var o := OneshotInit(old(Value()), name, bound, params, e, lib);
        ok == o.ok && Value() == o.ctx && Moved(old(key), provkey, BindKey(old(Value()), bound, e, lib).ok)
    {
      hide SignInit, Supported, BindKey;
      ok := InitSign(provkey, params, e, lib);
      if !ok {
        return;
      }
      if name != "" {
        return false;
      }
      digest := NONE;
      ok := key != null && key.pub.spec.Some? && Supported(Value(), key.pub.spec.value);
    }

    // -------------------------------------------------------------- signing

    /** The size probe, and the check of the buffer; None if signing may go on. */
    method CheckSize(out: Buffer) returns (answer: Option<(bool, Option<nat>)>)
      ensures match SizeOnly(Value(), out)
        case None => answer.None?
        case Some(s) => answer == Some((s.ok, s.length)) && s.request.None? && s.ctx == Value()
    {
      hide RequiredSize;
      var required := RequiredSize(Value());
      if !out.present {
        if !out.hasLength {
          return Some((false, None));
        }
        return Some((required != 0, Some(required)));
      }
      if !out.hasLength || required == 0 {
        return Some((false, None));
      }
      if out.size >= required {
        return None;
      }
      return Some((false, Some(required)));
    }

    method Request(kms: Kms, algorithm: Algorithm, msgType: MsgType, message: Bytes, out: Buffer, e: Env)
      returns (ok: bool, length: Option<nat>)
      modifies kms
      ensures var s := KmsSign(Value(), algorithm, msgType, message, out, e);
        ok == s.ok && length == s.length && s.ctx == Value() && kms.log == old(kms.log) + Logged(s.request)
    {
      var keyId := if key == null then None else key.keyId;
      ok, length := kms.Sign(Signature.Request(keyId, algorithm, msgType, message, out.size, RequiresFips(Value())),
                             e.signature, out.size);
    }

    /** The single place a signature over a digest is produced. */
    method ProduceSignature(kms: Kms, out: Buffer, hashed: Bytes, e: Env) returns (ok: bool, length: Option<nat>)
      requires key != null && key.pub.spec.Some?
      modifies kms
      ensures var s := SignDigest(Value(), out, hashed, e);
        ok == s.ok && length == s.length && s.ctx == Value() && kms.log == old(kms.log) + Logged(s.request)
    {
      hide SizeOnly, Supported, SigningAlgorithm, KmsSign, SaltSatisfiable, DigestLength;
      assert kms.log == kms.log + [];
      var spec := key.pub.spec.value;
      var answer := CheckSize(out);
      if answer.Some? {
        return answer.value.0, answer.value.1;
      }
      if digest == NONE {
        return false, None;
      }
      if !Supported(Value(), spec) {
        return false, None;
      }
      var algorithm := SigningAlgorithm(spec, digest, spec.family.RSA? && pad.PSS?);
      if algorithm.None? {
        return false, None;
      }
      if |hashed| != DigestLength(digest) {
        return false, None;
      }
      if spec.family.RSA? && pad.PSS? && !SaltSatisfiable(Value(), |hashed|) {
        return false, None;
      }
      ok, length := Request(kms, algorithm.value, DIGEST, hashed, out, e);
    }

    method Update(data: Bytes, e: Env) returns (ok: bool)
      modifies `mdctx
      ensures var o := DigestUpdate(old(Value()), data, e); ok == o.ok && Value() == o.ctx
    {
      if mdctx.None? {
        return false;
      }
      if !mdctx.value.Hashing? || !e.digestUpdates {
        return false;
      }
      mdctx := Some(Hashing(mdctx.value.md, mdctx.value.data + data));
      return true;
    }

    method Final(kms: Kms, out: Buffer, e: Env, lib: Lib) returns (ok: bool, length: Option<nat>)
      requires key != null ==> key.pub.spec.Some?
      modifies `mdctx, kms
      ensures var s := DigestFinal(old(Value()), out, e, lib);
        ok == s.ok && length == s.length && s.ctx == Value() && kms.log == old(kms.log) + Logged(s.request)
    {
      hide SizeOnly;
      SignKeepsCtx(Value(), out, e);
      hide SignDigest;
      assert kms.log == kms.log + [];
      if mdctx.None? || key == null {
        return false, None;
      }
      var answer := CheckSize(out);
      if answer.Some? {
        return answer.value.0, answer.value.1;
      }
      if !mdctx.value.Hashing? || !e.digestFinals {
        return false, None;
      }
      var md, data := mdctx.value.md, mdctx.value.data;
      mdctx := Some(Finished(md, data));
      assert Value() == Finish(old(Value()));
      ok, length := ProduceSignature(kms, out, lib.hash(md, data), e);
    }

    method SignOneshot(kms: Kms, out: Buffer, msg: Bytes, e: Env, lib: Lib) returns (ok: bool, length: Option<nat>)
      requires key != null ==> key.pub.spec.Some? && Known(key.pub.spec.value)
      requires OperationPub(Value()).Some? && OperationPub(Value()).value.tr.Some? ==>
        |OperationPub(Value()).value.tr.value| == 64
      modifies kms
      ensures var s := OneshotSign(Value(), out, msg, e, lib);
        ok == s.ok && length == s.length && s.ctx == Value() && kms.log == old(kms.log) + Logged(s.request)
    {
      hide SizeOnly, Supported, SendOneshot, MuOf, OperationPub;
      assert kms.log == kms.log + [];
      if key == null {
        return false, None;
      }
      var spec := key.pub.spec.value;
      var answer := CheckSize(out);
      if answer.Some? {
        return answer.value.0, answer.value.1;
      }
      if !Supported(Value(), spec) {
        return false, None;
      }
      var algorithm := SigningAlgorithm(spec, NONE, false);
      if algorithm.None? {
        return false, None;
      }
      ok, length := Send(kms, spec, algorithm.value, out, msg, e, lib);
    }

    method Send(kms: Kms, spec: Spec, algorithm: Algorithm, out: Buffer, msg: Bytes, e: Env, lib: Lib)
      returns (ok: bool, length: Option<nat>)
      requires OperationPub(Value()).Some? && OperationPub(Value()).value.tr.Some? ==>
        |OperationPub(Value()).value.tr.value| == 64
      modifies kms
      ensures var s := SendOneshot(Value(), spec, algorithm, out, msg, e, lib);
        ok == s.ok && length == s.length && s.ctx == Value() && kms.log == old(kms.log) + Logged(s.request)
    {
      hide KmsSign, MuOf;
      assert kms.log == kms.log + [];
      match spec.msgType {
        case RAW =>
          if |msg| == 0 {
            return false, None;
          }
          if |msg| > MAX_MESSAGE {
            return false, None;
          }
          ok, length := Request(kms, algorithm, RAW, msg, out, e);
        case EXTERNAL_MU =>
          var mu := ComputeMu(msg, e, lib);
          if mu.None? {
            return false, None;
          }
          ok, length := Request(kms, algorithm, EXTERNAL_MU, mu.value, out, e);
        case DIGEST =>
          return false, None;
      }
    }

    method ComputeMu(msg: Bytes, e: Env, lib: Lib) returns (mu: Option<Bytes>)
      requires OperationPub(Value()).Some? && OperationPub(Value()).value.tr.Some? ==>
        |OperationPub(Value()).value.tr.value| == 64
      ensures mu == MuOf(Value(), msg, e, lib)
    {
      var view := OperationPub(Value());
      if view.None? || view.value.tr.None? {
        return None;
      }
      mu := Mu(view.value.tr.value, context, msg, e.muWorks, lib.shake);
    }

    // -------------------------------------------------------------- duplicates and the end

    /** A duplicate holds its own reference to the same key; if any part cannot be copied there is none. */
    method Duplicate(upRef: bool, copies: bool) returns (dst: SigCtx?)
      requires Valid()
      modifies key
      ensures dst != null <==> (upRef || key == null) && copies
      ensures dst != null ==> fresh(dst) && dst.key == key && dst.Value() == Dup(Value())
      ensures Value() == old(Value())
      ensures key != null ==> key.refcnt == old(key.refcnt) + (if dst != null then 1 else 0)
    {
      var copy := new SigCtx(fips);
      copy.digest, copy.pad, copy.saltLen := digest, pad, saltLen;
      copy.context, copy.instance := context, instance;
      if key != null {
        var retained := key.UpRef(upRef);
        if !retained {
          copy.Release();
          return null;
        }
        copy.key := key;
      }
      if !copies {
        copy.Release();
        return null;
      }
      copy.fipsPub := if fipsPub.pkey.Some? then fipsPub else EMPTY;
      copy.md, copy.mdctx := md, mdctx;
      return copy;
    }

    /** `awskms_sig_freectx` gives back the reference. */
    method Release()
      requires Valid()
      modifies this, key
      ensures key == null
      ensures old(key) != null ==> old(key).refcnt == old(key.refcnt) - 1
      ensures old(key) != null && old(key.refcnt) > 1 ==> old(key).View() == old(key.View())
    {
      if key != null {
        key.Free();
      }
      key := null;
      mdctx, md, fipsPub := None, None, EMPTY;
    }
  }

  lemma NothingToReparse(k: Key, e: Env, lib: Lib)
    ensures k.pub.der == [] ==> Reparse(k, e.spki, lib).None?
  {
  }

  lemma NoParam(c: Ctx)
    ensures ApplyPad(c, None) == ApplySalt(c, None) == Outcome(c, true)
    ensures ApplyContext(c, None) == ApplyInstance(c, None) == Outcome(c, true)
  {
  }

  lemma SignKeepsCtx(c: Ctx, out: Buffer, e: Env)
    ensures forall d, digest :: SignDigest(d, out, digest, e).ctx == d
  {
  }
}
