/**
 * The store loader and the entry points of the key manager as the code runs them (src/store.c:44-172,
 * src/keymgmt.c:40-56, 227-245): loader fields set step by step, one key built and handed out by reference.
 */
module KeyStore {
  import opened Bytes
  import opened KeySpec
  import opened PublicKey
  import opened Signature
  import opened SignatureContext
  import opened KeyManagement
  import PropertyQuery
  import PropertyScanner
  import Uri
  import UriParser
  import KeyLifetime
  import Provider
  import SignatureRuns

  /** `awskms_fips_requested`: the process default, or the local property query. */
  method FipsRequested(byDefault: bool, propq: Option<string>) returns (fips: bool)
    ensures fips <==> byDefault || (propq.Some? && PropertyQuery.RequestsFips(propq.value))
  {
    if byDefault {
      return true;
    }
    fips := PropertyScanner.PropqRequestsFips(propq);
  }

  /** What KMS answers to GetPublicKey. */
  datatype PublicKeyAnswer = PublicKeyAnswer(spki: Bytes, keySpec: Option<string>)

  /** The array libcrypto passes: the expected type and the property query, each if it is there. */
  datatype StoreParams = StoreParams(expected: Option<Param>, properties: Option<Param>)

  function GivenInt(p: Option<Param>): Option<int> {
    if p.Some? then GetInt(p.value) else None
  }

  ghost predicate AsksForFips(p: StoreParams, byDefault: bool) {
    byDefault || (p.properties.Some? && p.properties.value.Utf8? && PropertyQuery.RequestsFips(p.properties.value.text))
  }

  /** A key that is still empty, or one the signatures can work with. */
  ghost predicate SoundBefore(key: Key, lib: Lib) {
    SignatureRuns.LibOk(lib) && (key.pub.spec.Some? ==> SignatureRuns.KeyOk(key))
  }

  class StoreCtx {
    var key: AwskmsKey?
    var emitted: bool
    var expected: int

    constructor ()
      ensures key == null && !emitted && expected == 0
    {
      key, emitted, expected := null, false, 0;
    }

    predicate Valid()
      reads this, key
    {
      key != null && key.refcnt > 0
    }

    /** Gives back the loader's own reference. */
    method Close()
      requires key != null ==> key.refcnt > 0
      modifies this, key
      ensures key == null
      ensures old(key) != null ==> old(key).refcnt == old(key.refcnt) - 1
    {
      if key != null {
        key.Free();
      }
      key := null;
    }

    /**
     * Reads expect, then the property query; no array at all leaves everything alone, an array without a
     * query still asks for the process default.  The policy of the key can only become stricter; a parameter
     * that cannot be read fails the call, and whatever came before it stays.
     */
    method SetCtxParams(params: Option<StoreParams>, byDefault: bool) returns (ok: bool)
      requires Valid()
      modifies `expected, key`fipsRequired
      ensures Valid() && key == old(key) && emitted == old(emitted)
      ensures params.None? ==> ok && expected == old(expected) && key.fipsRequired == old(key.fipsRequired)
      ensures params.Some? ==> var p := params.value;
        && (ok <==>
              && (p.expected.Some? ==> GetInt(p.expected.value).Some?)
              && (p.properties.Some? ==> p.properties.value.Utf8?))
        && expected == (if GivenInt(p.expected).Some? then GivenInt(p.expected).value else old(expected))
        && (key.fipsRequired <==> old(key.fipsRequired) || (ok && AsksForFips(p, byDefault)))
    {
      if params.None? {
        return true;
      }
      var p := params.value;
      if p.expected.Some? {
        var v := GetInt(p.expected.value);
        if v.None? {
          return false;
        }
        expected := v.value;
      }
      ok := ApplyProperties(p.properties, byDefault);
    }

    method ApplyProperties(properties: Option<Param>, byDefault: bool) returns (ok: bool)
      requires Valid()
      modifies key`fipsRequired
      ensures ok <==> (properties.Some? ==> properties.value.Utf8?)
      ensures key.fipsRequired <==>
        old(key.fipsRequired) || (ok && AsksForFips(StoreParams(None, properties), byDefault))
    {
      var propq: Option<string> := None;
      if properties.Some? {
        if !properties.value.Utf8? {
          return false;
        }
        propq := Some(properties.value.text);
      }
      var fips := FipsRequested(byDefault, propq);
      if fips {
        key.fipsRequired := true;
      }
      return true;
    }

    /** Fetches and checks the public half, once; a failure leaves the key without one. */
    method LoadKey(answer: Option<PublicKeyAnswer>, o: Answers, lib: Lib) returns (ok: bool)
      requires Valid() && (key.pub.spec.None? ==> key.pub == EMPTY)
      modifies key`pub
      ensures Valid()
      ensures ok <==> old(key.pub.spec).Some? || exists s ::
        Known(s) && answer.Some? && answer.value.keySpec == Some(s.name) && Accepts(s, answer.value.spki, o)
      ensures ok && old(key.pub.spec).None? ==>
        && key.pub.spec.Some? && Known(key.pub.spec.value) && answer.Some?
        && KeyLifetime.LoadedPub(old(key.View()), true, answer.value.spki, key.pub.spec, o, lib.shake) == Some(key.pub)
      ensures !ok || old(key.pub.spec).Some? ==> key.pub == old(key.pub)
      ensures ok && SoundBefore(old(key.View()), lib) ==> SignatureRuns.KeyOk(key.View())
    {
      hide Accepts, Parsed;
      if key.pub.spec.Some? {
        return true;
      }
      if answer.None? {
        return false;
      }
      var parsed := new PublicView();
      ok := parsed.FromSpki(answer.value.spki, answer.value.keySpec, key.fipsRequired, o, lib.shake);
      if !ok {
        return;
      }
      ghost var before := key.View();
      key.pub := parsed.Contents();
      if SignatureRuns.LibOk(lib) {
        Provider.LoadedIsSound(before, true, answer.value.spki, key.pub.spec, o, lib);
      }
    }

    /**
     * Emits the key at most once.  `takes` says whether the caller's callback loads the reference, which
     * the key manager answers by taking one of its own; the loader keeps its reference either way.
     */
    method Load(answer: Option<PublicKeyAnswer>, o: Answers, lib: Lib, takes: bool, upRef: bool)
      returns (handle: AwskmsKey?)
      requires Valid() && (key.pub.spec.None? ==> key.pub == EMPTY)
      modifies `emitted, key`pub, key`refcnt
      ensures Valid() && key == old(key)
      ensures handle != null ==> handle == key && !old(emitted) && (expected == 0 || expected == KeyLifetime.INFO_PKEY)
      ensures handle != null ==> key.pub.spec.Some? && takes && upRef
      ensures handle != null && SoundBefore(old(key.View()), lib) ==> SignatureRuns.KeyOk(handle.View())
      ensures key.refcnt == old(key.refcnt) + (if handle != null then 1 else 0)
      ensures old(emitted) ==> emitted && handle == null && key.pub == old(key.pub)
      ensures expected != 0 && expected != KeyLifetime.INFO_PKEY ==>
        emitted && handle == null && key.pub == old(key.pub)
      ensures emitted && !old(emitted) && (expected == 0 || expected == KeyLifetime.INFO_PKEY) ==>
        key.pub.spec.Some? && (handle != null <==> takes && upRef)
      ensures !old(emitted) && (expected == 0 || expected == KeyLifetime.INFO_PKEY) ==>
        (emitted <==> old(key.pub.spec).Some? || exists s ::
          Known(s) && answer.Some? && answer.value.keySpec == Some(s.name) && Accepts(s, answer.value.spki, o))
    {
      if emitted {
        return null;
      }
      if expected != 0 && expected != KeyLifetime.INFO_PKEY {
        emitted := true;
        return null;
      }
      var loaded := LoadKey(answer, o, lib);
      if !loaded {
        return null;
      }
      emitted := true;
      if !takes {
        return null;
      }
      handle := LoadReference(key, upRef);
    }
  }

  /** `awskms_keymgmt_load`: the handle is the key itself, with one more reference. */
  method LoadReference(reference: AwskmsKey, upRef: bool) returns (handle: AwskmsKey?)
    requires reference.refcnt > 0
    modifies reference`refcnt
    ensures handle == if upRef then reference else null
    ensures reference.refcnt == old(reference.refcnt) + (if upRef then 1 else 0)
  {
    var ok := reference.UpRef(upRef);
    return if ok then reference else null;
  }

  /**
   * Opens a loader: a key of its own, seeded with the process default policy, and the parsed URI.  If the
   * URI is not accepted nothing is left.
   */
  method Open(byDefault: bool, path: string, query: seq<Uri.Pair>) returns (ctx: StoreCtx?)
    ensures ctx != null <==> Uri.Parse(path, query).Ok?
    ensures ctx != null ==>
      && fresh(ctx) && ctx.Valid() && fresh(ctx.key) && ctx.key.refcnt == 1 && !ctx.emitted && ctx.expected == 0
      && ctx.key.View() == Key(Uri.Parse(path, query).value.keyId, EMPTY, byDefault)
  {
    hide Uri.Parse;
    ctx := new StoreCtx();
    ctx.key := new AwskmsKey();
    ctx.key.fipsRequired := FipsRequested(byDefault, None);
    var uri := new UriParser.AwskmsUri();
    var error := uri.ParseUri(path, query);
    if error.Some? {
      ctx.Close();
      return null;
    }
    ctx.key.keyId := uri.keyId;
  }

  /** `awskms_keymgmt_dup`, after the rules of `DupPlan`: nothing of the original changes but its count. */
  method Dup(key: AwskmsKey, sel: Selection, e: DupEnv) returns (dup: AwskmsKey?)
    requires key.refcnt > 0
    modifies key`refcnt
    ensures match DupPlan(old(key.View()), sel, e)
      case NoDup => dup == null && key.refcnt == old(key.refcnt)
      case Share => dup == key && key.refcnt == old(key.refcnt) + 1
      case Build(k) => dup != null && fresh(dup) && dup.refcnt == 1 && dup.View() == k && key.refcnt == old(key.refcnt)
    ensures dup != null && SignatureRuns.KeyOk(old(key.View())) ==> SignatureRuns.KeyOk(dup.View())
  {
    ghost var before := key.View();
    if SignatureRuns.KeyOk(before) {
      Provider.BuiltIsSound(before, sel, e);
    }
    hide Has, SignatureRuns.KeyOk;
    if !Has(key.View(), sel, e.g) {
      return null;
    }
    HasSpec(key.View(), sel, e.g);
    if sel.private {
      if !sel.public {
        return null;
      }
      var ok := key.UpRef(e.upRef);
      if !ok {
        return null;
      }
      return key;
    }
    if sel.public {
      if !e.allocates {
        return null;
      }
      dup := new AwskmsKey();
      dup.fipsRequired := key.fipsRequired;
      if !e.copies {
        dup.Free();
        return null;
      }
      dup.pub := key.pub;
      return;
    }
    if sel.domain && key.pub.spec.value.family.EC? {
      if e.parameters.None? || !e.allocates {
        return null;
      }
      dup := NewSubsetKey(key);
      dup.pub := dup.pub.(pkey := Some(e.parameters.value.(fips := key.fipsRequired)));
      return;
    }
    if !e.allocates {
      return null;
    }
    dup := NewSubsetKey(key);
  }

  lemma HasSpec(key: Key, sel: Selection, g: Getters)
    requires Has(key, sel, g)
    ensures key.pub.spec.Some? && (sel.public ==> key.pub.pkey.Some?)
  {
  }

  method NewSubsetKey(key: AwskmsKey) returns (dst: AwskmsKey)
    ensures fresh(dst) && dst.refcnt == 1 && dst.View() == Subset(key.View())
  {
    dst := new AwskmsKey();
    dst.pub := Pub([], None, key.pub.spec, [], None);
    dst.fipsRequired := key.fipsRequired;
  }
}
