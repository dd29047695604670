/**
 * What holds over every run of signature operations: any number of contexts, any keys, any mix of
 * operations, each library call free to fail.
 */
module SignatureRuns {
  import opened Bytes
  import opened KeySpec
  import opened PublicKey
  import opened Signature

  // ---------------------------------------------------------------- what a request must be

  /** The salt length asked for is one KMS uses: its own choice, or the length of the digest. */
  predicate SaltHonoured(c: Ctx, r: Request) {
    MeaningOf(r.algorithm).pss ==> c.saltLen == SALT_DIGEST || c.saltLen == SALT_AUTO || c.saltLen == |r.message|
  }

  predicate MessageFits(r: Request) {
    match r.msgType
    case DIGEST => |r.message| == DigestLength(MeaningOf(r.algorithm).digest) > 0
    case RAW => 1 <= |r.message| <= MAX_MESSAGE
    case EXTERNAL_MU => |r.message| == 64
  }

  /** A request KMS can honour without signing anything else than the caller asked for. */
  ghost predicate ValidRequest(c: Ctx, r: Request) {
    && SpecOf(c).Some? && Known(SpecOf(c).value)
    && var spec := SpecOf(c).value;
       && r.msgType == spec.msgType
       && MeaningOf(r.algorithm)
            == Meaning(spec.family, spec.msgType, if spec.msgType.DIGEST? then c.digest else NONE, UsesPss(c, spec))
       && MessageFits(r) && SaltHonoured(c, r)
       && 0 < RequiredSize(c) <= r.reserved
       && (c.context != [] ==> spec.family.ML_DSA?) && |c.context| <= MAX_CONTEXT
       && InstanceSupported(c, spec)
       && r.fips == RequiresFips(c) && r.keyId == c.key.value.keyId
  }

  // ---------------------------------------------------------------- what every context keeps

  ghost predicate LibOk(lib: Lib) {
    && (forall md: Md, data: Bytes :: |lib.hash(md, data)| == md.size)
    && (forall data: Bytes :: |lib.shake(data)| == 64)
  }

  /** A fetched digest: the known ones have their length, and a fetch never gives no digest. */
  predicate MdOk(md: Md) {
    md.digest != NONE && (DigestLength(md.digest) > 0 ==> md.size == DigestLength(md.digest))
  }

  ghost predicate FetchesOk(e: Env) {
    (e.paramMd.Some? ==> MdOk(e.paramMd.value)) && (e.nameMd.Some? ==> MdOk(e.nameMd.value))
  }

  /** A key of the provider: its spec is in the table, and its tr, if it has one, is 64 bytes. */
  ghost predicate KeyOk(key: Key) {
    && key.pub.spec.Some? && Known(key.pub.spec.value)
    && (key.pub.tr.Some? ==> |key.pub.tr.value| == 64)
  }

  ghost predicate DigestOk(c: Ctx) {
    match c.md
    case None => c.digest == NONE
    case Some(md) => MdOk(md) && !md.xof && (c.digest == md.digest || c.digest == NONE)
  }

  ghost predicate MdCtxOk(m: Option<MdCtx>) {
    m.Some? && !m.value.Unready? ==> MdOk(m.value.md) && !m.value.md.xof
  }

  /**
   * The reparsed view is there if the policy of the context is stricter than that of its key.  It may be there
   * otherwise, because the policy of a key can become stricter after the binding.
   */
  ghost predicate FipsPubOk(c: Ctx, lib: Lib) {
    && (c.key.Some? && NeedsReparse(c, c.key.value) ==>
          && Complete(c.fipsPub, lib.shake) && c.fipsPub.pkey.value.fips
          && c.fipsPub.spec == c.key.value.pub.spec && c.fipsPub.der == c.key.value.pub.der)
    && (c.fipsPub.pkey.None? ==> c.fipsPub == EMPTY)
  }

  ghost predicate CtxOk(c: Ctx, lib: Lib) {
    && (c.key.Some? ==> KeyOk(c.key.value))
    && |c.context| <= MAX_CONTEXT
    && DigestOk(c) && MdCtxOk(c.mdctx) && FipsPubOk(c, lib)
  }

  // ---------------------------------------------------------------- operations on one context

  datatype Op =
    | SetParamsOp(params: Option<Params>)
    | SignInitOp(key: Option<Key>, params: Option<Params>)
    | DigestInitOp(name: string, key: Option<Key>, params: Option<Params>)
    | OneshotInitOp(name: string, key: Option<Key>, params: Option<Params>)
    | SignOp(out: Buffer, digest: Bytes)
    | UpdateOp(data: Bytes)
    | FinalOp(out: Buffer)
    | VerifyFinalOp
    | OneshotSignOp(out: Buffer, msg: Bytes)

  function Quiet(o: Outcome): Signed {
    Signed(o.ctx, o.ok, None, None)
  }

  function Apply(c: Ctx, op: Op, e: Env, lib: Lib): Signed {
    match op
    case SetParamsOp(params) => Quiet(SetParams(c, params, e))
    case SignInitOp(key, params) => Quiet(SignInit(c, key, params, e, lib))
    case DigestInitOp(name, key, params) => Quiet(DigestInit(c, name, key, params, e, lib))
    case OneshotInitOp(name, key, params) => Quiet(OneshotInit(c, name, key, params, e, lib))
    case SignOp(out, digest) => SignDigest(c, out, digest, e)
    case UpdateOp(data) => Quiet(DigestUpdate(c, data, e))
    case FinalOp(out) => DigestFinal(c, out, e, lib)
    case VerifyFinalOp => Signed(VerifyFinal(c, e), true, None, None)
    case OneshotSignOp(out, msg) => OneshotSign(c, out, msg, e, lib)
  }

  function KeyOfOp(op: Op): Option<Key> {
    match op
    case SignInitOp(key, _) => key
    case DigestInitOp(_, key, _) => key
    case OneshotInitOp(_, key, _) => key
    case _ => None
  }

  ghost predicate OpOk(op: Op, e: Env) {
    FetchesOk(e) && (KeyOfOp(op).Some? ==> KeyOk(KeyOfOp(op).value))
  }

  // ---------------------------------------------------------------- requests are valid

  lemma SignDigestIsValid(c: Ctx, out: Buffer, digest: Bytes, e: Env, lib: Lib)
    requires CtxOk(c, lib)
    ensures var s := SignDigest(c, out, digest, e); s.ctx == c && (s.request.Some? ==> ValidRequest(c, s.request.value))
    ensures SignDigest(c, out, digest, e).request.Some? ==>
      SignDigest(c, out, digest, e).request.value.message == digest
  {
    hide DigestOk, MdCtxOk, FipsPubOk;
    if SpecOf(c).Some? {
      TableFacts(SpecOf(c).value);
      AlgorithmMatches(SpecOf(c).value, c.digest, UsesPss(c, SpecOf(c).value));
    }
  }

  lemma OneshotIsValid(c: Ctx, out: Buffer, msg: Bytes, e: Env, lib: Lib)
    requires CtxOk(c, lib) && LibOk(lib)
    ensures var s := OneshotSign(c, out, msg, e, lib);
      s.ctx == c && (s.request.Some? ==> ValidRequest(c, s.request.value))
  {
    hide DigestOk, MdCtxOk, FipsPubOk;
    if SpecOf(c).Some? {
      TableFacts(SpecOf(c).value);
      AlgorithmMatches(SpecOf(c).value, NONE, false);
    }
  }

  /** Neither a probe nor a short buffer costs a request or touches the context, so signing can still follow. */
  lemma ProbesAreFree(c: Ctx, op: Op, e: Env, lib: Lib)
    requires op.SignOp? || op.FinalOp? || op.OneshotSignOp?
    requires !op.out.present || !op.out.hasLength || op.out.size < RequiredSize(c)
    ensures var s := Apply(c, op, e, lib); s.ctx == c && s.request.None?
    ensures var s := Apply(c, op, e, lib);
      c.key.Some? && SpecOf(c).Some? && op.out.hasLength && RequiredSize(c) > 0 && (op.FinalOp? ==> c.mdctx.Some?) ==>
        s.length == Some(RequiredSize(c)) && s.ok == !op.out.present
  {
  }

  // ---------------------------------------------------------------- every operation keeps the invariant

  lemma BindKeepsOk(c: Ctx, key: Option<Key>, e: Env, lib: Lib)
    requires CtxOk(c, lib) && (key.Some? ==> KeyOk(key.value))
    ensures CtxOk(BindKey(c, key, e, lib).ctx, lib)
    ensures !BindKey(c, key, e, lib).ok ==> BindKey(c, key, e, lib).ctx == c
  {
    if key.Some? && NeedsReparse(c, key.value) && Reparse(key.value, e.spki, lib).Some? {
      AcceptedIsComplete(key.value.pub.spec.value, key.value.pub.der, true, e.spki, lib.shake);
    }
  }

  lemma SameKeySameView(c: Ctx, d: Ctx, lib: Lib)
    requires d.key == c.key && d.fips == c.fips && d.fipsPub == c.fipsPub
    ensures FipsPubOk(c, lib) <==> FipsPubOk(d, lib)
  {
  }

  /** What a parameter never changes, and that the context stays sound. */
  ghost predicate Kept(c: Ctx, d: Ctx, lib: Lib) {
    d.key == c.key && d.fips == c.fips && d.fipsPub == c.fipsPub && d.mdctx == c.mdctx && CtxOk(d, lib)
  }

  lemma DigestParamKept(c: Ctx, p: Option<Param>, e: Env, lib: Lib)
    requires CtxOk(c, lib) && FetchesOk(e)
    ensures Kept(c, ApplyDigest(c, p, e).ctx, lib)
  {
    hide KeyOk, GetUtf8, FipsPubOk;
    SameKeySameView(c, ApplyDigest(c, p, e).ctx, lib);
  }

  lemma PadParamKept(c: Ctx, p: Option<Param>, lib: Lib)
    requires CtxOk(c, lib)
    ensures Kept(c, ApplyPad(c, p).ctx, lib)
  {
    hide KeyOk, PadOf, FipsPubOk;
    SameKeySameView(c, ApplyPad(c, p).ctx, lib);
  }

  lemma SaltParamKept(c: Ctx, p: Option<Param>, lib: Lib)
    requires CtxOk(c, lib)
    ensures Kept(c, ApplySalt(c, p).ctx, lib)
  {
    hide KeyOk, SaltOf, FipsPubOk;
    SameKeySameView(c, ApplySalt(c, p).ctx, lib);
  }

  lemma ContextParamKept(c: Ctx, p: Option<Param>, lib: Lib)
    requires CtxOk(c, lib)
    ensures Kept(c, ApplyContext(c, p).ctx, lib)
  {
    hide KeyOk, FipsPubOk;
    SameKeySameView(c, ApplyContext(c, p).ctx, lib);
  }

  lemma InstanceParamKept(c: Ctx, p: Option<Param>, lib: Lib)
    requires CtxOk(c, lib)
    ensures Kept(c, ApplyInstance(c, p).ctx, lib)
  {
    hide KeyOk, GetUtf8, FipsPubOk;
    SameKeySameView(c, ApplyInstance(c, p).ctx, lib);
  }

  lemma ParamsKeepOk(c: Ctx, params: Option<Params>, e: Env, lib: Lib)
    requires CtxOk(c, lib) && FetchesOk(e)
    ensures Kept(c, SetParams(c, params, e).ctx, lib)
  {
    hide CtxOk, FetchesOk, ApplyDigest, ApplyPad, ApplySalt, ApplyContext, ApplyInstance;
    if params.Some? {
      var p := params.value;
      DigestParamKept(c, p.digest, e, lib);
      var c1 := ApplyDigest(c, p.digest, e).ctx;
      PadParamKept(c1, p.pad, lib);
      var c2 := ApplyPad(c1, p.pad).ctx;
      SaltParamKept(c2, p.salt, lib);
      var c3 := ApplySalt(c2, p.salt).ctx;
      ContextParamKept(c3, p.context, lib);
      InstanceParamKept(ApplyContext(c3, p.context).ctx, p.instance, lib);
    }
  }

  lemma InitsKeepOk(c: Ctx, name: string, key: Option<Key>, params: Option<Params>, e: Env, lib: Lib)
    requires CtxOk(c, lib) && FetchesOk(e) && (key.Some? ==> KeyOk(key.value))
    ensures CtxOk(SignInit(c, key, params, e, lib).ctx, lib)
    ensures CtxOk(DigestInit(c, name, key, params, e, lib).ctx, lib)
    ensures CtxOk(OneshotInit(c, name, key, params, e, lib).ctx, lib)
  {
    hide SetParams, BindKey, KeyOk, Supported;
    BindKeepsOk(c, key, e, lib);
    ParamsKeepOk(BindKey(c, key, e, lib).ctx, params, e, lib);
    var o := SignInit(c, key, params, e, lib);
    SameKeySameView(o.ctx, o.ctx.(digest := NONE), lib);
    NameKeepsOk(o.ctx, name, e, lib);
  }

  lemma NameKeepsOk(c: Ctx, name: string, e: Env, lib: Lib)
    requires CtxOk(c, lib) && FetchesOk(e)
    ensures var n := Named(c, name, e).ctx; CtxOk(n, lib) && CtxOk(StartDigest(n, e).ctx, lib)
  {
    hide KeyOk, FipsPubOk;
    var n := Named(c, name, e).ctx;
    SameKeySameView(c, n, lib);
    SameKeySameView(c, StartDigest(n, e).ctx, lib);
  }

  lemma FinishKeepsOk(c: Ctx, lib: Lib)
    requires CtxOk(c, lib) && c.mdctx.Some? && c.mdctx.value.Hashing?
    ensures CtxOk(Finish(c), lib)
  {
    hide KeyOk, FipsPubOk;
    SameKeySameView(c, Finish(c), lib);
  }

  lemma FinalIsValid(c: Ctx, out: Buffer, e: Env, lib: Lib)
    requires CtxOk(c, lib)
    ensures var s := DigestFinal(c, out, e, lib);
      CtxOk(s.ctx, lib) && (s.request.Some? ==> ValidRequest(s.ctx, s.request.value))
  {
    hide CtxOk, ValidRequest, SignDigest;
    if c.mdctx.Some? && c.mdctx.value.Hashing? {
      FinishKeepsOk(c, lib);
      SignDigestIsValid(Finish(c), out, lib.hash(c.mdctx.value.md, c.mdctx.value.data), e, lib);
    }
  }

  lemma UpdateKeepsOk(c: Ctx, data: Bytes, e: Env, lib: Lib)
    requires CtxOk(c, lib)
    ensures CtxOk(DigestUpdate(c, data, e).ctx, lib)
  {
    hide KeyOk, FipsPubOk;
    SameKeySameView(c, DigestUpdate(c, data, e).ctx, lib);
  }

  /** Every operation keeps the context sound, and any request it makes is one KMS can honour. */
  lemma ApplyKeepsOk(c: Ctx, op: Op, e: Env, lib: Lib)
    requires CtxOk(c, lib) && LibOk(lib) && OpOk(op, e)
    ensures var s := Apply(c, op, e, lib);
      CtxOk(s.ctx, lib) && (s.request.Some? ==> ValidRequest(s.ctx, s.request.value))
  {
    hide CtxOk, ValidRequest, SetParams, SignInit, DigestInit, OneshotInit;
    hide SignDigest, DigestFinal, OneshotSign, DigestUpdate;
    match op
    case SetParamsOp(params) => ParamsKeepOk(c, params, e, lib);
    case SignInitOp(key, params) => InitsKeepOk(c, "", key, params, e, lib);
    case DigestInitOp(name, key, params) => InitsKeepOk(c, name, key, params, e, lib);
    case OneshotInitOp(name, key, params) => InitsKeepOk(c, name, key, params, e, lib);
    case SignOp(out, digest) => SignDigestIsValid(c, out, digest, e, lib);
    case UpdateOp(data) => UpdateKeepsOk(c, data, e, lib);
    case FinalOp(out) => FinalIsValid(c, out, e, lib);
    case VerifyFinalOp =>
      if CanFinish(c, e) {
        FinishKeepsOk(c, lib);
      }
    case OneshotSignOp(out, msg) => OneshotIsValid(c, out, msg, e, lib);
  }

  // ---------------------------------------------------------------- runs

  /** One logged request, and the context that made it as it was then. */
  datatype Entry = Entry(ctx: Ctx, request: Request)

  datatype State = State(ctxs: seq<Ctx>, log: seq<Entry>)

  datatype Event =
    | New(fips: bool)
    | Duplicate(i: nat, works: bool)
    | Run(i: nat, op: Op, e: Env)

  ghost predicate ValidEvent(s: State, ev: Event) {
    match ev
    case New(_) => true
    case Duplicate(i, _) => i < |s.ctxs|
    case Run(i, op, e) => i < |s.ctxs| && OpOk(op, e)
  }

  /** A freed context is one no later event names; a duplicate comes last. */
  function Step(s: State, ev: Event, lib: Lib): State {
    match ev
    case New(fips) => s.(ctxs := s.ctxs + [NewCtx(fips)])
    case Duplicate(i, works) => if works && i < |s.ctxs| then s.(ctxs := s.ctxs + [Dup(s.ctxs[i])]) else s
    case Run(i, op, e) =>
      if i >= |s.ctxs| then s
      else
        var r := Apply(s.ctxs[i], op, e, lib);
        State(s.ctxs[i := r.ctx], s.log + if r.request.Some? then [Entry(r.ctx, r.request.value)] else [])
  }

  ghost predicate ValidRun(s: State, run: seq<Event>, lib: Lib)
    decreases |run|
  {
    run == [] || (ValidEvent(s, run[0]) && ValidRun(Step(s, run[0], lib), run[1..], lib))
  }

  ghost function After(s: State, run: seq<Event>, lib: Lib): State
    decreases |run|
  {
    if run == [] then s else After(Step(s, run[0], lib), run[1..], lib)
  }

  ghost predicate EntryOk(entry: Entry) {
    ValidRequest(entry.ctx, entry.request)
  }

  ghost predicate Inv(s: State, lib: Lib) {
    && (forall i :: 0 <= i < |s.ctxs| ==> CtxOk(s.ctxs[i], lib))
    && (forall k :: 0 <= k < |s.log| ==> EntryOk(s.log[k]))
  }

  lemma NewAndDupOk(c: Ctx, fips: bool, lib: Lib)
    requires CtxOk(c, lib)
    ensures CtxOk(NewCtx(fips), lib) && CtxOk(Dup(c), lib)
    ensures Dup(c) == c
  {
  }

  lemma StepKeepsInv(s: State, ev: Event, lib: Lib)
    requires Inv(s, lib) && ValidEvent(s, ev) && LibOk(lib)
    ensures Inv(Step(s, ev, lib), lib)
  {
    hide CtxOk, EntryOk, Apply, Dup, NewCtx, LibOk;
    match ev
    case New(fips) =>
      NewIsOk(fips, lib);
    case Duplicate(i, works) =>
      NewAndDupOk(s.ctxs[i], false, lib);
    case Run(i, op, e) =>
      RunKeepsOk(s.ctxs[i], op, e, lib);
  }

  lemma NewIsOk(fips: bool, lib: Lib)
    ensures CtxOk(NewCtx(fips), lib)
  {
  }

  lemma RunKeepsOk(c: Ctx, op: Op, e: Env, lib: Lib)
    requires CtxOk(c, lib) && LibOk(lib) && OpOk(op, e)
    ensures var r := Apply(c, op, e, lib);
      CtxOk(r.ctx, lib) && (r.request.Some? ==> EntryOk(Entry(r.ctx, r.request.value)))
  {
    hide CtxOk, ValidRequest, Apply;
    ApplyKeepsOk(c, op, e, lib);
  }

  lemma {:induction false} RunKeepsInv(s: State, run: seq<Event>, lib: Lib)
    requires Inv(s, lib) && ValidRun(s, run, lib) && LibOk(lib)
    ensures Inv(After(s, run, lib), lib)
    decreases |run|
  {
    hide Inv, LibOk, Step;
    if run != [] {
      StepKeepsInv(s, run[0], lib);
      RunKeepsInv(Step(s, run[0], lib), run[1..], lib);
    }
  }

  /**
   * In every run of context operations on any keys, each logged request has the message type of its key
   * spec, the algorithm of its family, digest and padding, a message of the right length, a buffer that
   * holds the signature, a salt length KMS uses, no context outside ML-DSA and no other instance than the
   * pure one.
   */
  lemma EveryRequestIsValid(run: seq<Event>, lib: Lib, k: nat)
    requires ValidRun(State([], []), run, lib) && LibOk(lib)
    requires k < |After(State([], []), run, lib).log|
    ensures var entry := After(State([], []), run, lib).log[k]; ValidRequest(entry.ctx, entry.request)
  {
    RunKeepsInv(State([], []), run, lib);
    assert EntryOk(After(State([], []), run, lib).log[k]);
  }

  // ---------------------------------------------------------------- FIPS provenance of operations

  /**
   * In every reachable context with a key an operation has a public view; one that requires FIPS has a view
   * parsed under FIPS exactly if it was parsed again for this context, or the key is not stale.
   */
  lemma OperationsSeeFipsView(run: seq<Event>, lib: Lib, i: nat)
    requires ValidRun(State([], []), run, lib) && LibOk(lib) && i < |After(State([], []), run, lib).ctxs|
    ensures var c := After(State([], []), run, lib).ctxs[i];
      c.key.Some? ==>
        && OperationPub(c).Some?
        && (RequiresFips(c) && OperationPub(c).value.pkey.Some? ==>
              (OperationPub(c).value.pkey.value.fips <==> (c.fips && !c.key.value.fips) || !Stale(c.key.value)))
  {
    RunKeepsInv(State([], []), run, lib);
    var c := After(State([], []), run, lib).ctxs[i];
    assert CtxOk(c, lib);
  }
}
