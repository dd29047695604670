/**
 * Streaming refines one-shot (src/signature.c:114-154, 654-703): whatever the chunks, probes, short
 * buffers, duplicates and failures in between, what is signed is the hash of everything fed since the
 * last initialisation.
 */
module SignatureStream {
  import opened Bytes
  import opened KeySpec
  import opened PublicKey
  import opened Signature
  import opened SignatureRuns

  /** The digest chosen when a stream began, and all that was fed to it since. */
  datatype Stream = Stream(md: Md, fed: Bytes)

  /** A failed initialisation that does not reach the digest context leaves the old stream in it. */
  function NextStream(stream: Option<Stream>, c: Ctx, op: Op, e: Env, lib: Lib): Option<Stream> {
    match op
    case DigestInitOp(_, _, _) =>
      var r := Apply(c, op, e, lib);
      if r.ok && r.ctx.md.Some? then Some(Stream(r.ctx.md.value, []))
      else if r.ctx.mdctx == c.mdctx then stream
      else None
    case UpdateOp(data) =>
      if stream.Some? && Apply(c, op, e, lib).ok then Some(Stream(stream.value.md, stream.value.fed + data)) else stream
    case _ => stream
  }

  function StreamStep(streams: seq<Option<Stream>>, s: State, ev: Event, lib: Lib): seq<Option<Stream>>
    requires |streams| == |s.ctxs|
  {
    match ev
    case New(_) => streams + [None]
    case Duplicate(i, works) => if works && i < |streams| then streams + [streams[i]] else streams
    case Run(i, op, e) =>
      if i < |streams| then streams[i := NextStream(streams[i], s.ctxs[i], op, e, lib)] else streams
  }

  ghost function StreamsAfter(streams: seq<Option<Stream>>, s: State, run: seq<Event>, lib: Lib)
    : (r: seq<Option<Stream>>)
    requires |streams| == |s.ctxs|
    ensures |r| == |After(s, run, lib).ctxs|
    decreases |run|
  {
    if run == [] then streams
    else StreamsAfter(StreamStep(streams, s, run[0], lib), Step(s, run[0], lib), run[1..], lib)
  }

  /** The digest context holds the stream, finalised or not. */
  predicate Holds(c: Ctx, stream: Option<Stream>) {
    stream.Some? ==>
      && c.mdctx.Some? && !c.mdctx.value.Unready?
      && c.mdctx.value.md == stream.value.md && c.mdctx.value.data == stream.value.fed
  }

  ghost predicate AllHold(ctxs: seq<Ctx>, streams: seq<Option<Stream>>) {
    |ctxs| == |streams| && forall i :: 0 <= i < |ctxs| ==> Holds(ctxs[i], streams[i])
  }

  lemma InitsLeaveMdCtx(c: Ctx, name: string, key: Option<Key>, params: Option<Params>, e: Env, lib: Lib)
    ensures SetParams(c, params, e).ctx.mdctx == c.mdctx
    ensures SignInit(c, key, params, e, lib).ctx.mdctx == c.mdctx
    ensures OneshotInit(c, name, key, params, e, lib).ctx.mdctx == c.mdctx
  {
    hide GetUtf8, PadOf, SaltOf, Reparse, Supported;
    ParamsLeaveMdCtx(c, params, e);
    ParamsLeaveMdCtx(BindKey(c, key, e, lib).ctx, params, e);
    hide SetParams;
  }

  lemma ParamsLeaveMdCtx(c: Ctx, params: Option<Params>, e: Env)
    ensures SetParams(c, params, e).ctx.mdctx == c.mdctx
  {
    hide GetUtf8, PadOf, SaltOf;
  }

  lemma InitStartsStream(c: Ctx, name: string, key: Option<Key>, params: Option<Params>, e: Env, lib: Lib)
    ensures var r := DigestInit(c, name, key, params, e, lib);
      r.ok ==> r.ctx.md.Some? && r.ctx.mdctx == Some(Hashing(r.ctx.md.value, []))
  {
    hide SignInit, SetDigest;
  }

  lemma SigningLeavesStream(c: Ctx, op: Op, e: Env, lib: Lib)
    requires op.SignOp? || op.FinalOp? || op.VerifyFinalOp? || op.OneshotSignOp?
    ensures var m := Apply(c, op, e, lib).ctx.mdctx;
      || m == c.mdctx
      || (c.mdctx.Some? && c.mdctx.value.Hashing? && m == Some(Finished(c.mdctx.value.md, c.mdctx.value.data)))
  {
    hide RequiredSize, Supported, SigningAlgorithm, UsesPss;
  }

  lemma ApplyHolds(c: Ctx, stream: Option<Stream>, op: Op, e: Env, lib: Lib)
    requires Holds(c, stream)
    ensures Holds(Apply(c, op, e, lib).ctx, NextStream(stream, c, op, e, lib))
  {
    hide SetParams, SignInit, DigestInit, OneshotInit, SignDigest, DigestFinal, VerifyFinal, OneshotSign;
    match op
    case SetParamsOp(params) => InitsLeaveMdCtx(c, "", None, params, e, lib);
    case SignInitOp(key, params) => InitsLeaveMdCtx(c, "", key, params, e, lib);
    case DigestInitOp(name, key, params) => InitStartsStream(c, name, key, params, e, lib);
    case OneshotInitOp(name, key, params) => InitsLeaveMdCtx(c, name, key, params, e, lib);
    case UpdateOp(data) =>
    case _ => SigningLeavesStream(c, op, e, lib);
  }

  lemma {:induction false} RunHolds(streams: seq<Option<Stream>>, s: State, run: seq<Event>, lib: Lib)
    requires AllHold(s.ctxs, streams)
    ensures AllHold(After(s, run, lib).ctxs, StreamsAfter(streams, s, run, lib))
    decreases |run|
  {
    hide Holds, Apply, NextStream, NewCtx;
    if run != [] {
      StepHolds(streams, s, run[0], lib);
      RunHolds(StreamStep(streams, s, run[0], lib), Step(s, run[0], lib), run[1..], lib);
    }
  }

  lemma StepHolds(streams: seq<Option<Stream>>, s: State, ev: Event, lib: Lib)
    requires AllHold(s.ctxs, streams)
    ensures AllHold(Step(s, ev, lib).ctxs, StreamStep(streams, s, ev, lib))
  {
    hide Holds, Apply, NextStream, NewCtx, Dup;
    match ev
    case New(fips) => NothingHeld(NewCtx(fips));
    case Duplicate(i, works) =>
      if i < |s.ctxs| {
        DupHolds(s.ctxs[i], streams[i]);
      }
    case Run(i, op, e) =>
      if i < |s.ctxs| {
        ApplyHolds(s.ctxs[i], streams[i], op, e, lib);
      }
  }

  lemma NothingHeld(c: Ctx)
    ensures Holds(c, None)
  {
  }

  lemma DupHolds(c: Ctx, stream: Option<Stream>)
    requires Holds(c, stream)
    ensures Holds(Dup(c), stream)
  {
  }

  // ---------------------------------------------------------------- what finalising signs

  lemma FinalSignsStream(c: Ctx, stream: Stream, out: Buffer, e: Env, lib: Lib)
    requires CtxOk(c, lib) && LibOk(lib) && Holds(c, Some(stream))
    ensures var r := DigestFinal(c, out, e, lib);
      r.request.Some? ==>
        && r.request == SignDigest(c, out, lib.hash(stream.md, stream.fed), e).request
        && r.request.value.message == lib.hash(stream.md, stream.fed)
        && (MeaningOf(r.request.value.algorithm).digest == stream.md.digest <==> stream.md.digest != OTHER)
  {
    if DigestFinal(c, out, e, lib).request.Some? {
      var digest := lib.hash(stream.md, stream.fed);
      SignIgnoresMdCtx(c, out, digest, e);
      hide SignDigest;
      FinishKeepsOk(c, lib);
      SignDigestIsValid(Finish(c), out, digest, e, lib);
      var d := MeaningOf(DigestFinal(c, out, e, lib).request.value.algorithm).digest;
      if stream.md.digest != OTHER {
        LengthTellsDigest(d, stream.md.digest);
      }
    }
  }

  lemma SignIgnoresMdCtx(c: Ctx, out: Buffer, digest: Bytes, e: Env)
    requires c.mdctx.Some? && c.mdctx.value.Hashing?
    ensures SignDigest(Finish(c), out, digest, e) == SignDigest(c, out, digest, e).(ctx := Finish(c))
  {
  }

  /**
   * In every run: finalising a stream that is open does exactly what signing the hash of all the fed data in
   * one go would do, and asks for nothing if it is not open.  The algorithm's digest is the one chosen at the
   * start, unless that was one KMS does not sign with (only then can a later digest parameter of the same length
   * slip in).
   */
  lemma StreamingRefinesOneShot(run: seq<Event>, i: nat, out: Buffer, e: Env, lib: Lib)
    requires ValidRun(State([], []), run, lib) && LibOk(lib) && i < |After(State([], []), run, lib).ctxs|
    requires StreamsAfter([], State([], []), run, lib)[i].Some?
    ensures var c := After(State([], []), run, lib).ctxs[i];
      var stream := StreamsAfter([], State([], []), run, lib)[i].value;
      var r := Apply(c, FinalOp(out), e, lib);
      && (IsOpen(c) && e.digestFinals && c.key.Some? ==>
            var once := Apply(c, SignOp(out, lib.hash(stream.md, stream.fed)), e, lib);
            r.ok == once.ok && r.length == once.length && r.request == once.request)
      && (!IsOpen(c) || !e.digestFinals || c.key.None? ==> r.request.None?)
      && (r.request.Some? ==>
            && r.request.value.message == lib.hash(stream.md, stream.fed)
            && (MeaningOf(r.request.value.algorithm).digest == stream.md.digest <==> stream.md.digest != OTHER))
  {
    hide CtxOk, EntryOk, DigestFinal, SignDigest, Holds, Step, StreamStep, MeaningOf, LibOk, IsOpen;
    RunKeepsInv(State([], []), run, lib);
    RunHolds([], State([], []), run, lib);
    var stream := StreamsAfter([], State([], []), run, lib)[i].value;
    FinalSignsStream(After(State([], []), run, lib).ctxs[i], stream, out, e, lib);
    KeyHasSpec(After(State([], []), run, lib).ctxs[i], lib);
    FinalIsOneShot(After(State([], []), run, lib).ctxs[i], stream, out, e, lib);
  }

  lemma KeyHasSpec(c: Ctx, lib: Lib)
    requires CtxOk(c, lib)
    ensures c.key.Some? ==> SpecOf(c).Some?
  {
  }

  /** An open stream is finalised as its hash would be signed; nothing else asks for a signature. */
  lemma FinalIsOneShot(c: Ctx, stream: Stream, out: Buffer, e: Env, lib: Lib)
    requires Holds(c, Some(stream)) && (c.key.Some? ==> SpecOf(c).Some?)
    ensures var r := DigestFinal(c, out, e, lib);
      && (IsOpen(c) && e.digestFinals && c.key.Some? ==>
            var once := SignDigest(c, out, lib.hash(stream.md, stream.fed), e);
            r.ok == once.ok && r.length == once.length && r.request == once.request)
      && (!IsOpen(c) || !e.digestFinals || c.key.None? ==> r.request.None?)
  {
    if IsOpen(c) {
      SignIgnoresMdCtx(c, out, lib.hash(stream.md, stream.fed), e);
    }
    if SpecOf(c).Some? && SizeOnly(c, out).Some? {
      SignSizes(c, out, lib.hash(stream.md, stream.fed), e);
    }
    hide SignDigest, RequiredSize;
  }

  lemma SignSizes(c: Ctx, out: Buffer, digest: Bytes, e: Env)
    requires SpecOf(c).Some? && SizeOnly(c, out).Some?
    ensures SignDigest(c, out, digest, e) == SizeOnly(c, out).value
  {
  }

  /** A failed initialisation keeps the old stream exactly if it fails before the digest context is made anew. */
  lemma FailedInitKeepsStream(c: Ctx, stream: Stream, name: string, key: Option<Key>, params: Option<Params>, e: Env,
        lib: Lib)
    requires Holds(c, Some(stream)) && !DigestInit(c, name, key, params, e, lib).ok
    ensures var o := SignInit(c, key, params, e, lib);
      Holds(DigestInit(c, name, key, params, e, lib).ctx, Some(stream)) <==>
        !o.ok || !Named(o.ctx, name, e).ok || Named(o.ctx, name, e).ctx.md.None?
  {
    InitsLeaveMdCtx(c, name, key, params, e, lib);
    hide SignInit;
  }

  /**
   * An initialisation that fails at the name of the digest has bound the new key already: finalising then
   * signs what was fed before, under the new key.
   */
  lemma OldStreamUnderNewKey(c: Ctx, stream: Stream, name: string, key: Key, params: Option<Params>, e: Env, lib: Lib,
        out: Buffer, e': Env)
    requires CtxOk(c, lib) && LibOk(lib) && Holds(c, Some(stream)) && OpOk(DigestInitOp(name, Some(key), params), e)
    requires SignInit(c, Some(key), params, e, lib).ok && name != "" && e.nameMd.None?
    ensures var r := Apply(c, DigestInitOp(name, Some(key), params), e, lib);
      var request := Apply(r.ctx, FinalOp(out), e', lib).request;
      && !r.ok && r.ctx.key == Some(key) && Holds(r.ctx, Some(stream))
      && (request.Some? ==>
            request.value.message == lib.hash(stream.md, stream.fed) && request.value.keyId == key.keyId)
  {
    hide CtxOk, LibOk, KeyOk, FetchesOk, DigestInit, SignInit, DigestFinal, SignDigest, MeaningOf;
    var r := DigestInit(c, name, Some(key), params, e, lib);
    NewKeyIsBound(c, name, key, params, e, lib);
    InitsLeaveMdCtx(c, name, Some(key), params, e, lib);
    InitsKeepOk(c, name, Some(key), params, e, lib);
    assert Holds(r.ctx, Some(stream));
    FinalSignsStream(r.ctx, stream, out, e', lib);
    FinalAsksItsKey(r.ctx, out, e', lib);
  }

  lemma NewKeyIsBound(c: Ctx, name: string, key: Key, params: Option<Params>, e: Env, lib: Lib)
    requires SignInit(c, Some(key), params, e, lib).ok && name != "" && e.nameMd.None?
    ensures var r := DigestInit(c, name, Some(key), params, e, lib);
      !r.ok && r.ctx.key == Some(key) && r.ctx == SignInit(c, Some(key), params, e, lib).ctx
  {
    hide GetUtf8, PadOf, SaltOf, Reparse;
  }

  lemma FinalAsksItsKey(c: Ctx, out: Buffer, e: Env, lib: Lib)
    ensures var request := DigestFinal(c, out, e, lib).request;
      request.Some? ==> c.key.Some? && request.value.keyId == c.key.value.keyId
  {
    hide RequiredSize, Supported, SigningAlgorithm, UsesPss;
  }

  // ---------------------------------------------------------------- chunks

  function Concat(chunks: seq<Bytes>): Bytes {
    if chunks == [] then [] else chunks[0] + Concat(chunks[1..])
  }

  function Updates(i: nat, chunks: seq<Bytes>, e: Env): (run: seq<Event>)
    ensures |run| == |chunks|
  {
    if chunks == [] then [] else [Run(i, UpdateOp(chunks[0]), e)] + Updates(i, chunks[1..], e)
  }

  lemma OneChunk(streams: seq<Option<Stream>>, s: State, i: nat, chunk: Bytes, e: Env, lib: Lib)
    requires |streams| == |s.ctxs| && i < |streams| && streams[i].Some? && e.digestUpdates
    requires s.ctxs[i].mdctx == Some(Hashing(streams[i].value.md, streams[i].value.fed))
    ensures var ev := Run(i, UpdateOp(chunk), e); var next := Stream(streams[i].value.md, streams[i].value.fed + chunk);
      && StreamStep(streams, s, ev, lib) == streams[i := Some(next)]
      && |Step(s, ev, lib).ctxs| == |s.ctxs|
      && Step(s, ev, lib).ctxs[i].mdctx == Some(Hashing(next.md, next.fed))
  {
  }

  /** Feeding chunks one by one is feeding their concatenation, however it is cut. */
  lemma {:induction false} ChunksAddUp(streams: seq<Option<Stream>>, s: State, i: nat, chunks: seq<Bytes>, e: Env,
        lib: Lib)
    requires |streams| == |s.ctxs| && i < |streams| && streams[i].Some? && e.digestUpdates
    requires s.ctxs[i].mdctx == Some(Hashing(streams[i].value.md, streams[i].value.fed))
    ensures StreamsAfter(streams, s, Updates(i, chunks, e), lib)
         == streams[i := Some(Stream(streams[i].value.md, streams[i].value.fed + Concat(chunks)))]
    decreases |chunks|
  {
    hide Step, StreamStep, Apply;
    var stream := streams[i].value;
    if chunks == [] {
      assert stream.fed + [] == stream.fed;
    } else {
      var run := Updates(i, chunks, e);
      var first := Run(i, UpdateOp(chunks[0]), e);
      assert run[0] == first && run[1..] == Updates(i, chunks[1..], e);
      OneChunk(streams, s, i, chunks[0], e, lib);
      var next := StreamStep(streams, s, first, lib);
      ChunksAddUp(next, Step(s, first, lib), i, chunks[1..], e, lib);
      assert (stream.fed + chunks[0]) + Concat(chunks[1..]) == stream.fed + Concat(chunks);
    }
  }

  // ---------------------------------------------------------------- how often a stream is signed

  /** The event finalises context i and asks KMS for a signature. */
  ghost predicate Signs(s: State, ev: Event, i: nat, lib: Lib) {
    ev.Run? && ev.i == i && ev.op.FinalOp? && |Step(s, ev, lib).log| > |s.log|
  }

  /** The event starts a new stream in context i. */
  ghost predicate Restarts(s: State, ev: Event, i: nat, lib: Lib) {
    ev.Run? && ev.i == i && i < |s.ctxs| && ev.op.DigestInitOp? && Apply(s.ctxs[i], ev.op, ev.e, lib).ok
  }

  /** Context i has a stream that is not finalised. */
  predicate IsOpen(c: Ctx) {
    c.mdctx.Some? && c.mdctx.value.Hashing?
  }

  function OpenAt(ctxs: seq<Ctx>, i: nat): nat {
    if i < |ctxs| && IsOpen(ctxs[i]) then 1 else 0
  }

  /** The logged requests of a run that come from finalising context i. */
  ghost function Signatures(s: State, run: seq<Event>, i: nat, lib: Lib): nat
    decreases |run|
  {
    if run == [] then 0
    else (if Signs(s, run[0], i, lib) then 1 else 0) + Signatures(Step(s, run[0], lib), run[1..], i, lib)
  }

  ghost predicate NeverRestarts(s: State, run: seq<Event>, i: nat, lib: Lib)
    decreases |run|
  {
    run == [] || (!Restarts(s, run[0], i, lib) && NeverRestarts(Step(s, run[0], lib), run[1..], i, lib))
  }

  /** Only a successful initialisation opens a stream, and a finalisation that signs closes one. */
  lemma OneStream(c: Ctx, op: Op, e: Env, lib: Lib)
    ensures var r := Apply(c, op, e, lib);
      && (IsOpen(r.ctx) ==> IsOpen(c) || (op.DigestInitOp? && r.ok))
      && (op.FinalOp? && r.request.Some? ==> IsOpen(c) && !IsOpen(r.ctx))
  {
    hide SetParams, SignInit, DigestInit, OneshotInit, SignDigest, OneshotSign, SizeOnly;
    match op
    case SetParamsOp(params) => InitsLeaveMdCtx(c, "", None, params, e, lib);
    case SignInitOp(key, params) => InitsLeaveMdCtx(c, "", key, params, e, lib);
    case DigestInitOp(name, key, params) => FailedInitOpensNothing(c, name, key, params, e, lib);
    case OneshotInitOp(name, key, params) => InitsLeaveMdCtx(c, name, key, params, e, lib);
    case UpdateOp(data) =>
    case FinalOp(out) => FinalCloses(c, out, e, lib);
    case _ => SigningLeavesStream(c, op, e, lib);
  }

  lemma FailedInitOpensNothing(c: Ctx, name: string, key: Option<Key>, params: Option<Params>, e: Env, lib: Lib)
    ensures var r := DigestInit(c, name, key, params, e, lib); r.ok || !IsOpen(r.ctx) || IsOpen(c)
  {
    InitsLeaveMdCtx(c, name, key, params, e, lib);
    hide SignInit;
  }

  lemma FinalCloses(c: Ctx, out: Buffer, e: Env, lib: Lib)
    ensures var r := DigestFinal(c, out, e, lib);
      (IsOpen(r.ctx) ==> IsOpen(c)) && (r.request.Some? ==> IsOpen(c) && !IsOpen(r.ctx))
  {
    hide Supported, SigningAlgorithm, UsesPss;
  }

  lemma StepClosesStream(s: State, ev: Event, i: nat, lib: Lib)
    requires i < |s.ctxs| && !Restarts(s, ev, i, lib)
    ensures i < |Step(s, ev, lib).ctxs|
    ensures (if Signs(s, ev, i, lib) then 1 else 0) + OpenAt(Step(s, ev, lib).ctxs, i) <= OpenAt(s.ctxs, i)
  {
    hide Apply;
    if ev.Run? && ev.i == i {
      OneStream(s.ctxs[i], ev.op, ev.e, lib);
    }
  }

  /**
   * Between two initialisations a context signs its stream at most once: over any run in which context i
   * is not initialised again, at most one logged request comes from finalising it, and none if its stream
   * was finalised already.
   */
  lemma {:induction false} StreamIsSignedOnce(s: State, run: seq<Event>, i: nat, lib: Lib)
    requires i < |s.ctxs| && NeverRestarts(s, run, i, lib)
    ensures Signatures(s, run, i, lib) <= OpenAt(s.ctxs, i)
    decreases |run|
  {
    hide Step, Restarts, Signs;
    if run != [] {
      StepClosesStream(s, run[0], i, lib);
      StreamIsSignedOnce(Step(s, run[0], lib), run[1..], i, lib);
    }
  }

  /** A verification finalises the stream too: the context signs no more until it is initialised again. */
  lemma VerifiedSignsNoMore(s: State, run: seq<Event>, i: nat, e: Env, lib: Lib)
    requires i < |s.ctxs| && e.digestFinals
    requires var t := Step(s, Run(i, VerifyFinalOp, e), lib); NeverRestarts(t, run, i, lib)
    ensures Signatures(Step(s, Run(i, VerifyFinalOp, e), lib), run, i, lib) == 0
  {
    var t := Step(s, Run(i, VerifyFinalOp, e), lib);
    StreamIsSignedOnce(t, run, i, lib);
    assert !IsOpen(t.ctxs[i]);
  }

  /** A duplicate holds the stream too, so the copy signs it once more, with the very same request. */
  lemma CopySignsOnceMore(s: State, i: nat, out: Buffer, e: Env, lib: Lib)
    requires i < |s.ctxs| && CtxOk(s.ctxs[i], lib) && Apply(s.ctxs[i], FinalOp(out), e, lib).request.Some?
    ensures var copy := |s.ctxs|;
      var run := [Duplicate(i, true), Run(i, FinalOp(out), e), Run(copy, FinalOp(out), e)];
      var log := After(s, run, lib).log;
      && |log| == |s.log| + 2 && log[|s.log|] == log[|s.log| + 1]
      && log[|s.log|].request == Apply(s.ctxs[i], FinalOp(out), e, lib).request.value
  {
    NewAndDupOk(s.ctxs[i], false, lib);
    hide Apply, CtxOk;
    var first, second, third := Duplicate(i, true), Run(i, FinalOp(out), e), Run(|s.ctxs|, FinalOp(out), e);
    var s1 := Step(s, first, lib);
    assert s1.ctxs[|s.ctxs|] == s.ctxs[i] == s1.ctxs[i];
    var s2 := Step(s1, second, lib);
    assert s2.ctxs[|s.ctxs|] == s.ctxs[i];
    var s3 := Step(s2, third, lib);
    assert [first, second, third][1..] == [second, third] && [second, third][1..] == [third] && [third][1..] == [];
    assert After(s2, [third], lib) == s3;
    assert After(s1, [second, third], lib) == s3;
  }

  // ---------------------------------------------------------------- the exception

  /**
   * A digest KMS does not know, as long as one it knows, and the digest parameter changed between
   * initialisation and finalisation: the hash of the one is sent as a hash of the other.
   */
  lemma ChangedDigestSlipsIn(key: Key, foreign: Md, known: Md, data: Bytes, out: Buffer, e: Env, lib: Lib)
    requires LibOk(lib) && KeyOk(key) && key.pub.spec.value.family.RSA? && !key.fips
    requires foreign.digest == OTHER && foreign.size == 32 && !foreign.xof
    requires known.digest == SHA256 && !known.xof
    requires e.upRef && e.allocates && e.digestInits && e.digestUpdates && e.digestFinals
    requires e.nameMd == Some(foreign) && e.paramMd == Some(known)
    requires key.pub.pkey.Some? && 0 < key.pub.pkey.value.size <= out.size && out.present && out.hasLength
    ensures var params := Params(Some(Utf8("SHA256")), None, None, None, None, None);
      var c1 := Apply(NewCtx(false), DigestInitOp("SHA3-256", Some(key), None), e, lib).ctx;
      var c2 := Apply(c1, UpdateOp(data), e, lib).ctx;
      var c3 := Apply(c2, SetParamsOp(Some(params)), e, lib).ctx;
      var r := Apply(c3, FinalOp(out), e, lib).request;
      r.Some? && r.value.message == lib.hash(foreign, data) && MeaningOf(r.value.algorithm).digest == SHA256
  {
    var params := Params(Some(Utf8("SHA256")), None, None, None, None, None);
    var c := NewCtx(false).(key := Some(key), md := Some(foreign), digest := OTHER);
    ForeignInit(key, foreign, e, lib);
    hide SetParams, DigestInit, DigestFinal;
    var c2 := c.(mdctx := Some(Hashing(foreign, data)));
    assert [] + data == data;
    assert Apply(c.(mdctx := Some(Hashing(foreign, []))), UpdateOp(data), e, lib).ctx == c2;
    KnownParam(c2, known, e);
    FinalSendsForeign(c2.(md := Some(known), digest := SHA256), key, foreign, data, out, e, lib);
  }

  lemma ForeignInit(key: Key, foreign: Md, e: Env, lib: Lib)
    requires !key.fips && foreign.digest == OTHER && !foreign.xof
    requires e.upRef && e.allocates && e.digestInits && e.nameMd == Some(foreign)
    ensures DigestInit(NewCtx(false), "SHA3-256", Some(key), None, e, lib).ctx
         == NewCtx(false).(key := Some(key), md := Some(foreign), digest := OTHER, mdctx := Some(Hashing(foreign, [])))
  {
  }

  lemma KnownParam(c: Ctx, known: Md, e: Env)
    requires known.digest == SHA256 && !known.xof && e.paramMd == Some(known)
    ensures SetParams(c, Some(Params(Some(Utf8("SHA256")), None, None, None, None, None)), e).ctx
         == c.(md := Some(known), digest := SHA256)
  {
    assert GetUtf8(Utf8("SHA256"), 64) == Some("SHA256");
  }

  lemma FinalSendsForeign(c: Ctx, key: Key, foreign: Md, data: Bytes, out: Buffer, e: Env, lib: Lib)
    requires LibOk(lib) && KeyOk(key) && key.pub.spec.value.family.RSA? && !key.fips && e.digestFinals
    requires key.pub.pkey.Some? && 0 < key.pub.pkey.value.size <= out.size && out.present && out.hasLength
    requires c.key == Some(key) && !c.fips && c.mdctx == Some(Hashing(foreign, data)) && foreign.size == 32
    requires c.digest == SHA256 && c.pad.PKCS1? && c.context == [] && c.instance.None?
    ensures var r := DigestFinal(c, out, e, lib).request;
      r.Some? && r.value.message == lib.hash(foreign, data) && MeaningOf(r.value.algorithm).digest == SHA256
  {
    TableFacts(key.pub.spec.value);
    assert SizeOnly(c, out).None? && SizeOnly(Finish(c), out).None?;
    assert |lib.hash(foreign, data)| == 32;
  }
}
