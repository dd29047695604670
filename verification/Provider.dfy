/**
 * Keys and signatures in one machine: stores, key handles, duplicates and the references of signature contexts
 * (`KeyLifetime`), and what the operations on those contexts do (`SignatureRuns`).  An operation binds the key of
 * a live handle, holds a reference to it, and reads it anew each time, so a demand for FIPS on its store is seen.
 */
module Provider {
  import opened Bytes
  import opened KeySpec
  import opened PublicKey
  import opened Signature
  import opened KeyManagement
  import L = KeyLifetime
  import R = SignatureRuns

  // ---------------------------------------------------------------- the keys that are handed out

  ghost predicate SoundCell(w: L.World, id: nat)
    requires id < |w.cells|
  {
    w.cells[id].key.pub.spec.Some? ==> R.KeyOk(w.cells[id].key)
  }

  /** The key of a handle, or the one a signature context is bound to. */
  function KeyIdOf(h: L.Holder): Option<nat> {
    if h.Store? then None else L.RefOf(h)
  }

  /** A key that has left its store has a spec. */
  ghost predicate Published(w: L.World, h: L.Holder) {
    KeyIdOf(h).Some? ==> KeyIdOf(h).value < |w.cells| && w.cells[KeyIdOf(h).value].key.pub.spec.Some?
  }

  ghost predicate Sound(w: L.World) {
    && (forall id :: 0 <= id < |w.cells| ==> SoundCell(w, id))
    && (forall i :: 0 <= i < |w.holders| ==> Published(w, w.holders[i]))
  }

  lemma LoadedIsSound(key: Key, known: bool, der: Bytes, spec: Option<Spec>, o: Answers, lib: Lib)
    requires R.LibOk(lib) && (key.pub.spec.Some? ==> R.KeyOk(key)) && (spec.Some? ==> Known(spec.value))
    ensures var pub := L.LoadedPub(key, known, der, spec, o, lib.shake);
      pub.Some? ==> pub.value.spec.Some? && R.KeyOk(key.(pub := pub.value))
  {
  }

  lemma BuiltIsSound(key: Key, sel: Selection, d: DupEnv)
    requires R.KeyOk(key)
    ensures DupPlan(key, sel, d).Build? ==> R.KeyOk(DupPlan(key, sel, d).key)
  {
  }

  lemma StepKeepsCells(w: L.World, ev: L.Event, lib: Lib)
    requires L.Conserved(w) && L.ValidEvent(w, ev) && Sound(w) && R.LibOk(lib)
    ensures forall id :: 0 <= id < |L.Step(w, ev, lib).cells| ==> SoundCell(L.Step(w, ev, lib), id)
  {
    var w' := L.Step(w, ev, lib);
    forall id | 0 <= id < |w'.cells|
      ensures SoundCell(w', id)
    {
      assert id < |w.cells| ==> SoundCell(w, id);
      CellStaysSound(w, ev, lib, id);
    }
  }

  lemma CellStaysSound(w: L.World, ev: L.Event, lib: Lib, id: nat)
    requires L.Conserved(w) && L.ValidEvent(w, ev) && Sound(w) && R.LibOk(lib) && id < |L.Step(w, ev, lib).cells|
    ensures SoundCell(L.Step(w, ev, lib), id)
  {
    hide L.CellOk, R.LibOk, L.Step, DupPlan, L.LoadedPub;
    if id >= |w.cells| {
      L.NewKeys(w, ev, lib, id);
      if ev.DupKey? {
        assert L.RefOf(w.holders[ev.i]) == Some(w.holders[ev.i].id) && Published(w, w.holders[ev.i]);
        assert SoundCell(w, w.holders[ev.i].id);
        BuiltIsSound(w.cells[w.holders[ev.i].id].key, ev.sel, ev.d);
      }
    } else {
      assert SoundCell(w, id);
      if ev.Load? || ev.SetStoreParams? {
        L.StoreKeys(w, ev, lib, id);
        if ev.Load? {
          LoadedIsSound(w.cells[id].key, ev.known, ev.der, ev.spec, ev.o, lib);
        }
      } else {
        L.KeyEvolves(w, ev, lib, id);
      }
    }
  }

  /** A holder of the next state was there before, or has just been handed a key. */
  lemma NextHolder(w: L.World, ev: L.Event, lib: Lib, k: nat)
    requires L.Conserved(w) && L.ValidEvent(w, ev) && k < |L.Step(w, ev, lib).holders|
    ensures var w' := L.Step(w, ev, lib); var h := w'.holders[k];
      || KeyIdOf(h).None?
      || (exists j :: 0 <= j < |w.holders| && KeyIdOf(w.holders[j]) == KeyIdOf(h))
      || (ev.Load? && h == L.Handle(w.holders[ev.i].id) && h.id < |w'.cells|
          && L.LoadedPub(w.cells[h.id].key, ev.known, ev.der, ev.spec, ev.o, lib.shake) == Some(w'.cells[h.id].key.pub))
      || (ev.DupKey? && h == L.Handle(|w.cells|) && h.id < |w'.cells|
          && DupPlan(w.cells[w.holders[ev.i].id].key, ev.sel, ev.d) == Build(w'.cells[h.id].key))
  {
    hide L.CellOk, Reparse, L.LoadedPub, DupPlan;
    var w' := L.Step(w, ev, lib);
    assert k < |w.holders| ==> KeyIdOf(w.holders[k]) == KeyIdOf(w.holders[k]);
    match ev
    case DupKey(i, sel, dup) => assert KeyIdOf(w.holders[i]) == Some(w.holders[i].id);
    case Bind(i, j, e) => assert KeyIdOf(w.holders[j]) == Some(w.holders[j].id);
    case DupSig(i, works) => assert KeyIdOf(w.holders[i]) == KeyIdOf(w.holders[i]);
    case Load(i, known, der, spec, o, taken) => assert L.RefOf(w.holders[i]) == Some(w.holders[i].id);
    case _ =>
  }

  lemma StepKeepsPublished(w: L.World, ev: L.Event, lib: Lib, k: nat)
    requires L.Conserved(w) && L.ValidEvent(w, ev) && Sound(w) && R.LibOk(lib)
    requires k < |L.Step(w, ev, lib).holders|
    ensures Published(L.Step(w, ev, lib), L.Step(w, ev, lib).holders[k])
  {
    hide L.CellOk, L.Step, L.LoadedPub, DupPlan, SoundCell, R.LibOk;
    var w' := L.Step(w, ev, lib);
    var h := w'.holders[k];
    NextHolder(w, ev, lib, k);
    if KeyIdOf(h).None? {
    } else if j :| 0 <= j < |w.holders| && KeyIdOf(w.holders[j]) == KeyIdOf(h) {
      assert Published(w, w.holders[j]);
      L.KeyEvolves(w, ev, lib, KeyIdOf(h).value);
    } else if ev.Load? {
      LoadedHasSpec(w.cells[h.id].key, ev.known, ev.der, ev.spec, ev.o, lib);
    } else {
      BuiltHasSpec(w.cells[w.holders[ev.i].id].key, ev.sel, ev.d);
    }
  }

  lemma LoadedHasSpec(key: Key, known: bool, der: Bytes, spec: Option<Spec>, o: Answers, lib: Lib)
    ensures var pub := L.LoadedPub(key, known, der, spec, o, lib.shake); pub.Some? ==> pub.value.spec.Some?
  {
  }

  lemma BuiltHasSpec(key: Key, sel: Selection, d: DupEnv)
    ensures DupPlan(key, sel, d).Build? ==> DupPlan(key, sel, d).key.pub.spec.Some?
  {
  }

  lemma StepKeepsSound(w: L.World, ev: L.Event, lib: Lib)
    requires L.Conserved(w) && L.ValidEvent(w, ev) && Sound(w) && R.LibOk(lib)
    ensures Sound(L.Step(w, ev, lib))
  {
    hide SoundCell, Published, L.Step, L.CellOk;
    StepKeepsCells(w, ev, lib);
    forall k | 0 <= k < |L.Step(w, ev, lib).holders|
      ensures Published(L.Step(w, ev, lib), L.Step(w, ev, lib).holders[k])
    {
      StepKeepsPublished(w, ev, lib, k);
    }
  }

  /** The key of a live handle is one the signatures can work with. */
  lemma HandleIsSound(w: L.World, j: nat)
    requires Sound(w) && j < |w.holders| && w.holders[j].Handle?
    ensures w.holders[j].id < |w.cells| && R.KeyOk(w.cells[w.holders[j].id].key)
  {
    assert Published(w, w.holders[j]);
    assert SoundCell(w, w.holders[j].id);
  }

  // ---------------------------------------------------------------- one machine

  /** `ctxs[i]` is what holder `i`, if it is a signature context, has besides its key and its own view. */
  datatype State = State(keys: L.World, ctxs: seq<Ctx>, log: seq<R.Entry>)

  const BEGIN := State(L.NOBODY, [], [])

  /** An event of the keys, or an operation of context `i`; `j` is the handle whose key it binds, if any. */
  datatype Event = Keys(k: L.Event) | Sign(i: nat, op: R.Op, j: nat, e: Env)

  ghost predicate Core(s: State) {
    L.Conserved(s.keys) && |s.ctxs| == |s.keys.holders|
  }

  /** The key a holder is bound to, as it is now. */
  function BoundKey(w: L.World, h: L.Holder): Option<Key> {
    if h.Sig? && h.bound.Some? && h.bound.value < |w.cells| then Some(w.cells[h.bound.value].key) else None
  }

  /** The context as an operation finds it. */
  function Look(s: State, i: nat): Ctx
    requires i < |s.ctxs| == |s.keys.holders| && s.keys.holders[i].Sig?
  {
    var h := s.keys.holders[i];
    s.ctxs[i].(key := BoundKey(s.keys, h), fips := h.fips, fipsPub := h.fipsPub)
  }

  /** The operation binds no key, or the key of handle `j` as it is now. */
  ghost predicate BindsHandle(w: L.World, op: R.Op, j: nat) {
    R.KeyOfOp(op).Some? ==>
      && j < |w.holders| && w.holders[j].Handle? && w.holders[j].id < |w.cells|
      && R.KeyOfOp(op).value == w.cells[w.holders[j].id].key
  }

  /** A context gets a key from an operation only. */
  ghost predicate ValidEvent(s: State, ev: Event) {
    match ev
    case Keys(k) => L.ValidEvent(s.keys, k) && !k.Bind?
    case Sign(i, op, j, e) =>
      i < |s.keys.holders| && s.keys.holders[i].Sig? && R.FetchesOk(e) && BindsHandle(s.keys, op, j)
  }

  /** What the event does to references and keys, if anything. */
  function KeyEvent(ev: Event): Option<L.Event> {
    match ev
    case Keys(k) => Some(k)
    case Sign(i, op, j, e) => if R.KeyOfOp(op).Some? then Some(L.Bind(i, j, e)) else None
  }

  ghost function NextWorld(s: State, ev: Event, lib: Lib): L.World
    requires Core(s) && ValidEvent(s, ev)
  {
    if KeyEvent(ev).Some? then L.Step(s.keys, KeyEvent(ev).value, lib) else s.keys
  }

  /** The rest of a new holder. */
  function Fresh(s: State, k: L.Event): Ctx
    requires |s.ctxs| == |s.keys.holders|
  {
    if k.NewSig? then NewCtx(k.fips)
    else if k.DupSig? && k.i < |s.ctxs| && s.keys.holders[k.i].Sig? then Dup(Look(s, k.i))
    else NewCtx(false)
  }

  ghost function Step(s: State, ev: Event, lib: Lib): State
    requires Core(s) && ValidEvent(s, ev)
  {
    var w := NextWorld(s, ev, lib);
    match ev
    case Keys(k) => s.(keys := w, ctxs := if |w.holders| > |s.ctxs| then s.ctxs + [Fresh(s, k)] else s.ctxs)
    case Sign(i, op, j, e) =>
      var r := R.Apply(Look(s, i), op, e, lib);
      State(w, s.ctxs[i := r.ctx], s.log + if r.request.Some? then [R.Entry(r.ctx, r.request.value)] else [])
  }

  /** Holders are only ever added, one at a time; the others stay what they are, or let go. */
  lemma HoldersStay(w: L.World, k: L.Event, lib: Lib)
    requires L.Conserved(w) && L.ValidEvent(w, k)
    ensures var w' := L.Step(w, k, lib);
      && |w.holders| <= |w'.holders| <= |w.holders| + 1
      && (k.Bind? ==> |w'.holders| == |w.holders|)
      && (forall i :: 0 <= i < |w.holders| && w'.holders[i].Sig? && !(k.Bind? && k.i == i) ==>
            w'.holders[i] == w.holders[i])
      && (forall i :: |w.holders| <= i < |w'.holders| && w'.holders[i].Sig? ==>
            (k.NewSig? && w'.holders[i] == L.Sig(None, k.fips, EMPTY))
            || (k.DupSig? && w'.holders[i] == w.holders[k.i]))
  {
    hide L.CellOk, Reparse, DupPlan, L.LoadedPub;
  }

  lemma StepKeepsCore(s: State, ev: Event, lib: Lib)
    requires Core(s) && ValidEvent(s, ev)
    ensures Core(Step(s, ev, lib))
  {
    hide L.Conserved, L.Step, R.Apply, R.FetchesOk, L.ValidEvent;
    if KeyEvent(ev).Some? {
      BindIsValid(s, ev);
      L.StepConserves(s.keys, KeyEvent(ev).value, lib);
      HoldersStay(s.keys, KeyEvent(ev).value, lib);
    }
  }

  lemma BindIsValid(s: State, ev: Event)
    requires ValidEvent(s, ev) && KeyEvent(ev).Some?
    ensures L.ValidEvent(s.keys, KeyEvent(ev).value)
  {
  }

  // ---------------------------------------------------------------- operations and references agree

  /** Every operation leaves the context with the key and the view that binding leaves it with. */
  lemma OperationBinds(c: Ctx, op: R.Op, e: Env, lib: Lib)
    ensures var d, b := R.Apply(c, op, e, lib).ctx, BindKey(c, R.KeyOfOp(op), e, lib).ctx;
      d.key == b.key && d.fips == b.fips && d.fipsPub == b.fipsPub
  {
    hide GetUtf8, PadOf, SaltOf, Reparse, SignDigest, OneshotSign, Supported, SizeOnly, SetParams;
    match op
    case SetParamsOp(params) => ParamsLeaveKey(c, params, e);
    case SignInitOp(key, params) => ParamsLeaveKey(BindKey(c, key, e, lib).ctx, params, e);
    case DigestInitOp(_, key, params) => ParamsLeaveKey(BindKey(c, key, e, lib).ctx, params, e);
    case OneshotInitOp(_, key, params) => ParamsLeaveKey(BindKey(c, key, e, lib).ctx, params, e);
    case SignOp(out, digest) => SigningLeavesKey(c, out, digest, [], e, lib);
    case UpdateOp(_) =>
    case FinalOp(out) =>
      if CanFinish(c, e) {
        SigningLeavesKey(Finish(c), out, lib.hash(c.mdctx.value.md, c.mdctx.value.data), [], e, lib);
      }
      SizesLeaveKey(c, out);
    case VerifyFinalOp =>
    case OneshotSignOp(out, msg) => SigningLeavesKey(c, out, [], msg, e, lib);
  }

  lemma ParamsLeaveKey(c: Ctx, params: Option<Params>, e: Env)
    ensures SameKeyPart(c, SetParams(c, params, e).ctx)
  {
    hide ApplyDigest, ApplyPad, ApplySalt, ApplyContext, ApplyInstance;
    if params.Some? {
      var p := params.value;
      EachLeavesKey(c, p, e);
      var c1 := ApplyDigest(c, p.digest, e).ctx;
      EachLeavesKey(c1, p, e);
      var c2 := ApplyPad(c1, p.pad).ctx;
      EachLeavesKey(c2, p, e);
      var c3 := ApplySalt(c2, p.salt).ctx;
      EachLeavesKey(c3, p, e);
      EachLeavesKey(ApplyContext(c3, p.context).ctx, p, e);
    }
  }

  predicate SameKeyPart(c: Ctx, d: Ctx) {
    d.key == c.key && d.fips == c.fips && d.fipsPub == c.fipsPub
  }

  lemma EachLeavesKey(c: Ctx, p: Params, e: Env)
    ensures SameKeyPart(c, ApplyDigest(c, p.digest, e).ctx) && SameKeyPart(c, ApplyPad(c, p.pad).ctx)
    ensures SameKeyPart(c, ApplySalt(c, p.salt).ctx) && SameKeyPart(c, ApplyContext(c, p.context).ctx)
    ensures SameKeyPart(c, ApplyInstance(c, p.instance).ctx)
  {
    hide GetUtf8, PadOf, SaltOf;
  }

  lemma SizesLeaveKey(c: Ctx, out: Buffer)
    ensures SizeOnly(c, out).Some? ==> SizeOnly(c, out).value.ctx == c
  {
  }

  lemma SigningLeavesKey(c: Ctx, out: Buffer, digest: Bytes, msg: Bytes, e: Env, lib: Lib)
    ensures SignDigest(c, out, digest, e).ctx == c && OneshotSign(c, out, msg, e, lib).ctx == c
  {
    hide RequiredSize, Supported, SigningAlgorithm, MuOf;
  }

  /** Binding the references is binding the key. */
  lemma BindAgrees(w: L.World, i: nat, j: nat, e: Env, lib: Lib, c: Ctx)
    requires L.Conserved(w) && L.ValidEvent(w, L.Bind(i, j, e)) && w.holders[j].id < |w.cells|
    requires c.key == BoundKey(w, w.holders[i]) && c.fips == w.holders[i].fips && c.fipsPub == w.holders[i].fipsPub
    ensures var w' := L.Step(w, L.Bind(i, j, e), lib);
      var b := BindKey(c, Some(w.cells[w.holders[j].id].key), e, lib).ctx;
      && |w'.holders| == |w.holders| && w'.holders[i].Sig?
      && b.key == BoundKey(w', w'.holders[i]) && b.fips == w'.holders[i].fips && b.fipsPub == w'.holders[i].fipsPub
  {
    hide L.CellOk, Reparse;
    assert L.RefOf(w.holders[i]) == w.holders[i].bound;
  }

  /** What an operation leaves behind is what the next one finds. */
  lemma NextLook(s: State, ev: Event, lib: Lib)
    requires Core(s) && ValidEvent(s, ev) && ev.Sign?
    ensures Core(Step(s, ev, lib)) && Step(s, ev, lib).keys.holders[ev.i].Sig?
    ensures Look(Step(s, ev, lib), ev.i) == R.Apply(Look(s, ev.i), ev.op, ev.e, lib).ctx
  {
    StepKeepsCore(s, ev, lib);
    hide L.CellOk, L.Conserved, L.Step, R.Apply, R.FetchesOk, BindKey;
    OperationBinds(Look(s, ev.i), ev.op, ev.e, lib);
    if KeyEvent(ev).Some? {
      BindIsValid(s, ev);
      BindAgrees(s.keys, ev.i, ev.j, ev.e, lib, Look(s, ev.i));
    } else {
      NothingBound(Look(s, ev.i), ev.e, lib);
    }
  }

  lemma NothingBound(c: Ctx, e: Env, lib: Lib)
    ensures BindKey(c, None, e, lib).ctx == c
  {
  }

  // ---------------------------------------------------------------- what every run keeps

  ghost predicate CtxSound(s: State, i: nat, lib: Lib)
    requires |s.ctxs| == |s.keys.holders| && i < |s.ctxs|
  {
    s.keys.holders[i].Sig? ==> R.CtxOk(Look(s, i), lib)
  }

  ghost predicate Inv(s: State, late: set<nat>, lib: Lib) {
    && Core(s) && L.LateInv(s.keys, late) && Sound(s.keys)
    && (forall i :: 0 <= i < |s.ctxs| ==> CtxSound(s, i, lib))
    && (forall k :: 0 <= k < |s.log| ==> R.EntryOk(s.log[k]))
  }

  ghost function NextLate(late: set<nat>, s: State, ev: Event): set<nat>
    requires Core(s) && ValidEvent(s, ev)
  {
    if ev.Keys? then L.NextLate(late, s.keys, ev.k) else late
  }

  /** A key may get a stricter policy under a context that is bound to it. */
  lemma KeyMayTighten(c: Ctx, d: Ctx, lib: Lib)
    requires R.CtxOk(c, lib) && c.key.Some? && d.key.Some? && R.KeyOk(d.key.value)
    requires d == c.(key := d.key) && d.key.value.pub == c.key.value.pub && (c.key.value.fips ==> d.key.value.fips)
    ensures R.CtxOk(d, lib)
  {
  }

  /** A context that no operation touches stays sound, whatever happens to its key. */
  lemma IdleStaysSound(s: State, ev: Event, late: set<nat>, lib: Lib, i: nat)
    requires Inv(s, late, lib) && ValidEvent(s, ev) && KeyEvent(ev).Some?
    requires i < |s.ctxs| && Core(Step(s, ev, lib)) && Sound(NextWorld(s, ev, lib))
    requires i < |Step(s, ev, lib).ctxs| && Step(s, ev, lib).ctxs[i] == s.ctxs[i]
    requires var h := NextWorld(s, ev, lib).holders[i]; h.Sig? && h == s.keys.holders[i]
    ensures CtxSound(Step(s, ev, lib), i, lib)
  {
    hide L.CellOk, L.Step, L.LateInv, R.CtxOk, R.Apply, R.EntryOk, SoundCell, Fresh, R.FetchesOk;
    var s' := Step(s, ev, lib);
    var h := s.keys.holders[i];
    assert CtxSound(s, i, lib);
    if h.bound.Some? {
      assert L.RefOf(h) == h.bound && KeyIdOf(h) == h.bound;
      assert Published(s.keys, h) && Published(s'.keys, s'.keys.holders[i]);
      BindIsValid(s, ev);
      L.KeyEvolves(s.keys, KeyEvent(ev).value, lib, h.bound.value);
      assert SoundCell(s'.keys, h.bound.value);
      SpecMakesSound(s'.keys, h.bound.value);
      KeyMayTighten(Look(s, i), Look(s', i), lib);
    }
  }

  lemma SpecMakesSound(w: L.World, id: nat)
    requires id < |w.cells| && SoundCell(w, id) && w.cells[id].key.pub.spec.Some?
    ensures R.KeyOk(w.cells[id].key)
  {
  }

  lemma FreshIsSound(s: State, k: L.Event, late: set<nat>, lib: Lib, i: nat)
    requires Inv(s, late, lib) && ValidEvent(s, Keys(k)) && Core(Step(s, Keys(k), lib))
    requires |s.ctxs| <= i < |Step(s, Keys(k), lib).ctxs|
    ensures CtxSound(Step(s, Keys(k), lib), i, lib)
  {
    hide L.CellOk, L.Step, L.LateInv, Sound, R.CtxOk, R.EntryOk, NewCtx, Dup;
    var s' := Step(s, Keys(k), lib);
    HoldersStay(s.keys, k, lib);
    var h := s'.keys.holders[i];
    if h.Sig? && k.NewSig? {
      NewLook(k.fips);
      R.NewIsOk(k.fips, lib);
      assert Look(s', i) == NewCtx(k.fips);
    } else if h.Sig? {
      assert L.RefOf(s.keys.holders[k.i]) == h.bound && s.keys.holders[k.i] == h;
      assert CtxSound(s, k.i, lib);
      R.NewAndDupOk(Look(s, k.i), false, lib);
      if h.bound.Some? {
        L.KeyEvolves(s.keys, k, lib, h.bound.value);
      }
      assert Look(s', i) == Look(s, k.i);
    }
  }

  lemma NewLook(fips: bool)
    ensures var c := NewCtx(fips); c.key == None && c.fips == fips && c.fipsPub == EMPTY
  {
  }

  lemma KeysKeepCtxs(s: State, k: L.Event, late: set<nat>, lib: Lib, i: nat)
    requires Inv(s, late, lib) && ValidEvent(s, Keys(k)) && Core(Step(s, Keys(k), lib))
    requires Sound(NextWorld(s, Keys(k), lib)) && i < |Step(s, Keys(k), lib).ctxs|
    ensures CtxSound(Step(s, Keys(k), lib), i, lib)
  {
    hide L.CellOk, L.Step, L.LateInv, Sound, R.CtxOk, R.EntryOk, Fresh, Look;
    HoldersStay(s.keys, k, lib);
    if i >= |s.ctxs| {
      FreshIsSound(s, k, late, lib, i);
    } else if Step(s, Keys(k), lib).keys.holders[i].Sig? {
      IdleStaysSound(s, Keys(k), late, lib, i);
    }
  }

  lemma OperationIsSound(s: State, ev: Event, late: set<nat>, lib: Lib)
    requires Inv(s, late, lib) && ValidEvent(s, ev) && ev.Sign? && R.LibOk(lib)
    ensures var r := R.Apply(Look(s, ev.i), ev.op, ev.e, lib);
      R.CtxOk(r.ctx, lib) && (r.request.Some? ==> R.EntryOk(R.Entry(r.ctx, r.request.value)))
  {
    hide L.CellOk, L.LateInv, Sound, R.CtxOk, R.EntryOk, R.Apply, R.LibOk, R.FetchesOk, R.KeyOk;
    assert CtxSound(s, ev.i, lib);
    if R.KeyOfOp(ev.op).Some? {
      HandleIsSound(s.keys, ev.j);
    }
    R.RunKeepsOk(Look(s, ev.i), ev.op, ev.e, lib);
  }

  lemma SignKeepsCtxs(s: State, ev: Event, late: set<nat>, lib: Lib, i: nat)
    requires Inv(s, late, lib) && ValidEvent(s, ev) && ev.Sign? && R.LibOk(lib) && Core(Step(s, ev, lib))
    requires Sound(NextWorld(s, ev, lib)) && i < |Step(s, ev, lib).ctxs|
    ensures CtxSound(Step(s, ev, lib), i, lib)
  {
    hide L.CellOk, L.Step, L.LateInv, Sound, R.CtxOk, R.EntryOk, R.Apply, R.FetchesOk;
    if i == ev.i {
      NextLook(s, ev, lib);
      OperationIsSound(s, ev, late, lib);
    } else if KeyEvent(ev).Some? {
      BindIsValid(s, ev);
      HoldersStay(s.keys, KeyEvent(ev).value, lib);
      if Step(s, ev, lib).keys.holders[i].Sig? {
        IdleStaysSound(s, ev, late, lib, i);
      }
    } else {
      assert CtxSound(s, i, lib);
    }
  }

  lemma WorldKeepsInv(s: State, ev: Event, late: set<nat>, lib: Lib)
    requires Core(s) && L.LateInv(s.keys, late) && Sound(s.keys) && ValidEvent(s, ev) && R.LibOk(lib)
    ensures L.LateInv(NextWorld(s, ev, lib), NextLate(late, s, ev)) && Sound(NextWorld(s, ev, lib))
  {
    hide L.CellOk, L.Step, L.LateInv, Sound, R.LibOk, R.FetchesOk, L.Timely;
    if KeyEvent(ev).Some? {
      BindIsValid(s, ev);
      L.StepKeepsLate(s.keys, late, KeyEvent(ev).value, lib);
      StepKeepsSound(s.keys, KeyEvent(ev).value, lib);
    }
  }

  lemma StepKeepsInv(s: State, late: set<nat>, ev: Event, lib: Lib)
    requires Inv(s, late, lib) && ValidEvent(s, ev) && R.LibOk(lib)
    ensures Inv(Step(s, ev, lib), NextLate(late, s, ev), lib)
  {
    hide L.CellOk, L.Step, L.LateInv, Sound, CtxSound, R.EntryOk, R.Apply, R.LibOk, R.FetchesOk, NextLate;
    StepKeepsCore(s, ev, lib);
    WorldKeepsInv(s, ev, late, lib);
    var s' := Step(s, ev, lib);
    forall i | 0 <= i < |s'.ctxs|
      ensures CtxSound(s', i, lib)
    {
      if ev.Keys? {
        KeysKeepCtxs(s, ev.k, late, lib, i);
      } else {
        SignKeepsCtxs(s, ev, late, lib, i);
      }
    }
    if ev.Sign? {
      OperationIsSound(s, ev, late, lib);
    }
  }

  ghost predicate ValidRun(s: State, run: seq<Event>, lib: Lib)
    requires Core(s)
    decreases |run|
  {
    run == [] ||
      (ValidEvent(s, run[0]) && (StepKeepsCore(s, run[0], lib); ValidRun(Step(s, run[0], lib), run[1..], lib)))
  }

  ghost function After(s: State, run: seq<Event>, lib: Lib): State
    requires Core(s) && ValidRun(s, run, lib)
    decreases |run|
  {
    if run == [] then s
    else
      StepKeepsCore(s, run[0], lib);
      After(Step(s, run[0], lib), run[1..], lib)
  }

  /** The keys hit by a late demand over the run, as in `KeyLifetime`. */
  ghost function LateKeys(late: set<nat>, s: State, run: seq<Event>, lib: Lib): set<nat>
    requires Core(s) && ValidRun(s, run, lib)
    decreases |run|
  {
    if run == [] then late
    else
      StepKeepsCore(s, run[0], lib);
      LateKeys(NextLate(late, s, run[0]), Step(s, run[0], lib), run[1..], lib)
  }

  lemma {:induction false} RunKeepsInv(s: State, late: set<nat>, run: seq<Event>, lib: Lib)
    requires Inv(s, late, lib) && R.LibOk(lib) && ValidRun(s, run, lib)
    ensures Inv(After(s, run, lib), LateKeys(late, s, run, lib), lib)
    decreases |run|
  {
    hide L.LateInv, Sound, CtxSound, R.EntryOk, R.LibOk, Step, ValidEvent, NextLate;
    if run != [] {
      StepKeepsCore(s, run[0], lib);
      StepKeepsInv(s, late, run[0], lib);
      RunKeepsInv(Step(s, run[0], lib), NextLate(late, s, run[0]), run[1..], lib);
    }
  }

  // ---------------------------------------------------------------- main results

  /** After any run, the key of a live handle has a spec of the table and, if any, a tr of 64 bytes. */
  lemma HandlesAreSound(run: seq<Event>, lib: Lib, j: nat)
    requires R.LibOk(lib) && ValidRun(BEGIN, run, lib)
    requires j < |After(BEGIN, run, lib).keys.holders| && After(BEGIN, run, lib).keys.holders[j].Handle?
    ensures var w := After(BEGIN, run, lib).keys;
      && w.holders[j].id < |w.cells| && !w.cells[w.holders[j].id].released
      && R.KeyOk(w.cells[w.holders[j].id].key)
  {
    RunKeepsInv(BEGIN, {}, run, lib);
    hide L.CellOk, L.CellLate, R.KeyOk, SoundCell, Published;
    HandleIsSound(After(BEGIN, run, lib).keys, j);
    assert L.RefOf(After(BEGIN, run, lib).keys.holders[j]).Some?;
    L.HeldIsAlive(After(BEGIN, run, lib).keys, j);
  }

  /**
   * Over every run of stores, handles, duplicates and signature contexts, with nothing taken for granted of
   * the keys: each request that reaches KMS is one it can honour as asked.
   */
  lemma RequestsAreValid(run: seq<Event>, lib: Lib, k: nat)
    requires R.LibOk(lib) && ValidRun(BEGIN, run, lib)
    requires k < |After(BEGIN, run, lib).log|
    ensures var entry := After(BEGIN, run, lib).log[k]; R.ValidRequest(entry.ctx, entry.request)
  {
    RunKeepsInv(BEGIN, {}, run, lib);
    hide R.ValidRequest;
    assert R.EntryOk(After(BEGIN, run, lib).log[k]);
  }

  /**
   * In every reachable state: an operation works on a key that is alive, of which its context holds one
   * counted reference, and whatever it asks of KMS names that key and has the FIPS flag its policy has by now.
   */
  lemma OperationsUseLiveKeys(run: seq<Event>, ev: Event, lib: Lib)
    requires R.LibOk(lib) && ValidRun(BEGIN, run, lib) && Core(After(BEGIN, run, lib))
    requires ev.Sign? && ValidEvent(After(BEGIN, run, lib), ev)
    ensures var s := After(BEGIN, run, lib);
      var r := R.Apply(Look(s, ev.i), ev.op, ev.e, lib);
      var w := NextWorld(s, ev, lib);
      && ev.i < |w.holders| && w.holders[ev.i].Sig? && r.ctx.key == BoundKey(w, w.holders[ev.i])
      && (r.request.Some? ==>
            var h := w.holders[ev.i];
            && h.bound.Some? && h.bound.value < |w.cells| && !w.cells[h.bound.value].released
            && w.cells[h.bound.value].refcnt == L.Holding(w.holders, h.bound.value)
            && r.request.value.keyId == w.cells[h.bound.value].key.keyId
            && r.request.value.fips == (h.fips || w.cells[h.bound.value].key.fips))
  {
    RunKeepsInv(BEGIN, {}, run, lib);
    var s, late := After(BEGIN, run, lib), LateKeys({}, BEGIN, run, lib);
    StepKeepsCore(s, ev, lib);
    NextLook(s, ev, lib);
    OperationIsSound(s, ev, late, lib);
    RequestNamesItsKey(s, ev, R.Apply(Look(s, ev.i), ev.op, ev.e, lib), lib);
  }

  lemma RequestNamesItsKey(s: State, ev: Event, r: Signed, lib: Lib)
    requires Core(s) && ValidEvent(s, ev) && ev.Sign? && Core(Step(s, ev, lib))
    requires Step(s, ev, lib).keys.holders[ev.i].Sig? && r.ctx == Look(Step(s, ev, lib), ev.i)
    requires r.request.Some? ==> R.EntryOk(R.Entry(r.ctx, r.request.value))
    ensures var w := NextWorld(s, ev, lib);
      && r.ctx.key == BoundKey(w, w.holders[ev.i])
      && (r.request.Some? ==>
            var h := w.holders[ev.i];
            && h.bound.Some? && h.bound.value < |w.cells| && !w.cells[h.bound.value].released
            && w.cells[h.bound.value].refcnt == L.Holding(w.holders, h.bound.value)
            && r.request.value.keyId == w.cells[h.bound.value].key.keyId
            && r.request.value.fips == (h.fips || w.cells[h.bound.value].key.fips))
  {
    hide L.Step, R.Apply, R.FetchesOk, R.MessageFits, R.SaltHonoured, MeaningOf, InstanceSupported, UsesPss;
    hide L.Holding, RequiredSize;
    var w := NextWorld(s, ev, lib);
    if r.request.Some? {
      L.HeldIsAlive(w, ev.i);
      assert L.CellOk(w, w.holders[ev.i].bound.value);
    }
  }

  /**
   * Over every run: a signature context with a key has a public view, and the one an operation that requires
   * FIPS works on was parsed under FIPS, exactly unless its key was hit by a demand for FIPS after its load, or
   * is a whole copy of such a key.
   */
  lemma OperationsSeeFipsViews(run: seq<Event>, lib: Lib, i: nat)
    requires R.LibOk(lib) && ValidRun(BEGIN, run, lib) && Core(After(BEGIN, run, lib))
    requires i < |After(BEGIN, run, lib).ctxs| && After(BEGIN, run, lib).keys.holders[i].Sig?
    ensures var s := After(BEGIN, run, lib);
      var c, bound := Look(s, i), s.keys.holders[i].bound;
      && (c.key.Some? <==> bound.Some?)
      && (bound.Some? ==>
            && OperationPub(c).Some?
            && ((RequiresFips(c) && OperationPub(c).value.pkey.Some? ==> OperationPub(c).value.pkey.value.fips)
                <==> bound.value !in LateKeys({}, BEGIN, run, lib)))
  {
    RunKeepsInv(BEGIN, {}, run, lib);
    var s, late := After(BEGIN, run, lib), LateKeys({}, BEGIN, run, lib);
    ViewOfContext(s, late, lib, i);
  }

  lemma ViewOfContext(s: State, late: set<nat>, lib: Lib, i: nat)
    requires Inv(s, late, lib) && i < |s.ctxs| && s.keys.holders[i].Sig?
    ensures var c, bound := Look(s, i), s.keys.holders[i].bound;
      && (c.key.Some? <==> bound.Some?)
      && (bound.Some? ==>
            && OperationPub(c).Some?
            && ((RequiresFips(c) && OperationPub(c).value.pkey.Some? ==> OperationPub(c).value.pkey.value.fips)
                <==> bound.value !in late))
  {
    hide L.CellOk, SoundCell, R.EntryOk, R.KeyOk, R.DigestOk, R.MdCtxOk;
    L.StaleKeyWrongView(s.keys, late, i);
    assert CtxSound(s, i, lib);
  }
}
