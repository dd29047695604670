/**
 * Who holds a key, and until when (src/key.c, src/store.c, src/keymgmt.c, src/signature.c): store loaders,
 * key handles of libcrypto and signature contexts share reference-counted keys, in any interleaving.
 * The atomic addition of `awskms_key_free` is taken to succeed.
 */
module KeyLifetime {
  import opened Bytes
  import opened KeySpec
  import opened PublicKey
  import opened Signature
  import opened KeyManagement
  import Holders

  // ---------------------------------------------------------------- state

  datatype Cell = Cell(refcnt: int, released: bool, key: Key)

  datatype Holder =
    | Store(id: nat, emitted: bool, expected: int)
    | Handle(id: nat)
    | Sig(bound: Option<nat>, fips: bool, fipsPub: Pub)
    | Gone

  datatype World = World(cells: seq<Cell>, holders: seq<Holder>)

  const NOBODY := World([], [])

  /** `OSSL_STORE_INFO_PKEY` */
  const INFO_PKEY := 4

  function RefOf(h: Holder): Option<nat> {
    match h
    case Store(id, _, _) => Some(id)
    case Handle(id) => Some(id)
    case Sig(bound, _, _) => bound
    case Gone => None
  }

  // ---------------------------------------------------------------- moving references

  function UpRef(cells: seq<Cell>, id: Option<nat>): (r: seq<Cell>)
    ensures |r| == |cells|
  {
    if id.None? || id.value >= |cells| then cells
    else cells[id.value := cells[id.value].(refcnt := cells[id.value].refcnt + 1)]
  }

  /** At zero the key is released. */
  function Free(cells: seq<Cell>, id: Option<nat>): (r: seq<Cell>)
    ensures |r| == |cells|
  {
    if id.None? || id.value >= |cells| then cells
    else
      var n := cells[id.value].refcnt - 1;
      cells[id.value := cells[id.value].(refcnt := n, released := n <= 0)]
  }

  /** A holder turns into another: the new reference is taken before the old one is given up. */
  function Rehold(w: World, i: nat, h: Holder): World
    requires i < |w.holders|
  {
    World(Free(UpRef(w.cells, RefOf(h)), RefOf(w.holders[i])), w.holders[i := h])
  }

  function AddHolder(w: World, h: Holder): World {
    World(UpRef(w.cells, RefOf(h)), w.holders + [h])
  }

  /** `awskms_key_new`: the caller has the one reference, here as a handle or a store. */
  function AddKey(w: World, key: Key, h: Holder): World {
    World(w.cells + [Cell(1, false, key)], w.holders + [h])
  }

  function SetKey(w: World, id: nat, key: Key): World
    requires id < |w.cells|
  {
    w.(cells := w.cells[id := w.cells[id].(key := key)])
  }

  // ---------------------------------------------------------------- events

  datatype Event =
    | Open(fips: bool, keyId: Option<string>)
    | SetStoreParams(i: nat, expected: int, fips: bool)
    | Load(i: nat, known: bool, der: Bytes, spec: Option<Spec>, o: Answers, taken: bool)
    | Close(i: nat)
    | DupKey(i: nat, sel: Selection, d: DupEnv)
    | FreeKey(i: nat)
    | NewSig(fips: bool)
    | Bind(i: nat, j: nat, e: Env)
    | DupSig(i: nat, works: bool)
    | FreeSig(i: nat)

  /** Events name live holders of the right kind; a key spec KMS reports is looked up in the table. */
  ghost predicate ValidEvent(w: World, ev: Event) {
    match ev
    case SetStoreParams(i, _, _) => i < |w.holders| && w.holders[i].Store?
    case Load(i, _, _, spec, _, _) => i < |w.holders| && w.holders[i].Store? && (spec.Some? ==> Known(spec.value))
    case Close(i) => i < |w.holders| && w.holders[i].Store?
    case DupKey(i, _, _) => i < |w.holders| && w.holders[i].Handle?
    case FreeKey(i) => i < |w.holders| && w.holders[i].Handle?
    case Bind(i, j, _) => i < |w.holders| && w.holders[i].Sig? && j < |w.holders| && w.holders[j].Handle?
    case DupSig(i, _) => i < |w.holders| && w.holders[i].Sig?
    case FreeSig(i) => i < |w.holders| && w.holders[i].Sig?
    case _ => true
  }

  /** The public view after `awskms_store_load_key`; None if it fails. */
  function LoadedPub(key: Key, known: bool, der: Bytes, spec: Option<Spec>, o: Answers, shake: Shake): Option<Pub> {
    if key.pub.spec.Some? then Some(key.pub)
    else if known && spec.Some? && Accepts(spec.value, der, o) then
      Some(Parsed(spec.value, der, key.fips, o.decoded.value, shake))
    else None
  }

  function LoadStep(w: World, i: nat, pub: Option<Pub>, taken: bool): World
    requires i < |w.holders| && w.holders[i].Store? && w.holders[i].id < |w.cells|
  {
    var s := w.holders[i];
    var done := w.(holders := w.holders[i := s.(emitted := true)]);
    if s.emitted then w
    else if s.expected != 0 && s.expected != INFO_PKEY then done
    else match pub
      case None => w
      case Some(p) =>
        var w' := SetKey(done, s.id, w.cells[s.id].key.(pub := p));
        if taken then AddHolder(w', Handle(s.id)) else w'
  }

  function DupStep(w: World, id: nat, plan: Plan): World {
    match plan
    case NoDup => w
    case Share => AddHolder(w, Handle(id))
    case Build(key) => AddKey(w, key, Handle(|w.cells|))
  }

  /** Binding key `id`: a failure takes a reference and gives it back. */
  function BindStep(w: World, i: nat, id: nat, e: Env, lib: Lib): World
    requires i < |w.holders| && w.holders[i].Sig? && id < |w.cells|
  {
    var s := w.holders[i];
    var key := w.cells[id].key;
    if !e.upRef then w
    else if s.fips && !key.fips then
      match Reparse(key, e.spki, lib)
      case None => w.(cells := Free(UpRef(w.cells, Some(id)), Some(id)))
      case Some(pub) => Rehold(w, i, Sig(Some(id), s.fips, pub))
    else Rehold(w, i, Sig(Some(id), s.fips, EMPTY))
  }

  function Step(w: World, ev: Event, lib: Lib): World
    requires ValidEvent(w, ev) && RefsExist(w)
  {
    match ev
    case Open(fips, keyId) =>
      if keyId.None? then w.(cells := Free(w.cells + [Cell(1, false, Key(None, EMPTY, fips))], Some(|w.cells|)))
      else AddKey(w, Key(keyId, EMPTY, fips), Store(|w.cells|, false, 0))
    case SetStoreParams(i, expected, fips) =>
      var s := w.holders[i];
      var key := w.cells[s.id].key;
      SetKey(w.(holders := w.holders[i := s.(expected := expected)]), s.id, key.(fips := key.fips || fips))
    case Load(i, known, der, spec, o, taken) =>
      LoadStep(w, i, LoadedPub(w.cells[w.holders[i].id].key, known, der, spec, o, lib.shake), taken)
    case Close(i) => Rehold(w, i, Gone)
    case DupKey(i, sel, d) => DupStep(w, w.holders[i].id, DupPlan(w.cells[w.holders[i].id].key, sel, d))
    case FreeKey(i) => Rehold(w, i, Gone)
    case NewSig(fips) => AddHolder(w, Sig(None, fips, EMPTY))
    case Bind(i, j, e) => BindStep(w, i, w.holders[j].id, e, lib)
    case DupSig(i, works) => if works then AddHolder(w, w.holders[i]) else w
    case FreeSig(i) => Rehold(w, i, Gone)
  }

  // ---------------------------------------------------------------- conservation

  /** References point to keys that exist. */
  predicate RefsExist(w: World) {
    forall i :: 0 <= i < |w.holders| && RefOf(w.holders[i]).Some? ==> RefOf(w.holders[i]).value < |w.cells|
  }

  function Refs(h: Holder): seq<nat> {
    if RefOf(h).Some? then [RefOf(h).value] else []
  }

  function AllRefs(holders: seq<Holder>): (refs: seq<seq<nat>>)
    ensures |refs| == |holders| && forall i :: 0 <= i < |refs| ==> refs[i] == Refs(holders[i])
  {
    seq(|holders|, i requires 0 <= i < |holders| => Refs(holders[i]))
  }

  /** The number of holders of a key. */
  function Holding(holders: seq<Holder>, id: nat): nat {
    Holders.Held(AllRefs(holders), id)
  }

  function One(h: Holder, id: nat): (n: nat)
    ensures n == Holders.Count(Refs(h), id)
  {
    if RefOf(h) == Some(id) then 1 else 0
  }

  ghost predicate CellOk(w: World, id: nat)
    requires id < |w.cells|
  {
    w.cells[id].refcnt == Holding(w.holders, id) && (w.cells[id].released <==> w.cells[id].refcnt == 0)
  }

  ghost predicate Conserved(w: World) {
    RefsExist(w) && forall id :: 0 <= id < |w.cells| ==> CellOk(w, id)
  }

  lemma HoldingUpdate(holders: seq<Holder>, i: nat, h: Holder, id: nat)
    requires i < |holders|
    ensures Holding(holders[i := h], id) + One(holders[i], id) == Holding(holders, id) + One(h, id)
    ensures Holding(holders, id) >= One(holders[i], id)
  {
    assert AllRefs(holders[i := h]) == AllRefs(holders)[i := Refs(h)];
    Holders.HeldUpdate(AllRefs(holders), i, Refs(h), id);
  }

  lemma HoldingAppend(holders: seq<Holder>, h: Holder, id: nat)
    ensures Holding(holders + [h], id) == Holding(holders, id) + One(h, id)
  {
    assert AllRefs(holders + [h]) == AllRefs(holders) + [Refs(h)];
    Holders.HeldConcat(AllRefs(holders), [Refs(h)], id);
    assert [Refs(h)][1..] == [];
  }

  lemma HoldingNothing(holders: seq<Holder>, n: nat, id: nat)
    requires forall i :: 0 <= i < |holders| && RefOf(holders[i]).Some? ==> RefOf(holders[i]).value < n
    requires id >= n
    ensures Holding(holders, id) == 0
  {
    Holders.HeldByNobody(AllRefs(holders), id);
  }

  /** What is held is alive. */
  lemma HeldIsAlive(w: World, i: nat)
    requires Conserved(w) && i < |w.holders| && RefOf(w.holders[i]).Some?
    ensures var cell := w.cells[RefOf(w.holders[i]).value]; cell.refcnt > 0 && !cell.released
  {
    var id := RefOf(w.holders[i]).value;
    HoldingUpdate(w.holders, i, Gone, id);
    assert CellOk(w, id);
  }

  /** A reference that may be taken: there is none, or the key is alive. */
  predicate Alive(w: World, id: Option<nat>) {
    id.Some? ==> id.value < |w.cells| && w.cells[id.value].refcnt > 0
  }

  lemma ReholdConserves(w: World, i: nat, h: Holder)
    requires Conserved(w) && i < |w.holders| && Alive(w, RefOf(h))
    ensures Conserved(Rehold(w, i, h))
  {
    hide RefOf;
    var w' := Rehold(w, i, h);
    forall id | 0 <= id < |w'.cells|
      ensures CellOk(w', id)
    {
      assert CellOk(w, id);
      HoldingUpdate(w.holders, i, h, id);
    }
  }

  lemma AddHolderConserves(w: World, h: Holder)
    requires Conserved(w) && Alive(w, RefOf(h))
    ensures Conserved(AddHolder(w, h))
  {
    hide RefOf;
    var w' := AddHolder(w, h);
    forall id | 0 <= id < |w'.cells|
      ensures CellOk(w', id)
    {
      assert CellOk(w, id);
      HoldingAppend(w.holders, h, id);
    }
  }

  lemma AddKeyConserves(w: World, key: Key, h: Holder)
    requires Conserved(w) && RefOf(h) == Some(|w.cells|)
    ensures Conserved(AddKey(w, key, h))
  {
    hide RefOf;
    var w' := AddKey(w, key, h);
    HoldingNothing(w.holders, |w.cells|, |w.cells|);
    forall id | 0 <= id < |w'.cells|
      ensures CellOk(w', id)
    {
      assert id < |w.cells| ==> CellOk(w, id);
      HoldingAppend(w.holders, h, id);
    }
  }

  /** A key of a failed open is released at once. */
  lemma FailedOpenConserves(w: World, key: Key)
    requires Conserved(w)
    ensures Conserved(w.(cells := Free(w.cells + [Cell(1, false, key)], Some(|w.cells|))))
  {
    var w' := w.(cells := Free(w.cells + [Cell(1, false, key)], Some(|w.cells|)));
    HoldingNothing(w.holders, |w.cells|, |w.cells|);
    forall id | 0 <= id < |w'.cells|
      ensures CellOk(w', id)
    {
      assert id < |w.cells| ==> CellOk(w, id);
    }
  }

  lemma SetKeyConserves(w: World, id: nat, key: Key)
    requires Conserved(w) && id < |w.cells|
    ensures Conserved(SetKey(w, id, key))
  {
    forall k | 0 <= k < |w.cells|
      ensures CellOk(SetKey(w, id, key), k)
    {
      assert CellOk(w, k);
    }
  }

  /** A store that only changes its own fields. */
  lemma SameRefConserves(w: World, i: nat, h: Holder)
    requires Conserved(w) && i < |w.holders| && RefOf(h) == RefOf(w.holders[i])
    ensures Conserved(w.(holders := w.holders[i := h]))
  {
    hide RefOf;
    var w' := w.(holders := w.holders[i := h]);
    forall k | 0 <= k < |w.cells|
      ensures CellOk(w', k)
    {
      assert CellOk(w, k);
      HoldingUpdate(w.holders, i, h, k);
    }
  }

  /** A reference taken and given back leaves no trace. */
  lemma UpRefThenFree(cells: seq<Cell>, id: nat)
    requires id < |cells| && cells[id].refcnt > 0 && !cells[id].released
    ensures Free(UpRef(cells, Some(id)), Some(id)) == cells
  {
  }

  lemma LoadConserves(w: World, i: nat, pub: Option<Pub>, taken: bool)
    requires Conserved(w) && i < |w.holders| && w.holders[i].Store? && w.holders[i].id < |w.cells|
    ensures Conserved(LoadStep(w, i, pub, taken))
  {
    var s := w.holders[i];
    HeldIsAlive(w, i);
    hide CellOk;
    SameRefConserves(w, i, s.(emitted := true));
    if pub.Some? {
      var done := w.(holders := w.holders[i := s.(emitted := true)]);
      var key := w.cells[s.id].key.(pub := pub.value);
      SetKeyConserves(done, s.id, key);
      AddHolderConserves(SetKey(done, s.id, key), Handle(s.id));
    }
  }

  lemma BindConserves(w: World, i: nat, j: nat, e: Env, lib: Lib)
    requires Conserved(w) && i < |w.holders| && w.holders[i].Sig? && j < |w.holders| && w.holders[j].Handle?
    ensures Conserved(BindStep(w, i, w.holders[j].id, e, lib))
  {
    var id := w.holders[j].id;
    HeldIsAlive(w, j);
    hide CellOk, Reparse, Rehold;
    UpRefThenFree(w.cells, id);
    var s := w.holders[i];
    var key := w.cells[id].key;
    ReholdConserves(w, i, Sig(Some(id), s.fips, EMPTY));
    if Reparse(key, e.spki, lib).Some? {
      ReholdConserves(w, i, Sig(Some(id), s.fips, Reparse(key, e.spki, lib).value));
    }
  }

  /** Every event keeps the count of every key equal to the number of its holders. */
  lemma StepConserves(w: World, ev: Event, lib: Lib)
    requires Conserved(w) && ValidEvent(w, ev)
    ensures Conserved(Step(w, ev, lib))
  {
    hide CellOk, Rehold, LoadStep, BindStep, DupPlan, LoadedPub;
    match ev
    case Open(fips, keyId) =>
      FailedOpenConserves(w, Key(None, EMPTY, fips));
      AddKeyConserves(w, Key(keyId, EMPTY, fips), Store(|w.cells|, false, 0));
    case SetStoreParams(i, expected, fips) =>
      var s := w.holders[i];
      SameRefConserves(w, i, s.(expected := expected));
      var key := w.cells[s.id].key;
      SetKeyConserves(w.(holders := w.holders[i := s.(expected := expected)]), s.id, key.(fips := key.fips || fips));
    case Load(i, known, der, spec, o, taken) =>
      LoadConserves(w, i, LoadedPub(w.cells[w.holders[i].id].key, known, der, spec, o, lib.shake), taken);
    case Close(i) => ReholdConserves(w, i, Gone);
    case DupKey(i, sel, d) =>
      HeldIsAlive(w, i);
      AddHolderConserves(w, Handle(w.holders[i].id));
      var plan := DupPlan(w.cells[w.holders[i].id].key, sel, d);
      if plan.Build? {
        AddKeyConserves(w, plan.key, Handle(|w.cells|));
      }
    case FreeKey(i) => ReholdConserves(w, i, Gone);
    case NewSig(fips) => AddHolderConserves(w, Sig(None, fips, EMPTY));
    case Bind(i, j, e) => BindConserves(w, i, j, e, lib);
    case DupSig(i, works) =>
      if RefOf(w.holders[i]).Some? {
        HeldIsAlive(w, i);
      }
      AddHolderConserves(w, w.holders[i]);
    case FreeSig(i) => ReholdConserves(w, i, Gone);
  }

  ghost predicate ValidRun(w: World, run: seq<Event>, lib: Lib)
    requires Conserved(w)
    decreases |run|
  {
    run == [] ||
      (ValidEvent(w, run[0]) && (StepConserves(w, run[0], lib); ValidRun(Step(w, run[0], lib), run[1..], lib)))
  }

  ghost function After(w: World, run: seq<Event>, lib: Lib): World
    requires Conserved(w) && ValidRun(w, run, lib)
    decreases |run|
  {
    if run == [] then w
    else
      StepConserves(w, run[0], lib);
      After(Step(w, run[0], lib), run[1..], lib)
  }

  lemma {:induction false} RunConserves(w: World, run: seq<Event>, lib: Lib)
    requires Conserved(w) && ValidRun(w, run, lib)
    ensures Conserved(After(w, run, lib))
    decreases |run|
  {
    hide CellOk;
    if run != [] {
      StepConserves(w, run[0], lib);
      RunConserves(Step(w, run[0], lib), run[1..], lib);
    }
  }

  /**
   * Over every run of loads, duplications, bindings and frees: the count of each key is the number of its
   * holders, a key is released exactly when nobody holds it, and so whoever holds a key reaches a live one.
   */
  lemma ReferencesAreConserved(run: seq<Event>, lib: Lib)
    requires ValidRun(NOBODY, run, lib)
    ensures var w := After(NOBODY, run, lib);
      && (forall id :: 0 <= id < |w.cells| ==>
            && w.cells[id].refcnt == Holding(w.holders, id)
            && (w.cells[id].released <==> Holding(w.holders, id) == 0))
      && (forall i :: 0 <= i < |w.holders| && RefOf(w.holders[i]).Some? ==>
            RefOf(w.holders[i]).value < |w.cells| && !w.cells[RefOf(w.holders[i]).value].released)
  {
    RunConserves(NOBODY, run, lib);
    var w := After(NOBODY, run, lib);
    forall id | 0 <= id < |w.cells|
      ensures w.cells[id].refcnt == Holding(w.holders, id)
      ensures w.cells[id].released <==> Holding(w.holders, id) == 0
    {
      assert CellOk(w, id);
    }
    forall i | 0 <= i < |w.holders| && RefOf(w.holders[i]).Some?
      ensures !w.cells[RefOf(w.holders[i]).value].released
    {
      HeldIsAlive(w, i);
    }
  }

  /** The key every event works on is held by the holder the event names, so it is never a released one. */
  lemma NoReleasedKeyIsTouched(w: World, ev: Event)
    requires Conserved(w) && ValidEvent(w, ev)
    ensures match ev
      case SetStoreParams(i, _, _) => !w.cells[w.holders[i].id].released
      case Load(i, _, _, _, _, _) => !w.cells[w.holders[i].id].released
      case Close(i) => !w.cells[w.holders[i].id].released
      case DupKey(i, _, _) => !w.cells[w.holders[i].id].released
      case FreeKey(i) => !w.cells[w.holders[i].id].released
      case Bind(i, j, _) =>
        && !w.cells[w.holders[j].id].released
        && (w.holders[i].bound.Some? ==> !w.cells[w.holders[i].bound.value].released)
      case DupSig(i, _) => w.holders[i].bound.Some? ==> !w.cells[w.holders[i].bound.value].released
      case FreeSig(i) => w.holders[i].bound.Some? ==> !w.cells[w.holders[i].bound.value].released
      case _ => true
  {
    hide CellOk;
    forall i | 0 <= i < |w.holders| && RefOf(w.holders[i]).Some?
      ensures !w.cells[RefOf(w.holders[i]).value].released
    {
      HeldIsAlive(w, i);
    }
    match ev
    case SetStoreParams(i, _, _) => assert RefOf(w.holders[i]).Some?;
    case Load(i, _, _, _, _, _) => assert RefOf(w.holders[i]).Some?;
    case Close(i) => assert RefOf(w.holders[i]).Some?;
    case DupKey(i, _, _) => assert RefOf(w.holders[i]).Some?;
    case FreeKey(i) => assert RefOf(w.holders[i]).Some?;
    case Bind(i, j, _) => assert RefOf(w.holders[j]).Some? && RefOf(w.holders[i]) == w.holders[i].bound;
    case DupSig(i, _) => assert RefOf(w.holders[i]) == w.holders[i].bound;
    case FreeSig(i) => assert RefOf(w.holders[i]) == w.holders[i].bound;
    case _ =>
  }

  /** Rebinding a context to the key it holds changes no count: the key is not dropped in between. */
  lemma RebindKeepsKey(w: World, i: nat, j: nat, e: Env, lib: Lib)
    requires Conserved(w) && ValidEvent(w, Bind(i, j, e)) && w.holders[i].bound == Some(w.holders[j].id)
    ensures Step(w, Bind(i, j, e), lib).cells == w.cells
    ensures Step(w, Bind(i, j, e), lib).holders[i].bound == w.holders[i].bound
  {
    HeldIsAlive(w, j);
    UpRefThenFree(w.cells, w.holders[j].id);
  }

  /** A binding that fails changes nothing. */
  lemma FailedBindChangesNothing(w: World, i: nat, j: nat, e: Env, lib: Lib)
    requires Conserved(w) && ValidEvent(w, Bind(i, j, e))
    requires var s, key := w.holders[i], w.cells[w.holders[j].id].key;
      !e.upRef || (s.fips && !key.fips && Reparse(key, e.spki, lib).None?)
    ensures Step(w, Bind(i, j, e), lib) == w
  {
    HeldIsAlive(w, j);
    UpRefThenFree(w.cells, w.holders[j].id);
  }

  // ---------------------------------------------------------------- who gets a reference

  /** A store gives out its key once, to a caller that expects a key, if the public half is there or can be had. */
  lemma LoadExactly(w: World, i: nat, known: bool, der: Bytes, spec: Option<Spec>, o: Answers, taken: bool, lib: Lib)
    requires Conserved(w) && ValidEvent(w, Load(i, known, der, spec, o, taken))
    ensures var w' := Step(w, Load(i, known, der, spec, o, taken), lib);
      var s, n := w.holders[i], |w.holders|;
      var wanted := s.expected == 0 || s.expected == 4;
      var public := w.cells[s.id].key.pub.spec.Some? || (known && spec.Some? && Accepts(spec.value, der, o));
      && (if !s.emitted && wanted && public && taken then
            |w'.holders| == n + 1 && w'.holders[n] == Handle(s.id) && w'.cells[s.id].key.pub.spec.Some?
          else |w'.holders| == n)
      && w'.holders[i] == s.(emitted := s.emitted || !wanted || public)
  {
    hide CellOk, Accepts;
    assert RefOf(w.holders[i]) == Some(w.holders[i].id);
  }

  /** Opening gives a store with a new key, freeing a holder lets go of its key, a context starts without one. */
  lemma HoldersExactly(w: World, ev: Event, lib: Lib)
    requires Conserved(w) && ValidEvent(w, ev)
    ensures var w' := Step(w, ev, lib); var n := |w.holders|;
      && (ev.Close? || ev.FreeKey? || ev.FreeSig? ==> w'.holders == w.holders[ev.i := Gone])
      && (ev.Open? && ev.keyId.Some? ==>
            && w'.holders == w.holders + [Store(|w.cells|, false, 0)]
            && w'.cells == w.cells + [Cell(1, false, Key(ev.keyId, EMPTY, ev.fips))])
      && (ev.Open? && ev.keyId.None? ==> w'.holders == w.holders)
      && (ev.NewSig? ==> w'.holders == w.holders + [Sig(None, ev.fips, EMPTY)])
      && (ev.DupSig? ==> w'.holders == w.holders + if ev.works then [w.holders[ev.i]] else [])
      && (ev.SetStoreParams? ==>
            && w'.holders == w.holders[ev.i := w.holders[ev.i].(expected := ev.expected)]
            && w.holders[ev.i].id < |w.cells| == |w'.cells|
            && (w'.cells[w.holders[ev.i].id].key.fips <==> w.cells[w.holders[ev.i].id].key.fips || ev.fips))
  {
    hide CellOk, Reparse, DupPlan, LoadedPub, UpRef, Free;
    assert w.holders + [] == w.holders;
    assert ev.SetStoreParams? ==> RefOf(w.holders[ev.i]) == Some(w.holders[ev.i].id);
  }

  /** A duplicate is one more handle of the same key, or a handle of a new key, or nothing. */
  lemma DupGivesHandle(w: World, i: nat, sel: Selection, d: DupEnv, lib: Lib)
    requires Conserved(w) && ValidEvent(w, DupKey(i, sel, d))
    ensures var w' := Step(w, DupKey(i, sel, d), lib); var n := |w.holders|;
      var plan := DupPlan(w.cells[w.holders[i].id].key, sel, d);
      && (plan.NoDup? ==> w' == w)
      && (!plan.NoDup? ==> |w'.holders| == n + 1 && w'.holders[n].Handle?)
      && (plan.Share? ==> w'.holders[n] == w.holders[i] && |w'.cells| == |w.cells|)
      && (plan.Build? ==> w'.holders[n].id == |w.cells| && w'.cells == w.cells + [Cell(1, false, plan.key)])
  {
    hide CellOk, DupPlan;
    assert RefOf(w.holders[i]) == Some(w.holders[i].id);
  }

  /** A binding holds exactly if the reference is had and, under a stricter policy, the view can be parsed again. */
  lemma BindExactly(w: World, i: nat, j: nat, e: Env, lib: Lib)
    requires Conserved(w) && ValidEvent(w, Bind(i, j, e))
    ensures var w' := Step(w, Bind(i, j, e), lib); var s, id := w.holders[i], w.holders[j].id;
      var key := w.cells[id].key;
      && |w'.holders| == |w.holders| && w'.holders[i].Sig?
      && (if e.upRef && (s.fips && !key.fips ==> Reparse(key, e.spki, lib).Some?) then
            w'.holders[i].bound == Some(id)
          else w'.holders[i] == s)
  {
    hide CellOk, Reparse;
    assert RefOf(w.holders[j]) == Some(w.holders[j].id);
  }

  // ---------------------------------------------------------------- FIPS provenance

  /** The context as `operation_pubkey` reads it. */
  function Seen(w: World, h: Holder): Ctx
    requires h.Sig? && (h.bound.Some? ==> h.bound.value < |w.cells|)
  {
    NewCtx(h.fips).(key := if h.bound.Some? then Some(w.cells[h.bound.value].key) else None, fipsPub := h.fipsPub)
  }

  /** The view of an operation exists and was parsed under FIPS whenever the operation requires it. */
  predicate ViewOk(w: World, h: Holder)
    requires h.Sig? && (h.bound.Some? ==> h.bound.value < |w.cells|)
  {
    var c := Seen(w, h);
    h.bound.Some? ==>
      && OperationPub(c).Some?
      && (RequiresFips(c) && OperationPub(c).value.pkey.Some? ==> OperationPub(c).value.pkey.value.fips)
  }

  ghost predicate ViewsOk(w: World)
    requires RefsExist(w)
  {
    forall i :: 0 <= i < |w.holders| && w.holders[i].Sig? ==>
      (assert RefOf(w.holders[i]) == w.holders[i].bound; ViewOk(w, w.holders[i]))
  }

  /** Store parameters that ask for FIPS come before the key is loaded. */
  ghost predicate Timely(w: World, ev: Event)
    requires ValidEvent(w, ev) && RefsExist(w)
  {
    ev.SetStoreParams? ==>
      var key := (assert RefOf(w.holders[ev.i]) == Some(w.holders[ev.i].id); w.cells[w.holders[ev.i].id].key);
      ev.fips && !key.fips ==> key.pub.pkey.None?
  }

  // ---------------------------------------------------------------- what an event does to a key

  /**
   * The policy of a key only becomes stricter, a public view stays once it is there, and only a load and
   * store parameters change a key at all.
   */
  lemma KeyEvolves(w: World, ev: Event, lib: Lib, id: nat)
    requires Conserved(w) && ValidEvent(w, ev) && id < |w.cells|
    ensures |Step(w, ev, lib).cells| >= |w.cells|
    ensures var k, k' := w.cells[id].key, Step(w, ev, lib).cells[id].key;
      && k'.keyId == k.keyId && (k.fips ==> k'.fips)
      && (k.pub.spec.Some? ==> k'.pub == k.pub)
      && (!ev.Load? && !ev.SetStoreParams? ==> k' == k)
  {
    hide CellOk, Reparse, DupPlan, Accepts, Parsed;
  }

  /** What a new key looks like. */
  lemma NewKeys(w: World, ev: Event, lib: Lib, id: nat)
    requires Conserved(w) && ValidEvent(w, ev) && |w.cells| <= id < |Step(w, ev, lib).cells|
    ensures id == |w.cells|
    ensures var key := Step(w, ev, lib).cells[id].key;
      || (key.pub == EMPTY && !ev.DupKey?)
      || (ev.DupKey? && DupPlan(w.cells[w.holders[ev.i].id].key, ev.sel, ev.d) == Build(key))
  {
    hide CellOk, Reparse, DupPlan, LoadedPub;
  }

  /** What a load and store parameters do to the key of their store, and to no other. */
  lemma StoreKeys(w: World, ev: Event, lib: Lib, id: nat)
    requires Conserved(w) && ValidEvent(w, ev) && (ev.Load? || ev.SetStoreParams?) && id < |w.cells|
    ensures |Step(w, ev, lib).cells| == |w.cells| && w.holders[ev.i].id < |w.cells|
    ensures var k, k' := w.cells[id].key, Step(w, ev, lib).cells[id].key;
      if id != w.holders[ev.i].id then k' == k
      else if ev.SetStoreParams? then k' == k.(fips := k.fips || ev.fips)
      else
        || k' == k
        || (var pub := LoadedPub(k, ev.known, ev.der, ev.spec, ev.o, lib.shake);
            pub.Some? && k' == k.(pub := pub.value))
  {
    hide CellOk, LoadedPub;
    assert RefOf(w.holders[ev.i]) == Some(w.holders[ev.i].id);
  }

  // ---------------------------------------------------------------- which keys a late demand has hit

  /** A parsed key has a spec, and was not parsed under a stricter policy than its own. */
  predicate Sane(key: Key) {
    key.pub.pkey.Some? ==> key.pub.spec.Some? && (key.pub.pkey.value.fips ==> key.fips)
  }

  /** The key of a late demand, and a whole copy of such a key, join those hit before. */
  ghost function NextLate(late: set<nat>, w: World, ev: Event): set<nat>
    requires Conserved(w) && ValidEvent(w, ev)
  {
    if ev.SetStoreParams? && !Timely(w, ev) then late + {w.holders[ev.i].id}
    else if ev.DupKey? && CopiesLate(late, w, ev) then late + {|w.cells|}
    else late
  }

  /** The event makes a new key with the whole public view of one that was hit. */
  ghost predicate CopiesLate(late: set<nat>, w: World, ev: Event)
    requires Conserved(w) && ValidEvent(w, ev) && ev.DupKey?
  {
    && w.holders[ev.i].id in late && ev.sel.public
    && (assert RefOf(w.holders[ev.i]) == Some(w.holders[ev.i].id);
        DupPlan(w.cells[w.holders[ev.i].id].key, ev.sel, ev.d).Build?)
  }

  ghost function LateKeys(late: set<nat>, w: World, run: seq<Event>, lib: Lib): set<nat>
    requires Conserved(w) && ValidRun(w, run, lib)
    decreases |run|
  {
    if run == [] then late
    else
      StepConserves(w, run[0], lib);
      LateKeys(NextLate(late, w, run[0]), Step(w, run[0], lib), run[1..], lib)
  }

  ghost predicate CellLate(w: World, late: set<nat>, id: nat)
    requires id < |w.cells|
  {
    Sane(w.cells[id].key) && (id in late <==> Stale(w.cells[id].key))
  }

  /** A context with a stricter policy than its key has its own view, parsed under FIPS. */
  predicate SigOk(w: World, h: Holder) {
    h.Sig? && h.bound.Some? ==>
      && h.bound.value < |w.cells|
      && (h.fips && !w.cells[h.bound.value].key.fips ==> h.fipsPub.pkey.Some? && h.fipsPub.pkey.value.fips)
  }

  ghost predicate LateInv(w: World, late: set<nat>) {
    && Conserved(w)
    && (forall id :: id in late ==> id < |w.cells|)
    && (forall id :: 0 <= id < |w.cells| ==> CellLate(w, late, id))
    && (forall i :: 0 <= i < |w.holders| ==> SigOk(w, w.holders[i]))
  }

  lemma LoadLeavesStale(key: Key, known: bool, der: Bytes, spec: Option<Spec>, o: Answers, shake: Shake)
    requires Sane(key) && LoadedPub(key, known, der, spec, o, shake).Some?
    ensures var k := key.(pub := LoadedPub(key, known, der, spec, o, shake).value);
      Sane(k) && (Stale(k) <==> Stale(key))
  {
  }

  lemma DemandMakesStale(key: Key, fips: bool)
    requires Sane(key)
    ensures var k := key.(fips := key.fips || fips);
      Sane(k) && (Stale(k) <==> Stale(key) || (fips && !key.fips && key.pub.pkey.Some?))
  {
  }

  lemma CopyIsStale(key: Key, sel: Selection, d: DupEnv)
    requires Sane(key) && DupPlan(key, sel, d).Build?
    ensures var k := DupPlan(key, sel, d).key; Sane(k) && (Stale(k) <==> Stale(key) && sel.public)
  {
  }

  lemma CellStaysLate(w: World, late: set<nat>, ev: Event, lib: Lib, id: nat)
    requires LateInv(w, late) && ValidEvent(w, ev) && id < |Step(w, ev, lib).cells|
    ensures CellLate(Step(w, ev, lib), NextLate(late, w, ev), id)
  {
    hide CellOk, Step, DupPlan, LoadedPub, Sane, Stale, SigOk;
    if ev.SetStoreParams? || ev.Load? || ev.DupKey? {
      assert RefOf(w.holders[ev.i]) == Some(w.holders[ev.i].id);
      assert CellLate(w, late, w.holders[ev.i].id);
    }
    if id >= |w.cells| {
      NewKeys(w, ev, lib, id);
      EmptyIsSane(Step(w, ev, lib).cells[id].key);
      if ev.DupKey? {
        CopyIsStale(w.cells[w.holders[ev.i].id].key, ev.sel, ev.d);
      }
    } else if ev.Load? || ev.SetStoreParams? {
      assert CellLate(w, late, id);
      StoreKeys(w, ev, lib, id);
      var key := w.cells[id].key;
      if ev.SetStoreParams? {
        DemandMakesStale(key, ev.fips);
      } else if LoadedPub(key, ev.known, ev.der, ev.spec, ev.o, lib.shake).Some? {
        LoadLeavesStale(key, ev.known, ev.der, ev.spec, ev.o, lib.shake);
      }
    } else {
      assert CellLate(w, late, id);
      KeyEvolves(w, ev, lib, id);
    }
  }

  lemma EmptyIsSane(key: Key)
    ensures key.pub == EMPTY ==> Sane(key) && !Stale(key)
  {
  }

  /** The contexts of the next state: those of the last one, and at most one that is new or newly bound. */
  lemma NextSigs(w: World, ev: Event, lib: Lib, i: nat)
    requires Conserved(w) && ValidEvent(w, ev)
    requires i < |Step(w, ev, lib).holders| && Step(w, ev, lib).holders[i].Sig?
    ensures var h := Step(w, ev, lib).holders[i];
      || h.bound.None?
      || (exists j :: 0 <= j < |w.holders| && w.holders[j] == h)
      || (ev.Bind? && var key := w.cells[w.holders[ev.j].id].key;
          && h.bound == Some(w.holders[ev.j].id)
          && if h.fips && !key.fips then Reparse(key, ev.e.spki, lib) == Some(h.fipsPub) else h.fipsPub == EMPTY)
  {
    hide CellOk, Reparse, LoadedPub, DupPlan;
    var w' := Step(w, ev, lib);
    assert i < |w.holders| && w'.holders[i] == w.holders[i] ==> w.holders[i] == w'.holders[i];
    match ev
    case DupSig(j, works) => assert w.holders[j] == w.holders[j];
    case _ =>
  }

  lemma ReparsedIsFips(key: Key, o: Answers, lib: Lib)
    ensures var pub := Reparse(key, o, lib); pub.Some? ==> pub.value.pkey.Some? && pub.value.pkey.value.fips
  {
  }

  lemma SigStaysOk(w: World, late: set<nat>, ev: Event, lib: Lib, i: nat)
    requires LateInv(w, late) && ValidEvent(w, ev) && i < |Step(w, ev, lib).holders|
    ensures SigOk(Step(w, ev, lib), Step(w, ev, lib).holders[i])
  {
    hide CellOk, CellLate, Step, Reparse;
    var h := Step(w, ev, lib).holders[i];
    if h.Sig? && h.bound.Some? {
      NextSigs(w, ev, lib, i);
      if j :| 0 <= j < |w.holders| && w.holders[j] == h {
        assert SigOk(w, w.holders[j]);
        KeyEvolves(w, ev, lib, h.bound.value);
      } else {
        assert RefOf(w.holders[ev.j]) == h.bound;
        KeyEvolves(w, ev, lib, h.bound.value);
        ReparsedIsFips(w.cells[h.bound.value].key, ev.e.spki, lib);
      }
    }
  }

  lemma StepKeepsLate(w: World, late: set<nat>, ev: Event, lib: Lib)
    requires LateInv(w, late) && ValidEvent(w, ev)
    ensures LateInv(Step(w, ev, lib), NextLate(late, w, ev))
  {
    hide CellOk, CellLate, SigOk, Step, NextLate;
    StepConserves(w, ev, lib);
    var w' := Step(w, ev, lib);
    LateKeysExist(w, late, ev, lib);
    forall id | 0 <= id < |w'.cells|
      ensures CellLate(w', NextLate(late, w, ev), id)
    {
      CellStaysLate(w, late, ev, lib, id);
    }
    forall i | 0 <= i < |w'.holders|
      ensures SigOk(w', w'.holders[i])
    {
      SigStaysOk(w, late, ev, lib, i);
    }
  }

  lemma LateKeysExist(w: World, late: set<nat>, ev: Event, lib: Lib)
    requires Conserved(w) && ValidEvent(w, ev) && forall id :: id in late ==> id < |w.cells|
    ensures forall id :: id in NextLate(late, w, ev) ==> id < |Step(w, ev, lib).cells|
  {
    hide CellOk, DupPlan, LoadedPub, Reparse, Timely;
    assert ev.SetStoreParams? ==> RefOf(w.holders[ev.i]) == Some(w.holders[ev.i].id);
  }

  lemma {:induction false} RunKeepsLate(w: World, late: set<nat>, run: seq<Event>, lib: Lib)
    requires LateInv(w, late) && ValidRun(w, run, lib)
    ensures LateInv(After(w, run, lib), LateKeys(late, w, run, lib))
    ensures late <= LateKeys(late, w, run, lib)
    decreases |run|
  {
    hide CellOk, CellLate, SigOk, Step, Timely, CopiesLate;
    if run != [] {
      StepKeepsLate(w, late, run[0], lib);
      RunKeepsLate(Step(w, run[0], lib), NextLate(late, w, run[0]), run[1..], lib);
    }
  }

  // ---------------------------------------------------------------- views over runs

  /** The view of an operation is right exactly unless its key is stale. */
  lemma StaleKeyWrongView(w: World, late: set<nat>, i: nat)
    requires LateInv(w, late) && i < |w.holders| && w.holders[i].Sig?
    ensures var h := w.holders[i];
      (h.bound.Some? ==> h.bound.value < |w.cells|) && (ViewOk(w, h) <==> (h.bound.Some? ==> h.bound.value !in late))
  {
    var h := w.holders[i];
    assert SigOk(w, h);
    if h.bound.Some? {
      assert CellLate(w, late, h.bound.value);
    }
  }

  /**
   * FIPS provenance, exactly: after any run, the view of a signature context is there and is right (parsed
   * under FIPS if the operation requires it) exactly unless the context is bound to a key that some demand
   * for FIPS hit after its load, or to a whole copy of such a key.  It does not matter whether the context was
   * bound before or after the demand.
   */
  lemma ViewsFailExactly(run: seq<Event>, lib: Lib, i: nat)
    requires ValidRun(NOBODY, run, lib)
    requires i < |After(NOBODY, run, lib).holders| && After(NOBODY, run, lib).holders[i].Sig?
    ensures var w := After(NOBODY, run, lib); var h := w.holders[i];
      && (h.bound.Some? ==> h.bound.value < |w.cells|)
      && (ViewOk(w, h) <==> (h.bound.Some? ==> h.bound.value !in LateKeys({}, NOBODY, run, lib)))
  {
    hide CellLate, SigOk, ViewOk;
    RunKeepsLate(NOBODY, {}, run, lib);
    StaleKeyWrongView(After(NOBODY, run, lib), LateKeys({}, NOBODY, run, lib), i);
  }

  /** One late demand is for ever: any context bound to that key, then or at any time later, has a wrong view. */
  lemma LateDemandIsForever(run: seq<Event>, demand: Event, more: seq<Event>, lib: Lib, i: nat)
    requires ValidRun(NOBODY, run, lib)
    requires var w := After(NOBODY, run, lib);
      && Conserved(w) && ValidEvent(w, demand) && demand.SetStoreParams? && !Timely(w, demand)
      && Conserved(Step(w, demand, lib)) && ValidRun(Step(w, demand, lib), more, lib)
    requires var w' := After(Step(After(NOBODY, run, lib), demand, lib), more, lib);
      && i < |w'.holders| && w'.holders[i].Sig?
      && w'.holders[i].bound == Some(After(NOBODY, run, lib).holders[demand.i].id)
    ensures var w' := After(Step(After(NOBODY, run, lib), demand, lib), more, lib);
      w'.holders[i].bound.value < |w'.cells| && !ViewOk(w', w'.holders[i])
  {
    hide CellLate, SigOk, ViewOk, Step, Timely;
    RunKeepsLate(NOBODY, {}, run, lib);
    var w, late := After(NOBODY, run, lib), LateKeys({}, NOBODY, run, lib);
    StepKeepsLate(w, late, demand, lib);
    RunKeepsLate(Step(w, demand, lib), NextLate(late, w, demand), more, lib);
    StaleKeyWrongView(After(Step(w, demand, lib), more, lib),
                      LateKeys(NextLate(late, w, demand), Step(w, demand, lib), more, lib), i);
  }

  ghost predicate AllTimely(w: World, run: seq<Event>, lib: Lib)
    requires Conserved(w) && ValidRun(w, run, lib)
    decreases |run|
  {
    run == [] ||
      (StepConserves(w, run[0], lib); Timely(w, run[0]) && AllTimely(Step(w, run[0], lib), run[1..], lib))
  }

  lemma LateDemandHits(w: World, ev: Event)
    requires Conserved(w) && ValidEvent(w, ev)
    ensures NextLate({}, w, ev) == {} <==> Timely(w, ev)
  {
    hide CellOk;
  }

  /** Some key is hit exactly if some demand of the run is late. */
  lemma {:induction false} SomeLateExactly(w: World, run: seq<Event>, lib: Lib)
    requires LateInv(w, {}) && ValidRun(w, run, lib)
    ensures LateKeys({}, w, run, lib) == {} <==> AllTimely(w, run, lib)
    decreases |run|
  {
    hide CellOk, CellLate, SigOk, Step, Timely, NextLate;
    if run != [] {
      StepKeepsLate(w, {}, run[0], lib);
      LateDemandHits(w, run[0]);
      var w' := Step(w, run[0], lib);
      if Timely(w, run[0]) {
        SomeLateExactly(w', run[1..], lib);
      } else {
        RunKeepsLate(w', NextLate({}, w, run[0]), run[1..], lib);
      }
    }
  }

  /**
   * FIPS provenance: in every run where store parameters that ask for FIPS come before the load, each
   * context with a key has a public view, and whenever the operation requires FIPS that view was parsed
   * under FIPS, across loads, duplicates of keys and contexts, and bindings.
   */
  lemma FipsProvenance(run: seq<Event>, lib: Lib, i: nat)
    requires ValidRun(NOBODY, run, lib) && AllTimely(NOBODY, run, lib)
    requires i < |After(NOBODY, run, lib).holders| && After(NOBODY, run, lib).holders[i].Sig?
    ensures var w := After(NOBODY, run, lib); var h := w.holders[i];
      (h.bound.Some? ==> h.bound.value < |w.cells|) && ViewOk(w, h)
  {
    hide CellLate, SigOk, ViewOk;
    SomeLateExactly(NOBODY, run, lib);
    ViewsFailExactly(run, lib, i);
  }

  /** Open a store, load its key, bind a signature context to it. */
  function LoadAndBind(der: Bytes, spec: Spec, o: Answers, keyId: string, e: Env): seq<Event> {
    [Open(false, Some(keyId)), Load(0, true, der, Some(spec), o, true), NewSig(false), Bind(2, 1, e)]
  }

  /** The world after it. */
  function LoadedAndBound(der: Bytes, spec: Spec, o: Answers, keyId: string, lib: Lib): World
    requires o.decoded.Some?
  {
    World([Cell(3, false, LoadedKey(der, spec, o, keyId, lib))],
          [Store(0, true, 0), Handle(0), Sig(Some(0), false, EMPTY)])
  }

  lemma RunOneMore(w: World, ev: Event, rest: seq<Event>, lib: Lib)
    requires Conserved(w) && ValidEvent(w, ev)
    ensures Conserved(Step(w, ev, lib))
    ensures ValidRun(w, [ev] + rest, lib) <==> ValidRun(Step(w, ev, lib), rest, lib)
    ensures ValidRun(Step(w, ev, lib), rest, lib) ==> After(w, [ev] + rest, lib) == After(Step(w, ev, lib), rest, lib)
  {
    StepConserves(w, ev, lib);
    hide Step, Conserved, ValidEvent;
    assert ([ev] + rest)[1..] == rest;
  }

  /** The key such a run loads. */
  function LoadedKey(der: Bytes, spec: Spec, o: Answers, keyId: string, lib: Lib): Key
    requires o.decoded.Some?
  {
    Key(Some(keyId), Parsed(spec, der, false, o.decoded.value, lib.shake), false)
  }

  lemma OpenRuns(keyId: string, lib: Lib)
    ensures Conserved(NOBODY) && ValidEvent(NOBODY, Open(false, Some(keyId)))
    ensures Step(NOBODY, Open(false, Some(keyId)), lib)
         == World([Cell(1, false, Key(Some(keyId), EMPTY, false))], [Store(0, false, 0)])
  {
  }

  lemma LoadRuns(der: Bytes, spec: Spec, o: Answers, keyId: string, lib: Lib)
    requires Known(spec) && Accepts(spec, der, o)
    ensures var w := World([Cell(1, false, Key(Some(keyId), EMPTY, false))], [Store(0, false, 0)]);
      var ev := Load(0, true, der, Some(spec), o, true);
      && ValidEvent(w, ev) && RefsExist(w)
      && Step(w, ev, lib)
           == World([Cell(2, false, LoadedKey(der, spec, o, keyId, lib))], [Store(0, true, 0), Handle(0)])
  {
    hide Accepts, Parsed, Known;
  }

  lemma NewSigRuns(key: Key, lib: Lib)
    ensures var w := World([Cell(2, false, key)], [Store(0, true, 0), Handle(0)]);
      && ValidEvent(w, NewSig(false)) && RefsExist(w)
      && Step(w, NewSig(false), lib)
           == World([Cell(2, false, key)], [Store(0, true, 0), Handle(0), Sig(None, false, EMPTY)])
  {
  }

  lemma BindRuns(key: Key, e: Env, lib: Lib)
    requires e.upRef && !key.fips
    ensures var w := World([Cell(2, false, key)], [Store(0, true, 0), Handle(0), Sig(None, false, EMPTY)]);
      && ValidEvent(w, Bind(2, 1, e)) && RefsExist(w)
      && Step(w, Bind(2, 1, e), lib)
           == World([Cell(3, false, key)], [Store(0, true, 0), Handle(0), Sig(Some(0), false, EMPTY)])
  {
  }

  /** One event after the other, each leading to the next world. */
  ghost predicate Leads(w: World, ev: Event, w': World, lib: Lib) {
    Conserved(w) && ValidEvent(w, ev) && Step(w, ev, lib) == w'
  }

  lemma FourRun(w0: World, a: Event, w1: World, b: Event, w2: World, c: Event, w3: World, d: Event, w4: World,
        rest: seq<Event>, lib: Lib)
    requires Leads(w0, a, w1, lib) && Leads(w1, b, w2, lib) && Leads(w2, c, w3, lib) && Leads(w3, d, w4, lib)
    ensures Conserved(w0) && Conserved(w4)
    ensures ValidRun(w4, rest, lib) ==>
      ValidRun(w0, [a, b, c, d] + rest, lib) && After(w0, [a, b, c, d] + rest, lib) == After(w4, rest, lib)
  {
    hide Step, Conserved, ValidEvent, ValidRun, After;
    RunOneMore(w3, d, rest, lib);
    RunOneMore(w2, c, [d] + rest, lib);
    RunOneMore(w1, b, [c] + ([d] + rest), lib);
    RunOneMore(w0, a, [b] + ([c] + ([d] + rest)), lib);
    assert [a, b, c, d] + rest == [a] + ([b] + ([c] + ([d] + rest)));
  }

  lemma LoadAndBindRuns(der: Bytes, spec: Spec, o: Answers, keyId: string, e: Env, lib: Lib, rest: seq<Event>)
    requires Known(spec) && Accepts(spec, der, o) && e.upRef
    ensures Conserved(NOBODY) && Conserved(LoadedAndBound(der, spec, o, keyId, lib))
    ensures var run := LoadAndBind(der, spec, o, keyId, e) + rest; var t := LoadedAndBound(der, spec, o, keyId, lib);
      ValidRun(t, rest, lib) ==> ValidRun(NOBODY, run, lib) && After(NOBODY, run, lib) == After(t, rest, lib)
  {
    var key := LoadedKey(der, spec, o, keyId, lib);
    var w1 := World([Cell(1, false, Key(Some(keyId), EMPTY, false))], [Store(0, false, 0)]);
    var w2 := World([Cell(2, false, key)], [Store(0, true, 0), Handle(0)]);
    var w3 := World([Cell(2, false, key)], [Store(0, true, 0), Handle(0), Sig(None, false, EMPTY)]);
    OpenRuns(keyId, lib);
    LoadRuns(der, spec, o, keyId, lib);
    NewSigRuns(key, lib);
    BindRuns(key, e, lib);
    hide Step, Known, Accepts, ValidRun, After, CellOk, RefsExist;
    StepConserves(NOBODY, Open(false, Some(keyId)), lib);
    StepConserves(w1, Load(0, true, der, Some(spec), o, true), lib);
    StepConserves(w2, NewSig(false), lib);
    StepConserves(w3, Bind(2, 1, e), lib);
    hide Conserved, ValidEvent;
    FourRun(NOBODY, Open(false, Some(keyId)), w1, Load(0, true, der, Some(spec), o, true), w2, NewSig(false), w3,
            Bind(2, 1, e), LoadedAndBound(der, spec, o, keyId, lib), rest, lib);
  }

  /**
   * From the empty world, for any input a store accepts: after these four events all is well, and after one
   * late demand for FIPS a context that now requires it has a view that was not parsed under it.
   */
  lemma LateDemandIsReachable(der: Bytes, spec: Spec, o: Answers, keyId: string, e: Env, lib: Lib)
    requires Known(spec) && Accepts(spec, der, o) && e.upRef
    ensures var run := LoadAndBind(der, spec, o, keyId, e); var late := SetStoreParams(0, 0, true);
      && ValidRun(NOBODY, run, lib) && Conserved(After(NOBODY, run, lib)) && ViewsOk(After(NOBODY, run, lib))
      && ValidRun(NOBODY, run + [late], lib) && Conserved(After(NOBODY, run + [late], lib))
      && !ViewsOk(After(NOBODY, run + [late], lib))
  {
    var run, late := LoadAndBind(der, spec, o, keyId, e), SetStoreParams(0, 0, true);
    LoadAndBindRuns(der, spec, o, keyId, e, lib, []);
    LoadAndBindRuns(der, spec, o, keyId, e, lib, [late]);
    assert run + [] == run;
    var t := LoadedAndBound(der, spec, o, keyId, lib);
    RunOneMore(t, late, [], lib);
    assert [late] + [] == [late];
    DemandAfterBinding(LoadedKey(der, spec, o, keyId, lib), lib);
  }

  lemma DemandAfterBinding(key: Key, lib: Lib)
    requires !key.fips && key.pub.pkey.Some? && !key.pub.pkey.value.fips
    ensures var t := World([Cell(3, false, key)], [Store(0, true, 0), Handle(0), Sig(Some(0), false, EMPTY)]);
      var late := SetStoreParams(0, 0, true);
      && RefsExist(t) && ViewsOk(t)
      && ValidEvent(t, late) && RefsExist(Step(t, late, lib)) && !ViewsOk(Step(t, late, lib))
  {
    var t := World([Cell(3, false, key)], [Store(0, true, 0), Handle(0), Sig(Some(0), false, EMPTY)]);
    var t' := Step(t, SetStoreParams(0, 0, true), lib);
    assert t'.cells[0].key == key.(fips := true) && t'.holders[2] == t.holders[2];
    assert !ViewOk(t', t'.holders[2]);
  }
}
