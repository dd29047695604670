/**
 * Many threads sharing the client cache (src/kms_aws.cc, `client_for`): lookup and publication are
 * atomic under the lock, construction and destruction happen outside it, and clients are kept alive
 * by `shared_ptr` counts alone.  One event is one of these actions of one caller.
 */
module ClientSharing {
  import opened Bytes
  import opened ClientKey
  import opened LruCache
  import opened Holders

  datatype Pc =
    | Idle
    | Building      // missed, about to construct
    | Built         // holds its own candidate
    | Evicting      // published, the evicted client not yet released
    | Using         // `client_for` has returned

  /** `held` are the caller's own shared_ptrs: the client it works with first, then an evicted one. */
  datatype Caller = Caller(pc: Pc, inputs: Inputs, key: ClientKey, held: seq<Client>)

  /**
   * `refs[c]` is the use count of client c, `origin[c]` what it was constructed from, `history` the
   * operations on the cache so far.
   */
  datatype State = State(
    mru: Mru,
    callers: seq<Caller>,
    refs: seq<nat>,
    origin: seq<Inputs>,
    destroyed: set<Client>,
    history: seq<Op>)

  datatype Event =
    | Start(caller: nat, inputs: Inputs)          // resolve settings, then cached_client
    | Build(caller: nat, fails: bool)             // construct a client outside the lock
    | PublishBuilt(caller: nat)                   // publish_client
    | ReleaseEvicted(caller: nat)                 // evicted.reset()
    | Release(caller: nat)                        // the caller drops its client

  predicate ValidEvent(s: State, e: Event) {
    && e.caller < |s.callers|
    && (e.Start? ==> ProfileNullOrNamed(e.inputs))
  }

  /** What one action does: an operation on the cache, a use count up, one down, a new client. */
  datatype Effect = Effect(op: Option<Op>, inc: Option<Client>, dec: Option<Client>, builds: bool, caller: Caller)

  function NoEffect(me: Caller): Effect {
    Effect(None, None, None, false, me)
  }

  function StartEffect(env: AwsEnv, m: Mru, me: Caller, inputs: Inputs): Effect {
    if !me.pc.Idle? || !Resolve(env, inputs).Resolved? then NoEffect(me)
    else
      var key := Resolve(env, inputs).key;
      var found := Lookup(m, key).client;
      if found.None? then Effect(Some(Look(key)), None, None, false, Caller(Building, inputs, key, []))
      else Effect(Some(Look(key)), found, None, false, Caller(Using, inputs, key, [found.value]))
  }

  function BuildEffect(fresh': Client, me: Caller, fails: bool): Effect {
    if !me.pc.Building? then NoEffect(me)
    else if fails then Effect(None, None, None, false, me.(pc := Idle))
    else Effect(None, None, None, true, me.(pc := Built, held := [fresh']))
  }

  /** On a hit the candidate is given up for the resident; otherwise the cache entry shares it. */
  function PublishEffect(m: Mru, me: Caller): Effect {
    if !me.pc.Built? || |me.held| != 1 then NoEffect(me)
    else
      var p := Publish(m, me.key, me.held[0]);
      var op := Some(Pub(me.key, me.held[0]));
      if Find(m, me.key) < |m|
      then Effect(op, Some(p.client), Some(me.held[0]), false, me.(pc := Using, held := [p.client]))
      else if p.evicted.Some?
      then Effect(op, Some(p.client), None, false, me.(pc := Evicting, held := [p.client, p.evicted.value]))
      else Effect(op, Some(p.client), None, false, me.(pc := Using, held := [p.client]))
  }

  function ReleaseEffect(me: Caller, evicted: bool): Effect {
    if evicted && me.pc.Evicting? && |me.held| == 2
    then Effect(None, None, Some(me.held[1]), false, me.(pc := Using, held := [me.held[0]]))
    else if !evicted && me.pc.Using? && |me.held| == 1
    then Effect(None, None, Some(me.held[0]), false, me.(pc := Idle, held := []))
    else NoEffect(me)
  }

  function NextEffect(env: AwsEnv, s: State, e: Event): Effect
    requires ValidEvent(s, e)
  {
    var me := s.callers[e.caller];
    match e
    case Start(_, inputs) => StartEffect(env, s.mru, me, inputs)
    case Build(_, fails) => BuildEffect(|s.refs|, me, fails)
    case PublishBuilt(_) => PublishEffect(s.mru, me)
    case ReleaseEvicted(_) => ReleaseEffect(me, true)
    case Release(_) => ReleaseEffect(me, false)
  }

  function Bump(refs: seq<nat>, c: Option<Client>): seq<nat> {
    if c.None? || c.value >= |refs| then refs else refs[c.value := refs[c.value] + 1]
  }

  function Lower(refs: seq<nat>, c: Option<Client>): seq<nat> {
    if c.None? || c.value >= |refs| || refs[c.value] == 0 then refs else refs[c.value := refs[c.value] - 1]
  }

  function ApplyOp(m: Mru, op: Option<Op>): Mru {
    match op
    case None => m
    case Some(o) => Apply(m, o)
  }

  /** The last shared_ptr destroys the client. */
  function ApplyEffect(s: State, i: nat, f: Effect): State
    requires i < |s.callers|
  {
    var refs := Lower(Bump(s.refs + (if f.builds then [1] else []), f.inc), f.dec);
    State(
      ApplyOp(s.mru, f.op),
      s.callers[i := f.caller],
      refs,
      if f.builds then s.origin + [f.caller.inputs] else s.origin,
      if f.dec.Some? && f.dec.value < |refs| && refs[f.dec.value] == 0
      then s.destroyed + {f.dec.value} else s.destroyed,
      if f.op.Some? then s.history + [f.op.value] else s.history)
  }

  function Step(env: AwsEnv, s: State, e: Event): State
    requires ValidEvent(s, e)
  {
    ApplyEffect(s, e.caller, NextEffect(env, s, e))
  }

  ghost predicate Init(s: State) {
    && s.mru == [] && s.refs == [] && s.origin == [] && s.destroyed == {} && s.history == []
    && forall i :: 0 <= i < |s.callers| ==> s.callers[i].pc == Idle && s.callers[i].held == []
  }

  ghost predicate ValidRun(env: AwsEnv, s: State, run: seq<Event>)
    decreases |run|
  {
    run != [] ==> ValidEvent(s, run[0]) && ValidRun(env, Step(env, s, run[0]), run[1..])
  }

  ghost function Run(env: AwsEnv, s: State, run: seq<Event>): State
    requires ValidRun(env, s, run)
    decreases |run|
  {
    if run == [] then s else Run(env, Step(env, s, run[0]), run[1..])
  }

  // ---------------------------------------------------------------- the invariant

  function Clients(m: Mru): (cs: seq<Client>)
    ensures |cs| == |m| && forall i :: 0 <= i < |m| ==> cs[i] == m[i].client
  {
    seq(|m|, i requires 0 <= i < |m| => m[i].client)
  }

  function Helds(callers: seq<Caller>): (hs: seq<seq<Client>>)
    ensures |hs| == |callers| && forall i :: 0 <= i < |hs| ==> hs[i] == callers[i].held
  {
    seq(|callers|, i requires 0 <= i < |callers| => callers[i].held)
  }

  /** The shared_ptrs to `c`: one per cache entry, the rest with the callers. */
  function Pointers(s: State, c: Client): nat {
    Count(Clients(s.mru), c) + Held(Helds(s.callers), c)
  }

  ghost predicate BuiltFor(env: AwsEnv, origin: seq<Inputs>, c: Client, key: ClientKey) {
    c < |origin| && ProfileNullOrNamed(origin[c]) && Resolve(env, origin[c]) == Resolved(key)
  }

  ghost predicate CallerOk(env: AwsEnv, origin: seq<Inputs>, me: Caller) {
    && (me.pc.Idle? || me.pc.Building? ==> me.held == [])
    && (me.pc.Built? || me.pc.Using? ==> |me.held| == 1)
    && (me.pc.Evicting? ==> |me.held| == 2)
    && (!me.pc.Idle? ==> ProfileNullOrNamed(me.inputs) && Resolve(env, me.inputs) == Resolved(me.key))
    && (me.held != [] ==> BuiltFor(env, origin, me.held[0], me.key))
  }

  ghost predicate CacheOk(env: AwsEnv, origin: seq<Inputs>, m: Mru) {
    WellFormed(m) && forall slot :: slot in m ==> BuiltFor(env, origin, slot.client, slot.key)
  }

  /** The use count is the number of shared_ptrs, and a client is destroyed exactly at zero. */
  ghost predicate CountOk(s: State, c: Client) {
    && (if c < |s.refs| then s.refs[c] == Pointers(s, c) else Pointers(s, c) == 0)
    && (c in s.destroyed <==> c < |s.refs| && s.refs[c] == 0)
  }

  ghost predicate Inv(env: AwsEnv, s: State) {
    && s.mru == ApplyAll(s.history) && |s.origin| == |s.refs|
    && CacheOk(env, s.origin, s.mru)
    && (forall i :: 0 <= i < |s.callers| ==> CallerOk(env, s.origin, s.callers[i]))
    && (forall c: Client :: CountOk(s, c))
  }

  // ---------------------------------------------------------------- each action balances

  function One(c: Option<Client>, d: Client): nat {
    if c == Some(d) then 1 else 0
  }

  /** The change in use counts is the change in what the cache and the acting caller hold. */
  predicate Balanced(m: Mru, me: Caller, next: Client, f: Effect, c: Client) {
    Count(Clients(ApplyOp(m, f.op)), c) + Count(f.caller.held, c) + One(f.dec, c)
      == Count(Clients(m), c) + Count(me.held, c) + One(f.inc, c) + if f.builds && c == next then 1 else 0
  }

  lemma CountPair(a: Client, b: Client, c: Client)
    ensures Count([a, b], c) == One(Some(a), c) + One(Some(b), c)
  {
    assert [a, b] == [a] + [b];
    CountConcat([a], [b], c);
  }

  /** The clients behind a touch are the same ones, one of them moved. */
  lemma TouchedClients(m: Mru, i: nat)
    requires i < |m|
    ensures var cs := Clients(m); Clients(Touch(m, i)) == [cs[i]] + (cs[..i] + cs[i + 1..])
  {
    var cs, t := Clients(m), Touch(m, i);
    forall k | 0 <= k < |t|
      ensures Clients(t)[k] == ([cs[i]] + (cs[..i] + cs[i + 1..]))[k]
    {
      assert t[k] == if k == 0 then m[i] else if k <= i then m[k - 1] else m[k];
    }
  }

  lemma MovingKeepsCount(a: seq<Client>, x: Client, b: seq<Client>, c: Client)
    ensures Count([x] + (a + b), c) == Count(a + ([x] + b), c)
  {
    CountConcat([x], a + b, c);
    CountConcat(a, b, c);
    CountConcat(a, [x] + b, c);
    CountConcat([x], b, c);
  }

  lemma TouchBalanced(m: Mru, i: nat, c: Client)
    requires i < |m|
    ensures Count(Clients(Touch(m, i)), c) == Count(Clients(m), c)
  {
    var cs := Clients(m);
    TouchedClients(m, i);
    hide Clients, Touch, Count;
    MovingKeepsCount(cs[..i], cs[i], cs[i + 1..], c);
    assert cs == cs[..i] + ([cs[i]] + cs[i + 1..]);
  }

  lemma InsertBalanced(m: Mru, key: ClientKey, candidate: Client, c: Client)
    requires Find(m, key) == |m|
    ensures var p := Publish(m, key, candidate);
      Count(Clients(p.mru), c) + One(p.evicted, c) == Count(Clients(m), c) + One(Some(candidate), c)
  {
    var cs := Clients(m);
    var p := Publish(m, key, candidate);
    if p.evicted.Some? {
      var last := |m| - 1;
      assert cs == cs[..last] + [cs[last]] && Clients(p.mru) == [candidate] + cs[..last];
      CountConcat(cs[..last], [cs[last]], c);
      CountConcat([candidate], cs[..last], c);
    } else {
      assert Clients(p.mru) == [candidate] + cs;
      CountConcat([candidate], cs, c);
    }
  }

  lemma StartBalanced(env: AwsEnv, m: Mru, me: Caller, inputs: Inputs, next: Client, c: Client)
    requires me.pc.Idle? ==> me.held == []
    ensures Balanced(m, me, next, StartEffect(env, m, me, inputs), c)
  {
    var f := StartEffect(env, m, me, inputs);
    if f.op.Some? && Find(m, f.op.value.key) < |m| {
      TouchBalanced(m, Find(m, f.op.value.key), c);
    }
  }

  lemma PublishBalanced(m: Mru, me: Caller, next: Client, c: Client)
    ensures Balanced(m, me, next, PublishEffect(m, me), c)
  {
    var f := PublishEffect(m, me);
    if f.op.Some? {
      assert me.held == [me.held[0]];
      if Find(m, me.key) < |m| {
        TouchBalanced(m, Find(m, me.key), c);
      } else {
        InsertBalanced(m, me.key, me.held[0], c);
        if |f.caller.held| == 2 {
          CountPair(f.caller.held[0], f.caller.held[1], c);
        }
      }
    }
  }

  lemma OthersBalanced(m: Mru, me: Caller, next: Client, fails: bool, evicted: bool, c: Client)
    requires me.pc.Building? ==> me.held == []
    ensures Balanced(m, me, next, BuildEffect(next, me, fails), c)
    ensures Balanced(m, me, next, ReleaseEffect(me, evicted), c)
  {
    if |me.held| == 2 {
      assert me.held == [me.held[0], me.held[1]];
      CountPair(me.held[0], me.held[1], c);
    } else if |me.held| == 1 {
      assert me.held == [me.held[0]];
    }
  }

  lemma NextBalanced(env: AwsEnv, s: State, e: Event, c: Client)
    requires Inv(env, s) && ValidEvent(s, e)
    ensures Balanced(s.mru, s.callers[e.caller], |s.refs|, NextEffect(env, s, e), c)
  {
    var me := s.callers[e.caller];
    assert CallerOk(env, s.origin, me);
    match e
    case Start(_, inputs) => StartBalanced(env, s.mru, me, inputs, |s.refs|, c);
    case Build(_, fails) => OthersBalanced(s.mru, me, |s.refs|, fails, true, c);
    case PublishBuilt(_) => PublishBalanced(s.mru, me, |s.refs|, c);
    case ReleaseEvicted(_) => OthersBalanced(s.mru, me, |s.refs|, true, true, c);
    case Release(_) => OthersBalanced(s.mru, me, |s.refs|, true, false, c);
  }

  predicate Live(s: State, c: Client) {
    c < |s.refs| && s.refs[c] > 0
  }

  /** What the cache or a caller holds is live. */
  lemma HeldIsLive(env: AwsEnv, s: State, i: nat, c: Client)
    requires Inv(env, s) && i < |s.callers|
    requires c in s.callers[i].held || c in Clients(s.mru)
    ensures Live(s, c)
  {
    assert CountOk(s, c);
    CountZero(s.callers[i].held, c);
    CountZero(Clients(s.mru), c);
    HeldUpdate(Helds(s.callers), i, [], c);
  }

  /** Use counts go up only for live clients and down only for live ones. */
  lemma EffectIsLive(env: AwsEnv, s: State, e: Event)
    requires Inv(env, s) && ValidEvent(s, e)
    ensures var f := NextEffect(env, s, e);
      && (f.inc.Some? ==> Live(s, f.inc.value)) && (f.dec.Some? ==> Live(s, f.dec.value))
      && (f.builds ==> f.inc.None? && f.dec.None?)
  {
    var me := s.callers[e.caller];
    var f := NextEffect(env, s, e);
    if f.dec.Some? {
      HeldIsLive(env, s, e.caller, f.dec.value);
    }
    if f.inc.Some? {
      var i := Find(s.mru, f.op.value.key);
      if i < |s.mru| {
        assert f.inc.value == Clients(s.mru)[i];
      }
      HeldIsLive(env, s, e.caller, f.inc.value);
    }
  }

  // ---------------------------------------------------------------- every step, every run

  lemma EffectKeepsCount(s: State, i: nat, f: Effect, c: Client)
    requires i < |s.callers| && CountOk(s, c) && Balanced(s.mru, s.callers[i], |s.refs|, f, c)
    requires (f.inc.Some? ==> Live(s, f.inc.value)) && (f.dec.Some? ==> Live(s, f.dec.value))
    requires f.builds ==> f.inc.None? && f.dec.None?
    ensures CountOk(ApplyEffect(s, i, f), c)
  {
    HeldUpdate(Helds(s.callers), i, f.caller.held, c);
    assert Helds(s.callers[i := f.caller]) == Helds(s.callers)[i := f.caller.held];
  }

  lemma SlotsKnown(m: Mru, op: Op, slot: Slot)
    requires WellFormed(m) && slot in Apply(m, op)
    ensures slot in m || (op.Pub? && slot == Slot(op.key, op.candidate))
  {
    OperationsKeepWellFormed(m, op.key, if op.Pub? then op.candidate else 0);
  }

  /** What the cache finds for a key was built for that key. */
  lemma FoundIsRight(env: AwsEnv, origin: seq<Inputs>, m: Mru, key: ClientKey)
    requires CacheOk(env, origin, m) && Find(m, key) < |m|
    ensures BuiltFor(env, origin, m[Find(m, key)].client, key)
  {
    assert m[Find(m, key)] in m;
  }

  lemma StartIsRight(env: AwsEnv, origin: seq<Inputs>, m: Mru, me: Caller, inputs: Inputs)
    requires CacheOk(env, origin, m) && CallerOk(env, origin, me) && ProfileNullOrNamed(inputs)
    ensures CallerOk(env, origin, StartEffect(env, m, me, inputs).caller)
  {
    hide Find, Resolve, CacheOk, BuiltFor;
    if Resolve(env, inputs).Resolved? && Find(m, Resolve(env, inputs).key) < |m| {
      FoundIsRight(env, origin, m, Resolve(env, inputs).key);
    }
  }

  lemma PublishIsRight(env: AwsEnv, origin: seq<Inputs>, m: Mru, me: Caller)
    requires CacheOk(env, origin, m) && CallerOk(env, origin, me)
    ensures CallerOk(env, origin, PublishEffect(m, me).caller)
    ensures PublishEffect(m, me).op.Some? ==> BuiltFor(env, origin, me.held[0], me.key)
  {
    hide Find, Resolve, CacheOk, BuiltFor;
    if Find(m, me.key) < |m| {
      FoundIsRight(env, origin, m, me.key);
    }
  }

  lemma OthersAreRight(env: AwsEnv, origin: seq<Inputs>, me: Caller, fails: bool, evicted: bool)
    requires CallerOk(env, origin, me)
    ensures var f := BuildEffect(|origin|, me, fails);
      CallerOk(env, if f.builds then origin + [f.caller.inputs] else origin, f.caller)
    ensures CallerOk(env, origin, ReleaseEffect(me, evicted).caller)
  {
    hide Resolve;
  }

  /** The acting caller's effect: what it publishes, holds and builds is right for its key. */
  lemma EffectIsRight(env: AwsEnv, s: State, e: Event)
    requires Inv(env, s) && ValidEvent(s, e)
    ensures var f := NextEffect(env, s, e); var s' := Step(env, s, e);
      && CallerOk(env, s'.origin, f.caller)
      && (f.op.Some? && f.op.value.Pub? ==> BuiltFor(env, s.origin, f.op.value.candidate, f.op.value.key))
  {
    hide CallerOk, CacheOk, BuiltFor, CountOk, Find, Resolve, Bump, Lower, ApplyOp, ApplyAll;
    var me := s.callers[e.caller];
    assert CallerOk(env, s.origin, me);
    match e
    case Start(_, inputs) => StartIsRight(env, s.origin, s.mru, me, inputs);
    case Build(_, fails) => OthersAreRight(env, s.origin, me, fails, true);
    case PublishBuilt(_) => PublishIsRight(env, s.origin, s.mru, me);
    case ReleaseEvicted(_) => OthersAreRight(env, s.origin, me, true, true);
    case Release(_) => OthersAreRight(env, s.origin, me, true, false);
  }

  lemma StepKeepsInv(env: AwsEnv, s: State, e: Event)
    requires Inv(env, s) && ValidEvent(s, e)
    ensures Inv(env, Step(env, s, e))
  {
    var f := NextEffect(env, s, e);
    EffectIsRight(env, s, e);
    EffectIsLive(env, s, e);
    forall c: Client
      ensures CountOk(ApplyEffect(s, e.caller, f), c)
    {
      NextBalanced(env, s, e, c);
      EffectKeepsCount(s, e.caller, f, c);
    }
    EffectKeepsCache(env, s, e.caller, f);
    EffectKeepsOrigin(env, s, e.caller, f);
  }

  /** New clients come after the old ones, so what was known of the old ones stays known. */
  lemma OriginGrows(env: AwsEnv, s: State, i: nat, f: Effect, me: Caller, slot: Slot)
    requires i < |s.callers|
    ensures var o := ApplyEffect(s, i, f).origin;
      && (CallerOk(env, s.origin, me) ==> CallerOk(env, o, me))
      && (BuiltFor(env, s.origin, slot.client, slot.key) ==> BuiltFor(env, o, slot.client, slot.key))
  {
    assert ApplyEffect(s, i, f).origin[..|s.origin|] == s.origin;
  }

  lemma EffectKeepsCache(env: AwsEnv, s: State, i: nat, f: Effect)
    requires Inv(env, s) && i < |s.callers|
    requires f.op.Some? && f.op.value.Pub? ==> BuiltFor(env, s.origin, f.op.value.candidate, f.op.value.key)
    ensures var s' := ApplyEffect(s, i, f);
      s'.mru == ApplyAll(s'.history) && CacheOk(env, s'.origin, s'.mru)
  {
    var s' := ApplyEffect(s, i, f);
    if f.op.Some? {
      assert s'.history[..|s'.history| - 1] == s.history;
    }
    CacheHoldsMostRecent(s'.history);
    forall slot | slot in s'.mru
      ensures BuiltFor(env, s'.origin, slot.client, slot.key)
    {
      if f.op.Some? {
        SlotsKnown(s.mru, f.op.value, slot);
      }
      OriginGrows(env, s, i, f, f.caller, slot);
    }
  }

  lemma EffectKeepsOrigin(env: AwsEnv, s: State, i: nat, f: Effect)
    requires Inv(env, s) && i < |s.callers| && CallerOk(env, ApplyEffect(s, i, f).origin, f.caller)
    ensures var s' := ApplyEffect(s, i, f);
      && |s'.origin| == |s'.refs|
      && forall j :: 0 <= j < |s'.callers| ==> CallerOk(env, s'.origin, s'.callers[j])
  {
    hide CacheOk, CountOk, BuiltFor, Resolve, ApplyOp;
    var s' := ApplyEffect(s, i, f);
    forall j | 0 <= j < |s'.callers|
      ensures CallerOk(env, s'.origin, s'.callers[j])
    {
      if j != i {
        OriginGrows(env, s, i, f, s.callers[j], Slot(f.caller.key, 0));
      }
    }
  }

  lemma {:induction false} RunKeepsInv(env: AwsEnv, s: State, run: seq<Event>)
    requires Inv(env, s) && ValidRun(env, s, run)
    ensures Inv(env, Run(env, s, run))
    decreases |run|
  {
    if run != [] {
      StepKeepsInv(env, s, run[0]);
      RunKeepsInv(env, Step(env, s, run[0]), run[1..]);
    }
  }

  lemma InitInv(env: AwsEnv, s: State)
    requires Init(s)
    ensures Inv(env, s)
  {
    forall c: Client
      ensures CountOk(s, c)
    {
      HeldByNobody(Helds(s.callers), c);
    }
  }

  // ---------------------------------------------------------------- main results

  /** A count of zero means that nobody holds the client. */
  lemma DestroyedExactly(t: State, c: Client)
    requires CountOk(t, c) && c < |t.refs|
    ensures c in t.destroyed <==>
      && (forall i :: 0 <= i < |t.callers| ==> c !in t.callers[i].held)
      && (forall i :: 0 <= i < |t.mru| ==> t.mru[i].client != c)
  {
    HeldByNobody(Helds(t.callers), c);
    CountZero(Clients(t.mru), c);
    hide Count, Held;
    assert forall i :: 0 <= i < |t.callers| ==> Helds(t.callers)[i] == t.callers[i].held;
    assert forall i :: 0 <= i < |t.mru| ==> Clients(t.mru)[i] == t.mru[i].client;
    assert c in Clients(t.mru) <==> exists i :: 0 <= i < |t.mru| && t.mru[i].client == c;
  }

  /**
   * In every interleaving: a client is destroyed exactly when no cache entry and no caller holds it,
   * so eviction never takes a client away from a caller that still uses it.
   */
  lemma ClientsOutliveCallers(env: AwsEnv, s: State, run: seq<Event>, c: Client)
    requires Init(s) && ValidRun(env, s, run) && c < |Run(env, s, run).refs|
    ensures var t := Run(env, s, run);
      c in t.destroyed <==>
        && (forall i :: 0 <= i < |t.callers| ==> c !in t.callers[i].held)
        && (forall i :: 0 <= i < |t.mru| ==> t.mru[i].client != c)
  {
    InitInv(env, s);
    RunKeepsInv(env, s, run);
    assert CountOk(Run(env, s, run), c);
    hide CountOk, Run, ValidRun, Init, Inv;
    DestroyedExactly(Run(env, s, run), c);
  }

  /**
   * A call either is refused, or uses the client resident for its key without building another, or has to build.
   * A refusal leaves everything as it was.
   */
  lemma HitsBuildNothing(env: AwsEnv, s: State, i: nat, inputs: Inputs)
    requires Inv(env, s) && ValidEvent(s, Start(i, inputs)) && s.callers[i].pc.Idle?
    ensures var s' := Step(env, s, Start(i, inputs)); var me' := s'.callers[i];
      && s'.destroyed == s.destroyed && s'.origin == s.origin && |s'.refs| == |s.refs|
      && match Resolve(env, inputs)
         case Resolved(key) =>
           && me'.inputs == inputs && me'.key == key
           && (forall slot :: slot in s.mru && slot.key == key ==> me'.pc.Using? && me'.held == [slot.client])
           && ((forall slot :: slot in s.mru ==> slot.key != key) ==> me'.pc.Building? && me'.held == [])
         case _ => s' == s
  {
    hide Resolve, CallerOk, BuiltFor, CountOk;
    if Resolve(env, inputs).Resolved? {
      var key := Resolve(env, inputs).key;
      FindExactly(s.mru, key);
      EffectIsLive(env, s, Start(i, inputs));
    } else {
      assert s.callers[i := s.callers[i]] == s.callers && s.refs + [] == s.refs;
    }
  }

  lemma FindExactly(m: Mru, key: ClientKey)
    requires WellFormed(m)
    ensures forall slot :: slot in m && slot.key == key ==>
      Find(m, key) < |m| && Lookup(m, key).client == Some(slot.client)
    ensures (forall slot :: slot in m ==> slot.key != key) ==> Lookup(m, key).client.None?
  {
    forall slot | slot in m && slot.key == key
      ensures Find(m, key) < |m| && m[Find(m, key)] == slot
    {
      var k :| 0 <= k < |m| && m[k] == slot;
    }
  }

  /** A client that is built or not; an evicted client, and at last one's own, given up: everybody gets on. */
  lemma CallersGoOn(env: AwsEnv, s: State, i: nat, fails: bool)
    requires Inv(env, s) && i < |s.callers|
    ensures s.callers[i].pc.Building? ==>
      var s' := Step(env, s, Build(i, fails)); var me' := s'.callers[i];
      if fails then me'.pc.Idle? && me'.held == [] && |s'.refs| == |s.refs|
      else
        && me'.pc.Built? && me'.held == [|s.refs|] && |s'.refs| == |s.refs| + 1 && s'.refs[|s.refs|] == 1
        && s'.origin == s.origin + [s.callers[i].inputs]
    ensures s.callers[i].pc.Evicting? ==>
      var s' := Step(env, s, ReleaseEvicted(i));
      |s.callers[i].held| == 2 && s'.callers[i].pc.Using? && s'.callers[i].held == s.callers[i].held[..1]
    ensures s.callers[i].pc.Using? ==>
      var s' := Step(env, s, Release(i)); s'.callers[i].pc.Idle? && s'.callers[i].held == []
  {
    assert CallerOk(env, s.origin, s.callers[i]);
    hide CallerOk, BuiltFor, CountOk, Resolve, ApplyAll, CacheOk;
  }

  /**
   * Who publishes first keeps its own client and makes it the resident one; whoever comes second uses the resident
   * one, and its own is destroyed.
   */
  lemma FirstPublisherWins(env: AwsEnv, s: State, i: nat)
    requires Inv(env, s) && ValidEvent(s, PublishBuilt(i)) && s.callers[i].pc.Built?
    ensures |s.callers[i].held| == 1
    ensures var s' := Step(env, s, PublishBuilt(i)); var me, me' := s.callers[i], s'.callers[i];
      var own := me.held[0];
      && me'.held != [] && Lookup(s'.mru, me.key).client == Some(me'.held[0])
      && (forall slot :: slot in s.mru && slot.key == me.key ==>
            && me'.pc.Using? && me'.held == [slot.client]
            && (own != slot.client ==> own < |s.refs| == |s'.refs| && s'.refs[own] + 1 == s.refs[own]))
      && ((forall slot :: slot in s.mru ==> slot.key != me.key) ==> me'.held[0] == own && !me'.pc.Idle?)
  {
    var me := s.callers[i];
    assert CallerOk(env, s.origin, me);
    EffectIsLive(env, s, PublishBuilt(i));
    hide CallerOk, BuiltFor, CountOk, Resolve, ApplyAll;
    FindExactly(s.mru, me.key);
    PublishReturnsResident(s.mru, me.key, me.held[0]);
  }

  /**
   * Whatever client a caller ends up with, its own, a racing caller's or a cached one, that client is
   * alive and is the one a fresh construction from the caller's own settings would have made.
   */
  lemma CallersGetWhatTheyAskedFor(env: AwsEnv, s: State, run: seq<Event>, i: nat)
    requires Init(s) && ValidRun(env, s, run) && i < |Run(env, s, run).callers|
    ensures var t := Run(env, s, run); var me := t.callers[i];
      me.pc.Using? ==>
        && me.held != [] && me.held[0] < |t.origin| && me.held[0] !in t.destroyed
        && Resolve(env, me.inputs).Resolved? && Resolve(env, t.origin[me.held[0]]).Resolved?
        && Plan(env, t.origin[me.held[0]]) == Plan(env, me.inputs)
  {
    InitInv(env, s);
    RunKeepsInv(env, s, run);
    var t := Run(env, s, run);
    var me := t.callers[i];
    assert CallerOk(env, t.origin, me);
    if me.pc.Using? {
      HitEqualsFreshBuild(env, t.origin[me.held[0]], me.inputs);
      ClientsOutliveCallers(env, s, run, me.held[0]);
    }
  }

  /**
   * The cache holds the 64 most recently used keys of the run's history, one live client each, and no
   * entry with the FIPS flag has an endpoint override or a China region.
   */
  lemma CacheStaysBoundedAndRouted(env: AwsEnv, s: State, run: seq<Event>)
    requires Init(s) && ValidRun(env, s, run)
    ensures var t := Run(env, s, run);
      && WellFormed(t.mru) && Keys(t.mru) == Prefix(Uses(t.history), 64)
      && (forall slot :: slot in t.mru ==> FipsRouted(slot.key) && slot.client !in t.destroyed)
  {
    InitInv(env, s);
    RunKeepsInv(env, s, run);
    var t := Run(env, s, run);
    CacheHoldsMostRecent(t.history);
    forall slot | slot in t.mru
      ensures FipsRouted(slot.key) && slot.client !in t.destroyed
    {
      assert BuiltFor(env, t.origin, slot.client, slot.key);
      FipsKeysAreRouted(env, t.origin[slot.client]);
      ClientsOutliveCallers(env, s, run, slot.client);
    }
  }
}
