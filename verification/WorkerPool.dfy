/**
 * `mapLimit` (scripts/real-kms-keys.mjs:122-137): asynchronous workers share one counter and fill one
 * output array.  Between two awaits a worker runs alone, so a claim of the counter is one step.
 */
module WorkerPool {
  import opened Bytes

  /** A worker between items, in the middle of one (at some stage of `fn`), through, or with a rejected `fn`. */
  datatype Worker<+S> = Idle | Busy(index: nat, stage: S) | Done | Rejected(index: nat)

  datatype Pool<+S, +R> = Pool(next: nat, workers: seq<Worker<S>>, output: seq<Option<R>>)

  function Start<S, R>(n: nat, limit: nat): Pool<S, R> {
    Pool(0, seq(Min(limit, n), _ => Idle), seq(n, _ => None))
  }

  function Size<S, R>(p: Pool<S, R>): nat {
    |p.output|
  }

  /** `const index = next++`, and either the end or the first stage of the item. */
  function Claim<S, R>(p: Pool<S, R>, w: nat, first: S): Pool<S, R>
    requires w < |p.workers|
  {
    p.(next := p.next + 1, workers := p.workers[w := if p.next >= Size(p) then Done else Busy(p.next, first)])
  }

  function Advance<S, R>(p: Pool<S, R>, w: nat, stage: S): Pool<S, R>
    requires w < |p.workers| && p.workers[w].Busy?
  {
    p.(workers := p.workers[w := p.workers[w].(stage := stage)])
  }

  /** `output[index] = await fn(...)` */
  function Resolve<S, R>(p: Pool<S, R>, w: nat, result: R): Pool<S, R>
    requires w < |p.workers| && p.workers[w].Busy? && p.workers[w].index < Size(p)
  {
    p.(workers := p.workers[w := Idle], output := p.output[p.workers[w].index := Some(result)])
  }

  /** A rejection ends this worker; the others are not told. */
  function Reject<S, R>(p: Pool<S, R>, w: nat): Pool<S, R>
    requires w < |p.workers| && p.workers[w].Busy?
  {
    p.(workers := p.workers[w := Rejected(p.workers[w].index)])
  }

  /** `Promise.all` resolves when every worker has returned. */
  predicate AllDone<S, R>(p: Pool<S, R>) {
    forall w :: 0 <= w < |p.workers| ==> p.workers[w].Done?
  }

  predicate AnyRejected<S, R>(p: Pool<S, R>) {
    exists w :: 0 <= w < |p.workers| && p.workers[w].Rejected?
  }

  // ---------------------------------------------------------------- invariant

  predicate Holds<S>(worker: Worker<S>, i: nat) {
    (worker.Busy? || worker.Rejected?) && worker.index == i
  }

  /** The item was claimed, and its worker still has it or its output is there. */
  ghost predicate Placed<S(!new), R(!new)>(p: Pool<S, R>, i: nat)
    requires i < Size(p)
  {
    p.output[i].Some? || exists w :: 0 <= w < |p.workers| && Holds(p.workers[w], i)
  }

  ghost predicate WorkerOk<S(!new), R(!new)>(p: Pool<S, R>, w: nat)
    requires w < |p.workers|
  {
    match p.workers[w]
    case Idle => true
    case Done => p.next >= Size(p)
    case Busy(i, _) => i < Size(p) && i < p.next && p.output[i].None?
    case Rejected(i) => i < Size(p) && i < p.next && p.output[i].None?
  }

  /** Every item below the counter is in exactly one place, and nothing is known of the others. */
  ghost predicate Inv<S(!new), R(!new)>(p: Pool<S, R>) {
    && (forall w :: 0 <= w < |p.workers| ==> WorkerOk(p, w))
    && (forall v, w :: 0 <= v < w < |p.workers| && !p.workers[v].Idle? && !p.workers[v].Done? ==>
          !Holds(p.workers[w], p.workers[v].index))
    && (forall i :: 0 <= i < Size(p) ==> (Placed(p, i) <==> i < p.next))
  }

  lemma StartInv<S(!new), R(!new)>(n: nat, limit: nat)
    ensures Inv(Start<S, R>(n, limit)) && |Start<S, R>(n, limit).workers| == Min(limit, n)
    ensures Size(Start<S, R>(n, limit)) == n
  {
    var p := Start<S, R>(n, limit);
    forall i | 0 <= i < n
      ensures !Placed(p, i)
    {
    }
  }

  lemma StillPlaced<S(!new), R(!new)>(p: Pool<S, R>, p': Pool<S, R>, w: nat, i: nat)
    requires i < Size(p) == Size(p') && w < |p.workers| == |p'.workers|
    requires forall v :: 0 <= v < |p.workers| && v != w ==> p'.workers[v] == p.workers[v]
    requires p.output[i].Some? ==> p'.output[i].Some?
    requires Holds(p.workers[w], i) ==> Holds(p'.workers[w], i) || p'.output[i].Some?
    requires Placed(p, i)
    ensures Placed(p', i)
  {
    if p.output[i].None? {
      var v :| 0 <= v < |p.workers| && Holds(p.workers[v], i);
      assert Holds(p'.workers[v], i) || p'.output[i].Some?;
    }
  }

  lemma ClaimKeepsInv<S(!new), R(!new)>(p: Pool<S, R>, w: nat, first: S)
    requires Inv(p) && w < |p.workers| && p.workers[w].Idle?
    ensures Inv(Claim(p, w, first))
    ensures p.next < Size(p) ==> Claim(p, w, first).workers[w] == Busy(p.next, first)
  {
    var p' := Claim(p, w, first);
    assert forall v :: 0 <= v < |p.workers| ==> WorkerOk(p, v);
    forall i | 0 <= i < Size(p)
      ensures Placed(p', i) <==> i < p'.next
    {
      assert Placed(p, i) <==> i < p.next;
      if i < p.next {
        StillPlaced(p, p', w, i);
      } else if i == p.next {
        assert Holds(p'.workers[w], i);
      } else {
        assert forall v :: 0 <= v < |p.workers| ==> !Holds(p.workers[v], i);
        assert forall v :: 0 <= v < |p.workers| ==> !Holds(p'.workers[v], i);
      }
    }
    forall v, u | 0 <= v < u < |p'.workers| && !p'.workers[v].Idle? && !p'.workers[v].Done?
      ensures !Holds(p'.workers[u], p'.workers[v].index)
    {
      assert WorkerOk(p, v) && WorkerOk(p, u);
      assert v != w && u != w ==> !Holds(p.workers[u], p.workers[v].index);
    }
    forall v | 0 <= v < |p'.workers|
      ensures WorkerOk(p', v)
    {
      assert WorkerOk(p, v);
      assert p.next < Size(p) ==> !Placed(p, p.next);
    }
  }

  lemma AdvanceKeepsInv<S(!new), R(!new)>(p: Pool<S, R>, w: nat, stage: S)
    requires Inv(p) && w < |p.workers| && p.workers[w].Busy?
    ensures Inv(Advance(p, w, stage))
  {
    SameIndexKeepsInv(p, Advance(p, w, stage), w);
  }

  lemma RejectKeepsInv<S(!new), R(!new)>(p: Pool<S, R>, w: nat)
    requires Inv(p) && w < |p.workers| && p.workers[w].Busy?
    ensures Inv(Reject(p, w))
  {
    SameIndexKeepsInv(p, Reject(p, w), w);
  }

  lemma SameIndexKeepsInv<S(!new), R(!new)>(p: Pool<S, R>, p': Pool<S, R>, w: nat)
    requires Inv(p) && w < |p.workers| == |p'.workers| && p.workers[w].Busy?
    requires p'.next == p.next && p'.output == p.output
    requires forall v :: 0 <= v < |p.workers| && v != w ==> p'.workers[v] == p.workers[v]
    requires (p'.workers[w].Busy? || p'.workers[w].Rejected?) && p'.workers[w].index == p.workers[w].index
    ensures Inv(p')
  {
    forall v | 0 <= v < |p'.workers|
      ensures WorkerOk(p', v)
    {
      assert WorkerOk(p, v);
    }
    forall i | 0 <= i < Size(p)
      ensures Placed(p', i) <==> i < p'.next
    {
      assert Placed(p, i) <==> i < p.next;
      if Placed(p, i) {
        StillPlaced(p, p', w, i);
      }
    }
  }

  lemma ResolveKeepsInv<S(!new), R(!new)>(p: Pool<S, R>, w: nat, result: R)
    requires Inv(p) && w < |p.workers| && p.workers[w].Busy? && p.workers[w].index < Size(p)
    ensures Inv(Resolve(p, w, result))
    ensures p.output[p.workers[w].index].None?
  {
    var index := p.workers[w].index;
    var p' := Resolve(p, w, result);
    assert WorkerOk(p, w);
    forall v | 0 <= v < |p'.workers|
      ensures WorkerOk(p', v)
    {
      assert WorkerOk(p, v);
      assert v < w && !p.workers[v].Idle? && !p.workers[v].Done? ==> !Holds(p.workers[w], p.workers[v].index);
      assert w < v ==> !Holds(p.workers[v], index);
    }
    forall i | 0 <= i < Size(p)
      ensures Placed(p', i) <==> i < p'.next
    {
      assert Placed(p, i) <==> i < p.next;
      if Placed(p, i) {
        StillPlaced(p, p', w, i);
      }
    }
  }

  // ---------------------------------------------------------------- what it means

  /** No two workers have the same item: an index is claimed once. */
  lemma NoItemTwice<S(!new), R(!new)>(p: Pool<S, R>, v: nat, w: nat)
    requires Inv(p) && v < |p.workers| && w < |p.workers| && p.workers[v].Busy? && p.workers[w].Busy?
    requires p.workers[v].index == p.workers[w].index
    ensures v == w
  {
    assert v < w ==> !Holds(p.workers[w], p.workers[v].index);
    assert w < v ==> !Holds(p.workers[v], p.workers[w].index);
  }

  /** When all workers have returned, every item has its output. */
  lemma DoneIsComplete<S(!new), R(!new)>(p: Pool<S, R>)
    requires Inv(p) && AllDone(p) && (Size(p) > 0 ==> |p.workers| > 0)
    ensures forall i :: 0 <= i < Size(p) ==> p.output[i].Some?
  {
    if Size(p) > 0 {
      assert WorkerOk(p, 0);
      forall i | 0 <= i < Size(p)
        ensures p.output[i].Some?
      {
        assert Placed(p, i);
      }
    }
  }

  // ---------------------------------------------------------------- runs of a pool on its own

  /** One worker goes on: it claims, or its `fn` resolves or rejects. */
  datatype Event<+R> = Claims(w: nat) | Resolves(w: nat, result: R) | Rejects(w: nat)

  predicate ValidEvent<R>(p: Pool<(), R>, e: Event<R>) {
    && e.w < |p.workers|
    && if e.Claims? then p.workers[e.w].Idle? else p.workers[e.w].Busy? && p.workers[e.w].index < Size(p)
  }

  function Step<R>(p: Pool<(), R>, e: Event<R>): Pool<(), R>
    requires ValidEvent(p, e)
  {
    match e
    case Claims(w) => Claim(p, w, ())
    case Resolves(w, result) => Resolve(p, w, result)
    case Rejects(w) => Reject(p, w)
  }

  ghost predicate ValidRun<R(!new)>(p: Pool<(), R>, run: seq<Event<R>>)
    decreases |run|
  {
    run == [] || (ValidEvent(p, run[0]) && ValidRun(Step(p, run[0]), run[1..]))
  }

  ghost function After<R(!new)>(p: Pool<(), R>, run: seq<Event<R>>): Pool<(), R>
    requires ValidRun(p, run)
    decreases |run|
  {
    if run == [] then p else After(Step(p, run[0]), run[1..])
  }

  /** The item each claim of a run gives out, in order. */
  ghost function Claimed<R(!new)>(p: Pool<(), R>, run: seq<Event<R>>): seq<nat>
    requires ValidRun(p, run)
    decreases |run|
  {
    if run == [] then []
    else (if run[0].Claims? && p.next < Size(p) then [p.next] else []) + Claimed(Step(p, run[0]), run[1..])
  }

  lemma StepKeepsInv<R(!new)>(p: Pool<(), R>, e: Event<R>)
    requires Inv(p) && ValidEvent(p, e)
    ensures Inv(Step(p, e)) && |Step(p, e).workers| == |p.workers| && Size(Step(p, e)) == Size(p)
  {
    hide Inv;
    match e
    case Claims(w) => ClaimKeepsInv(p, w, ());
    case Resolves(w, result) => ResolveKeepsInv(p, w, result);
    case Rejects(w) => RejectKeepsInv(p, w);
  }

  /** The claims of a run are the next items one after the other, so each item is given out exactly once. */
  lemma {:induction false} ClaimsAreConsecutive<R(!new)>(p: Pool<(), R>, run: seq<Event<R>>)
    requires ValidRun(p, run)
    ensures var c := Claimed(p, run); var q := After(p, run);
      && Size(q) == Size(p) && q.next >= p.next
      && |c| == Min(q.next, Size(p)) - Min(p.next, Size(p))
      && forall k :: 0 <= k < |c| ==> c[k] == p.next + k
    decreases |run|
  {
    if run != [] {
      ClaimsAreConsecutive(Step(p, run[0]), run[1..]);
    }
  }

  lemma {:induction false} RunKeepsInv<R(!new)>(p: Pool<(), R>, run: seq<Event<R>>)
    requires Inv(p) && ValidRun(p, run)
    ensures Inv(After(p, run)) && |After(p, run).workers| == |p.workers| && Size(After(p, run)) == Size(p)
    decreases |run|
  {
    hide Inv;
    if run != [] {
      StepKeepsInv(p, run[0]);
      RunKeepsInv(Step(p, run[0]), run[1..]);
    }
  }

  /** The result the call for item i resolved with, if it did. */
  ghost function ResultOf<R(!new)>(p: Pool<(), R>, run: seq<Event<R>>, i: nat): Option<R>
    requires ValidRun(p, run)
    decreases |run|
  {
    if run == [] then None
    else
      var later := ResultOf(Step(p, run[0]), run[1..], i);
      if later.Some? then later
      else if run[0].Resolves? && p.workers[run[0].w].index == i then Some(run[0].result)
      else None
  }

  lemma {:induction false} OutputsArePlaced<R(!new)>(p: Pool<(), R>, run: seq<Event<R>>, i: nat)
    requires ValidRun(p, run) && i < Size(p)
    ensures Size(After(p, run)) == Size(p)
    ensures After(p, run).output[i] == if ResultOf(p, run, i).Some? then ResultOf(p, run, i) else p.output[i]
    decreases |run|
  {
    if run != [] {
      OutputsArePlaced(Step(p, run[0]), run[1..], i);
    }
  }

  function InFlight<S, R>(p: Pool<S, R>): nat {
    CountBusy(p.workers)
  }

  function CountBusy<S>(workers: seq<Worker<S>>): (n: nat)
    ensures n <= |workers|
  {
    if workers == [] then 0 else (if workers[0].Busy? then 1 else 0) + CountBusy(workers[1..])
  }

  /**
   * In every interleaving of the workers: the items are claimed in order, each exactly once; at most
   * min(limit, n) calls are in flight, no two for the same item; the output holds at position i what the
   * call for item i gave; and when all workers have returned, every position is filled.
   */
  lemma MapLimitIsSound<R(!new)>(n: nat, limit: nat, run: seq<Event<R>>)
    requires limit > 0 && ValidRun(Start<(), R>(n, limit), run)
    ensures var p := Start<(), R>(n, limit); var q := After(p, run); var c := Claimed(p, run);
      && |c| == Min(q.next, n) && (forall k :: 0 <= k < |c| ==> c[k] == k)
      && InFlight(q) <= Min(limit, n)
      && (forall v, w :: 0 <= v < w < |q.workers| && q.workers[v].Busy? && q.workers[w].Busy? ==>
            q.workers[v].index != q.workers[w].index)
      && |q.output| == n && (forall i :: 0 <= i < n ==> q.output[i] == ResultOf(p, run, i))
      && (AllDone(q) ==> forall i :: 0 <= i < n ==> q.output[i].Some?)
  {
    var p := Start<(), R>(n, limit);
    StartInv<(), R>(n, limit);
    RunKeepsInv(p, run);
    ClaimsAreConsecutive(p, run);
    var q := After(p, run);
    forall i | 0 <= i < n
      ensures q.output[i] == ResultOf(p, run, i)
    {
      OutputsArePlaced(p, run, i);
    }
    forall v, w | 0 <= v < w < |q.workers| && q.workers[v].Busy? && q.workers[w].Busy?
      ensures q.workers[v].index != q.workers[w].index
    {
      if q.workers[v].index == q.workers[w].index {
        NoItemTwice(q, v, w);
      }
    }
    if AllDone(q) {
      DoneIsComplete(q);
    }
  }
}
