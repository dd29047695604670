/**
 * What the cleanup of `Teardown` comes to for each target (scripts/real-kms-keys.mjs:418-454, 523-587): what makes a
 * key ours, what preflight concluded about it, and that every conclusion is acted upon.
 */
module TeardownOutcome {
  import opened Bytes
  import WorkerPool
  import opened Teardown

  // ---------------------------------------------------------------- ownership

  /** Every expected tag is there with exactly the expected value. */
  ghost predicate TagsAreOurs(tags: map<string, string>, expected: seq<(string, string)>) {
    forall name, value :: (name, value) in expected ==> name in tags && tags[name] == value
  }

  /**
   * A target counts as ours exactly if the key is there, in the selected account and region, with all ownership tags
   * and the recorded key spec, if one was recorded; it counts as gone exactly if KMS does not find it.
   */
  lemma OwnershipExactly(t: Target, opts: Options, d: Described, l: Listed, arn: string)
    ensures Verdict(t, opts, d, l) == Exists(arn) <==>
      && d.DescribedKey? && d.arn == arn && l.Tags? && TagsAreOurs(l.tags, t.expectedTags)
      && d.place.Some? && d.place.value.account == opts.account && d.place.value.region == opts.region
      && (t.keySpec.None? || t.keySpec.value == "" || t.keySpec.value == d.keySpec)
    ensures Verdict(t, opts, d, l) == Absent <==> d.KeyNotFound?
  {
    if l.Tags? && TagsAreOurs(l.tags, t.expectedTags) {
      forall i | 0 <= i < |t.expectedTags|
        ensures TagMatches(l.tags, t.expectedTags[i])
      {
        assert (t.expectedTags[i].0, t.expectedTags[i].1) in t.expectedTags;
      }
    }
    if Owned(t, opts, d, l) {
      forall name, value | (name, value) in t.expectedTags
        ensures name in l.tags && l.tags[name] == value
      {
        var i :| 0 <= i < |t.expectedTags| && t.expectedTags[i] == (name, value);
        assert TagMatches(l.tags, t.expectedTags[i]);
      }
    }
  }

  // ---------------------------------------------------------------- what preflight concludes

  /** Gone; or ours, and then with the alias if the target has one and it points to the key. */
  predicate PreflightDone(t: Target, out: Out, history: seq<Call>) {
    || (history == [Verify(Absent)] && out == Nothing)
    || (|history| > 0 && history[0].Verify? && history[0].check.Exists?
        && if t.alias.None? || t.alias.value == "" then |history| == 1 && out == Ready(None)
           else
             && |history| == 2 && history[1].DescribeAlias?
             && if history[1].answer.AliasMissing? then out == Ready(None)
                else history[1].answer == AliasOf(history[0].check.arn) && out == Ready(t.alias))
  }

  lemma MoveConcludes(t: Target, stage: Stage, a: Answers, history: seq<Call>)
    requires Fits(PREFLIGHT, stage, history)
    requires stage.Aliasing? ==> t.alias.Some? && t.alias.value != "" && stage.check.Exists?
    ensures var call := CallOf(stage, t, a); var move := NextMove(PREFLIGHT, t, call);
      && (move.Ends? ==> PreflightDone(t, move.out, history + [call]))
      && (move.Goes? ==> t.alias.Some? && t.alias.value != "" && move.stage.Aliasing? && move.stage.check.Exists?)
  {
    hide Verdict;
  }

  /** A task that asks about an alias is one of a target that has one and is ours. */
  ghost predicate StageOk(s: State, w: nat)
    requires w < |s.pool.workers|
  {
    s.phase.PREFLIGHT? && s.pool.workers[w].Busy? && s.pool.workers[w].stage.Aliasing? ==>
      && s.pool.workers[w].index < |s.targets| && s.pool.workers[w].stage.check.Exists?
      && s.targets[s.pool.workers[w].index].alias.Some? && s.targets[s.pool.workers[w].index].alias.value != ""
  }

  /** The results of preflight, while it runs and behind it. */
  function Results(s: State): seq<Option<Out>> {
    if s.phase.PREFLIGHT? then s.pool.output else s.preflight
  }

  ghost predicate ResultOk(s: State, i: nat)
    requires i < |s.targets| == |Results(s)|
  {
    Results(s)[i].Some? ==> PreflightDone(s.targets[i], Results(s)[i].value, History(s.log, PREFLIGHT, i))
  }

  ghost predicate PreflightInv(s: State) {
    && |Results(s)| == |s.targets|
    && (forall i :: 0 <= i < |s.targets| ==> ResultOk(s, i))
    && (!s.phase.PREFLIGHT? ==> forall i :: 0 <= i < |s.targets| ==> s.preflight[i].Some?)
    && (forall w :: 0 <= w < |s.pool.workers| ==> StageOk(s, w))
  }

  lemma MovedOutput(p: WorkerPool.Pool<Stage, Out>, w: nat, move: Move)
    requires w < |p.workers| && p.workers[w].Busy? && p.workers[w].index < WorkerPool.Size(p)
    ensures var p' := Moved(p, w, move);
      && p'.output == (if move.Ends? then p.output[p.workers[w].index := Some(move.out)] else p.output)
      && |p'.workers| == |p.workers|
      && (forall v :: 0 <= v < |p.workers| && v != w ==> p'.workers[v] == p.workers[v])
      && (p'.workers[w].Busy? ==> move.Goes? && p'.workers[w] == WorkerPool.Busy(p.workers[w].index, move.stage))
  {
  }

  /** A claim starts at the first stage and decides nothing. */
  lemma ClaimKeepsPreflight(s: State, w: nat, a: Answers)
    requires Inv(s) && PreflightInv(s) && ValidEvent(s, Work(w, a)) && s.pool.workers[w].Idle?
    ensures PreflightInv(Step(s, Work(w, a)))
  {
    hide History, PreflightDone, Running, Finished;
    var s' := Step(s, Work(w, a));
    forall i | 0 <= i < |s.targets|
      ensures ResultOk(s', i)
    {
      assert ResultOk(s, i);
    }
    forall v | 0 <= v < |s'.pool.workers|
      ensures StageOk(s', v)
    {
      assert StageOk(s, v);
    }
  }

  lemma BusyHasNoOutput(p: WorkerPool.Pool<Stage, Out>, w: nat)
    requires WorkerPool.Inv(p) && w < |p.workers| && p.workers[w].Busy?
    ensures p.workers[w].index < |p.output| && p.output[p.workers[w].index].None?
  {
    assert WorkerPool.WorkerOk(p, w);
  }

  lemma BusyKeepsPreflight(s: State, w: nat, a: Answers)
    requires Inv(s) && PreflightInv(s) && ValidEvent(s, Work(w, a)) && s.pool.workers[w].Busy?
    ensures PreflightInv(Step(s, Work(w, a)))
  {
    hide History, PreflightDone, CallOf, NextMove, Fits, Moved, Finished, WorkerPool.Inv, RejectOk, LogOk, AliasesOk;
    var s' := Step(s, Work(w, a));
    var item, stage := s.pool.workers[w].index, s.pool.workers[w].stage;
    var t := TargetOf(s, item).value;
    var call := CallOf(stage, t, a);
    assert TaskOk(s, w) && StageOk(s, w);
    BusyHasNoOutput(s.pool, w);
    MovedOutput(s.pool, w, NextMove(s.phase, t, call));
    if s.phase.PREFLIGHT? {
      MoveConcludes(t, stage, a, History(s.log, PREFLIGHT, item));
    }
    hide TasksOk, ListsOk, SizesOk;
    forall i | 0 <= i < |s.targets|
      ensures ResultOk(s', i)
    {
      assert ResultOk(s, i);
      HistorySnoc(s.log, Entry(s.phase, item, call), PREFLIGHT, i);
    }
    forall v | 0 <= v < |s'.pool.workers|
      ensures StageOk(s', v)
    {
      assert StageOk(s, v);
    }
  }

  lemma ProceedKeepsPreflight(s: State)
    requires Inv(s) && PreflightInv(s) && ValidEvent(s, Proceed)
    ensures PreflightInv(Step(s, Proceed))
  {
    hide History, PreflightDone, Found, TasksOk, RejectOk, LogOk, AliasesOk;
    var s' := Step(s, Proceed);
    WorkerPool.DoneIsComplete(s.pool);
    hide WorkerPool.Inv;
    forall i | 0 <= i < |s.targets|
      ensures ResultOk(s', i)
    {
      assert ResultOk(s, i);
    }
  }

  lemma {:induction false} RunKeepsPreflight(s: State, run: seq<Event>)
    requires Inv(s) && PreflightInv(s) && ValidRun(s, run)
    ensures Inv(After(s, run)) && PreflightInv(After(s, run))
    decreases |run|
  {
    hide Inv, Step, PreflightInv;
    if run != [] {
      StepKeepsInv(s, run[0]);
      match run[0] {
        case Proceed => ProceedKeepsPreflight(s);
        case Work(w, a) =>
          if s.pool.workers[w].Idle? {
            ClaimKeepsPreflight(s, w, a);
          } else {
            BusyKeepsPreflight(s, w, a);
          }
      }
      RunKeepsPreflight(Step(s, run[0]), run[1..]);
    }
  }

  lemma BeginPreflight(targets: seq<Target>, limit: nat)
    ensures PreflightInv(Begin(targets, limit))
  {
  }

  // ---------------------------------------------------------------- every conclusion is acted upon

  /** The key of target `t` went through the key phase. */
  ghost predicate KeyAttempted(s: State, t: nat) {
    exists i :: 0 <= i < |s.active| == |s.pool.output| && s.active[i] == t
      && s.pool.output[i].Some? && KeyTaskDone(s.pool.output[i].value, History(s.log, KEYS, i))
  }

  /** The alias of target `t` went through the alias phase. */
  ghost predicate AliasAttempted(s: State, t: nat) {
    exists i :: 0 <= i < |s.aliases| == |s.aliasResults| && s.aliases[i] == t
      && s.aliasResults[i].Some? && AliasTaskDone(s.aliasResults[i].value, History(s.log, ALIASES, i))
  }

  /**
   * When the cleanup has been through all phases, each target was found gone in preflight, or was found to be ours;
   * then its key went through the key phase, and its alias, if it has one that pointed to the key, through the alias
   * phase.  No target and no alias is passed over.
   */
  lemma EveryTargetIsAttempted(targets: seq<Target>, limit: nat, run: seq<Event>, t: nat)
    requires limit > 0 && ValidRun(Begin(targets, limit), run) && After(Begin(targets, limit), run).phase.END?
    requires t < |targets|
    ensures var s := After(Begin(targets, limit), run); var h := History(s.log, PREFLIGHT, t);
      || h == [Verify(Absent)]
      || (|h| > 0 && h[0].Verify? && h[0].check.Exists? && KeyAttempted(s, t)
          && (targets[t].alias.Some? && targets[t].alias.value != "" ==>
                && |h| == 2 && h[1].DescribeAlias?
                && (h[1].answer.AliasMissing? || (h[1].answer == AliasOf(h[0].check.arn) && AliasAttempted(s, t)))))
  {
    BeginInv(targets, limit);
    BeginPreflight(targets, limit);
    RunKeepsInv(Begin(targets, limit), run);
    RunKeepsPreflight(Begin(targets, limit), run);
    var s := After(Begin(targets, limit), run);
    assert ResultOk(s, t);
    hide History, Found, KeyTaskDone, AliasTaskDone, RejectOk, LogOk, StageOk, ResultOk;
    FoundExactly(s.preflight, false, t);
    FoundExactly(s.preflight, true, t);
    if s.preflight[t].value.Ready? {
      var i :| 0 <= i < |s.active| && s.active[i] == t;
      assert KeyAttempted(s, t);
      if s.preflight[t].value.alias.Some? {
        var j :| 0 <= j < |s.aliases| && s.aliases[j] == t;
        assert AliasOk(s, j);
        assert AliasAttempted(s, t);
      }
    }
  }
}
