/**
 * The cleanup of real KMS keys (scripts/real-kms-keys.mjs:418-596): which targets there are, when one may
 * be touched, and three pools of workers one after the other: preflight, aliases, keys.
 * The answers of AWS are inputs; a check of a target (two read-only calls) is one step.
 */
module Teardown {
  import opened Bytes
  import opened WorkerPool

  datatype Target = Target(
    id: string, alias: Option<string>, keySpec: Option<string>, expectedTags: seq<(string, string)>)

  // ---------------------------------------------------------------- collecting the targets

  predicate HasId(targets: seq<Target>, id: string) {
    exists i :: 0 <= i < |targets| && targets[i].id == id
  }

  /** The first candidate of each id that is not empty, in order. */
  function Collect(candidates: seq<Target>): seq<Target> {
    if candidates == [] then []
    else
      var before := Collect(candidates[..|candidates| - 1]);
      var last := candidates[|candidates| - 1];
      if last.id != "" && !HasId(before, last.id) then before + [last] else before
  }

  /** Candidates of the manifest first, then those of the tag sweep, if there is one. */
  method CollectTargets(manifest: seq<Target>, swept: Option<seq<Target>>) returns (targets: seq<Target>)
    ensures targets == Collect(manifest + if swept.Some? then swept.value else [])
  {
    targets := [];
    var candidates := manifest + if swept.Some? then swept.value else [];
    for i := 0 to |candidates|
      invariant targets == Collect(candidates[..i])
    {
      assert candidates[..i + 1][..i] == candidates[..i];
      if candidates[i].id != "" && !HasId(targets, candidates[i].id) {
        targets := targets + [candidates[i]];
      }
    }
    assert candidates[..|candidates|] == candidates;
  }

  ghost predicate FirstOf(candidates: seq<Target>, t: Target) {
    exists k :: 0 <= k < |candidates| && candidates[k] == t && forall j :: 0 <= j < k ==> candidates[j].id != t.id
  }

  /** What one more candidate does. */
  lemma CollectStep(candidates: seq<Target>)
    requires candidates != []
    ensures var last := candidates[|candidates| - 1]; var t := Collect(candidates[..|candidates| - 1]);
      Collect(candidates) == if last.id != "" && !HasId(t, last.id) then t + [last] else t
  {
  }

  lemma HasIdGrows(t: seq<Target>, last: Target, id: string)
    ensures HasId(t + [last], id) <==> HasId(t, id) || last.id == id
  {
    assert (t + [last])[|t|] == last;
    assert forall i :: 0 <= i < |t| ==> (t + [last])[i] == t[i];
  }

  lemma {:induction false} CollectCovers(candidates: seq<Target>, id: string)
    requires id != ""
    ensures HasId(Collect(candidates), id) <==> HasId(candidates, id)
  {
    hide HasId;
    if candidates != [] {
      var front, last := candidates[..|candidates| - 1], candidates[|candidates| - 1];
      CollectCovers(front, id);
      CollectStep(candidates);
      hide Collect;
      assert candidates == front + [last];
      HasIdGrows(front, last, id);
      HasIdGrows(Collect(front), last, id);
    } else {
      assert Collect(candidates) == candidates;
    }
  }

  lemma {:induction false} CollectIsDistinct(candidates: seq<Target>)
    ensures var t := Collect(candidates);
      (forall i, j :: 0 <= i < j < |t| ==> t[i].id != t[j].id) && forall i :: 0 <= i < |t| ==> t[i].id != ""
  {
    if candidates != [] {
      CollectIsDistinct(candidates[..|candidates| - 1]);
      CollectStep(candidates);
      hide Collect;
    }
  }

  lemma {:induction false} CollectTakesFirst(candidates: seq<Target>, i: nat)
    requires i < |Collect(candidates)|
    ensures FirstOf(candidates, Collect(candidates)[i])
  {
    var front, last := candidates[..|candidates| - 1], candidates[|candidates| - 1];
    CollectStep(candidates);
    var t0, t := Collect(front), Collect(candidates)[i];
    if i < |t0| {
      CollectTakesFirst(front, i);
      hide Collect;
      var k :| 0 <= k < |front| && front[k] == t && forall j :: 0 <= j < k ==> front[j].id != t.id;
      assert candidates[k] == t && forall j :: 0 <= j < k ==> candidates[j] == front[j];
    } else {
      CollectCovers(front, last.id);
      hide Collect;
      assert forall j :: 0 <= j < |front| ==> candidates[j] == front[j] && front[j].id != last.id;
      assert candidates[|front|] == t;
    }
  }

  /** Every id once, none empty, none missing, and each target is the first candidate of its id. */
  lemma CollectKeepsFirst(candidates: seq<Target>)
    ensures var t := Collect(candidates);
      && (forall i, j :: 0 <= i < j < |t| ==> t[i].id != t[j].id)
      && (forall id :: id != "" ==> (HasId(t, id) <==> HasId(candidates, id)))
      && (forall i :: 0 <= i < |t| ==> t[i].id != "" && FirstOf(candidates, t[i]))
  {
    CollectIsDistinct(candidates);
    forall id | id != ""
      ensures HasId(Collect(candidates), id) <==> HasId(candidates, id)
    {
      CollectCovers(candidates, id);
    }
    forall i | 0 <= i < |Collect(candidates)|
      ensures FirstOf(candidates, Collect(candidates)[i])
    {
      CollectTakesFirst(candidates, i);
    }
  }

  // ---------------------------------------------------------------- verifying one target

  datatype Options = Options(account: string, region: string)

  /** `place` is account and region of the ARN, if it is one of a key. */
  datatype Described = KeyNotFound | DescribeFailed | DescribedKey(arn: string, place: Option<Options>, keySpec: string)

  datatype Listed = ListFailed | Tags(tags: map<string, string>)

  datatype Check = Exists(arn: string) | Absent | Refused

  predicate TagMatches(tags: map<string, string>, expected: (string, string)) {
    expected.0 in tags && tags[expected.0] == expected.1
  }

  /** Ours: in the selected account and region, all ownership tags as expected, the key spec as recorded. */
  ghost predicate Owned(t: Target, opts: Options, d: Described, l: Listed) {
    && d.DescribedKey? && d.place == Some(opts) && l.Tags?
    && (forall i :: 0 <= i < |t.expectedTags| ==> TagMatches(l.tags, t.expectedTags[i]))
    && (t.keySpec.Some? && t.keySpec.value != "" ==> d.keySpec == t.keySpec.value)
  }

  ghost function Verdict(t: Target, opts: Options, d: Described, l: Listed): Check {
    if d.KeyNotFound? then Absent else if Owned(t, opts, d, l) then Exists(d.arn) else Refused
  }

  method VerifyOwnedTarget(t: Target, opts: Options, d: Described, l: Listed) returns (check: Check)
    ensures check == Verdict(t, opts, d, l)
  {
    if d.KeyNotFound? {
      return Absent;
    }
    if d.DescribeFailed? {
      return Refused;
    }
    if d.place.None? || d.place.value.account != opts.account || d.place.value.region != opts.region {
      return Refused;
    }
    if l.ListFailed? {
      return Refused;
    }
    for i := 0 to |t.expectedTags|
      invariant forall j :: 0 <= j < i ==> TagMatches(l.tags, t.expectedTags[j])
    {
      if !TagMatches(l.tags, t.expectedTags[i]) {
        return Refused;
      }
    }
    if t.keySpec.Some? && t.keySpec.value != "" && d.keySpec != t.keySpec.value {
      return Refused;
    }
    return Exists(d.arn);
  }

  // ---------------------------------------------------------------- the three phases

  datatype Phase = PREFLIGHT | ALIASES | KEYS | END

  function Rank(p: Phase): nat {
    match p case PREFLIGHT => 0 case ALIASES => 1 case KEYS => 2 case END => 3
  }

  datatype AliasAnswer = AliasFailed | AliasMissing | AliasOf(arn: string)

  /** What was asked of AWS, and the answer; a question about an alias also says what it is compared with. */
  datatype Call =
    | Verify(check: Check)
    | DescribeAlias(answer: AliasAnswer, check: Check)
    | DeleteAlias(ok: bool)
    | ScheduleDeletion(ok: bool)

  /** The phase, the position in its list of items, and the call. */
  datatype Entry = Entry(phase: Phase, item: nat, call: Call)

  /** What a task is about to do. */
  datatype Stage = Verifying | Aliasing(check: Check) | Deleting(arn: string) | Scheduling(arn: string)

  /** Nothing there; a verified target with the alias to delete, if any; the number of failures. */
  datatype Out = Nothing | Ready(alias: Option<string>) | Failures(n: nat)

  datatype State = State(
    phase: Phase, targets: seq<Target>, limit: nat, preflight: seq<Option<Out>>, active: seq<nat>, aliases: seq<nat>,
    aliasResults: seq<Option<Out>>, pool: Pool<Stage, Out>, log: seq<Entry>)

  function Begin(targets: seq<Target>, limit: nat): State {
    State(PREFLIGHT, targets, limit, [], [], [], [], Start(|targets|, limit), [])
  }

  /** What AWS answers to the next call of one worker. */
  datatype Answers = Answers(opts: Options, described: Described, listed: Listed, alias: AliasAnswer, ok: bool)

  /** How one step of a task ends. */
  datatype Move = Goes(stage: Stage) | Ends(out: Out) | Throws

  predicate WantsAlias(t: Target) {
    t.alias.Some? && t.alias.value != ""
  }

  /** Preflight: any doubt throws. */
  function PreflightMove(t: Target, call: Call): Move {
    match call
    case Verify(Refused) => Throws
    case Verify(Absent) => Ends(Nothing)
    case Verify(Exists(arn)) => if WantsAlias(t) then Goes(Aliasing(Exists(arn))) else Ends(Ready(None))
    case DescribeAlias(AliasMissing, _) => Ends(Ready(None))
    case DescribeAlias(AliasOf(arn), check) => if check == Exists(arn) then Ends(Ready(t.alias)) else Throws
    case _ => Throws
  }

  /** Aliases: a failure is counted, never thrown. */
  function AliasMove(call: Call): Move {
    match call
    case Verify(Refused) => Ends(Failures(1))
    case Verify(check) => Goes(Aliasing(check))
    case DescribeAlias(AliasFailed, _) => Ends(Failures(1))
    case DescribeAlias(AliasMissing, _) => Ends(Failures(0))
    case DescribeAlias(AliasOf(arn), check) =>
      if check.Absent? then Ends(Failures(0))
      else if check == Exists(arn) then Goes(Deleting(arn))
      else Ends(Failures(1))
    case DeleteAlias(ok) => Ends(Failures(if ok then 0 else 1))
    case ScheduleDeletion(_) => Ends(Failures(1))
  }

  /** Keys: likewise. */
  function KeyMove(call: Call): Move {
    match call
    case Verify(Refused) => Ends(Failures(1))
    case Verify(Absent) => Ends(Failures(0))
    case Verify(Exists(arn)) => Goes(Scheduling(arn))
    case ScheduleDeletion(ok) => Ends(Failures(if ok then 0 else 1))
    case _ => Ends(Failures(1))
  }

  function NextMove(phase: Phase, t: Target, call: Call): Move {
    match phase
    case PREFLIGHT => PreflightMove(t, call)
    case ALIASES => AliasMove(call)
    case _ => KeyMove(call)
  }

  /** The call a stage makes. */
  ghost function CallOf(stage: Stage, t: Target, a: Answers): Call {
    match stage
    case Verifying => Verify(Verdict(t, a.opts, a.described, a.listed))
    case Aliasing(check) => DescribeAlias(a.alias, check)
    case Deleting(_) => DeleteAlias(a.ok)
    case Scheduling(_) => ScheduleDeletion(a.ok)
  }

  /** The target an item of the current phase is about. */
  function TargetOf(s: State, item: nat): Option<Target> {
    var index :=
      match s.phase
      case PREFLIGHT => if item < |s.targets| then Some(item) else None
      case ALIASES => if item < |s.aliases| then Some(s.aliases[item]) else None
      case _ => if item < |s.active| then Some(s.active[item]) else None;
    if index.Some? && index.value < |s.targets| then Some(s.targets[index.value]) else None
  }

  datatype Event = Work(w: nat, a: Answers) | Proceed

  predicate ValidEvent(s: State, e: Event) {
    match e
    case Proceed => s.phase != END && AllDone(s.pool)
    case Work(w, _) =>
      && s.phase != END && w < |s.pool.workers|
      && (s.pool.workers[w].Idle? ||
           (s.pool.workers[w].Busy? && s.pool.workers[w].index < Size(s.pool)
            && TargetOf(s, s.pool.workers[w].index).Some?))
  }

  function Moved(p: Pool<Stage, Out>, w: nat, move: Move): Pool<Stage, Out>
    requires w < |p.workers| && p.workers[w].Busy? && p.workers[w].index < Size(p)
  {
    match move
    case Goes(stage) => Advance(p, w, stage)
    case Ends(out) => Resolve(p, w, out)
    case Throws => Reject(p, w)
  }

  ghost function WorkStep(s: State, w: nat, a: Answers): State
    requires ValidEvent(s, Work(w, a))
  {
    if s.pool.workers[w].Idle? then s.(pool := Claim(s.pool, w, Verifying))
    else
      var item := s.pool.workers[w].index;
      var t := TargetOf(s, item).value;
      var call := CallOf(s.pool.workers[w].stage, t, a);
      s.(pool := Moved(s.pool, w, NextMove(s.phase, t, call)), log := s.log + [Entry(s.phase, item, call)])
  }

  /** The targets preflight found, of those the ones with an alias to delete. */
  function Found(output: seq<Option<Out>>, withAlias: bool): seq<nat> {
    if output == [] then []
    else
      var n := |output| - 1;
      var last := output[n];
      var before := Found(output[..n], withAlias);
      if last.Some? && last.value.Ready? && (withAlias ==> last.value.alias.Some?) then before + [n] else before
  }

  function ProceedStep(s: State): State {
    match s.phase
    case PREFLIGHT =>
      var aliases := Found(s.pool.output, true);
      s.(phase := ALIASES, preflight := s.pool.output, active := Found(s.pool.output, false), aliases := aliases,
         pool := Start(|aliases|, s.limit))
    case ALIASES => s.(phase := KEYS, aliasResults := s.pool.output, pool := Start(|s.active|, s.limit))
    case _ => s.(phase := END)
  }

  ghost function Step(s: State, e: Event): State
    requires ValidEvent(s, e)
  {
    match e
    case Work(w, a) => WorkStep(s, w, a)
    case Proceed => ProceedStep(s)
  }

  // ---------------------------------------------------------------- what every run keeps

  /** The calls one task has made. */
  function History(log: seq<Entry>, phase: Phase, item: nat): seq<Call> {
    if log == [] then []
    else
      var last := log[|log| - 1];
      var before := History(log[..|log| - 1], phase, item);
      if last.phase == phase && last.item == item then before + [last.call] else before
  }

  lemma HistorySnoc(log: seq<Entry>, e: Entry, phase: Phase, item: nat)
    ensures History(log + [e], phase, item) ==
      if e.phase == phase && e.item == item then History(log, phase, item) + [e.call] else History(log, phase, item)
  {
    assert (log + [e])[..|log|] == log;
  }

  /** What a task has done when it reaches a stage. */
  predicate Fits(phase: Phase, stage: Stage, history: seq<Call>) {
    match stage
    case Verifying => history == []
    case Aliasing(check) => history == [Verify(check)] && (phase.PREFLIGHT? || phase.ALIASES?) && !check.Refused?
    case Deleting(arn) => history == [Verify(Exists(arn)), DescribeAlias(AliasOf(arn), Exists(arn))] && phase.ALIASES?
    case Scheduling(arn) => history == [Verify(Exists(arn))] && phase.KEYS?
  }

  predicate Destructive(call: Call) {
    call.DeleteAlias? || call.ScheduleDeletion?
  }

  /** A check that must stop the whole cleanup when it happens in preflight. */
  predicate Failing(call: Call) {
    match call
    case Verify(check) => check.Refused?
    case DescribeAlias(answer, check) => answer.AliasFailed? || (answer.AliasOf? && check != Exists(answer.arn))
    case _ => false
  }

  /** A destructive call comes right after the checks of its own task, and they passed. */
  ghost predicate Justified(log: seq<Entry>, k: nat)
    requires k < |log|
  {
    var before := History(log[..k], log[k].phase, log[k].item);
    match log[k].call
    case DeleteAlias(_) =>
      log[k].phase.ALIASES? && exists arn :: before == [Verify(Exists(arn)), DescribeAlias(AliasOf(arn), Exists(arn))]
    case ScheduleDeletion(_) => log[k].phase.KEYS? && exists arn :: before == [Verify(Exists(arn))]
    case _ => true
  }

  /** What a finished key task has done: a key that was verified again was scheduled, whatever came of it. */
  predicate KeyTaskDone(out: Out, history: seq<Call>) {
    || (history == [Verify(Refused)] && out == Failures(1))
    || (history == [Verify(Absent)] && out == Failures(0))
    || (|history| == 2 && history[0].Verify? && history[0].check.Exists? && history[1].ScheduleDeletion?
        && out == Failures(if history[1].ok then 0 else 1))
  }

  /** What a finished alias task has done. */
  predicate AliasTaskDone(out: Out, history: seq<Call>) {
    || (history == [Verify(Refused)] && out == Failures(1))
    || (|history| == 2 && history[0].Verify? && history[1].DescribeAlias? && history[1].check == history[0].check
        && match history[1].answer
           case AliasFailed => out == Failures(1)
           case AliasMissing => out == Failures(0)
           case AliasOf(arn) =>
             history[0].check != Exists(arn) && out == Failures(if history[0].check.Absent? then 0 else 1))
    || (|history| == 3 && history[0].Verify? && history[0].check.Exists? && history[2].DeleteAlias?
        && history[1] == DescribeAlias(AliasOf(history[0].check.arn), history[0].check)
        && out == Failures(if history[2].ok then 0 else 1))
  }

  predicate TaskDone(phase: Phase, out: Out, history: seq<Call>) {
    match phase
    case ALIASES => AliasTaskDone(out, history)
    case KEYS => KeyTaskDone(out, history)
    case _ => true
  }

  ghost predicate TaskOk(s: State, w: nat)
    requires w < |s.pool.workers|
  {
    s.pool.workers[w].Busy? ==>
      Fits(s.phase, s.pool.workers[w].stage, History(s.log, s.phase, s.pool.workers[w].index))
  }

  ghost predicate ItemOk(s: State, i: nat)
    requires i < Size(s.pool)
  {
    && (i >= s.pool.next ==> History(s.log, s.phase, i) == [])
    && (s.pool.output[i].Some? ==> TaskDone(s.phase, s.pool.output[i].value, History(s.log, s.phase, i)))
  }

  ghost predicate TasksOk(s: State) {
    && (forall w :: 0 <= w < |s.pool.workers| ==> TaskOk(s, w))
    && (forall i :: 0 <= i < Size(s.pool) ==> ItemOk(s, i))
  }

  ghost predicate CheckFailed(log: seq<Entry>) {
    exists k :: 0 <= k < |log| && log[k].phase.PREFLIGHT? && Failing(log[k].call)
  }

  /** Preflight alone can reject, and it has exactly if a check in it failed. */
  ghost predicate RejectOk(s: State) {
    && (!s.phase.PREFLIGHT? ==> !AnyRejected(s.pool))
    && (CheckFailed(s.log) <==> s.phase.PREFLIGHT? && AnyRejected(s.pool))
  }

  ghost predicate LogOk(s: State) {
    && (forall k :: 0 <= k < |s.log| ==> Justified(s.log, k) && Rank(s.log[k].phase) <= Rank(s.phase))
    && (forall j, k :: 0 <= j < k < |s.log| ==> Rank(s.log[j].phase) <= Rank(s.log[k].phase))
  }

  ghost predicate SizesOk(s: State) {
    && s.limit > 0 && |s.pool.workers| == Min(s.limit, Size(s.pool))
    && Size(s.pool) == match s.phase case PREFLIGHT => |s.targets| case ALIASES => |s.aliases| case _ => |s.active|
  }

  /** Behind preflight the two lists are the ones its results give. */
  ghost predicate ListsOk(s: State) {
    !s.phase.PREFLIGHT? ==>
      && |s.preflight| == |s.targets|
      && s.active == Found(s.preflight, false) && s.aliases == Found(s.preflight, true)
  }

  /** Behind the alias phase its results are complete, and what its tasks did is still known. */
  ghost predicate AliasesOk(s: State) {
    s.phase.KEYS? || s.phase.END? ==>
      && |s.aliasResults| == |s.aliases|
      && forall i :: 0 <= i < |s.aliases| ==> AliasOk(s, i)
  }

  ghost predicate AliasOk(s: State, i: nat)
    requires i < |s.aliasResults|
  {
    s.aliasResults[i].Some? && AliasTaskDone(s.aliasResults[i].value, History(s.log, ALIASES, i))
  }

  ghost predicate Running(s: State) {
    && WorkerPool.Inv(s.pool) && SizesOk(s) && TasksOk(s) && RejectOk(s) && LogOk(s) && ListsOk(s) && AliasesOk(s)
  }

  /** After the last phase nothing moves any more; what the key tasks did is still known. */
  ghost predicate Finished(s: State) {
    && RejectOk(s) && LogOk(s) && ListsOk(s) && AliasesOk(s) && Size(s.pool) == |s.active|
    && forall i :: 0 <= i < |s.active| ==>
         s.pool.output[i].Some? && KeyTaskDone(s.pool.output[i].value, History(s.log, KEYS, i))
  }

  ghost predicate Inv(s: State) {
    if s.phase.END? then Finished(s) else Running(s)
  }

  // ---------------------------------------------------------------- one step of one task

  lemma MoveFits(phase: Phase, t: Target, stage: Stage, a: Answers, history: seq<Call>)
    requires Fits(phase, stage, history) && phase != END
    ensures var call := CallOf(stage, t, a); var move := NextMove(phase, t, call);
      && (move.Goes? ==> Fits(phase, move.stage, history + [call]))
      && (move.Ends? ==> TaskDone(phase, move.out, history + [call]))
      && (move.Throws? ==> phase.PREFLIGHT?)
      && (phase.PREFLIGHT? ==> (move.Throws? <==> Failing(call)))
  {
    hide Verdict;
  }

  /** Nothing that can be destroyed is reached but through the checks. */
  lemma DestructionFits(phase: Phase, t: Target, stage: Stage, a: Answers, history: seq<Call>)
    requires Fits(phase, stage, history)
    ensures var call := CallOf(stage, t, a);
      && (call.DeleteAlias? ==>
            phase.ALIASES? && exists arn :: history == [Verify(Exists(arn)), DescribeAlias(AliasOf(arn), Exists(arn))])
      && (call.ScheduleDeletion? ==> phase.KEYS? && exists arn :: history == [Verify(Exists(arn))])
  {
    hide Verdict;
  }

  lemma NewEntryJustified(log: seq<Entry>, e: Entry, k: nat)
    requires k <= |log|
    requires k < |log| ==> Justified(log, k)
    requires var before := History(log, e.phase, e.item);
      && (e.call.DeleteAlias? ==>
            e.phase.ALIASES? && exists arn :: before == [Verify(Exists(arn)), DescribeAlias(AliasOf(arn), Exists(arn))])
      && (e.call.ScheduleDeletion? ==> e.phase.KEYS? && exists arn :: before == [Verify(Exists(arn))])
    ensures Justified(log + [e], k)
  {
    hide History;
    if k < |log| {
      assert (log + [e])[..k] == log[..k] && (log + [e])[k] == log[k];
    } else {
      assert (log + [e])[..k] == log && (log + [e])[k] == e;
    }
  }

  lemma WorkKeepsLog(s: State, w: nat, a: Answers)
    requires Running(s) && ValidEvent(s, Work(w, a)) && s.pool.workers[w].Busy?
    ensures LogOk(WorkStep(s, w, a))
  {
    hide Fits, CallOf, Verdict, TargetOf, Moved, NextMove, History, Justified, WorkerPool.Inv, SizesOk, RejectOk;
    var item, stage := s.pool.workers[w].index, s.pool.workers[w].stage;
    var t := TargetOf(s, item).value;
    var e := Entry(s.phase, item, CallOf(stage, t, a));
    assert TaskOk(s, w);
    DestructionFits(s.phase, t, stage, a, History(s.log, s.phase, item));
    forall k | 0 <= k < |s.log + [e]|
      ensures Justified(s.log + [e], k) && Rank((s.log + [e])[k].phase) <= Rank(s.phase)
    {
      NewEntryJustified(s.log, e, k);
    }
  }

  lemma WorkKeepsPool(s: State, w: nat, a: Answers)
    requires Running(s) && ValidEvent(s, Work(w, a))
    ensures var s' := WorkStep(s, w, a); WorkerPool.Inv(s'.pool) && SizesOk(s')
  {
    hide CallOf, TargetOf, NextMove, History, Justified, WorkerPool.Inv, RejectOk, TasksOk, LogOk;
    if s.pool.workers[w].Idle? {
      ClaimKeepsInv(s.pool, w, Verifying);
    } else {
      MovedKeepsInv(s.pool, w, NextMove(s.phase, TargetOf(s, s.pool.workers[w].index).value,
        CallOf(s.pool.workers[w].stage, TargetOf(s, s.pool.workers[w].index).value, a)));
    }
  }

  lemma MovedKeepsInv(p: Pool<Stage, Out>, w: nat, move: Move)
    requires WorkerPool.Inv(p) && w < |p.workers| && p.workers[w].Busy? && p.workers[w].index < Size(p)
    ensures WorkerPool.Inv(Moved(p, w, move))
  {
    hide WorkerPool.Inv;
    match move
    case Goes(stage) => AdvanceKeepsInv(p, w, stage);
    case Ends(out) => ResolveKeepsInv(p, w, out);
    case Throws => RejectKeepsInv(p, w);
  }

  lemma ClaimKeepsTasks(s: State, w: nat, a: Answers)
    requires Running(s) && ValidEvent(s, Work(w, a)) && s.pool.workers[w].Idle?
    ensures TasksOk(WorkStep(s, w, a))
  {
    hide History, TaskDone;
    var s' := WorkStep(s, w, a);
    forall v | 0 <= v < |s'.pool.workers|
      ensures TaskOk(s', v)
    {
      assert TaskOk(s, v);
      assert s.pool.next < Size(s.pool) ==> ItemOk(s, s.pool.next);
    }
    forall i | 0 <= i < Size(s'.pool)
      ensures ItemOk(s', i)
    {
      assert ItemOk(s, i);
    }
  }

  /** The other tasks have other items, so their histories stay. */
  lemma BusyKeepsTasks(s: State, w: nat, a: Answers)
    requires Running(s) && ValidEvent(s, Work(w, a)) && s.pool.workers[w].Busy?
    ensures TasksOk(WorkStep(s, w, a))
  {
    hide History, TaskDone, Fits, CallOf, NextMove, TargetOf, Justified, LogOk, RejectOk, SizesOk;
    var item, stage := s.pool.workers[w].index, s.pool.workers[w].stage;
    var t := TargetOf(s, item).value;
    var call := CallOf(stage, t, a);
    var e := Entry(s.phase, item, call);
    var s' := WorkStep(s, w, a);
    assert TaskOk(s, w) && WorkerOk(s.pool, w);
    MoveFits(s.phase, t, stage, a, History(s.log, s.phase, item));
    HistorySnoc(s.log, e, s.phase, item);
    forall v | 0 <= v < |s'.pool.workers|
      ensures TaskOk(s', v)
    {
      assert TaskOk(s, v);
      if v != w && s.pool.workers[v].Busy? {
        if s.pool.workers[v].index == item {
          NoItemTwice(s.pool, v, w);
        }
        HistorySnoc(s.log, e, s.phase, s.pool.workers[v].index);
      }
    }
    forall i | 0 <= i < Size(s'.pool)
      ensures ItemOk(s', i)
    {
      assert ItemOk(s, i);
      HistorySnoc(s.log, e, s.phase, i);
    }
  }

  lemma OneMoreCheck(log: seq<Entry>, e: Entry)
    ensures CheckFailed(log + [e]) <==> CheckFailed(log) || (e.phase.PREFLIGHT? && Failing(e.call))
  {
    hide Failing;
    assert (log + [e])[|log|] == e;
    assert forall k :: 0 <= k < |log| ==> (log + [e])[k] == log[k];
  }

  lemma MovedRejects(p: Pool<Stage, Out>, w: nat, move: Move)
    requires w < |p.workers| && p.workers[w].Busy? && p.workers[w].index < Size(p)
    ensures AnyRejected(Moved(p, w, move)) <==> AnyRejected(p) || move.Throws?
  {
    var p' := Moved(p, w, move);
    assert forall v :: 0 <= v < |p.workers| && v != w ==> p'.workers[v] == p.workers[v];
    assert move.Throws? ==> p'.workers[w].Rejected?;
  }

  lemma WorkKeepsReject(s: State, w: nat, a: Answers)
    requires Running(s) && ValidEvent(s, Work(w, a))
    ensures RejectOk(WorkStep(s, w, a))
  {
    hide History, Fits, CallOf, NextMove, TargetOf, Moved, Justified, LogOk, SizesOk, Failing, ItemOk, WorkerPool.Inv;
    var s' := WorkStep(s, w, a);
    if s.pool.workers[w].Busy? {
      assert TaskOk(s, w);
      var item, stage := s.pool.workers[w].index, s.pool.workers[w].stage;
      var t := TargetOf(s, item).value;
      MoveFits(s.phase, t, stage, a, History(s.log, s.phase, item));
      var call := CallOf(stage, t, a);
      OneMoreCheck(s.log, Entry(s.phase, item, call));
      MovedRejects(s.pool, w, NextMove(s.phase, t, call));
      hide CheckFailed, AnyRejected;
    } else {
      ClaimRejectsNot(s.pool, w);
    }
  }

  lemma ClaimRejectsNot(p: Pool<Stage, Out>, w: nat)
    requires w < |p.workers| && p.workers[w].Idle?
    ensures AnyRejected(Claim(p, w, Verifying)) <==> AnyRejected(p)
  {
    var p' := Claim(p, w, Verifying);
    assert forall v :: 0 <= v < |p.workers| && v != w ==> p'.workers[v] == p.workers[v];
  }

  /** The histories of the alias phase are closed. */
  lemma WorkKeepsAliases(s: State, w: nat, a: Answers)
    requires Running(s) && ValidEvent(s, Work(w, a))
    ensures AliasesOk(WorkStep(s, w, a))
  {
    hide History, AliasTaskDone, CallOf, NextMove, Moved, TargetOf, TasksOk, RejectOk, LogOk, SizesOk, WorkerPool.Inv;
    var s' := WorkStep(s, w, a);
    if s.phase.KEYS? && s.pool.workers[w].Busy? {
      forall i | 0 <= i < |s.aliases|
        ensures AliasOk(s', i)
      {
        assert AliasOk(s, i);
        HistorySnoc(s.log, s'.log[|s.log|], ALIASES, i);
      }
    } else if s.phase.KEYS? {
      forall i | 0 <= i < |s.aliases|
        ensures AliasOk(s', i)
      {
        assert AliasOk(s, i);
      }
    }
  }

  lemma WorkKeepsInv(s: State, w: nat, a: Answers)
    requires Running(s) && ValidEvent(s, Work(w, a))
    ensures Running(WorkStep(s, w, a)) && WorkStep(s, w, a).phase == s.phase
  {
    WorkKeepsAliases(s, w, a);
    WorkKeepsPool(s, w, a);
    WorkKeepsReject(s, w, a);
    if s.pool.workers[w].Idle? {
      ClaimKeepsTasks(s, w, a);
    } else {
      BusyKeepsTasks(s, w, a);
      WorkKeepsLog(s, w, a);
    }
    hide TasksOk, RejectOk, LogOk, SizesOk, AliasesOk, WorkerPool.Inv, CallOf, NextMove, Moved, TargetOf;
  }

  // ---------------------------------------------------------------- from phase to phase

  lemma {:induction false} HistoryEmpty(log: seq<Entry>, phase: Phase, item: nat)
    requires forall k :: 0 <= k < |log| ==> log[k].phase != phase
    ensures History(log, phase, item) == []
  {
    if log != [] {
      HistoryEmpty(log[..|log| - 1], phase, item);
    }
  }

  /** A new phase starts with a pool nobody has worked in. */
  lemma FreshPhase(s: State, n: nat)
    requires s.pool == Start(n, s.limit) && (forall k :: 0 <= k < |s.log| ==> s.log[k].phase != s.phase)
    ensures WorkerPool.Inv(s.pool) && TasksOk(s) && !AnyRejected(s.pool) && |s.pool.workers| == Min(s.limit, n)
    ensures Size(s.pool) == n
  {
    StartInv<Stage, Out>(n, s.limit);
    forall i | 0 <= i < n
      ensures ItemOk(s, i)
    {
      HistoryEmpty(s.log, s.phase, i);
    }
    hide History;
  }

  lemma DoneIsNotRejected(p: Pool<Stage, Out>)
    requires AllDone(p)
    ensures !AnyRejected(p)
  {
  }

  lemma JustifiedStays(s: State, s': State)
    requires LogOk(s) && s'.log == s.log && Rank(s.phase) <= Rank(s'.phase)
    ensures LogOk(s')
  {
    hide Justified;
  }

  lemma ProceedKeepsInv(s: State)
    requires Running(s) && ValidEvent(s, Proceed)
    ensures Inv(ProceedStep(s))
  {
    hide History, Justified, KeyTaskDone, AliasTaskDone, Failing, Found, WorkerPool.Inv;
    var s' := ProceedStep(s);
    DoneIsNotRejected(s.pool);
    JustifiedStays(s, s');
    DoneIsComplete(s.pool);
    if !s.phase.PREFLIGHT? {
      forall i | 0 <= i < |s.aliases|
        ensures |s'.aliasResults| == |s.aliases| && AliasOk(s', i)
      {
        if s.phase.ALIASES? {
          assert ItemOk(s, i);
        } else {
          assert AliasOk(s, i);
        }
      }
    }
    if s.phase.KEYS? {
      forall i | 0 <= i < |s.active|
        ensures s'.pool.output[i].Some? && KeyTaskDone(s'.pool.output[i].value, History(s'.log, KEYS, i))
      {
        assert ItemOk(s, i);
      }
    } else {
      assert forall k :: 0 <= k < |s.log| ==> Rank(s.log[k].phase) <= Rank(s.phase);
      FreshPhase(s', if s.phase.PREFLIGHT? then |s'.aliases| else |s.active|);
    }
  }

  lemma StepKeepsInv(s: State, e: Event)
    requires Inv(s) && ValidEvent(s, e)
    ensures Inv(Step(s, e)) && Step(s, e).targets == s.targets
  {
    hide Running, Finished, WorkStep, ProceedStep;
    TargetsStay(s, e);
    match e
    case Work(w, a) => WorkKeepsInv(s, w, a);
    case Proceed => ProceedKeepsInv(s);
  }

  lemma TargetsStay(s: State, e: Event)
    requires ValidEvent(s, e)
    ensures Step(s, e).targets == s.targets
  {
    hide CallOf, NextMove, Moved, Found;
  }

  // ---------------------------------------------------------------- runs

  ghost predicate ValidRun(s: State, run: seq<Event>)
    decreases |run|
  {
    run == [] || (ValidEvent(s, run[0]) && ValidRun(Step(s, run[0]), run[1..]))
  }

  ghost function After(s: State, run: seq<Event>): State
    requires ValidRun(s, run)
    decreases |run|
  {
    if run == [] then s else After(Step(s, run[0]), run[1..])
  }

  lemma BeginInv(targets: seq<Target>, limit: nat)
    requires limit > 0
    ensures Inv(Begin(targets, limit))
  {
    FreshPhase(Begin(targets, limit), |targets|);
  }

  lemma {:induction false} RunKeepsInv(s: State, run: seq<Event>)
    requires Inv(s) && ValidRun(s, run)
    ensures Inv(After(s, run)) && After(s, run).targets == s.targets
    decreases |run|
  {
    hide Inv, Step;
    if run != [] {
      StepKeepsInv(s, run[0]);
      RunKeepsInv(Step(s, run[0]), run[1..]);
    }
  }

  /** If any preflight check fails, in whichever worker and whenever, the run destroys nothing. */
  lemma FailedPreflightDestroysNothing(targets: seq<Target>, limit: nat, run: seq<Event>, k: nat)
    requires limit > 0 && ValidRun(Begin(targets, limit), run)
    requires var log := After(Begin(targets, limit), run).log;
      k < |log| && log[k].phase.PREFLIGHT? && Failing(log[k].call)
    ensures var log := After(Begin(targets, limit), run).log;
      forall j :: 0 <= j < |log| ==> !Destructive(log[j].call)
  {
    BeginInv(targets, limit);
    RunKeepsInv(Begin(targets, limit), run);
    var s := After(Begin(targets, limit), run);
    assert s.phase.PREFLIGHT?;
    forall j | 0 <= j < |s.log|
      ensures !Destructive(s.log[j].call)
    {
      assert Justified(s.log, j) && Rank(s.log[j].phase) <= 0;
    }
  }

  /**
   * Every deletion and every scheduling comes directly after successful checks in the same task: of the
   * target's ownership, and for an alias that it still points at that very key.
   */
  lemma DestructionIsVerified(targets: seq<Target>, limit: nat, run: seq<Event>, k: nat)
    requires limit > 0 && ValidRun(Begin(targets, limit), run)
    requires k < |After(Begin(targets, limit), run).log| && Destructive(After(Begin(targets, limit), run).log[k].call)
    ensures var log := After(Begin(targets, limit), run).log;
      var before := History(log[..k], log[k].phase, log[k].item);
      exists arn ::
        if log[k].call.DeleteAlias? then before == [Verify(Exists(arn)), DescribeAlias(AliasOf(arn), Exists(arn))]
        else before == [Verify(Exists(arn))]
  {
    BeginInv(targets, limit);
    RunKeepsInv(Begin(targets, limit), run);
    assert Justified(After(Begin(targets, limit), run).log, k);
  }

  /** All preflight calls come before all alias calls, and those before all key calls. */
  lemma PhasesDoNotOverlap(targets: seq<Target>, limit: nat, run: seq<Event>, j: nat, k: nat)
    requires limit > 0 && ValidRun(Begin(targets, limit), run)
    requires j < k < |After(Begin(targets, limit), run).log|
    ensures var log := After(Begin(targets, limit), run).log; Rank(log[j].phase) <= Rank(log[k].phase)
  {
    BeginInv(targets, limit);
    RunKeepsInv(Begin(targets, limit), run);
  }

  lemma {:induction false} FoundExactly(output: seq<Option<Out>>, withAlias: bool, i: nat)
    requires i < |output|
    ensures i in Found(output, withAlias) <==>
      output[i].Some? && output[i].value.Ready? && (withAlias ==> output[i].value.alias.Some?)
    ensures forall x :: x in Found(output, withAlias) ==> x < |output|
  {
    var n := |output| - 1;
    FoundBounded(output[..n], withAlias);
    if i < n {
      FoundExactly(output[..n], withAlias, i);
    }
  }

  lemma {:induction false} FoundBounded(output: seq<Option<Out>>, withAlias: bool)
    ensures forall x :: x in Found(output, withAlias) ==> x < |output|
  {
    if output != [] {
      FoundBounded(output[..|output| - 1], withAlias);
    }
  }

  /**
   * When the cleanup ends, every target that passed preflight was verified again in the key phase, and
   * scheduled if it was still ours, whatever happened to any alias or any other key.
   */
  lemma EveryVerifiedKeyIsAttempted(targets: seq<Target>, limit: nat, run: seq<Event>, t: nat)
    requires limit > 0 && ValidRun(Begin(targets, limit), run)
    requires var s := After(Begin(targets, limit), run);
      s.phase.END? && t < |s.preflight| && s.preflight[t].Some? && s.preflight[t].value.Ready?
    ensures var s := After(Begin(targets, limit), run);
      exists i :: 0 <= i < |s.active| == |s.pool.output| && s.active[i] == t
        && s.pool.output[i].Some? && KeyTaskDone(s.pool.output[i].value, History(s.log, KEYS, i))
  {
    BeginInv(targets, limit);
    RunKeepsInv(Begin(targets, limit), run);
    var s := After(Begin(targets, limit), run);
    FoundExactly(s.preflight, false, t);
    var i :| 0 <= i < |s.active| && s.active[i] == t;
    hide History, KeyTaskDone, Found;
  }

  // ---------------------------------------------------------------- the report

  function Total(results: seq<Option<Out>>): nat {
    if results == [] then 0
    else
      var last := results[|results| - 1];
      (if last.Some? && last.value.Failures? then last.value.n else 0) + Total(results[..|results| - 1])
  }

  lemma {:induction false} TotalZero(results: seq<Option<Out>>, i: nat)
    requires Total(results) == 0 && i < |results| && results[i].Some? && results[i].value.Failures?
    ensures results[i].value.n == 0
  {
    var n := |results| - 1;
    if i < n {
      TotalZero(results[..n], i);
    }
  }

  /**
   * No failure counted: every key is gone or scheduled, and every alias is gone, or deleted, or left alone
   * because its key is gone.
   */
  lemma SuccessMeansDone(targets: seq<Target>, limit: nat, run: seq<Event>, i: nat)
    requires limit > 0 && ValidRun(Begin(targets, limit), run)
    requires var s := After(Begin(targets, limit), run);
      s.phase.END? && Total(s.aliasResults) == 0 && Total(s.pool.output) == 0
    ensures var s := After(Begin(targets, limit), run);
      && (i < |s.active| ==>
            var h := History(s.log, KEYS, i);
            h == [Verify(Absent)] || (|h| == 2 && h[0].Verify? && h[0].check.Exists? && h[1] == ScheduleDeletion(true)))
      && (i < |s.aliases| ==>
            var h := History(s.log, ALIASES, i);
            && |h| >= 2 && h[0].Verify? && h[1].DescribeAlias?
            && (h[1].answer.AliasMissing? || h[0].check.Absent? || (|h| == 3 && h[2] == DeleteAlias(true))))
  {
    BeginInv(targets, limit);
    RunKeepsInv(Begin(targets, limit), run);
    var s := After(Begin(targets, limit), run);
    hide History, Justified, Found, Failing;
    if i < |s.active| {
      assert s.pool.output[i].Some? && KeyTaskDone(s.pool.output[i].value, History(s.log, KEYS, i));
      TotalZero(s.pool.output, i);
    }
    if i < |s.aliases| {
      assert AliasOk(s, i);
      TotalZero(s.aliasResults, i);
    }
  }

  /** Behind preflight no worker gives up: one that is not through can take its next step, whatever AWS answers. */
  lemma NothingStopsThePools(targets: seq<Target>, limit: nat, run: seq<Event>, w: nat)
    requires limit > 0 && ValidRun(Begin(targets, limit), run)
    requires var s := After(Begin(targets, limit), run); !s.phase.PREFLIGHT? && !s.phase.END? && w < |s.pool.workers|
    ensures var s := After(Begin(targets, limit), run);
      s.pool.workers[w].Done? || forall a :: ValidEvent(s, Work(w, a))
  {
    BeginInv(targets, limit);
    RunKeepsInv(Begin(targets, limit), run);
    var s := After(Begin(targets, limit), run);
    assert WorkerOk(s.pool, w) && !s.pool.workers[w].Rejected?;
    if s.pool.workers[w].Busy? {
      ItemsHaveTargets(s, s.pool.workers[w].index);
    }
    hide Found, TargetOf;
  }

  // ---------------------------------------------------------------- the cleanup comes to its end

  function StageToil(stage: Stage): nat {
    match stage case Verifying => 3 case Aliasing(_) => 2 case _ => 1
  }

  /** The steps a worker needs at most for what it has in hand, and one to find nothing left. */
  function Toil(worker: Worker<Stage>): nat {
    match worker
    case Idle => 1
    case Busy(_, stage) => 1 + StageToil(stage)
    case _ => 0
  }

  function TotalToil(workers: seq<Worker<Stage>>): nat {
    if workers == [] then 0 else Toil(workers[0]) + TotalToil(workers[1..])
  }

  /** The steps a pool needs at most. */
  function Left(p: Pool<Stage, Out>): nat {
    (if p.next < Size(p) then 4 * (Size(p) - p.next) else 0) + TotalToil(p.workers)
  }

  lemma {:induction false} ToilUpdate(workers: seq<Worker<Stage>>, w: nat, worker: Worker<Stage>)
    requires w < |workers|
    ensures TotalToil(workers[w := worker]) + Toil(workers[w]) == TotalToil(workers) + Toil(worker)
  {
    hide Toil;
    if w == 0 {
      assert workers[w := worker][1..] == workers[1..];
    } else {
      assert workers[w := worker][1..] == workers[1..][w - 1 := worker];
      ToilUpdate(workers[1..], w - 1, worker);
    }
  }

  lemma {:induction false} FreshToil(workers: seq<Worker<Stage>>)
    requires forall w :: 0 <= w < |workers| ==> workers[w].Idle?
    ensures TotalToil(workers) == |workers|
  {
    if workers != [] {
      FreshToil(workers[1..]);
    }
  }

  /** A task only goes forward. */
  lemma MovesGoForward(phase: Phase, t: Target, stage: Stage, a: Answers)
    ensures var move := NextMove(phase, t, CallOf(stage, t, a)); move.Goes? ==> StageToil(move.stage) < StageToil(stage)
  {
    hide Verdict;
  }

  lemma WorkShrinks(s: State, w: nat, a: Answers)
    requires ValidEvent(s, Work(w, a))
    ensures Left(WorkStep(s, w, a).pool) < Left(s.pool)
  {
    hide CallOf, NextMove, TargetOf;
    var p := s.pool;
    if p.workers[w].Idle? {
      ToilUpdate(p.workers, w, if p.next >= Size(p) then Done else Busy(p.next, Verifying));
    } else {
      var t := TargetOf(s, p.workers[w].index).value;
      var stage := p.workers[w].stage;
      MovesGoForward(s.phase, t, stage, a);
      match NextMove(s.phase, t, CallOf(stage, t, a))
      case Goes(next) => ToilUpdate(p.workers, w, p.workers[w].(stage := next));
      case Ends(_) => ToilUpdate(p.workers, w, Idle);
      case Throws => ToilUpdate(p.workers, w, Rejected(p.workers[w].index));
    }
  }

  /** The events a cleanup needs at most from here on. */
  function Ahead(s: State): nat {
    match s.phase
    case PREFLIGHT => Left(s.pool) + 10 * |s.targets| + 3
    case ALIASES => Left(s.pool) + 5 * |s.targets| + 2
    case KEYS => Left(s.pool) + 1
    case END => 0
  }

  lemma {:induction false} FoundIsShort(output: seq<Option<Out>>, withAlias: bool)
    ensures |Found(output, withAlias)| <= |output|
  {
    if output != [] {
      FoundIsShort(output[..|output| - 1], withAlias);
    }
  }

  lemma StartLeft(n: nat, limit: nat)
    ensures Left(Start(n, limit)) <= 5 * n
  {
    FreshToil(Start<Stage, Out>(n, limit).workers);
  }

  lemma StepShrinks(s: State, e: Event)
    requires Inv(s) && ValidEvent(s, e)
    ensures Ahead(Step(s, e)) < Ahead(s)
  {
    hide Left, WorkerPool.Inv, TasksOk, RejectOk, LogOk, AliasesOk, Found;
    match e
    case Work(w, a) =>
      WorkShrinks(s, w, a);
      WorkKeepsInv(s, w, a);
      TargetsStay(s, e);
      hide WorkStep;
    case Proceed =>
      FoundIsShort(s.pool.output, false);
      FoundIsShort(s.pool.output, true);
      FoundIsShort(s.preflight, false);
      StartLeft(|Found(s.pool.output, true)|, s.limit);
      StartLeft(|s.active|, s.limit);
  }

  lemma {:induction false} RunsAreBounded(s: State, run: seq<Event>)
    requires Inv(s) && ValidRun(s, run)
    ensures |run| + Ahead(After(s, run)) <= Ahead(s)
    decreases |run|
  {
    hide Inv, Step, Ahead;
    if run != [] {
      StepShrinks(s, run[0]);
      StepKeepsInv(s, run[0]);
      RunsAreBounded(Step(s, run[0]), run[1..]);
    }
  }

  /** The lists only name targets there are. */
  lemma ItemsHaveTargets(s: State, item: nat)
    requires Running(s) && item < Size(s.pool) && !s.phase.END?
    ensures TargetOf(s, item).Some?
  {
    FoundBounded(s.preflight, false);
    FoundBounded(s.preflight, true);
    hide Found, WorkerPool.Inv, TasksOk, RejectOk, LogOk, AliasesOk;
    assert s.phase.ALIASES? ==> s.aliases[item] in s.aliases;
    assert s.phase.KEYS? ==> s.active[item] in s.active;
  }

  /** Before its end, and unless preflight has rejected, a cleanup can always go on. */
  lemma CanGoOn(s: State) returns (e: Event)
    requires Inv(s) && !s.phase.END? && !(s.phase.PREFLIGHT? && AnyRejected(s.pool))
    ensures ValidEvent(s, e)
  {
    hide TasksOk, LogOk, AliasesOk, ListsOk, TargetOf;
    if AllDone(s.pool) {
      e := Proceed;
    } else {
      var w :| 0 <= w < |s.pool.workers| && !s.pool.workers[w].Done?;
      assert WorkerOk(s.pool, w) && !s.pool.workers[w].Rejected?;
      if s.pool.workers[w].Busy? {
        ItemsHaveTargets(s, s.pool.workers[w].index);
      }
      e := Work(w, Answers(Options("", ""), KeyNotFound, ListFailed, AliasMissing, true));
    }
  }

  /**
   * A cleanup comes to an end: no run has more than 15 events for each target and three, and one that cannot
   * go on has gone through all its phases, exactly unless a preflight check failed.
   */
  lemma CleanupEnds(targets: seq<Target>, limit: nat, run: seq<Event>)
    requires limit > 0 && ValidRun(Begin(targets, limit), run)
    ensures |run| <= 15 * |targets| + 3
    ensures var s := After(Begin(targets, limit), run);
      (forall e :: !ValidEvent(s, e)) ==> (s.phase.END? <==> !CheckFailed(s.log))
  {
    var b := Begin(targets, limit);
    BeginInv(targets, limit);
    RunKeepsInv(b, run);
    RunsAreBounded(b, run);
    StartLeft(|targets|, limit);
    var s := After(b, run);
    hide Left, WorkerPool.Inv, TasksOk, LogOk, AliasesOk, ListsOk, CheckFailed;
    if !s.phase.END? && !(s.phase.PREFLIGHT? && AnyRejected(s.pool)) {
      var e := CanGoOn(s);
    }
  }
}
