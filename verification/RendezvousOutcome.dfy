/**
 * How a call of `privateTempDirectory` ends when it does not return (npm/core/index.js:299-401), in the machine of
 * `Rendezvous`: what a loser or a failed publisher leaves behind, and what a stale marker leads to.
 */
module RendezvousOutcome {
  import opened Bytes
  import opened Rendezvous

  // ---------------------------------------------------------------- what is left behind

  /**
   * An isolate that stops having a candidate has linked it, or has removed it, unless the rmdir failed or an earlier
   * unlink left the `.publish` file in it.
   */
  lemma CandidatesAreCleanedUp(s: State, e: Event)
    requires Inv(s) && ValidEvent(s, e) && HasCandidate(s.isolates[e.isolate].pc)
    ensures e.isolate in Step(s, e).isolates
    ensures var pc, s' := s.isolates[e.isolate].pc, Step(s, e); var pc' := s'.isolates[e.isolate].pc;
      || (HasCandidate(pc') && pc'.cand == pc.cand)
      || (pc'.Unpublishing? && pc'.cand == pc.cand && Marked(s'.fs) && MarkedName(s'.fs) == pc.cand)
      || (pc.CatchRemoving? && pc' == (if pc.exist then Opening(AfterExist) else Threw)
          && e.Call? && (e.fails.Some? || pc.cand in s.fs.pubs || pc.cand !in s'.fs.dirs))
  {
    var pc := s.isolates[e.isolate].pc;
    hide ReaderOk, TempOk, LinksOk, Distinct, NextReader, WellFormed, FileOk, FsOk;
    assert OwnerOk(s.fs, pc);
    if pc.Linking? {
      LinkedIsMarked(s, e);
    }
  }

  lemma LinkedIsMarked(s: State, e: Event)
    requires Inv(s) && ValidEvent(s, e) && s.isolates[e.isolate].pc.Linking?
    ensures e.isolate in Step(s, e).isolates
    ensures var s' := Step(s, e); s'.isolates[e.isolate].pc.Unpublishing? ==>
      Marked(s'.fs) && MarkedName(s'.fs) == s.isolates[e.isolate].pc.cand
  {
    hide ReaderOk, TempOk, LinksOk, Distinct, NextReader, WellFormed, FsOk;
    assert OwnerOk(s.fs, s.isolates[e.isolate].pc);
  }

  /** The `.publish` file goes with the unlink that follows the link, or the failure. */
  lemma PublishFileGoes(s: State, e: Event)
    requires Inv(s) && ValidEvent(s, e) && e.Call? && e.fails.None?
    requires s.isolates[e.isolate].pc.Unpublishing? || s.isolates[e.isolate].pc.CatchUnlinking?
    ensures s.isolates[e.isolate].pc.cand !in Step(s, e).fs.pubs
  {
  }

  /** A call of the publisher that fails leads into the cleanup, which remembers whether the name was taken. */
  lemma FailureIsCaught(s: State, e: Event)
    requires Inv(s) && ValidEvent(s, e) && e.Call? && e.fails.Some? && HasCandidate(s.isolates[e.isolate].pc)
    ensures e.isolate in Step(s, e).isolates
    ensures var pc, pc' := s.isolates[e.isolate].pc, Step(s, e).isolates[e.isolate].pc;
      && (pc.Securing? || pc.Publishing? || HasFile(pc) ==>
            && (pc'.CatchClosing? || pc'.CatchUnlinking? || pc'.CatchRemoving?)
            && (pc'.exist <==> e.fails == Some(EEXIST)))
      && (pc.Asserting? ==> pc' == CatchRemoving(pc.cand, false))
      && (HasFile(pc) && !pc.Linking? ==> pc'.CatchClosing?)
  {
    hide FsOk, OwnerOk, ReaderOk, TempOk, LinksOk, Distinct, NextReader, Apply;
  }

  predicate CleaningUp(pc: Pc) {
    (pc.CatchClosing? || pc.CatchUnlinking? || pc.CatchRemoving?) && !pc.exist
  }

  function CleanupLeft(pc: Pc): nat {
    if pc.CatchClosing? then 3 else if pc.CatchUnlinking? then 2 else if pc.CatchRemoving? then 1 else 0
  }

  /** A publisher that failed for any other reason than a name that is taken throws, three own calls later at most. */
  lemma {:induction false} FailedPublisherThrows(s: State, run: seq<Event>, i: Isolate)
    requires ValidRun(s, run) && i in s.isolates && (CleaningUp(s.isolates[i].pc) || s.isolates[i].pc.Threw?)
    requires forall k :: 0 <= k < |run| && run[k].isolate == i ==> run[k].Call?
    requires CallsOf(run, i) >= CleanupLeft(s.isolates[i].pc)
    ensures i in Run(s, run).isolates && Run(s, run).isolates[i].pc.Threw?
    decreases |run|
  {
    hide Apply, NextOp, NextReader;
    if run != [] {
      assert forall k :: 0 <= k < |run[1..]| ==> run[1..][k] == run[k + 1];
      FailedPublisherThrows(Step(s, run[0]), run[1..], i);
    }
  }

  // ---------------------------------------------------------------- a stale marker

  ghost predicate Stale(f: Fs) {
    Marked(f) && MarkedName(f) !in f.dirs
  }

  /** On the way from the first reading over a lost link to the second reading; nothing of its own has failed. */
  predicate OnStaleWay(f: Fs, me: Local) {
    && me.temp.None? && !me.pc.Idle? && !me.pc.Returned? && !me.pc.Unpublishing? && !me.pc.CatchClosing?
    && (me.pc.CatchUnlinking? || me.pc.CatchRemoving? ==> me.pc.exist)
    && (Reads(me.pc) ==> me.pc.why.First? || me.pc.why.AfterExist?)
  }

  /** How many own calls are left at most. */
  function StaleRank(f: Fs, pc: Pc): nat {
    var name := |f.prefix| + 6;
    if pc.Rooting? then name + 28
    else if Reads(pc) && pc.why.First? then
      name + (match pc case Opening(_) => 27 case Statting(_, _) => 26 case Reading(_, _, _) => 25 case _ => 24)
    else if pc.Opening? then 8
    else if Reads(pc) then match pc case Statting(_, _) => 7 case Reading(_, _, _) => 6 case _ => 5
    else Rank(f, pc)
  }

  lemma StaleStep(f: Fs, me: Local, accepted: nat, unique: string)
    requires FsOk(f) && Stale(f) && OwnerOk(f, me.pc) && ReaderOk(f, me) && OnStaleWay(f, me) && WellFormed(f, unique)
    ensures var f' := Apply(f, NextOp(f, me, None, accepted, unique));
      var me' := NextLocal(f, me, None, accepted, unique);
      && OnStaleWay(f', me') && f'.prefix == f.prefix
      && (if me.pc.Threw? then me' == me else StaleRank(f', me'.pc) < StaleRank(f, me.pc))
  {
    if Reads(me.pc) {
      hide NextPublisher, OwnerOk, WellFormed;
    } else {
      hide NextReader, ReaderOk;
    }
  }

  lemma StaleOther(s: State, e: Event, i: Isolate)
    requires Inv(s) && ValidEvent(s, e) && i in s.isolates && e.isolate != i && OnStaleWay(s.fs, s.isolates[i])
    ensures i in Step(s, e).isolates && Step(s, e).isolates[i] == s.isolates[i]
    ensures Step(s, e).fs.prefix == s.fs.prefix
    ensures OnStaleWay(Step(s, e).fs, s.isolates[i])
    ensures StaleRank(Step(s, e).fs, s.isolates[i].pc) == StaleRank(s.fs, s.isolates[i].pc)
  {
    hide FsOk, OwnerOk, ReaderOk, TempOk, LinksOk, Distinct, NextReader, NextPublisher, NextOp;
  }

  lemma StaysStale(s: State, e: Event)
    requires Inv(s) && ValidEvent(s, e) && Stale(s.fs)
    ensures Inv(Step(s, e)) && Stale(Step(s, e).fs)
  {
    StepKeepsInv(s, e);
    StepKeepsFs(s, e);
  }

  lemma CallsDoNotFail(run: seq<Event>, i: Isolate)
    requires NeverFails(run, i) && run != []
    ensures NeverFails(run[1..], i) && (run[0].isolate == i ==> run[0].Call? && run[0].fails.None?)
  {
    assert forall k :: 0 <= k < |run[1..]| ==> run[1..][k] == run[k + 1];
  }

  lemma StaleSelf(s: State, e: Event)
    requires Inv(s) && ValidEvent(s, e) && Stale(s.fs) && e.Call? && e.fails.None?
    requires OnStaleWay(s.fs, s.isolates[e.isolate])
    ensures e.isolate in Step(s, e).isolates && OnStaleWay(Step(s, e).fs, Step(s, e).isolates[e.isolate])
    ensures var pc, pc' := s.isolates[e.isolate].pc, Step(s, e).isolates[e.isolate].pc;
      if pc.Threw? then pc' == pc else StaleRank(Step(s, e).fs, pc') < StaleRank(s.fs, pc)
  {
    var me := s.isolates[e.isolate];
    assert OwnerOk(s.fs, me.pc) && ReaderOk(s.fs, me);
    hide FsOk, OwnerOk, ReaderOk, TempOk, LinksOk, Distinct, NextLocal, NextOp, Apply, Stale, OnStaleWay, StaleRank;
    StaleStep(s.fs, me, e.accepted, e.unique);
  }

  /**
   * With a marker whose directory is missing, an isolate whose own calls do not fail throws after a bounded number
   * of them: it goes on to publish once, loses the link, and does not try again.
   */
  lemma {:induction false} StaleIsolateThrows(s: State, run: seq<Event>, i: Isolate)
    requires Inv(s) && ValidRun(s, run) && Stale(s.fs) && i in s.isolates && OnStaleWay(s.fs, s.isolates[i])
    requires NeverFails(run, i) && CallsOf(run, i) >= StaleRank(s.fs, s.isolates[i].pc)
    ensures i in Run(s, run).isolates && Run(s, run).isolates[i].pc.Threw?
    decreases |run|
  {
    hide Inv, Step, ValidEvent, Stale, OnStaleWay, StaleRank;
    if run != [] {
      StaysStale(s, run[0]);
      CallsDoNotFail(run, i);
      if run[0].isolate == i {
        StaleSelf(s, run[0]);
      } else {
        StaleOther(s, run[0], i);
      }
      ThrewHasNoRank(Step(s, run[0]).fs, Step(s, run[0]).isolates[i].pc);
      StaleIsolateThrows(Step(s, run[0]), run[1..], i);
    } else {
      NoRankThrew(s.fs, s.isolates[i]);
    }
  }

  lemma ThrewHasNoRank(f: Fs, pc: Pc)
    ensures pc.Threw? ==> StaleRank(f, pc) == 0
  {
  }

  lemma NoRankThrew(f: Fs, me: Local)
    requires OnStaleWay(f, me) && StaleRank(f, me.pc) == 0
    ensures me.pc.Threw?
  {
  }

  // ---------------------------------------------------------------- every return is on record

  /** Whoever has returned remembers the directory that was handed out to it. */
  ghost predicate OnRecord(s: State) {
    forall i :: i in s.isolates && s.isolates[i].pc.Returned? ==>
      s.isolates[i].temp.Some? && s.isolates[i].temp.value in s.handedOut
  }

  lemma StepKeepsRecord(s: State, e: Event)
    requires Inv(s) && ValidEvent(s, e) && OnRecord(s)
    ensures OnRecord(Step(s, e))
  {
    hide FsOk, OwnerOk, TempOk, LinksOk, Distinct, NextOp, Apply, OpDefined;
    assert ReaderOk(s.fs, s.isolates[e.isolate]);
  }

  /** So agreement of what was handed out is agreement of all that returned. */
  lemma {:induction false} ReturnedIsOnRecord(s: State, run: seq<Event>)
    requires Inv(s) && ValidRun(s, run) && OnRecord(s)
    ensures OnRecord(Run(s, run))
    decreases |run|
  {
    hide Inv, Step, ValidEvent, OnRecord;
    if run != [] {
      StepKeepsInv(s, run[0]);
      StepKeepsRecord(s, run[0]);
      ReturnedIsOnRecord(Step(s, run[0]), run[1..]);
    }
  }

  // ---------------------------------------------------------------- a directory once known

  /** An isolate that remembers a directory only ever checks it. */
  predicate OnlyChecks(me: Local) {
    me.temp.Some? ==> AtRest(me.pc) || (Reads(me.pc) && me.pc.why.Check?)
  }

  /** ... and never forgets it. */
  lemma StepOnlyChecks(s: State, e: Event, i: Isolate)
    requires ValidEvent(s, e) && i in s.isolates && OnlyChecks(s.isolates[i])
    ensures i in Step(s, e).isolates && OnlyChecks(Step(s, e).isolates[i])
    ensures s.isolates[i].temp.Some? ==> Step(s, e).isolates[i].temp == s.isolates[i].temp
  {
    hide Apply, OpDefined, WellFormed;
  }

  /**
   * An isolate that has found a directory keeps to it: in any run it remembers the same one, and never makes another
   * candidate.
   */
  lemma {:induction false} KnownDirectoryIsKept(s: State, run: seq<Event>, i: Isolate)
    requires ValidRun(s, run) && i in s.isolates && OnlyChecks(s.isolates[i])
    ensures i in Run(s, run).isolates && OnlyChecks(Run(s, run).isolates[i])
    ensures s.isolates[i].temp.Some? ==>
      Run(s, run).isolates[i].temp == s.isolates[i].temp && !HasCandidate(Run(s, run).isolates[i].pc)
    decreases |run|
  {
    hide Step, ValidEvent;
    if run != [] {
      StepOnlyChecks(s, run[0], i);
      KnownDirectoryIsKept(Step(s, run[0]), run[1..], i);
    }
  }
}
