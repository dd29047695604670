/**
 * How a call of `writePrivateFile` ends (npm/core/index.js:416-508), in the machine of `PrivateFile`: when it
 * throws, when it returns, and what a failed creator leaves behind.
 */
module PrivateFileOutcome {
  import opened Bytes
  import opened PrivateFile

  // ---------------------------------------------------------------- what is published under a name

  /** The path names a published file with the bytes and the mode the isolate asks for. */
  predicate MadeFor(f: Files, req: Request) {
    && req.path in f.names && f.names[req.path] in f.inodes
    && f.inodes[f.names[req.path]].mode == req.mode && f.inodes[f.names[req.path]].bytes == req.bytes
  }

  /** The path names a published file with other bytes or another mode. */
  predicate MadeForOther(f: Files, req: Request) {
    && req.path in f.names && Published(f, f.names[req.path])
    && (f.inodes[f.names[req.path]].mode != req.mode || f.inodes[f.names[req.path]].bytes != req.bytes)
  }

  lemma PublishedStays(s: State, e: Event, req: Request)
    requires Inv(s) && ValidEvent(s, e)
    ensures MadeFor(s.files, req) ==> MadeFor(Step(s, e).files, req)
    ensures MadeForOther(s.files, req) ==> MadeForOther(Step(s, e).files, req)
  {
    hide Step, ReceiptOk, Disjoint;
    StepKeepsFiles(s, e);
    if req.path in s.files.names && Published(s.files, s.files.names[req.path]) {
      assert PublishedOk(s.files, s.files.names[req.path]);
    }
  }

  // ---------------------------------------------------------------- the runs looked at

  /** The isolate is in a call that has not failed yet. */
  predicate Active(pc: Pc) {
    !AtRest(pc) && !pc.Abandoning? && !pc.Unlinking?
  }

  /** Creating may still have to wait. */
  predicate Queued(pc: Pc) {
    pc.Opening? || pc.Checking? || pc.Inspecting? || pc.Waiting?
  }

  ghost predicate NeverFails(run: seq<Event>, i: Isolate) {
    forall k :: 0 <= k < |run| && run[k].isolate == i ==> run[k].Call? && !run[k].fails
  }

  predicate ChecksLate(s: State, e: Event, i: Isolate)
    requires i in s.isolates
  {
    e.isolate == i && e.Call? && s.isolates[i].pc.Checking? && s.now + e.elapsed >= s.isolates[i].deadline
  }

  /** Some check of the isolate comes at its deadline or after it. */
  ghost predicate LateCheck(s: State, run: seq<Event>, i: Isolate)
    requires ValidRun(s, run) && i in s.isolates
    decreases |run|
  {
    run != [] && (ChecksLate(s, run[0], i) || LateCheck(Step(s, run[0]), run[1..], i))
  }

  /** No other isolate creates a file under the path. */
  ghost predicate Undisturbed(s: State, run: seq<Event>, i: Isolate)
    requires ValidRun(s, run) && i in s.isolates
    decreases |run|
  {
    run != [] ==>
      && (run[0].isolate != i && run[0].Call? ==>
            var op := NextOp(s.files, s.isolates[run[0].isolate], run[0].fails, run[0].accepted);
            op.Create? ==> op.req.path != s.isolates[i].req.path)
      && Undisturbed(Step(s, run[0]), run[1..], i)
  }

  lemma NeverFailsTail(run: seq<Event>, i: Isolate)
    requires NeverFails(run, i) && run != []
    ensures NeverFails(run[1..], i)
  {
    assert forall k :: 0 <= k < |run[1..]| ==> run[1..][k] == run[k + 1];
  }

  // ---------------------------------------------------------------- when a call throws

  /** The return is on record. */
  ghost predicate HasReceipt(s: State, req: Request) {
    exists r :: r in s.receipts && r.req == req
  }

  /** An unfailing step goes on, or ends the call for one of two reasons, or returns what was asked for. */
  lemma ActiveSelf(s: State, e: Event)
    requires Inv(s) && ValidEvent(s, e) && e.Call? && !e.fails && Active(s.isolates[e.isolate].pc)
    ensures e.isolate in Step(s, e).isolates
    ensures var me, me' := s.isolates[e.isolate], Step(s, e).isolates[e.isolate];
      && me'.req == me.req
      && (Active(me'.pc) || me'.pc.Threw? || me'.pc.Returned?)
      && (me'.pc.Threw? ==> ChecksLate(s, e, e.isolate) || MadeForOther(Step(s, e).files, me.req))
      && (ChecksLate(s, e, e.isolate) ==> me'.pc.Threw?)
      && (me'.pc.Returned? ==> MadeFor(Step(s, e).files, me.req) && HasReceipt(Step(s, e), me.req))
  {
    var me := s.isolates[e.isolate];
    assert LocalOk(s, me);
    hide Disjoint, ReceiptOk, ClockOk, FilesOk, ReaderOk, OwnerOk;
    ActiveGoesOn(s.files, me, Step(s, e).now, e.accepted);
    if me.pc.Validating? {
      ValidatingEnds(s.files, me, Step(s, e).now, e.accepted);
      hide NextLocal;
      assert Step(s, e).isolates[e.isolate].pc.Returned? ==>
        Receipt(me.req, me.pc.stat.ino) in Step(s, e).receipts;
    }
  }

  lemma ActiveGoesOn(f: Files, me: Local, now: real, accepted: nat)
    requires OwnerOk(f, me) && ReaderOk(f, me) && Active(me.pc)
    ensures var me' := NextLocal(f, me, now, false, accepted);
      && me'.req == me.req && (Active(me'.pc) || me'.pc.Threw? || me'.pc.Returned?)
      && (me.pc.Checking? && now >= me.deadline ==> me'.pc.Threw?)
      && (me'.pc.Threw? ==> (me.pc.Checking? && now >= me.deadline) || me.pc.Validating?)
      && (me'.pc.Returned? ==> me.pc.Validating?)
  {
  }

  lemma ValidatingEnds(f: Files, me: Local, now: real, accepted: nat)
    requires FilesOk(f) && ReaderOk(f, me) && me.pc.Validating?
    ensures var me' := NextLocal(f, me, now, false, accepted); var op := NextOp(f, me, false, accepted);
      && op.Keep? && (me'.pc.Threw? || me'.pc.Returned?)
      && (me'.pc.Threw? ==> MadeForOther(f, me.req)) && (me'.pc.Returned? ==> MadeFor(f, me.req))
  {
  }

  lemma RestStays(s: State, e: Event, i: Isolate)
    requires Inv(s) && ValidEvent(s, e) && i in s.isolates && AtRest(s.isolates[i].pc) && (e.isolate == i ==> e.Call?)
    ensures i in Step(s, e).isolates && Step(s, e).isolates[i] == s.isolates[i] && !ChecksLate(s, e, i)
    ensures s.receipts <= Step(s, e).receipts
  {
    hide Inv, Apply, NextOp;
  }

  lemma OtherStays(s: State, e: Event, i: Isolate)
    requires ValidEvent(s, e) && i in s.isolates && e.isolate != i
    ensures i in Step(s, e).isolates && Step(s, e).isolates[i] == s.isolates[i] && !ChecksLate(s, e, i)
  {
  }

  lemma {:induction false} RestForGood(s: State, run: seq<Event>, i: Isolate)
    requires Inv(s) && ValidRun(s, run) && i in s.isolates && AtRest(s.isolates[i].pc) && NeverFails(run, i)
    ensures i in Run(s, run).isolates && Run(s, run).isolates[i] == s.isolates[i] && !LateCheck(s, run, i)
    ensures s.receipts <= Run(s, run).receipts
    ensures MadeFor(s.files, s.isolates[i].req) ==> MadeFor(Run(s, run).files, s.isolates[i].req)
    ensures MadeForOther(s.files, s.isolates[i].req) ==> MadeForOther(Run(s, run).files, s.isolates[i].req)
    decreases |run|
  {
    hide Inv, Step, ValidEvent, AtRest, MadeFor, MadeForOther, ChecksLate;
    if run != [] {
      RestStays(s, run[0], i);
      StepKeepsInv(s, run[0]);
      PublishedStays(s, run[0], s.isolates[i].req);
      NeverFailsTail(run, i);
      RestForGood(Step(s, run[0]), run[1..], i);
    }
  }

  /**
   * Why a call ends as it does, in every interleaving: one whose own calls do not fail throws exactly if one of
   * its checks comes at its deadline or later, or it is through and the file published under its path has other
   * bytes or another mode.  If it returns, that file has what it asked for, and the return is on record.
   */
  lemma {:induction false} ThrowsExactly(s: State, run: seq<Event>, i: Isolate)
    requires Inv(s) && ValidRun(s, run) && i in s.isolates && Active(s.isolates[i].pc) && NeverFails(run, i)
    ensures i in Run(s, run).isolates
    ensures var t := Run(s, run); var me, req := t.isolates[i], s.isolates[i].req;
      && me.req == req && (Active(me.pc) || AtRest(me.pc))
      && (me.pc.Threw? <==> LateCheck(s, run, i) || (AtRest(me.pc) && MadeForOther(t.files, req)))
      && (me.pc.Returned? ==> MadeFor(t.files, req) && HasReceipt(t, req))
    decreases |run|
  {
    hide Inv, Step, ValidEvent, MadeFor, MadeForOther, ChecksLate;
    if run != [] {
      var e, s' := run[0], Step(s, run[0]);
      StepKeepsInv(s, e);
      NeverFailsTail(run, i);
      if e.isolate == i {
        ActiveSelf(s, e);
      } else {
        OtherStays(s, e, i);
      }
      if Active(s'.isolates[i].pc) {
        ThrowsExactly(s', run[1..], i);
      } else {
        RestForGood(s', run[1..], i);
        NotBoth(Run(s', run[1..]).files, s.isolates[i].req);
      }
    }
  }

  lemma NotBoth(f: Files, req: Request)
    ensures !(MadeFor(f, req) && MadeForOther(f, req))
  {
  }

  // ---------------------------------------------------------------- when a call returns

  /**
   * On the way to return: the file is being made, or read and right, or the isolate is queued while the name is
   * free or the published file is right.
   */
  predicate Delivering(f: Files, me: Local) {
    match me.pc
    case Opening | Checking | Inspecting | Waiting(_) => me.req.path !in f.names || MadeFor(f, me.req)
    case Writing(_, _) | Syncing(_) | Chmodding(_) => true
    case Settling(_) | Closing(_) | Reopening | Statting(_) | Reading(_) | Validating(_, _) | Returned =>
      MadeFor(f, me.req)
    case _ => false
  }

  /** How many of its own calls are left at most. */
  function Rank(f: Files, me: Local): nat {
    var made := me.req.path in f.names;
    var creation := 10 + |me.req.bytes|;
    match me.pc
    case Waiting(_) => if made then 7 else creation + 3
    case Checking => if made then 6 else creation + 2
    case Inspecting => if made then 5 else creation + 1
    case Opening => if made then 7 else creation
    case Writing(_, pos) => if pos <= |me.req.bytes| then 9 + (|me.req.bytes| - pos) else 9
    case Syncing(_) => 8
    case Chmodding(_) => 7
    case Settling(_) => 6
    case Closing(_) => 5
    case Reopening => 4
    case Statting(_) => 3
    case Reading(_) => 2
    case Validating(_, _) => 1
    case _ => 0
  }

  /** The isolate is about to make the file itself, unless somebody else does. */
  predicate NameFree(f: Files, me: Local) {
    Queued(me.pc) && me.req.path !in f.names
  }

  /** What one own step does: nearer to the return, and never back into the queue. */
  ghost predicate Nearer(f: Files, me: Local, f': Files, me': Local) {
    && me'.req == me.req && Delivering(f', me')
    && (if me.pc.Returned? then me' == me else Rank(f', me') < Rank(f, me))
    && (NameFree(f', me') ==> NameFree(f, me)) && (Queued(me'.pc) ==> Queued(me.pc))
  }

  lemma QueuedNearer(f: Files, me: Local, now: real, accepted: nat)
    requires FilesOk(f) && Queued(me.pc) && Delivering(f, me) && (me.pc.Checking? ==> now < me.deadline)
    ensures Nearer(f, me, Apply(f, NextOp(f, me, false, accepted)), NextLocal(f, me, now, false, accepted))
  {
    if me.req.path in f.names {
      assert PublishedOk(f, f.names[me.req.path]);
    }
  }

  lemma CreatorNearer(f: Files, me: Local, now: real, accepted: nat)
    requires FilesOk(f) && OwnerOk(f, me) && (me.pc.Writing? || me.pc.Syncing? || me.pc.Chmodding?)
    ensures Nearer(f, me, Apply(f, NextOp(f, me, false, accepted)), NextLocal(f, me, now, false, accepted))
  {
  }

  lemma ReaderNearer(f: Files, me: Local, now: real, accepted: nat)
    requires FilesOk(f) && ReaderOk(f, me) && Delivering(f, me) && !Queued(me.pc)
    requires !me.pc.Writing? && !me.pc.Syncing? && !me.pc.Chmodding?
    ensures Nearer(f, me, Apply(f, NextOp(f, me, false, accepted)), NextLocal(f, me, now, false, accepted))
  {
    hide FilesOk;
  }

  lemma DeliveringSelf(s: State, e: Event)
    requires Inv(s) && ValidEvent(s, e) && e.Call? && !e.fails && Delivering(s.files, s.isolates[e.isolate])
    requires !ChecksLate(s, e, e.isolate)
    ensures e.isolate in Step(s, e).isolates
    ensures Nearer(s.files, s.isolates[e.isolate], Step(s, e).files, Step(s, e).isolates[e.isolate])
  {
    var me := s.isolates[e.isolate];
    assert LocalOk(s, me);
    hide Disjoint, ReceiptOk, ClockOk, FilesOk, OwnerOk, ReaderOk, Delivering, NextOp, NextLocal, Apply, Nearer;
    if Queued(me.pc) {
      QueuedNearer(s.files, me, Step(s, e).now, e.accepted);
    } else if me.pc.Writing? || me.pc.Syncing? || me.pc.Chmodding? {
      CreatorNearer(s.files, me, Step(s, e).now, e.accepted);
    } else {
      ReaderNearer(s.files, me, Step(s, e).now, e.accepted);
    }
  }

  lemma DeliveringOther(s: State, e: Event, i: Isolate)
    requires Inv(s) && ValidEvent(s, e) && i in s.isolates && e.isolate != i && Delivering(s.files, s.isolates[i])
    requires NameFree(s.files, s.isolates[i]) && e.Call? ==>
      var op := NextOp(s.files, s.isolates[e.isolate], e.fails, e.accepted);
      op.Create? ==> op.req.path != s.isolates[i].req.path
    ensures var me, s' := s.isolates[i], Step(s, e);
      && i in s'.isolates && s'.isolates[i] == me && Delivering(s'.files, me)
      && Rank(s'.files, me) == Rank(s.files, me)
      && (NameFree(s'.files, me) ==> NameFree(s.files, me))
  {
    var me := s.isolates[i];
    OtherStays(s, e, i);
    PublishedStays(s, e, me.req);
    if NameFree(s.files, me) {
      FreeStaysFree(s, e, me.req.path);
    }
    hide Step, Inv;
  }

  lemma FreeStaysFree(s: State, e: Event, p: Path)
    requires ValidEvent(s, e) && p !in s.files.names
    requires e.Call? ==>
      var op := NextOp(s.files, s.isolates[e.isolate], e.fails, e.accepted); op.Create? ==> op.req.path != p
    ensures p !in Step(s, e).files.names
  {
    hide NextOp, NextLocal;
  }

  /**
   * An isolate whose own calls do not fail returns after a bounded number of them, whatever the others do: from the
   * moment it has created the file; from anywhere, if the path names a published file with what it asks for and its
   * checks are in time; and from anywhere if the name is free and nobody else takes it.
   */
  lemma {:induction false} UnfailingIsolateReturns(s: State, run: seq<Event>, i: Isolate)
    requires Inv(s) && ValidRun(s, run) && i in s.isolates && Delivering(s.files, s.isolates[i])
    requires NeverFails(run, i) && CallsOf(run, i) >= Rank(s.files, s.isolates[i])
    requires Queued(s.isolates[i].pc) ==> !LateCheck(s, run, i)
    requires NameFree(s.files, s.isolates[i]) ==> Undisturbed(s, run, i)
    ensures i in Run(s, run).isolates && Run(s, run).isolates[i].pc.Returned?
    decreases |run|
  {
    hide Inv, Step, ValidEvent, Delivering, NameFree, NextOp;
    if run != [] {
      var e := run[0];
      StepKeepsInv(s, e);
      NeverFailsTail(run, i);
      NoCheckNoLate(s, e, i);
      if e.isolate == i {
        DeliveringSelf(s, e);
      } else {
        DeliveringOther(s, e, i);
      }
      UnfailingIsolateReturns(Step(s, e), run[1..], i);
    } else {
      NothingLeft(s.files, s.isolates[i]);
    }
  }

  lemma NoCheckNoLate(s: State, e: Event, i: Isolate)
    requires i in s.isolates
    ensures ChecksLate(s, e, i) ==> Queued(s.isolates[i].pc)
  {
  }

  lemma NothingLeft(f: Files, me: Local)
    requires Delivering(f, me) && Rank(f, me) == 0
    ensures me.pc.Returned?
  {
  }

  // ---------------------------------------------------------------- what a failed creator leaves behind

  /**
   * An isolate that stops owning its unpublished file has published it, or has freed its name again, unless the
   * unlink itself failed; so a failed creation leaves nothing for others to wait for.
   */
  lemma OwnershipEndsCleanly(s: State, e: Event)
    requires Inv(s) && ValidEvent(s, e) && Owns(s.isolates[e.isolate].pc)
    ensures var me, s' := s.isolates[e.isolate], Step(s, e); var me' := s'.isolates[e.isolate];
      Owns(me'.pc)
      || (me'.pc.Settling? && MadeFor(s'.files, me.req))
      || (me'.pc.Threw? && me.pc.Unlinking? && (e.fails || me.req.path !in s'.files.names))
  {
    assert LocalOk(s, s.isolates[e.isolate]);
  }

  /** A creation that has failed is over after two more of its own calls, whether they fail or not. */
  lemma {:induction false} FailedCreatorThrows(s: State, run: seq<Event>, i: Isolate)
    requires ValidRun(s, run) && i in s.isolates
    requires s.isolates[i].pc.Abandoning? || s.isolates[i].pc.Unlinking? || s.isolates[i].pc.Threw?
    requires forall k :: 0 <= k < |run| && run[k].isolate == i ==> run[k].Call?
    requires CallsOf(run, i) >= if s.isolates[i].pc.Abandoning? then 2 else if s.isolates[i].pc.Unlinking? then 1 else 0
    ensures i in Run(s, run).isolates && Run(s, run).isolates[i].pc.Threw?
    decreases |run|
  {
    hide Apply, NextOp;
    if run != [] {
      assert forall k :: 0 <= k < |run[1..]| ==> run[1..][k] == run[k + 1];
      FailedCreatorThrows(Step(s, run[0]), run[1..], i);
    }
  }
}
