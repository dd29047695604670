/**
 * `writePrivateFile` as a whole: the rendezvous decides the directory, the publication protocol runs
 * inside it.  The two machines interleave freely; an isolate starts a publication in the directory
 * `privateTempDirectory` has handed it.
 */
module Runtime {
  import R = Rendezvous
  import F = PrivateFile

  datatype State = State(rendezvous: R.State, files: F.State)

  datatype Event = Agree(r: R.Event) | Publish(f: F.Event)

  ghost predicate ValidEvent(s: State, e: Event) {
    match e
    case Agree(r) => R.ValidEvent(s.rendezvous, r)
    case Publish(f) => F.ValidEvent(s.files, f) && (f.Begin? ==> Holds(s.rendezvous, f.isolate, f.req.path.dir))
  }

  /** `privateTempDirectory` has returned `dir` to the isolate. */
  predicate Holds(s: R.State, i: R.Isolate, dir: string) {
    i in s.isolates && s.isolates[i].pc.Returned? && s.isolates[i].temp.Some? && s.isolates[i].temp.value.name == dir
  }

  function Step(s: State, e: Event): State
    requires ValidEvent(s, e)
  {
    match e
    case Agree(r) => s.(rendezvous := R.Step(s.rendezvous, r))
    case Publish(f) => s.(files := F.Step(s.files, f))
  }

  ghost predicate Init(s: State) {
    R.Init(s.rendezvous) && F.Init(s.files)
  }

  ghost predicate ValidRun(s: State, run: seq<Event>)
    decreases |run|
  {
    run != [] ==> ValidEvent(s, run[0]) && ValidRun(Step(s, run[0]), run[1..])
  }

  ghost function Run(s: State, run: seq<Event>): State
    requires ValidRun(s, run)
    decreases |run|
  {
    if run == [] then s else Run(Step(s, run[0]), run[1..])
  }

  ghost predicate InMarkedDir(s: R.State, path: F.Path) {
    R.Marked(s.fs) && R.MarkedName(s.fs) == path.dir && path.dir in s.fs.dirs
  }

  ghost predicate Inv(s: State) {
    && R.Inv(s.rendezvous) && F.Inv(s.files)
    && (forall i :: i in s.files.isolates && !s.files.isolates[i].pc.Idle? ==>
          InMarkedDir(s.rendezvous, s.files.isolates[i].req.path))
    && (forall r :: r in s.files.receipts ==> InMarkedDir(s.rendezvous, r.req.path))
  }

  lemma StepKeepsInv(s: State, e: Event)
    requires Inv(s) && ValidEvent(s, e)
    ensures Inv(Step(s, e))
  {
    match e
    case Agree(r) =>
      hide F.Inv, R.Step, R.Inv;
      R.StepKeepsInv(s.rendezvous, r);
      R.StepKeepsFs(s.rendezvous, r);
    case Publish(f) =>
      PublishStaysInMarkedDir(s, f);
  }

  lemma IdleStays(files: F.Files, me: F.Local, now: real, fails: bool, accepted: nat)
    ensures me.pc.Idle? ==> F.NextPc(files, me, now, fails, accepted).Idle?
  {
  }

  lemma PublishStaysInMarkedDir(s: State, f: F.Event)
    requires Inv(s) && ValidEvent(s, Publish(f))
    ensures Inv(Step(s, Publish(f)))
  {
    hide F.FilesOk, F.LocalOk, F.ReceiptOk, F.NextPc, F.NextOp, F.Apply, R.OwnerOk, R.FsOk;
    F.StepKeepsInv(s.files, f);
    if f.Call? {
      IdleStays(s.files.files, s.files.isolates[f.isolate], F.Step(s.files, f).now, f.fails, f.accepted);
    } else {
      assert R.ReaderOk(s.rendezvous.fs, s.rendezvous.isolates[f.isolate]);
    }
  }

  lemma {:induction false} RunKeepsInv(s: State, run: seq<Event>)
    requires Inv(s) && ValidRun(s, run)
    ensures Inv(Run(s, run))
    decreases |run|
  {
    if run != [] {
      StepKeepsInv(s, run[0]);
      RunKeepsInv(Step(s, run[0]), run[1..]);
    }
  }

  /**
   * Over every interleaving of the two protocols, all publications of one file name that returned in
   * this process saw one inode: same directory, same final mode, same bytes, and each got what it
   * asked for.  The directory still exists and the file is still there.
   */
  lemma OneFilePerName(s: State, run: seq<Event>, a: F.Receipt, b: F.Receipt)
    requires Init(s) && ValidRun(s, run)
    requires a in Run(s, run).files.receipts && b in Run(s, run).files.receipts
    requires a.req.path.name == b.req.path.name
    ensures a.ino == b.ino && a.req == b.req
    ensures InMarkedDir(Run(s, run).rendezvous, a.req.path)
    ensures F.ReceiptOk(Run(s, run).files.files, a)
  {
    F.InitInv(s.files);
    RunKeepsInv(s, run);
    var t := Run(s, run);
    assert InMarkedDir(t.rendezvous, a.req.path) && InMarkedDir(t.rendezvous, b.req.path);
    assert F.ReceiptOk(t.files.files, a) && F.ReceiptOk(t.files.files, b);
    assert F.PublishedOk(t.files.files, a.ino);
  }
}
