/**
 * The publication of one private runtime file (npm/core/index.js, `writePrivateFile`,
 * `awaitPrivateFile`, `privateFileSnapshot`, `validatePrivateFile`) as a step machine: one step is
 * one system call of one isolate.  An event names the isolate that steps, whether its call fails
 * without effect, how many bytes a write accepts and how far the clock has moved since the last
 * event.  A wait blocks only the isolate that waits: it keeps the time it may wake at, and the others
 * go on meanwhile.  An isolate that stops is one that no later event mentions.
 */
module PrivateFile {
  import opened Bytes

  type Isolate = nat

  datatype Path = Path(dir: string, name: string)

  /** The permission bits the protocol uses: in progress, config file, native module. */
  datatype Mode = Mode0600 | Mode0400 | Mode0500

  type FinalMode = m: Mode | m != Mode0600 witness Mode0400

  datatype Request = Request(path: Path, bytes: Bytes, mode: FinalMode)

  // ---------------------------------------------------------------- the file system

  /** `asked` records the request of the creating isolate; no step reads it. */
  datatype Inode = Inode(mode: Mode, nlink: nat, bytes: Bytes, asked: Request)

  datatype Files = Files(nextIno: nat, inodes: map<nat, Inode>, names: map<Path, nat>)

  datatype FileOp =
    | Keep
    | Create(req: Request)              // open(2) with O_EXCL and mode 0600
    | Append(fd: nat, chunk: Bytes)     // write(2)
    | SetMode(fd: nat, mode: Mode)      // fchmod(2)
    | Remove(path: Path)                // unlink(2)

  predicate OpDefined(f: Files, op: FileOp) {
    match op
    case Keep => true
    case Create(req) => req.path !in f.names
    case Append(fd, _) => fd in f.inodes
    case SetMode(fd, _) => fd in f.inodes
    case Remove(path) => path in f.names && f.names[path] in f.inodes && f.inodes[f.names[path]].nlink > 0
  }

  function Apply(f: Files, op: FileOp): Files {
    if !OpDefined(f, op) then f
    else match op
      case Keep => f
      case Create(req) =>
        Files(f.nextIno + 1, f.inodes[f.nextIno := Inode(Mode0600, 1, [], req)], f.names[req.path := f.nextIno])
      case Append(fd, chunk) =>
        f.(inodes := f.inodes[fd := f.inodes[fd].(bytes := f.inodes[fd].bytes + chunk)])
      case SetMode(fd, mode) =>
        f.(inodes := f.inodes[fd := f.inodes[fd].(mode := mode)])
      case Remove(path) =>
        var ino := f.names[path];
        Files(f.nextIno, f.inodes[ino := f.inodes[ino].(nlink := f.inodes[ino].nlink - 1)], f.names - {path})
  }

  // ---------------------------------------------------------------- the isolates

  datatype Stat = Stat(ino: nat, mode: Mode, nlink: nat)

  datatype Pc =
    | Idle
    | Opening                                  // openSync with O_EXCL
    | Checking                                 // the loop head of awaitPrivateFile
    | Inspecting                               // lstatSync
    | Waiting(until: real)                     // Atomics.wait
    | Writing(fd: nat, pos: nat)               // writeFileSync, one write(2) at a time
    | Syncing(fd: nat)                         // fsyncSync
    | Chmodding(fd: nat)                       // fchmodSync
    | Settling(fd: nat)                        // second fsyncSync, `published` is set
    | Closing(fd: nat)                         // closeSync
    | Abandoning(fd: nat, published: bool)     // closeSync in the catch block
    | Unlinking(fd: nat)                       // unlinkSync in the catch block
    | Reopening                                // privateFileSnapshot: openSync
    | Statting(fd: nat)                        // fstatSync
    | Reading(stat: Stat)                      // readFileSync
    | Validating(stat: Stat, bytes: Bytes)     // validatePrivateFile
    | Returned
    | Threw

  datatype Local = Local(pc: Pc, req: Request, start: real, deadline: real, polls: nat)

  const PUBLICATION_TIMEOUT := 5000.0
  const POLL_INTERVAL := 5.0

  predicate AtRest(pc: Pc) {
    pc.Idle? || pc.Returned? || pc.Threw?
  }

  /** What the next system call of an isolate does to the file system. */
  function NextOp(f: Files, me: Local, fails: bool, accepted: nat): FileOp {
    if fails then Keep
    else match me.pc
      case Opening => if me.req.path in f.names then Keep else Create(me.req)
      case Writing(fd, pos) =>
        if pos > |me.req.bytes| then Keep
        else Append(fd, me.req.bytes[pos..pos + Min(accepted + 1, |me.req.bytes| - pos)])
      case Chmodding(fd) => SetMode(fd, me.req.mode)
      case Unlinking(fd) => Remove(me.req.path)
      case _ => Keep
  }

  /** An in-progress file, the one state `awaitPrivateFile` waits for. */
  predicate Pending(f: Files, p: Path) {
    p in f.names && f.names[p] in f.inodes
    && f.inodes[f.names[p]].nlink == 1 && f.inodes[f.names[p]].mode == Mode0600
  }

  /** The control flow of the creating half, given the result of the call. */
  function NextCreatorPc(me: Local, fails: bool, accepted: nat): Pc
    requires Owns(me.pc) || OwnPublished(me.pc)
  {
    match me.pc
    case Writing(fd, pos) =>
      if fails || pos > |me.req.bytes| then Abandoning(fd, false)
      else
        var end := pos + Min(accepted + 1, |me.req.bytes| - pos);
        if end == |me.req.bytes| then Syncing(fd) else Writing(fd, end)
    case Syncing(fd) => if fails then Abandoning(fd, false) else Chmodding(fd)
    case Chmodding(fd) => if fails then Abandoning(fd, false) else Settling(fd)
    case Settling(fd) => if fails then Abandoning(fd, true) else Closing(fd)
    case Closing(fd) => if fails then Abandoning(fd, true) else Reopening
    case Abandoning(fd, published) => if published then Threw else Unlinking(fd)
    case Unlinking(fd) => Threw
  }

  /** The control flow of everything else, given the files before the call. */
  function NextReaderPc(f: Files, me: Local, now: real, fails: bool): Pc
    requires !(Owns(me.pc) || OwnPublished(me.pc))
  {
    var path := me.req.path;
    match me.pc
    case Opening =>
      if fails then Threw else if path in f.names then Checking else Writing(f.nextIno, 0)
    case Checking => if now < me.deadline then Inspecting else Threw
    case Inspecting =>
      if fails then Threw
      else if path !in f.names then Opening
      else if Pending(f, path) then Waiting(now + POLL_INTERVAL)
      else Reopening
    case Waiting(_) => Checking
    case Reopening => if fails || path !in f.names then Threw else Statting(f.names[path])
    case Statting(fd) =>
      if fails || fd !in f.inodes then Threw else Reading(Stat(fd, f.inodes[fd].mode, f.inodes[fd].nlink))
    case Reading(stat) =>
      if fails || stat.ino !in f.inodes then Threw else Validating(stat, f.inodes[stat.ino].bytes)
    case Validating(stat, bytes) =>
      if fails || stat.nlink != 1 || stat.mode != me.req.mode || bytes != me.req.bytes then Threw else Returned
    case _ => me.pc
  }

  function NextPc(f: Files, me: Local, now: real, fails: bool, accepted: nat): Pc {
    if Owns(me.pc) || OwnPublished(me.pc) then NextCreatorPc(me, fails, accepted)
    else NextReaderPc(f, me, now, fails)
  }

  function NextLocal(f: Files, me: Local, now: real, fails: bool, accepted: nat): Local {
    me.(pc := NextPc(f, me, now, fails, accepted), polls := if me.pc.Waiting? then me.polls + 1 else me.polls)
  }

  // ---------------------------------------------------------------- the machine

  /** What one `writePrivateFile` that returned has seen. */
  datatype Receipt = Receipt(req: Request, ino: nat)

  datatype State = State(now: real, files: Files, isolates: map<Isolate, Local>, receipts: set<Receipt>)

  datatype Event =
    | Begin(isolate: Isolate, req: Request)
    | Call(isolate: Isolate, fails: bool, accepted: nat, elapsed: real)

  predicate ValidEvent(s: State, e: Event) {
    && e.isolate in s.isolates
    && (e.Call? ==> e.elapsed >= 0.0 && Awake(s.isolates[e.isolate].pc, s.now + e.elapsed))
  }

  /** A waiting isolate does not go on before its interval is over. */
  predicate Awake(pc: Pc, now: real) {
    pc.Waiting? ==> now >= pc.until
  }

  function Step(s: State, e: Event): State
    requires ValidEvent(s, e)
  {
    var me := s.isolates[e.isolate];
    match e
    case Begin(i, req) =>
      if AtRest(me.pc)
      then s.(isolates := s.isolates[i := Local(Opening, req, s.now, s.now + PUBLICATION_TIMEOUT, 0)])
      else s
    case Call(i, fails, accepted, elapsed) =>
      var now := s.now + elapsed;
      var me' := NextLocal(s.files, me, now, fails, accepted);
      State(now, Apply(s.files, NextOp(s.files, me, fails, accepted)), s.isolates[i := me'],
            if me.pc.Validating? && me'.pc.Returned? then s.receipts + {Receipt(me.req, me.pc.stat.ino)}
            else s.receipts)
  }

  /** Every isolate at rest and nothing published yet under any name. */
  ghost predicate Init(s: State) {
    && s.files == Files(0, map[], map[]) && s.receipts == {}
    && forall i :: i in s.isolates ==> s.isolates[i].pc == Idle
  }

  ghost predicate ValidRun(s: State, run: seq<Event>)
    decreases |run|
  {
    run != [] ==> ValidEvent(s, run[0]) && ValidRun(Step(s, run[0]), run[1..])
  }

  ghost function Run(s: State, run: seq<Event>): State
    requires ValidRun(s, run)
    decreases |run|
  {
    if run == [] then s else Run(Step(s, run[0]), run[1..])
  }

  // ---------------------------------------------------------------- the invariant

  /** The isolate still owns an unpublished file under `fd`. */
  predicate Owns(pc: Pc) {
    pc.Writing? || pc.Syncing? || pc.Chmodding? || pc.Unlinking? || (pc.Abandoning? && !pc.published)
  }

  predicate OwnPublished(pc: Pc) {
    pc.Settling? || pc.Closing? || (pc.Abandoning? && pc.published)
  }

  /** A file that has left the in-progress mode. */
  predicate Published(f: Files, ino: nat) {
    ino in f.inodes && f.inodes[ino].mode != Mode0600
  }

  predicate NamesPublished(f: Files, p: Path, ino: nat) {
    p in f.names && f.names[p] == ino && Published(f, ino)
  }

  /** A published file still has its name and one link, and holds all of what its creator asked for. */
  ghost predicate FilesOk(f: Files) {
    && (forall ino :: ino in f.inodes ==> ino < f.nextIno)
    && (forall p :: p in f.names ==>
          f.names[p] in f.inodes && f.inodes[f.names[p]].nlink == 1 && f.inodes[f.names[p]].asked.path == p)
    && (forall ino :: ino in f.inodes && f.inodes[ino].mode != Mode0600 ==> PublishedOk(f, ino))
  }

  ghost predicate PublishedOk(f: Files, ino: nat)
    requires ino in f.inodes
  {
    var node := f.inodes[ino];
    NamesPublished(f, node.asked.path, ino) && node.mode == node.asked.mode && node.bytes == node.asked.bytes
  }

  ghost predicate OwnerOk(f: Files, me: Local) {
    Owns(me.pc) ==>
      && me.req.path in f.names && f.names[me.req.path] == me.pc.fd
      && me.pc.fd in f.inodes
      && var node := f.inodes[me.pc.fd];
      && node.mode == Mode0600 && node.asked == me.req
      && (me.pc.Writing? ==> me.pc.pos <= |me.req.bytes| && node.bytes == me.req.bytes[..me.pc.pos])
      && (me.pc.Syncing? || me.pc.Chmodding? ==> node.bytes == me.req.bytes)
  }

  ghost predicate ReaderOk(f: Files, me: Local) {
    && (OwnPublished(me.pc) || me.pc.Statting? ==> NamesPublished(f, me.req.path, me.pc.fd))
    && (me.pc.Reopening? ==> me.req.path in f.names && Published(f, f.names[me.req.path]))
    && (me.pc.Reading? || me.pc.Validating? ==>
          && NamesPublished(f, me.req.path, me.pc.stat.ino)
          && me.pc.stat.mode == f.inodes[me.pc.stat.ino].mode && me.pc.stat.nlink == 1)
    && (me.pc.Validating? ==> me.pc.bytes == f.inodes[me.pc.stat.ino].bytes)
  }

  /** Each wait so far took one poll interval out of the one shared deadline. */
  ghost predicate ClockOk(now: real, me: Local) {
    !me.pc.Idle? ==>
      && me.deadline == me.start + PUBLICATION_TIMEOUT
      && me.start + POLL_INTERVAL * (me.polls as real) <= now
      && me.polls <= 1000
      && (me.pc.Inspecting? || me.pc.Waiting? ==> me.polls < 1000)
      && (me.pc.Waiting? ==> me.start + POLL_INTERVAL * ((me.polls + 1) as real) <= me.pc.until)
  }

  ghost predicate ReceiptOk(f: Files, r: Receipt) {
    NamesPublished(f, r.req.path, r.ino) && f.inodes[r.ino].mode == r.req.mode && f.inodes[r.ino].bytes == r.req.bytes
  }

  ghost predicate LocalOk(s: State, me: Local) {
    OwnerOk(s.files, me) && ReaderOk(s.files, me) && ClockOk(s.now, me)
  }

  ghost predicate Inv(s: State) {
    && FilesOk(s.files)
    && (forall i :: i in s.isolates ==> LocalOk(s, s.isolates[i]))
    && (forall i, j :: i in s.isolates && j in s.isolates && i != j ==> Disjoint(s.isolates[i].pc, s.isolates[j].pc))
    && (forall r :: r in s.receipts ==> ReceiptOk(s.files, r))
  }

  predicate Disjoint(a: Pc, b: Pc) {
    Owns(a) && Owns(b) ==> a.fd != b.fd
  }

  // ---------------------------------------------------------------- one file operation

  /** The only operations the protocol performs: they spare every published file. */
  ghost predicate Spares(f: Files, op: FileOp) {
    match op
    case Keep => true
    case Create(req) => req.path !in f.names
    case Append(fd, _) => fd in f.inodes && f.inodes[fd].mode == Mode0600
    case SetMode(fd, mode) =>
      && fd in f.inodes && f.inodes[fd].mode == Mode0600
      && mode == f.inodes[fd].asked.mode && f.inodes[fd].bytes == f.inodes[fd].asked.bytes
      && f.inodes[fd].asked.path in f.names && f.names[f.inodes[fd].asked.path] == fd
    case Remove(path) => path in f.names && f.names[path] in f.inodes && f.inodes[f.names[path]].mode == Mode0600
  }

  /** Published files keep inode, name, mode and bytes. */
  ghost predicate PublishedKept(f: Files, f': Files) {
    forall ino :: Published(f, ino) ==>
      && ino in f'.inodes && f'.inodes[ino] == f.inodes[ino]
      && f.inodes[ino].asked.path in f'.names && f'.names[f.inodes[ino].asked.path] == ino
  }

  lemma ApplyKeepsPublished(f: Files, op: FileOp)
    requires FilesOk(f) && Spares(f, op)
    ensures PublishedKept(f, Apply(f, op))
  {
    forall ino | Published(f, ino)
      ensures var f' := Apply(f, op);
        && ino in f'.inodes && f'.inodes[ino] == f.inodes[ino]
        && f.inodes[ino].asked.path in f'.names && f'.names[f.inodes[ino].asked.path] == ino
    {
      assert PublishedOk(f, ino);
    }
  }

  lemma ApplyFilesOk(f: Files, op: FileOp)
    requires FilesOk(f) && Spares(f, op)
    ensures FilesOk(Apply(f, op))
  {
    var f' := Apply(f, op);
    forall p | p in f'.names
      ensures f'.names[p] in f'.inodes && f'.inodes[f'.names[p]].nlink == 1 && f'.inodes[f'.names[p]].asked.path == p
    {
    }
    ApplyKeepsPublished(f, op);
    forall ino | ino in f'.inodes && f'.inodes[ino].mode != Mode0600
      ensures PublishedOk(f', ino)
    {
      assert Published(f, ino) ==> PublishedOk(f, ino);
    }
  }

  lemma NextOpSpares(s: State, i: Isolate, fails: bool, accepted: nat)
    requires Inv(s) && i in s.isolates
    ensures Spares(s.files, NextOp(s.files, s.isolates[i], fails, accepted))
  {
    assert LocalOk(s, s.isolates[i]);
  }

  // ---------------------------------------------------------------- the stepping isolate

  lemma WritingStep(f: Files, me: Local, fails: bool, accepted: nat)
    requires FilesOk(f) && OwnerOk(f, me) && ReaderOk(f, me) && me.pc.Writing?
    ensures var f' := Apply(f, NextOp(f, me, fails, accepted));
      var me' := me.(pc := NextCreatorPc(me, fails, accepted));
      OwnerOk(f', me') && ReaderOk(f', me')
  {
    hide FilesOk;
    if !fails {
      var end := me.pc.pos + Min(accepted + 1, |me.req.bytes| - me.pc.pos);
      assert me.req.bytes[..me.pc.pos] + me.req.bytes[me.pc.pos..end] == me.req.bytes[..end];
      assert end == |me.req.bytes| ==> me.req.bytes[..end] == me.req.bytes;
    }
  }

  lemma CreatorStep(f: Files, me: Local, fails: bool, accepted: nat)
    requires FilesOk(f) && OwnerOk(f, me) && ReaderOk(f, me) && (Owns(me.pc) || OwnPublished(me.pc))
    ensures var f' := Apply(f, NextOp(f, me, fails, accepted));
      var me' := me.(pc := NextCreatorPc(me, fails, accepted));
      OwnerOk(f', me') && ReaderOk(f', me')
  {
    if me.pc.Writing? {
      WritingStep(f, me, fails, accepted);
    }
  }

  lemma ReaderStep(f: Files, me: Local, now: real, fails: bool)
    requires FilesOk(f) && ReaderOk(f, me) && !(Owns(me.pc) || OwnPublished(me.pc))
    ensures var f' := Apply(f, NextOp(f, me, fails, 0));
      var me' := me.(pc := NextReaderPc(f, me, now, fails));
      OwnerOk(f', me') && ReaderOk(f', me')
  {
  }

  /** Opening and Checking are where a wait is still to be earned; the deadline is never renewed. */
  lemma ClockStep(f: Files, me: Local, before: real, now: real, fails: bool, accepted: nat)
    requires ClockOk(before, me) && before <= now && Awake(me.pc, now)
    ensures ClockOk(now, NextLocal(f, me, now, fails, accepted))
  {
    if me.pc.Checking? && now < me.deadline {
      assert POLL_INTERVAL * (me.polls as real) < PUBLICATION_TIMEOUT;
      assert (me.polls as real) < 1000.0;
    }
  }

  // ---------------------------------------------------------------- the other isolates

  /** An unpublished file is touched by its owner alone. */
  predicate LeavesAlone(op: FileOp, me: Local) {
    Owns(me.pc) ==>
      match op
      case Keep => true
      case Create(req) => req.path != me.req.path
      case Append(fd, _) => fd != me.pc.fd
      case SetMode(fd, _) => fd != me.pc.fd
      case Remove(path) => path != me.req.path
  }

  lemma OtherStep(f: Files, op: FileOp, me: Local)
    requires FilesOk(f) && Spares(f, op) && LeavesAlone(op, me)
    requires OwnerOk(f, me) && ReaderOk(f, me)
    ensures OwnerOk(Apply(f, op), me) && ReaderOk(Apply(f, op), me)
  {
    ApplyKeepsPublished(f, op);
    if Owns(me.pc) && op.Remove? {
      assert f.names[op.path] != me.pc.fd by {
        assert f.inodes[f.names[op.path]].asked.path == op.path;
      }
    }
    if Owns(me.pc) && op.Create? {
      assert me.pc.fd != f.nextIno;
    }
  }

  lemma NextOpLeavesAlone(s: State, i: Isolate, j: Isolate, fails: bool, accepted: nat)
    requires Inv(s) && i in s.isolates && j in s.isolates && i != j
    ensures LeavesAlone(NextOp(s.files, s.isolates[i], fails, accepted), s.isolates[j])
  {
    assert LocalOk(s, s.isolates[i]) && LocalOk(s, s.isolates[j]);
    assert Disjoint(s.isolates[i].pc, s.isolates[j].pc);
  }

  // ---------------------------------------------------------------- every step, every run

  lemma SelfStep(f: Files, me: Local, before: real, now: real, fails: bool, accepted: nat)
    requires FilesOk(f) && OwnerOk(f, me) && ReaderOk(f, me) && ClockOk(before, me)
    requires before <= now && Awake(me.pc, now)
    ensures var f' := Apply(f, NextOp(f, me, fails, accepted));
      var me' := NextLocal(f, me, now, fails, accepted);
      OwnerOk(f', me') && ReaderOk(f', me') && ClockOk(now, me')
  {
    hide FilesOk, Apply, NextCreatorPc, NextReaderPc, ClockOk;
    if Owns(me.pc) || OwnPublished(me.pc) {
      CreatorStep(f, me, fails, accepted);
    } else {
      ReaderStep(f, me, now, fails);
    }
    ClockStep(f, me, before, now, fails, accepted);
  }

  lemma StepKeepsLocal(s: State, e: Event, j: Isolate)
    requires Inv(s) && ValidEvent(s, e) && j in s.isolates
    ensures j in Step(s, e).isolates && LocalOk(Step(s, e), Step(s, e).isolates[j])
  {
    hide Disjoint, PublishedOk, Apply, FilesOk, Spares, LeavesAlone;
    var me := s.isolates[e.isolate];
    assert LocalOk(s, me) && LocalOk(s, s.isolates[j]);
    if e.Call? {
      var op := NextOp(s.files, me, e.fails, e.accepted);
      NextOpSpares(s, e.isolate, e.fails, e.accepted);
      if j == e.isolate {
        SelfStep(s.files, me, s.now, Step(s, e).now, e.fails, e.accepted);
      } else {
        NextOpLeavesAlone(s, e.isolate, j, e.fails, e.accepted);
        OtherStep(s.files, op, s.isolates[j]);
      }
    }
  }

  /** A step starts to own nothing but a file it makes, and that has a number nobody had before. */
  lemma OwnershipStarts(f: Files, me: Local, now: real, fails: bool, accepted: nat)
    ensures var me' := NextLocal(f, me, now, fails, accepted);
      Owns(me'.pc) ==> me'.pc.fd == f.nextIno || (Owns(me.pc) && me'.pc.fd == me.pc.fd)
  {
  }

  lemma OwnedIsOld(f: Files, me: Local)
    requires FilesOk(f) && OwnerOk(f, me)
    ensures Owns(me.pc) ==> me.pc.fd < f.nextIno
  {
  }

  lemma StepKeepsDisjoint(s: State, e: Event, i: Isolate, j: Isolate)
    requires Inv(s) && ValidEvent(s, e) && i in s.isolates && j in s.isolates && i != j
    ensures Disjoint(Step(s, e).isolates[i].pc, Step(s, e).isolates[j].pc)
  {
    hide FilesOk, OwnerOk, ReaderOk, ClockOk, ReceiptOk, Apply, NextOp, NextLocal;
    assert Disjoint(s.isolates[i].pc, s.isolates[j].pc);
    assert LocalOk(s, s.isolates[i]) && LocalOk(s, s.isolates[j]);
    OwnedIsOld(s.files, s.isolates[i]);
    OwnedIsOld(s.files, s.isolates[j]);
    if e.Call? {
      OwnershipStarts(s.files, s.isolates[e.isolate], Step(s, e).now, e.fails, e.accepted);
    }
  }

  lemma StepKeepsFiles(s: State, e: Event)
    requires Inv(s) && ValidEvent(s, e)
    ensures FilesOk(Step(s, e).files) && PublishedKept(s.files, Step(s, e).files)
  {
    forall ino | Published(s.files, ino)
      ensures PublishedOk(s.files, ino)
    {
    }
    if e.Call? {
      var op := NextOp(s.files, s.isolates[e.isolate], e.fails, e.accepted);
      NextOpSpares(s, e.isolate, e.fails, e.accepted);
      ApplyKeepsPublished(s.files, op);
      ApplyFilesOk(s.files, op);
    }
  }

  lemma StepKeepsReceipts(s: State, e: Event)
    requires Inv(s) && ValidEvent(s, e)
    ensures s.receipts <= Step(s, e).receipts
    ensures forall r :: r in Step(s, e).receipts ==> ReceiptOk(Step(s, e).files, r)
  {
    StepKeepsFiles(s, e);
    assert LocalOk(s, s.isolates[e.isolate]);
    forall r | r in Step(s, e).receipts
      ensures ReceiptOk(Step(s, e).files, r)
    {
      if r in s.receipts {
        assert ReceiptOk(s.files, r) && PublishedOk(s.files, r.ino);
      }
    }
  }

  lemma StepKeepsInv(s: State, e: Event)
    requires Inv(s) && ValidEvent(s, e)
    ensures Inv(Step(s, e))
  {
    var s' := Step(s, e);
    StepKeepsFiles(s, e);
    StepKeepsReceipts(s, e);
    forall j | j in s'.isolates
      ensures LocalOk(s', s'.isolates[j])
    {
      StepKeepsLocal(s, e, j);
    }
    forall i, j | i in s'.isolates && j in s'.isolates && i != j
      ensures Disjoint(s'.isolates[i].pc, s'.isolates[j].pc)
    {
      StepKeepsDisjoint(s, e, i, j);
    }
  }

  lemma {:induction false} RunKeepsInv(s: State, run: seq<Event>)
    requires Inv(s) && ValidRun(s, run)
    ensures Inv(Run(s, run))
    decreases |run|
  {
    if run != [] {
      StepKeepsInv(s, run[0]);
      RunKeepsInv(Step(s, run[0]), run[1..]);
    }
  }

  lemma InitInv(s: State)
    requires Init(s)
    ensures Inv(s)
  {
  }

  // ---------------------------------------------------------------- main results

  /**
   * Agreement.  In every interleaving from an empty directory, any two `writePrivateFile` calls that
   * returned for one path, at whatever time, saw one inode, and that inode still has the name, the
   * final mode and exactly the bytes both of them asked for.
   */
  lemma ReturnsAgree(s: State, run: seq<Event>, a: Receipt, b: Receipt)
    requires Init(s) && ValidRun(s, run)
    requires a in Run(s, run).receipts && b in Run(s, run).receipts && a.req.path == b.req.path
    ensures a.ino == b.ino && a.req == b.req
    ensures var f := Run(s, run).files;
      NamesPublished(f, a.req.path, a.ino) && f.inodes[a.ino].nlink == 1
      && f.inodes[a.ino].mode == a.req.mode && f.inodes[a.ino].bytes == a.req.bytes
  {
    InitInv(s);
    RunKeepsInv(s, run);
    var f := Run(s, run).files;
    assert ReceiptOk(f, a) && ReceiptOk(f, b);
  }

  /** No run, whatever fails in it, removes, renames or rewrites a file once it has its final mode. */
  lemma {:induction false} PublishedForever(s: State, run: seq<Event>)
    requires Inv(s) && ValidRun(s, run)
    ensures PublishedKept(s.files, Run(s, run).files)
    decreases |run|
  {
    forall ino | Published(s.files, ino)
      ensures PublishedOk(s.files, ino)
    {
    }
    if run != [] {
      var s1 := Step(s, run[0]);
      StepKeepsFiles(s, run[0]);
      StepKeepsInv(s, run[0]);
      PublishedForever(s1, run[1..]);
      forall ino | Published(s.files, ino)
        ensures Published(s1.files, ino)
      {
      }
    }
  }

  /** Whatever name an unlink takes away, it named the unpublished file the same isolate had created. */
  lemma UnlinkHitsOwnFile(s: State, e: Event, p: Path)
    requires Inv(s) && ValidEvent(s, e)
    requires p in s.files.names && p !in Step(s, e).files.names
    ensures var me := s.isolates[e.isolate];
      me.pc == Unlinking(s.files.names[p]) && me.req.path == p
      && s.files.inodes[s.files.names[p]].mode == Mode0600 && s.files.inodes[s.files.names[p]].asked == me.req
  {
    assert LocalOk(s, s.isolates[e.isolate]);
  }

  /**
   * Nobody reads half a file: the snapshot an isolate validates is the whole of what the creator
   * asked for, so an isolate that asked for the same is refused only if a call of its own fails.
   */
  lemma SnapshotIsComplete(s: State, i: Isolate, elapsed: real)
    requires Inv(s) && i in s.isolates && s.isolates[i].pc.Validating? && elapsed >= 0.0
    ensures var me := s.isolates[i]; var made := s.files.inodes[me.pc.stat.ino].asked;
      && me.pc.bytes == made.bytes && me.pc.stat.mode == made.mode && made.path == me.req.path
      && (Step(s, Call(i, false, 0, elapsed)).isolates[i].pc.Returned? <==> made == me.req)
  {
    assert LocalOk(s, s.isolates[i]);
    assert PublishedOk(s.files, s.isolates[i].pc.stat.ino);
  }

  /** One call to `writePrivateFile` waits at most 1000 times, however often creation is retried. */
  lemma WaitingIsBounded(s: State, run: seq<Event>, i: Isolate)
    requires Init(s) && ValidRun(s, run) && i in Run(s, run).isolates
    requires !Run(s, run).isolates[i].pc.Idle?
    ensures Run(s, run).isolates[i].polls <= 1000
    ensures Run(s, run).isolates[i].deadline == Run(s, run).isolates[i].start + 5000.0
  {
    InitInv(s);
    RunKeepsInv(s, run);
    assert LocalOk(Run(s, run), Run(s, run).isolates[i]);
  }

  /** A wait that is over. */
  lemma WaitEnds(s: State, i: Isolate, elapsed: real)
    requires i in s.isolates && s.isolates[i].pc.Waiting? && elapsed >= 0.0
    requires s.now + elapsed >= s.isolates[i].pc.until
    ensures var e := Call(i, false, 0, elapsed);
      && ValidEvent(s, e) && i in Step(s, e).isolates && Step(s, e).now == s.now + elapsed
      && Step(s, e).isolates[i].polls == s.isolates[i].polls + 1
      && forall j :: j in s.isolates && j != i ==> j in Step(s, e).isolates && Step(s, e).isolates[j] == s.isolates[j]
  {
  }

  /** Waits overlap: two isolates that began to wait together are both through after one interval. */
  lemma WaitsOverlap(s: State, i: Isolate, j: Isolate)
    requires i in s.isolates && j in s.isolates && i != j
    requires s.isolates[i].pc == s.isolates[j].pc == Waiting(s.now + POLL_INTERVAL)
    ensures var run := [Call(i, false, 0, POLL_INTERVAL), Call(j, false, 0, 0.0)];
      && ValidRun(s, run) && Run(s, run).now == s.now + POLL_INTERVAL
      && i in Run(s, run).isolates && Run(s, run).isolates[i].polls == s.isolates[i].polls + 1
      && j in Run(s, run).isolates && Run(s, run).isolates[j].polls == s.isolates[j].polls + 1
  {
    var first, second := Call(i, false, 0, POLL_INTERVAL), Call(j, false, 0, 0.0);
    WaitEnds(s, i, POLL_INTERVAL);
    var t := Step(s, first);
    WaitEnds(t, j, 0.0);
    var u := Step(t, second);
    hide Step, ValidEvent;
    TraceIsRun([s, t, u], [first, second]);
  }

  // ---------------------------------------------------------------- behind the deadline

  /** The events of the isolate in a run. */
  function CallsOf(run: seq<Event>, i: Isolate): nat {
    if run == [] then 0 else (if run[0].isolate == i then 1 else 0) + CallsOf(run[1..], i)
  }

  /** The next own call of the isolate does not fail and finds the file in progress. */
  ghost predicate MeetsPending(s: State, run: seq<Event>, i: Isolate)
    requires ValidRun(s, run) && i in s.isolates
    decreases |run|
  {
    && run != []
    && if run[0].isolate == i then run[0].Call? && !run[0].fails && Pending(s.files, s.isolates[i].req.path)
       else MeetsPending(Step(s, run[0]), run[1..], i)
  }

  /** The isolate goes through one more wait: the one it is in, or one it has already been let into. */
  ghost predicate OneMoreWait(s: State, run: seq<Event>, i: Isolate)
    requires ValidRun(s, run) && i in s.isolates
  {
    || (s.isolates[i].pc.Waiting? && CallsOf(run, i) >= 1)
    || (s.isolates[i].pc.Inspecting? && MeetsPending(s, run, i) && CallsOf(run, i) >= 2)
  }

  /** Behind the deadline only an lstat that was already due leads into a wait. */
  lemma LateStep(s: State, e: Event, i: Isolate)
    requires ValidEvent(s, e) && i in s.isolates && s.now >= s.isolates[i].deadline
    requires e.isolate == i ==> e.Call?
    ensures var s' := Step(s, e); i in s'.isolates && s'.now >= s'.isolates[i].deadline
    ensures var me, me' := s.isolates[i], Step(s, e).isolates[i];
      && (e.isolate != i ==> me' == me)
      && (e.isolate == i ==>
            && me'.req == me.req && !me'.pc.Inspecting?
            && me'.polls == (if me.pc.Waiting? then me.polls + 1 else me.polls)
            && (me'.pc.Waiting? <==> me.pc.Inspecting? && !e.fails && Pending(s.files, me.req.path)))
  {
    hide Apply, NextOp;
  }

  /**
   * Behind its deadline a call of `writePrivateFile` goes through no further wait, however often it creates
   * and awaits again, but for exactly one case: it is waiting already, or the deadline passed between its
   * check and its lstat and that lstat finds the file in progress.
   */
  lemma {:induction false} DeadlineStopsWaiting(s: State, run: seq<Event>, i: Isolate)
    requires ValidRun(s, run) && i in s.isolates && s.now >= s.isolates[i].deadline
    requires forall k :: 0 <= k < |run| && run[k].isolate == i ==> run[k].Call?
    ensures i in Run(s, run).isolates
    ensures Run(s, run).isolates[i].polls == s.isolates[i].polls + if OneMoreWait(s, run, i) then 1 else 0
    decreases |run|
  {
    hide Step, Pending;
    if run != [] {
      LateStep(s, run[0], i);
      assert forall k :: 0 <= k < |run[1..]| ==> run[1..][k] == run[k + 1];
      DeadlineStopsWaiting(Step(s, run[0]), run[1..], i);
    }
  }

  /** The states one run passes through. */
  ghost predicate Trace(states: seq<State>, run: seq<Event>) {
    && |states| == |run| + 1
    && forall k :: 0 <= k < |run| ==> ValidEvent(states[k], run[k]) && states[k + 1] == Step(states[k], run[k])
  }

  lemma {:induction false} TraceIsRun(states: seq<State>, run: seq<Event>)
    requires Trace(states, run)
    ensures ValidRun(states[0], run) && Run(states[0], run) == states[|run|]
    decreases |run|
  {
    if run != [] {
      forall k | 0 <= k < |run[1..]|
        ensures ValidEvent(states[1..][k], run[1..][k]) && states[1..][k + 1] == Step(states[1..][k], run[1..][k])
      {
        assert ValidEvent(states[k + 1], run[k + 1]);
      }
      TraceIsRun(states[1..], run[1..]);
    }
  }

  /** Isolate 0 creates the file. */
  lemma TraceCreates(req: Request) returns (s0: State, s1: State, s2: State)
    ensures Init(s0) && ValidEvent(s0, Begin(0, req)) && s1 == Step(s0, Begin(0, req))
    ensures ValidEvent(s1, Call(0, false, 0, 0.0)) && s2 == Step(s1, Call(0, false, 0, 0.0))
    ensures Pending(s2.files, req.path) && s2.now == 0.0
    ensures 1 in s2.isolates && s2.isolates[1] == Local(Idle, req, 0.0, 0.0, 0)
  {
    hide NextCreatorPc;
    var idle := Local(Idle, req, 0.0, 0.0, 0);
    s0 := State(0.0, Files(0, map[], map[]), map[0 := idle, 1 := idle], {});
    s1 := Step(s0, Begin(0, req));
    s2 := Step(s1, Call(0, false, 0, 0.0));
  }

  /** Isolate 1 finds it in progress and is about to lstat it. */
  lemma TraceWaits(req: Request, s2: State) returns (s3: State, s4: State, s5: State)
    requires Pending(s2.files, req.path) && s2.now == 0.0
    requires 1 in s2.isolates && s2.isolates[1] == Local(Idle, req, 0.0, 0.0, 0)
    ensures ValidEvent(s2, Begin(1, req)) && s3 == Step(s2, Begin(1, req))
    ensures ValidEvent(s3, Call(1, false, 0, 0.0)) && s4 == Step(s3, Call(1, false, 0, 0.0))
    ensures ValidEvent(s4, Call(1, false, 0, 0.0)) && s5 == Step(s4, Call(1, false, 0, 0.0))
    ensures s5.now == 0.0 && Pending(s5.files, req.path)
    ensures 1 in s5.isolates && s5.isolates[1] == Local(Inspecting, req, 0.0, PUBLICATION_TIMEOUT, 0)
  {
    hide NextCreatorPc;
    s3 := Step(s2, Begin(1, req));
    assert s3.isolates[1] == Local(Opening, req, 0.0, PUBLICATION_TIMEOUT, 0) && s3.files == s2.files;
    s4 := Step(s3, Call(1, false, 0, 0.0));
    assert s4.isolates[1] == Local(Checking, req, 0.0, PUBLICATION_TIMEOUT, 0) && s4.files == s2.files;
    s5 := Step(s4, Call(1, false, 0, 0.0));
  }

  lemma LateTrace(req: Request) returns (states: seq<State>, run: seq<Event>)
    ensures Trace(states, run) && Init(states[0])
    ensures states[|run|].now == 0.0 && Pending(states[|run|].files, req.path)
    ensures 1 in states[|run|].isolates
    ensures states[|run|].isolates[1] == Local(Inspecting, req, 0.0, PUBLICATION_TIMEOUT, 0)
  {
    hide Step, Init, Pending;
    var s0, s1, s2 := TraceCreates(req);
    var s3, s4, s5 := TraceWaits(req, s2);
    run := [Begin(0, req), Call(0, false, 0, 0.0), Begin(1, req), Call(1, false, 0, 0.0), Call(1, false, 0, 0.0)];
    states := [s0, s1, s2, s3, s4, s5];
  }

  /** An lstat that finds the file in progress leads into a wait, however late it is by then. */
  lemma InspectionWaits(f: Files, me: Local, now: real)
    requires me.pc.Inspecting? && Pending(f, me.req.path)
    ensures NextLocal(f, me, now, false, 0) == me.(pc := Waiting(now + POLL_INTERVAL))
  {
  }

  /**
   * The clock is read before lstat, so a wait may begin after the deadline: here 5000 ms go by during
   * lstat.  Such a wait is the last one, because the next check throws.
   */
  lemma OneWaitMayBeginLate(req: Request) returns (s: State, run: seq<Event>)
    ensures Init(s) && ValidRun(s, run)
    ensures var t := Run(s, run);
      1 in t.isolates && t.isolates[1].pc.Waiting? && t.now >= t.isolates[1].deadline
  {
    var states, early := LateTrace(req);
    var last := states[|early|];
    InspectionWaits(last.files, last.isolates[1], PUBLICATION_TIMEOUT);
    var slow := Call(1, false, 0, PUBLICATION_TIMEOUT);
    assert Step(last, slow).isolates[1].pc.Waiting? by {
      hide Apply, Pending, Init, NextLocal;
    }
    hide Apply, Pending, Init, NextLocal;
    run := early + [slow];
    s := states[0];
    TraceIsRun(states + [Step(last, slow)], run);
  }
}
