/**
 * How the isolates of one process agree on one private directory (npm/core/index.js,
 * `privateTempDirectory`, `readRendezvous`, `publishRendezvous`, `validateTempDirectory`) as a step
 * machine: one step is one system call of one isolate, and any call may fail without effect and with
 * any error code.  An isolate that stops is one that no later event mentions.
 */
module Rendezvous {
  import opened Bytes

  type Isolate = nat

  // ---------------------------------------------------------------- the file system

  /** `home` is the directory the file was created in; no step reads it. */
  datatype Inode = Inode(readOnly: bool, bytes: string, home: string)

  /**
   * The rendezvous root: directories by name, the `.publish` file of a directory, the marker.
   * `prefix` is the process's `directoryPrefix`; `used` holds every directory name that exists, existed or
   * is recorded in a marker.
   */
  datatype Fs = Fs(
    prefix: string,
    nextIno: nat,
    files: map<nat, Inode>,
    dirs: map<string, nat>,
    pubs: map<string, nat>,
    marker: Option<nat>,
    used: set<string>)

  datatype FsOp =
    | Keep
    | MakeDir(dir: string)                    // mkdtemp
    | RemoveDir(dir: string)                  // rmdir
    | CreatePub(dir: string)                  // open(2) of .publish with O_EXCL
    | Append(fd: nat, chunk: string)          // write(2)
    | Restrict(fd: nat)                       // fchmod(2) to 0400
    | Link(dir: string)                       // link(2) of .publish to the marker
    | RemovePub(dir: string)                  // unlink(2) of .publish

  predicate OpDefined(f: Fs, op: FsOp) {
    match op
    case Keep => true
    case MakeDir(dir) => dir !in f.dirs
    case RemoveDir(dir) => dir in f.dirs && dir !in f.pubs
    case CreatePub(dir) => dir in f.dirs && dir !in f.pubs
    case Append(fd, _) => fd in f.files
    case Restrict(fd) => fd in f.files
    case Link(dir) => dir in f.pubs && f.marker.None?
    case RemovePub(dir) => dir in f.pubs
  }

  function Apply(f: Fs, op: FsOp): Fs {
    if !OpDefined(f, op) then f
    else match op
      case Keep => f
      case MakeDir(dir) => f.(nextIno := f.nextIno + 1, dirs := f.dirs[dir := f.nextIno], used := f.used + {dir})
      case RemoveDir(dir) => f.(dirs := f.dirs - {dir})
      case CreatePub(dir) =>
        f.(nextIno := f.nextIno + 1, files := f.files[f.nextIno := Inode(false, "", dir)],
           pubs := f.pubs[dir := f.nextIno])
      case Append(fd, chunk) => f.(files := f.files[fd := f.files[fd].(bytes := f.files[fd].bytes + chunk)])
      case Restrict(fd) => f.(files := f.files[fd := f.files[fd].(readOnly := true)])
      case Link(dir) => f.(marker := Some(f.pubs[dir]))
      case RemovePub(dir) => f.(pubs := f.pubs - {dir})
  }

  // ---------------------------------------------------------------- the isolates

  datatype Code = EEXIST | ENOENT | OTHER

  /** Where `readRendezvous` was called from; Check is `validateTempDirectory`. */
  datatype Why = First | AfterLink | AfterExist | Check

  /** The module-level `tempDirectory`. */
  datatype Temp = Temp(name: string, dirIno: nat, markerIno: nat)

  datatype Pc =
    | Idle
    | Rooting                                          // rendezvousRoot
    | Opening(why: Why)                                // openSync of the marker
    | Statting(why: Why, fd: nat)                      // fstatSync
    | Reading(why: Why, fd: nat, readOnly: bool)       // readFileSync
    | Looking(why: Why, fd: nat, name: string)         // assertPrivateDirectory of the named directory
    | Making                                           // mkdtempSync
    | Securing(cand: string)                           // chmodSync
    | Asserting(cand: string)                          // assertPrivateDirectory of the candidate
    | Publishing(cand: string)                         // openSync of .publish
    | Writing(cand: string, fd: nat, pos: nat)         // writeFileSync
    | Restricting(cand: string, fd: nat)               // fchmodSync
    | Syncing(cand: string, fd: nat)                   // fsyncSync
    | Closing(cand: string, fd: nat)                   // closeSync
    | Linking(cand: string, fd: nat)                   // linkSync
    | Unpublishing(cand: string)                       // unlinkSync once published
    | CatchClosing(cand: string, exist: bool)          // the catch block: closeSync
    | CatchUnlinking(cand: string, exist: bool)        // unlinkSync
    | CatchRemoving(cand: string, exist: bool)         // rmdirSync
    | Returned
    | Threw

  datatype Local = Local(pc: Pc, temp: Option<Temp>)

  /** The shape `readRendezvous` demands: no slash, the process prefix, six alphanumeric characters. */
  predicate Alphanumeric(c: char) {
    'A' <= c <= 'Z' || 'a' <= c <= 'z' || '0' <= c <= '9'
  }

  predicate WellFormed(f: Fs, name: string) {
    f.prefix <= name && |name| == |f.prefix| + 6 && forall k :: |f.prefix| <= k < |name| ==> Alphanumeric(name[k])
  }

  /** `readRendezvous` threw with a cause of this code: only the first reading goes on to publish. */
  function AfterReadError(why: Why, code: Code): Pc {
    if why.First? && code.ENOENT? then Making else Threw
  }

  /** The marker checks of `readRendezvous`, or of `validateTempDirectory` for a remembered directory. */
  predicate MarkerAccepted(f: Fs, why: Why, fd: nat, readOnly: bool, bytes: string, temp: Option<Temp>) {
    && readOnly
    && if why.Check? then temp.Some? && fd == temp.value.markerIno && bytes == temp.value.name
       else WellFormed(f, bytes)
  }

  function NextOp(f: Fs, me: Local, fails: Option<Code>, accepted: nat, unique: string): FsOp {
    if fails.Some? then Keep
    else match me.pc
      case Making => MakeDir(unique)
      case Publishing(cand) => CreatePub(cand)
      case Writing(cand, fd, pos) =>
        if pos > |cand| then Keep else Append(fd, cand[pos..pos + Min(accepted + 1, |cand| - pos)])
      case Restricting(_, fd) => Restrict(fd)
      case Linking(cand, _) => Link(cand)
      case Unpublishing(cand) => RemovePub(cand)
      case CatchUnlinking(cand, _) => RemovePub(cand)
      case CatchRemoving(cand, _) => RemoveDir(cand)
      case _ => Keep
  }

  /** The control flow of `readRendezvous` and `validateTempDirectory`. */
  function NextReader(f: Fs, me: Local, fails: Option<Code>): Local
    requires Reads(me.pc)
  {
    match me.pc
    case Opening(why) =>
      if fails.Some? then me.(pc := AfterReadError(why, fails.value))
      else if f.marker.None? then me.(pc := AfterReadError(why, ENOENT))
      else me.(pc := Statting(why, f.marker.value))
    case Statting(why, fd) =>
      if fails.Some? then me.(pc := AfterReadError(why, fails.value))
      else if fd !in f.files then me.(pc := Threw)
      else me.(pc := Reading(why, fd, f.files[fd].readOnly))
    case Reading(why, fd, readOnly) =>
      if fails.Some? then me.(pc := AfterReadError(why, fails.value))
      else if fd !in f.files || !MarkerAccepted(f, why, fd, readOnly, f.files[fd].bytes, me.temp)
      then me.(pc := Threw)
      else me.(pc := Looking(why, fd, f.files[fd].bytes))
    case Looking(why, fd, name) =>
      if fails.Some? then me.(pc := AfterReadError(why, fails.value))
      else if name !in f.dirs then me.(pc := AfterReadError(why, ENOENT))
      else if why.Check? then
        me.(pc := if me.temp.Some? && f.dirs[name] == me.temp.value.dirIno then Returned else Threw)
      else Local(Opening(Check), Some(Temp(name, f.dirs[name], fd)))
  }

  /** The control flow of `publishRendezvous`. */
  function NextPublisher(f: Fs, pc: Pc, fails: Option<Code>, accepted: nat, unique: string): Pc
    requires !Reads(pc)
  {
    var exist := fails == Some(EEXIST);
    match pc
    case Rooting => if fails.Some? then Threw else Opening(First)
    case Making => if fails.Some? then (if exist then Opening(AfterExist) else Threw) else Securing(unique)
    case Securing(cand) => if fails.Some? then CatchRemoving(cand, exist) else Asserting(cand)
    case Asserting(cand) => if fails.Some? then CatchRemoving(cand, false) else Publishing(cand)
    case Publishing(cand) =>
      if fails.Some? then CatchUnlinking(cand, exist)
      else if !OpDefined(f, CreatePub(cand)) then CatchUnlinking(cand, true)
      else Writing(cand, f.nextIno, 0)
    case Writing(cand, fd, pos) =>
      if fails.Some? || pos > |cand| then CatchClosing(cand, exist)
      else
        var end := pos + Min(accepted + 1, |cand| - pos);
        if end == |cand| then Restricting(cand, fd) else Writing(cand, fd, end)
    case Restricting(cand, fd) => if fails.Some? then CatchClosing(cand, exist) else Syncing(cand, fd)
    case Syncing(cand, fd) => if fails.Some? then CatchClosing(cand, exist) else Closing(cand, fd)
    case Closing(cand, fd) => if fails.Some? then CatchClosing(cand, exist) else Linking(cand, fd)
    case Linking(cand, fd) =>
      if fails.Some? then CatchUnlinking(cand, exist)
      else if f.marker.Some? then CatchUnlinking(cand, true)
      else Unpublishing(cand)
    case Unpublishing(_) => Opening(AfterLink)
    case CatchClosing(cand, e) => CatchUnlinking(cand, e)
    case CatchUnlinking(cand, e) => CatchRemoving(cand, e)
    case CatchRemoving(_, e) => if e then Opening(AfterExist) else Threw
    case _ => pc
  }

  predicate Reads(pc: Pc) {
    pc.Opening? || pc.Statting? || pc.Reading? || pc.Looking?
  }

  function NextLocal(f: Fs, me: Local, fails: Option<Code>, accepted: nat, unique: string): Local {
    if Reads(me.pc) then NextReader(f, me, fails)
    else me.(pc := NextPublisher(f, me.pc, fails, accepted, unique))
  }

  // ---------------------------------------------------------------- the machine

  /** `links` counts the link(2) calls that succeeded, `handedOut` the directories handed out so far. */
  datatype State = State(fs: Fs, isolates: map<Isolate, Local>, links: nat, handedOut: set<Temp>)

  datatype Event =
    | Begin(isolate: Isolate)
    | Call(isolate: Isolate, fails: Option<Code>, accepted: nat, unique: string)

  /** mkdtemp makes well-formed names and never makes one twice. */
  predicate ValidEvent(s: State, e: Event) {
    && e.isolate in s.isolates
    && (e.Call? ==> WellFormed(s.fs, e.unique) && e.unique !in s.fs.used)
  }

  predicate AtRest(pc: Pc) {
    pc.Idle? || pc.Returned? || pc.Threw?
  }

  function Step(s: State, e: Event): State
    requires ValidEvent(s, e)
  {
    var me := s.isolates[e.isolate];
    match e
    case Begin(i) =>
      if !AtRest(me.pc) then s
      else s.(isolates := s.isolates[i := me.(pc := if me.temp.Some? then Opening(Check) else Rooting)])
    case Call(i, fails, accepted, unique) =>
      var op := NextOp(s.fs, me, fails, accepted, unique);
      var me' := NextLocal(s.fs, me, fails, accepted, unique);
      State(Apply(s.fs, op), s.isolates[i := me'],
            if op.Link? && OpDefined(s.fs, op) then s.links + 1 else s.links,
            if me.pc.Looking? && me'.pc.Returned? && me.temp.Some? then s.handedOut + {me.temp.value} else s.handedOut)
  }

  ghost predicate ValidRun(s: State, run: seq<Event>)
    decreases |run|
  {
    run != [] ==> ValidEvent(s, run[0]) && ValidRun(Step(s, run[0]), run[1..])
  }

  ghost function Run(s: State, run: seq<Event>): State
    requires ValidRun(s, run)
    decreases |run|
  {
    if run == [] then s else Run(Step(s, run[0]), run[1..])
  }

  /** No isolate has started; the root may already hold directories and a marker of an earlier process. */
  ghost predicate Init(s: State) {
    && FsOk(s.fs) && s.links == 0 && s.handedOut == {}
    && forall i :: i in s.isolates ==> s.isolates[i] == Local(Idle, None)
  }

  // ---------------------------------------------------------------- the invariant

  predicate Marked(f: Fs) {
    f.marker.Some? && f.marker.value in f.files
  }

  /** The directory name the marker holds. */
  function MarkedName(f: Fs): string
    requires Marked(f)
  {
    f.files[f.marker.value].bytes
  }

  ghost predicate FsOk(f: Fs) {
    && (f.marker.Some? ==> Marked(f) && MarkedName(f) in f.used)
    && (forall ino :: ino in f.files ==> ino < f.nextIno)
    && f.dirs.Keys <= f.used
    && (forall d :: d in f.pubs ==> f.pubs[d] in f.files && f.files[f.pubs[d]].home == d && d in f.dirs)
  }

  /** The isolate has a candidate directory that it has not published. */
  predicate HasCandidate(pc: Pc) {
    pc.Securing? || pc.Asserting? || pc.Publishing? || HasFile(pc)
    || pc.CatchClosing? || pc.CatchUnlinking? || pc.CatchRemoving?
  }

  predicate HasFile(pc: Pc) {
    pc.Writing? || pc.Restricting? || pc.Syncing? || pc.Closing? || pc.Linking?
  }

  predicate HasName(pc: Pc) {
    HasCandidate(pc) || pc.Unpublishing?
  }

  ghost predicate OwnerOk(f: Fs, pc: Pc) {
    && (HasName(pc) ==> pc.cand in f.used && WellFormed(f, pc.cand))
    && (HasCandidate(pc) ==> f.marker.Some? ==> Marked(f) && MarkedName(f) != pc.cand)
    && (HasCandidate(pc) && !pc.CatchRemoving? ==> pc.cand in f.dirs)
    && (pc.Securing? || pc.Asserting? || pc.Publishing? ==> pc.cand !in f.pubs)
    && (HasFile(pc) ==>
          && pc.cand in f.pubs && f.pubs[pc.cand] == pc.fd && pc.fd in f.files && f.marker != Some(pc.fd)
          && FileOk(f.files[pc.fd], pc))
  }

  ghost predicate FileOk(file: Inode, pc: Pc)
    requires HasFile(pc)
  {
    && (pc.Writing? ==> pc.pos <= |pc.cand| && file.bytes == pc.cand[..pc.pos])
    && (!pc.Writing? ==> file.bytes == pc.cand)
    && (!pc.Writing? && !pc.Restricting? ==> file.readOnly)
  }

  ghost predicate TempOk(f: Fs, t: Temp) {
    && f.marker == Some(t.markerIno) && Marked(f) && MarkedName(f) == t.name && f.files[t.markerIno].readOnly
    && WellFormed(f, t.name) && t.name in f.dirs && f.dirs[t.name] == t.dirIno
  }

  ghost predicate ReaderOk(f: Fs, me: Local) {
    && (me.temp.Some? ==> TempOk(f, me.temp.value))
    && (me.pc.Statting? || me.pc.Reading? || me.pc.Looking? ==> Marked(f) && f.marker == Some(me.pc.fd))
    && (me.pc.Reading? ==> me.pc.readOnly == f.files[me.pc.fd].readOnly)
    && (me.pc.Looking? ==> me.pc.name == f.files[me.pc.fd].bytes && f.files[me.pc.fd].readOnly)
    && (me.pc.Looking? && !me.pc.why.Check? ==> WellFormed(f, me.pc.name))
  }

  /** Once a link has succeeded the marker is whole, read-only, and names a directory that exists. */
  ghost predicate LinksOk(s: State) {
    && s.links <= 1
    && (s.links == 1 ==>
          Marked(s.fs) && MarkerWhole(s.fs) && MarkedName(s.fs) in s.fs.dirs)
  }

  ghost predicate MarkerWhole(f: Fs)
    requires Marked(f)
  {
    f.files[f.marker.value].readOnly && MarkedName(f) == f.files[f.marker.value].home
  }

  predicate Distinct(a: Pc, b: Pc) {
    HasName(a) && HasName(b) ==> a.cand != b.cand
  }

  ghost predicate Inv(s: State) {
    && FsOk(s.fs) && LinksOk(s)
    && (forall i :: i in s.isolates ==> OwnerOk(s.fs, s.isolates[i].pc) && ReaderOk(s.fs, s.isolates[i]))
    && (forall i, j :: i in s.isolates && j in s.isolates && i != j ==> Distinct(s.isolates[i].pc, s.isolates[j].pc))
    && (forall t :: t in s.handedOut ==> TempOk(s.fs, t))
  }

  // ---------------------------------------------------------------- one file operation

  /** The operations the protocol performs: they spare the marker and the directory it names. */
  ghost predicate Spares(f: Fs, op: FsOp) {
    match op
    case Keep => true
    case MakeDir(dir) => dir !in f.used
    case RemoveDir(dir) => f.marker.Some? ==> Marked(f) && MarkedName(f) != dir
    case CreatePub(dir) => true
    case Append(fd, _) => f.marker != Some(fd)
    case Restrict(fd) => f.marker != Some(fd)
    case Link(dir) => dir in f.pubs && f.pubs[dir] in f.files && f.files[f.pubs[dir]].bytes == dir && dir in f.used
    case RemovePub(dir) => true
  }

  /** The marker stays what it is, and the directory it names stays, or stays missing. */
  ghost predicate MarkerKept(f: Fs, f': Fs) {
    Marked(f) ==>
      && Marked(f') && f'.marker == f.marker && f'.files[f.marker.value] == f.files[f.marker.value]
      && (MarkedName(f) in f.dirs ==> MarkedName(f) in f'.dirs && f'.dirs[MarkedName(f)] == f.dirs[MarkedName(f)])
      && (MarkedName(f) !in f.dirs ==> MarkedName(f) !in f'.dirs)
  }

  lemma ApplyKeepsMarker(f: Fs, op: FsOp)
    requires FsOk(f) && Spares(f, op)
    ensures FsOk(Apply(f, op)) && MarkerKept(f, Apply(f, op)) && f.used <= Apply(f, op).used
  {
  }

  lemma NextOpSpares(s: State, i: Isolate, fails: Option<Code>, accepted: nat, unique: string)
    requires Inv(s) && i in s.isolates && unique !in s.fs.used
    ensures Spares(s.fs, NextOp(s.fs, s.isolates[i], fails, accepted, unique))
  {
    assert OwnerOk(s.fs, s.isolates[i].pc);
  }

  lemma TempStable(f: Fs, op: FsOp, t: Temp)
    requires FsOk(f) && Spares(f, op) && TempOk(f, t)
    ensures TempOk(Apply(f, op), t)
  {
    ApplyKeepsMarker(f, op);
  }

  // ---------------------------------------------------------------- the stepping isolate

  lemma ReaderStep(f: Fs, me: Local, fails: Option<Code>)
    requires FsOk(f) && ReaderOk(f, me) && Reads(me.pc)
    ensures OwnerOk(f, NextReader(f, me, fails).pc) && ReaderOk(f, NextReader(f, me, fails))
  {
  }

  lemma PublisherStep(f: Fs, pc: Pc, fails: Option<Code>, accepted: nat, unique: string)
    requires FsOk(f) && OwnerOk(f, pc) && !Reads(pc) && WellFormed(f, unique) && unique !in f.used
    ensures OwnerOk(Apply(f, NextOp(f, Local(pc, None), fails, accepted, unique)),
                    NextPublisher(f, pc, fails, accepted, unique))
  {
    if HasFile(pc) {
      FileStep(f, pc, fails, accepted, unique);
    } else {
      hide FileOk;
    }
  }

  lemma FileStep(f: Fs, pc: Pc, fails: Option<Code>, accepted: nat, unique: string)
    requires FsOk(f) && OwnerOk(f, pc) && HasFile(pc) && WellFormed(f, unique) && unique !in f.used
    ensures OwnerOk(Apply(f, NextOp(f, Local(pc, None), fails, accepted, unique)),
                    NextPublisher(f, pc, fails, accepted, unique))
  {
    if pc.Writing? && fails.None? {
      var end := pc.pos + Min(accepted + 1, |pc.cand| - pc.pos);
      assert pc.cand[..pc.pos] + pc.cand[pc.pos..end] == pc.cand[..end];
      assert end == |pc.cand| ==> pc.cand[..end] == pc.cand;
    }
  }

  // ---------------------------------------------------------------- the other isolates

  /** No operation concerns the candidate, or the publication file, of another isolate. */
  predicate LeavesAlone(op: FsOp, pc: Pc) {
    HasName(pc) ==>
      match op
      case Keep => true
      case MakeDir(dir) => dir != pc.cand
      case RemoveDir(dir) => dir != pc.cand
      case CreatePub(dir) => dir != pc.cand
      case Append(fd, _) => HasFile(pc) ==> fd != pc.fd
      case Restrict(fd) => HasFile(pc) ==> fd != pc.fd
      case Link(dir) => dir != pc.cand
      case RemovePub(dir) => dir != pc.cand
  }

  lemma OtherStep(f: Fs, op: FsOp, me: Local)
    requires FsOk(f) && Spares(f, op) && LeavesAlone(op, me.pc)
    requires OwnerOk(f, me.pc) && ReaderOk(f, me)
    ensures OwnerOk(Apply(f, op), me.pc) && ReaderOk(Apply(f, op), me)
  {
    ApplyKeepsMarker(f, op);
    if HasFile(me.pc) && op.Link? {
      assert f.files[f.pubs[op.dir]].home == op.dir;
    }
  }

  lemma NextOpLeavesAlone(
    s: State, i: Isolate, j: Isolate, fails: Option<Code>, accepted: nat, unique: string)
    requires Inv(s) && i in s.isolates && j in s.isolates && i != j && unique !in s.fs.used
    ensures LeavesAlone(NextOp(s.fs, s.isolates[i], fails, accepted, unique), s.isolates[j].pc)
  {
    assert OwnerOk(s.fs, s.isolates[i].pc) && OwnerOk(s.fs, s.isolates[j].pc);
    assert Distinct(s.isolates[i].pc, s.isolates[j].pc);
  }

  // ---------------------------------------------------------------- every step, every run

  lemma SelfStep(f: Fs, me: Local, fails: Option<Code>, accepted: nat, unique: string)
    requires FsOk(f) && OwnerOk(f, me.pc) && ReaderOk(f, me) && WellFormed(f, unique) && unique !in f.used
    requires Spares(f, NextOp(f, me, fails, accepted, unique))
    ensures var f' := Apply(f, NextOp(f, me, fails, accepted, unique));
      var me' := NextLocal(f, me, fails, accepted, unique);
      OwnerOk(f', me'.pc) && ReaderOk(f', me')
  {
    hide FsOk, FileOk, TempOk, Spares, WellFormed, NextReader;
    if Reads(me.pc) {
      ReaderStep(f, me, fails);
    } else {
      PublisherStep(f, me.pc, fails, accepted, unique);
      assert NextOp(f, Local(me.pc, None), fails, accepted, unique) == NextOp(f, me, fails, accepted, unique);
      if me.temp.Some? {
        TempStable(f, NextOp(f, me, fails, accepted, unique), me.temp.value);
      }
    }
  }

  lemma StepKeepsLocal(s: State, e: Event, j: Isolate)
    requires Inv(s) && ValidEvent(s, e) && j in s.isolates
    ensures j in Step(s, e).isolates
    ensures OwnerOk(Step(s, e).fs, Step(s, e).isolates[j].pc) && ReaderOk(Step(s, e).fs, Step(s, e).isolates[j])
  {
    var me := s.isolates[e.isolate];
    assert OwnerOk(s.fs, s.isolates[j].pc) && ReaderOk(s.fs, s.isolates[j]);
    if e.Call? {
      NextOpSpares(s, e.isolate, e.fails, e.accepted, e.unique);
      if j == e.isolate {
        SelfStep(s.fs, me, e.fails, e.accepted, e.unique);
      } else {
        NextOpLeavesAlone(s, e.isolate, j, e.fails, e.accepted, e.unique);
        OtherStep(s.fs, NextOp(s.fs, me, e.fails, e.accepted, e.unique), s.isolates[j]);
      }
    }
  }

  /** Candidate names come from mkdtemp alone. */
  lemma NamesComeFromMkdtemp(f: Fs, me: Local, fails: Option<Code>, accepted: nat, unique: string)
    ensures var pc' := NextLocal(f, me, fails, accepted, unique).pc;
      HasName(pc') ==> pc'.cand == unique || (HasName(me.pc) && pc'.cand == me.pc.cand)
  {
  }

  lemma StepKeepsDistinct(s: State, e: Event, i: Isolate, j: Isolate)
    requires Inv(s) && ValidEvent(s, e) && i in s.isolates && j in s.isolates && i != j
    ensures Distinct(Step(s, e).isolates[i].pc, Step(s, e).isolates[j].pc)
  {
    hide FsOk, LinksOk, ReaderOk, Apply, NextOp, NextLocal, FileOk, TempOk;
    assert Distinct(s.isolates[i].pc, s.isolates[j].pc);
    assert OwnerOk(s.fs, s.isolates[i].pc) && OwnerOk(s.fs, s.isolates[j].pc);
    if e.Call? {
      NamesComeFromMkdtemp(s.fs, s.isolates[e.isolate], e.fails, e.accepted, e.unique);
    }
  }

  /** One step keeps the marker, its directory and everything handed out, and links at most once. */
  lemma StepKeepsFs(s: State, e: Event)
    requires Inv(s) && ValidEvent(s, e)
    ensures FsOk(Step(s, e).fs) && MarkerKept(s.fs, Step(s, e).fs) && LinksOk(Step(s, e))
    ensures s.links <= Step(s, e).links
    ensures s.handedOut <= Step(s, e).handedOut
    ensures forall t :: t in Step(s, e).handedOut ==> TempOk(Step(s, e).fs, t)
  {
    var me := s.isolates[e.isolate];
    assert OwnerOk(s.fs, me.pc) && ReaderOk(s.fs, me);
    if e.Call? {
      var op := NextOp(s.fs, me, e.fails, e.accepted, e.unique);
      NextOpSpares(s, e.isolate, e.fails, e.accepted, e.unique);
      ApplyKeepsMarker(s.fs, op);
      forall t | t in Step(s, e).handedOut
        ensures TempOk(Step(s, e).fs, t)
      {
        TempStable(s.fs, op, t);
      }
    }
  }

  lemma StepKeepsInv(s: State, e: Event)
    requires Inv(s) && ValidEvent(s, e)
    ensures Inv(Step(s, e))
  {
    var s' := Step(s, e);
    StepKeepsFs(s, e);
    forall j | j in s'.isolates
      ensures OwnerOk(s'.fs, s'.isolates[j].pc) && ReaderOk(s'.fs, s'.isolates[j])
    {
      StepKeepsLocal(s, e, j);
    }
    forall i, j | i in s'.isolates && j in s'.isolates && i != j
      ensures Distinct(s'.isolates[i].pc, s'.isolates[j].pc)
    {
      StepKeepsDistinct(s, e, i, j);
    }
  }

  lemma {:induction false} RunKeepsInv(s: State, run: seq<Event>)
    requires Inv(s) && ValidRun(s, run)
    ensures Inv(Run(s, run)) && s.handedOut <= Run(s, run).handedOut
    decreases |run|
  {
    if run != [] {
      StepKeepsInv(s, run[0]);
      StepKeepsFs(s, run[0]);
      RunKeepsInv(Step(s, run[0]), run[1..]);
    }
  }

  // ---------------------------------------------------------------- main results

  /**
   * Agreement.  In every interleaving, whatever fails and whoever stops, all isolates that ever
   * return from `privateTempDirectory` hold the directory the one marker names, and that directory
   * still exists.
   */
  lemma ReturnsAgree(s: State, run: seq<Event>, a: Temp, b: Temp)
    requires Init(s) && ValidRun(s, run) && a in Run(s, run).handedOut && b in Run(s, run).handedOut
    ensures a == b
    ensures var f := Run(s, run).fs;
      Marked(f) && MarkedName(f) == a.name && a.name in f.dirs && f.dirs[a.name] == a.dirIno
  {
    RunKeepsInv(s, run);
    assert TempOk(Run(s, run).fs, a) && TempOk(Run(s, run).fs, b);
  }

  /** At most one link(2) succeeds in a run, none when a marker was there already. */
  lemma OneLink(s: State, run: seq<Event>)
    requires Init(s) && ValidRun(s, run)
    ensures Run(s, run).links <= 1
    ensures s.fs.marker.Some? ==> Run(s, run).links == 0
    ensures Run(s, run).links == 1 ==> Marked(Run(s, run).fs) && MarkerWhole(Run(s, run).fs)
  {
    RunKeepsInv(s, run);
    if s.fs.marker.Some? {
      MarkerForever(s, run);
    }
  }

  /**
   * From the moment the marker is visible it never changes, no second link succeeds, and the
   * directory it names neither goes away nor comes into being.
   */
  lemma {:induction false} MarkerForever(s: State, run: seq<Event>)
    requires Inv(s) && ValidRun(s, run) && s.fs.marker.Some?
    ensures MarkerKept(s.fs, Run(s, run).fs) && Run(s, run).links == s.links
    decreases |run|
  {
    if run != [] {
      StepKeepsInv(s, run[0]);
      StepKeepsFs(s, run[0]);
      MarkerForever(Step(s, run[0]), run[1..]);
    }
  }

  /** The link that publishes makes a marker that is already whole, names its directory and is read-only. */
  lemma LinkPublishesWholeMarker(s: State, e: Event)
    requires Inv(s) && ValidEvent(s, e) && s.fs.marker.None? && Step(s, e).fs.marker.Some?
    ensures Step(s, e).links == 1 && Marked(Step(s, e).fs) && MarkerWhole(Step(s, e).fs)
    ensures MarkedName(Step(s, e).fs) in Step(s, e).fs.dirs
    ensures s.isolates[e.isolate].pc.Linking? && MarkedName(Step(s, e).fs) == s.isolates[e.isolate].pc.cand
  {
    StepKeepsInv(s, e);
    assert OwnerOk(s.fs, s.isolates[e.isolate].pc);
  }

  /**
   * A directory that goes away was the unpublished candidate of the isolate that removed it: not the
   * marked directory, not the candidate of anyone else, not one that was handed out.
   */
  lemma LosersRemoveOwnCandidate(s: State, e: Event, dir: string)
    requires Inv(s) && ValidEvent(s, e) && dir in s.fs.dirs && dir !in Step(s, e).fs.dirs
    ensures s.isolates[e.isolate].pc.CatchRemoving? && s.isolates[e.isolate].pc.cand == dir
    ensures s.fs.marker.Some? ==> Marked(s.fs) && MarkedName(s.fs) != dir
    ensures forall j :: j in s.isolates && j != e.isolate && HasName(s.isolates[j].pc) ==> s.isolates[j].pc.cand != dir
    ensures forall t :: t in s.handedOut ==> t.name != dir
  {
    var me := s.isolates[e.isolate];
    assert OwnerOk(s.fs, me.pc);
    forall j | j in s.isolates && j != e.isolate && HasName(s.isolates[j].pc)
      ensures s.isolates[j].pc.cand != dir
    {
      assert Distinct(me.pc, s.isolates[j].pc);
    }
    forall t | t in s.handedOut
      ensures t.name != dir
    {
      assert TempOk(s.fs, t);
    }
  }

  lemma DanglingMarker(f: Fs, t: Temp)
    requires Marked(f) && MarkedName(f) !in f.dirs
    ensures !TempOk(f, t)
  {
  }

  /**
   * A marker left behind whose directory is missing: the first reading goes on to publish, the link
   * loses, and in no run does anyone return, is the marker replaced, or the directory recreated.
   */
  lemma StaleMarkerFails(s: State, run: seq<Event>)
    requires Init(s) && ValidRun(s, run) && s.fs.marker.Some? && MarkedName(s.fs) !in s.fs.dirs
    ensures Run(s, run).handedOut == {} && Run(s, run).links == 0
    ensures MarkerKept(s.fs, Run(s, run).fs)
    ensures forall i :: i in Run(s, run).isolates ==> Run(s, run).isolates[i].temp.None?
  {
    RunKeepsInv(s, run);
    MarkerForever(s, run);
    var f := Run(s, run).fs;
    assert forall t :: t in Run(s, run).handedOut ==> TempOk(f, t);
    forall t: Temp
      ensures !TempOk(f, t)
    {
      DanglingMarker(f, t);
    }
    forall i | i in Run(s, run).isolates
      ensures Run(s, run).isolates[i].temp.None?
    {
      assert ReaderOk(Run(s, run).fs, Run(s, run).isolates[i]);
    }
  }

  // ---------------------------------------------------------------- wait-freedom

  /** A marker, if there is one, is one that `readRendezvous` accepts. */
  ghost predicate Healthy(f: Fs) {
    f.marker.Some? ==>
      && Marked(f) && f.files[f.marker.value].readOnly && WellFormed(f, MarkedName(f))
      && MarkedName(f) in f.dirs
  }

  /** An isolate none of whose own calls has failed so far: it has met at most the marker of another. */
  ghost predicate Unfailing(f: Fs, pc: Pc) {
    && !pc.Idle? && !pc.Threw? && !pc.CatchClosing?
    && (pc.CatchUnlinking? || pc.CatchRemoving? ==> pc.exist && f.marker.Some?)
    && (pc.Unpublishing? || pc.Statting? || pc.Reading? || pc.Looking? ==> f.marker.Some?)
    && (pc.Opening? && !pc.why.First? ==> f.marker.Some?)
  }

  /** How many of its own calls an unfailing isolate still needs. */
  function Rank(f: Fs, pc: Pc): nat {
    var name := |f.prefix| + 6;
    match pc
    case Rooting => name + 24
    case Opening(why) => if why.First? then name + 23 else if why.Check? then 4 else 8
    case Statting(why, _) => if why.Check? then 3 else 7
    case Reading(why, _, _) => if why.Check? then 2 else 6
    case Looking(why, _, _) => if why.Check? then 1 else 5
    case Making => name + 22
    case Securing(_) => name + 21
    case Asserting(_) => name + 20
    case Publishing(_) => name + 19
    case Writing(_, _, pos) => if pos <= name then 18 + (name - pos) else 16
    case Restricting(_, _) => 15
    case Syncing(_, _) => 14
    case Closing(_, _) => 13
    case Linking(_, _) => 12
    case CatchUnlinking(_, _) => 11
    case CatchRemoving(_, _) => 10
    case Unpublishing(_) => 9
    case _ => 0
  }

  lemma StepKeepsHealthy(s: State, e: Event)
    requires Inv(s) && ValidEvent(s, e) && Healthy(s.fs)
    ensures Healthy(Step(s, e).fs) && Step(s, e).fs.prefix == s.fs.prefix
  {
    StepKeepsFs(s, e);
    assert OwnerOk(s.fs, s.isolates[e.isolate].pc);
    if s.fs.marker.None? && Step(s, e).fs.marker.Some? {
      LinkPublishesWholeMarker(s, e);
    }
  }

  /** One unfailing call brings the isolate closer to returning. */
  lemma UnfailingStep(f: Fs, me: Local, accepted: nat, unique: string)
    requires FsOk(f) && Healthy(f) && OwnerOk(f, me.pc) && ReaderOk(f, me) && Unfailing(f, me.pc)
    requires !me.pc.Returned? && WellFormed(f, unique)
    requires Reads(me.pc) && me.pc.why.Check? ==> me.temp.Some?
    ensures var f' := Apply(f, NextOp(f, me, None, accepted, unique));
      var me' := NextLocal(f, me, None, accepted, unique);
      && Unfailing(f', me'.pc) && Rank(f', me'.pc) < Rank(f, me.pc)
      && (Reads(me'.pc) && me'.pc.why.Check? ==> me'.temp.Some?)
  {
    if Reads(me.pc) {
      hide NextPublisher, OwnerOk, FsOk;
    } else {
      hide NextReader, ReaderOk, FsOk, WellFormed;
    }
  }

  /** The steps of `i` in a run. */
  function CallsOf(run: seq<Event>, i: Isolate): nat {
    if run == [] then 0 else (if run[0].isolate == i then 1 else 0) + CallsOf(run[1..], i)
  }

  ghost predicate NeverFails(run: seq<Event>, i: Isolate) {
    forall k :: 0 <= k < |run| && run[k].isolate == i ==> run[k].Call? && run[k].fails.None?
  }

  ghost predicate OnTheWay(s: State, i: Isolate) {
    && i in s.isolates && Unfailing(s.fs, s.isolates[i].pc)
    && (Reads(s.isolates[i].pc) && s.isolates[i].pc.why.Check? ==> s.isolates[i].temp.Some?)
  }

  lemma OnTheWayStep(s: State, e: Event, i: Isolate)
    requires Inv(s) && ValidEvent(s, e) && Healthy(s.fs) && OnTheWay(s, i)
    requires e.isolate == i ==> e.Call? && e.fails.None?
    ensures OnTheWay(Step(s, e), i)
    ensures var r := Rank(s.fs, s.isolates[i].pc); var r' := Rank(Step(s, e).fs, Step(s, e).isolates[i].pc);
      r' <= r && (e.isolate == i && r > 0 ==> r' < r)
  {
    StepKeepsFs(s, e);
    StepKeepsHealthy(s, e);
    assert OwnerOk(s.fs, s.isolates[i].pc) && ReaderOk(s.fs, s.isolates[i]);
    if e.isolate == i && !s.isolates[i].pc.Returned? {
      UnfailingStep(s.fs, s.isolates[i], e.accepted, e.unique);
    }
  }

  /**
   * Wait-freedom.  Unless the root holds a stale marker, an isolate whose own calls do not fail
   * returns after a bounded number of them, however the others interleave, fail or stop.
   */
  lemma {:induction false} UnfailingIsolateReturns(s: State, run: seq<Event>, i: Isolate)
    requires Inv(s) && ValidRun(s, run) && Healthy(s.fs) && OnTheWay(s, i)
    requires NeverFails(run, i) && CallsOf(run, i) >= Rank(s.fs, s.isolates[i].pc)
    ensures i in Run(s, run).isolates && Run(s, run).isolates[i].pc.Returned?
    decreases |run|
  {
    if run == [] {
      assert Rank(s.fs, s.isolates[i].pc) == 0;
    } else {
      StepKeepsInv(s, run[0]);
      StepKeepsHealthy(s, run[0]);
      OnTheWayStep(s, run[0], i);
      UnfailingIsolateReturns(Step(s, run[0]), run[1..], i);
    }
  }
}
