/**
 Verifier processes sharing one kernel lock, from admission to receipt publication.

 A system state holds the lock file, the kernel's lock table, every started process, the files they
 write and a log of what happened.  Actions of different processes interleave freely; a process can
 fail or be killed at any point, and the host can crash.
 */
module Admission {
  import opened Wrappers

  type Pid = nat
  type Inode = nat
  type Dir = nat
  type Temp = nat
  type Bytes = seq<nat>

  datatype PC =
    | Opened | Refused | Holding | Ready | Working | Reporting | Writing | Synced | Published | Unwinding | Done | Dead

  datatype Proc = Proc(pc: PC, admitted: bool, fd: Option<Inode>, dir: Option<Dir>, temp: Option<Temp>, payload: Bytes)

  /** File contents, and how much of them survives a host crash. */
  datatype File = File(data: Bytes, durable: nat)

  datatype Event =
    | Acquire(pid: Pid)
    | Capture(pid: Pid)
    | Publish(pid: Pid, dir: Dir, payload: Bytes)
    | Release(pid: Pid)
    | PublishBusy(pid: Pid, dir: Dir, payload: Bytes)

  /** The names certain to be on disk: those the host found when it came up. */
  datatype Disk = Disk(lock: bool, dirs: set<Dir>, results: set<Dir>)

  datatype System = System(
    lockPath: Option<Inode>, holder: map<Inode, Pid>, procs: map<Pid, Proc>,
    dirs: set<Dir>, temps: map<Temp, File>, results: map<Dir, File>, disk: Disk, log: seq<Event>)

  // ----- Actions -----

  datatype Action =
    | Open(created: Inode)
    | OpenFails
    | BadLockFile
    | Lock
    | Refuse
    | MakeDir(dir: Dir)
    | StartCapture
    | Report(payload: Bytes)
    | Raise
    | MakeTemp(temp: Temp)
    | Write(count: nat)
    | Sync
    | Replace
    | FailWrite
    | Close
    | Kill

  /** From the acquisition of the lock to the close that releases it. */
  predicate Critical(q: Proc) {
    q.admitted && q.pc !in {Opened, Refused, Done, Dead}
  }

  predicate Enabled(s: System, p: Pid, a: Action) {
    if a.Open? || a.OpenFails? then
      p !in s.procs && (a.Open? && s.lockPath.Some? ==> a.created == s.lockPath.value)
    else
      p in s.procs &&
      var q := s.procs[p];
      match a
      case BadLockFile => q.pc == Opened
      case Lock => q.pc == Opened && q.fd.Some? && q.fd.value !in s.holder
      case Refuse => q.pc == Opened && q.fd.Some? && q.fd.value in s.holder
      case MakeDir(d) => q.pc in {Refused, Holding} && d !in s.dirs
      case StartCapture => q.pc == Ready
      case Report(_) => q.pc == Working
      case Raise => q.pc in {Opened, Refused, Holding, Ready, Working, Published}
      case MakeTemp(t) => q.pc == Reporting && t !in s.temps
      case Write(n) => q.pc == Writing && q.temp.Some? && q.temp.value in s.temps
                       && |s.temps[q.temp.value].data| + n <= |q.payload|
      case Sync => q.pc == Writing && q.temp.Some? && q.temp.value in s.temps && s.temps[q.temp.value].data == q.payload
      case Replace => q.pc == Synced && q.temp.Some? && q.temp.value in s.temps && q.dir.Some?
      case FailWrite => q.pc in {Reporting, Writing, Synced}
      case Close => q.pc in {Published, Unwinding}
      case Kill => q.pc !in {Done, Dead}
      case _ => false
  }

  function Move(s: System, p: Pid, q: Proc): System {
    s.(procs := s.procs[p := q])
  }

  function Note(s: System, e: Event): System {
    s.(log := s.log + [e])
  }

  /** Closing the descriptor gives up the lock, if this process holds it. */
  function CloseFd(s: System, p: Pid, pc: PC): System
    requires p in s.procs
  {
    var q := s.procs[p];
    var closed := Move(s, p, q.(pc := pc, fd := None));
    if Critical(q) && q.fd.Some? then Note(closed.(holder := s.holder - {q.fd.value}), Release(p)) else closed
  }

  function DropTemp(s: System, p: Pid): System
    requires p in s.procs
  {
    if s.procs[p].temp.Some? then s.(temps := s.temps - {s.procs[p].temp.value}) else s
  }

  function Do(s: System, p: Pid, a: Action): System
    requires Enabled(s, p, a)
  {
    match a
    case Open(created) => Move(s.(lockPath := Some(created)), p, Proc(Opened, false, Some(created), None, None, []))
    case OpenFails => Move(s, p, Proc(Done, false, None, None, None, []))
    case BadLockFile => CloseFd(s, p, Done)
    case Lock =>
      var q := s.procs[p];
      Note(Move(s.(holder := s.holder[q.fd.value := p]), p, q.(pc := Holding, admitted := true)), Acquire(p))
    case Refuse => CloseFd(s, p, Refused)
    case MakeDir(d) =>
      var q := s.procs[p];
      Move(s.(dirs := s.dirs + {d}), p, q.(pc := if q.admitted then Ready else Working, dir := Some(d)))
    case StartCapture => Note(Move(s, p, s.procs[p].(pc := Working)), Capture(p))
    case Report(payload) => Move(s, p, s.procs[p].(pc := Reporting, payload := payload))
    case Raise => Move(s, p, s.procs[p].(pc := Unwinding))
    case MakeTemp(t) => Move(s.(temps := s.temps[t := File([], 0)]), p, s.procs[p].(pc := Writing, temp := Some(t)))
    case Write(n) =>
      var q := s.procs[p];
      var f := s.temps[q.temp.value];
      s.(temps := s.temps[q.temp.value := f.(data := q.payload[..|f.data| + n])])
    case Sync =>
      var q := s.procs[p];
      var f := s.temps[q.temp.value];
      Move(s.(temps := s.temps[q.temp.value := f.(durable := |f.data|)]), p, q.(pc := Synced))
    case Replace =>
      var q := s.procs[p];
      var moved := s.(results := s.results[q.dir.value := s.temps[q.temp.value]], temps := s.temps - {q.temp.value});
      Note(Move(moved, p, q.(pc := Published, temp := None)),
           if q.admitted then Publish(p, q.dir.value, q.payload) else PublishBusy(p, q.dir.value, q.payload))
    case FailWrite => Move(DropTemp(s, p), p, s.procs[p].(pc := Unwinding, temp := None))
    case Close => CloseFd(s, p, Done)
    case Kill => CloseFd(s, p, Dead)
  }

  /** After a power failure it is only on record whether a process ever had the lock and whether it had finished. */
  function Buried(q: Proc): Proc {
    Proc(if q.pc == Done then Done else Dead, q.admitted, None, None, None, q.payload)
  }

  /**
   A power failure: every process dies.  No directory is ever synced, so each name made since the
   host came up may be gone: the lock file, run directories, results whose rename is undone.  What
   is left of temporary files is arbitrary; an undone rename may bring one back.
   */
  ghost predicate Crash(s: System, t: System) {
    && (t.lockPath == s.lockPath || (!s.disk.lock && t.lockPath == None))
    && t.holder == map[]
    && t.procs == (map p | p in s.procs :: Buried(s.procs[p]))
    && s.disk.dirs <= t.dirs <= s.dirs
    && t.results.Keys <= t.dirs && Survives(s, t.results)
    && t.disk == Disk(t.lockPath.Some?, t.dirs, t.results.Keys)
    && t.log == s.log + if Holder(s).Some? then [Release(Holder(s).value)] else []
  }

  ghost predicate Survives(s: System, after: map<Dir, File>) {
    && s.disk.results <= after.Keys <= s.results.Keys
    && forall d :: d in after ==> CutBack(s.results[d], after[d])
  }

  ghost predicate CutBack(f: File, g: File) {
    g.data <= f.data && f.durable <= |g.data| && g.durable == f.durable
  }

  /** Some process acts, fails or is killed. */
  ghost predicate Acts(s: System, t: System) {
    exists p, a :: Enabled(s, p, a) && t == Do(s, p, a)
  }

  ghost predicate Next(s: System, t: System) {
    Acts(s, t) || Crash(s, t)
  }

  // ----- The serial lock, as a log -----

  function Holder(s: System): Option<Pid> {
    if s.lockPath.Some? && s.lockPath.value in s.holder then Some(s.holder[s.lockPath.value]) else None
  }

  function Owner(log: seq<Event>): Option<Pid> {
    if log == [] then None
    else
      match log[|log| - 1]
      case Acquire(p) => Some(p)
      case Release(_) => None
      case _ => Owner(log[..|log| - 1])
  }

  predicate Allowed(owner: Option<Pid>, e: Event) {
    match e
    case Acquire(_) => owner == None
    case PublishBusy(_, _, _) => true
    case _ => owner == Some(e.pid)
  }

  /** A log of one lock used by one owner at a time. */
  predicate Serial(log: seq<Event>) {
    log == [] || (Serial(log[..|log| - 1]) && Allowed(Owner(log[..|log| - 1]), log[|log| - 1]))
  }

  predicate AcquiredOnce(log: seq<Event>) {
    forall i, j :: 0 <= i < j < |log| && log[i].Acquire? ==> log[i] != log[j]
  }

  // ----- The invariant -----

  /** One lock file, and exactly the holder of its lock between acquisition and release. */
  ghost predicate LockInv(s: System) {
    && (forall i :: i in s.holder ==> s.lockPath == Some(i))
    && (forall i :: i in s.holder ==> s.holder[i] in s.procs && Critical(s.procs[s.holder[i]]))
    && (forall p :: p in s.procs && s.procs[p].fd.Some? ==> s.procs[p].fd == s.lockPath)
    && (forall p :: p in s.procs && s.procs[p].pc in {Opened, Refused} ==> !s.procs[p].admitted)
    && (forall p :: p in s.procs && s.procs[p].pc in {Holding, Ready} ==> s.procs[p].admitted)
    && (forall p :: p in s.procs && Critical(s.procs[p]) ==>
          s.procs[p].fd.Some? && s.procs[p].fd.value in s.holder && s.holder[s.procs[p].fd.value] == p)
  }

  ghost predicate LogInv(s: System) {
    && Serial(s.log) && Owner(s.log) == Holder(s)
    && AcquiredOnce(s.log)
    && forall p :: Acquire(p) in s.log <==> p in s.procs && s.procs[p].admitted
  }

  /** Every live temporary file belongs to one process and holds a prefix of its payload, all of it once synced. */
  ghost predicate FileInv(s: System) {
    && (forall p :: p in s.procs && s.procs[p].temp.Some? ==> s.procs[p].temp.value in s.temps)
    && (forall p, q :: p in s.procs && q in s.procs && p != q && s.procs[p].temp.Some? ==>
          s.procs[p].temp != s.procs[q].temp)
    && (forall p :: p in s.procs ==> TempFits(s.procs[p], s.temps))
  }

  ghost predicate TempFits(q: Proc, temps: map<Temp, File>) {
    q.pc in {Writing, Synced} ==>
      && q.temp.Some? && q.temp.value in temps
      && temps[q.temp.value].data <= q.payload
      && (q.pc == Synced ==> temps[q.temp.value] == File(q.payload, |q.payload|))
  }

  predicate InRun(q: Proc) {
    q.pc in {Ready, Working, Reporting, Writing, Synced}
  }

  /** Every run has its own directory, without a result until the run publishes one. */
  ghost predicate DirInv(s: System) {
    && s.results.Keys <= s.dirs
    && (forall p :: p in s.procs && s.procs[p].dir.Some? ==> s.procs[p].dir.value in s.dirs)
    && (forall p, q :: p in s.procs && q in s.procs && p != q && s.procs[p].dir.Some? ==>
          s.procs[p].dir != s.procs[q].dir)
    && (forall p :: p in s.procs && InRun(s.procs[p]) ==> s.procs[p].dir.Some? && s.procs[p].dir.value !in s.results)
    && (forall p :: p in s.procs && s.procs[p].pc in {Opened, Refused, Holding} ==> s.procs[p].dir.None?)
  }

  ghost predicate WasPublished(log: seq<Event>, d: Dir, payload: Bytes) {
    exists p :: Publish(p, d, payload) in log || PublishBusy(p, d, payload) in log
  }

  /** Every result is durable, and is either an earlier one or a complete published payload. */
  ghost predicate ResultInv(initial: map<Dir, File>, s: System) {
    forall d :: d in s.results ==>
      && s.results[d].durable == |s.results[d].data|
      && ((d in initial && s.results[d] == initial[d]) || WasPublished(s.log, d, s.results[d].data))
  }

  // ----- What one process has done -----

  /** The events of one process, in order. */
  function Story(log: seq<Event>, p: Pid): seq<Event> {
    if log == [] then []
    else Story(log[..|log| - 1], p) + if log[|log| - 1].pid == p then [log[|log| - 1]] else []
  }

  /** The first `n` of: acquire, capture, publish. */
  ghost predicate Begun(p: Pid, story: seq<Event>, n: nat) {
    && |story| == n <= 3
    && (n > 0 ==> story[0] == Acquire(p))
    && (n > 1 ==> story[1] == Capture(p))
    && (n > 2 ==> story[2].Publish? && story[2].pid == p)
  }

  ghost predicate Released(p: Pid, story: seq<Event>) {
    |story| >= 2 && story[|story| - 1] == Release(p) && Begun(p, story[..|story| - 1], |story| - 1)
  }

  ghost predicate WasBusy(p: Pid, story: seq<Event>) {
    |story| == 1 && story[0].PublishBusy? && story[0].pid == p
  }

  /** What a process at this point of the program has done so far. */
  ghost predicate StoryFits(p: Pid, q: Proc, story: seq<Event>) {
    if q.admitted then
      match q.pc
      case Holding | Ready => Begun(p, story, 1)
      case Working | Reporting | Writing | Synced => Begun(p, story, 2)
      case Published => Begun(p, story, 3)
      case Unwinding => story != [] && Begun(p, story, |story|)
      case Done | Dead => Released(p, story)
      case _ => false
    else
      match q.pc
      case Published => WasBusy(p, story)
      case Unwinding | Done | Dead => story == [] || WasBusy(p, story)
      case _ => story == []
  }

  ghost predicate StoryInv(s: System) {
    forall p {:trigger Story(s.log, p)} ::
      if p in s.procs then StoryFits(p, s.procs[p], Story(s.log, p)) else Story(s.log, p) == []
  }

  /** What is on disk is still there. */
  ghost predicate DiskInv(s: System) {
    s.disk.dirs <= s.dirs && s.disk.results <= s.results.Keys && s.disk.results <= s.disk.dirs
  }

  ghost predicate Inv(initial: map<Dir, File>, s: System) {
    && LockInv(s) && LogInv(s) && StoryInv(s)
    && FileInv(s) && DirInv(s) && DiskInv(s) && ResultInv(initial, s)
  }

  ghost predicate Init(s: System) {
    && s.holder == map[] && s.procs == map[] && s.log == []
    && s.results.Keys <= s.dirs
    && s.disk == Disk(s.lockPath.Some?, s.dirs, s.results.Keys)
    && forall d :: d in s.results ==> s.results[d].durable == |s.results[d].data|
  }

  lemma InitInv(s: System)
    requires Init(s)
    ensures Inv(s.results, s)
  {
  }

  // ----- Preservation: the lock -----

  /** Actions that leave the lock alone and the process on its side of it. */
  ghost predicate Quiet(s: System, t: System, p: Pid) {
    && t.lockPath == s.lockPath && t.holder == s.holder
    && p in s.procs && t.procs.Keys == s.procs.Keys
    && (forall r :: r in s.procs && r != p ==> t.procs[r] == s.procs[r])
    && t.procs[p].fd == s.procs[p].fd && t.procs[p].admitted == s.procs[p].admitted
    && (Critical(t.procs[p]) <==> Critical(s.procs[p]))
    && t.procs[p].pc !in {Opened, Refused}
    && (t.procs[p].pc in {Holding, Ready} ==> t.procs[p].admitted)
  }

  lemma QuietKeepsLock(s: System, t: System, p: Pid)
    requires LockInv(s) && Quiet(s, t, p)
    ensures LockInv(t) && Holder(t) == Holder(s)
  {
  }

  predicate IsQuiet(a: Action) {
    !a.Open? && !a.OpenFails? && !a.BadLockFile? && !a.Lock? && !a.Refuse? && !a.Close? && !a.Kill?
  }

  predicate Closes(a: Action) {
    a.BadLockFile? || a.Refuse? || a.Close? || a.Kill?
  }

  predicate BeforeReceipt(a: Action) {
    a.MakeDir? || a.StartCapture? || a.Report? || a.Raise?
  }

  lemma QuietBefore(s: System, p: Pid, a: Action)
    requires LockInv(s) && Enabled(s, p, a) && BeforeReceipt(a)
    ensures Quiet(s, Do(s, p, a), p)
  {
  }

  lemma QuietReceipt(s: System, p: Pid, a: Action)
    requires LockInv(s) && Enabled(s, p, a) && IsQuiet(a) && !BeforeReceipt(a)
    ensures Quiet(s, Do(s, p, a), p)
  {
  }

  lemma OpenKeepsLock(s: System, p: Pid, a: Action)
    requires LockInv(s) && Enabled(s, p, a) && (a.Open? || a.OpenFails?)
    ensures LockInv(Do(s, p, a)) && Holder(Do(s, p, a)) == Holder(s)
  {
  }

  lemma LockKeepsLock(s: System, p: Pid)
    requires LockInv(s) && Enabled(s, p, Lock)
    ensures LockInv(Do(s, p, Lock)) && Holder(s) == None && Holder(Do(s, p, Lock)) == Some(p)
  {
    assert s.procs[p].fd == s.lockPath;
    assert forall i :: i !in s.holder;
  }

  lemma CloseKeepsLock(s: System, p: Pid, pc: PC)
    requires LockInv(s) && p in s.procs && pc in {Refused, Done, Dead}
    requires pc == Refused ==> !s.procs[p].admitted
    ensures LockInv(CloseFd(s, p, pc))
    ensures Critical(s.procs[p]) ==> Holder(s) == Some(p) && Holder(CloseFd(s, p, pc)) == None
    ensures !Critical(s.procs[p]) ==> Holder(CloseFd(s, p, pc)) == Holder(s)
  {
  }

  lemma CrashKeepsLock(s: System, t: System)
    requires LockInv(s) && Crash(s, t)
    ensures LockInv(t) && Holder(t) == None
  {
  }

  // ----- Preservation: the log -----

  lemma Extend(log: seq<Event>, e: Event)
    requires Serial(log) && Allowed(Owner(log), e)
    ensures Serial(log + [e])
    ensures Owner(log + [e]) == match e case Acquire(p) => Some(p) case Release(_) => None case _ => Owner(log)
    ensures AcquiredOnce(log) && (e.Acquire? ==> e !in log) ==> AcquiredOnce(log + [e])
  {
    assert (log + [e])[..|log|] == log;
  }

  /** The events an action adds. */
  function Added(s: System, p: Pid, a: Action): seq<Event>
    requires Enabled(s, p, a)
  {
    if a.Lock? then [Acquire(p)]
    else if a.StartCapture? then [Capture(p)]
    else if a.Replace? then
      var q := s.procs[p];
      [if q.admitted then Publish(p, q.dir.value, q.payload) else PublishBusy(p, q.dir.value, q.payload)]
    else if (a.Close? || a.Kill? || a.BadLockFile? || a.Refuse?) && Critical(s.procs[p]) && s.procs[p].fd.Some? then
      [Release(p)]
    else []
  }

  lemma LogAdded(s: System, p: Pid, a: Action)
    requires Enabled(s, p, a)
    ensures Do(s, p, a).log == s.log + Added(s, p, a)
  {
  }

  lemma AdmittedAfter(s: System, p: Pid, a: Action, r: Pid)
    requires Enabled(s, p, a) && (a.Lock? ==> !s.procs[p].admitted)
    ensures (r in Do(s, p, a).procs && Do(s, p, a).procs[r].admitted) <==>
            (r in s.procs && s.procs[r].admitted) || (a.Lock? && r == p)
  {
  }

  lemma LockStep(s: System, p: Pid, a: Action)
    requires LockInv(s) && Enabled(s, p, a)
    ensures LockInv(Do(s, p, a))
    ensures Holder(Do(s, p, a)) ==
            if a.Lock? then Some(p)
            else if (a.Close? || a.Kill?) && Critical(s.procs[p]) then None
            else Holder(s)
    ensures a.Lock? ==> Holder(s) == None
    ensures p in s.procs && Critical(s.procs[p]) ==> Holder(s) == Some(p)
  {
    if IsQuiet(a) {
      if BeforeReceipt(a) {
        QuietBefore(s, p, a);
      } else {
        QuietReceipt(s, p, a);
      }
      QuietKeepsLock(s, Do(s, p, a), p);
    } else if a.Open? || a.OpenFails? {
      OpenKeepsLock(s, p, a);
    } else if a.Lock? {
      LockKeepsLock(s, p);
    } else {
      CloseKeepsLock(s, p, if a.Refuse? then Refused else if a.Kill? then Dead else Done);
    }
  }

  /** Capture and publication happen only inside the critical region. */
  lemma InsideOnly(s: System, p: Pid, a: Action)
    requires LockInv(s) && Enabled(s, p, a)
    ensures a.StartCapture? ==> Critical(s.procs[p])
    ensures a.Replace? && s.procs[p].admitted ==> Critical(s.procs[p])
  {
  }

  lemma AcquireRecorded(log: seq<Event>, more: seq<Event>, r: Pid)
    ensures Acquire(r) in log + more <==> Acquire(r) in log || Acquire(r) in more
  {
  }

  lemma LogStep(s: System, p: Pid, a: Action)
    requires LockInv(s) && LogInv(s) && Enabled(s, p, a)
    ensures LogInv(Do(s, p, a))
  {
    var t, more := Do(s, p, a), Added(s, p, a);
    LogAdded(s, p, a);
    LockStep(s, p, a);
    InsideOnly(s, p, a);
    if more == [] {
      assert t.log == s.log;
    } else {
      assert a.Lock? ==> !s.procs[p].admitted;
      Extend(s.log, more[0]);
      assert more == [more[0]];
    }
    forall r ensures Acquire(r) in t.log <==> r in t.procs && t.procs[r].admitted {
      AcquireRecorded(s.log, more, r);
      AdmittedAfter(s, p, a, r);
      assert Acquire(r) in more <==> a.Lock? && r == p;
    }
  }

  lemma LogCrash(s: System, t: System)
    requires LockInv(s) && LogInv(s) && Crash(s, t)
    ensures LogInv(t)
  {
    CrashKeepsLock(s, t);
    if Holder(s).Some? {
      Extend(s.log, Release(Holder(s).value));
      forall r {
        AcquireRecorded(s.log, [Release(Holder(s).value)], r);
      }
    } else {
      assert t.log == s.log;
    }
  }

  // ----- Preservation: the stories -----

  lemma StoryExtends(log: seq<Event>, e: Event, p: Pid)
    ensures Story(log + [e], p) == Story(log, p) + if e.pid == p then [e] else []
  {
    assert (log + [e])[..|log|] == log;
  }

  lemma StoryOther(s: System, p: Pid, a: Action, r: Pid)
    requires Enabled(s, p, a) && r != p
    ensures Story(Do(s, p, a).log, r) == Story(s.log, r)
  {
    LogAdded(s, p, a);
    var more := Added(s, p, a);
    if more != [] {
      assert more == [more[0]] && more[0].pid == p;
      StoryExtends(s.log, more[0], r);
    } else {
      assert s.log + more == s.log;
    }
  }

  lemma StoryOwn(s: System, p: Pid, a: Action)
    requires Enabled(s, p, a)
    ensures Story(Do(s, p, a).log, p) == Story(s.log, p) + Added(s, p, a)
  {
    LogAdded(s, p, a);
    var more := Added(s, p, a);
    if more != [] {
      assert more == [more[0]] && more[0].pid == p;
      StoryExtends(s.log, more[0], p);
    } else {
      assert s.log + more == s.log;
    }
  }

  lemma StoryQuiet(s: System, p: Pid, a: Action)
    requires LockInv(s) && Enabled(s, p, a) && IsQuiet(a) && StoryFits(p, s.procs[p], Story(s.log, p))
    ensures StoryFits(p, Do(s, p, a).procs[p], Story(s.log, p) + Added(s, p, a))
  {
  }

  lemma StoryOpen(s: System, p: Pid, a: Action)
    requires LockInv(s) && Enabled(s, p, a) && (a.Open? || a.OpenFails?) && Story(s.log, p) == []
    ensures StoryFits(p, Do(s, p, a).procs[p], Story(s.log, p) + Added(s, p, a))
  {
  }

  lemma StoryLock(s: System, p: Pid)
    requires LockInv(s) && Enabled(s, p, Lock) && StoryFits(p, s.procs[p], Story(s.log, p))
    ensures StoryFits(p, Do(s, p, Lock).procs[p], Story(s.log, p) + Added(s, p, Lock))
  {
  }

  lemma StoryEnds(p: Pid, q: Proc, story: seq<Event>, pc: PC)
    requires StoryFits(p, q, story) && pc in {Refused, Done, Dead}
    requires q.pc !in {Done, Dead} && (pc == Refused ==> q.pc == Opened)
    ensures StoryFits(p, q.(pc := pc, fd := None), story + if Critical(q) then [Release(p)] else [])
  {
    if Critical(q) {
      assert (story + [Release(p)])[..|story|] == story;
    } else {
      assert story + [] == story;
    }
  }

  lemma StoryClose(s: System, p: Pid, a: Action)
    requires LockInv(s) && Enabled(s, p, a) && Closes(a) && StoryFits(p, s.procs[p], Story(s.log, p))
    ensures StoryFits(p, Do(s, p, a).procs[p], Story(s.log, p) + Added(s, p, a))
  {
    var pc := if a.Refuse? then Refused else if a.Kill? then Dead else Done;
    StoryEnds(p, s.procs[p], Story(s.log, p), pc);
    ClosingAlone(s, p, pc);
  }

  lemma StoryStep(s: System, p: Pid, a: Action)
    requires LockInv(s) && StoryInv(s) && Enabled(s, p, a)
    ensures StoryInv(Do(s, p, a))
  {
    var story := Story(s.log, p);
    StoryOwn(s, p, a);
    if a.Open? || a.OpenFails? {
      StoryOpen(s, p, a);
    } else if a.Lock? {
      StoryLock(s, p);
    } else if Closes(a) {
      StoryClose(s, p, a);
    } else {
      StoryQuiet(s, p, a);
    }
    ActsAlone(s, p, a);
    StoriesKept(s, p, a);
  }

  lemma StoriesKept(s: System, p: Pid, a: Action)
    requires StoryInv(s) && Enabled(s, p, a) && Alone(s, Do(s, p, a), p)
    requires p in Do(s, p, a).procs && StoryFits(p, Do(s, p, a).procs[p], Story(Do(s, p, a).log, p))
    ensures StoryInv(Do(s, p, a))
  {
    var t := Do(s, p, a);
    forall r ensures if r in t.procs then StoryFits(r, t.procs[r], Story(t.log, r)) else Story(t.log, r) == [] {
      if r != p {
        StoryOther(s, p, a, r);
        assert Story(s.log, r) == Story(t.log, r);
      }
    }
  }

  lemma StoryBuried(p: Pid, q: Proc, story: seq<Event>)
    requires StoryFits(p, q, story)
    ensures StoryFits(p, Buried(q), story + if Critical(q) then [Release(p)] else [])
  {
    if Critical(q) {
      assert (story + [Release(p)])[..|story|] == story;
    } else {
      assert story + [] == story;
    }
  }

  lemma HolderIsCritical(s: System, r: Pid)
    requires LockInv(s) && r in s.procs
    ensures Holder(s) == Some(r) <==> Critical(s.procs[r])
  {
  }

  lemma StoryAfterCrash(s: System, t: System, r: Pid)
    requires LockInv(s) && Crash(s, t)
    ensures Story(t.log, r) == Story(s.log, r) + if r in s.procs && Critical(s.procs[r]) then [Release(r)] else []
  {
    if Holder(s).Some? {
      StoryExtends(s.log, Release(Holder(s).value), r);
    } else {
      assert t.log == s.log;
    }
    if r in s.procs {
      HolderIsCritical(s, r);
    }
  }

  lemma StoryCrash(s: System, t: System)
    requires LockInv(s) && StoryInv(s) && Crash(s, t)
    ensures StoryInv(t)
  {
    forall r ensures if r in t.procs then StoryFits(r, t.procs[r], Story(t.log, r)) else Story(t.log, r) == [] {
      StoryAfterCrash(s, t, r);
      if r in s.procs {
        StoryBuried(r, s.procs[r], Story(s.log, r));
      } else {
        assert Story(s.log, r) == [];
      }
    }
  }

  // ----- Preservation: the files -----

  /** Only process `p` changes. */
  ghost predicate Alone(s: System, t: System, p: Pid) {
    && t.procs.Keys == s.procs.Keys + {p}
    && forall r :: r in s.procs && r != p ==> t.procs[r] == s.procs[r]
  }

  lemma ActsAlone(s: System, p: Pid, a: Action)
    requires Enabled(s, p, a)
    ensures Alone(s, Do(s, p, a), p)
  {
  }

  lemma FileKept(s: System, t: System, p: Pid)
    requires FileInv(s) && Alone(s, t, p)
    requires forall r :: r in s.procs && r != p && s.procs[r].temp.Some? ==>
               && s.procs[r].temp != t.procs[p].temp
               && s.procs[r].temp.value in t.temps && t.temps[s.procs[r].temp.value] == s.temps[s.procs[r].temp.value]
    requires t.procs[p].temp.Some? ==> t.procs[p].temp.value in t.temps
    requires TempFits(t.procs[p], t.temps)
    ensures FileInv(t)
  {
  }

  predicate TouchesTemp(a: Action) {
    a.MakeTemp? || a.Write? || a.Sync? || a.Replace? || a.FailWrite?
  }

  lemma FileTemp(s: System, p: Pid, a: Action)
    requires FileInv(s) && Enabled(s, p, a) && TouchesTemp(a)
    ensures FileInv(Do(s, p, a))
  {
    ActsAlone(s, p, a);
    FileKept(s, Do(s, p, a), p);
  }

  lemma FileCloseFd(s: System, p: Pid, pc: PC)
    requires FileInv(s) && p in s.procs && pc in {Refused, Done, Dead}
    ensures FileInv(CloseFd(s, p, pc))
  {
    FileKept(s, CloseFd(s, p, pc), p);
  }

  lemma FileClose(s: System, p: Pid, a: Action)
    requires FileInv(s) && Enabled(s, p, a) && Closes(a)
    ensures FileInv(Do(s, p, a))
  {
    FileCloseFd(s, p, if a.Refuse? then Refused else if a.Kill? then Dead else Done);
  }

  lemma FileOther(s: System, p: Pid, a: Action)
    requires FileInv(s) && Enabled(s, p, a) && !TouchesTemp(a) && !Closes(a)
    ensures FileInv(Do(s, p, a))
  {
    ActsAlone(s, p, a);
    FileKept(s, Do(s, p, a), p);
  }

  lemma FileStep(s: System, p: Pid, a: Action)
    requires FileInv(s) && Enabled(s, p, a)
    ensures FileInv(Do(s, p, a))
  {
    if TouchesTemp(a) {
      FileTemp(s, p, a);
    } else if Closes(a) {
      FileClose(s, p, a);
    } else {
      FileOther(s, p, a);
    }
  }

  /** A failed write and a finished one leave no temporary file behind, and nobody else's file is touched. */
  lemma NoLitter(s: System, p: Pid, a: Action)
    requires Enabled(s, p, a) && (a.FailWrite? || a.Replace?)
    ensures var own := if s.procs[p].temp.Some? then {s.procs[p].temp.value} else {};
            Do(s, p, a).temps == s.temps - own && Do(s, p, a).procs[p].temp.None?
  {
  }

  lemma FileCrash(s: System, t: System)
    requires FileInv(s) && Crash(s, t)
    ensures FileInv(t)
  {
  }

  // ----- Preservation: directories and results -----

  lemma DirKept(s: System, t: System, p: Pid)
    requires DirInv(s) && Alone(s, t, p)
    requires t.results.Keys <= t.dirs && s.dirs <= t.dirs
    requires forall d :: d in t.results && d !in s.results ==> p in s.procs && s.procs[p].dir == Some(d)
    requires t.procs[p].dir.Some? ==> t.procs[p].dir.value in t.dirs
    requires t.procs[p].dir.Some? ==>
               t.procs[p].dir.value !in s.dirs || (p in s.procs && s.procs[p].dir == t.procs[p].dir)
    requires InRun(t.procs[p]) ==> t.procs[p].dir.Some? && t.procs[p].dir.value !in t.results
    requires t.procs[p].pc in {Opened, Refused, Holding} ==> t.procs[p].dir.None?
    ensures DirInv(t)
  {
  }

  lemma DirOpen(s: System, p: Pid, a: Action)
    requires DirInv(s) && Enabled(s, p, a) && (a.Open? || a.OpenFails? || a.Lock?)
    ensures DirInv(Do(s, p, a))
  {
    DirKept(s, Do(s, p, a), p);
  }

  lemma ClosingAlone(s: System, p: Pid, pc: PC)
    requires p in s.procs
    ensures var t := CloseFd(s, p, pc);
            && Alone(s, t, p) && t.dirs == s.dirs && t.results == s.results
            && t.procs[p] == s.procs[p].(pc := pc, fd := None)
  {
  }

  lemma DirSame(s: System, t: System, p: Pid)
    requires DirInv(s) && p in s.procs && Alone(s, t, p)
    requires t.dirs == s.dirs && t.results == s.results && t.procs[p].dir == s.procs[p].dir
    requires t.procs[p].pc in {Refused, Done, Dead} && (t.procs[p].pc == Refused ==> s.procs[p].dir.None?)
    ensures DirInv(t)
  {
    DirKept(s, t, p);
  }

  lemma DirCloseFd(s: System, p: Pid, pc: PC)
    requires DirInv(s) && p in s.procs && pc in {Refused, Done, Dead}
    requires pc == Refused ==> s.procs[p].dir.None?
    ensures DirInv(CloseFd(s, p, pc))
  {
    ClosingAlone(s, p, pc);
    DirSame(s, CloseFd(s, p, pc), p);
  }

  lemma DirClose(s: System, p: Pid, a: Action)
    requires DirInv(s) && Enabled(s, p, a) && Closes(a)
    ensures DirInv(Do(s, p, a))
  {
    DirCloseFd(s, p, if a.Refuse? then Refused else if a.Kill? then Dead else Done);
  }

  lemma DirQuiet(s: System, p: Pid, a: Action)
    requires DirInv(s) && Enabled(s, p, a) && IsQuiet(a)
    ensures DirInv(Do(s, p, a))
  {
    ActsAlone(s, p, a);
    DirKept(s, Do(s, p, a), p);
  }

  lemma DirCrash(s: System, t: System)
    requires DirInv(s) && Crash(s, t)
    ensures DirInv(t)
  {
  }

  lemma OnlyReplacePublishes(s: System, p: Pid, a: Action)
    requires Enabled(s, p, a) && !a.Replace?
    ensures Do(s, p, a).results == s.results
  {
  }

  lemma PublishedStays(log: seq<Event>, more: seq<Event>, d: Dir, payload: Bytes)
    requires WasPublished(log, d, payload)
    ensures WasPublished(log + more, d, payload)
  {
    var p :| Publish(p, d, payload) in log || PublishBusy(p, d, payload) in log;
    assert Publish(p, d, payload) in log + more || PublishBusy(p, d, payload) in log + more;
  }

  lemma PublishedNow(log: seq<Event>, e: Event)
    requires e.Publish? || e.PublishBusy?
    ensures WasPublished(log + [e], e.dir, e.payload)
  {
    assert e in log + [e];
    assert e == Publish(e.pid, e.dir, e.payload) || e == PublishBusy(e.pid, e.dir, e.payload);
  }

  /** Nothing but a complete payload is ever moved into place, and nothing in place is touched again. */
  lemma ResultStep(initial: map<Dir, File>, s: System, p: Pid, a: Action)
    requires FileInv(s) && DirInv(s) && ResultInv(initial, s) && Enabled(s, p, a)
    ensures ResultInv(initial, Do(s, p, a))
    ensures forall d :: d in s.results ==> d in Do(s, p, a).results && Do(s, p, a).results[d] == s.results[d]
  {
    var t, more := Do(s, p, a), Added(s, p, a);
    LogAdded(s, p, a);
    forall d | d in s.results && WasPublished(s.log, d, s.results[d].data)
      ensures WasPublished(t.log, d, s.results[d].data)
    {
      PublishedStays(s.log, more, d, s.results[d].data);
    }
    if a.Replace? {
      PublishedNow(s.log, more[0]);
      ReplaceResults(s, p);
    } else {
      OnlyReplacePublishes(s, p, a);
    }
  }

  lemma ReplaceResults(s: System, p: Pid)
    requires FileInv(s) && DirInv(s) && Enabled(s, p, Replace)
    ensures s.procs[p].dir.Some? && s.procs[p].dir.value !in s.results
    ensures Do(s, p, Replace).results ==
            s.results[s.procs[p].dir.value := File(s.procs[p].payload, |s.procs[p].payload|)]
  {
    assert TempFits(s.procs[p], s.temps);
  }

  /** A crash may take results away; those it leaves are whole. */
  lemma ResultCrash(initial: map<Dir, File>, s: System, t: System)
    requires ResultInv(initial, s) && Crash(s, t)
    ensures ResultInv(initial, t)
    ensures forall d :: d in t.results ==> d in s.results && t.results[d] == s.results[d]
  {
    forall d | d in t.results ensures t.results[d] == s.results[d] {
      assert CutBack(s.results[d], t.results[d]);
    }
    forall d | d in s.results && WasPublished(s.log, d, s.results[d].data)
      ensures WasPublished(t.log, d, s.results[d].data)
    {
      PublishedStays(s.log, if Holder(s).Some? then [Release(Holder(s).value)] else [], d, s.results[d].data);
    }
  }

  // ----- Preservation: what is on disk -----

  lemma DiskStep(s: System, p: Pid, a: Action)
    requires DiskInv(s) && Enabled(s, p, a)
    ensures DiskInv(Do(s, p, a)) && Do(s, p, a).disk == s.disk
  {
  }

  lemma DiskCrash(s: System, t: System)
    requires DiskInv(s) && Crash(s, t)
    ensures DiskInv(t) && s.disk.results <= t.disk.results
  {
  }

  // ----- Every run -----

  lemma StepInv(initial: map<Dir, File>, s: System, t: System)
    requires Inv(initial, s) && Next(s, t)
    ensures Inv(initial, t)
    ensures s.disk.results <= t.disk.results
  {
    if Crash(s, t) {
      CrashInv(initial, s, t);
    } else {
      var p, a :| Enabled(s, p, a) && t == Do(s, p, a);
      ActionInv(initial, s, p, a);
    }
  }

  lemma CrashInv(initial: map<Dir, File>, s: System, t: System)
    requires Inv(initial, s) && Crash(s, t)
    ensures Inv(initial, t)
    ensures s.disk.results <= t.disk.results
  {
    CrashKeepsLock(s, t);
    LogCrash(s, t);
    StoryCrash(s, t);
    FileCrash(s, t);
    DirCrash(s, t);
    DiskCrash(s, t);
    ResultCrash(initial, s, t);
  }

  /** While the host stays up a result, once there, never changes. */
  lemma ActsKeepsResults(initial: map<Dir, File>, s: System, t: System)
    requires Inv(initial, s) && Acts(s, t)
    ensures forall d :: d in s.results ==> d in t.results && t.results[d] == s.results[d]
  {
    var p, a :| Enabled(s, p, a) && t == Do(s, p, a);
    ActionInv(initial, s, p, a);
  }

  lemma ActionInv(initial: map<Dir, File>, s: System, p: Pid, a: Action)
    requires Inv(initial, s) && Enabled(s, p, a)
    ensures Inv(initial, Do(s, p, a)) && Do(s, p, a).disk == s.disk
    ensures forall d :: d in s.results ==> d in Do(s, p, a).results && Do(s, p, a).results[d] == s.results[d]
  {
    LockStep(s, p, a);
    LogStep(s, p, a);
    StoryStep(s, p, a);
    FileStep(s, p, a);
    if IsQuiet(a) {
      DirQuiet(s, p, a);
    } else if Closes(a) {
      DirClose(s, p, a);
    } else {
      DirOpen(s, p, a);
    }
    DiskStep(s, p, a);
    ResultStep(initial, s, p, a);
  }

  ghost predicate IsRun(run: seq<System>) {
    && run != [] && Init(run[0])
    && forall i :: 0 <= i < |run| - 1 ==> StepAt(run, i)
  }

  ghost predicate StepAt(run: seq<System>, i: int)
    requires 0 <= i < |run| - 1
  {
    Next(run[i], run[i + 1])
  }

  lemma {:induction false} RunInv(run: seq<System>, n: nat)
    requires IsRun(run) && n < |run|
    ensures Inv(run[0].results, run[n])
  {
    if n == 0 {
      InitInv(run[0]);
    } else {
      RunInv(run, n - 1);
      assert StepAt(run, n - 1);
      StepInv(run[0].results, run[n - 1], run[n]);
    }
  }

  /** In every reachable state at most one process is between acquisition and release. */
  lemma MutualExclusion(run: seq<System>, n: nat, p: Pid, q: Pid)
    requires IsRun(run) && n < |run|
    requires p in run[n].procs && Critical(run[n].procs[p])
    requires q in run[n].procs && Critical(run[n].procs[q])
    ensures p == q
  {
    RunInv(run, n);
  }

  /** Every result file is, at all times, an earlier run's or one complete published payload. */
  lemma ResultsComplete(run: seq<System>, n: nat, d: Dir)
    requires IsRun(run) && n < |run| && d in run[n].results
    ensures (d in run[0].results && run[n].results[d] == run[0].results[d]) ||
            WasPublished(run[n].log, d, run[n].results[d].data)
  {
    RunInv(run, n);
  }

  ghost predicate ActsAt(run: seq<System>, i: int)
    requires 0 <= i < |run| - 1
  {
    Acts(run[i], run[i + 1])
  }

  lemma StepKeepsResult(run: seq<System>, n: nat, d: Dir)
    requires IsRun(run) && n + 1 < |run| && d in run[n].results && ActsAt(run, n)
    ensures d in run[n + 1].results && run[n + 1].results[d] == run[n].results[d]
  {
    RunInv(run, n);
    ActsKeepsResults(run[0].results, run[n], run[n + 1]);
  }

  /** As long as the host stays up a result never changes, whatever process fails or is killed. */
  lemma {:induction false} ResultsStay(run: seq<System>, m: nat, n: nat, d: Dir)
    requires IsRun(run) && m <= n < |run| && d in run[m].results
    requires forall i :: m <= i < n ==> ActsAt(run, i)
    ensures d in run[n].results && run[n].results[d] == run[m].results[d]
  {
    if m < n {
      ResultsStay(run, m, n - 1, d);
      StepKeepsResult(run, n - 1, d);
    }
  }

  lemma StepKeepsOnDisk(initial: map<Dir, File>, s: System, t: System, d: Dir)
    requires Inv(initial, s) && Next(s, t) && d in s.disk.results
    ensures d in t.disk.results && d in s.results && d in t.results && t.results[d] == s.results[d]
  {
    StepInv(initial, s, t);
    if Crash(s, t) {
      ResultCrash(initial, s, t);
    } else {
      ActsKeepsResults(initial, s, t);
    }
  }

  /** A result that is on disk never changes, through any failures and any number of host crashes. */
  lemma {:induction false} ResultsOnDiskStay(run: seq<System>, m: nat, n: nat, d: Dir)
    requires IsRun(run) && m <= n < |run| && d in run[m].disk.results
    ensures d in run[n].disk.results && d in run[m].results && d in run[n].results
    ensures run[n].results[d] == run[m].results[d]
  {
    if m < n {
      ResultsOnDiskStay(run, m, n - 1, d);
      RunInv(run, n - 1);
      assert StepAt(run, n - 1);
      StepKeepsOnDisk(run[0].results, run[n - 1], run[n], d);
    } else {
      RunInv(run, n);
    }
  }

  /** The crash that takes every name not on disk. */
  function Worst(s: System): System
    requires s.disk.results <= s.results.Keys
  {
    System(if s.disk.lock then s.lockPath else None, map[], map p | p in s.procs :: Buried(s.procs[p]), s.disk.dirs,
           map[], map d | d in s.disk.results :: s.results[d],
           Disk(s.disk.lock && s.lockPath.Some?, s.disk.dirs, s.disk.results),
           s.log + if Holder(s).Some? then [Release(Holder(s).value)] else [])
  }

  /** Publication alone does not outlive a power failure: a result is safe from it if and only if it is on disk. */
  lemma SafeFromCrash(initial: map<Dir, File>, s: System, d: Dir)
    requires Inv(initial, s) && d in s.results
    ensures (forall t :: Crash(s, t) ==> d in t.results) <==> d in s.disk.results
  {
    var worst := Worst(s);
    assert Crash(s, worst);
    assert d in worst.results <==> d in s.disk.results;
  }

  // ----- What a serial log means -----

  lemma {:induction false} SerialPrefix(log: seq<Event>, n: nat)
    requires Serial(log) && n <= |log|
    ensures Serial(log[..n])
  {
    if n < |log| {
      SerialPrefix(log[..|log| - 1], n);
      assert log[..|log| - 1][..n] == log[..n];
    } else {
      assert log[..n] == log;
    }
  }

  lemma SerialAt(log: seq<Event>, k: nat)
    requires Serial(log) && k < |log|
    ensures Allowed(Owner(log[..k]), log[k])
  {
    SerialPrefix(log, k + 1);
    assert log[..k + 1][..k] == log[..k];
  }

  lemma OwnerAt(log: seq<Event>, k: nat)
    requires k < |log|
    ensures Owner(log[..k + 1]) ==
            match log[k] case Acquire(p) => Some(p) case Release(_) => None case _ => Owner(log[..k])
  {
    assert log[..k + 1][..k] == log[..k];
  }

  /** An owner acquired the lock at some point and has owned it ever since. */
  lemma {:induction false} OwnerAcquired(log: seq<Event>, p: Pid, k: nat) returns (i: nat)
    requires k <= |log| && Owner(log[..k]) == Some(p)
    ensures i < k && log[i] == Acquire(p)
    ensures forall j :: i < j <= k ==> Owner(log[..j]) == Some(p)
  {
    OwnerAt(log, k - 1);
    if log[k - 1] == Acquire(p) {
      i := k - 1;
    } else {
      i := OwnerAcquired(log, p, k - 1);
    }
  }

  /** From capture to publication the lock has one owner: runs never overlap. */
  lemma IntervalsDisjoint(log: seq<Event>, p: Pid, i: nat, j: nat, k: nat)
    requires Serial(log) && AcquiredOnce(log)
    requires i < j < k < |log|
    requires log[i] == Capture(p) && log[k].Publish? && log[k].pid == p
    ensures log[j].PublishBusy? || log[j].pid == p
  {
    SerialAt(log, i);
    SerialAt(log, j);
    SerialAt(log, k);
    var a := OwnerAcquired(log, p, i);
    var b := OwnerAcquired(log, p, k);
    assert a == b;
    assert Owner(log[..j]) == Some(p);
  }

  /** A run's capture-to-publication interval admits no other run's capture, publication or lock. */
  lemma RunsDisjoint(run: seq<System>, n: nat, p: Pid, i: nat, j: nat, k: nat)
    requires IsRun(run) && n < |run|
    requires i < j < k < |run[n].log|
    requires run[n].log[i] == Capture(p) && run[n].log[k].Publish? && run[n].log[k].pid == p
    ensures run[n].log[j].PublishBusy? || run[n].log[j].pid == p
  {
    RunInv(run, n);
    IntervalsDisjoint(run[n].log, p, i, j, k);
  }

  // ----- What one process does in a run -----

  lemma {:induction false} StoryPrefix(log: seq<Event>, p: Pid, k: nat)
    requires k < |log| && log[k].pid == p
    ensures |Story(log[..k], p)| < |Story(log, p)|
    ensures Story(log, p)[|Story(log[..k], p)|] == log[k]
    ensures Story(log, p)[..|Story(log[..k], p)|] == Story(log[..k], p)
  {
    var init := log[..|log| - 1];
    if k < |init| {
      StoryPrefix(init, p, k);
      assert init[..k] == log[..k];
    } else {
      assert init == log[..k];
    }
  }

  /** The last event of a story happened, and what precedes it in the story happened before. */
  lemma {:induction false} StoryLast(log: seq<Event>, p: Pid) returns (k: nat)
    requires Story(log, p) != []
    ensures k < |log| && log[k] == Story(log, p)[|Story(log, p)| - 1]
    ensures Story(log[..k], p) == Story(log, p)[..|Story(log, p)| - 1]
  {
    var init := log[..|log| - 1];
    if log[|log| - 1].pid == p {
      k := |log| - 1;
    } else {
      k := StoryLast(init, p);
      assert init[..k] == log[..k];
    }
  }

  /** A publication by a lock holder comes after its capture, and that after its acquisition. */
  lemma PublishStory(run: seq<System>, n: nat, k: nat) returns (i: nat, j: nat)
    requires IsRun(run) && n < |run| && k < |run[n].log| && run[n].log[k].Publish?
    ensures i < j < k
    ensures run[n].log[i] == Acquire(run[n].log[k].pid) && run[n].log[j] == Capture(run[n].log[k].pid)
  {
    var log, p := run[n].log, run[n].log[k].pid;
    RunInv(run, n);
    StoryPrefix(log, p, k);
    PublishThird(p, run[n], Story(log[..k], p));
    j := StoryLast(log[..k], p);
    assert log[..k][..j] == log[..j];
    i := StoryLast(log[..j], p);
  }

  lemma PublishThird(p: Pid, s: System, before: seq<Event>)
    requires StoryInv(s) && |before| < |Story(s.log, p)| && before == Story(s.log, p)[..|before|]
    requires Story(s.log, p)[|before|].Publish?
    ensures before == [Acquire(p), Capture(p)]
  {
    var story := Story(s.log, p);
    assert p in s.procs && StoryFits(p, s.procs[p], story);
  }

  /** Whatever happens, a process acquires, captures, publishes and releases at most once each, and in this order. */
  lemma WholeStory(run: seq<System>, n: nat, p: Pid)
    requires IsRun(run) && n < |run|
    ensures var story := Story(run[n].log, p);
            story == [] || Begun(p, story, |story|) || Released(p, story) || WasBusy(p, story)
  {
    RunInv(run, n);
  }

  // ----- Runs that exist -----

  lemma {:induction false} RunExtends(run: seq<System>, p: Pid, a: Action) returns (longer: seq<System>)
    requires IsRun(run) && Enabled(run[|run| - 1], p, a)
    ensures longer == run + [Do(run[|run| - 1], p, a)] && IsRun(longer)
  {
    var s := run[|run| - 1];
    var t := Do(s, p, a);
    longer := run + [t];
    assert Acts(s, t);
    forall i | 0 <= i < |longer| - 1 ensures StepAt(longer, i) {
      if i < |run| - 1 {
        assert StepAt(run, i);
      }
    }
  }

  /** Takes a run by one action to a state in which the process is `q` and the log has grown by `more`. */
  ghost predicate Reached(run: seq<System>, longer: seq<System>, p: Pid, q: Proc, more: seq<Event>) {
    && run != [] && IsRun(longer) && longer[0] == run[0]
    && var s, t := run[|run| - 1], longer[|longer| - 1];
       && p in t.procs && t.procs[p] == q && t.log == s.log + more
       && t.lockPath == s.lockPath && t.holder == s.holder
  }

  lemma WrittenRun(run: seq<System>, p: Pid, temp: Temp, payload: Bytes) returns (longer: seq<System>)
    requires IsRun(run)
    requires var s := run[|run| - 1];
             p in s.procs && s.procs[p].pc == Working && temp !in s.temps
    ensures var q := run[|run| - 1].procs[p];
            Reached(run, longer, p, q.(pc := Writing, temp := Some(temp), payload := payload), [])
    ensures var t := longer[|longer| - 1];
            temp in t.temps && t.temps[temp] == File(payload, 0) && t.results == run[|run| - 1].results
  {
    longer := RunExtends(run, p, Report(payload));
    longer := RunExtends(longer, p, MakeTemp(temp));
    longer := RunExtends(longer, p, Write(|payload|));
    assert payload[..|payload|] == payload;
  }

  /** From its capture on, nothing keeps a run from publishing any payload. */
  lemma Publication(run: seq<System>, p: Pid, temp: Temp, payload: Bytes) returns (longer: seq<System>)
    requires IsRun(run)
    requires var s := run[|run| - 1];
             p in s.procs && s.procs[p].pc == Working && s.procs[p].dir.Some? && temp !in s.temps
    ensures var q := run[|run| - 1].procs[p];
            Reached(run, longer, p, q.(pc := Published, temp := None, payload := payload),
                    [if q.admitted then Publish(p, q.dir.value, payload) else PublishBusy(p, q.dir.value, payload)])
    ensures var d := run[|run| - 1].procs[p].dir.value;
            d in longer[|longer| - 1].results && longer[|longer| - 1].results[d].data == payload
  {
    var written := WrittenRun(run, p, temp, payload);
    var synced := RunExtends(written, p, Sync);
    longer := RunExtends(synced, p, Replace);
  }

  /** A run that acquires, captures, publishes and releases exists, from every initial state and for every payload. */
  lemma CompleteRun(s: System, p: Pid, lock: Inode, d: Dir, temp: Temp, payload: Bytes) returns (run: seq<System>)
    requires Init(s) && (s.lockPath.Some? ==> lock == s.lockPath.value) && d !in s.dirs && temp !in s.temps
    ensures IsRun(run) && run[0] == s
    ensures run[|run| - 1].log == [Acquire(p), Capture(p), Publish(p, d, payload), Release(p)]
    ensures d in run[|run| - 1].results && run[|run| - 1].results[d].data == payload
  {
    run := CapturingRun(s, p, lock, d);
    run := Publication(run, p, temp, payload);
    run := RunExtends(run, p, Close);
  }

  lemma CapturingRun(s: System, p: Pid, lock: Inode, d: Dir) returns (run: seq<System>)
    requires Init(s) && (s.lockPath.Some? ==> lock == s.lockPath.value) && d !in s.dirs
    ensures IsRun(run) && run[0] == s
    ensures var t := run[|run| - 1];
            && t.log == [Acquire(p), Capture(p)] && t.temps == s.temps
            && p in t.procs && t.procs[p] == Proc(Working, true, Some(lock), Some(d), None, [])
            && t.holder == map[lock := p]
  {
    run := [s];
    run := RunExtends(run, p, Open(lock));
    run := RunExtends(run, p, Lock);
    run := RunExtends(run, p, MakeDir(d));
    run := RunExtends(run, p, StartCapture);
  }

  /** While another process holds the lock, a run that is refused and publishes that it was exists. */
  lemma BusyRun(run: seq<System>, p: Pid, d: Dir, temp: Temp, payload: Bytes) returns (longer: seq<System>)
    requires IsRun(run)
    requires var s := run[|run| - 1];
             Holder(s).Some? && p !in s.procs && d !in s.dirs && temp !in s.temps
    ensures IsRun(longer) && longer[0] == run[0]
    ensures longer[|longer| - 1].log == run[|run| - 1].log + [PublishBusy(p, d, payload)]
    ensures Holder(longer[|longer| - 1]) == Holder(run[|run| - 1])
  {
    longer := RunExtends(run, p, Open(run[|run| - 1].lockPath.value));
    longer := RunExtends(longer, p, Refuse);
    longer := RunExtends(longer, p, MakeDir(d));
    longer := Publication(longer, p, temp, payload);
    longer := RunExtends(longer, p, Close);
  }

  /** Only a process that was given the lock ever captures a candidate; a refused one never does. */
  lemma OnlyAdmittedCapture(run: seq<System>, n: nat, p: Pid)
    requires IsRun(run) && n < |run| && Capture(p) in run[n].log
    ensures p in run[n].procs && run[n].procs[p].admitted
  {
    RunInv(run, n);
    var log := run[n].log;
    var i :| 0 <= i < |log| && log[i] == Capture(p);
    SerialAt(log, i);
    var a := OwnerAcquired(log, p, i);
    assert Acquire(p) in log;
  }

  /** Someone else removes the lock file; no action of a verifier does. */
  function Unlink(s: System): System {
    s.(lockPath := None)
  }

  /** Why the lock file is never unlinked: with its path gone, a second process gets a second lock. */
  lemma UnlinkBreaksExclusion(s: System, p: Pid, q: Pid, i: Inode)
    requires p in s.procs && Critical(s.procs[p]) && q !in s.procs && i !in s.holder
    ensures Enabled(Unlink(s), q, Open(i))
    ensures Enabled(Do(Unlink(s), q, Open(i)), q, Lock)
    ensures var t := Do(Do(Unlink(s), q, Open(i)), q, Lock);
            p != q && p in t.procs && q in t.procs && Critical(t.procs[p]) && Critical(t.procs[q])
  {
    var after := Do(Unlink(s), q, Open(i));
    assert after.procs[p] == s.procs[p] && after.procs[q].fd == Some(i);
  }
}
