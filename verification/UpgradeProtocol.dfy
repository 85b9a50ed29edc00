/**
 * The journalled upgrade as a step machine: any number of upgrade and recovery calls, in any number of processes that
 * share one checkout and one state directory. One step is the code between two awaits.
 */
module UpgradeProtocol {
  import opened JsObject
  import opened UpgradeDocuments

  datatype Phase = Prepared | Committed | RolledBack
  datatype JournalFile = Absent | Unreadable | Entry(phase: Phase, journal: Journal)

  datatype Job = Upgrade(target: string) | Recover

  /** The places where a call reads both source files, package.json first. */
  datatype Point = Initially | Recheck | Confirm

  datatype Pc =
    | CheckJournal | TakeBusy | TakeLock | TakeSource | ReadJournal
    | ReadPackage(at: Point) | ReadLock(at: Point)
    | Stage | RereadJournal
    | WriteJournal | WritePackage | WriteLock | Sync | Activate | Resolve
    | ReleaseSource | ReleaseBusy | ReleaseLock | Done | Dead

  /** The local variables of a call. */
  datatype Call = Call(
    pc: Pc,
    now: Sources,                // the first reading
    again: Sources,              // the latest re-reading
    staged: Option<Staged>,
    journal: Option<Journal>,
    next: Sources)               // what is to be written

  datatype Task = Task(instance: nat, job: Job, call: Call, hasBusy: bool, hasLock: bool, hasSource: bool)

  datatype World = World(
    sources: Sources,
    journal: JournalFile,
    upgradeLock: Option<nat>,    // which call created upgrade.lock
    sourceLock: Option<nat>,
    busy: set<nat>,
    tasks: map<nat, Task>)

  /** What the surroundings decide in one step: an exception, the staged target, and the verdicts of verify and sync. */
  datatype Choice = Choice(throws: bool, staged: Staged, verified: bool, synced: bool)

  datatype Label =
    | Spawn(t: nat, instance: nat, job: Job)
    | Act(t: nat, choice: Choice)
    | Kill(t: nat)               // hard kill: the lock files stay
    | Sweep(t: nat)              // the lock files of an ended call are removed
    | Edit(sources: Sources)     // somebody else writes the source files

  predicate Resolved(f: JournalFile) {
    f.Absent? || (f.Entry? && !f.phase.Prepared?)
  }

  function Ended(call: Call): Call {
    call.(pc := ReleaseSource)
  }

  predicate PackageChanged(call: Call)
    requires call.journal.Some?
  {
    HashesOf(call.now).package != call.journal.value.before.package
  }

  predicate LockChanged(call: Call)
    requires call.journal.Some?
  {
    HashesOf(call.now).lock != call.journal.value.before.lock
  }

  /** The decision an upgrade takes as soon as both files have been read. */
  function UpgraderDecides(target: string, call: Call, at: Point): Call {
    match at
    case Initially => if PinOf(call.now).Some? then call.(pc := Stage) else Ended(call)
    case Recheck =>
      if call.again != call.now || call.staged.None? then Ended(call)
      else
        var plan := PlanUpgrade(call.now, target, call.staged.value);
        if plan.None? then Ended(call)
        else call.(journal := Some(plan.value.journal), next := plan.value.next, pc := WriteJournal)
    case Confirm => if call.again == call.now then call.(pc := WritePackage) else Ended(call)
  }

  /** The same for a recovery: files that match neither hash end it, untouched files need no staging. */
  function RecovererDecides(call: Call, at: Point): Call {
    if at.Initially? then
      if call.journal.None? || !Matches(call.now, call.journal.value) then Ended(call)
      else if !PackageChanged(call) && !LockChanged(call) then call.(next := call.now, pc := ReadPackage(Recheck))
      else call.(pc := Stage)
    else if call.again == call.now then call.(pc := RereadJournal) else Ended(call)
  }

  function RecovererStages(call: Call, staged: Staged): Call {
    if call.journal.None? then Ended(call)
    else
      var restored := PlanRecovery(call.now, call.journal.value, staged);
      if restored.None? then Ended(call) else call.(next := restored.value, pc := ReadPackage(Recheck))
  }

  function RecovererRereads(call: Call, journal: JournalFile): Call {
    if call.journal.None? || journal != Entry(Prepared, call.journal.value) then Ended(call)
    else if PackageChanged(call) then call.(pc := WritePackage)
    else if LockChanged(call) then call.(pc := WriteLock)
    else call.(pc := Resolve)
  }

  function Reading(sources: Sources, call: Call): Call {
    match call.pc
    case ReadPackage(Initially) => call.(now := call.now.(package := sources.package), pc := ReadLock(Initially))
    case ReadPackage(at) => call.(again := call.again.(package := sources.package), pc := ReadLock(at))
    case ReadLock(Initially) => call.(now := call.now.(lock := sources.lock))
    case _ => call.(again := call.again.(lock := sources.lock))
  }

  function Update(w: World, t: nat, task: Task): World {
    w.(tasks := w.tasks[t := task])
  }

  datatype Effect = Effect(sources: Sources, journal: JournalFile, call: Call)

  /** One await-free segment of an upgrade that holds both lock files. */
  function UpgraderSegment(target: string, sources: Sources, journal: JournalFile, call: Call, c: Choice): Effect {
    match call.pc
    case ReadJournal => Effect(sources, journal, if Resolved(journal) then call.(pc := ReadPackage(Initially)) else Ended(call))
    case ReadPackage(_) => Effect(sources, journal, Reading(sources, call))
    case ReadLock(at) => Effect(sources, journal, UpgraderDecides(target, Reading(sources, call), at))
    case Stage => Effect(sources, journal,
      if c.verified && StagedFor(c.staged, target) then call.(staged := Some(c.staged), pc := ReadPackage(Recheck)) else Ended(call))
    case WriteJournal =>
      if call.journal.None? then Effect(sources, journal, Ended(call))
      else Effect(sources, Entry(Prepared, call.journal.value), call.(pc := ReadPackage(Confirm)))
    case WritePackage => Effect(sources.(package := call.next.package), journal, call.(pc := WriteLock))
    case WriteLock => Effect(sources.(lock := call.next.lock), journal, call.(pc := Sync))
    case Sync => Effect(sources, journal, if c.synced then call.(pc := Activate) else Ended(call))
    case Activate => Effect(sources, journal, call.(pc := Resolve))
    case Resolve =>
      if call.journal.None? then Effect(sources, journal, Ended(call))
      else Effect(sources, Entry(Committed, call.journal.value), Ended(call))
    case _ => Effect(sources, journal, call)
  }

  /** The same of a recovery. */
  function RecovererSegment(sources: Sources, journal: JournalFile, call: Call, c: Choice): Effect {
    match call.pc
    case ReadJournal => Effect(sources, journal,
      if journal.Entry? && journal.phase.Prepared? && IsStable(journal.journal.previous)
      then call.(journal := Some(journal.journal), pc := ReadPackage(Initially)) else Ended(call))
    case ReadPackage(_) => Effect(sources, journal, Reading(sources, call))
    case ReadLock(at) => Effect(sources, journal, RecovererDecides(Reading(sources, call), at))
    case Stage => Effect(sources, journal, if c.verified then RecovererStages(call, c.staged) else Ended(call))
    case RereadJournal => Effect(sources, journal, RecovererRereads(call, journal))
    case WritePackage => Effect(sources.(package := call.next.package), journal,
      call.(pc := if call.journal.Some? && LockChanged(call) then WriteLock else Resolve))
    case WriteLock => Effect(sources.(lock := call.next.lock), journal, call.(pc := Resolve))
    case Resolve =>
      if call.journal.None? then Effect(sources, journal, Ended(call))
      else Effect(sources, Entry(RolledBack, call.journal.value), Ended(call))
    case _ => Effect(sources, journal, call)
  }

  predicate Releasing(pc: Pc) {
    (pc.ReleaseSource? || pc.ReleaseBusy? || pc.ReleaseLock? || pc.Done? || pc.Dead?)
  }

  function At(task: Task, pc: Pc): Task {
    task.(call := task.call.(pc := pc))
  }

  function Taking(w: World, t: nat): World
    requires t in w.tasks
  {
    var task := w.tasks[t];
    match task.call.pc
    case CheckJournal =>
      Update(w, t, At(task, if task.job.Upgrade? && IsStable(task.job.target) && Resolved(w.journal) then TakeBusy else ReleaseSource))
    case TakeBusy =>
      if task.instance in w.busy then Update(w, t, At(task, ReleaseSource))
      else Update(w.(busy := w.busy + {task.instance}), t, At(task.(hasBusy := true), TakeLock))
    case TakeLock =>
      if w.upgradeLock.Some? then Update(w, t, At(task, ReleaseSource))
      else Update(w.(upgradeLock := Some(t)), t, At(task.(hasLock := true), TakeSource))
    case TakeSource =>
      if w.sourceLock.Some? then Update(w, t, At(task, ReleaseSource))
      else Update(w.(sourceLock := Some(t)), t, At(task.(hasSource := true), ReadJournal))
    case _ => w
  }

  /** The `finally` block; a removal that fails is ignored and leaves the file. */
  function Finally(w: World, t: nat, fails: bool): World
    requires t in w.tasks
  {
    var task := w.tasks[t];
    match task.call.pc
    case ReleaseSource =>
      if task.hasSource && !fails then Update(w.(sourceLock := None), t, At(task.(hasSource := false), ReleaseBusy))
      else Update(w, t, At(task, ReleaseBusy))
    case ReleaseBusy =>
      Update(if task.hasBusy then w.(busy := w.busy - {task.instance}) else w, t, At(task.(hasBusy := false), ReleaseLock))
    case ReleaseLock =>
      if task.hasLock && !fails then Update(w.(upgradeLock := None), t, At(task.(hasLock := false), Done))
      else Update(w, t, At(task, Done))
    case _ => w
  }

  predicate IsLocking(pc: Pc) {
    Releasing(pc) || pc.CheckJournal? || pc.TakeBusy? || pc.TakeLock? || pc.TakeSource?
  }

  ghost predicate OthersStay(w: World, t: nat, v: World) {
    t in w.tasks && v.tasks.Keys == w.tasks.Keys && forall u :: u in w.tasks && u != t ==> v.tasks[u] == w.tasks[u]
  }

  /** A step at a locking point: no file changes, and the call only moves on. */
  ghost predicate OnlyMoves(w: World, t: nat, v: World) {
    && OthersStay(w, t, v) && v.sources == w.sources && v.journal == w.journal && v.tasks[t].job == w.tasks[t].job
    && v.tasks[t].call == w.tasks[t].call.(pc := v.tasks[t].call.pc)
    && (IsLocking(v.tasks[t].call.pc) || v.tasks[t].call.pc.ReadJournal?)
  }

  lemma UpdateMoves(w: World, base: World, t: nat, task: Task)
    requires t in w.tasks && base == w.(busy := base.busy, upgradeLock := base.upgradeLock, sourceLock := base.sourceLock)
    requires task.job == w.tasks[t].job && task.call == w.tasks[t].call.(pc := task.call.pc) && (IsLocking(task.call.pc) || task.call.pc.ReadJournal?)
    ensures OnlyMoves(w, t, Update(base, t, task))
  {
  }

  lemma TakingOnlyMoves(w: World, t: nat)
    requires t in w.tasks && IsLocking(w.tasks[t].call.pc)
    ensures OnlyMoves(w, t, Taking(w, t))
  {
    var v := Taking(w, t);
    var task := w.tasks[t];
    if task.call.pc.CheckJournal? || task.call.pc.TakeBusy? || task.call.pc.TakeLock? || task.call.pc.TakeSource? {
      UpdateMoves(w, w.(busy := v.busy, upgradeLock := v.upgradeLock, sourceLock := v.sourceLock), t, v.tasks[t]);
    }
  }

  lemma FinallyOnlyMoves(w: World, t: nat, fails: bool)
    requires t in w.tasks && Releasing(w.tasks[t].call.pc)
    ensures OnlyMoves(w, t, Finally(w, t, fails))
  {
    var v := Finally(w, t, fails);
    var task := w.tasks[t];
    if task.call.pc.ReleaseSource? || task.call.pc.ReleaseBusy? || task.call.pc.ReleaseLock? {
      UpdateMoves(w, w.(busy := v.busy, upgradeLock := v.upgradeLock, sourceLock := v.sourceLock), t, v.tasks[t]);
    }
  }

  function Segment(job: Job, sources: Sources, journal: JournalFile, call: Call, c: Choice): Effect {
    match job
    case Upgrade(target) => UpgraderSegment(target, sources, journal, call, c)
    case Recover => RecovererSegment(sources, journal, call, c)
  }

  /** One await-free segment of call `t`. */
  function Next(w: World, t: nat, c: Choice): World
    requires t in w.tasks
  {
    var task := w.tasks[t];
    if Releasing(task.call.pc) then Finally(w, t, c.throws)
    else if c.throws then Update(w, t, At(task, ReleaseSource))
    else if IsLocking(task.call.pc) then Taking(w, t)
    else
      var e := Segment(task.job, w.sources, w.journal, task.call, c);
      Update(w.(sources := e.sources, journal := e.journal), t, task.(call := e.call))
  }

  function Apply(w: World, l: Label): World {
    match l
    case Spawn(t, instance, job) =>
      if t in w.tasks then w
      else
        var call := Call(if job.Upgrade? then CheckJournal else TakeBusy, w.sources, w.sources, None, None, w.sources);
        Update(w, t, Task(instance, job, call, false, false, false))
    case Act(t, c) => if t in w.tasks then Next(w, t, c) else w
    case Kill(t) => if t in w.tasks then Update(w, t, At(w.tasks[t], Dead)) else w
    case Sweep(t) =>
      if t in w.tasks && (w.tasks[t].call.pc.Done? || w.tasks[t].call.pc.Dead?) then
        Update(w.(upgradeLock := if w.upgradeLock == Some(t) then None else w.upgradeLock,
                  sourceLock := if w.sourceLock == Some(t) then None else w.sourceLock), t,
               w.tasks[t].(hasLock := false, hasSource := false))
      else w
    case Edit(s) => w.(sources := s)
  }

  function Run(w: World, labels: seq<Label>): World
    decreases |labels|
  {
    if labels == [] then w else Run(Apply(w, labels[0]), labels[1..])
  }

  // ----- with no outside edits -----

  function Before(j: Journal): Sources {
    Sources(j.before.package.preimage, j.before.lock.preimage)
  }

  /** The closure re-staged for a recovery is contained in the lock file, and its root entry is the old one. */
  ghost predicate Faithful(staged: Staged, j: Journal, now: Sources) {
    && !now.lock.Broken? && Restaged(staged, j, now.lock.doc.packages)
    && !Before(j).lock.Broken? && Get(staged.packages, Root) == Get(Before(j).lock.doc.packages, Root)
  }

  ghost predicate FaithfulChoice(job: Job, call: Call, c: Choice) {
    job.Recover? && call.pc.Stage? && call.journal.Some? ==> Faithful(c.staged, call.journal.value, call.now)
  }

  ghost predicate Closed(w: World, l: Label) {
    !l.Edit? && (l.Act? && l.t in w.tasks ==> FaithfulChoice(w.tasks[l.t].job, w.tasks[l.t].call, l.choice))
  }

  ghost predicate ClosedRun(w: World, labels: seq<Label>)
    decreases |labels|
  {
    labels != [] ==> Closed(w, labels[0]) && ClosedRun(Apply(w, labels[0]), labels[1..])
  }

  predicate IsPrinted(s: Sources) {
    s.package.Printed? && s.lock.Printed?
  }

  ghost predicate Whole(j: Journal) {
    PreparedFrom(j, Before(j)) && IsPrinted(Before(j)) && IsStable(j.previous)
  }

  /** A call that does not hold upgrade.lock is at one of these points. */
  predicate Outside(pc: Pc) {
    Releasing(pc) || (pc.CheckJournal? || pc.TakeBusy? || pc.TakeLock?)
  }

  ghost predicate TaskOk(w: World, t: nat)
    requires t in w.tasks
  {
    var task := w.tasks[t];
    && (task.hasLock <==> w.upgradeLock == Some(t))
    && (task.hasSource <==> w.sourceLock == Some(t))
    && (!task.hasLock ==> Outside(task.call.pc))
  }

  ghost predicate LocksOk(w: World) {
    && (w.upgradeLock.Some? ==> w.upgradeLock.value in w.tasks)
    && (w.sourceLock.Some? ==> w.sourceLock.value in w.tasks)
    && forall t :: t in w.tasks ==> TaskOk(w, t)
  }

  ghost predicate JournalOk(s: Sources, f: JournalFile) {
    IsPrinted(s) && (f.Entry? && f.phase.Prepared? ==> Whole(f.journal) && Matches(s, f.journal))
  }

  ghost predicate Planned(call: Call) {
    && call.journal.Some?
    && PreparedFrom(call.journal.value, call.now) && IsStable(call.journal.value.previous)
    && call.journal.value.before == HashesOf(call.now)
    && call.journal.value.after == HashesOf(call.next) && IsPrinted(call.next)
  }

  ghost predicate UpgraderOk(s: Sources, f: JournalFile, call: Call) {
    match call.pc
    case ReadPackage(Initially) => Resolved(f)
    case ReadLock(Initially) => Resolved(f) && call.now.package == s.package
    case Stage => Resolved(f) && call.now == s
    case ReadPackage(Recheck) => Resolved(f) && call.now == s
    case ReadLock(Recheck) => Resolved(f) && call.now == s
    case WriteJournal => Resolved(f) && call.now == s && Planned(call)
    case ReadPackage(Confirm) => Planned(call) && f == Entry(Prepared, call.journal.value) && call.now == s
    case ReadLock(Confirm) => Planned(call) && f == Entry(Prepared, call.journal.value) && call.now == s
    case WritePackage => Planned(call) && f == Entry(Prepared, call.journal.value) && call.now == s
    case WriteLock => Planned(call) && f == Entry(Prepared, call.journal.value) && s == Sources(call.next.package, call.now.lock)
    case Sync => Planned(call) && f == Entry(Prepared, call.journal.value) && s == call.next
    case Activate => Planned(call) && f == Entry(Prepared, call.journal.value) && s == call.next
    case Resolve => Planned(call) && f == Entry(Prepared, call.journal.value) && s == call.next
    case RereadJournal => false
    case _ => true
  }

  ghost predicate RecovererOk(s: Sources, f: JournalFile, call: Call) {
    IsLocking(call.pc) || call.pc.ReadJournal? || (
      && call.journal.Some? && f == Entry(Prepared, call.journal.value)
      && var j := call.journal.value;
      match call.pc
      case ReadPackage(Initially) => true
      case ReadLock(Initially) => call.now.package == s.package
      case Stage => call.now == s
      case ReadPackage(Recheck) => call.now == s && call.next == Before(j)
      case ReadLock(Recheck) => call.now == s && call.next == Before(j) && call.again.package == s.package
      case RereadJournal => call.now == s && call.next == Before(j)
      case WritePackage => call.now == s && call.next == Before(j)
      case WriteLock => call.now.lock == s.lock && call.next == Before(j) && s.package == Before(j).package
      case Resolve => s == Before(j)
      case _ => false)
  }

  ghost predicate HolderOk(job: Job, s: Sources, f: JournalFile, call: Call) {
    if job.Upgrade? then UpgraderOk(s, f, call) else RecovererOk(s, f, call)
  }

  ghost predicate Inv(w: World) {
    && LocksOk(w) && JournalOk(w.sources, w.journal)
    && (w.upgradeLock.Some? ==>
      var h := w.tasks[w.upgradeLock.value];
      HolderOk(h.job, w.sources, w.journal, h.call))
  }

  predicate Initial(w: World) {
    IsPrinted(w.sources) && Resolved(w.journal) && w.upgradeLock.None? && w.sourceLock.None? && w.tasks == map[]
  }

  /** What a step says whenever it changes the journal. */
  predicate JournalStep(earlier: JournalFile, s: Sources, f: JournalFile) {
    f != earlier ==> f.Entry? && match f.phase
      case Prepared => Resolved(earlier) && f.journal.before == HashesOf(s)
      case Committed => f.journal.after == HashesOf(s)
      case RolledBack => f.journal.before == HashesOf(s)
  }

  ghost predicate EffectOk(job: Job, f: JournalFile, e: Effect) {
    JournalOk(e.sources, e.journal) && HolderOk(job, e.sources, e.journal, e.call) && JournalStep(f, e.sources, e.journal)
  }

  lemma UpgraderReads(job: Job, s: Sources, f: JournalFile, call: Call, c: Choice)
    requires JournalOk(s, f) && job.Upgrade? && UpgraderOk(s, f, call)
    requires call.pc.ReadJournal? || call.pc.ReadPackage? || call.pc.Stage? || call.pc.Sync? || call.pc.Activate?
    ensures EffectOk(job, f, UpgraderSegment(job.target, s, f, call, c))
  {
  }

  lemma UpgraderDecidesOk(job: Job, s: Sources, f: JournalFile, call: Call, c: Choice)
    requires JournalOk(s, f) && job.Upgrade? && UpgraderOk(s, f, call) && call.pc.ReadLock?
    ensures EffectOk(job, f, UpgraderSegment(job.target, s, f, call, c))
  {
    var call' := Reading(s, call);
    if call.pc.at.Recheck? && call'.staged.Some? && call'.again == s {
      var plan := PlanUpgrade(s, job.target, call'.staged.value);
      if plan.Some? { assert PreparedFrom(plan.value.journal, s); }
    }
  }

  lemma UpgraderWrites(job: Job, s: Sources, f: JournalFile, call: Call, c: Choice)
    requires JournalOk(s, f) && job.Upgrade? && UpgraderOk(s, f, call)
    requires call.pc.WriteJournal? || call.pc.WritePackage? || call.pc.WriteLock? || call.pc.Resolve?
    ensures EffectOk(job, f, UpgraderSegment(job.target, s, f, call, c))
  {
    if call.pc.WriteJournal? { assert Before(call.journal.value) == s; }
  }

  /** A faithful re-staging plans exactly the files before the upgrade. */
  lemma StagedGivesBefore(s: Sources, j: Journal, staged: Staged)
    requires JournalOk(s, Entry(Prepared, j)) && Faithful(staged, j, s)
    ensures PlanRecovery(s, j, staged) == Some(Before(j))
  {
    RecoveryIsInverse(Before(j), j, s, staged);
  }

  lemma RecovererReads(s: Sources, f: JournalFile, call: Call, c: Choice)
    requires JournalOk(s, f) && RecovererOk(s, f, call) && FaithfulChoice(Recover, call, c)
    requires !IsLocking(call.pc) && !call.pc.WritePackage? && !call.pc.WriteLock? && !call.pc.Resolve?
    ensures EffectOk(Recover, f, RecovererSegment(s, f, call, c))
  {
    if call.pc.Stage? {
      if c.verified {
        StagedGivesBefore(s, call.journal.value, c.staged);
        StagesBefore(s, f, call.journal.value, call, c);
      }
    } else {
      RecovererLooks(s, f, call, c);
    }
  }

  /** A stage that plans the files before the upgrade goes on to write them. */
  lemma StagesBefore(s: Sources, f: JournalFile, j: Journal, call: Call, c: Choice)
    requires call.pc.Stage? && call.now == s && call.journal == Some(j) && c.verified
    requires PlanRecovery(s, j, c.staged) == Some(Before(j))
    ensures RecovererSegment(s, f, call, c) == Effect(s, f, call.(next := Before(j), pc := ReadPackage(Recheck)))
  {
  }

  lemma RecovererLooks(s: Sources, f: JournalFile, call: Call, c: Choice)
    requires JournalOk(s, f) && RecovererOk(s, f, call)
    requires call.pc.ReadJournal? || call.pc.ReadPackage? || call.pc.ReadLock? || call.pc.RereadJournal? || call.pc.WriteJournal? || call.pc.Sync? || call.pc.Activate?
    ensures EffectOk(Recover, f, RecovererSegment(s, f, call, c))
  {
  }

  lemma RecovererWrites(s: Sources, f: JournalFile, call: Call, c: Choice)
    requires JournalOk(s, f) && RecovererOk(s, f, call)
    requires call.pc.WritePackage? || call.pc.WriteLock? || call.pc.Resolve?
    ensures EffectOk(Recover, f, RecovererSegment(s, f, call, c))
  {
  }

  lemma SegmentOk(job: Job, s: Sources, f: JournalFile, call: Call, c: Choice)
    requires JournalOk(s, f) && HolderOk(job, s, f, call) && !IsLocking(call.pc) && FaithfulChoice(job, call, c)
    ensures EffectOk(job, f, Segment(job, s, f, call, c))
  {
    if job.Upgrade? {
      match call.pc
      case ReadLock(_) => UpgraderDecidesOk(job, s, f, call, c);
      case ReadJournal | ReadPackage(_) | Stage | Sync | Activate => UpgraderReads(job, s, f, call, c);
      case _ => UpgraderWrites(job, s, f, call, c);
    } else {
      match call.pc
      case WritePackage | WriteLock | Resolve => RecovererWrites(s, f, call, c);
      case _ => RecovererReads(s, f, call, c);
    }
  }

  /** One call changes: it takes or gives up a lock file together with its own flag, or moves on. */
  ghost predicate LocksMove(w: World, t: nat, v: World) {
    && t in w.tasks && v.tasks.Keys == w.tasks.Keys && TaskOk(v, t)
    && (forall u :: u in w.tasks && u != t ==> v.tasks[u] == w.tasks[u])
    && (v.upgradeLock == w.upgradeLock || (w.upgradeLock.None? && v.upgradeLock == Some(t)) || (w.upgradeLock == Some(t) && v.upgradeLock.None?))
    && (v.sourceLock == w.sourceLock || (w.sourceLock.None? && v.sourceLock == Some(t)) || (w.sourceLock == Some(t) && v.sourceLock.None?))
  }

  lemma LocksMoveOk(w: World, t: nat, v: World)
    requires LocksOk(w) && LocksMove(w, t, v)
    ensures LocksOk(v)
  {
    forall u | u in v.tasks ensures TaskOk(v, u) { assert TaskOk(w, u); }
  }

  lemma TakingMoves(w: World, t: nat)
    requires t in w.tasks && TaskOk(w, t) && IsLocking(w.tasks[t].call.pc) && !Releasing(w.tasks[t].call.pc)
    ensures LocksMove(w, t, Taking(w, t))
  {
  }

  lemma FinallyMoves(w: World, t: nat, fails: bool)
    requires t in w.tasks && TaskOk(w, t) && Releasing(w.tasks[t].call.pc)
    ensures LocksMove(w, t, Finally(w, t, fails))
  {
  }

  /** A call at a locking point owes nothing to the files. */
  lemma LockingOk(job: Job, s: Sources, f: JournalFile, call: Call)
    requires IsLocking(call.pc) || call.pc.ReadJournal?
    ensures HolderOk(job, s, f, call)
  {
  }

  lemma MovedKeeps(w: World, t: nat, v: World)
    requires Inv(w) && LocksMove(w, t, v) && OnlyMoves(w, t, v)
    ensures Inv(v)
  {
    LocksMoveOk(w, t, v);
    LockingOk(v.tasks[t].job, v.sources, v.journal, v.tasks[t].call);
  }

  lemma TakingOk(w: World, t: nat)
    requires Inv(w) && t in w.tasks && IsLocking(w.tasks[t].call.pc) && !Releasing(w.tasks[t].call.pc)
    ensures Inv(Taking(w, t))
  {
    var v := Taking(w, t);
    assert TaskOk(w, t);
    TakingMoves(w, t);
    TakingOnlyMoves(w, t);
    MovedKeeps(w, t, v);
  }

  lemma FinallyOk(w: World, t: nat, fails: bool)
    requires Inv(w) && t in w.tasks && Releasing(w.tasks[t].call.pc)
    ensures Inv(Finally(w, t, fails))
  {
    var v := Finally(w, t, fails);
    assert TaskOk(w, t);
    FinallyMoves(w, t, fails);
    FinallyOnlyMoves(w, t, fails);
    MovedKeeps(w, t, v);
  }

  /** A change of one call's local variables keeps the lock discipline. */
  lemma UpdateKeepsLocks(w: World, t: nat, call: Call, s: Sources, f: JournalFile)
    requires LocksOk(w) && t in w.tasks && (!w.tasks[t].hasLock ==> Outside(call.pc))
    ensures LocksOk(Update(w.(sources := s, journal := f), t, w.tasks[t].(call := call)))
  {
    var w' := Update(w.(sources := s, journal := f), t, w.tasks[t].(call := call));
    forall u | u in w'.tasks ensures TaskOk(w', u) {
      assert u in w.tasks && TaskOk(w, u);
    }
  }

  lemma ActKeeps(w: World, t: nat, c: Choice)
    requires Inv(w) && t in w.tasks && Closed(w, Act(t, c))
    ensures Inv(Next(w, t, c)) && JournalStep(w.journal, Next(w, t, c).sources, Next(w, t, c).journal)
  {
    var task := w.tasks[t];
    assert TaskOk(w, t);
    if Releasing(task.call.pc) {
      FinallyOk(w, t, c.throws);
    } else if c.throws {
      UpdateKeepsLocks(w, t, Ended(task.call), w.sources, w.journal);
    } else if IsLocking(task.call.pc) {
      TakingOk(w, t);
    } else {
      var e := Segment(task.job, w.sources, w.journal, task.call, c);
      SegmentOk(task.job, w.sources, w.journal, task.call, c);
      UpdateKeepsLocks(w, t, e.call, e.sources, e.journal);
    }
  }

  /** Every step without outside edits keeps the invariant and changes the journal only in the permitted ways. */
  lemma StepKeeps(w: World, l: Label)
    requires Inv(w) && Closed(w, l)
    ensures Inv(Apply(w, l)) && JournalStep(w.journal, Apply(w, l).sources, Apply(w, l).journal)
  {
    if l.Act? {
      if l.t in w.tasks { ActKeeps(w, l.t, l.choice); }
    } else {
      OtherStepsKeep(w, l);
    }
  }

  /** Starting, killing and sweeping calls changes neither file nor journal. */
  lemma OtherStepsKeep(w: World, l: Label)
    requires Inv(w) && !l.Act? && !l.Edit?
    ensures Inv(Apply(w, l)) && Apply(w, l).sources == w.sources && Apply(w, l).journal == w.journal
  {
    var v := Apply(w, l);
    if l.Sweep? && l.t in w.tasks {
      assert TaskOk(w, l.t);
      forall u | u in v.tasks ensures TaskOk(v, u) { assert TaskOk(w, u); }
    } else {
      forall u | u in v.tasks ensures TaskOk(v, u) { if u in w.tasks { assert TaskOk(w, u); } }
    }
    if w.upgradeLock.Some? { assert TaskOk(w, w.upgradeLock.value); }
  }

  lemma {:induction false} RunKeeps(w: World, labels: seq<Label>)
    requires Inv(w) && ClosedRun(w, labels)
    ensures Inv(Run(w, labels))
    decreases |labels|
  {
    if labels != [] {
      StepKeeps(w, labels[0]);
      RunKeeps(Apply(w, labels[0]), labels[1..]);
    }
  }

  /**
   * From a printed checkout with a resolved journal, after any interleaving of upgrades, recoveries, exceptions, kills
   * and swept locks: under a prepared journal each source file has its before- or its after-hash.
   */
  lemma PreparedMeansBeforeOrAfter(w: World, labels: seq<Label>)
    requires Initial(w) && ClosedRun(w, labels)
    ensures var v := Run(w, labels);
      && (v.journal.Entry? && v.journal.phase.Prepared? ==>
        && HashesOf(v.sources).package in {v.journal.journal.before.package, v.journal.journal.after.package}
        && HashesOf(v.sources).lock in {v.journal.journal.before.lock, v.journal.journal.after.lock})
      && forall t, u :: t in v.tasks && u in v.tasks && v.tasks[t].hasLock && v.tasks[u].hasLock ==> t == u
  {
    RunKeeps(w, labels);
    var v := Run(w, labels);
    forall t, u | t in v.tasks && u in v.tasks && v.tasks[t].hasLock && v.tasks[u].hasLock ensures t == u {
      assert TaskOk(v, t) && TaskOk(v, u);
    }
  }

  /**
   * The journal discipline of whole runs: a step that changes the journal prepares over a resolved journal and the before
   * files, commits over the after files, or rolls back over the before files.
   */
  lemma JournalIsDisciplined(w: World, labels: seq<Label>, l: Label)
    requires Initial(w) && ClosedRun(w, labels) && Closed(Run(w, labels), l)
    ensures var v := Run(w, labels);
      JournalStep(v.journal, Apply(v, l).sources, Apply(v, l).journal)
  {
    RunKeeps(w, labels);
    StepKeeps(Run(w, labels), l);
  }

  // ----- recovery always gets there -----

  function Repeat(w: World, t: nat, c: Choice, n: nat): World
    decreases n
  {
    if n == 0 then w else Repeat(Apply(w, Act(t, c)), t, c, n - 1)
  }

  function Rank(pc: Pc): nat {
    match pc
    case TakeBusy => 17
    case TakeLock => 16
    case TakeSource => 15
    case ReadJournal => 14
    case ReadPackage(at) => if at.Initially? then 13 else 10
    case ReadLock(at) => if at.Initially? then 12 else 9
    case Stage => 11
    case RereadJournal => 8
    case WritePackage => 7
    case WriteLock => 6
    case Resolve => 5
    case ReleaseSource => 4
    case ReleaseBusy => 3
    case ReleaseLock => 2
    case _ => 1
  }

  /** Recovery `t` is alone on its way to rolling journal `j` back. */
  ghost predicate Driving(w: World, t: nat, instance: nat, j: Journal) {
    && t in w.tasks && w.tasks[t].job.Recover? && w.tasks[t].instance == instance
    && var task := w.tasks[t];
    && (task.call.pc.TakeBusy? || task.call.pc.ReleaseLock? || task.call.pc.Done? || task.hasBusy)
    && (task.call.pc.ReleaseLock? || task.call.pc.Done? ==> instance !in w.busy)
    && match task.call.pc
    case TakeBusy => instance !in w.busy && w.upgradeLock.None? && w.sourceLock.None? && w.journal == Entry(Prepared, j)
    case TakeLock => w.upgradeLock.None? && w.sourceLock.None? && w.journal == Entry(Prepared, j)
    case TakeSource => w.upgradeLock == Some(t) && w.sourceLock.None? && w.journal == Entry(Prepared, j)
    case ReleaseSource => w.upgradeLock == Some(t) && w.sourceLock == Some(t) && w.sources == Before(j) && w.journal == Entry(RolledBack, j)
    case ReleaseBusy => w.upgradeLock == Some(t) && w.sourceLock.None? && w.sources == Before(j) && w.journal == Entry(RolledBack, j)
    case ReleaseLock => w.upgradeLock == Some(t) && w.sourceLock.None? && w.sources == Before(j) && w.journal == Entry(RolledBack, j)
    case Done => w.upgradeLock.None? && w.sourceLock.None? && w.sources == Before(j) && w.journal == Entry(RolledBack, j)
    case CheckJournal => false
    case Dead => false
    case _ => w.upgradeLock == Some(t) && w.sourceLock == Some(t) && w.journal == Entry(Prepared, j)
  }

  /** Nothing throws, verification passes, and whatever is staged is the old closure with the old root entry. */
  ghost predicate Cooperative(w: World, t: nat, j: Journal, c: Choice)
    requires t in w.tasks
  {
    !c.throws && c.verified && (Rank(w.tasks[t].call.pc) >= Rank(Stage) ==> Faithful(c.staged, j, w.sources))
  }

  /** The recovery moves on: it keeps the prepared journal, or it has just rolled it back over the old files. */
  ghost predicate Advances(j: Journal, s: Sources, call: Call, e: Effect) {
    && Rank(e.call.pc) < Rank(call.pc) && (Rank(e.call.pc) >= Rank(Stage) ==> e.sources == s)
    && if e.call.pc.ReleaseSource? then e.sources == Before(j) && e.journal == Entry(RolledBack, j)
       else !IsLocking(e.call.pc) && e.journal == Entry(Prepared, j)
  }

  lemma DrivingReads(s: Sources, j: Journal, call: Call, c: Choice)
    requires IsStable(j.previous) && RecovererOk(s, Entry(Prepared, j), call)
    requires call.pc.ReadJournal? || call.pc.ReadPackage? || call.pc.RereadJournal?
    ensures Advances(j, s, call, RecovererSegment(s, Entry(Prepared, j), call, c))
  {
  }

  lemma DrivingDecides(s: Sources, j: Journal, call: Call, c: Choice)
    requires Matches(s, j) && RecovererOk(s, Entry(Prepared, j), call) && call.pc.ReadLock?
    ensures Advances(j, s, call, RecovererSegment(s, Entry(Prepared, j), call, c))
  {
  }

  lemma StageAdvances(s: Sources, j: Journal, call: Call, c: Choice)
    requires call.pc.Stage? && call.now == s && call.journal == Some(j) && c.verified
    requires PlanRecovery(s, j, c.staged) == Some(Before(j))
    ensures Advances(j, s, call, RecovererSegment(s, Entry(Prepared, j), call, c))
  {
    StagesBefore(s, Entry(Prepared, j), j, call, c);
  }

  lemma DrivingWrites(s: Sources, j: Journal, call: Call, c: Choice)
    requires RecovererOk(s, Entry(Prepared, j), call)
    requires call.pc.WritePackage? || call.pc.WriteLock? || call.pc.Resolve?
    ensures Advances(j, s, call, RecovererSegment(s, Entry(Prepared, j), call, c))
  {
  }

  lemma DrivingSegment(w: World, t: nat, instance: nat, j: Journal, c: Choice)
    requires Inv(w) && Driving(w, t, instance, j) && Cooperative(w, t, j, c) && !IsLocking(w.tasks[t].call.pc)
    ensures Advances(j, w.sources, w.tasks[t].call, RecovererSegment(w.sources, w.journal, w.tasks[t].call, c))
  {
    var call := w.tasks[t].call;
    if call.pc.WritePackage? || call.pc.WriteLock? || call.pc.Resolve? {
      DrivingWrites(w.sources, j, call, c);
    } else if call.pc.Stage? {
      StagedGivesBefore(w.sources, j, c.staged);
      StageAdvances(w.sources, j, call, c);
    } else if call.pc.ReadLock? {
      DrivingDecides(w.sources, j, call, c);
    } else {
      DrivingReads(w.sources, j, call, c);
    }
  }

  ghost predicate DrivenOn(w: World, t: nat, instance: nat, j: Journal, c: Choice, v: World)
    requires t in w.tasks
  {
    Driving(v, t, instance, j) && Cooperative(v, t, j, c) && (!w.tasks[t].call.pc.Done? ==> Rank(v.tasks[t].call.pc) < Rank(w.tasks[t].call.pc))
  }

  lemma DrivingTakes(w: World, t: nat, instance: nat, j: Journal, c: Choice)
    requires LocksOk(w) && Driving(w, t, instance, j) && Cooperative(w, t, j, c)
    requires IsLocking(w.tasks[t].call.pc) && !Releasing(w.tasks[t].call.pc)
    ensures DrivenOn(w, t, instance, j, c, Taking(w, t))
  {
  }

  lemma DrivingReleases(w: World, t: nat, instance: nat, j: Journal, c: Choice)
    requires LocksOk(w) && Driving(w, t, instance, j) && Cooperative(w, t, j, c) && Releasing(w.tasks[t].call.pc)
    ensures DrivenOn(w, t, instance, j, c, Finally(w, t, false))
  {
    assert TaskOk(w, t);
  }

  lemma DrivingStep(w: World, t: nat, instance: nat, j: Journal, c: Choice)
    requires Inv(w) && Driving(w, t, instance, j) && Cooperative(w, t, j, c)
    ensures DrivenOn(w, t, instance, j, c, Apply(w, Act(t, c)))
  {
    if Releasing(w.tasks[t].call.pc) { DrivingReleases(w, t, instance, j, c); }
    else if IsLocking(w.tasks[t].call.pc) { DrivingTakes(w, t, instance, j, c); }
    else {
      assert TaskOk(w, t);
      DrivingSegment(w, t, instance, j, c);
    }
  }

  lemma DrivingIsClosed(w: World, t: nat, instance: nat, j: Journal, c: Choice)
    requires Inv(w) && Driving(w, t, instance, j) && Cooperative(w, t, j, c)
    ensures Inv(Apply(w, Act(t, c)))
  {
    assert TaskOk(w, t);
    StepKeeps(w, Act(t, c));
  }

  ghost predicate Home(w: World, instance: nat, j: Journal) {
    w.sources == Before(j) && w.journal == Entry(RolledBack, j) && w.upgradeLock.None? && w.sourceLock.None? && instance !in w.busy
  }

  lemma DoneIsHome(w: World, t: nat, instance: nat, j: Journal)
    requires Inv(w) && Driving(w, t, instance, j) && Rank(w.tasks[t].call.pc) <= 1
    ensures Home(w, instance, j)
  {
    assert TaskOk(w, t);
  }

  lemma {:induction false} DrivesHome(w: World, t: nat, instance: nat, j: Journal, c: Choice, n: nat)
    requires Inv(w) && Driving(w, t, instance, j) && Cooperative(w, t, j, c) && n >= Rank(w.tasks[t].call.pc) - 1
    ensures Home(Repeat(w, t, c, n), instance, j)
    decreases n
  {
    if n == 0 {
      DoneIsHome(w, t, instance, j);
    } else {
      DrivingStep(w, t, instance, j, c);
      DrivingIsClosed(w, t, instance, j, c);
      DrivesHome(Apply(w, Act(t, c)), t, instance, j, c, n - 1);
    }
  }

  /**
   * However an upgrade or an earlier recovery was interrupted: once the locks it left are removed, one recovery call
   * brings back both files byte for byte, resolves the journal and releases every lock.
   */
  lemma RecoveryUndoesEveryInterruption(w: World, labels: seq<Label>, t: nat, instance: nat, c: Choice)
    requires Initial(w) && ClosedRun(w, labels)
    requires var v := Run(w, labels);
      && v.journal.Entry? && v.journal.phase.Prepared? && v.upgradeLock.None? && v.sourceLock.None?
      && t !in v.tasks && instance !in v.busy
      && !c.throws && c.verified && Faithful(c.staged, v.journal.journal, v.sources)
    ensures var v := Run(w, labels);
      var u := Repeat(Apply(v, Spawn(t, instance, Recover)), t, c, 16);
      && HashesOf(u.sources) == v.journal.journal.before && u.journal == Entry(RolledBack, v.journal.journal)
      && u.upgradeLock.None? && u.sourceLock.None? && instance !in u.busy
  {
    RunKeeps(w, labels);
    var v := Run(w, labels);
    StepKeeps(v, Spawn(t, instance, Recover));
    DrivesHome(Apply(v, Spawn(t, instance, Recover)), t, instance, v.journal.journal, c, 16);
  }

  // ----- when the re-staged closure is faithful -----

  /** The objects involved have each key once, and the old root entry's properties come first in the present one. */
  ghost predicate WellKeyed(j: Journal, now: Sources, install: Packages) {
    && !now.lock.Broken? && WellFormed(now.lock.doc.packages) && !Before(j).lock.Broken?
    && Get(now.lock.doc.packages, Root).Some? && Get(now.lock.doc.packages, Workspace).Some?
    && Get(Before(j).lock.doc.packages, Root).Some? && Get(install, Root).Some?
    && DistinctKeys(Get(now.lock.doc.packages, Root).value) && DistinctKeys(Get(Before(j).lock.doc.packages, Root).value)
    && DistinctKeys(Get(install, Root).value)
  }

  /** Under a prepared journal the present root entry is the old one, or the old one extended by the upgrade. */
  lemma RootExtends(j: Journal, now: Sources)
    requires PreparedFrom(j, Before(j)) && Matches(now, j) && !now.lock.Broken?
    ensures var o := Before(j).lock.doc.packages;
      && Get(o, Root).Some? && Get(now.lock.doc.packages, Root).Some?
      && LeadingKeys(Get(o, Root).value, Get(now.lock.doc.packages, Root).value)
  {
    var stagedRoot, ext := UpgradeShape(j, Before(j));
    var o := Before(j).lock.doc.packages;
    if now.lock != Before(j).lock {
      var r := Spread(Get(o, Root).value, stagedRoot);
      var w := SetWorkspace(o, j.target);
      GetPut(w, Root, r, Root);
      PutOverAppend(Put(w, Root, r), ext, Root, r);
      SpreadLeads(Get(o, Root).value, stagedRoot);
    }
  }

  /**
   * What the staging step provides is what the byte-for-byte results ask for, exactly when the root entry in the lock file
   * has no property the old entry lacks, and the old release installs to the old properties from the old tarball.
   */
  lemma FaithfulExactly(j: Journal, now: Sources, integrity: string, tarball: string, install: Packages)
    requires PreparedFrom(j, Before(j)) && Matches(now, j) && WellKeyed(j, now, install)
    requires Contained(install, now.lock.doc.packages) && integrity != ""
    ensures var staged := StageTarget(now.lock.doc.packages, j.previous, integrity, tarball, install);
      staged.Some? ==>
        (Faithful(staged.value, j, now) <==>
          BringsBack(Get(Before(j).lock.doc.packages, Root).value, Get(now.lock.doc.packages, Root).value, Get(install, Root).value, tarball))
  {
    var q := now.lock.doc.packages;
    var staged := StageTarget(q, j.previous, integrity, tarball, install);
    if staged.Some? {
      RootExtends(j, now);
      StagingIsRestaged(q, j, integrity, tarball, install);
      StagedRootIs(q, j.previous, integrity, tarball, install);
      OldRootComesBackExactly(Get(Before(j).lock.doc.packages, Root).value, Get(q, Root).value, Get(install, Root).value, tarball);
    }
  }

  // ----- with outside edits at every await -----

  ghost predicate Guarded(job: Job, call: Call) {
    && (call.pc.WritePackage? || call.pc.WriteLock? ==> call.again == call.now)
    && (job.Recover? && (call.pc.RereadJournal? || call.pc.Resolve?) ==> call.again == call.now)
    && (job.Recover? && !IsLocking(call.pc) && !call.pc.ReadJournal? && call.pc != ReadPackage(Initially) && call.pc != ReadLock(Initially) ==>
      call.journal.Some? && Matches(call.now, call.journal.value))
    && (job.Upgrade? ==> !call.pc.RereadJournal?)
  }

  ghost predicate AllGuarded(w: World) {
    forall t :: t in w.tasks ==> Guarded(w.tasks[t].job, w.tasks[t].call)
  }

  lemma UpgraderGuarded(target: string, s: Sources, f: JournalFile, call: Call, c: Choice)
    requires Guarded(Upgrade(target), call) && !IsLocking(call.pc)
    ensures Guarded(Upgrade(target), UpgraderSegment(target, s, f, call, c).call)
  {
    match call.pc
    case ReadLock(_) =>
    case _ =>
  }

  lemma RecovererGuarded(s: Sources, f: JournalFile, call: Call, c: Choice)
    requires Guarded(Recover, call) && !IsLocking(call.pc)
    ensures Guarded(Recover, RecovererSegment(s, f, call, c).call)
  {
    match call.pc
    case ReadLock(_) =>
    case Stage =>
    case _ =>
  }

  lemma SegmentGuarded(job: Job, s: Sources, f: JournalFile, call: Call, c: Choice)
    requires Guarded(job, call) && !IsLocking(call.pc)
    ensures Guarded(job, Segment(job, s, f, call, c).call)
  {
    match job
    case Upgrade(target) => UpgraderGuarded(target, s, f, call, c);
    case Recover => RecovererGuarded(s, f, call, c);
  }

  ghost predicate GuardedAfter(w: World, t: nat, v: World) {
    && t in w.tasks && v.tasks.Keys == w.tasks.Keys && Guarded(v.tasks[t].job, v.tasks[t].call)
    && forall u :: u in w.tasks && u != t ==> v.tasks[u] == w.tasks[u]
  }

  lemma MovedIsGuarded(w: World, t: nat, v: World)
    requires OnlyMoves(w, t, v) && Guarded(w.tasks[t].job, w.tasks[t].call)
    ensures GuardedAfter(w, t, v)
  {
  }

  lemma ActGuarded(w: World, t: nat, c: Choice)
    requires t in w.tasks && Guarded(w.tasks[t].job, w.tasks[t].call)
    ensures GuardedAfter(w, t, Next(w, t, c))
  {
    if Releasing(w.tasks[t].call.pc) {
      FinallyOnlyMoves(w, t, c.throws);
      MovedIsGuarded(w, t, Finally(w, t, c.throws));
    } else if !c.throws && IsLocking(w.tasks[t].call.pc) {
      TakingOnlyMoves(w, t);
      MovedIsGuarded(w, t, Taking(w, t));
    } else if !c.throws {
      SegmentGuarded(w.tasks[t].job, w.sources, w.journal, w.tasks[t].call, c);
    }
  }

  lemma StepGuarded(w: World, l: Label)
    requires AllGuarded(w)
    ensures AllGuarded(Apply(w, l))
  {
    if l.Act? {
      if l.t in w.tasks { ActGuarded(w, l.t, l.choice); }
    }
  }

  lemma {:induction false} RunGuarded(w: World, labels: seq<Label>)
    requires AllGuarded(w)
    ensures AllGuarded(Run(w, labels))
    decreases |labels|
  {
    if labels != [] {
      StepGuarded(w, labels[0]);
      RunGuarded(Apply(w, labels[0]), labels[1..]);
    }
  }

  /**
   * In any run, outside edits included: a step of ours changes the source files only when the files it read twice were
   * the same both times, and a recovery writes anything at all only if each file it read had the journal's before- or
   * after-hash.
   */
  lemma WritesFollowAgreeingReadings(w: World, labels: seq<Label>, l: Label)
    requires w.tasks == map[] && !l.Edit?
    ensures var v := Run(w, labels);
      var after := Apply(v, l);
      after.sources != v.sources || (after.journal != v.journal && l.Act? && l.t in v.tasks && v.tasks[l.t].job.Recover?) ==>
        && l.Act? && l.t in v.tasks
        && var call := v.tasks[l.t].call;
        && call.again == call.now
        && (v.tasks[l.t].job.Recover? ==> call.journal.Some? && Matches(call.now, call.journal.value))
  {
    RunGuarded(w, labels);
  }

  // ----- which edits can be lost -----

  /** A run with, for each file, the calls that have read it since its content last changed. */
  datatype Watched = Watched(world: World, package: set<nat>, lock: set<nat>)

  predicate Reads(w: World, l: Label, pc: Pc) {
    l.Act? && l.t in w.tasks && !l.choice.throws && w.tasks[l.t].call.pc == pc
  }

  predicate ReadsPackage(w: World, l: Label) {
    Reads(w, l, ReadPackage(Initially)) || Reads(w, l, ReadPackage(Recheck)) || Reads(w, l, ReadPackage(Confirm))
  }

  predicate ReadsLock(w: World, l: Label) {
    Reads(w, l, ReadLock(Initially)) || Reads(w, l, ReadLock(Recheck)) || Reads(w, l, ReadLock(Confirm))
  }

  function Watch(v: Watched, l: Label): Watched {
    var next := Apply(v.world, l);
    Watched(next,
      (if next.sources.package != v.world.sources.package then {} else v.package) + (if ReadsPackage(v.world, l) then {l.t} else {}),
      (if next.sources.lock != v.world.sources.lock then {} else v.lock) + (if ReadsLock(v.world, l) then {l.t} else {}))
  }

  function WatchRun(v: Watched, labels: seq<Label>): Watched
    decreases |labels|
  {
    if labels == [] then v else WatchRun(Watch(v, labels[0]), labels[1..])
  }

  lemma {:induction false} WatchingIsRunning(v: Watched, labels: seq<Label>)
    ensures WatchRun(v, labels).world == Run(v.world, labels)
    decreases |labels|
  {
    if labels != [] { WatchingIsRunning(Watch(v, labels[0]), labels[1..]); }
  }

  /** The content a call has last read, at the points where it still goes by it. */
  function SeenPackage(call: Call): Option<File<PackageDoc>> {
    match call.pc
    case ReadLock(at) => Some(if at.Initially? then call.now.package else call.again.package)
    case ReadPackage(at) => if at.Initially? then None else Some(if at.Recheck? then call.now.package else call.again.package)
    case Stage => Some(call.now.package)
    case WriteJournal => Some(call.again.package)
    case RereadJournal => Some(call.again.package)
    case WritePackage => Some(call.again.package)
    case _ => None
  }

  function SeenLock(call: Call): Option<File<LockDoc>> {
    match call.pc
    case Stage => Some(call.now.lock)
    case ReadPackage(at) => if at.Initially? then None else Some(if at.Recheck? then call.now.lock else call.again.lock)
    case ReadLock(at) => if at.Initially? then None else Some(if at.Recheck? then call.now.lock else call.again.lock)
    case WriteJournal => Some(call.again.lock)
    case RereadJournal => Some(call.again.lock)
    case WritePackage => Some(call.again.lock)
    case WriteLock => Some(call.again.lock)
    case _ => None
  }

  ghost predicate SeenOk(v: Watched, t: nat)
    requires t in v.world.tasks
  {
    var call := v.world.tasks[t].call;
    && (t in v.package && SeenPackage(call).Some? ==> SeenPackage(call).value == v.world.sources.package)
    && (t in v.lock && SeenLock(call).Some? ==> SeenLock(call).value == v.world.sources.lock)
  }

  ghost predicate AllSeen(v: Watched) {
    && v.package <= v.world.tasks.Keys && v.lock <= v.world.tasks.Keys
    && forall t :: t in v.world.tasks ==> SeenOk(v, t)
  }

  /** What one segment does to the content its call goes by: a reading takes it from the file, anything else keeps it. */
  ghost predicate SegmentSees(s: Sources, call: Call, e: Effect) {
    && (call.pc.ReadPackage? || call.pc.ReadLock? ==> e.sources == s)
    && (SeenPackage(e.call).Some? ==> SeenPackage(e.call) == if call.pc.ReadPackage? then Some(s.package) else SeenPackage(call))
    && (SeenLock(e.call).Some? ==> SeenLock(e.call) == if call.pc.ReadLock? then Some(s.lock) else SeenLock(call))
  }

  lemma UpgraderSees(target: string, s: Sources, f: JournalFile, call: Call, c: Choice)
    requires !IsLocking(call.pc)
    ensures SegmentSees(s, call, UpgraderSegment(target, s, f, call, c))
  {
    match call.pc
    case ReadLock(_) =>
    case _ =>
  }

  lemma RecovererSees(s: Sources, f: JournalFile, call: Call, c: Choice)
    requires !IsLocking(call.pc)
    ensures SegmentSees(s, call, RecovererSegment(s, f, call, c))
  {
    match call.pc
    case ReadLock(_) =>
    case _ =>
  }

  lemma SegmentSeesOk(job: Job, s: Sources, f: JournalFile, call: Call, c: Choice)
    requires !IsLocking(call.pc)
    ensures SegmentSees(s, call, Segment(job, s, f, call, c))
  {
    match job
    case Upgrade(target) => UpgraderSees(target, s, f, call, c);
    case Recover => RecovererSees(s, f, call, c);
  }

  /** Between locks nothing is gone by. */
  lemma NothingSeen(call: Call)
    requires IsLocking(call.pc) || call.pc.ReadJournal?
    ensures SeenPackage(call).None? && SeenLock(call).None?
  {
  }

  lemma ActSees(v: Watched, t: nat, c: Choice)
    requires AllSeen(v) && t in v.world.tasks
    ensures SeenOk(Watch(v, Act(t, c)), t) && OthersStay(v.world, t, Apply(v.world, Act(t, c)))
  {
    var task := v.world.tasks[t];
    assert SeenOk(v, t);
    if Releasing(task.call.pc) {
      FinallyOnlyMoves(v.world, t, c.throws);
      NothingSeen(Finally(v.world, t, c.throws).tasks[t].call);
    } else if c.throws {
      NothingSeen(Ended(task.call));
    } else if IsLocking(task.call.pc) {
      TakingOnlyMoves(v.world, t);
      NothingSeen(Taking(v.world, t).tasks[t].call);
    } else {
      SegmentSeesOk(task.job, v.world.sources, v.world.journal, task.call, c);
    }
  }

  lemma OtherSees(v: Watched, l: Label, u: nat)
    requires AllSeen(v) && u in v.world.tasks && u in Apply(v.world, l).tasks
    requires SeenPackage(Apply(v.world, l).tasks[u].call).None? || Apply(v.world, l).tasks[u].call == v.world.tasks[u].call
    requires SeenLock(Apply(v.world, l).tasks[u].call).None? || Apply(v.world, l).tasks[u].call == v.world.tasks[u].call
    requires !l.Act? || l.t != u
    ensures SeenOk(Watch(v, l), u)
  {
    assert SeenOk(v, u);
  }

  lemma WatchKeeps(v: Watched, l: Label)
    requires AllSeen(v)
    ensures AllSeen(Watch(v, l))
  {
    var next := Watch(v, l);
    if l.Act? && l.t in v.world.tasks { ActSees(v, l.t, l.choice); }
    forall u | u in next.world.tasks ensures SeenOk(next, u) {
      if u in v.world.tasks && !(l.Act? && l.t == u) { OtherSees(v, l, u); }
    }
  }

  lemma {:induction false} WatchRunKeeps(v: Watched, labels: seq<Label>)
    requires AllSeen(v)
    ensures AllSeen(WatchRun(v, labels))
    decreases |labels|
  {
    if labels != [] {
      WatchKeeps(v, labels[0]);
      WatchRunKeeps(Watch(v, labels[0]), labels[1..]);
    }
  }

  /**
   * What an outside edit can lose. At each write the content that is overwritten is the one the call has read last,
   * unless the file has changed since that reading: only an edit between the last reading of a file and its write is lost.
   */
  lemma OnlyLateEditsAreLost(w: World, labels: seq<Label>, t: nat)
    requires w.tasks == map[]
    ensures var v := WatchRun(Watched(w, {}, {}), labels);
      v.world == Run(w, labels) && (t in v.world.tasks ==>
        var call := v.world.tasks[t].call;
        && (call.pc.WritePackage? && v.world.sources.package != call.again.package ==> t !in v.package)
        && (call.pc.WriteLock? && v.world.sources.lock != call.again.lock ==> t !in v.lock))
  {
    WatchingIsRunning(Watched(w, {}, {}), labels);
    WatchRunKeeps(Watched(w, {}, {}), labels);
    var v := WatchRun(Watched(w, {}, {}), labels);
    if t in v.world.tasks { assert SeenOk(v, t); }
  }

  /** And such an edit is lost: whatever is written between, the call's own content replaces it. */
  lemma LateEditIsLost(v: World, t: nat, edit: Sources, c: Choice)
    requires t in v.tasks && v.tasks[t].call.pc.WritePackage? && !c.throws
    ensures Run(v, [Edit(edit), Act(t, c)]).sources == Sources(v.tasks[t].call.next.package, edit.lock)
  {
    var after := Apply(v, Edit(edit));
    assert [Edit(edit), Act(t, c)][1..] == [Act(t, c)] && [Act(t, c)][1..] == [];
    assert Run(after, [Act(t, c)]) == Apply(after, Act(t, c));
  }
}
