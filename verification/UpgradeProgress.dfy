/** What an upgrade achieves when nothing stops it, and what every commit rests on. */
module UpgradeProgress {
  import opened JsObject
  import opened UpgradeDocuments
  import opened UpgradeProtocol

  // ----- one upgrade alone -----

  /** How many steps an upgrade has still to go when it goes all the way. */
  function ToGo(pc: Pc): nat {
    match pc
    case CheckJournal => 21
    case TakeBusy => 20
    case TakeLock => 19
    case TakeSource => 18
    case ReadJournal => 17
    case ReadPackage(at) => if at.Initially? then 16 else if at.Recheck? then 13 else 10
    case ReadLock(at) => if at.Initially? then 15 else if at.Recheck? then 12 else 9
    case Stage => 14
    case WriteJournal => 11
    case WritePackage => 8
    case WriteLock => 7
    case Sync => 6
    case Activate => 5
    case Resolve => 4
    case ReleaseSource => 3
    case ReleaseBusy => 2
    case ReleaseLock => 1
    case _ => 0
  }

  /** Call `t` upgrades to `target` in the world `start`, always met by the choice `c`. */
  datatype Scene = Scene(start: World, t: nat, instance: nat, target: string, c: Choice) {
    /** The plan the call will carry out, if it gets that far. */
    function Goal(): Option<Plan> {
      if IsStable(target) && c.verified then PlanUpgrade(start.sources, target, c.staged) else None
    }

    predicate Quiet() {
      && UpgradeProtocol.Resolved(start.journal) && start.upgradeLock.None? && start.sourceLock.None?
      && t !in start.tasks && instance !in start.busy && !c.throws
    }

    /** The files and the journal in the end. */
    predicate Final(sources: Sources, journal: JournalFile) {
      if Goal().None? then sources == start.sources && journal == start.journal
      else
        && sources == Goal().value.next
        && journal == Entry(if c.synced then Committed else Prepared, Goal().value.journal)
    }

    predicate Untouched(sources: Sources, journal: JournalFile) {
      sources == start.sources && journal == start.journal
    }

    /** The call has decided on its plan. */
    predicate Decided(call: Call) {
      && Goal().Some? && call.now == start.sources
      && call.journal == Some(Goal().value.journal) && call.next == Goal().value.next
    }

    predicate Announced(journal: JournalFile) {
      Goal().Some? && journal == Entry(Prepared, Goal().value.journal)
    }

    /** What holds of files, journal and local variables at each point. */
    predicate Midway(sources: Sources, journal: JournalFile, call: Call) {
      match call.pc
      case CheckJournal => Untouched(sources, journal)
      case ReadLock(Initially) => IsStable(target) && Untouched(sources, journal) && call.now.package == sources.package
      case Stage => IsStable(target) && Untouched(sources, journal) && call.now == sources
      case ReadPackage(Recheck) =>
        IsStable(target) && Untouched(sources, journal) && call.now == sources && c.verified && call.staged == Some(c.staged)
      case ReadLock(Recheck) =>
        && IsStable(target) && Untouched(sources, journal) && call.now == sources && c.verified && call.staged == Some(c.staged)
        && call.again.package == sources.package
      case WriteJournal => Untouched(sources, journal) && Decided(call)
      case ReadPackage(Confirm) => Decided(call) && Announced(journal) && sources == start.sources
      case ReadLock(Confirm) => Decided(call) && Announced(journal) && sources == start.sources && call.again.package == sources.package
      case WritePackage => Decided(call) && Announced(journal) && sources == start.sources
      case WriteLock => Decided(call) && Announced(journal) && sources == Sources(call.next.package, start.sources.lock)
      case Sync => Decided(call) && Announced(journal) && sources == call.next
      case Activate => Decided(call) && Announced(journal) && sources == call.next && c.synced
      case Resolve => Decided(call) && Announced(journal) && sources == call.next && c.synced
      case RereadJournal => false
      case Dead => false
      case ReleaseSource => Final(sources, journal)
      case ReleaseBusy => Final(sources, journal)
      case ReleaseLock => Final(sources, journal)
      case Done => Final(sources, journal)
      case _ => IsStable(target) && Untouched(sources, journal)
    }

    /** Which locks are held, and by whom. */
    predicate LocksAre(w: World)
      requires t in w.tasks
    {
      var task := w.tasks[t];
      && w.busy == (if task.hasBusy then start.busy + {instance} else start.busy)
      && w.upgradeLock == (if task.hasLock then Some(t) else None)
      && w.sourceLock == (if task.hasSource then Some(t) else None)
    }

    predicate FlagsAre(task: Task) {
      match task.call.pc
      case CheckJournal => !task.hasBusy && !task.hasLock && !task.hasSource
      case TakeBusy => !task.hasBusy && !task.hasLock && !task.hasSource
      case TakeLock => !task.hasLock && !task.hasSource
      case TakeSource => !task.hasSource
      case ReleaseBusy => !task.hasSource
      case ReleaseLock => !task.hasSource && !task.hasBusy
      case Done => !task.hasBusy && !task.hasLock && !task.hasSource
      case _ => true
    }

    predicate OnTheWay(w: World) {
      && t in w.tasks && w.tasks[t].job == Upgrade(target) && w.tasks[t].instance == instance
      && LocksAre(w) && FlagsAre(w.tasks[t]) && Midway(w.sources, w.journal, w.tasks[t].call)
    }
  }

  /** One segment brings an upgrade nearer to its end. */
  ghost predicate Nearer(x: Scene, call: Call, e: Effect) {
    x.Midway(e.sources, e.journal, e.call) && ToGo(e.call.pc) < ToGo(call.pc) && !e.call.pc.Done? && (IsLocking(e.call.pc) ==> e.call.pc.ReleaseSource?)
  }

  lemma ReadingIsNearer(x: Scene, sources: Sources, journal: JournalFile, call: Call)
    requires x.Quiet() && x.Midway(sources, journal, call)
    requires call.pc.ReadJournal? || call.pc.ReadPackage? || call.pc.Stage?
    ensures Nearer(x, call, UpgraderSegment(x.target, sources, journal, call, x.c))
  {
  }

  lemma DecidingIsNearer(x: Scene, sources: Sources, journal: JournalFile, call: Call)
    requires x.Quiet() && x.Midway(sources, journal, call) && (call.pc == ReadLock(Initially) || call.pc == ReadLock(Confirm))
    ensures Nearer(x, call, UpgraderSegment(x.target, sources, journal, call, x.c))
  {
  }

  lemma PlanningIsNearer(x: Scene, sources: Sources, journal: JournalFile, call: Call)
    requires x.Quiet() && x.Midway(sources, journal, call) && call.pc == ReadLock(Recheck)
    ensures Nearer(x, call, UpgraderSegment(x.target, sources, journal, call, x.c))
  {
    var read := Reading(sources, call);
    assert read.again == sources == read.now && read.staged == Some(x.c.staged);
  }

  lemma AnnouncingIsNearer(x: Scene, sources: Sources, journal: JournalFile, call: Call)
    requires x.Midway(sources, journal, call) && call.pc.WriteJournal?
    ensures Nearer(x, call, UpgraderSegment(x.target, sources, journal, call, x.c))
  {
  }

  lemma WritingIsNearer(x: Scene, sources: Sources, journal: JournalFile, call: Call)
    requires x.Midway(sources, journal, call) && (call.pc.WritePackage? || call.pc.WriteLock?)
    ensures Nearer(x, call, UpgraderSegment(x.target, sources, journal, call, x.c))
  {
  }

  lemma FinishingIsNearer(x: Scene, sources: Sources, journal: JournalFile, call: Call)
    requires x.Midway(sources, journal, call) && call.pc.Activate?
    ensures Nearer(x, call, UpgraderSegment(x.target, sources, journal, call, x.c))
  {
  }

  lemma SyncingIsNearer(x: Scene, sources: Sources, journal: JournalFile, call: Call)
    requires x.Midway(sources, journal, call) && call.pc.Sync?
    ensures Nearer(x, call, UpgraderSegment(x.target, sources, journal, call, x.c))
  {
  }

  lemma CommittingIsNearer(x: Scene, sources: Sources, journal: JournalFile, call: Call)
    requires x.Midway(sources, journal, call) && call.pc.Resolve?
    ensures Nearer(x, call, UpgraderSegment(x.target, sources, journal, call, x.c))
  {
  }

  lemma EarlySegmentIsNearer(x: Scene, sources: Sources, journal: JournalFile, call: Call)
    requires x.Quiet() && x.Midway(sources, journal, call) && !IsLocking(call.pc) && ToGo(call.pc) > 8
    ensures Nearer(x, call, UpgraderSegment(x.target, sources, journal, call, x.c))
  {
    if call.pc == ReadLock(Recheck) { PlanningIsNearer(x, sources, journal, call); }
    else if call.pc.ReadLock? { DecidingIsNearer(x, sources, journal, call); }
    else if call.pc.WriteJournal? { AnnouncingIsNearer(x, sources, journal, call); }
    else { ReadingIsNearer(x, sources, journal, call); }
  }

  lemma LateSegmentIsNearer(x: Scene, sources: Sources, journal: JournalFile, call: Call)
    requires x.Midway(sources, journal, call) && !IsLocking(call.pc) && ToGo(call.pc) <= 8
    ensures Nearer(x, call, UpgraderSegment(x.target, sources, journal, call, x.c))
  {
    if call.pc.Sync? { SyncingIsNearer(x, sources, journal, call); }
    else if call.pc.Activate? { FinishingIsNearer(x, sources, journal, call); }
    else if call.pc.Resolve? { CommittingIsNearer(x, sources, journal, call); }
    else { WritingIsNearer(x, sources, journal, call); }
  }

  ghost predicate MovedOn(x: Scene, w: World, v: World)
    requires x.t in w.tasks
  {
    x.OnTheWay(v) && (!w.tasks[x.t].call.pc.Done? ==> ToGo(v.tasks[x.t].call.pc) < ToGo(w.tasks[x.t].call.pc))
  }

  lemma TakesMovesOn(x: Scene, w: World)
    requires x.Quiet() && x.OnTheWay(w) && IsLocking(w.tasks[x.t].call.pc) && !Releasing(w.tasks[x.t].call.pc)
    ensures MovedOn(x, w, Taking(w, x.t))
  {
  }

  /** What a release does to the locks, at each of its points. */
  lemma ReleasesLocks(x: Scene, w: World)
    requires x.t in w.tasks && w.tasks[x.t].instance == x.instance && x.instance !in x.start.busy
    requires Releasing(w.tasks[x.t].call.pc) && x.LocksAre(w) && x.FlagsAre(w.tasks[x.t]) && !w.tasks[x.t].call.pc.Dead?
    ensures var v := Finally(w, x.t, false);
      && x.t in v.tasks && x.LocksAre(v) && x.FlagsAre(v.tasks[x.t]) && v.tasks[x.t].instance == x.instance
      && Releasing(v.tasks[x.t].call.pc) && !v.tasks[x.t].call.pc.Dead?
      && (!w.tasks[x.t].call.pc.Done? ==> ToGo(v.tasks[x.t].call.pc) < ToGo(w.tasks[x.t].call.pc))
  {
    match w.tasks[x.t].call.pc
    case ReleaseSource =>
    case ReleaseBusy => assert x.start.busy + {x.instance} - {x.instance} == x.start.busy;
    case ReleaseLock =>
    case _ =>
  }

  lemma ReleasesMovesOn(x: Scene, w: World)
    requires x.Quiet() && x.OnTheWay(w) && Releasing(w.tasks[x.t].call.pc)
    ensures MovedOn(x, w, Finally(w, x.t, false))
  {
    FinallyOnlyMoves(w, x.t, false);
    ReleasesLocks(x, w);
  }

  lemma StepMovesOn(x: Scene, w: World)
    requires x.Quiet() && x.OnTheWay(w)
    ensures MovedOn(x, w, Apply(w, Act(x.t, x.c)))
  {
    if Releasing(w.tasks[x.t].call.pc) { ReleasesMovesOn(x, w); }
    else if IsLocking(w.tasks[x.t].call.pc) { TakesMovesOn(x, w); }
    else if ToGo(w.tasks[x.t].call.pc) > 8 { EarlySegmentIsNearer(x, w.sources, w.journal, w.tasks[x.t].call); }
    else { LateSegmentIsNearer(x, w.sources, w.journal, w.tasks[x.t].call); }
  }

  lemma {:induction false} GetsThere(x: Scene, w: World, n: nat)
    requires x.Quiet() && x.OnTheWay(w) && n >= ToGo(w.tasks[x.t].call.pc)
    ensures var u := Repeat(w, x.t, x.c, n);
      x.Final(u.sources, u.journal) && u.busy == x.start.busy && u.upgradeLock.None? && u.sourceLock.None?
    decreases n
  {
    if n > 0 {
      StepMovesOn(x, w);
      GetsThere(x, Apply(w, Act(x.t, x.c)), n - 1);
    }
  }

  /**
   * One upgrade alone, in any world with a resolved journal and no locks, when nothing throws. If the pin is agreed and
   * what is staged passes, both files are upgraded and the journal is committed - or left prepared if the sync fails;
   * otherwise nothing has changed. Every lock is released.
   */
  lemma UpgradeAlone(w: World, t: nat, instance: nat, target: string, c: Choice)
    requires UpgradeProtocol.Resolved(w.journal) && w.upgradeLock.None? && w.sourceLock.None? && t !in w.tasks && instance !in w.busy && !c.throws
    requires DistinctKeys(c.staged.packages) && (Get(c.staged.packages, Root).Some? ==> DistinctKeys(Get(c.staged.packages, Root).value))
    ensures var u := Repeat(Apply(w, Spawn(t, instance, Upgrade(target))), t, c, 21);
      && u.busy == w.busy && u.upgradeLock.None? && u.sourceLock.None?
      && if IsStable(target) && c.verified && Upgradable(w.sources, target, c.staged) then
           && Upgraded(w.sources, u.sources, target, c.staged)
           && u.journal.Entry? && u.journal.phase == (if c.synced then Committed else Prepared)
           && u.journal.journal.target == target && AgreesOn(w.sources, u.journal.journal.previous)
           && u.journal.journal.before == HashesOf(w.sources) && u.journal.journal.after == HashesOf(u.sources)
         else u.sources == w.sources && u.journal == w.journal
  {
    var x := Scene(w, t, instance, target, c);
    PlannedExactly(w.sources, target, c.staged);
    if x.Goal().Some? { PlanUpgrades(w.sources, target, c.staged); }
    GetsThere(x, Apply(w, Spawn(t, instance, Upgrade(target))), 21);
  }

  // ----- what a commit rests on -----

  /** Step `i` of the run was call `t` going on from `pc`. */
  ghost predicate WentOn(w: World, labels: seq<Label>, i: nat, t: nat, pc: Pc) {
    && i < |labels| && labels[i].Act? && labels[i].t == t && !labels[i].choice.throws
    && t in Run(w, labels[..i]).tasks && Run(w, labels[..i]).tasks[t].call.pc == pc
  }

  /** What has been staged for `target` and verified: the release asked for, with the integrity that was announced. */
  predicate Passes(c: Choice, target: string) {
    && c.verified && c.staged.target == target && c.staged.integrity != "" && Get(c.staged.packages, Root).Some?
    && Get(Get(c.staged.packages, Root).value, Version) == Some(Text(target))
    && Get(Get(c.staged.packages, Root).value, Integrity) == Some(Text(c.staged.integrity))
  }

  ghost predicate WasStaged(w: World, labels: seq<Label>, t: nat, target: string) {
    exists i: nat :: WentOn(w, labels, i, t, Stage) && Passes(labels[i].choice, target)
  }

  ghost predicate WasSynced(w: World, labels: seq<Label>, t: nat) {
    exists i: nat :: WentOn(w, labels, i, t, Sync) && labels[i].choice.synced
  }

  ghost predicate WasActivated(w: World, labels: seq<Label>, t: nat) {
    exists i: nat :: WentOn(w, labels, i, t, Activate)
  }

  predicate BeyondStage(pc: Pc) {
    pc == ReadPackage(Recheck) || pc == ReadLock(Recheck) || pc.WriteJournal? || pc == ReadPackage(Confirm) || pc == ReadLock(Confirm)
    || pc.WritePackage? || pc.WriteLock? || pc.Sync? || pc.Activate? || pc.Resolve?
  }

  /** A recovery that has found a file changed, and gone on from there. */
  predicate Restoring(call: Call) {
    && ((call.pc.ReadPackage? && !call.pc.at.Initially?) || (call.pc.ReadLock? && !call.pc.at.Initially?)
        || call.pc.RereadJournal? || call.pc.WritePackage? || call.pc.WriteLock?)
    && (call.journal.Some? ==> PackageChanged(call) || LockChanged(call) || call.pc.WritePackage? || call.pc.WriteLock?)
  }

  /** The release a call must have staged to be where it is, if any. */
  function Needs(job: Job, call: Call): Option<string> {
    match job
    case Upgrade(target) => if BeyondStage(call.pc) then Some(target) else None
    case Recover => if Restoring(call) && call.journal.Some? then Some(call.journal.value.previous) else None
  }

  /** What the steps so far must have brought about for a call to be where it is. */
  ghost predicate Earned(w: World, labels: seq<Label>, t: nat, job: Job, call: Call) {
    && (Needs(job, call).Some? ==> WasStaged(w, labels, t, Needs(job, call).value))
    && (job.Upgrade? && (call.pc.Activate? || call.pc.Resolve?) ==> WasSynced(w, labels, t))
    && (job.Upgrade? && call.pc.Resolve? ==> WasActivated(w, labels, t))
    && (job.Recover? && (call.pc.WritePackage? || call.pc.WriteLock?) ==> call.journal.Some?)
  }

  ghost predicate AllEarned(w: World, labels: seq<Label>) {
    forall t :: t in Run(w, labels).tasks ==> Earned(w, labels, t, Run(w, labels).tasks[t].job, Run(w, labels).tasks[t].call)
  }

  lemma {:induction false} RunOneMore(w: World, labels: seq<Label>, l: Label)
    ensures Run(w, labels + [l]) == Apply(Run(w, labels), l)
    decreases |labels|
  {
    if labels == [] {
      assert [l][1..] == [] && [] + [l] == [l];
    } else {
      assert (labels + [l])[1..] == labels[1..] + [l];
      RunOneMore(Apply(w, labels[0]), labels[1..], l);
    }
  }

  lemma WentOnStill(w: World, labels: seq<Label>, l: Label, i: nat, t: nat, pc: Pc)
    requires WentOn(w, labels, i, t, pc)
    ensures WentOn(w, labels + [l], i, t, pc) && (labels + [l])[i] == labels[i]
  {
    assert (labels + [l])[..i] == labels[..i];
  }

  lemma EarnedStill(w: World, labels: seq<Label>, l: Label, t: nat, job: Job, call: Call)
    requires Earned(w, labels, t, job, call)
    ensures Earned(w, labels + [l], t, job, call)
  {
    var needs := Needs(job, call);
    if needs.Some? { StagedStill(w, labels, l, t, needs.value); }
    if i: nat :| WentOn(w, labels, i, t, Sync) && labels[i].choice.synced { WentOnStill(w, labels, l, i, t, Sync); }
    if i: nat :| WentOn(w, labels, i, t, Activate) { WentOnStill(w, labels, l, i, t, Activate); }
  }

  lemma StagedStill(w: World, labels: seq<Label>, l: Label, t: nat, target: string)
    requires WasStaged(w, labels, t, target)
    ensures WasStaged(w, labels + [l], t, target)
  {
    var i: nat :| WentOn(w, labels, i, t, Stage) && Passes(labels[i].choice, target);
    WentOnStill(w, labels, l, i, t, Stage);
  }

  /** A call that needs a release staged has it from where it was, or has just staged it. */
  ghost predicate Opens(job: Job, call: Call, next: Call, c: Choice) {
    && (Needs(job, next).Some? ==> Needs(job, call) == Needs(job, next) || (call.pc.Stage? && Passes(c, Needs(job, next).value)))
    && (job.Upgrade? && next.pc.Activate? ==> call.pc.Sync? && c.synced)
    && (job.Upgrade? && next.pc.Resolve? ==> call.pc.Activate?)
    && (job.Recover? && (next.pc.WritePackage? || next.pc.WriteLock?) ==> next.journal.Some?)
  }

  /** An upgrade passes the gates only with their verdicts. */
  lemma UpgradeGates(target: string, sources: Sources, journal: JournalFile, call: Call, c: Choice)
    requires !IsLocking(call.pc)
    ensures Opens(Upgrade(target), call, UpgraderSegment(target, sources, journal, call, c).call, c)
  {
    match call.pc
    case ReadLock(_) =>
    case _ =>
  }

  /** And so does a recovery. */
  lemma RecoveryGates(sources: Sources, journal: JournalFile, call: Call, c: Choice)
    requires !IsLocking(call.pc) && (call.pc.WritePackage? || call.pc.WriteLock? ==> call.journal.Some?)
    ensures Opens(Recover, call, RecovererSegment(sources, journal, call, c).call, c)
  {
    match call.pc
    case ReadLock(_) =>
    case Stage =>
    case _ =>
  }

  /** What one segment earns. */
  lemma SegmentEarns(w: World, labels: seq<Label>, t: nat, c: Choice, job: Job, next: Call)
    requires var v := Run(w, labels); t in v.tasks && !c.throws
    requires Earned(w, labels, t, job, Run(w, labels).tasks[t].call) && Opens(job, Run(w, labels).tasks[t].call, next, c)
    ensures Earned(w, labels + [Act(t, c)], t, job, next)
  {
    var call := Run(w, labels).tasks[t].call;
    var more := labels + [Act(t, c)];
    assert more[..|labels|] == labels;
    assert WentOn(w, more, |labels|, t, call.pc);
    EarnedStill(w, labels, Act(t, c), t, job, call);
  }

  /** A call that only moves between locking points earns nothing and needs nothing. */
  lemma MovesEarn(w: World, labels: seq<Label>, t: nat, job: Job, call: Call)
    requires IsLocking(call.pc) || call.pc.ReadJournal?
    ensures Earned(w, labels, t, job, call)
  {
  }

  lemma WorkEarns(w: World, labels: seq<Label>, t: nat, c: Choice)
    requires var v := Run(w, labels); t in v.tasks && !c.throws && !IsLocking(v.tasks[t].call.pc)
    requires Earned(w, labels, t, Run(w, labels).tasks[t].job, Run(w, labels).tasks[t].call)
    ensures var v := Run(w, labels);
      var task := v.tasks[t];
      Earned(w, labels + [Act(t, c)], t, task.job, Segment(task.job, v.sources, v.journal, task.call, c).call)
  {
    var v := Run(w, labels);
    var task := v.tasks[t];
    if task.job.Upgrade? {
      UpgradeGates(task.job.target, v.sources, v.journal, task.call, c);
    } else {
      RecoveryGates(v.sources, v.journal, task.call, c);
    }
    SegmentEarns(w, labels, t, c, task.job, Segment(task.job, v.sources, v.journal, task.call, c).call);
  }

  lemma ActEarns(w: World, labels: seq<Label>, t: nat, c: Choice)
    requires t in Run(w, labels).tasks && Earned(w, labels, t, Run(w, labels).tasks[t].job, Run(w, labels).tasks[t].call)
    ensures var v := Next(Run(w, labels), t, c); Earned(w, labels + [Act(t, c)], t, v.tasks[t].job, v.tasks[t].call)
  {
    var v := Run(w, labels);
    var call := v.tasks[t].call;
    if !c.throws && !IsLocking(call.pc) {
      WorkEarns(w, labels, t, c);
    } else {
      NotWorking(v, t, c);
      MovesEarn(w, labels + [Act(t, c)], t, Next(v, t, c).tasks[t].job, Next(v, t, c).tasks[t].call);
    }
  }

  lemma NotWorking(v: World, t: nat, c: Choice)
    requires t in v.tasks && (c.throws || IsLocking(v.tasks[t].call.pc))
    ensures var next := Next(v, t, c); t in next.tasks && (IsLocking(next.tasks[t].call.pc) || next.tasks[t].call.pc.ReadJournal?)
  {
    if Releasing(v.tasks[t].call.pc) { FinallyOnlyMoves(v, t, c.throws); }
    else if !c.throws { TakingOnlyMoves(v, t); }
  }

  lemma StepEarns(w: World, labels: seq<Label>, l: Label, t: nat)
    requires AllEarned(w, labels) && t in Apply(Run(w, labels), l).tasks
    ensures var v := Apply(Run(w, labels), l); Earned(w, labels + [l], t, v.tasks[t].job, v.tasks[t].call)
  {
    var v := Run(w, labels);
    if t !in v.tasks {
      MovesEarn(w, labels + [l], t, l.job, Apply(v, l).tasks[t].call);
    } else if l.Act? && l.t == t {
      ActEarns(w, labels, t, l.choice);
    } else {
      OtherEarns(w, labels, l, t);
    }
  }

  lemma OtherEarns(w: World, labels: seq<Label>, l: Label, t: nat)
    requires AllEarned(w, labels) && t in Run(w, labels).tasks && !(l.Act? && l.t == t)
    ensures t in Apply(Run(w, labels), l).tasks
    ensures var v := Apply(Run(w, labels), l); Earned(w, labels + [l], t, v.tasks[t].job, v.tasks[t].call)
  {
    var v := Run(w, labels);
    OthersAct(v, l, t);
    var next := Apply(v, l).tasks[t];
    if next.call == v.tasks[t].call {
      EarnedStill(w, labels, l, t, v.tasks[t].job, v.tasks[t].call);
    } else {
      MovesEarn(w, labels + [l], t, next.job, next.call);
    }
  }

  /** What is not its own step leaves a call where it is, or dead. */
  lemma OthersAct(v: World, l: Label, t: nat)
    requires t in v.tasks && !(l.Act? && l.t == t)
    ensures t in Apply(v, l).tasks
    ensures var next := Apply(v, l).tasks[t]; next.job == v.tasks[t].job && (next.call == v.tasks[t].call || next.call.pc.Dead?)
  {
    if l.Act? && l.t in v.tasks { ActLeavesOthers(v, l.t, l.choice); }
  }

  lemma ActLeavesOthers(w: World, t: nat, c: Choice)
    requires t in w.tasks
    ensures OthersStay(w, t, Next(w, t, c))
  {
    if Releasing(w.tasks[t].call.pc) { FinallyOnlyMoves(w, t, c.throws); }
    else if !c.throws && IsLocking(w.tasks[t].call.pc) { TakingOnlyMoves(w, t); }
  }

  lemma {:induction false} RunEarns(w: World, labels: seq<Label>)
    requires w.tasks == map[]
    ensures AllEarned(w, labels)
    decreases |labels|
  {
    if labels != [] {
      var front, l := labels[..|labels| - 1], labels[|labels| - 1];
      assert labels == front + [l];
      RunEarns(w, front);
      RunOneMore(w, front, l);
      forall t | t in Run(w, labels).tasks ensures Earned(w, labels, t, Run(w, labels).tasks[t].job, Run(w, labels).tasks[t].call) {
        StepEarns(w, front, l, t);
      }
    }
  }

  /** A journal is committed by an upgrade at its last point. */
  lemma JournalWriter(v: World, l: Label)
    ensures var f := Apply(v, l).journal;
      f != v.journal && f.Entry? && f.phase.Committed? ==> l.Act? && l.t in v.tasks && v.tasks[l.t].job.Upgrade? && v.tasks[l.t].call.pc.Resolve?
  {
    if l.Act? && l.t in v.tasks {
      if Releasing(v.tasks[l.t].call.pc) { FinallyOnlyMoves(v, l.t, l.choice.throws); }
      else if !l.choice.throws && IsLocking(v.tasks[l.t].call.pc) { TakingOnlyMoves(v, l.t); }
    }
  }

  /**
   * In every run, outside edits included: a step that commits a journal belongs to an upgrade which in that run has
   * staged and verified its own target, whose sync was accepted and whose activation did not fail.
   */
  lemma CommitsAreEarned(w: World, labels: seq<Label>, l: Label)
    requires w.tasks == map[]
    ensures var v := Run(w, labels);
      var f := Apply(v, l).journal;
      f != v.journal && f.Entry? && f.phase.Committed? ==>
        && l.Act? && l.t in v.tasks && v.tasks[l.t].job.Upgrade?
        && WasStaged(w, labels, l.t, v.tasks[l.t].job.target) && WasSynced(w, labels, l.t) && WasActivated(w, labels, l.t)
  {
    RunEarns(w, labels);
    var v := Run(w, labels);
    JournalWriter(v, l);
    if l.Act? && l.t in v.tasks {
      assert Earned(w, labels, l.t, v.tasks[l.t].job, v.tasks[l.t].call);
    }
  }

  lemma SourceWriter(v: World, t: nat, c: Choice)
    requires t in v.tasks && Next(v, t, c).sources != v.sources
    ensures v.tasks[t].call.pc.WritePackage? || v.tasks[t].call.pc.WriteLock?
  {
    if Releasing(v.tasks[t].call.pc) { FinallyOnlyMoves(v, t, c.throws); }
    else if !c.throws && IsLocking(v.tasks[t].call.pc) { TakingOnlyMoves(v, t); }
  }

  /**
   * In every run, outside edits included: a call changes a source file only after staging and verifying, in that run, the
   * release it is to bring: an upgrade its target, a recovery the release before the interrupted upgrade.
   */
  lemma SourceWritesAreEarned(w: World, labels: seq<Label>, t: nat, c: Choice)
    requires w.tasks == map[] && t in Run(w, labels).tasks
    ensures var v := Run(w, labels);
      var task := v.tasks[t];
      Next(v, t, c).sources != v.sources ==>
        match task.job
        case Upgrade(target) => WasStaged(w, labels, t, target)
        case Recover => task.call.journal.Some? && WasStaged(w, labels, t, task.call.journal.value.previous)
  {
    RunEarns(w, labels);
    var v := Run(w, labels);
    if Next(v, t, c).sources != v.sources {
      SourceWriter(v, t, c);
      assert Earned(w, labels, t, v.tasks[t].job, v.tasks[t].call);
    }
  }

  // ----- one call at a time in each process -----

  /** A call that has marked its process busy is the only one of that process to have done so. */
  ghost predicate BusyOk(w: World) {
    && (forall t :: t in w.tasks && w.tasks[t].hasBusy ==> w.tasks[t].instance in w.busy)
    && forall t, u :: t in w.tasks && u in w.tasks && w.tasks[t].hasBusy && w.tasks[u].hasBusy && w.tasks[t].instance == w.tasks[u].instance ==> t == u
  }

  /** What a step does to the mark of its own process. */
  ghost predicate BusyMoves(w: World, t: nat, v: World) {
    && OthersStay(w, t, v) && v.tasks[t].instance == w.tasks[t].instance
    && var i := w.tasks[t].instance;
    || (v.busy == w.busy && v.tasks[t].hasBusy == w.tasks[t].hasBusy)
    || (i !in w.busy && v.busy == w.busy + {i} && v.tasks[t].hasBusy)
    || (v.busy == (if w.tasks[t].hasBusy then w.busy - {i} else w.busy) && !v.tasks[t].hasBusy)
  }

  lemma BusyMovesOk(w: World, t: nat, v: World)
    requires BusyOk(w) && BusyMoves(w, t, v)
    ensures BusyOk(v)
  {
    forall u | u in v.tasks && v.tasks[u].hasBusy ensures v.tasks[u].instance in v.busy {
      if u != t { assert v.tasks[u] == w.tasks[u]; }
    }
    forall u, x | u in v.tasks && x in v.tasks && v.tasks[u].hasBusy && v.tasks[x].hasBusy && v.tasks[u].instance == v.tasks[x].instance ensures u == x {
      if u != t { assert v.tasks[u] == w.tasks[u]; }
      if x != t { assert v.tasks[x] == w.tasks[x]; }
    }
  }

  lemma TakingMovesBusy(w: World, t: nat)
    requires t in w.tasks && IsLocking(w.tasks[t].call.pc) && !Releasing(w.tasks[t].call.pc)
    ensures BusyMoves(w, t, Taking(w, t))
  {
    TakingOnlyMoves(w, t);
  }

  lemma FinallyMovesBusy(w: World, t: nat, fails: bool)
    requires t in w.tasks && Releasing(w.tasks[t].call.pc)
    ensures BusyMoves(w, t, Finally(w, t, fails))
  {
    FinallyOnlyMoves(w, t, fails);
  }

  lemma ActMovesBusy(w: World, t: nat, c: Choice)
    requires t in w.tasks
    ensures BusyMoves(w, t, Next(w, t, c))
  {
    if Releasing(w.tasks[t].call.pc) { FinallyMovesBusy(w, t, c.throws); }
    else if !c.throws && IsLocking(w.tasks[t].call.pc) { TakingMovesBusy(w, t); }
  }

  lemma {:induction false} RunKeepsBusy(w: World, labels: seq<Label>)
    requires BusyOk(w)
    ensures BusyOk(Run(w, labels))
    decreases |labels|
  {
    if labels != [] {
      var l := labels[0];
      if l.Act? && l.t in w.tasks {
        ActMovesBusy(w, l.t, l.choice);
        BusyMovesOk(w, l.t, Apply(w, l));
      }
      RunKeepsBusy(Apply(w, l), labels[1..]);
    }
  }

  /** In every run, of the calls of one process at most one is past the busy mark: it alone goes on to the locks. */
  lemma OneCallPerProcess(w: World, labels: seq<Label>, t: nat, u: nat)
    requires w.tasks == map[]
    ensures var v := Run(w, labels);
      t in v.tasks && u in v.tasks && v.tasks[t].instance == v.tasks[u].instance && v.tasks[t].hasBusy && v.tasks[u].hasBusy ==> t == u
  {
    RunKeepsBusy(w, labels);
  }
}
