/**
 * The cross-process lock of the update check: `update.lock`, taken exclusively, reclaimed by others once it is stale,
 * under one claim file per observed lock identity. One step is the code between two awaits.
 */
module UpdateLock {
  import opened JsObject

  const STALE := 30_000

  /** A lock file: its identity (device and inode, never reused) and its modification time. */
  datatype LockFile = LockFile(id: nat, mtime: nat)

  datatype Pc =
    | Open                  // open(update.lock, 'wx')
    | Stat                  // stat of the lock found in the way
    | Claim                 // open(update.lock.reclaim-<identity>, 'wx')
    | Restat                // is it still the observed lock?
    | Remove | Reopen       // rm, then open(update.lock, 'wx')
    | Unclaim               // the claim file is removed
    | Work                  // request and cache update
    | StatOwn | RemoveOwn   // the finally block
    | Done | Crashed

  datatype Process = Process(pc: Pc, observed: Option<LockFile>, own: Option<LockFile>)

  datatype World = World(now: nat, lock: Option<LockFile>, claims: set<LockFile>, next: nat, processes: map<nat, Process>)

  datatype Label =
    | Start(p: nat)
    | Act(p: nat, fails: bool)
    | Crash(p: nat)
    | Tick(ms: nat)

  predicate IsStale(w: World, l: LockFile) {
    w.now - l.mtime > STALE
  }

  function Update(w: World, p: nat, q: Process): World {
    w.(processes := w.processes[p := q])
  }

  /** Creates `update.lock` for `p`, which goes on at `pc`. */
  function Create(w: World, p: nat, pc: Pc): World
    requires p in w.processes
  {
    var l := LockFile(w.next, w.now);
    Update(w.(lock := Some(l), next := w.next + 1), p, w.processes[p].(own := Some(l), pc := pc))
  }

  /** The reclaim protocol of a process that found a lock in its way. */
  function Reclaim(w: World, p: nat, fails: bool): World
    requires p in w.processes
  {
    var q := w.processes[p];
    match q.pc
    case Stat =>
      if fails || w.lock.None? || !IsStale(w, w.lock.value) then Update(w, p, q.(pc := Done))
      else Update(w, p, q.(observed := w.lock, pc := Claim))
    case Claim =>
      if fails || q.observed.None? || q.observed.value in w.claims then Update(w, p, q.(pc := Done))
      else Update(w.(claims := w.claims + {q.observed.value}), p, q.(pc := Restat))
    case Restat => Update(w, p, q.(pc := if !fails && w.lock == q.observed then Remove else Unclaim))
    case Remove =>
      if fails || w.lock.None? then Update(w, p, q.(pc := Unclaim))
      else Update(w.(lock := None), p, q.(pc := Reopen))
    case Reopen => if fails || w.lock.Some? then Update(w, p, q.(pc := Unclaim)) else Create(w, p, Unclaim)
    case _ => w
  }

  predicate IsReclaiming(pc: Pc) {
    pc.Stat? || pc.Claim? || pc.Restat? || pc.Remove? || pc.Reopen?
  }

  /** The next step of `p`; `fails` makes the file operation throw. */
  function Step(w: World, p: nat, fails: bool): World
    requires p in w.processes
  {
    var q := w.processes[p];
    if IsReclaiming(q.pc) then Reclaim(w, p, fails) else Hold(w, p, fails)
  }

  /** Taking the lock, working under it and releasing it. */
  function Hold(w: World, p: nat, fails: bool): World
    requires p in w.processes
  {
    var q := w.processes[p];
    match q.pc
    case Open =>
      if fails then Update(w, p, q.(pc := Done))
      else if w.lock.None? then Create(w, p, Work)
      else Update(w, p, q.(pc := Stat))
    case Unclaim =>
      var claims := if fails || q.observed.None? then w.claims else w.claims - {q.observed.value};
      Update(w.(claims := claims), p, q.(pc := if q.own.Some? then Work else Done))
    case Work => Update(w, p, q.(pc := StatOwn))
    case StatOwn =>
      Update(w, p, q.(pc := if !fails && w.lock.Some? && q.own.Some? && w.lock.value.id == q.own.value.id then RemoveOwn else Done))
    case RemoveOwn => Update(if fails then w else w.(lock := None), p, q.(pc := Done))
    case _ => w
  }

  /** A process that has created the lock and may still act on it. */
  predicate Owns(q: Process) {
    q.own.Some? && (q.pc.Unclaim? || q.pc.Work? || q.pc.StatOwn? || q.pc.RemoveOwn?)
  }

  /** A holder that is not past its 30 seconds; one that is counts as crashed and takes no further step. */
  predicate Holds(w: World, p: nat)
    requires p in w.processes
  {
    Owns(w.processes[p]) && !IsStale(w, w.processes[p].own.value)
  }

  function Apply(w: World, l: Label): World {
    match l
    case Start(p) => if p in w.processes then w else Update(w, p, Process(Open, None, None))
    case Act(p, fails) =>
      if p !in w.processes || (Owns(w.processes[p]) && !Holds(w, p)) then w else Step(w, p, fails)
    case Crash(p) => if p in w.processes then Update(w, p, w.processes[p].(pc := Crashed)) else w
    case Tick(ms) => w.(now := w.now + ms)
  }

  function Run(w: World, labels: seq<Label>): World
    decreases |labels|
  {
    if labels == [] then w else Run(Apply(w, labels[0]), labels[1..])
  }

  // ----- the invariant -----

  predicate Claims(q: Process) {
    q.observed.Some? && (q.pc.Restat? || q.pc.Remove? || q.pc.Reopen? || q.pc.Unclaim?)
  }

  ghost predicate ProcessOk(w: World, p: nat)
    requires p in w.processes
  {
    var q := w.processes[p];
    && (q.own.Some? ==> q.own.value.id < w.next && q.own.value.mtime <= w.now)
    && (q.observed.Some? ==> IsStale(w, q.observed.value) && q.observed.value.id < w.next)
    && (Claims(q) ==> q.observed.value in w.claims)
    && (q.pc.Restat? || q.pc.Remove? || q.pc.Reopen? || q.pc.Claim? || q.pc.Open? || q.pc.Stat? ==> q.own.None?)
    && (q.pc.Restat? || q.pc.Remove? || q.pc.Reopen? || q.pc.Claim? ==> q.observed.Some?)
    && (q.pc.Work? || q.pc.StatOwn? || q.pc.RemoveOwn? ==> q.own.Some?)
    && (Holds(w, p) ==> w.lock == q.own)
    && (q.pc.Remove? ==> w.lock == q.observed)
  }

  ghost predicate Apart(w: World, p: nat, r: nat)
    requires p in w.processes && r in w.processes
  {
    var q, s := w.processes[p], w.processes[r];
    p == r || ((q.own.Some? && s.own.Some? ==> q.own.value.id != s.own.value.id)
               && (Claims(q) && Claims(s) ==> q.observed != s.observed))
  }

  ghost predicate Inv(w: World) {
    && LockOk(w)
    && (forall p :: p in w.processes ==> ProcessOk(w, p))
    && forall p, r :: p in w.processes && r in w.processes ==> Apart(w, p, r)
  }

  ghost predicate OtherOk(w: World, p: nat, r: nat, v: World)
    requires p in w.processes && r in w.processes
  {
    p in v.processes && r in v.processes && v.processes[r] == w.processes[r] && ProcessOk(v, r) && Apart(v, p, r) && Apart(v, r, p)
  }

  ghost predicate SelfOk(w: World, p: nat, v: World)
    requires p in w.processes
  {
    v.processes.Keys == w.processes.Keys && ProcessOk(v, p) && LockOk(v)
  }

  predicate LockOk(w: World) {
    w.lock.Some? ==> w.lock.value.id < w.next && w.lock.value.mtime <= w.now
  }

  ghost predicate PairOk(w: World, p: nat, r: nat) {
    p in w.processes && r in w.processes && r != p && LockOk(w)
    && ProcessOk(w, p) && ProcessOk(w, r) && Apart(w, p, r) && Apart(w, r, p)
  }

  lemma ReclaimKeepsOthers(w: World, p: nat, fails: bool, r: nat)
    requires PairOk(w, p, r) && IsReclaiming(w.processes[p].pc)
    ensures OtherOk(w, p, r, Reclaim(w, p, fails))
  {
  }

  lemma HoldKeepsOthers(w: World, p: nat, fails: bool, r: nat)
    requires PairOk(w, p, r) && !IsReclaiming(w.processes[p].pc) && (Owns(w.processes[p]) ==> Holds(w, p))
    ensures OtherOk(w, p, r, Hold(w, p, fails))
  {
  }

  /** Where a step of `p` leaves another process: the lock changes only in ways that do not concern it. */
  lemma OthersKept(w: World, p: nat, fails: bool, r: nat)
    requires PairOk(w, p, r) && (Owns(w.processes[p]) ==> Holds(w, p))
    ensures OtherOk(w, p, r, Step(w, p, fails))
  {
    if IsReclaiming(w.processes[p].pc) { ReclaimKeepsOthers(w, p, fails, r); } else { HoldKeepsOthers(w, p, fails, r); }
  }

  lemma ReclaimKeepsSelf(w: World, p: nat, fails: bool)
    requires LockOk(w) && p in w.processes && ProcessOk(w, p) && IsReclaiming(w.processes[p].pc)
    ensures SelfOk(w, p, Reclaim(w, p, fails))
  {
  }

  lemma HoldKeepsSelf(w: World, p: nat, fails: bool)
    requires LockOk(w) && p in w.processes && ProcessOk(w, p) && !IsReclaiming(w.processes[p].pc)
    requires Owns(w.processes[p]) ==> Holds(w, p)
    ensures SelfOk(w, p, Hold(w, p, fails))
  {
  }

  lemma ActKeeps(w: World, p: nat, fails: bool)
    requires Inv(w) && p in w.processes && (Owns(w.processes[p]) ==> Holds(w, p))
    ensures Inv(Step(w, p, fails))
  {
    var v := Step(w, p, fails);
    assert ProcessOk(w, p);
    if IsReclaiming(w.processes[p].pc) { ReclaimKeepsSelf(w, p, fails); } else { HoldKeepsSelf(w, p, fails); }
    forall r | r in w.processes && r != p ensures OtherOk(w, p, r, v) {
      assert ProcessOk(w, r) && Apart(w, p, r) && Apart(w, r, p);
      OthersKept(w, p, fails, r);
    }
    forall q, r | q in v.processes && r in v.processes ensures Apart(v, q, r) {
      assert Apart(w, q, r);
      if q != p { assert OtherOk(w, p, q, v); }
      if r != p { assert OtherOk(w, p, r, v); }
    }
    forall r | r in v.processes ensures ProcessOk(v, r) { if r != p { assert OtherOk(w, p, r, v); } }
  }

  /** Starting a process, a crash and the passing of time leave every process and every pair as they should be. */
  lemma QuietKeepsProcess(w: World, l: Label, p: nat)
    requires Inv(w) && !l.Act? && p in Apply(w, l).processes
    ensures ProcessOk(Apply(w, l), p)
  {
    if p in w.processes { assert ProcessOk(w, p); }
  }

  lemma QuietKeepsPair(w: World, l: Label, p: nat, r: nat)
    requires Inv(w) && !l.Act? && p in Apply(w, l).processes && r in Apply(w, l).processes
    ensures Apart(Apply(w, l), p, r)
  {
    if p in w.processes && r in w.processes { assert Apart(w, p, r); }
  }

  lemma StepKeeps(w: World, l: Label)
    requires Inv(w)
    ensures Inv(Apply(w, l))
  {
    var v := Apply(w, l);
    if l.Act? {
      if l.p in w.processes && (Owns(w.processes[l.p]) ==> Holds(w, l.p)) { ActKeeps(w, l.p, l.fails); }
    } else {
      forall p | p in v.processes ensures ProcessOk(v, p) { QuietKeepsProcess(w, l, p); }
      forall p, r | p in v.processes && r in v.processes ensures Apart(v, p, r) { QuietKeepsPair(w, l, p, r); }
    }
  }

  lemma {:induction false} RunKeeps(w: World, labels: seq<Label>)
    requires Inv(w)
    ensures Inv(Run(w, labels))
    decreases |labels|
  {
    if labels != [] {
      StepKeeps(w, labels[0]);
      RunKeeps(Apply(w, labels[0]), labels[1..]);
    }
  }

  /** No processes yet; a lock and claims of dead processes may be lying around. */
  predicate Initial(w: World) {
    w.processes == map[] && LockOk(w)
  }

  /** For any number of processes and any interleaving, at most one holds the lock, and it is the lock in place. */
  lemma MutualExclusion(w: World, labels: seq<Label>, p: nat, r: nat)
    requires Initial(w)
    ensures var v := Run(w, labels);
      && (p in v.processes && Holds(v, p) ==> v.lock == v.processes[p].own)
      && (p in v.processes && r in v.processes && Holds(v, p) && Holds(v, r) ==> p == r)
  {
    RunKeeps(w, labels);
    var v := Run(w, labels);
    if p in v.processes { assert ProcessOk(v, p); }
    if p in v.processes && r in v.processes { assert ProcessOk(v, r) && Apart(v, p, r); }
  }

  /** Whenever a step makes a lock disappear, it was the step's own lock or the very lock it had observed as stale. */
  lemma OnlyStaleOrOwnIsRemoved(w: World, labels: seq<Label>, l: Label)
    requires Initial(w)
    ensures var v := Run(w, labels);
      v.lock.Some? && Apply(v, l).lock != v.lock ==>
        && l.Act? && l.p in v.processes && Apply(v, l).lock.None?
        && (if v.processes[l.p].pc.Remove? then v.lock == v.processes[l.p].observed && IsStale(v, v.lock.value)
            else v.lock == v.processes[l.p].own && Holds(v, l.p))
  {
    RunKeeps(w, labels);
    var v := Run(w, labels);
    if l.Act? && l.p in v.processes { assert ProcessOk(v, l.p); }
  }

  // ----- one process alone -----

  function Repeat(w: World, p: nat, n: nat): World
    decreases n
  {
    if n == 0 then w else Repeat(Apply(w, Act(p, false)), p, n - 1)
  }

  /** Nothing is in its way: no lock, or a stale one that nobody has claimed. */
  predicate MayTake(w: World) {
    w.lock.None? || (w.now - w.lock.value.mtime > 30_000 && w.lock.value !in w.claims)
  }

  /** The process is at work and its own fresh lock is in place. */
  predicate IsAtWork(w: World, p: nat) {
    p in w.processes && w.processes[p].pc.Work? && w.lock.Some? && w.lock == w.processes[p].own && w.lock.value.mtime == w.now
  }

  /** From its own lock on, a process works, releases the lock and is done. */
  lemma WorksAndReleases(w: World, p: nat)
    requires IsAtWork(w, p)
    ensures var v := Repeat(w, p, 3);
      && p in v.processes && v.processes[p].pc.Done? && v.lock.None? && v.claims == w.claims
  {
    var a := Apply(w, Act(p, false));
    assert a.processes[p].pc.StatOwn?;
    var b := Apply(a, Act(p, false));
    assert b.processes[p].pc.RemoveOwn?;
    var c := Apply(b, Act(p, false));
    assert Repeat(b, p, 1) == Repeat(c, p, 0) == c;
    assert Repeat(w, p, 3) == Repeat(a, p, 2) == Repeat(b, p, 1);
  }

  lemma {:induction false} RepeatMore(w: World, p: nat, m: nat, n: nat)
    ensures Repeat(w, p, m + n) == Repeat(Repeat(w, p, m), p, n)
    decreases m
  {
    if m > 0 { RepeatMore(Apply(w, Act(p, false)), p, m - 1, n); }
  }

  /** The seven steps from a stale lock to a new one, under a claim that is given up again. */
  lemma Reclaims(w: World, p: nat)
    requires p !in w.processes && w.lock.Some? && IsStale(w, w.lock.value) && w.lock.value !in w.claims
    ensures var v := Repeat(Apply(w, Start(p)), p, 7); IsAtWork(v, p) && v.claims == w.claims
  {
    var l := w.lock;
    var w0 := Apply(w, Start(p));
    var w1 := Apply(w0, Act(p, false));
    assert w1 == Update(w0, p, Process(Stat, None, None));
    var w2 := Apply(w1, Act(p, false));
    assert w2 == Update(w1, p, Process(Claim, l, None));
    var w3 := Apply(w2, Act(p, false));
    assert w3 == Update(w2, p, Process(Restat, l, None)).(claims := w.claims + {l.value});
    var w4 := Apply(w3, Act(p, false));
    assert w4 == Update(w3, p, Process(Remove, l, None));
    ReclaimsOn(w4, p, l.value);
    assert w.claims + {l.value} - {l.value} == w.claims;
    assert Repeat(w3, p, 4) == Repeat(w4, p, 3);
    assert Repeat(w1, p, 6) == Repeat(w2, p, 5) == Repeat(w3, p, 4);
    assert Repeat(w0, p, 7) == Repeat(w1, p, 6);
  }

  lemma ReclaimsOn(w: World, p: nat, l: LockFile)
    requires p in w.processes && w.processes[p] == Process(Remove, Some(l), None) && w.lock == Some(l)
    ensures var v := Repeat(w, p, 3); IsAtWork(v, p) && v.claims == w.claims - {l}
  {
    var a := Apply(w, Act(p, false));
    assert a.processes[p] == Process(Reopen, Some(l), None) && a.lock.None?;
    var b := Apply(a, Act(p, false));
    assert b.processes[p].pc.Unclaim? && b.processes[p].own == b.lock && b.lock.Some?;
    var c := Apply(b, Act(p, false));
    assert Repeat(b, p, 1) == Repeat(c, p, 0) == c;
    assert Repeat(w, p, 3) == Repeat(a, p, 2) == Repeat(b, p, 1);
  }

  /** A process that is done, or gives up, stays so. */
  lemma {:induction false} DoneStays(w: World, p: nat, n: nat)
    requires p in w.processes && w.processes[p].pc.Done?
    ensures Repeat(w, p, n) == w
    decreases n
  {
    if n > 0 {
      assert Apply(w, Act(p, false)) == w;
      DoneStays(w, p, n - 1);
    }
  }

  /** A lock that may not be taken is left alone: the process looks at it and gives up. */
  lemma GivesUp(w: World, p: nat)
    requires p !in w.processes && !MayTake(w)
    ensures var v := Repeat(Apply(w, Start(p)), p, 3);
      p in v.processes && v.processes[p].pc.Done? && v.processes[p].own.None? && v.lock == w.lock && v.claims == w.claims
  {
    var w0 := Apply(w, Start(p));
    var w1 := Apply(w0, Act(p, false));
    assert w1 == Update(w0, p, Process(Stat, None, None));
    var w2 := Apply(w1, Act(p, false));
    var w3 := Apply(w2, Act(p, false));
    assert w3.processes[p].pc.Done?;
    assert Repeat(w2, p, 1) == Repeat(w3, p, 0) == w3;
    assert Repeat(w0, p, 3) == Repeat(w1, p, 2) == Repeat(w2, p, 1);
  }

  /**
   * One process alone, when no file operation fails: if it may take the lock it works under its own fresh lock, and in the
   * end lock and claim are gone; otherwise it leaves everything as it was.
   */
  lemma ProcessAlone(w: World, p: nat)
    requires p !in w.processes
    ensures var w0 := Apply(w, Start(p));
      var v := Repeat(w0, p, 10);
      && p in v.processes && v.processes[p].pc.Done? && v.claims == w.claims
      && (if MayTake(w) then v.lock.None? && exists n: nat :: n < 10 && IsAtWork(Repeat(w0, p, n), p)
          else v.lock == w.lock && v.processes[p].own.None?)
  {
    var w0 := Apply(w, Start(p));
    if !MayTake(w) {
      GivesUp(w, p);
      RepeatMore(w0, p, 3, 7);
      DoneStays(Repeat(w0, p, 3), p, 7);
    } else if w.lock.None? {
      var w1 := Apply(w0, Act(p, false));
      assert Repeat(w0, p, 1) == Repeat(w1, p, 0) == w1 && IsAtWork(w1, p);
      WorksAndReleases(w1, p);
      RepeatMore(w0, p, 1, 9);
      RepeatMore(w1, p, 3, 6);
      DoneStays(Repeat(w1, p, 3), p, 6);
    } else {
      Reclaims(w, p);
      WorksAndReleases(Repeat(w0, p, 7), p);
      RepeatMore(w0, p, 7, 3);
    }
  }
}
