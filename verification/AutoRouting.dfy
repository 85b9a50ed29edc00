/**
 * AUTO mode of one root session: mode requests with their epochs, and the judgements of main steps and managed children
 * that run beside them. One step is the code between two awaits.
 */
module AutoRouting {
  import opened JsObject

  datatype Mode = AUTO | MANUAL

  /** A `state` request carries no mode. Checking: `mode !== requested`, agent being resolved; Committing: in the endpoint. */
  datatype Phase = Checking | Committing | Settling
  datatype Request = Request(mode: Option<Mode>, phase: Phase, invalidated: bool, resolved: Option<bool>)

  /** A judgement knows the epoch it captured and the moment it began. */
  datatype Judgement = Judgement(epoch: nat, since: nat)

  datatype Pc =
    | Judging               // the decision service is asked
    | ReadingCatalog        // child: the catalog is read
    | ReadingModel          // main: model information is resolved
    | Selecting             // main: the official selection is being written
  datatype Task = Task(child: bool, pc: Pc, judgement: Judgement)

  /** What each moment was like: the mode, and whether a request that had skipped `invalidate` just turned AUTO on. */
  datatype Moment = Moment(mode: Mode, unguarded: bool)

  /** A selection written for a judgement that began at `since`. */
  datatype Write = Write(since: nat, at: nat)

  datatype World = World(
    mode: Mode, epoch: nat, request: Option<Request>,
    main: Option<Judgement>,             // the main session's active judgement, reused by later steps
    tasks: map<nat, Task>,
    history: seq<Moment>, writes: seq<Write>)

  datatype Verdict = Usable | Failed | Cancelled

  datatype Label =
    | Arrive(mode: Option<Mode>)         // a mode request; the next one waits until it is answered
    | Resolve(found: bool)               // first agent resolution
    | Commit(found: bool)                // second resolution and `setMode`
    | Settle(supported: bool)
    | Fallback                           // the main model left AUTO's families: MANUAL without a new epoch
    | Child(t: nat, explicit: bool)      // `agent/created` of a managed child
    | Step(t: nat, judges: bool)         // main pre-step: a user turn is judged, any other step reuses the judgement
    | Return(t: nat, verdict: Verdict, aborted: bool)

  function Now(w: World): nat { |w.history| }

  function Ended(w: World, t: nat): World {
    w.(tasks := w.tasks - {t})
  }

  function Goto(w: World, t: nat, task: Task, pc: Pc): World {
    w.(tasks := w.tasks[t := task.(pc := pc)])
  }

  predicate Current(w: World, j: Judgement) {
    w.mode.AUTO? && w.epoch == j.epoch
  }

  function HandleRequest(w: World, l: Label): World {
    match l
    case Arrive(mode) =>
      if w.request.Some? then w
      else
        var phase := if mode.Some? && mode.value != w.mode then Checking else Committing;
        w.(request := Some(Request(mode, phase, false, None)))
    case Resolve(found) =>
      if w.request.None? || !w.request.value.phase.Checking? then w
      else w.(epoch := if found then w.epoch + 1 else w.epoch,
              request := Some(w.request.value.(phase := Committing, invalidated := found, resolved := Some(found))))
    case Commit(found) =>
      if w.request.None? || !w.request.value.phase.Committing? then w
      else if !found then w.(request := None)
      else w.(mode := if w.request.value.mode.Some? then w.request.value.mode.value else w.mode,
              request := Some(w.request.value.(phase := Settling)))
    case Settle(supported) =>
      if w.request.None? || !w.request.value.phase.Settling? then w
      else if !supported && w.mode.AUTO? then w.(mode := MANUAL, epoch := w.epoch + 1, request := None)
      else w.(request := None)
    case _ => w
  }

  /** What a judgement's owner does when an await returns. */
  function HandleReturn(w: World, t: nat, verdict: Verdict, aborted: bool): World
    requires t in w.tasks
  {
    var task := w.tasks[t];
    var j := task.judgement;
    if !Current(w, j) then Ended(w, t)
    else if task.child then
      if verdict.Failed? || verdict.Cancelled? || aborted then Ended(w, t)
      else if task.pc.Judging? then Goto(w, t, task, ReadingCatalog)
      else Ended(w.(writes := w.writes + [Write(j.since, Now(w))]), t)
    else match task.pc
      case Judging =>
        if verdict.Failed? then Ended(w.(mode := MANUAL, main := None), t)
        else if verdict.Cancelled? then Ended(w.(main := None), t)
        else Goto(w.(main := Some(j)), t, task, ReadingModel)
      case ReadingModel => if aborted || !verdict.Usable? then Ended(w, t) else Goto(w, t, task, Selecting)
      case _ =>
        if aborted || !verdict.Usable? then Ended(w, t)
        else Ended(w.(writes := w.writes + [Write(j.since, Now(w))]), t)
  }

  function Handle(w: World, l: Label): World {
    match l
    case Fallback => w.(mode := MANUAL)
    case Child(t, explicit) =>
      if t in w.tasks || !w.mode.AUTO? then w
      else Goto(w, t, Task(true, Judging, Judgement(w.epoch, Now(w))), if explicit then ReadingCatalog else Judging)
    case Step(t, judges) =>
      if t in w.tasks || !w.mode.AUTO? then w
      else if judges then Goto(w, t, Task(false, Judging, Judgement(w.epoch, Now(w))), Judging)
      else if w.main.Some? && w.main.value.epoch == w.epoch then Goto(w, t, Task(false, ReadingModel, w.main.value), ReadingModel)
      else w
    case Return(t, verdict, aborted) => if t in w.tasks then HandleReturn(w, t, verdict, aborted) else w
    case _ => HandleRequest(w, l)
  }

  /** A commit that turns AUTO on although its request never invalidated the running judgements. */
  predicate Unguarded(w: World, l: Label) {
    l.Commit? && w.mode.MANUAL? && Handle(w, l).mode.AUTO? && w.request.Some? && !w.request.value.invalidated
  }

  /** One step; the moment that follows it is recorded. */
  function Apply(w: World, l: Label): World {
    var v := Handle(w, l);
    v.(history := w.history + [Moment(v.mode, Unguarded(w, l))])
  }

  function Run(w: World, labels: seq<Label>): World
    decreases |labels|
  {
    if labels == [] then w else Run(Apply(w, labels[0]), labels[1..])
  }

  // ----- the invariant -----

  /** AUTO at every moment from the one in which the judgement began up to moment `at`. */
  ghost predicate AutoThroughout(h: seq<Moment>, since: nat, at: nat) {
    0 < since <= at <= |h| && forall i :: since - 1 <= i < at ==> h[i].mode.AUTO?
  }

  ghost predicate NeverRevived(h: seq<Moment>, since: nat, at: nat) {
    0 < since <= at <= |h| && forall i :: since <= i < at ==> !h[i].unguarded
  }

  ghost predicate JudgementOk(w: World, j: Judgement) {
    && 0 < j.since <= Now(w) && j.epoch <= w.epoch && w.history[j.since - 1].mode.AUTO?
    && (j.epoch == w.epoch && NeverRevived(w.history, j.since, Now(w)) && w.mode.AUTO? ==> AutoThroughout(w.history, j.since, Now(w)))
  }

  ghost predicate AllOutdated(w: World) {
    && (w.main.Some? ==> w.main.value.epoch < w.epoch)
    && forall t :: t in w.tasks ==> w.tasks[t].judgement.epoch < w.epoch
  }

  /** A request on its way to AUTO found MANUAL; once it has invalidated, no judgement carries the present epoch. */
  ghost predicate RequestOk(w: World) {
    w.request.Some? && w.request.value.mode == Some(AUTO) && !w.request.value.phase.Settling? ==>
      && (w.request.value.phase.Checking? ==> w.mode.MANUAL?)
      && (w.request.value.invalidated ==> w.mode.MANUAL? && AllOutdated(w))
  }

  ghost predicate WriteOk(h: seq<Moment>, wr: Write) {
    && 0 < wr.since <= wr.at <= |h|
    && (AutoThroughout(h, wr.since, wr.at) <==> NeverRevived(h, wr.since, wr.at))
  }

  ghost predicate HistoryOk(w: World) {
    && Now(w) > 0 && w.history[Now(w) - 1].mode == w.mode
    && forall i :: 0 < i < Now(w) && w.history[i].unguarded ==> w.history[i - 1].mode.MANUAL?
  }

  ghost predicate Inv(w: World) {
    && HistoryOk(w) && RequestOk(w)
    && (w.main.Some? ==> JudgementOk(w, w.main.value))
    && (forall t :: t in w.tasks ==> JudgementOk(w, w.tasks[t].judgement))
    && forall i :: 0 <= i < |w.writes| ==> WriteOk(w.history, w.writes[i])
  }

  /** Any step keeps what is known about a judgement that was there before it. */
  lemma JudgementKept(w: World, l: Label, j: Judgement)
    requires HistoryOk(w) && RequestOk(w) && JudgementOk(w, j)
    requires w.request.Some? && w.request.value.invalidated && w.request.value.mode == Some(AUTO) && w.request.value.phase.Committing? ==> j.epoch < w.epoch
    ensures JudgementOk(Apply(w, l), j)
  {
    var v := Apply(w, l);
    assert forall i :: 0 <= i < Now(w) ==> v.history[i] == w.history[i];
    if j.epoch == v.epoch && NeverRevived(v.history, j.since, Now(v)) && v.mode.AUTO? {
      assert !v.history[Now(w)].unguarded;
      assert NeverRevived(w.history, j.since, Now(w));
      assert w.mode.AUTO?;
    }
  }

  lemma WriteKept(h: seq<Moment>, m: Moment, wr: Write)
    requires WriteOk(h, wr)
    ensures WriteOk(h + [m], wr)
  {
    assert forall i :: 0 <= i < |h| ==> (h + [m])[i] == h[i];
  }

  /** A judgement that is still current when it writes: AUTO throughout exactly if never revived. */
  lemma WriteFresh(w: World, j: Judgement)
    requires HistoryOk(w) && JudgementOk(w, j) && Current(w, j)
    ensures WriteOk(w.history, Write(j.since, Now(w)))
  {
    var h := w.history;
    if !NeverRevived(h, j.since, Now(w)) {
      var i :| j.since <= i < Now(w) && h[i].unguarded;
      assert h[i - 1].mode.MANUAL?;
    }
  }

  lemma RequestKept(w: World, l: Label)
    requires Inv(w)
    ensures RequestOk(Apply(w, l)) && HistoryOk(Apply(w, l))
  {
    match l
    case Return(t, verdict, aborted) => if t in w.tasks { ReturnShape(w, t, verdict, aborted); }
    case Fallback =>
    case Child(_, _) =>
    case Step(_, _) =>
    case _ => HandledRequestKept(w, l);
  }

  lemma HandledRequestKept(w: World, l: Label)
    requires Inv(w) && (l.Arrive? || l.Resolve? || l.Commit? || l.Settle?)
    ensures RequestOk(Apply(w, l)) && HistoryOk(Apply(w, l))
  {
    if l.Resolve? && w.main.Some? { assert JudgementOk(w, w.main.value); }
    if l.Resolve? {
      forall t | t in w.tasks ensures w.tasks[t].judgement.epoch <= w.epoch { assert JudgementOk(w, w.tasks[t].judgement); }
    }
  }

  /** A returning await ends or moves its own task, may write once, and may leave AUTO. */
  lemma ReturnShape(w: World, t: nat, verdict: Verdict, aborted: bool)
    requires t in w.tasks
    ensures var v := HandleReturn(w, t, verdict, aborted);
      && v.epoch == w.epoch && v.request == w.request && v.history == w.history
      && (v.mode == w.mode || v.mode.MANUAL?)
      && (v.main.Some? ==> v.main == w.main || v.main == Some(w.tasks[t].judgement))
      && (forall u :: u in v.tasks ==> u in w.tasks && v.tasks[u].judgement == w.tasks[u].judgement)
      && (v.writes == w.writes
          || (Current(w, w.tasks[t].judgement) && v.writes == w.writes + [Write(w.tasks[t].judgement.since, Now(w))]))
  {
  }

  /** Every judgement after a step was there before it, or has just begun in AUTO. */
  predicate WasThere(w: World, j: Judgement) {
    || (w.main.Some? && j == w.main.value)
    || (exists t :: t in w.tasks && w.tasks[t].judgement == j)
    || (w.mode.AUTO? && j == Judgement(w.epoch, Now(w)))
  }

  ghost predicate AllWereThere(w: World, v: World) {
    && (v.main.Some? ==> WasThere(w, v.main.value))
    && forall t :: t in v.tasks ==> WasThere(w, v.tasks[t].judgement)
  }

  /** Going on with one task, whose judgement was there, brings in no other judgement. */
  lemma GotoBringsNothing(w: World, t: nat, task: Task, pc: Pc)
    requires WasThere(w, task.judgement)
    ensures AllWereThere(w, Goto(w, t, task, pc))
  {
    var v := Goto(w, t, task, pc);
    forall u | u in v.tasks ensures WasThere(w, v.tasks[u].judgement) {
      if u != t { assert w.tasks[u].judgement == v.tasks[u].judgement; }
    }
  }

  lemma ReturnBringsNothing(w: World, t: nat, verdict: Verdict, aborted: bool)
    requires t in w.tasks
    ensures AllWereThere(w, HandleReturn(w, t, verdict, aborted))
  {
    ReturnShape(w, t, verdict, aborted);
    var v := HandleReturn(w, t, verdict, aborted);
    forall u | u in v.tasks ensures WasThere(w, v.tasks[u].judgement) {
      assert w.tasks[u].judgement == v.tasks[u].judgement;
    }
  }

  lemma JudgementsComeFrom(w: World, l: Label)
    ensures AllWereThere(w, Handle(w, l))
  {
    match l
    case Child(t, explicit) =>
      if t !in w.tasks && w.mode.AUTO? {
        GotoBringsNothing(w, t, Task(true, Judging, Judgement(w.epoch, Now(w))), if explicit then ReadingCatalog else Judging);
      }
    case Step(t, judges) =>
      if t !in w.tasks && w.mode.AUTO? {
        if judges { GotoBringsNothing(w, t, Task(false, Judging, Judgement(w.epoch, Now(w))), Judging); }
        else if w.main.Some? { GotoBringsNothing(w, t, Task(false, ReadingModel, w.main.value), ReadingModel); }
      }
    case Return(t, verdict, aborted) => if t in w.tasks { ReturnBringsNothing(w, t, verdict, aborted); }
    case _ =>
  }

  lemma WasThereIsOk(w: World, l: Label, j: Judgement)
    requires Inv(w) && WasThere(w, j)
    ensures JudgementOk(Apply(w, l), j)
  {
    assert JudgementOk(w, j);
    JudgementKept(w, l, j);
  }

  lemma JudgementsKept(w: World, l: Label)
    requires Inv(w)
    ensures var v := Apply(w, l);
      && (v.main.Some? ==> JudgementOk(v, v.main.value))
      && forall t :: t in v.tasks ==> JudgementOk(v, v.tasks[t].judgement)
  {
    JudgementsComeFrom(w, l);
    var v := Apply(w, l);
    if v.main.Some? { WasThereIsOk(w, l, v.main.value); }
    forall t | t in v.tasks ensures JudgementOk(v, v.tasks[t].judgement) { WasThereIsOk(w, l, v.tasks[t].judgement); }
  }

  lemma WritesKept(w: World, l: Label)
    requires Inv(w)
    ensures var v := Apply(w, l); forall i :: 0 <= i < |v.writes| ==> WriteOk(v.history, v.writes[i])
  {
    var v := Apply(w, l);
    if l.Return? && l.t in w.tasks {
      ReturnShape(w, l.t, l.verdict, l.aborted);
      if Current(w, w.tasks[l.t].judgement) { WriteFresh(w, w.tasks[l.t].judgement); }
    }
    forall i | 0 <= i < |v.writes| ensures WriteOk(v.history, v.writes[i]) {
      WriteKept(w.history, v.history[Now(w)], v.writes[i]);
    }
  }

  lemma StepKeeps(w: World, l: Label)
    requires Inv(w)
    ensures Inv(Apply(w, l))
  {
    RequestKept(w, l);
    JudgementsKept(w, l);
    WritesKept(w, l);
  }

  lemma {:induction false} RunKeeps(w: World, labels: seq<Label>)
    requires Inv(w)
    ensures Inv(Run(w, labels))
    decreases |labels|
  {
    if labels != [] {
      StepKeeps(w, labels[0]);
      RunKeeps(Apply(w, labels[0]), labels[1..]);
    }
  }

  function Initial(mode: Mode): World {
    World(mode, 0, None, None, map[], [Moment(mode, false)], [])
  }

  /**
   * For every interleaving of mode requests, fallbacks and judgements: a written effort or route rests on a session
   * that was AUTO at every moment since the judgement began - exactly when, since then, no request that had skipped
   * `invalidate` (its mode was already in place when it arrived, or its agent could not be resolved) turned AUTO back on.
   */
  lemma WritesRestOnAuto(mode: Mode, labels: seq<Label>, i: nat)
    requires i < |Run(Initial(mode), labels).writes|
    ensures var v := Run(Initial(mode), labels);
      AutoThroughout(v.history, v.writes[i].since, v.writes[i].at) <==> NeverRevived(v.history, v.writes[i].since, v.writes[i].at)
  {
    RunKeeps(Initial(mode), labels);
  }

  // ----- when no request skips the invalidation -----

  /** Requests ask for a mode that is not in place, and resolving the agent twice gives the same answer. */
  predicate Sensible(w: World, l: Label) {
    && (l.Arrive? && l.mode.Some? ==> l.mode.value != w.mode)
    && (l.Commit? && w.request.Some? && w.request.value.mode.Some? ==> w.request.value.resolved == Some(l.found))
  }

  predicate SensibleRun(w: World, labels: seq<Label>)
    decreases |labels|
  {
    labels != [] ==> Sensible(w, labels[0]) && SensibleRun(Apply(w, labels[0]), labels[1..])
  }

  ghost predicate Guarded(w: World) {
    && (w.request.Some? && w.request.value.resolved == Some(true) ==> w.request.value.invalidated)
    && forall i :: 0 <= i < Now(w) ==> !w.history[i].unguarded
  }

  lemma {:induction false} SensibleKeeps(w: World, labels: seq<Label>)
    requires Guarded(w) && SensibleRun(w, labels)
    ensures Guarded(Run(w, labels))
    decreases |labels|
  {
    if labels != [] {
      SensibleStep(w, labels[0]);
      SensibleKeeps(Apply(w, labels[0]), labels[1..]);
    }
  }

  lemma SensibleStep(w: World, l: Label)
    requires Guarded(w) && Sensible(w, l)
    ensures Guarded(Apply(w, l))
  {
    if l.Return? && l.t in w.tasks { ReturnShape(w, l.t, l.verdict, l.aborted); }
  }

  /** With sensible requests every write rests on an uninterrupted AUTO. */
  lemma SensibleWritesRestOnAuto(mode: Mode, labels: seq<Label>, i: nat)
    requires SensibleRun(Initial(mode), labels) && i < |Run(Initial(mode), labels).writes|
    ensures var v := Run(Initial(mode), labels); AutoThroughout(v.history, v.writes[i].since, v.writes[i].at)
  {
    RunKeeps(Initial(mode), labels);
    SensibleKeeps(Initial(mode), labels);
    var v := Run(Initial(mode), labels);
    assert WriteOk(v.history, v.writes[i]);
  }

  /**
   * A redundant `setMode(AUTO)` can carry a judgement over a fallback to MANUAL: the request finds AUTO in place and
   * invalidates nothing, the session falls back while the agent is resolved, and the commit turns AUTO on again.
   */
  lemma RedundantRequestRevives()
    ensures var v := Run(Initial(AUTO), [Child(0, true), Arrive(Some(AUTO)), Fallback, Commit(true), Return(0, Usable, false)]);
      |v.writes| == 1 && v.history[v.writes[0].at - 2].mode.MANUAL? && v.writes[0].since <= v.writes[0].at - 2
  {
    var a := Apply(Initial(AUTO), Child(0, true));
    var b := Apply(a, Arrive(Some(AUTO)));
    var c := Apply(b, Fallback);
    var d := Apply(c, Commit(true));
    var e := Apply(d, Return(0, Usable, false));
    assert Run(d, [Return(0, Usable, false)]) == e by { assert [Return(0, Usable, false)][1..] == []; }
    assert Run(c, [Commit(true), Return(0, Usable, false)]) == e by {
      assert [Commit(true), Return(0, Usable, false)][1..] == [Return(0, Usable, false)];
    }
    assert Run(b, [Fallback, Commit(true), Return(0, Usable, false)]) == e by {
      assert [Fallback, Commit(true), Return(0, Usable, false)][1..] == [Commit(true), Return(0, Usable, false)];
    }
    assert Run(a, [Arrive(Some(AUTO)), Fallback, Commit(true), Return(0, Usable, false)]) == e by {
      assert [Arrive(Some(AUTO)), Fallback, Commit(true), Return(0, Usable, false)][1..] == [Fallback, Commit(true), Return(0, Usable, false)];
    }
    assert [Child(0, true), Arrive(Some(AUTO)), Fallback, Commit(true), Return(0, Usable, false)][1..]
      == [Arrive(Some(AUTO)), Fallback, Commit(true), Return(0, Usable, false)];
  }

  // ----- one judgement or request alone -----

  /** The next `n` awaits of task `t` return well. */
  function Go(w: World, t: nat, n: nat): World
    decreases n
  {
    if n == 0 then w else Go(Apply(w, Return(t, Usable, false)), t, n - 1)
  }

  /** Nothing but the moments and the given writes. */
  predicate OnlyWrites(w: World, v: World, more: seq<Write>) {
    v.mode == w.mode && v.epoch == w.epoch && v.request == w.request && v.tasks == w.tasks && v.writes == w.writes + more
  }

  /** A managed child that nothing disturbs is judged unless everything is given, and its route is written; outside AUTO nothing happens. */
  lemma ChildAlone(w: World, t: nat, explicit: bool)
    requires t !in w.tasks
    ensures var n := if explicit then 1 else 2;
      var v := Go(Apply(w, Child(t, explicit)), t, n);
      OnlyWrites(w, v, if w.mode.AUTO? then [Write(Now(w), Now(w) + n)] else []) && v.main == w.main
  {
    var a := Apply(w, Child(t, explicit));
    if !w.mode.AUTO? {
      assert Go(a, t, 1) == Go(Apply(a, Return(t, Usable, false)), t, 0);
      assert Go(a, t, 2) == Go(Apply(a, Return(t, Usable, false)), t, 1);
    } else if explicit {
      assert a.tasks[t] == Task(true, ReadingCatalog, Judgement(w.epoch, Now(w)));
      RoutesOn(a, t);
    } else {
      var b := Apply(a, Return(t, Usable, false));
      assert b.tasks == a.tasks[t := Task(true, ReadingCatalog, Judgement(w.epoch, Now(w)))];
      RoutesOn(b, t);
      assert Go(a, t, 2) == Go(b, t, 1);
    }
  }

  lemma RoutesOn(w: World, t: nat)
    requires t in w.tasks && w.tasks[t].child && w.tasks[t].pc.ReadingCatalog? && Current(w, w.tasks[t].judgement)
    ensures var v := Go(w, t, 1);
      && v == w.(tasks := w.tasks - {t}, writes := w.writes + [Write(w.tasks[t].judgement.since, Now(w))], history := v.history)
      && Now(v) == Now(w) + 1
  {
    assert Go(w, t, 1) == Go(Apply(w, Return(t, Usable, false)), t, 0);
  }

  /** A user turn that nothing disturbs is judged, becomes the active judgement, and its effort is written. */
  lemma TurnAlone(w: World, t: nat)
    requires t !in w.tasks
    ensures var v := Go(Apply(w, Step(t, true)), t, 3);
      && OnlyWrites(w, v, if w.mode.AUTO? then [Write(Now(w), Now(w) + 3)] else [])
      && v.main == if w.mode.AUTO? then Some(Judgement(w.epoch, Now(w))) else w.main
  {
    var a := Apply(w, Step(t, true));
    var b := Apply(a, Return(t, Usable, false));
    assert Go(a, t, 3) == Go(b, t, 2);
    if w.mode.AUTO? {
      assert b.tasks == a.tasks[t := Task(false, ReadingModel, Judgement(w.epoch, Now(w)))] && Now(b) == Now(w) + 2;
      AppliesOn(b, t);
    } else {
      var c := Apply(b, Return(t, Usable, false));
      assert Go(b, t, 2) == Go(c, t, 1) == Go(Apply(c, Return(t, Usable, false)), t, 0);
    }
  }

  /** A later step of the turn writes its effort again from the active judgement, as long as that has the present epoch. */
  lemma StepAlone(w: World, t: nat)
    requires t !in w.tasks && w.mode.AUTO? && w.main.Some? && w.main.value.epoch == w.epoch
    ensures var v := Go(Apply(w, Step(t, false)), t, 2);
      OnlyWrites(w, v, [Write(w.main.value.since, Now(w) + 2)]) && v.main == w.main
  {
    var a := Apply(w, Step(t, false));
    assert a.tasks == w.tasks[t := Task(false, ReadingModel, w.main.value)] && Now(a) == Now(w) + 1;
    AppliesOn(a, t);
  }

  lemma AppliesOn(w: World, t: nat)
    requires t in w.tasks && !w.tasks[t].child && w.tasks[t].pc.ReadingModel? && Current(w, w.tasks[t].judgement)
    ensures var v := Go(w, t, 2);
      && v == w.(tasks := w.tasks - {t}, writes := w.writes + [Write(w.tasks[t].judgement.since, Now(w) + 1)], history := v.history)
      && Now(v) == Now(w) + 2
  {
    var a := Apply(w, Return(t, Usable, false));
    assert a.tasks == w.tasks[t := w.tasks[t].(pc := Selecting)] && Now(a) == Now(w) + 1;
    assert a.tasks - {t} == w.tasks - {t};
    var b := Apply(a, Return(t, Usable, false));
    assert Go(w, t, 2) == Go(a, t, 1) == Go(b, t, 0) == b;
  }

  /** A failed judgement of the main session leaves AUTO and writes nothing; that of a child only ends the child's. */
  lemma FailureAlone(w: World, t: nat)
    requires t !in w.tasks && w.mode.AUTO?
    ensures var v := Apply(Apply(w, Step(t, true)), Return(t, Failed, false)); v.mode.MANUAL? && v.main.None? && v.writes == w.writes && v.tasks == w.tasks
    ensures var v := Apply(Apply(w, Child(t, false)), Return(t, Failed, false)); OnlyWrites(w, v, [])
  {
  }

  /**
   * One mode request alone: the mode is the one asked for, except that AUTO on an unsupported model falls back at once.
   * A new mode outdates the judgements that are running, and so does the fallback.
   */
  lemma RequestAlone(w: World, mode: Mode, supported: bool)
    requires w.request.None?
    ensures var v := Apply(Apply(Apply(Apply(w, Arrive(Some(mode))), Resolve(true)), Commit(true)), Settle(supported));
      && v.request.None? && v.tasks == w.tasks && v.writes == w.writes
      && v.mode == (if mode.AUTO? && !supported then MANUAL else mode)
      && v.epoch == w.epoch + (if mode != w.mode then 1 else 0) + (if mode.AUTO? && !supported then 1 else 0)
  {
    var a := Apply(w, Arrive(Some(mode)));
    assert a.request.value.phase == if mode != w.mode then Checking else Committing;
    var b := Apply(a, Resolve(true));
    assert b.request.value.phase.Committing? && b.request.value.mode == Some(mode) && b.mode == w.mode;
    assert b.epoch == w.epoch + (if mode != w.mode then 1 else 0) && b.tasks == w.tasks && b.writes == w.writes;
    CommitAlone(b, mode, supported);
  }

  lemma CommitAlone(w: World, mode: Mode, supported: bool)
    requires w.request.Some? && w.request.value.phase.Committing? && w.request.value.mode == Some(mode)
    ensures var v := Apply(Apply(w, Commit(true)), Settle(supported));
      && v.request.None? && v.tasks == w.tasks && v.writes == w.writes
      && v.mode == (if mode.AUTO? && !supported then MANUAL else mode)
      && v.epoch == w.epoch + (if mode.AUTO? && !supported then 1 else 0)
  {
  }
}
