/** The AUTO usage report: reading a session log, linking calls to decisions, grouping decisions and classing them. */
module UsageReport {
  import opened JsObject

  datatype Feedback = Appropriate | TooHigh | TooLow | Unsure
  datatype End = Completed | Blocked | AbortedUser | AbortedOther | OtherEnd | UnknownEnd

  datatype Call = Call(id: string, turn: Option<int>, userTurn: Option<int>, time: int)

  datatype Log = Log(calls: seq<Call>, ends: map<int, End>, userStarts: map<int, int>)

  // ----- one session log -----

  datatype LogEvent =
    | TurnStart(turn: Option<int>, time: Option<int>)
    | UserMessage(fromUser: bool)
    | TurnEnd(ended: Option<int>, end: End)
    | AssistantMessage(append: bool, id: Option<string>, ownTurn: Option<int>, at: int)
    | OtherEvent

  datatype Scan = Scan(log: Log, seen: set<string>, startedAt: Option<int>, turn: Option<int>, userTurn: Option<int>)

  const EMPTY := Scan(Log([], map[], map[]), {}, None, None, None)

  function ReadEvent(s: Scan, e: LogEvent): Scan {
    match e
    case TurnStart(turn, time) => s.(turn := turn, startedAt := time)
    case UserMessage(fromUser) =>
      if !fromUser || s.turn.None? then s
      else if s.startedAt.None? then s.(userTurn := s.turn)
      else s.(userTurn := s.turn, log := s.log.(userStarts := s.log.userStarts[s.turn.value := s.startedAt.value]))
    case TurnEnd(ended, end) => if ended.None? then s else s.(log := s.log.(ends := s.log.ends[ended.value := end]))
    case AssistantMessage(append, id, ownTurn, at) =>
      if !append || id.None? || id.value in s.seen then s
      else
        var call := Call(id.value, if ownTurn.Some? then ownTurn else s.turn, s.userTurn, at);
        s.(seen := s.seen + {id.value}, log := s.log.(calls := s.log.calls + [call]))
    case OtherEvent => s
  }

  function ReadAll(events: seq<LogEvent>): Scan {
    if events == [] then EMPTY else ReadEvent(ReadAll(events[..|events| - 1]), events[|events| - 1])
  }

  method ReadSession(events: seq<LogEvent>) returns (log: Log)
    ensures log == ReadAll(events).log
  {
    var calls: seq<Call>, ends: map<int, End>, userStarts: map<int, int> := [], map[], map[];
    var seen: set<string> := {};
    var startedAt: Option<int>, turn: Option<int>, userTurn: Option<int> := None, None, None;
    var i := 0;
    while i < |events|
      invariant 0 <= i <= |events|
      invariant Scan(Log(calls, ends, userStarts), seen, startedAt, turn, userTurn) == ReadAll(events[..i])
    {
      assert events[..i + 1][..i] == events[..i];
      match events[i] {
        case TurnStart(t, time) => turn, startedAt := t, time;
        case UserMessage(fromUser) =>
          if fromUser && turn.Some? {
            userTurn := turn;
            if startedAt.Some? { userStarts := userStarts[turn.value := startedAt.value]; }
          }
        case TurnEnd(ended, end) => if ended.Some? { ends := ends[ended.value := end]; }
        case AssistantMessage(append, id, ownTurn, at) =>
          if append && id.Some? && id.value !in seen {
            seen := seen + {id.value};
            calls := calls + [Call(id.value, if ownTurn.Some? then ownTurn else turn, userTurn, at)];
          }
        case OtherEvent =>
      }
      i := i + 1;
    }
    assert events[..i] == events;
    log := Log(calls, ends, userStarts);
  }

  /** A message written again is not a second call. */
  lemma {:induction false} CallIdsAreDistinct(events: seq<LogEvent>)
    ensures forall i, j :: 0 <= i < j < |ReadAll(events).log.calls| ==> ReadAll(events).log.calls[i].id != ReadAll(events).log.calls[j].id
    ensures forall i :: 0 <= i < |ReadAll(events).log.calls| ==> ReadAll(events).log.calls[i].id in ReadAll(events).seen
  {
    if events != [] { CallIdsAreDistinct(events[..|events| - 1]); }
  }

  function ValueIn<T>(next: map<int, T>, turn: int): Option<T> {
    if turn in next then Some(next[turn]) else None
  }

  /** The turn begun last. */
  function TurnAt(events: seq<LogEvent>): Option<int> {
    if events == [] then None
    else if events[|events| - 1].TurnStart? then events[|events| - 1].turn else TurnAt(events[..|events| - 1])
  }

  function TimeAt(events: seq<LogEvent>): Option<int> {
    if events == [] then None
    else if events[|events| - 1].TurnStart? then events[|events| - 1].time else TimeAt(events[..|events| - 1])
  }

  /** The user has spoken in turn `t`, as event `i`. */
  predicate SpeaksIn(events: seq<LogEvent>, i: int, t: int) {
    0 <= i < |events| && events[i] == UserMessage(true) && TurnAt(events[..i]) == Some(t)
  }

  /** The turn in which the user has spoken last. */
  function UserTurnAt(events: seq<LogEvent>): Option<int> {
    if events == [] then None
    else
      var front := events[..|events| - 1];
      if events[|events| - 1] == UserMessage(true) && TurnAt(front).Some? then TurnAt(front) else UserTurnAt(front)
  }

  predicate Appends(e: LogEvent, id: string) {
    e.AssistantMessage? && e.append && e.id == Some(id)
  }

  /** The calls of the log: each message where it is appended first, in the turns of that moment. */
  function FirstCalls(events: seq<LogEvent>): seq<Call> {
    if events == [] then []
    else
      var front, e := events[..|events| - 1], events[|events| - 1];
      if e.AssistantMessage? && e.append && e.id.Some? && !exists j :: 0 <= j < |front| && Appends(front[j], e.id.value)
      then FirstCalls(front) + [Call(e.id.value, if e.ownTurn.Some? then e.ownTurn else TurnAt(front), UserTurnAt(front), e.at)]
      else FirstCalls(front)
  }

  predicate EndsTurn(e: LogEvent, t: int) {
    e.TurnEnd? && e.ended == Some(t)
  }

  /** How the turn ended last. */
  function LastEnd(events: seq<LogEvent>, t: int): Option<End> {
    if events == [] then None
    else if EndsTurn(events[|events| - 1], t) then Some(events[|events| - 1].end) else LastEnd(events[..|events| - 1], t)
  }

  /** When the turn began, as it was known when the user last spoke in it. */
  function LastStart(events: seq<LogEvent>, t: int): Option<int> {
    if events == [] then None
    else
      var front := events[..|events| - 1];
      if SpeaksIn(events, |front|, t) && TimeAt(front).Some? then TimeAt(front) else LastStart(front, t)
  }

  ghost predicate TurnsGathered(events: seq<LogEvent>, s: Scan) {
    s.turn == TurnAt(events) && s.startedAt == TimeAt(events) && s.userTurn == UserTurnAt(events)
  }

  ghost predicate CallsGathered(events: seq<LogEvent>, s: Scan) {
    s.log.calls == FirstCalls(events) && forall id :: id in s.seen <==> exists j :: 0 <= j < |events| && Appends(events[j], id)
  }

  ghost predicate EndsGathered(events: seq<LogEvent>, ends: map<int, End>) {
    forall t :: LastEnd(events, t) == ValueIn(ends, t)
  }

  ghost predicate StartsGathered(events: seq<LogEvent>, userStarts: map<int, int>) {
    forall t :: LastStart(events, t) == ValueIn(userStarts, t)
  }

  /** What the loop has gathered. */
  ghost predicate Gathered(events: seq<LogEvent>, s: Scan) {
    TurnsGathered(events, s) && CallsGathered(events, s) && EndsGathered(events, s.log.ends) && StartsGathered(events, s.log.userStarts)
  }

  lemma OneMoreEvent(front: seq<LogEvent>, e: LogEvent)
    ensures var events := front + [e]; events[..|front|] == front && events[..|events| - 1] == front && events[|events| - 1] == e
  {
  }

  lemma TurnsMore(front: seq<LogEvent>, e: LogEvent, s: Scan)
    requires TurnsGathered(front, s)
    ensures TurnsGathered(front + [e], ReadEvent(s, e))
  {
    OneMoreEvent(front, e);
  }

  lemma CallsMore(front: seq<LogEvent>, e: LogEvent, s: Scan)
    requires TurnsGathered(front, s) && CallsGathered(front, s)
    ensures CallsGathered(front + [e], ReadEvent(s, e))
  {
    OneMoreEvent(front, e);
    var events := front + [e];
    forall id ensures (exists j :: 0 <= j < |events| && Appends(events[j], id)) <==> (exists j :: 0 <= j < |front| && Appends(front[j], id)) || Appends(e, id) {
      SomeAppends(front, e, id);
    }
  }

  lemma EndsMore(front: seq<LogEvent>, e: LogEvent, s: Scan)
    requires EndsGathered(front, s.log.ends)
    ensures EndsGathered(front + [e], ReadEvent(s, e).log.ends)
  {
    OneMoreEvent(front, e);
    forall t ensures LastEnd(front + [e], t) == if EndsTurn(e, t) then Some(e.end) else ValueIn(s.log.ends, t) {}
  }

  lemma StartsMore(front: seq<LogEvent>, e: LogEvent, s: Scan)
    requires TurnsGathered(front, s) && StartsGathered(front, s.log.userStarts)
    ensures StartsGathered(front + [e], ReadEvent(s, e).log.userStarts)
  {
    OneMoreEvent(front, e);
    forall t ensures LastStart(front + [e], t) == if e == UserMessage(true) && s.turn == Some(t) && s.startedAt.Some? then s.startedAt else ValueIn(s.log.userStarts, t) {}
  }

  lemma GatheredMore(front: seq<LogEvent>, e: LogEvent, s: Scan)
    requires Gathered(front, s)
    ensures Gathered(front + [e], ReadEvent(s, e))
  {
    TurnsMore(front, e, s);
    CallsMore(front, e, s);
    EndsMore(front, e, s);
    StartsMore(front, e, s);
  }

  lemma SomeAppends(front: seq<LogEvent>, e: LogEvent, id: string)
    ensures var events := front + [e];
      (exists j :: 0 <= j < |events| && Appends(events[j], id)) <==> (exists j :: 0 <= j < |front| && Appends(front[j], id)) || Appends(e, id)
  {
    var events := front + [e];
    assert events[|front|] == e;
    if j :| 0 <= j < |front| && Appends(front[j], id) { assert events[j] == front[j]; }
  }

  /** The log of a session: its calls, how each turn ended last, and when each user turn began. */
  lemma {:induction false} LogExactly(events: seq<LogEvent>)
    ensures Gathered(events, ReadAll(events))
  {
    if events != [] {
      var front, e := events[..|events| - 1], events[|events| - 1];
      LogExactly(front);
      GatheredMore(front, e, ReadAll(front));
      assert events == front + [e];
    }
  }

  // ----- the start of the next user turn -----

  ghost predicate IsNextUserTurn(userStarts: map<int, int>, turn: int, u: int) {
    u in userStarts && turn < u && forall v :: v in userStarts && turn < v ==> u <= v
  }

  /** When the smallest strictly later user turn began, if there is one. */
  ghost function Continuation(userStarts: map<int, int>, turn: int): Option<int> {
    if u :| IsNextUserTurn(userStarts, turn, u) then Some(userStarts[u]) else None
  }

  predicate Descending(turns: seq<int>) {
    forall i, j :: 0 <= i < j < |turns| ==> turns[i] > turns[j]
  }

  method Pick<T(==)>(s: set<T>) returns (x: T)
    requires |s| > 0
    ensures x in s
  {
    x :| x in s;
  }

  method Largest(s: set<int>) returns (top: int)
    requires |s| > 0
    ensures top in s && forall u :: u in s ==> u <= top
  {
    top := Pick(s);
    var others := s - {top};
    while |others| > 0
      invariant others <= s && top in s && forall u :: u in s && u !in others ==> u <= top
    {
      var u := Pick(others);
      if u > top { top := u; }
      others := others - {u};
    }
  }

  /** The sort of the distinct turns, latest first. */
  method SortDescending(turns: set<int>) returns (r: seq<int>)
    ensures Descending(r) && forall t :: t in r <==> t in turns
  {
    r := [];
    var rest := turns;
    while |rest| > 0
      invariant Descending(r) && rest <= turns
      invariant forall t :: t in r <==> t in turns && t !in rest
      invariant forall t, u :: t in r && u in rest ==> t > u
    {
      var top := Largest(rest);
      assert forall k :: 0 <= k < |r| ==> r[k] in r;
      r := r + [top];
      rest := rest - {top};
    }
  }

  /** Below any later user turn there is a smallest one. */
  lemma {:induction false} NextUserTurnExists(userStarts: map<int, int>, turn: int, v: int)
    requires v in userStarts && turn < v
    ensures exists u :: IsNextUserTurn(userStarts, turn, u)
    decreases v - turn
  {
    if w :| w in userStarts && turn < w < v {
      NextUserTurnExists(userStarts, turn, w);
    } else {
      assert IsNextUserTurn(userStarts, turn, v);
    }
  }

  lemma NextIsUnique(userStarts: map<int, int>, turn: int, u: int, w: int)
    requires IsNextUserTurn(userStarts, turn, u) && IsNextUserTurn(userStarts, turn, w)
    ensures u == w
  {
  }

  lemma ContinuationIs(userStarts: map<int, int>, turn: int, u: int)
    requires IsNextUserTurn(userStarts, turn, u)
    ensures Continuation(userStarts, turn) == Some(userStarts[u])
  {
    forall w | IsNextUserTurn(userStarts, turn, w) ensures w == u { NextIsUnique(userStarts, turn, u, w); }
  }

  /** A later user turn there is, and a continuation there is, go together. */
  lemma ContinuationExists(userStarts: map<int, int>, turn: int)
    ensures Continuation(userStarts, turn).Some? <==> exists v :: v in userStarts && turn < v
  {
    if v :| v in userStarts && turn < v { NextUserTurnExists(userStarts, turn, v); }
  }

  function CallTurns(calls: seq<Call>): set<int> {
    set i | 0 <= i < |calls| && calls[i].turn.Some? :: calls[i].turn.value
  }

  /** `next` has the continuation of every turn of the log, and nothing where there is none. */
  ghost predicate Sweeps(log: Log, next: map<int, int>) {
    forall t :: t in CallTurns(log.calls) || t in log.userStarts ==> Continuation(log.userStarts, t) == ValueIn(next, t)
  }

  ghost predicate SmallestSeen(userStarts: map<int, int>, seen: seq<int>, at: Option<int>) {
    if at.None? then forall v :: v in userStarts ==> v !in seen
    else at.value in userStarts && at.value in seen && forall v :: v in userStarts && v in seen ==> at.value <= v
  }

  lemma SweepStep(userStarts: map<int, int>, turns: seq<int>, i: nat, at: Option<int>)
    requires i < |turns| && Descending(turns) && forall v :: v in userStarts ==> v in turns
    requires SmallestSeen(userStarts, turns[..i], at)
    ensures Continuation(userStarts, turns[i]) == StartAt(userStarts, at)
    ensures SmallestSeen(userStarts, turns[..i] + [turns[i]], if turns[i] in userStarts then Some(turns[i]) else at)
    ensures turns[i] !in turns[..i]
  {
    LaterAreBefore(turns, i, userStarts);
    if at.Some? {
      assert IsNextUserTurn(userStarts, turns[i], at.value);
      ContinuationIs(userStarts, turns[i], at.value);
    } else {
      ContinuationExists(userStarts, turns[i]);
    }
  }

  lemma LaterAreBefore(turns: seq<int>, i: nat, userStarts: map<int, int>)
    requires i < |turns| && Descending(turns) && forall v :: v in userStarts ==> v in turns
    ensures forall v :: v in userStarts && turns[i] < v ==> v in turns[..i]
    ensures forall v :: v in turns[..i] ==> turns[i] < v
  {
    forall v | v in userStarts && turns[i] < v ensures v in turns[..i] {
      var j :| 0 <= j < |turns| && turns[j] == v;
      assert turns[..i][j] == v;
    }
  }

  /** The sweep after the turns `seen`: `at` is the smallest user turn among them. */
  ghost predicate Swept(userStarts: map<int, int>, seen: seq<int>, next: map<int, int>, at: Option<int>) {
    && SmallestSeen(userStarts, seen, at)
    && (forall t :: t in next ==> t in seen)
    && forall t :: t in seen ==> Continuation(userStarts, t) == ValueIn(next, t)
  }

  ghost function StartAt(userStarts: map<int, int>, at: Option<int>): Option<int> {
    if at.Some? && at.value in userStarts then Some(userStarts[at.value]) else None
  }

  lemma SweptOneMore(userStarts: map<int, int>, seen: seq<int>, turn: int, next: map<int, int>, at: Option<int>, later: Option<int>)
    requires Swept(userStarts, seen, next, at) && turn !in seen
    requires Continuation(userStarts, turn) == StartAt(userStarts, at) && SmallestSeen(userStarts, seen + [turn], later)
    ensures var start := StartAt(userStarts, at);
      Swept(userStarts, seen + [turn], if start.Some? then next[turn := start.value] else next, later)
  {
  }

  /** The backward sweep over all turns gives each the start time of the smallest strictly later user turn. */
  method NextUserStarts(log: Log) returns (next: map<int, int>)
    ensures Sweeps(log, next)
  {
    var userStarts := log.userStarts;
    var turns := SortDescending(CallTurns(log.calls) + userStarts.Keys);
    next := map[];
    var latest: Option<int> := None;
    ghost var at: Option<int> := None;
    var i := 0;
    while i < |turns|
      invariant 0 <= i <= |turns|
      invariant Swept(userStarts, turns[..i], next, at)
      invariant latest == StartAt(userStarts, at)
    {
      var turn := turns[i];
      SweepStep(userStarts, turns, i, at);
      SweptOneMore(userStarts, turns[..i], turn, next, at, if turn in userStarts then Some(turn) else at);
      assert turns[..i + 1] == turns[..i] + [turn];
      if latest.Some? { next := next[turn := latest.value]; }
      if turn in userStarts {
        latest := Some(userStarts[turn]);
        at := Some(turn);
      }
      i := i + 1;
    }
    assert turns[..i] == turns;
  }

  // ----- linking calls to decisions -----

  type Key = (string, int)

  datatype Binding = Binding(decisionId: int, group: string, model: string, depth: string, effort: string, feedback: Option<Feedback>)

  datatype Decision = Decision(
    session: string, id: int, group: string, model: string, depth: string, effort: string,
    calls: seq<Call>, feedback: set<Feedback>, end: End, continuation: Option<int>)

  /** A call with everything its session says about it. */
  datatype Link = Link(call: Call, binding: Binding, end: End, continuation: Option<int>)

  ghost function LinkOf(log: Log, call: Call, b: Binding): Link {
    if call.turn.None? then Link(call, b, UnknownEnd, None)
    else
      Link(call, b, if call.turn.value in log.ends then log.ends[call.turn.value] else UnknownEnd, Continuation(log.userStarts, call.turn.value))
  }

  function LinkWith(log: Log, next: map<int, int>, call: Call, b: Binding): Link {
    if call.turn.None? then Link(call, b, UnknownEnd, None)
    else Link(call, b, if call.turn.value in log.ends then log.ends[call.turn.value] else UnknownEnd, ValueIn(next, call.turn.value))
  }

  lemma LinkWithIs(log: Log, next: map<int, int>, j: nat, b: Binding)
    requires Sweeps(log, next) && j < |log.calls|
    ensures LinkWith(log, next, log.calls[j], b) == LinkOf(log, log.calls[j], b)
  {
    assert log.calls[j].turn.Some? ==> log.calls[j].turn.value in CallTurns(log.calls);
  }

  /** The bound calls of one session, in order. */
  ghost function LinksOfCalls(book: map<(string, string), Binding>, session: string, log: Log, calls: seq<Call>): seq<(Key, Link)> {
    if calls == [] then []
    else
      var front := LinksOfCalls(book, session, log, calls[..|calls| - 1]);
      var call := calls[|calls| - 1];
      if (session, call.id) !in book then front
      else
        var b := book[(session, call.id)];
        front + [((session, b.decisionId), LinkOf(log, call, b))]
  }

  /** The calls of the session that are bound, in order. */
  function BoundCalls(book: map<(string, string), Binding>, session: string, calls: seq<Call>): seq<Call> {
    if calls == [] then []
    else
      var front, call := BoundCalls(book, session, calls[..|calls| - 1]), calls[|calls| - 1];
      if (session, call.id) in book then front + [call] else front
  }

  /** The start of the smallest later user turn, or nothing if there is none. */
  ghost predicate IsNextStart(userStarts: map<int, int>, turn: int, start: Option<int>) {
    if start.None? then forall u :: u in userStarts ==> u <= turn
    else exists u :: IsNextUserTurn(userStarts, turn, u) && start.value == userStarts[u]
  }

  /** What is known of a bound call: its binding and decision, how its turn ended, and when the user's next turn began. */
  ghost predicate IsLinkOf(book: map<(string, string), Binding>, session: string, log: Log, call: Call, entry: (Key, Link)) {
    var (key, l) := entry;
    && l.call == call && (session, call.id) in book && l.binding == book[(session, call.id)] && key == (session, l.binding.decisionId)
    && match call.turn
      case None => l.end == UnknownEnd && l.continuation.None?
      case Some(turn) =>
        && l.end == (if turn in log.ends then log.ends[turn] else UnknownEnd)
        && IsNextStart(log.userStarts, turn, l.continuation)
  }

  lemma LinkOfIs(book: map<(string, string), Binding>, session: string, log: Log, call: Call)
    requires (session, call.id) in book
    ensures var b := book[(session, call.id)]; IsLinkOf(book, session, log, call, ((session, b.decisionId), LinkOf(log, call, b)))
  {
    if call.turn.Some? { ContinuationExists(log.userStarts, call.turn.value); }
  }

  /** Every bound call is linked, in order, and with everything its session says about it. */
  lemma {:induction false} LinksExactly(book: map<(string, string), Binding>, session: string, log: Log, calls: seq<Call>)
    ensures var links, bound := LinksOfCalls(book, session, log, calls), BoundCalls(book, session, calls);
      |links| == |bound| && forall k :: 0 <= k < |links| ==> IsLinkOf(book, session, log, bound[k], links[k])
  {
    if calls != [] {
      var call := calls[|calls| - 1];
      LinksExactly(book, session, log, calls[..|calls| - 1]);
      if (session, call.id) in book { LinkOfIs(book, session, log, call); }
    }
  }

  ghost function AllLinks(book: map<(string, string), Binding>, logs: seq<(string, Log)>): seq<(Key, Link)> {
    if logs == [] then []
    else
      var (session, log) := logs[|logs| - 1];
      AllLinks(book, logs[..|logs| - 1]) + LinksOfCalls(book, session, log, log.calls)
  }

  function Rating(b: Binding): set<Feedback> { if b.feedback.Some? then {b.feedback.value} else {} }

  function Extended(d: Option<Decision>, key: Key, l: Link): Decision {
    var b := l.binding;
    var known := if d.Some? then d.value else Decision(key.0, key.1, b.group, b.model, b.depth, b.effort, [], {}, UnknownEnd, None);
    known.(calls := known.calls + [l.call], end := l.end, continuation := l.continuation, feedback := known.feedback + Rating(b))
  }

  function Join(ds: Obj<Key, Decision>, e: (Key, Link)): Obj<Key, Decision> {
    Put(ds, e.0, Extended(Get(ds, e.0), e.0, e.1))
  }

  function JoinAll(entries: seq<(Key, Link)>): Obj<Key, Decision> {
    if entries == [] then [] else Join(JoinAll(entries[..|entries| - 1]), entries[|entries| - 1])
  }

  /** What one more call of the session adds to its links. */
  lemma LinksOfOneMore(book: map<(string, string), Binding>, session: string, log: Log, next: map<int, int>, j: nat)
    requires Sweeps(log, next) && j < |log.calls|
    ensures var call := log.calls[j];
      var front := LinksOfCalls(book, session, log, log.calls[..j]);
      LinksOfCalls(book, session, log, log.calls[..j + 1])
      == if (session, call.id) !in book then front
         else
           var b := book[(session, call.id)];
           front + [((session, b.decisionId), LinkWith(log, next, call, b))]
  {
    assert log.calls[..j + 1][..j] == log.calls[..j];
    if (session, log.calls[j].id) in book { LinkWithIs(log, next, j, book[(session, log.calls[j].id)]); }
  }

  /** The calls of one session join their decisions; `done` is everything joined before. */
  method LinkSession(book: map<(string, string), Binding>, session: string, log: Log, before: Obj<Key, Decision>, ghost done: seq<(Key, Link)>)
      returns (decisions: Obj<Key, Decision>)
    requires before == JoinAll(done)
    ensures decisions == JoinAll(done + LinksOfCalls(book, session, log, log.calls))
  {
    decisions := before;
    var next := NextUserStarts(log);
    var j := 0;
    assert done + [] == done;
    while j < |log.calls|
      invariant 0 <= j <= |log.calls|
      invariant decisions == JoinAll(done + LinksOfCalls(book, session, log, log.calls[..j]))
    {
      var call := log.calls[j];
      LinksOfOneMore(book, session, log, next, j);
      if (session, call.id) in book {
        var b := book[(session, call.id)];
        var l := LinkWith(log, next, call, b);
        var key := (session, b.decisionId);
        JoinOneMore(done, LinksOfCalls(book, session, log, log.calls[..j]), (key, l));
        decisions := Put(decisions, key, Extended(Get(decisions, key), key, l));
      }
      j := j + 1;
    }
    assert log.calls[..j] == log.calls;
  }

  lemma JoinOneMore(done: seq<(Key, Link)>, more: seq<(Key, Link)>, e: (Key, Link))
    ensures JoinAll(done + (more + [e])) == Join(JoinAll(done + more), e)
  {
    var all := done + (more + [e]);
    assert all[..|all| - 1] == done + more;
  }

  method LinkDecisions(book: map<(string, string), Binding>, logs: seq<(string, Log)>) returns (decisions: Obj<Key, Decision>)
    ensures decisions == JoinAll(AllLinks(book, logs))
  {
    decisions := [];
    for i := 0 to |logs|
      invariant decisions == JoinAll(AllLinks(book, logs[..i]))
    {
      assert logs[..i + 1][..i] == logs[..i];
      decisions := LinkSession(book, logs[i].0, logs[i].1, decisions, AllLinks(book, logs[..i]));
    }
    assert logs[..|logs|] == logs;
  }

  function Under(entries: seq<(Key, Link)>, key: Key): seq<Link> {
    if entries == [] then []
    else if entries[|entries| - 1].0 == key then Under(entries[..|entries| - 1], key) + [entries[|entries| - 1].1]
    else Under(entries[..|entries| - 1], key)
  }

  function CallsOf(links: seq<Link>): seq<Call> {
    seq(|links|, i requires 0 <= i < |links| => links[i].call)
  }

  /** What a decision is made of: identity from its first call, end and continuation from its last, ratings from all. */
  ghost predicate Summarizes(d: Decision, key: Key, links: seq<Link>) {
    && links != [] && d.session == key.0 && d.id == key.1
    && (d.group, d.model, d.depth, d.effort) == (links[0].binding.group, links[0].binding.model, links[0].binding.depth, links[0].binding.effort)
    && d.calls == CallsOf(links)
    && d.end == links[|links| - 1].end && d.continuation == links[|links| - 1].continuation
    && forall f :: f in d.feedback <==> exists i :: 0 <= i < |links| && links[i].binding.feedback == Some(f)
  }

  lemma ExtendedSummarizes(d: Option<Decision>, key: Key, links: seq<Link>, l: Link)
    requires if d.None? then links == [] else Summarizes(d.value, key, links)
    ensures Summarizes(Extended(d, key, l), key, links + [l])
  {
    var more := links + [l];
    var v := Extended(d, key, l);
    assert CallsOf(more) == CallsOf(links) + [l.call];
    forall f ensures f in v.feedback <==> exists i :: 0 <= i < |more| && more[i].binding.feedback == Some(f) {
      if f in v.feedback {
        if l.binding.feedback == Some(f) {
          assert more[|links|].binding.feedback == Some(f);
        } else {
          var i :| 0 <= i < |links| && links[i].binding.feedback == Some(f);
          assert more[i].binding.feedback == Some(f);
        }
      }
    }
  }

  /** A decision holds exactly the calls bound to it, in log order, and exists exactly when there are any. */
  lemma {:induction false} DecisionsAreTheirCalls(entries: seq<(Key, Link)>, key: Key)
    ensures var d := Get(JoinAll(entries), key);
      if Under(entries, key) == [] then d == None else d.Some? && Summarizes(d.value, key, Under(entries, key))
  {
    if entries != [] {
      var front, e := entries[..|entries| - 1], entries[|entries| - 1];
      DecisionsAreTheirCalls(front, key);
      GetPut(JoinAll(front), e.0, Extended(Get(JoinAll(front), e.0), e.0, e.1), key);
      if e.0 == key { ExtendedSummarizes(Get(JoinAll(front), key), key, Under(front, key), e.1); }
    }
  }

  // ----- totals -----

  function Total<K, V>(o: Obj<K, V>, w: V -> nat): nat {
    if o == [] then 0 else w(o[0].1) + Total(o[1..], w)
  }

  lemma {:induction false} TotalPut<K, V>(o: Obj<K, V>, k: K, v: V, w: V -> nat)
    ensures Total(Put(o, k, v), w) + (if Get(o, k).Some? then w(Get(o, k).value) else 0) == Total(o, w) + w(v)
  {
    if o != [] {
      if o[0].0 == k {
        assert Put(o, k, v)[1..] == o[1..];
      } else {
        TotalPut(o[1..], k, v, w);
        assert Put(o, k, v)[1..] == Put(o[1..], k, v);
      }
    } else {
      assert Put(o, k, v)[1..] == [];
    }
  }

  function CallCount(d: Decision): nat { |d.calls| }

  /** Every linked call joins exactly one decision: none is lost and none counted twice. */
  lemma {:induction false} LinkedCallsAreConserved(entries: seq<(Key, Link)>)
    ensures Total(JoinAll(entries), CallCount) == |entries|
  {
    if entries != [] {
      var front, e := entries[..|entries| - 1], entries[|entries| - 1];
      LinkedCallsAreConserved(front);
      TotalPut(JoinAll(front), e.0, Extended(Get(JoinAll(front), e.0), e.0, e.1), CallCount);
    }
  }

  // ----- groups and subgroups -----

  type Subs = Obj<(string, string), seq<Decision>>

  function SubKey(d: Decision): (string, string) { (d.model, d.depth) }

  function Listed<K(==)>(o: Obj<K, seq<Decision>>, k: K): seq<Decision> {
    if Get(o, k).Some? then Get(o, k).value else []
  }

  function SubsOf(groups: Obj<string, Subs>, group: string): Subs {
    if Get(groups, group).Some? then Get(groups, group).value else []
  }

  function Place(groups: Obj<string, Subs>, d: Decision): Obj<string, Subs> {
    var subs := SubsOf(groups, d.group);
    Put(groups, d.group, Put(subs, SubKey(d), Listed(subs, SubKey(d)) + [d]))
  }

  function PlaceAll(kept: seq<Decision>): Obj<string, Subs> {
    if kept == [] then [] else Place(PlaceAll(kept[..|kept| - 1]), kept[|kept| - 1])
  }

  method GroupDecisions(kept: seq<Decision>) returns (groups: Obj<string, Subs>)
    ensures groups == PlaceAll(kept)
  {
    groups := [];
    for i := 0 to |kept|
      invariant groups == PlaceAll(kept[..i])
    {
      assert kept[..i + 1][..i] == kept[..i];
      var d := kept[i];
      var subs := SubsOf(groups, d.group);
      subs := Put(subs, (d.model, d.depth), Listed(subs, (d.model, d.depth)) + [d]);
      groups := Put(groups, d.group, subs);
    }
    assert kept[..|kept|] == kept;
  }

  function Matching(kept: seq<Decision>, group: string, key: (string, string)): seq<Decision> {
    if kept == [] then []
    else if kept[|kept| - 1].group == group && SubKey(kept[|kept| - 1]) == key then Matching(kept[..|kept| - 1], group, key) + [kept[|kept| - 1]]
    else Matching(kept[..|kept| - 1], group, key)
  }

  /** Each subgroup is the list of kept decisions with its group, model and depth, in order. */
  lemma {:induction false} SubgroupsAreTheirDecisions(kept: seq<Decision>, group: string, key: (string, string))
    ensures Listed(SubsOf(PlaceAll(kept), group), key) == Matching(kept, group, key)
  {
    if kept != [] {
      var front, d := kept[..|kept| - 1], kept[|kept| - 1];
      SubgroupsAreTheirDecisions(front, group, key);
      var groups := PlaceAll(front);
      var subs := SubsOf(groups, d.group);
      GetPut(groups, d.group, Put(subs, SubKey(d), Listed(subs, SubKey(d)) + [d]), group);
      GetPut(subs, SubKey(d), Listed(subs, SubKey(d)) + [d], key);
    }
  }

  function SumCalls(list: seq<Decision>): nat {
    if list == [] then 0 else SumCalls(list[..|list| - 1]) + |list[|list| - 1].calls|
  }

  function Length(list: seq<Decision>): nat { |list| }
  function DecisionsIn(subs: Subs): nat { Total(subs, Length) }
  function CallsIn(subs: Subs): nat { Total(subs, SumCalls) }

  /** Across all groups and subgroups, decisions and calls add up to those of the kept decisions. */
  lemma {:induction false} GroupTotalsAreConserved(kept: seq<Decision>)
    ensures Total(PlaceAll(kept), DecisionsIn) == |kept|
    ensures Total(PlaceAll(kept), CallsIn) == SumCalls(kept)
  {
    if kept != [] {
      var front, d := kept[..|kept| - 1], kept[|kept| - 1];
      GroupTotalsAreConserved(front);
      var groups := PlaceAll(front);
      var subs := SubsOf(groups, d.group);
      var list := Listed(subs, SubKey(d));
      assert (list + [d])[..|list|] == list;
      TotalPut(subs, SubKey(d), list + [d], Length);
      TotalPut(subs, SubKey(d), list + [d], SumCalls);
      TotalPut(groups, d.group, Put(subs, SubKey(d), list + [d]), DecisionsIn);
      TotalPut(groups, d.group, Put(subs, SubKey(d), list + [d]), CallsIn);
    }
  }

  // ----- classing the decisions of a subgroup -----

  datatype Facts = Facts(exposed: Option<int>, manualSwitch: Option<int>)

  datatype Bucket = Unrated | Conflict | Only(feedback: Feedback)
  datatype Class = Explicit | Negative | ImplicitOk | Inconclusive | Unobserved

  /** The counters of one subgroup; the tables have every label but `Unrated`. */
  datatype Counts = Counts(
    explicit: nat, negative: nat, implicitOk: nat, inconclusive: nat, unobserved: nat,
    labels: map<Bucket, nat>, exposedLabels: map<Bucket, nat>, aborted: nat, switched: nat)

  function BucketOf(d: Decision): Bucket {
    if |d.feedback| == 0 then Unrated
    else if |d.feedback| > 1 then Conflict
    else if Appropriate in d.feedback then Only(Appropriate)
    else if TooHigh in d.feedback then Only(TooHigh)
    else if TooLow in d.feedback then Only(TooLow)
    else Only(Unsure)
  }

  predicate Exposed(d: Decision, f: Facts) {
    f.exposed.Some? && (d.continuation.None? || f.exposed.value < d.continuation.value)
  }

  /** The decision was rated, or cut short by the user, or neither and shown to the user before the next turn, and so on. */
  predicate Belongs(d: Decision, f: Facts, c: Class) {
    var cutShort := d.end == AbortedUser || f.manualSwitch.Some?;
    match c
    case Explicit => d.feedback != {}
    case Negative => d.feedback == {} && cutShort
    case ImplicitOk =>
      && d.feedback == {} && f.manualSwitch.None? && d.end == Completed
      && f.exposed.Some? && d.continuation.Some? && f.exposed.value < d.continuation.value
    case Inconclusive =>
      && d.feedback == {} && !cutShort && f.exposed.Some?
      && (d.continuation.None? || (d.end != Completed && f.exposed.value < d.continuation.value))
    case Unobserved =>
      d.feedback == {} && !cutShort && (f.exposed.None? || (d.continuation.Some? && d.continuation.value <= f.exposed.value))
  }

  function FactsOf(book: map<Key, Facts>, d: Decision): Facts {
    if (d.session, d.id) in book then book[(d.session, d.id)] else Facts(None, None)
  }

  /** What a counter of the report asks of a decision. */
  datatype Question =
    | InClass(c: Class)
    | Labelled(bucket: Bucket) | ExposedLabelled(bucket: Bucket)
    | ByAbort | BySwitch | ByBoth
    | ExposedAtAll | ExposedNegative | ExposedExplicit

  predicate Answers(q: Question, d: Decision, f: Facts) {
    match q
    case InClass(c) => Belongs(d, f, c)
    case Labelled(b) => Belongs(d, f, Explicit) && BucketOf(d) == b
    case ExposedLabelled(b) => Belongs(d, f, Explicit) && BucketOf(d) == b && Exposed(d, f)
    case ByAbort => Belongs(d, f, Negative) && d.end == AbortedUser
    case BySwitch => Belongs(d, f, Negative) && f.manualSwitch.Some?
    case ByBoth => Belongs(d, f, Negative) && d.end == AbortedUser && f.manualSwitch.Some?
    case ExposedAtAll => Exposed(d, f)
    case ExposedNegative => Belongs(d, f, Negative) && Exposed(d, f)
    case ExposedExplicit => Belongs(d, f, Explicit) && Exposed(d, f)
  }

  function One(b: bool): nat { if b then 1 else 0 }

  function Count(list: seq<Decision>, book: map<Key, Facts>, q: Question): nat {
    if list == [] then 0
    else
      var d := list[|list| - 1];
      Count(list[..|list| - 1], book, q) + One(Answers(q, d, FactsOf(book, d)))
  }

  function CountBucket(list: seq<Decision>, b: Bucket): nat {
    if list == [] then 0 else CountBucket(list[..|list| - 1], b) + One(BucketOf(list[|list| - 1]) == b)
  }

  const ZEROES: map<Bucket, nat> := map[Conflict := 0, Only(Appropriate) := 0, Only(TooHigh) := 0, Only(TooLow) := 0, Only(Unsure) := 0]

  /** The counters start with every label in place. */
  lemma ZeroesHaveEveryLabel(b: Bucket)
    ensures (b in ZEROES <==> b != Unrated) && (b in ZEROES ==> ZEROES[b] == 0)
  {
    match b
    case Unrated =>
    case Conflict =>
    case Only(f) => match f case Appropriate => case TooHigh => case TooLow => case Unsure =>
  }

  function Bump(counters: map<Bucket, nat>, b: Bucket): map<Bucket, nat>
    requires b in counters
  {
    counters[b := counters[b] + 1]
  }

  /** The feedback counters of one subgroup. */
  method CountBuckets(list: seq<Decision>) returns (buckets: map<Bucket, nat>)
    ensures forall b :: b in buckets && buckets[b] == CountBucket(list, b)
  {
    buckets := ZEROES[Unrated := 0];
    forall b { ZeroesHaveEveryLabel(b); }
    for i := 0 to |list|
      invariant forall b :: b in buckets && buckets[b] == CountBucket(list[..i], b)
    {
      assert list[..i + 1][..i] == list[..i];
      buckets := Bump(buckets, BucketOf(list[i]));
    }
    assert list[..|list|] == list;
  }

  ghost predicate AreLabels(counters: map<Bucket, nat>, list: seq<Decision>, book: map<Key, Facts>, exposed: bool) {
    forall b :: (b in counters <==> b != Unrated)
      && (b in counters ==> counters[b] == Count(list, book, if exposed then ExposedLabelled(b) else Labelled(b)))
  }

  /** Each counter is the number of decisions it is named after. */
  ghost predicate AreCounts(counts: Counts, list: seq<Decision>, book: map<Key, Facts>) {
    && counts.explicit == Count(list, book, InClass(Explicit)) && counts.negative == Count(list, book, InClass(Negative))
    && counts.implicitOk == Count(list, book, InClass(ImplicitOk)) && counts.inconclusive == Count(list, book, InClass(Inconclusive))
    && counts.unobserved == Count(list, book, InClass(Unobserved))
    && AreLabels(counts.labels, list, book, false) && AreLabels(counts.exposedLabels, list, book, true)
    && counts.aborted == Count(list, book, ByAbort) && counts.switched == Count(list, book, BySwitch)
  }

  lemma CountOneMore(list: seq<Decision>, d: Decision, book: map<Key, Facts>, q: Question)
    ensures Count(list + [d], book, q) == Count(list, book, q) + One(Answers(q, d, FactsOf(book, d)))
  {
    assert (list + [d])[..|list|] == list;
  }

  lemma LabelOneMore(counters: map<Bucket, nat>, list: seq<Decision>, d: Decision, book: map<Key, Facts>, exposed: bool)
    requires AreLabels(counters, list, book, exposed)
    ensures var f := FactsOf(book, d);
      var more := if BucketOf(d) != Unrated && (!exposed || Exposed(d, f)) then Bump(counters, BucketOf(d)) else counters;
      AreLabels(more, list + [d], book, exposed)
  {
    BucketIsTheRating(d, Unsure);
    forall b { CountOneMore(list, d, book, if exposed then ExposedLabelled(b) else Labelled(b)); }
  }

  /** Every counter after one more decision. */
  ghost function Counted(counts: Counts, d: Decision, f: Facts): Counts
    requires HasLabels(counts)
  {
    var b := BucketOf(d);
    Counts(
      counts.explicit + One(Belongs(d, f, Explicit)), counts.negative + One(Belongs(d, f, Negative)),
      counts.implicitOk + One(Belongs(d, f, ImplicitOk)), counts.inconclusive + One(Belongs(d, f, Inconclusive)),
      counts.unobserved + One(Belongs(d, f, Unobserved)),
      if b != Unrated then Bump(counts.labels, b) else counts.labels,
      if b != Unrated && Exposed(d, f) then Bump(counts.exposedLabels, b) else counts.exposedLabels,
      counts.aborted + One(Answers(ByAbort, d, f)), counts.switched + One(Answers(BySwitch, d, f)))
  }

  lemma CountsOneMore(counts: Counts, list: seq<Decision>, d: Decision, book: map<Key, Facts>)
    requires AreCounts(counts, list, book)
    ensures AreCounts(Counted(counts, d, FactsOf(book, d)), list + [d], book)
  {
    CountOneMore(list, d, book, InClass(Explicit));
    CountOneMore(list, d, book, InClass(Negative));
    CountOneMore(list, d, book, InClass(ImplicitOk));
    CountOneMore(list, d, book, InClass(Inconclusive));
    CountOneMore(list, d, book, InClass(Unobserved));
    CountOneMore(list, d, book, ByAbort);
    CountOneMore(list, d, book, BySwitch);
    LabelOneMore(counts.labels, list, d, book, false);
    LabelOneMore(counts.exposedLabels, list, d, book, true);
  }

  ghost predicate HasLabels(counts: Counts) {
    forall b :: (b in counts.labels <==> b != Unrated) && (b in counts.exposedLabels <==> b != Unrated)
  }

  /** The counters one decision adds to. */
  method CountDecision(before: Counts, d: Decision, facts: Facts) returns (counts: Counts)
    requires HasLabels(before)
    ensures counts == Counted(before, d, facts)
  {
    counts := before;
    BucketIsTheRating(d, Unsure);
    var exposed := facts.exposed.Some? && (d.continuation.None? || facts.exposed.value < d.continuation.value);
    var bucket := BucketOf(d);
    if bucket != Unrated {
      counts := counts.(explicit := counts.explicit + 1, labels := Bump(counts.labels, bucket));
      if exposed { counts := counts.(exposedLabels := Bump(counts.exposedLabels, bucket)); }
    } else if d.end == AbortedUser || facts.manualSwitch.Some? {
      counts := counts.(negative := counts.negative + 1);
      if d.end == AbortedUser { counts := counts.(aborted := counts.aborted + 1); }
      if facts.manualSwitch.Some? { counts := counts.(switched := counts.switched + 1); }
    } else if exposed && d.end == Completed && d.continuation.Some? {
      counts := counts.(implicitOk := counts.implicitOk + 1);
    } else if exposed {
      counts := counts.(inconclusive := counts.inconclusive + 1);
    } else {
      counts := counts.(unobserved := counts.unobserved + 1);
    }
  }

  method CountClasses(list: seq<Decision>, book: map<Key, Facts>) returns (counts: Counts)
    ensures AreCounts(counts, list, book)
  {
    counts := Counts(0, 0, 0, 0, 0, ZEROES, ZEROES, 0, 0);
    forall b { ZeroesHaveEveryLabel(b); }
    for i := 0 to |list|
      invariant AreCounts(counts, list[..i], book)
    {
      var d := list[i];
      assert list[..i + 1] == list[..i] + [d];
      CountsOneMore(counts, list[..i], d, book);
      counts := CountDecision(counts, d, FactsOf(book, d));
    }
    assert list[..|list|] == list;
  }

  lemma {:induction false} ClassesAddUp(list: seq<Decision>, book: map<Key, Facts>)
    ensures Count(list, book, InClass(Explicit)) + Count(list, book, InClass(Negative)) + Count(list, book, InClass(ImplicitOk))
            + Count(list, book, InClass(Inconclusive)) + Count(list, book, InClass(Unobserved)) == |list|
    ensures Count(list, book, InClass(Explicit)) + CountBucket(list, Unrated) == |list|
  {
    if list != [] {
      ClassesAddUp(list[..|list| - 1], book);
      BucketIsTheRating(list[|list| - 1], Unsure);
    }
  }

  lemma {:induction false} LabelsAgree(list: seq<Decision>, book: map<Key, Facts>, b: Bucket)
    requires b != Unrated
    ensures Count(list, book, ExposedLabelled(b)) <= Count(list, book, Labelled(b)) == CountBucket(list, b)
  {
    if list != [] {
      LabelsAgree(list[..|list| - 1], book, b);
      BucketIsTheRating(list[|list| - 1], Unsure);
    }
  }

  lemma {:induction false} NegativesAddUp(list: seq<Decision>, book: map<Key, Facts>)
    ensures Count(list, book, ByAbort) + Count(list, book, BySwitch)
            == Count(list, book, InClass(Negative)) + Count(list, book, ByBoth)
    ensures Count(list, book, ByBoth) <= Count(list, book, ByAbort) && Count(list, book, ByBoth) <= Count(list, book, BySwitch)
  {
    if list != [] { NegativesAddUp(list[..|list| - 1], book); }
  }

  ghost function OverLabels(list: seq<Decision>, book: map<Key, Facts>): nat {
    Count(list, book, ExposedLabelled(Conflict)) + Count(list, book, ExposedLabelled(Only(Appropriate)))
    + Count(list, book, ExposedLabelled(Only(TooHigh))) + Count(list, book, ExposedLabelled(Only(TooLow)))
    + Count(list, book, ExposedLabelled(Only(Unsure)))
  }

  lemma OneLabel(b: Bucket, counted: bool)
    ensures One(b == Conflict && counted) + One(b == Only(Appropriate) && counted) + One(b == Only(TooHigh) && counted)
            + One(b == Only(TooLow) && counted) + One(b == Only(Unsure) && counted) == One(b != Unrated && counted)
  {
    match b
    case Unrated =>
    case Conflict =>
    case Only(f) => match f case Appropriate => case TooHigh => case TooLow => case Unsure =>
  }

  lemma {:induction false} ExposedLabelsAddUp(list: seq<Decision>, book: map<Key, Facts>)
    ensures OverLabels(list, book) == Count(list, book, ExposedExplicit)
  {
    if list != [] {
      var d := list[|list| - 1];
      ExposedLabelsAddUp(list[..|list| - 1], book);
      BucketIsTheRating(d, Unsure);
      OneLabel(BucketOf(d), Exposed(d, FactsOf(book, d)));
    }
  }

  lemma {:induction false} ExposedAddUp(list: seq<Decision>, book: map<Key, Facts>)
    ensures Count(list, book, InClass(ImplicitOk)) + Count(list, book, InClass(Inconclusive))
            + Count(list, book, ExposedNegative) + Count(list, book, ExposedExplicit) == Count(list, book, ExposedAtAll)
  {
    if list != [] { ExposedAddUp(list[..|list| - 1], book); }
  }

  /**
   * How the counters of one subgroup hang together: every decision is explicit or unrated, and the feedback counters are
   * the explicit labels again; each negative has a cause, and only those with both are counted under both; every exposed
   * decision is an exposed label, a negative, implicitly fine or inconclusive.
   */
  lemma CountersAgree(counts: Counts, buckets: map<Bucket, nat>, list: seq<Decision>, book: map<Key, Facts>)
    requires AreCounts(counts, list, book) && forall b :: b in buckets && buckets[b] == CountBucket(list, b)
    ensures counts.explicit + buckets[Unrated] == |list|
    ensures counts.explicit + counts.negative + counts.implicitOk + counts.inconclusive + counts.unobserved == |list|
    ensures forall b :: b != Unrated ==>
              b in counts.labels && b in counts.exposedLabels && counts.exposedLabels[b] <= counts.labels[b] == buckets[b]
    ensures counts.aborted + counts.switched == counts.negative + Count(list, book, ByBoth)
    ensures counts.aborted <= counts.negative && counts.switched <= counts.negative
    ensures var over := counts.exposedLabels;
      over[Conflict] + over[Only(Appropriate)] + over[Only(TooHigh)] + over[Only(TooLow)] + over[Only(Unsure)]
      + counts.implicitOk + counts.inconclusive + Count(list, book, ExposedNegative) == Count(list, book, ExposedAtAll)
  {
    ClassesAddUp(list, book);
    forall b | b != Unrated ensures counts.exposedLabels[b] <= counts.labels[b] == buckets[b] { LabelsAgree(list, book, b); }
    NegativesAddUp(list, book);
    ExposedLabelsAddUp(list, book);
    ExposedAddUp(list, book);
  }

  lemma SingletonIs<T>(s: set<T>, x: T)
    requires |s| == 1 && x in s
    ensures s == {x}
  {
    assert |s - {x}| == 0;
    assert s == (s - {x}) + {x};
  }

  /** A single rating is put in its own bucket. */
  lemma BucketIsTheRating(d: Decision, f: Feedback)
    ensures BucketOf(d) == Only(f) <==> d.feedback == {f}
    ensures BucketOf(d) == Unrated <==> d.feedback == {}
  {
    var s := d.feedback;
    if |s| == 1 {
      var g :| g in s;
      SingletonIs(s, g);
      assert g == Appropriate || g == TooHigh || g == TooLow || g == Unsure;
    }
  }
}
