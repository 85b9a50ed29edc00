/** The allocation feedback book: decision bindings, ratings and facts held in memory beside an append-only file of lines. */
module FeedbackBook {
  import opened JsObject
  import opened Lines

  datatype Feedback = Appropriate | TooHigh | TooLow | Unsure

  /** The `feedback` property of a record: missing, null or a rating. */
  datatype Rating = Missing | Null | Rated(feedback: Feedback)

  /** What a binding says about the decision; nothing of it is ever rewritten. */
  datatype Decision = Decision(id: int, depth: string, model: string, effort: string, snapshot: Option<string>, boundAt: Option<int>)

  datatype Record = Record(sessionId: string, messageId: string, decision: Decision, feedback: Rating, feedbackAt: Option<int>)

  datatype Fact = Exposed | ManualSwitch

  datatype Event =
    | FactEvent(sessionId: string, decisionId: int, fact: Fact, at: int)
    | FeedbackEvent(sessionId: string, messageId: string, decisionId: int, at: int, feedback: Rating)
    | Binding(record: Record)

  type MessageKey = (string, string)
  type DecisionKey = (string, int)

  datatype Book = Book(records: map<MessageKey, Record>, facts: map<DecisionKey, map<Fact, int>>)

  const EMPTY := Book(map[], map[])

  /** The schemas, `JSON.stringify`, and `JSON.parse` followed by the schemas in the order the reader tries them. */
  datatype Codec = Codec(accepts: Event -> bool, print_: Event -> string, parse: string -> Option<Event>) {
    /** What JSON text gives: one line, read back, and no proper part or continuation of it is JSON. */
    ghost predicate Faithful() {
      && parse("") == None
      && (forall e {:trigger print_(e)} :: accepts(e) ==> parse(print_(e)) == Some(e) && print_(e) != "" && '\n' !in print_(e))
      && (forall e, n: nat {:trigger print_(e)[..n]} :: accepts(e) && n < |print_(e)| ==> parse(print_(e)[..n]) == None)
      && (forall e, n: nat, f {:trigger print_(e)[..n] + print_(f)} ::
            accepts(e) && accepts(f) && 0 < n <= |print_(e)| ==> parse(print_(e)[..n] + print_(f)) == None)
    }
  }

  function KeyOf(r: Record): MessageKey { (r.sessionId, r.messageId) }

  function FactsOf(b: Book, key: DecisionKey): map<Fact, int> {
    if key in b.facts then b.facts[key] else map[]
  }

  function TakeFact(b: Book, key: DecisionKey, fact: Fact, at: int): Book {
    if fact in FactsOf(b, key) then b else b.(facts := b.facts[key := FactsOf(b, key)[fact := at]])
  }

  function TakeFeedback(b: Book, key: MessageKey, decisionId: int, at: int, feedback: Rating): Book {
    if key in b.records && b.records[key].decision.id == decisionId
    then b.(records := b.records[key := b.records[key].(feedback := feedback, feedbackAt := Some(at))])
    else b
  }

  function TakeBinding(b: Book, r: Record): Book {
    if KeyOf(r) !in b.records then b.(records := b.records[KeyOf(r) := r])
    else if b.records[KeyOf(r)].decision.id == r.decision.id && r.feedback != Missing
    then b.(records := b.records[KeyOf(r) := b.records[KeyOf(r)].(feedback := r.feedback)])
    else b
  }

  function Take(b: Book, e: Event): Book {
    match e
    case FactEvent(s, d, fact, at) => TakeFact(b, (s, d), fact, at)
    case FeedbackEvent(s, m, d, at, feedback) => TakeFeedback(b, (s, m), d, at, feedback)
    case Binding(r) => TakeBinding(b, r)
  }

  /** A line that no schema accepts changes nothing. */
  function TakeLine(c: Codec, b: Book, line: string): Book {
    if c.parse(line).Some? then Take(b, c.parse(line).value) else b
  }

  function Fold(c: Codec, b: Book, lines: seq<string>): Book
    decreases |lines|
  {
    if lines == [] then b else TakeLine(c, Fold(c, b, lines[..|lines| - 1]), lines[|lines| - 1])
  }

  function Replay(c: Codec, text: string): Book {
    Fold(c, EMPTY, Split(text))
  }

  /** What a public call asks for, and what it comes to before anything is written. */
  datatype Call = Bind(record: Record) | Rate(sessionId: string, messageId: string, feedback: Rating) | Note(sessionId: string, decisionId: int, fact: Fact)
  datatype Intent = Nothing | Refused | Writes(event: Event)

  function Accepted(c: Codec, e: Event): Intent { if c.accepts(e) then Writes(e) else Refused }

  function IntentOf(c: Codec, b: Book, call: Call, now: int): Intent {
    match call
    case Bind(r) =>
      if KeyOf(r) in b.records then Nothing else Accepted(c, Binding(r.(decision := r.decision.(boundAt := Some(now)))))
    case Rate(s, m, feedback) =>
      if (s, m) !in b.records then Refused else Accepted(c, FeedbackEvent(s, m, b.records[(s, m)].decision.id, now, feedback))
    case Note(s, d, fact) =>
      if fact in FactsOf(b, (s, d)) then Nothing else Accepted(c, FactEvent(s, d, fact, now))
  }

  /** An append either writes the whole line or, torn, only its first characters; `None` is no tear. */
  function Written(c: Codec, e: Event, tear: Option<nat>): string {
    var line := c.print_(e) + "\n";
    if tear.Some? && tear.value < |line| then line[..tear.value] else line
  }

  predicate Torn(c: Codec, e: Event, tear: Option<nat>) {
    tear.Some? && tear.value <= |c.print_(e)|
  }

  /** The book's memory and the bytes of its file. */
  datatype Store = Store(memory: Book, file: string)

  /** A torn append throws before memory is touched. */
  function AfterCall(c: Codec, s: Store, call: Call, now: int, tear: Option<nat>): Store {
    var i := IntentOf(c, s.memory, call, now);
    if !i.Writes? then s
    else Store(if Torn(c, i.event, tear) then s.memory else Take(s.memory, i.event), s.file + Written(c, i.event, tear))
  }

  class FeedbackBook {
    const codec: Codec
    var records: map<MessageKey, Record>
    var factRecords: map<DecisionKey, map<Fact, int>>
    var file: string

    function Abstract(): Store
      reads this
    {
      Store(Book(records, factRecords), file)
    }

    constructor (codec: Codec, text: string)
      ensures this.codec == codec
      ensures Abstract() == Store(Replay(codec, text), text)
    {
      this.codec := codec;
      file := text;
      records, factRecords := map[], map[];
      new;
      var lines := Split(text);
      var i := 0;
      while i < |lines|
        invariant 0 <= i <= |lines| && this.codec == codec && file == text
        invariant Book(records, factRecords) == Fold(codec, EMPTY, lines[..i])
      {
        assert lines[..i + 1][..i] == lines[..i];
        var raw := codec.parse(lines[i]);
        if raw.Some? { Apply(raw.value); }
        i := i + 1;
      }
      assert lines[..i] == lines;
    }

    /** One valid line of the file. */
    method Apply(e: Event)
      modifies this`records, this`factRecords
      ensures Book(records, factRecords) == Take(old(Book(records, factRecords)), e)
    {
      match e {
        case FactEvent(s, d, fact, at) =>
          var facts := if (s, d) in factRecords then factRecords[(s, d)] else map[];
          if fact !in facts { factRecords := factRecords[(s, d) := facts[fact := at]]; }
        case FeedbackEvent(s, m, d, at, feedback) =>
          if (s, m) in records && records[(s, m)].decision.id == d {
            records := records[(s, m) := records[(s, m)].(feedback := feedback, feedbackAt := Some(at))];
          }
        case Binding(r) =>
          var key := (r.sessionId, r.messageId);
          if key !in records {
            records := records[key := r];
          } else if records[key].decision.id == r.decision.id && r.feedback != Missing {
            records := records[key := records[key].(feedback := r.feedback)];
          }
      }
    }

    method Append(e: Event, tear: Option<nat>) returns (ok: bool)
      modifies this`file
      ensures ok == !Torn(codec, e, tear) && file == old(file) + Written(codec, e, tear)
    {
      file := file + Written(codec, e, tear);
      ok := !Torn(codec, e, tear);
    }

    method BindRecord(record: Record, now: int, tear: Option<nat>) returns (ok: bool)
      modifies this
      ensures Abstract() == AfterCall(codec, old(Abstract()), Bind(record), now, tear)
      ensures ok ==> (record.sessionId, record.messageId) in records
    {
      if (record.sessionId, record.messageId) in records { return true; }
      var r := record.(decision := record.decision.(boundAt := Some(now)));
      if !codec.accepts(Binding(r)) { return false; }
      ok := Append(Binding(r), tear);
      if ok { records := records[(r.sessionId, r.messageId) := r]; }
    }

    method SetFeedback(sessionId: string, messageId: string, feedback: Rating, now: int, tear: Option<nat>) returns (ok: bool)
      modifies this
      ensures Abstract() == AfterCall(codec, old(Abstract()), Rate(sessionId, messageId, feedback), now, tear)
      ensures ok ==> (sessionId, messageId) in records && records[(sessionId, messageId)].feedback == feedback
    {
      if (sessionId, messageId) !in records { return false; }
      var r := records[(sessionId, messageId)];
      var event := FeedbackEvent(sessionId, messageId, r.decision.id, now, feedback);
      if !codec.accepts(event) { return false; }
      ok := Append(event, tear);
      if ok { records := records[(sessionId, messageId) := r.(feedback := feedback, feedbackAt := Some(now))]; }
    }

    method NoteFact(sessionId: string, decisionId: int, fact: Fact, now: int, tear: Option<nat>) returns (ok: bool)
      modifies this
      ensures Abstract() == AfterCall(codec, old(Abstract()), Note(sessionId, decisionId, fact), now, tear)
      ensures ok ==> (sessionId, decisionId) in factRecords && fact in factRecords[(sessionId, decisionId)]
    {
      var key := (sessionId, decisionId);
      var facts := if key in factRecords then factRecords[key] else map[];
      if fact in facts { return true; }
      var event := FactEvent(sessionId, decisionId, fact, now);
      if !codec.accepts(event) { return false; }
      ok := Append(event, tear);
      if ok { factRecords := factRecords[key := facts[fact := now]]; }
    }
  }

  // ----- what each call comes to -----

  /** The event's line is appended, whole or torn; only a line that is whole up to its newline also changes memory. */
  ghost predicate Made(c: Codec, s: Store, e: Event, memory: Book, tear: Option<nat>, t: Store) {
    var line := c.print_(e);
    if tear.Some? && tear.value <= |line| then t == Store(s.memory, s.file + line[..tear.value]) else t == Store(memory, s.file + line + "\n")
  }

  /** A message is bound once, to the decision as given and the present time; whatever else is bound stays. */
  lemma BindExactly(c: Codec, s: Store, r: Record, now: int, tear: Option<nat>)
    ensures var t := AfterCall(c, s, Bind(r), now, tear);
      var key := (r.sessionId, r.messageId);
      var d := r.decision;
      var bound := Record(r.sessionId, r.messageId, Decision(d.id, d.depth, d.model, d.effort, d.snapshot, Some(now)), r.feedback, r.feedbackAt);
      if key in s.memory.records || !c.accepts(Binding(bound)) then t == s
      else Made(c, s, Binding(bound), Book(s.memory.records[key := bound], s.memory.facts), tear, t)
  {
    TornLine(c.print_(Binding(r.(decision := r.decision.(boundAt := Some(now))))), tear);
    Grouped(s.file, c.print_(Binding(r.(decision := r.decision.(boundAt := Some(now))))));
  }

  /** A rating needs a bound message and goes to its decision; nothing but rating and time changes. */
  lemma RateExactly(c: Codec, s: Store, session: string, message: string, feedback: Rating, now: int, tear: Option<nat>)
    ensures var t := AfterCall(c, s, Rate(session, message, feedback), now, tear);
      var key := (session, message);
      if key !in s.memory.records then t == s
      else
        var r := s.memory.records[key];
        var e := FeedbackEvent(session, message, r.decision.id, now, feedback);
        var rated := Record(r.sessionId, r.messageId, r.decision, feedback, Some(now));
        if !c.accepts(e) then t == s else Made(c, s, e, Book(s.memory.records[key := rated], s.memory.facts), tear, t)
  {
    if (session, message) in s.memory.records {
      var e := FeedbackEvent(session, message, s.memory.records[(session, message)].decision.id, now, feedback);
      TornLine(c.print_(e), tear);
      Grouped(s.file, c.print_(e));
    }
  }

  /** A fact is noted once, at the present time. */
  lemma NoteExactly(c: Codec, s: Store, session: string, decision: int, fact: Fact, now: int, tear: Option<nat>)
    ensures var t := AfterCall(c, s, Note(session, decision, fact), now, tear);
      var key := (session, decision);
      var facts := if key in s.memory.facts then s.memory.facts[key] else map[];
      var e := FactEvent(session, decision, fact, now);
      if fact in facts || !c.accepts(e) then t == s
      else Made(c, s, e, Book(s.memory.records, s.memory.facts[key := facts[fact := now]]), tear, t)
  {
    TornLine(c.print_(FactEvent(session, decision, fact, now)), tear);
    Grouped(s.file, c.print_(FactEvent(session, decision, fact, now)));
  }

  lemma TornLine(line: string, tear: Option<nat>)
    ensures tear.Some? && tear.value <= |line| ==> (line + "\n")[..tear.value] == line[..tear.value]
  {
  }

  lemma Grouped(file: string, line: string)
    ensures file + (line + "\n") == file + line + "\n"
  {
  }

  // ----- lines -----

  lemma {:induction false} FoldAppend(c: Codec, b: Book, x: seq<string>, y: seq<string>)
    ensures Fold(c, b, x + y) == Fold(c, Fold(c, b, x), y)
    decreases |y|
  {
    if y == [] {
      assert x + y == x;
    } else {
      assert (x + y)[..|x + y| - 1] == x + y[..|y| - 1];
      FoldAppend(c, b, x, y[..|y| - 1]);
    }
  }

  predicate Aligned(file: string) {
    file == "" || file[|file| - 1] == '\n'
  }

  lemma FoldOne(c: Codec, b: Book, line: string)
    ensures Fold(c, b, [line]) == TakeLine(c, b, line)
  {
    assert [line][..0] == [] && [line][0] == line;
    assert Fold(c, b, [line][..0]) == b;
  }

  /** Text without a newline added to an aligned file is replayed as one line of its own. */
  lemma ReplayTail(c: Codec, file: string, tail: string)
    requires c.Faithful() && Aligned(file) && '\n' !in tail
    ensures Replay(c, file + tail) == TakeLine(c, Replay(c, file), tail)
  {
    SplitOneLine(tail);
    SplitOneLine("");
    FoldOne(c, EMPTY, "");
    if file == "" {
      assert file + tail == tail;
      FoldOne(c, EMPTY, tail);
    } else {
      var body := file[..|file| - 1];
      assert file == body + "\n" + "" && file + tail == body + "\n" + tail;
      SplitAtNewline(body, "");
      SplitAtNewline(body, tail);
      FoldAppend(c, EMPTY, Split(body), [""]);
      FoldAppend(c, EMPTY, Split(body), [tail]);
      FoldOne(c, Fold(c, EMPTY, Split(body)), "");
      FoldOne(c, Fold(c, EMPTY, Split(body)), tail);
    }
  }

  /** A final newline never changes what is replayed. */
  lemma ReplayNewline(c: Codec, text: string)
    requires c.Faithful()
    ensures Replay(c, text + "\n") == Replay(c, text)
  {
    assert text + "\n" == text + "\n" + "";
    SplitAtNewline(text, "");
    FoldAppend(c, EMPTY, Split(text), [""]);
    FoldOne(c, Replay(c, text), "");
  }

  lemma WrittenEvent(c: Codec, b: Book, call: Call, now: int)
    ensures var i := IntentOf(c, b, call, now);
      i.Writes? ==> c.accepts(i.event)
  {
  }

  // ----- memory and file -----

  predicate Agree(c: Codec, s: Store) {
    s.memory == Replay(c, s.file)
  }

  lemma CompleteAppend(c: Codec, file: string, e: Event)
    requires c.Faithful() && c.accepts(e) && Aligned(file)
    ensures Replay(c, file + Written(c, e, None)) == Take(Replay(c, file), e) && Aligned(file + Written(c, e, None))
  {
    ReplayTail(c, file, c.print_(e));
    ReplayNewline(c, file + c.print_(e));
    assert file + Written(c, e, None) == file + c.print_(e) + "\n";
  }

  /** Each call that is not torn keeps the file replaying to exactly what memory holds. */
  lemma CallKeepsAgreement(c: Codec, s: Store, call: Call, now: int)
    requires c.Faithful() && Aligned(s.file) && Agree(c, s)
    ensures var t := AfterCall(c, s, call, now, None);
      Aligned(t.file) && Agree(c, t)
  {
    var i := IntentOf(c, s.memory, call, now);
    WrittenEvent(c, s.memory, call, now);
    if i.Writes? { CompleteAppend(c, s.file, i.event); }
  }

  function RunCalls(c: Codec, s: Store, calls: seq<(Call, int)>): Store
    decreases |calls|
  {
    if calls == [] then s else RunCalls(c, AfterCall(c, s, calls[0].0, calls[0].1, None), calls[1..])
  }

  /** Opened on any file that is empty or ends in a newline, the book equals its file after every sequence of calls. */
  lemma {:induction false} BookEqualsItsFile(c: Codec, s: Store, calls: seq<(Call, int)>)
    requires c.Faithful() && Aligned(s.file) && Agree(c, s)
    ensures var t := RunCalls(c, s, calls);
      t.memory == Replay(c, t.file) && Aligned(t.file) && s.file <= t.file
    decreases |calls|
  {
    if calls != [] {
      var next := AfterCall(c, s, calls[0].0, calls[0].1, None);
      CallKeepsAgreement(c, s, calls[0].0, calls[0].1);
      BookEqualsItsFile(c, next, calls[1..]);
    }
  }

  /** A torn last append is invisible to replay, unless only its newline is missing: then it counts as made. */
  lemma TornAppendIsInvisible(c: Codec, s: Store, call: Call, now: int, n: nat)
    requires c.Faithful() && Aligned(s.file) && Agree(c, s) && IntentOf(c, s.memory, call, now).Writes?
    requires n <= |c.print_(IntentOf(c, s.memory, call, now).event)|
    ensures var e := IntentOf(c, s.memory, call, now).event;
      var t := AfterCall(c, s, call, now, Some(n));
      t.memory == s.memory && Replay(c, t.file) == if n < |c.print_(e)| then s.memory else Take(s.memory, e)
  {
    var e := IntentOf(c, s.memory, call, now).event;
    WrittenEvent(c, s.memory, call, now);
    var text := c.print_(e);
    assert (text + "\n")[..n] == text[..n];
    assert text[..|text|] == text;
    ReplayTail(c, s.file, text[..n]);
  }

  /** The tail a torn append leaves: nothing, or the first characters of a printed event. */
  ghost predicate TornTail(c: Codec, tail: string) {
    tail == "" || exists e, n: nat :: c.accepts(e) && 0 < n <= |c.print_(e)| && tail == c.print_(e)[..n]
  }

  /** Once a tear has left an unfinished line, the next append is swallowed by it. */
  lemma GluedLineIsLost(c: Codec, file: string, tail: string, e: Event)
    requires c.Faithful() && Aligned(file) && TornTail(c, tail) && tail != "" && c.accepts(e)
    ensures Replay(c, file + tail + Written(c, e, None)) == Replay(c, file)
  {
    var d, n: nat :| c.accepts(d) && 0 < n <= |c.print_(d)| && tail == c.print_(d)[..n];
    var glued := tail + c.print_(e);
    assert glued == c.print_(d)[..n] + c.print_(e);
    assert c.parse(glued) == None;
    assert '\n' !in glued by { assert '\n' !in c.print_(d) && '\n' !in c.print_(e); }
    ReplayTail(c, file, glued);
    ReplayNewline(c, file + glued);
    assert file + tail + Written(c, e, None) == file + glued + "\n";
  }

  /**
   * A running book keeps appending after a tear, so agreement survives the next writing call exactly when the file ended in
   * a newline, or the call changed nothing.
   */
  lemma AgreementNeedsANewline(c: Codec, memory: Book, file: string, tail: string, call: Call, now: int)
    requires c.Faithful() && Aligned(file) && TornTail(c, tail)
    requires memory == Replay(c, file) && IntentOf(c, memory, call, now).Writes?
    ensures var t := AfterCall(c, Store(memory, file + tail), call, now, None);
      Agree(c, t) <==> Aligned(file + tail) || t.memory == memory
  {
    var e := IntentOf(c, memory, call, now).event;
    WrittenEvent(c, memory, call, now);
    if tail == "" {
      assert file + tail == file;
      CompleteAppend(c, file, e);
    } else {
      var d, n: nat :| c.accepts(d) && 0 < n <= |c.print_(d)| && tail == c.print_(d)[..n];
      assert '\n' !in c.print_(d);
      assert (file + tail)[|file + tail| - 1] == tail[|tail| - 1] == c.print_(d)[n - 1];
      GluedLineIsLost(c, file, tail, e);
    }
  }

  // ----- what replay means, line by line -----

  predicate Binds(c: Codec, line: string, key: MessageKey) {
    c.parse(line).Some? && c.parse(line).value.Binding? && KeyOf(c.parse(line).value.record) == key
  }

  /** The decision of the first line that binds the message. */
  function FirstDecision(c: Codec, lines: seq<string>, key: MessageKey): Option<Decision>
    decreases |lines|
  {
    if lines == [] then None
    else if Binds(c, lines[0], key) then Some(c.parse(lines[0]).value.record.decision)
    else FirstDecision(c, lines[1..], key)
  }

  predicate Notes(c: Codec, line: string, key: DecisionKey, fact: Fact) {
    && c.parse(line).Some? && c.parse(line).value.FactEvent?
    && (c.parse(line).value.sessionId, c.parse(line).value.decisionId) == key && c.parse(line).value.fact == fact
  }

  function FirstTime(c: Codec, lines: seq<string>, key: DecisionKey, fact: Fact): Option<int>
    decreases |lines|
  {
    if lines == [] then None
    else if Notes(c, lines[0], key, fact) then Some(c.parse(lines[0]).value.at)
    else FirstTime(c, lines[1..], key, fact)
  }

  function DecisionIn(b: Book, key: MessageKey): Option<Decision> {
    if key in b.records then Some(b.records[key].decision) else None
  }

  function TimeIn(b: Book, key: DecisionKey, fact: Fact): Option<int> {
    if fact in FactsOf(b, key) then Some(FactsOf(b, key)[fact]) else None
  }

  function OrElse<T>(a: Option<T>, b: Option<T>): Option<T> { if a.Some? then a else b }

  lemma {:induction false} FirstOfMore(c: Codec, x: seq<string>, line: string, key: MessageKey, d: DecisionKey, fact: Fact)
    ensures FirstDecision(c, x + [line], key) == OrElse(FirstDecision(c, x, key), FirstDecision(c, [line], key))
    ensures FirstTime(c, x + [line], d, fact) == OrElse(FirstTime(c, x, d, fact), FirstTime(c, [line], d, fact))
    decreases |x|
  {
    if x == [] {
      assert x + [line] == [line];
    } else {
      assert (x + [line])[1..] == x[1..] + [line];
      FirstOfMore(c, x[1..], line, key, d, fact);
    }
  }

  lemma TakeLineDecision(c: Codec, b: Book, line: string, key: MessageKey)
    ensures DecisionIn(TakeLine(c, b, line), key) == OrElse(DecisionIn(b, key), FirstDecision(c, [line], key))
  {
    assert [line][1..] == [];
  }

  lemma TakeLineTime(c: Codec, b: Book, line: string, key: DecisionKey, fact: Fact)
    ensures TimeIn(TakeLine(c, b, line), key, fact) == OrElse(TimeIn(b, key, fact), FirstTime(c, [line], key, fact))
  {
    assert [line][1..] == [];
  }

  /** Over any lines, corrupt and legacy ones included: the first binding fixes the decision and the first note fixes the time. */
  lemma {:induction false} FirstLineDecides(c: Codec, lines: seq<string>, key: MessageKey, d: DecisionKey, fact: Fact)
    ensures DecisionIn(Fold(c, EMPTY, lines), key) == FirstDecision(c, lines, key)
    ensures TimeIn(Fold(c, EMPTY, lines), d, fact) == FirstTime(c, lines, d, fact)
    decreases |lines|
  {
    if lines != [] {
      var front, line := lines[..|lines| - 1], lines[|lines| - 1];
      assert lines == front + [line];
      FirstLineDecides(c, front, key, d, fact);
      FirstOfMore(c, front, line, key, d, fact);
      TakeLineDecision(c, Fold(c, EMPTY, front), line, key);
      TakeLineTime(c, Fold(c, EMPTY, front), line, d, fact);
    }
  }

  function RatingIn(b: Book, key: MessageKey): Option<Rating> {
    if key in b.records then Some(b.records[key].feedback) else None
  }

  /** The rating a line gives a message whose decision so far is `d`, if it gives one. */
  function RatingGiven(c: Codec, line: string, key: MessageKey, d: Option<Decision>): Option<Rating> {
    match c.parse(line)
    case None => None
    case Some(FactEvent(_, _, _, _)) => None
    case Some(FeedbackEvent(s, m, id, _, feedback)) => if (s, m) == key && d.Some? && d.value.id == id then Some(feedback) else None
    case Some(Binding(r)) =>
      if KeyOf(r) != key then None
      else if d.None? || (d.value.id == r.decision.id && r.feedback != Missing) then Some(r.feedback)
      else None
  }

  /** The rating of the last line that gives one. */
  function LastRating(c: Codec, lines: seq<string>, key: MessageKey): Option<Rating>
    decreases |lines|
  {
    if lines == [] then None
    else
      var front := lines[..|lines| - 1];
      OrElse(RatingGiven(c, lines[|lines| - 1], key, FirstDecision(c, front, key)), LastRating(c, front, key))
  }

  lemma TakeLineRating(c: Codec, b: Book, line: string, key: MessageKey)
    ensures RatingIn(TakeLine(c, b, line), key) == OrElse(RatingGiven(c, line, key, DecisionIn(b, key)), RatingIn(b, key))
  {
  }

  /** A message's rating is that of the last line about its own decision; lines about another decision never count. */
  lemma {:induction false} LastRatingWins(c: Codec, lines: seq<string>, key: MessageKey)
    ensures RatingIn(Fold(c, EMPTY, lines), key) == LastRating(c, lines, key)
    decreases |lines|
  {
    if lines != [] {
      var front := lines[..|lines| - 1];
      LastRatingWins(c, front, key);
      FirstLineDecides(c, front, key, ("", 0), Exposed);
      TakeLineRating(c, Fold(c, EMPTY, front), lines[|lines| - 1], key);
    }
  }

  /** No call, torn or not, rewrites a decision or a fact's time in memory; only ratings move. */
  lemma CallsKeepDecisions(c: Codec, s: Store, call: Call, now: int, tear: Option<nat>, key: MessageKey, d: DecisionKey, fact: Fact)
    ensures var t := AfterCall(c, s, call, now, tear);
      && (key in s.memory.records ==> DecisionIn(t.memory, key) == DecisionIn(s.memory, key))
      && (fact in FactsOf(s.memory, d) ==> TimeIn(t.memory, d, fact) == TimeIn(s.memory, d, fact))
  {
  }
}
