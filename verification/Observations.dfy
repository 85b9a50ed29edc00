/** The observation log: reading and checking it, appending to it, and the rows that supersede each other. */
module Observations {
  import opened JsObject

  datatype Status = Pass | Fail | Manual | Skipped | Partial | Blocked

  /** `dimension` is the environment without its two version fields. */
  datatype Env = Env(dimension: string, versions: string)

  datatype Item = Item(path: string, sha256: string)

  datatype Body = Body(
    checkpoint: string, loop: int, env: Env, status: Status, actual: string,
    evidence: seq<Item>, limits: seq<string>, supersedes: Option<string>)

  datatype Row = Row(id: string, at: string, rev: int, body: Body)

  datatype Revision = Revision(rev: int, input: string, selected: string)

  datatype Plan = Plan(revisions: seq<Revision>, active: Option<int>)

  /** The current checkpoints, the digests of the evidence files, and what the reader cannot see into. */
  datatype World = World(checkpoints: set<string>, files: map<string, string>, safePath: string -> bool, isTime: string -> bool, blank: string -> bool)

  /** `json.dumps(..., ensure_ascii=False)` of a row, and the strict parser with the shape checks. */
  datatype Codec = Codec(print_: Row -> string, parse: string -> Option<Row>) {
    /** JSON text escapes the control characters below U+0020; no proper part of an object is JSON. */
    ghost predicate Faithful() {
      && (forall r {:trigger print_(r)} :: parse(print_(r)) == Some(r))
      && (forall r, i {:trigger print_(r)[i]} :: 0 <= i < |print_(r)| ==> print_(r)[i] as int >= 0x20)
      && (forall r, n: nat {:trigger print_(r)[..n]} :: n < |print_(r)| ==> parse(print_(r)[..n]) == None)
    }
  }

  // ----- lines -----

  /** Where `str.splitlines` ends a line. */
  predicate Breaks(c: char) {
    var n := c as int;
    0xa <= n <= 0xd || 0x1c <= n <= 0x1e || n == 0x85 || n == 0x2028 || n == 0x2029
  }

  function SplitLines(s: string): seq<string>
    decreases |s|
  {
    if s == "" then []
    else if Breaks(s[0]) then [""] + SplitLines(s[BreakLength(s)..])
    else Onto(s[0], SplitLines(s[1..]))
  }

  /** `\r\n` is one break. */
  function BreakLength(s: string): (n: nat)
    requires s != ""
    ensures 1 <= n <= |s|
  {
    if s[0] == '\r' && |s| > 1 && s[1] == '\n' then 2 else 1
  }

  function Onto(c: char, lines: seq<string>): seq<string> {
    if lines == [] then [[c]] else [[c] + lines[0]] + lines[1..]
  }

  lemma OntoConcat(c: char, x: seq<string>, y: seq<string>)
    requires x != []
    ensures Onto(c, x + y) == Onto(c, x) + y
  {
    assert (x + y)[1..] == x[1..] + y;
  }

  predicate Complete(file: string) {
    file == "" || file[|file| - 1] == '\n'
  }

  lemma SplitAtBreak(s: string)
    requires s != "" && Breaks(s[0])
    ensures SplitLines(s) == [""] + SplitLines(s[BreakLength(s)..])
  {
  }

  lemma SplitAtPlain(s: string)
    requires s != "" && !Breaks(s[0])
    ensures SplitLines(s) == Onto(s[0], SplitLines(s[1..]))
  {
  }

  lemma BreakThenConcat(x: seq<string>, y: seq<string>)
    ensures [""] + (x + y) == [""] + x + y
  {
  }

  lemma {:induction false} SplitConcat(a: string, b: string)
    requires Complete(a)
    ensures SplitLines(a + b) == SplitLines(a) + SplitLines(b)
    ensures a != "" ==> SplitLines(a) != []
    decreases |a|
  {
    var s := a + b;
    if a == "" {
      assert s == b;
    } else if Breaks(a[0]) {
      var n := BreakLength(a);
      assert BreakLength(s) == n && s[n..] == a[n..] + b;
      SplitConcat(a[n..], b);
      SplitAtBreak(a);
      SplitAtBreak(s);
      BreakThenConcat(SplitLines(a[n..]), SplitLines(b));
    } else {
      assert s[1..] == a[1..] + b;
      SplitConcat(a[1..], b);
      SplitAtPlain(a);
      SplitAtPlain(s);
      OntoConcat(a[0], SplitLines(a[1..]), SplitLines(b));
    }
  }

  lemma {:induction false} SplitPlainLine(t: string)
    requires forall i :: 0 <= i < |t| ==> !Breaks(t[i])
    ensures SplitLines(t + "\n") == [t]
  {
    var s := t + "\n";
    if t == "" {
      assert s[1..] == "";
    } else {
      assert s[1..] == t[1..] + "\n";
      SplitPlainLine(t[1..]);
      assert [t[0]] + t[1..] == t;
    }
  }

  /** A line with a break in it is cut at the first one. */
  lemma {:induction false} SplitBrokenLine(t: string, k: nat)
    requires k < |t| && Breaks(t[k]) && forall i :: 0 <= i < k ==> !Breaks(t[i])
    ensures SplitLines(t) != [] && SplitLines(t)[0] == t[..k]
    decreases k
  {
    if k > 0 {
      assert t[1..][k - 1] == t[k];
      SplitBrokenLine(t[1..], k - 1);
      assert t[..k] == [t[0]] + t[1..][..k - 1];
    }
  }

  // ----- observation ids -----

  predicate IsDigits(s: string) { s != "" && forall i :: 0 <= i < |s| ==> '0' <= s[i] <= '9' }

  predicate IsId(id: string) { |id| > 4 && id[..4] == "obs-" && IsDigits(id[4..]) }

  function Digit(n: nat): char
    requires n < 10
  {
    '0' + n as char
  }

  function Decimal(n: nat): string {
    if n < 10 then [Digit(n)] else Decimal(n / 10) + [Digit(n % 10)]
  }

  function Number(s: string): nat
    requires forall i :: 0 <= i < |s| ==> '0' <= s[i] <= '9'
  {
    if s == "" then 0 else 10 * Number(s[..|s| - 1]) + (s[|s| - 1] - '0') as nat
  }

  function Padded(s: string): string
    decreases 4 - |s|
  {
    if |s| < 4 then Padded("0" + s) else s
  }

  /** `'obs-%04d' % n` */
  function IdOf(n: nat): string { "obs-" + Padded(Decimal(n)) }

  function NumberOfId(id: string): nat {
    if IsId(id) then Number(id[4..]) else 0
  }

  lemma {:induction false} DecimalReads(n: nat)
    ensures IsDigits(Decimal(n)) && Number(Decimal(n)) == n
  {
    if n >= 10 {
      DecimalReads(n / 10);
      var d := Decimal(n);
      assert d[..|d| - 1] == Decimal(n / 10);
    } else {
      assert Decimal(n)[..0] == "";
    }
  }

  lemma {:induction false} LeadingZero(s: string)
    requires IsDigits(s)
    ensures IsDigits("0" + s) && Number("0" + s) == Number(s)
  {
    var z := "0" + s;
    assert z[..|z| - 1] == "0" + s[..|s| - 1];
    if |s| == 1 {
      assert z[..1] == "0" && "0"[..0] == "" && s[..0] == "";
    } else {
      LeadingZero(s[..|s| - 1]);
    }
  }

  lemma {:induction false} PaddedReads(s: string)
    requires IsDigits(s)
    ensures IsDigits(Padded(s)) && Number(Padded(s)) == Number(s)
    decreases 4 - |s|
  {
    if |s| < 4 {
      LeadingZero(s);
      PaddedReads("0" + s);
    }
  }

  lemma IdReads(n: nat)
    ensures IsId(IdOf(n)) && NumberOfId(IdOf(n)) == n
  {
    DecimalReads(n);
    PaddedReads(Decimal(n));
    assert IdOf(n)[4..] == Padded(Decimal(n)) && IdOf(n)[..4] == "obs-";
  }

  // ----- checking rows -----

  /** `plan_revisions` must be positive and strictly increasing. */
  predicate RevisionsOk(p: Plan) {
    forall i {:trigger RevisionBefore(p, i)} :: 0 <= i < |p.revisions| ==> p.revisions[i].rev > RevisionBefore(p, i)
  }

  function RevisionBefore(p: Plan, i: nat): int
    requires i < |p.revisions|
  {
    if i == 0 then 0 else p.revisions[i - 1].rev
  }

  predicate HasRevision(p: Plan, rev: int) {
    exists i :: 0 <= i < |p.revisions| && p.revisions[i].rev == rev
  }

  predicate BodyOk(w: World, b: Body, known: set<string>) {
    b.checkpoint in known && b.loop > 0 && forall i :: 0 <= i < |b.limits| ==> !w.blank(b.limits[i])
  }

  predicate EvidenceGiven(b: Body) {
    (b.status == Pass || b.status == Fail) ==> b.evidence != [] || b.limits != []
  }

  predicate ItemOk(w: World, i: Item) {
    w.safePath(i.path) && i.path in w.files && i.sha256 == w.files[i.path]
  }

  predicate EvidenceOk(w: World, b: Body) {
    EvidenceGiven(b) && forall k :: 0 <= k < |b.evidence| ==> ItemOk(w, b.evidence[k])
  }

  function Find(rows: seq<Row>, id: string): Option<Row> {
    if rows == [] then None else if rows[0].id == id then Some(rows[0]) else Find(rows[1..], id)
  }

  predicate Replaced(rows: seq<Row>, id: string) {
    exists i :: 0 <= i < |rows| && rows[i].body.supersedes == Some(id)
  }

  predicate SameLine(a: Row, b: Row) {
    a.body.checkpoint == b.body.checkpoint && a.rev == b.rev && a.body.env.dimension == b.body.env.dimension
  }

  predicate SupersedeOk(w: World, row: Row, previous: seq<Row>) {
    row.body.supersedes.Some? ==>
      var found := Find(previous, row.body.supersedes.value);
      found.Some? && !Replaced(previous, row.body.supersedes.value) && SameLine(found.value, row) && !w.blank(row.body.actual)
  }

  /** Rows of another revision may name checkpoints that are gone. */
  function Known(w: World, p: Plan, row: Row): set<string> {
    if p.active == Some(row.rev) then w.checkpoints else {row.body.checkpoint}
  }

  predicate RowOk(w: World, p: Plan, row: Row, previous: seq<Row>) {
    && HasRevision(p, row.rev)
    && BodyOk(w, row.body, Known(w, p, row))
    && IsId(row.id) && Find(previous, row.id).None?
    && w.isTime(row.at)
    && EvidenceOk(w, row.body)
    && SupersedeOk(w, row, previous)
  }

  function ReadLines(c: Codec, w: World, p: Plan, lines: seq<string>): Option<seq<Row>> {
    if lines == [] then Some([])
    else
      var rows := ReadLines(c, w, p, lines[..|lines| - 1]);
      if rows.None? then None
      else
        var row := c.parse(lines[|lines| - 1]);
        if row.None? || !RowOk(w, p, row.value, rows.value) then None else Some(rows.value + [row.value])
  }

  /** What `read_observations` returns, or None where it raises. */
  function Read(c: Codec, w: World, p: Plan, file: string): Option<seq<Row>> {
    if !Complete(file) || !RevisionsOk(p) then None else ReadLines(c, w, p, SplitLines(file))
  }

  method ReadObservations(c: Codec, w: World, p: Plan, file: string) returns (r: Option<seq<Row>>)
    ensures r == Read(c, w, p, file)
  {
    if !Complete(file) || !RevisionsOk(p) { return None; }
    var lines := SplitLines(file);
    var rows: seq<Row> := [];
    var i := 0;
    while i < |lines|
      invariant 0 <= i <= |lines| && ReadLines(c, w, p, lines[..i]) == Some(rows)
    {
      assert lines[..i + 1][..i] == lines[..i];
      var row := c.parse(lines[i]);
      if row.None? || !RowOk(w, p, row.value, rows) {
        FailsOn(c, w, p, lines, i + 1);
        return None;
      }
      rows := rows + [row.value];
      i := i + 1;
    }
    assert lines[..i] == lines;
    r := Some(rows);
  }

  /** Once a line is refused the whole log is. */
  lemma {:induction false} FailsOn(c: Codec, w: World, p: Plan, lines: seq<string>, n: nat)
    requires n <= |lines| && ReadLines(c, w, p, lines[..n]).None?
    ensures ReadLines(c, w, p, lines).None?
    decreases |lines|
  {
    if n == |lines| {
      assert lines[..n] == lines;
    } else {
      assert lines[..|lines| - 1][..n] == lines[..n];
      FailsOn(c, w, p, lines[..|lines| - 1], n);
    }
  }

  // ----- appending -----

  function MaxNumber(rows: seq<Row>): nat {
    if rows == [] then 0
    else
      var m, n := MaxNumber(rows[..|rows| - 1]), NumberOfId(rows[|rows| - 1].id);
      if m < n then n else m
  }

  /** Whether the plan is confirmed: its active revision exists and was confirmed for the inputs as they are now. */
  predicate IsActive(p: Plan, digest: string) {
    && RevisionsOk(p) && p.active.Some?
    && exists i :: 0 <= i < |p.revisions| && p.revisions[i].rev == p.active.value && p.revisions[i].input == digest
  }

  predicate CanAssign(w: World, b: Body) {
    EvidenceGiven(b) && forall k :: 0 <= k < |b.evidence| ==> w.safePath(b.evidence[k].path) && b.evidence[k].path in w.files
  }

  /** Each evidence item is given the digest its file has now. */
  function Assigned(w: World, b: Body): Body
    requires CanAssign(w, b)
  {
    b.(evidence := seq(|b.evidence|, k requires 0 <= k < |b.evidence| => Item(b.evidence[k].path, w.files[b.evidence[k].path])))
  }

  /** The row a call would append, or None where it raises before writing. */
  function Prepared(c: Codec, w: World, p: Plan, digest: string, file: string, b: Body, expected: Option<int>, now: string): Option<Row> {
    if !IsActive(p, digest) || expected != p.active || !BodyOk(w, b, w.checkpoints) then None
    else
      var rows := Read(c, w, p, file);
      if rows.None? || !CanAssign(w, b) then None
      else
        var row := Row(IdOf(MaxNumber(rows.value) + 1), now, p.active.value, Assigned(w, b));
        if SupersedeOk(w, row, rows.value) then Some(row) else None
  }

  /** Every condition a call has to meet, given the log as it reads. */
  ghost predicate Recordable(w: World, p: Plan, digest: string, rows: seq<Row>, b: Body, expected: Option<int>) {
    IsConfirmed(p, digest) && expected == p.active && IsWellGiven(w, b) && (b.supersedes.Some? ==> MaySupersede(w, p, rows, b, b.supersedes.value))
  }

  /** A known checkpoint, reasons that say something, and evidence files that are there, or a reason for their absence. */
  ghost predicate IsWellGiven(w: World, b: Body) {
    && b.checkpoint in w.checkpoints && b.loop > 0 && (forall i :: 0 <= i < |b.limits| ==> !w.blank(b.limits[i]))
    && ((b.status == Pass || b.status == Fail) && b.evidence == [] ==> b.limits != [])
    && forall k :: 0 <= k < |b.evidence| ==> w.safePath(b.evidence[k].path) && b.evidence[k].path in w.files
  }

  /** Revisions ascend, from 1 at the earliest. */
  ghost predicate Ascending(p: Plan) {
    && (forall i :: 0 <= i < |p.revisions| ==> p.revisions[i].rev > 0)
    && forall i, j :: 0 <= i < j < |p.revisions| ==> p.revisions[i].rev < p.revisions[j].rev
  }

  /** Revisions ascend, and the active one was confirmed for the inputs as they are now. */
  ghost predicate IsConfirmed(p: Plan, digest: string) {
    && p.active.Some? && Ascending(p)
    && exists i :: 0 <= i < |p.revisions| && p.revisions[i].rev == p.active.value && p.revisions[i].input == digest
  }

  /** The target is a row of the same checkpoint, revision and dimension that nothing has replaced, and a reason is given. */
  ghost predicate MaySupersede(w: World, p: Plan, rows: seq<Row>, b: Body, target: string) {
    && !w.blank(b.actual)
    && (forall i :: 0 <= i < |rows| ==> rows[i].body.supersedes != Some(target))
    && exists i ::
        && 0 <= i < |rows| && rows[i].id == target && Some(rows[i].rev) == p.active
        && rows[i].body.checkpoint == b.checkpoint && rows[i].body.env.dimension == b.env.dimension
  }

  /** The record as given, with the next number, the time, the active revision and the digests the evidence files have now. */
  ghost predicate IsRecordOf(w: World, p: Plan, rows: seq<Row>, b: Body, now: string, row: Row) {
    && NextNumber(rows, NumberOfId(row.id)) && row.id == IdOf(NumberOfId(row.id))
    && row.at == now && p.active == Some(row.rev)
    && row.body.checkpoint == b.checkpoint && row.body.loop == b.loop && row.body.env == b.env && row.body.status == b.status
    && row.body.actual == b.actual && row.body.limits == b.limits && row.body.supersedes == b.supersedes
    && |row.body.evidence| == |b.evidence|
    && forall k :: 0 <= k < |b.evidence| ==>
      row.body.evidence[k].path == b.evidence[k].path && b.evidence[k].path in w.files && row.body.evidence[k].sha256 == w.files[b.evidence[k].path]
  }

  /** One more than the largest number in use, or 1. */
  ghost predicate NextNumber(rows: seq<Row>, n: nat) {
    && n > 0 && (forall i :: 0 <= i < |rows| ==> NumberOfId(rows[i].id) < n)
    && (n > 1 ==> exists i :: 0 <= i < |rows| && NumberOfId(rows[i].id) == n - 1)
  }

  lemma {:induction false} MaxNumberIsNext(rows: seq<Row>)
    ensures NextNumber(rows, MaxNumber(rows) + 1)
  {
    if rows != [] {
      var front := rows[..|rows| - 1];
      MaxNumberIsNext(front);
      forall i | 0 <= i < |rows| ensures NumberOfId(rows[i].id) < MaxNumber(rows) + 1 { if i < |front| { assert front[i] == rows[i]; } }
      if MaxNumber(rows) > 0 {
        if MaxNumber(rows) == MaxNumber(front) {
          var i :| 0 <= i < |front| && NumberOfId(front[i].id) == MaxNumber(front);
          assert rows[i] == front[i];
        } else {
          assert NumberOfId(rows[|rows| - 1].id) == MaxNumber(rows);
        }
      }
    }
  }

  lemma RecordIsUnique(w: World, p: Plan, rows: seq<Row>, b: Body, now: string, x: Row, y: Row)
    requires IsRecordOf(w, p, rows, b, now, x) && IsRecordOf(w, p, rows, b, now, y)
    ensures x == y
  {
    var e, f := x.body.evidence, y.body.evidence;
    forall k | 0 <= k < |e| ensures e[k] == f[k] { assert b.evidence[k].path == e[k].path == f[k].path; }
    assert e == f;
    assert NumberOfId(x.id) == NumberOfId(y.id);
  }

  lemma {:induction false} RevisionsAscend(p: Plan, n: nat)
    requires n <= |p.revisions|
    requires forall i {:trigger RevisionBefore(p, i)} :: 0 <= i < n ==> p.revisions[i].rev > RevisionBefore(p, i)
    ensures forall i :: 0 <= i < n ==> p.revisions[i].rev > 0
    ensures forall i, j :: 0 <= i < j < n ==> p.revisions[i].rev < p.revisions[j].rev
  {
    if n > 0 {
      RevisionsAscend(p, n - 1);
      assert p.revisions[n - 1].rev > RevisionBefore(p, n - 1);
    }
  }

  lemma RevisionsOkExactly(p: Plan)
    ensures RevisionsOk(p) <==> Ascending(p)
  {
    if RevisionsOk(p) { RevisionsAscend(p, |p.revisions|); }
    if Ascending(p) {
      forall i | 0 <= i < |p.revisions| ensures p.revisions[i].rev > RevisionBefore(p, i) { }
    }
  }

  lemma ActiveIsConfirmed(p: Plan, digest: string)
    ensures IsActive(p, digest) <==> IsConfirmed(p, digest)
  {
    RevisionsOkExactly(p);
  }

  ghost predicate DistinctIds(rows: seq<Row>) {
    forall i, j :: 0 <= i < j < |rows| ==> rows[i].id != rows[j].id
  }

  lemma SupersedeIs(w: World, p: Plan, rows: seq<Row>, row: Row)
    requires p.active == Some(row.rev) && DistinctIds(rows)
    ensures SupersedeOk(w, row, rows) <==> (row.body.supersedes.Some? ==> MaySupersede(w, p, rows, row.body, row.body.supersedes.value))
  {
    if row.body.supersedes.Some? {
      var target := row.body.supersedes.value;
      FindNone(rows, target);
      if found :| 0 <= found < |rows| && rows[found].id == target {
        assert Find(rows, target) == Some(rows[found]);
        assert SameLine(rows[found], row) <==>
          rows[found].body.checkpoint == row.body.checkpoint && Some(rows[found].rev) == p.active && rows[found].body.env.dimension == row.body.env.dimension;
      }
      assert Replaced(rows, target) <==> !forall i :: 0 <= i < |rows| ==> rows[i].body.supersedes != Some(target);
    }
  }

  lemma {:induction false} ReadIdsDiffer(c: Codec, w: World, p: Plan, lines: seq<string>)
    ensures ReadLines(c, w, p, lines).Some? ==> DistinctIds(ReadLines(c, w, p, lines).value)
  {
    if lines != [] {
      ReadIdsDiffer(c, w, p, lines[..|lines| - 1]);
      var rows := ReadLines(c, w, p, lines);
      if rows.Some? {
        var front, row := ReadLines(c, w, p, lines[..|lines| - 1]).value, rows.value[|rows.value| - 1];
        FindNone(front, row.id);
        assert rows.value == front + [row];
        forall i, j | 0 <= i < j < |rows.value| ensures rows.value[i].id != rows.value[j].id {
          assert rows.value[i] == front[i] && (j < |front| ==> rows.value[j] == front[j]);
        }
      }
    }
  }

  /** Everything a row of a readable log satisfies, seen against the rows before it. */
  ghost predicate Stands(w: World, p: Plan, rows: seq<Row>, i: nat)
    requires i < |rows|
  {
    var row := rows[i];
    var b := row.body;
    && (exists k :: 0 <= k < |p.revisions| && p.revisions[k].rev == row.rev)
    && (p.active == Some(row.rev) ==> b.checkpoint in w.checkpoints)
    && b.loop > 0 && (forall k :: 0 <= k < |b.limits| ==> !w.blank(b.limits[k]))
    && IsId(row.id) && w.isTime(row.at) && (forall j :: 0 <= j < i ==> rows[j].id != row.id)
    && ((b.status == Pass || b.status == Fail) && b.evidence == [] ==> b.limits != [])
    && (forall k :: 0 <= k < |b.evidence| ==>
          w.safePath(b.evidence[k].path) && b.evidence[k].path in w.files && b.evidence[k].sha256 == w.files[b.evidence[k].path])
    && (b.supersedes.Some? ==> !w.blank(b.actual) && Supersedes(rows, i, b.supersedes.value))
  }

  /** An earlier row has the id, is of the same checkpoint, revision and dimension, and no row between has replaced it. */
  ghost predicate Supersedes(rows: seq<Row>, i: nat, target: string)
    requires i < |rows|
  {
    && (forall j :: 0 <= j < i ==> rows[j].body.supersedes != Some(target))
    && exists j ::
        && 0 <= j < i && rows[j].id == target && rows[j].rev == rows[i].rev
        && rows[j].body.checkpoint == rows[i].body.checkpoint && rows[j].body.env.dimension == rows[i].body.env.dimension
  }

  lemma SupersedesIs(w: World, rows: seq<Row>, i: nat)
    requires i < |rows| && forall j, k :: 0 <= j < k < i ==> rows[j].id != rows[k].id
    ensures var b := rows[i].body;
      SupersedeOk(w, rows[i], rows[..i]) <==> (b.supersedes.Some? ==> !w.blank(b.actual) && Supersedes(rows, i, b.supersedes.value))
  {
    var previous := rows[..i];
    if rows[i].body.supersedes.Some? {
      var target := rows[i].body.supersedes.value;
      FindNone(previous, target);
      if found :| 0 <= found < i && rows[found].id == target {
        assert previous[found] == rows[found];
        assert Find(previous, target) == Some(rows[found]);
      }
      assert Replaced(previous, target) <==> !forall j :: 0 <= j < i ==> rows[j].body.supersedes != Some(target) by {
        assert forall j :: 0 <= j < i ==> previous[j] == rows[j];
      }
    }
  }

  lemma RowStands(w: World, p: Plan, rows: seq<Row>, i: nat)
    requires i < |rows| && forall j, k :: 0 <= j < k < i ==> rows[j].id != rows[k].id
    ensures RowOk(w, p, rows[i], rows[..i]) <==> Stands(w, p, rows, i)
  {
    SupersedesIs(w, rows, i);
    FindNone(rows[..i], rows[i].id);
    assert forall j :: 0 <= j < i ==> rows[..i][j] == rows[j];
    BodyStands(w, p, rows[i]);
  }

  lemma BodyStands(w: World, p: Plan, row: Row)
    ensures var b := row.body;
      BodyOk(w, b, Known(w, p, row)) && EvidenceOk(w, b) <==>
        && (p.active == Some(row.rev) ==> b.checkpoint in w.checkpoints)
        && b.loop > 0 && (forall k :: 0 <= k < |b.limits| ==> !w.blank(b.limits[k]))
        && ((b.status == Pass || b.status == Fail) && b.evidence == [] ==> b.limits != [])
        && forall k :: 0 <= k < |b.evidence| ==>
          w.safePath(b.evidence[k].path) && b.evidence[k].path in w.files && b.evidence[k].sha256 == w.files[b.evidence[k].path]
  {
  }

  ghost predicate AllStand(c: Codec, w: World, p: Plan, lines: seq<string>, rows: seq<Row>) {
    |lines| == |rows| && forall i :: 0 <= i < |rows| ==> c.parse(lines[i]) == Some(rows[i]) && Stands(w, p, rows, i)
  }

  lemma StandsInPrefix(w: World, p: Plan, rows: seq<Row>, n: nat, i: nat)
    requires i < n <= |rows|
    ensures Stands(w, p, rows[..n], i) <==> Stands(w, p, rows, i)
  {
    assert forall j :: 0 <= j < n ==> rows[..n][j] == rows[j];
  }

  lemma AllStandFront(c: Codec, w: World, p: Plan, lines: seq<string>, rows: seq<Row>)
    requires lines != [] && |lines| == |rows|
    ensures var n := |lines| - 1;
      AllStand(c, w, p, lines, rows) <==> AllStand(c, w, p, lines[..n], rows[..n]) && c.parse(lines[n]) == Some(rows[n]) && Stands(w, p, rows, n)
  {
    var n := |lines| - 1;
    forall i | 0 <= i < n ensures Stands(w, p, rows[..n], i) <==> Stands(w, p, rows, i) { StandsInPrefix(w, p, rows, n, i); }
  }

  lemma ReadLinesLast(c: Codec, w: World, p: Plan, lines: seq<string>, rows: seq<Row>)
    requires lines != [] && |lines| == |rows|
    ensures var n := |lines| - 1;
      ReadLines(c, w, p, lines) == Some(rows) <==>
        ReadLines(c, w, p, lines[..n]) == Some(rows[..n]) && c.parse(lines[n]) == Some(rows[n]) && RowOk(w, p, rows[n], rows[..n])
  {
    var n := |lines| - 1;
    assert rows == rows[..n] + [rows[n]];
    var front := ReadLines(c, w, p, lines[..n]);
    if ReadLines(c, w, p, lines) == Some(rows) {
      assert rows == front.value + [c.parse(lines[n]).value];
      assert rows[..n] == front.value;
    }
  }

  lemma {:induction false} ReadLinesExactly(c: Codec, w: World, p: Plan, lines: seq<string>, rows: seq<Row>)
    requires |lines| == |rows|
    ensures ReadLines(c, w, p, lines) == Some(rows) <==> AllStand(c, w, p, lines, rows)
    decreases |lines|
  {
    if lines != [] {
      var n := |lines| - 1;
      ReadLinesLast(c, w, p, lines, rows);
      ReadLinesExactly(c, w, p, lines[..n], rows[..n]);
      AllStandFront(c, w, p, lines, rows);
      if ReadLines(c, w, p, lines[..n]) == Some(rows[..n]) {
        ReadIdsDiffer(c, w, p, lines[..n]);
        IdsDifferUpTo(rows, n);
        RowStands(w, p, rows, n);
      }
    }
  }

  lemma IdsDifferUpTo(rows: seq<Row>, n: nat)
    requires n <= |rows| && DistinctIds(rows[..n])
    ensures forall j, k :: 0 <= j < k < n ==> rows[j].id != rows[k].id
  {
    forall j, k | 0 <= j < k < n ensures rows[j].id != rows[k].id { assert rows[..n][j] == rows[j] && rows[..n][k] == rows[k]; }
  }

  lemma {:induction false} ReadLinesLength(c: Codec, w: World, p: Plan, lines: seq<string>)
    ensures ReadLines(c, w, p, lines).Some? ==> |ReadLines(c, w, p, lines).value| == |lines|
  {
    if lines != [] { ReadLinesLength(c, w, p, lines[..|lines| - 1]); }
  }

  /** A log reads exactly if it is complete, the plan's revisions ascend, and every line is a row that stands. */
  lemma ReadExactly(c: Codec, w: World, p: Plan, file: string, rows: seq<Row>)
    ensures Read(c, w, p, file) == Some(rows) <==> Complete(file) && Ascending(p) && AllStand(c, w, p, SplitLines(file), rows)
  {
    RevisionsOkExactly(p);
    ReadLinesLength(c, w, p, SplitLines(file));
    if |SplitLines(file)| == |rows| { ReadLinesExactly(c, w, p, SplitLines(file), rows); }
  }

  lemma WellGivenIs(w: World, b: Body)
    ensures BodyOk(w, b, w.checkpoints) && CanAssign(w, b) <==> IsWellGiven(w, b)
  {
  }

  lemma AssignedIsRecord(w: World, p: Plan, rows: seq<Row>, b: Body, now: string)
    requires CanAssign(w, b) && p.active.Some?
    ensures IsRecordOf(w, p, rows, b, now, Row(IdOf(MaxNumber(rows) + 1), now, p.active.value, Assigned(w, b)))
  {
    MaxNumberIsNext(rows);
    IdReads(MaxNumber(rows) + 1);
  }

  lemma SupersedingIs(c: Codec, w: World, p: Plan, file: string, b: Body, row: Row)
    requires Read(c, w, p, file).Some? && p.active == Some(row.rev) && CanAssign(w, b) && row.body == Assigned(w, b)
    ensures var rows := Read(c, w, p, file).value;
      SupersedeOk(w, row, rows) <==> (b.supersedes.Some? ==> MaySupersede(w, p, rows, b, b.supersedes.value))
  {
    var rows := Read(c, w, p, file).value;
    ReadIdsDiffer(c, w, p, SplitLines(file));
    assert Read(c, w, p, file) == ReadLines(c, w, p, SplitLines(file));
    SupersedeIs(w, p, rows, row);
    if b.supersedes.Some? {
      assert MaySupersede(w, p, rows, b, b.supersedes.value) <==> MaySupersede(w, p, rows, row.body, b.supersedes.value);
    }
  }

  /** A row is prepared exactly when the log can be read and every condition is met, and it is the record that was given. */
  lemma PreparedExactly(c: Codec, w: World, p: Plan, digest: string, file: string, b: Body, expected: Option<int>, now: string)
    ensures var rows, row := Read(c, w, p, file), Prepared(c, w, p, digest, file, b, expected, now);
      && (row.Some? <==> rows.Some? && Recordable(w, p, digest, rows.value, b, expected))
      && (row.Some? ==> IsRecordOf(w, p, rows.value, b, now, row.value))
  {
    ActiveIsConfirmed(p, digest);
    WellGivenIs(w, b);
    var rows := Read(c, w, p, file);
    if rows.Some? && IsActive(p, digest) && CanAssign(w, b) {
      var row := Row(IdOf(MaxNumber(rows.value) + 1), now, p.active.value, Assigned(w, b));
      SupersedingIs(c, w, p, file, b, row);
      AssignedIsRecord(w, p, rows.value, b, now);
    }
  }

  lemma AppendedExactly(c: Codec, w: World, p: Plan, digest: string, file: string, b: Body, expected: Option<int>, now: string)
    ensures var rows, row := Read(c, w, p, file), Prepared(c, w, p, digest, file, b, expected, now);
      && (row.Some? <==> rows.Some? && Recordable(w, p, digest, rows.value, b, expected))
      && (row.Some? ==> forall x :: IsRecordOf(w, p, rows.value, b, now, x) <==> x == row.value)
  {
    PreparedExactly(c, w, p, digest, file, b, expected, now);
    var rows, row := Read(c, w, p, file), Prepared(c, w, p, digest, file, b, expected, now);
    if row.Some? {
      forall x | IsRecordOf(w, p, rows.value, b, now, x) ensures x == row.value { RecordIsUnique(w, p, rows.value, b, now, x, row.value); }
    }
  }

  /** A short write is cut back to what was there. */
  method AppendRecord(c: Codec, w: World, p: Plan, digest: string, file: string, b: Body, expected: Option<int>, now: string, written: nat)
      returns (after: string, r: Option<Row>)
    ensures var row := Prepared(c, w, p, digest, file, b, expected, now);
      && r == (if row.Some? && written >= |c.print_(row.value) + "\n"| then row else None)
      && after == (if r.Some? then file + c.print_(r.value) + "\n" else file)
    ensures var rows := Read(c, w, p, file);
      && (r.Some? <==>
            && rows.Some? && Recordable(w, p, digest, rows.value, b, expected)
            && forall row :: IsRecordOf(w, p, rows.value, b, now, row) ==> written > |c.print_(row)|)
      && (r.Some? ==> IsRecordOf(w, p, rows.value, b, now, r.value))
  {
    AppendedExactly(c, w, p, digest, file, b, expected, now);
    after, r := file, None;
    if !IsActive(p, digest) || expected != p.active || !BodyOk(w, b, w.checkpoints) || !Complete(file) { return; }
    var rows := ReadObservations(c, w, p, file);
    if rows.None? || !CanAssign(w, b) { return; }
    var row := Row(IdOf(MaxNumber(rows.value) + 1), now, p.active.value, Assigned(w, b));
    if !SupersedeOk(w, row, rows.value) { return; }
    var line := c.print_(row) + "\n";
    after := file + (if written < |line| then line[..written] else line);
    if written < |line| {
      after := after[..|file|];
      return;
    }
    assert file + line == file + c.print_(row) + "\n";
    r := Some(row);
  }

  lemma {:induction false} NewIdIsNew(rows: seq<Row>, id: string)
    requires NumberOfId(id) > MaxNumber(rows)
    ensures forall i :: 0 <= i < |rows| ==> rows[i].id != id
  {
    if rows != [] { NewIdIsNew(rows[..|rows| - 1], id); }
  }

  lemma {:induction false} FindNone(rows: seq<Row>, id: string)
    ensures Find(rows, id).None? <==> forall i :: 0 <= i < |rows| ==> rows[i].id != id
    ensures Find(rows, id).Some? ==> exists i :: 0 <= i < |rows| && rows[i] == Find(rows, id).value && rows[i].id == id
  {
    if rows != [] && rows[0].id != id { FindNone(rows[1..], id); }
  }

  /** The prepared row passes every check the reader makes. */
  lemma PreparedIsOk(c: Codec, w: World, p: Plan, digest: string, file: string, b: Body, expected: Option<int>, now: string)
    requires Prepared(c, w, p, digest, file, b, expected, now).Some? && w.isTime(now)
    ensures RowOk(w, p, Prepared(c, w, p, digest, file, b, expected, now).value, Read(c, w, p, file).value)
  {
    var rows := Read(c, w, p, file).value;
    var n := MaxNumber(rows) + 1;
    var row := Prepared(c, w, p, digest, file, b, expected, now).value;
    IdReads(n);
    NewIdIsNew(rows, row.id);
    FindNone(rows, row.id);
    assert HasRevision(p, row.rev);
    forall k | 0 <= k < |row.body.evidence| ensures ItemOk(w, row.body.evidence[k]) { }
  }

  /** The three line separators that JSON text may hold as they are. */
  predicate IsSeparator(c: char) {
    c as int == 0x85 || c as int == 0x2028 || c as int == 0x2029
  }

  predicate HasSeparator(s: string) {
    exists i :: 0 <= i < |s| && IsSeparator(s[i])
  }

  lemma {:induction false} FirstBreak(s: string) returns (k: nat)
    requires exists i :: 0 <= i < |s| && Breaks(s[i])
    ensures k < |s| && Breaks(s[k]) && forall i :: 0 <= i < k ==> !Breaks(s[i])
  {
    if Breaks(s[0]) {
      k := 0;
    } else {
      var i :| 0 <= i < |s| && Breaks(s[i]);
      assert Breaks(s[1..][i - 1]);
      var j := FirstBreak(s[1..]);
      k := j + 1;
      forall i | 0 <= i < k ensures !Breaks(s[i]) { if i > 0 { assert s[1..][i - 1] == s[i]; } }
    }
  }

  /**
   * After a successful append the log reads as the old rows and the new one exactly when the new line holds none of the three
   * separators; with one of them the log can no longer be read at all.
   */
  lemma AppendedLogReads(c: Codec, w: World, p: Plan, digest: string, file: string, b: Body, expected: Option<int>, now: string)
    requires c.Faithful() && w.isTime(now) && Prepared(c, w, p, digest, file, b, expected, now).Some?
    ensures var row := Prepared(c, w, p, digest, file, b, expected, now).value;
      var text := c.print_(row);
      Read(c, w, p, file + text + "\n") == if HasSeparator(text) then None else Some(Read(c, w, p, file).value + [row])
  {
    var row := Prepared(c, w, p, digest, file, b, expected, now).value;
    var text := c.print_(row);
    var lines := SplitLines(file);
    assert file + text + "\n" == file + (text + "\n");
    SplitConcat(file, text + "\n");
    if HasSeparator(text) {
      var i :| 0 <= i < |text| && IsSeparator(text[i]);
      assert Breaks(text[i]);
      BrokenLineFails(c, w, p, lines, row);
    } else {
      assert forall i :: 0 <= i < |text| ==> text[i] as int >= 0x20 && !IsSeparator(text[i]);
      SplitPlainLine(text);
      assert (lines + [text])[..|lines|] == lines;
      PreparedIsOk(c, w, p, digest, file, b, expected, now);
    }
  }

  lemma BrokenLineFails(c: Codec, w: World, p: Plan, lines: seq<string>, row: Row)
    requires c.Faithful() && exists i :: 0 <= i < |c.print_(row)| && Breaks(c.print_(row)[i])
    ensures ReadLines(c, w, p, lines + SplitLines(c.print_(row) + "\n")).None?
  {
    var text := c.print_(row);
    var k := FirstBreak(text);
    var s := text + "\n";
    SplitBrokenLine(s, k);
    assert s[..k] == text[..k];
    var all := lines + SplitLines(s);
    assert all[..|lines| + 1] == lines + [text[..k]];
    assert (lines + [text[..k]])[..|lines|] == lines;
    FailsOn(c, w, p, all, |lines| + 1);
  }

  // ----- rows that supersede each other -----

  /** What reading guarantees about the links: backwards, unique, within one checkpoint, revision and dimension. */
  ghost predicate Linked(rows: seq<Row>) {
    && (forall i, j :: 0 <= i < j < |rows| ==> rows[i].id != rows[j].id)
    && (forall j :: 0 <= j < |rows| && rows[j].body.supersedes.Some? ==>
          exists i :: 0 <= i < j && rows[i].id == rows[j].body.supersedes.value && SameLine(rows[i], rows[j]))
    && (forall i, j :: 0 <= i < j < |rows| && rows[i].body.supersedes.Some? ==> rows[j].body.supersedes != rows[i].body.supersedes)
  }

  lemma {:induction false} ReadRowsAreLinked(c: Codec, w: World, p: Plan, lines: seq<string>)
    requires ReadLines(c, w, p, lines).Some?
    ensures Linked(ReadLines(c, w, p, lines).value)
  {
    if lines != [] {
      ReadRowsAreLinked(c, w, p, lines[..|lines| - 1]);
      var previous := ReadLines(c, w, p, lines[..|lines| - 1]).value;
      var row := c.parse(lines[|lines| - 1]).value;
      LinkOneMore(w, p, previous, row);
    }
  }

  lemma LinkOneMore(w: World, p: Plan, previous: seq<Row>, row: Row)
    requires Linked(previous) && RowOk(w, p, row, previous)
    ensures Linked(previous + [row])
  {
    var rows := previous + [row];
    FindNone(previous, row.id);
    if row.body.supersedes.Some? {
      FindNone(previous, row.body.supersedes.value);
      var i :| 0 <= i < |previous| && previous[i] == Find(previous, row.body.supersedes.value).value;
      assert rows[i].id == row.body.supersedes.value && SameLine(rows[i], row);
    }
    forall j | 0 <= j < |rows| && rows[j].body.supersedes.Some?
      ensures exists i :: 0 <= i < j && rows[i].id == rows[j].body.supersedes.value && SameLine(rows[i], rows[j])
    {
      if j < |previous| {
        var i :| 0 <= i < j && previous[i].id == previous[j].body.supersedes.value && SameLine(previous[i], previous[j]);
        assert rows[i] == previous[i];
      }
    }
  }

  /** The row that supersedes row `i`, searched from `j` on. */
  function NextFrom(rows: seq<Row>, i: nat, j: nat): (r: Option<nat>)
    requires i < |rows|
    ensures r.Some? ==> j <= r.value < |rows| && rows[r.value].body.supersedes == Some(rows[i].id)
    ensures r.None? ==> forall k :: j <= k < |rows| ==> rows[k].body.supersedes != Some(rows[i].id)
    decreases |rows| - j
  {
    if j >= |rows| then None
    else if rows[j].body.supersedes == Some(rows[i].id) then Some(j)
    else NextFrom(rows, i, j + 1)
  }

  function Next(rows: seq<Row>, i: nat): Option<nat>
    requires i < |rows|
  {
    NextFrom(rows, i, i + 1)
  }

  function End(rows: seq<Row>, i: nat): (e: nat)
    requires i < |rows|
    ensures i <= e < |rows|
    decreases |rows| - i
  {
    if Next(rows, i).None? then i else End(rows, Next(rows, i).value)
  }

  /** Following the links from `i` comes to `k`. */
  predicate Reaches(rows: seq<Row>, i: nat, k: nat)
    requires i < |rows|
    decreases |rows| - i
  {
    i == k || (Next(rows, i).Some? && Reaches(rows, Next(rows, i).value, k))
  }

  /** A row counts in a revision if it was made for it and nothing in the log replaces it. */
  predicate IsEffective(row: Row, log: seq<Row>, rev: int) {
    row.rev == rev && !Replaced(log, row.id)
  }

  /** The effective rows among `rows`, in order. */
  function Effective(rows: seq<Row>, log: seq<Row>, rev: int): seq<Row> {
    if rows == [] then []
    else
      var row := rows[|rows| - 1];
      var front := Effective(rows[..|rows| - 1], log, rev);
      if IsEffective(row, log, rev) then front + [row] else front
  }

  lemma {:induction false} EffectiveIn(rows: seq<Row>, log: seq<Row>, rev: int, row: Row)
    ensures row in Effective(rows, log, rev) <==> row in rows && IsEffective(row, log, rev)
  {
    if rows != [] {
      EffectiveIn(rows[..|rows| - 1], log, rev, row);
      assert rows == rows[..|rows| - 1] + [rows[|rows| - 1]];
    }
  }

  lemma ReplacedIsNext(rows: seq<Row>, i: nat)
    requires Linked(rows) && i < |rows|
    ensures Replaced(rows, rows[i].id) <==> Next(rows, i).Some?
  {
    if Replaced(rows, rows[i].id) {
      var j :| 0 <= j < |rows| && rows[j].body.supersedes == Some(rows[i].id);
      var t :| 0 <= t < j && rows[t].id == rows[j].body.supersedes.value && SameLine(rows[t], rows[j]);
      assert t == i;
    }
  }

  /** A link goes forward within one checkpoint, revision and dimension. */
  lemma NextIsSameLine(rows: seq<Row>, i: nat)
    requires Linked(rows) && i < |rows| && Next(rows, i).Some?
    ensures i < Next(rows, i).value && SameLine(rows[i], rows[Next(rows, i).value])
  {
    var j := Next(rows, i).value;
    var t :| 0 <= t < j && rows[t].id == rows[j].body.supersedes.value && SameLine(rows[t], rows[j]);
    assert t == i;
  }

  /** Every row's chain ends in a row nobody replaces, of the same checkpoint, revision and dimension. */
  lemma {:induction false} ChainEnds(rows: seq<Row>, i: nat)
    requires Linked(rows) && i < |rows|
    ensures var e := End(rows, i);
      Reaches(rows, i, e) && SameLine(rows[i], rows[e]) && !Replaced(rows, rows[e].id)
    decreases |rows| - i
  {
    ReplacedIsNext(rows, i);
    if Next(rows, i).Some? {
      NextIsSameLine(rows, i);
      ChainEnds(rows, Next(rows, i).value);
    }
  }

  /** The effective rows of a log are exactly the ends of the chains of the revision, one for each chain. */
  lemma EffectiveAreChainEnds(rows: seq<Row>, rev: int, i: nat)
    requires Linked(rows) && i < |rows|
    ensures rows[i] in Effective(rows, rows, rev) <==> rows[i].rev == rev && End(rows, i) == i
    ensures rows[i].rev == rev ==> rows[End(rows, i)] in Effective(rows, rows, rev)
  {
    ReplacedIsNext(rows, i);
    ChainEnds(rows, i);
    EffectiveIn(rows, rows, rev, rows[i]);
    EffectiveIn(rows, rows, rev, rows[End(rows, i)]);
  }

  lemma {:induction false} ReachesSameEnd(rows: seq<Row>, i: nat, k: nat)
    requires i < |rows| && k < |rows| && Reaches(rows, i, k)
    ensures End(rows, i) == End(rows, k) && i <= k
    decreases |rows| - i
  {
    if i != k { ReachesSameEnd(rows, Next(rows, i).value, k); }
  }

  /** Two rows that lead to the same place are on one path: no row is the successor of two. */
  lemma {:induction false} Comparable(rows: seq<Row>, i: nat, k: nat)
    requires Linked(rows) && i < |rows| && k < |rows| && End(rows, i) == End(rows, k)
    ensures Reaches(rows, i, k) || Reaches(rows, k, i)
    decreases |rows| - i, |rows| - k
  {
    if i == k {
    } else if i < k {
      if Next(rows, i).Some? {
        var j := Next(rows, i).value;
        Comparable(rows, j, k);
        if !Reaches(rows, j, k) { BackOne(rows, k, j, i); }
      }
    } else if Next(rows, k).Some? {
      var j := Next(rows, k).value;
      Comparable(rows, i, j);
      if !Reaches(rows, j, i) { BackOne(rows, i, j, k); }
    }
  }

  lemma IdNamesOneRow(rows: seq<Row>, i: nat, k: nat)
    requires Linked(rows) && i < |rows| && k < |rows|
    ensures rows[i].id == rows[k].id ==> i == k
  {
  }

  /** A path to the successor of `i` that does not begin there comes through `i`. */
  lemma {:induction false} BackOne(rows: seq<Row>, from: nat, j: nat, i: nat)
    requires Linked(rows) && from < |rows| && i < |rows| && Next(rows, i) == Some(j)
    requires Reaches(rows, from, j) && from != j
    ensures Reaches(rows, from, i)
    decreases |rows| - from
  {
    var n := Next(rows, from).value;
    if n == j {
      assert rows[j].body.supersedes == Some(rows[i].id) && rows[j].body.supersedes == Some(rows[from].id);
      IdNamesOneRow(rows, from, i);
    } else {
      BackOne(rows, n, j, i);
    }
  }

  /** In a readable log the chains are disjoint: rows share an end exactly when one is reached from the other. */
  lemma ChainsAreDisjoint(c: Codec, w: World, p: Plan, file: string, i: nat, k: nat)
    requires Read(c, w, p, file).Some? && i < |Read(c, w, p, file).value| && k < |Read(c, w, p, file).value|
    ensures var rows := Read(c, w, p, file).value;
      && (End(rows, i) == End(rows, k) <==> Reaches(rows, i, k) || Reaches(rows, k, i))
      && (End(rows, i) == End(rows, k) ==> SameLine(rows[i], rows[k]))
  {
    var rows := Read(c, w, p, file).value;
    ReadRowsAreLinked(c, w, p, SplitLines(file));
    ChainEnds(rows, i);
    ChainEnds(rows, k);
    if End(rows, i) == End(rows, k) { Comparable(rows, i, k); }
    if Reaches(rows, i, k) { ReachesSameEnd(rows, i, k); }
    if Reaches(rows, k, i) { ReachesSameEnd(rows, k, i); }
  }

  // ----- confirming a plan -----

  function MaxRevision(rs: seq<Revision>): int {
    if rs == [] then 0 else Max(MaxRevision(rs[..|rs| - 1]), rs[|rs| - 1].rev)
  }

  function Max(a: int, b: int): int { if a < b then b else a }

  function Confirmed(p: Plan, digest: string, selected: string): Plan {
    var rev := MaxRevision(p.revisions) + 1;
    Plan(p.revisions + [Revision(rev, digest, selected)], Some(rev))
  }

  lemma {:induction false} MaxIsLast(p: Plan, rs: seq<Revision>)
    requires RevisionsOk(p) && rs <= p.revisions
    ensures MaxRevision(rs) == if rs == [] then 0 else rs[|rs| - 1].rev
    ensures forall i :: 0 <= i < |rs| ==> 0 < rs[i].rev <= MaxRevision(rs)
    decreases |rs|
  {
    if rs != [] {
      var n := |rs| - 1;
      var front := rs[..n];
      MaxIsLast(p, front);
      assert rs[n] == p.revisions[n] && p.revisions[n].rev > RevisionBefore(p, n);
      if n > 0 { assert rs[n - 1] == p.revisions[n - 1]; }
    }
  }

  lemma RowStaysOk(w: World, v: World, p: Plan, q: Plan, row: Row, previous: seq<Row>)
    requires RowOk(w, p, row, previous) && q.active != Some(row.rev) && HasRevision(q, row.rev)
    requires v == w.(checkpoints := v.checkpoints)
    ensures RowOk(v, q, row, previous)
  {
  }

  lemma {:induction false} LogStaysReadable(c: Codec, w: World, v: World, p: Plan, digest: string, selected: string, lines: seq<string>)
    requires RevisionsOk(p) && v == w.(checkpoints := v.checkpoints) && ReadLines(c, w, p, lines).Some?
    ensures ReadLines(c, v, Confirmed(p, digest, selected), lines) == ReadLines(c, w, p, lines)
    ensures forall i :: 0 <= i < |ReadLines(c, w, p, lines).value| ==> Confirmed(p, digest, selected).active != Some(ReadLines(c, w, p, lines).value[i].rev)
  {
    if lines != [] {
      var q := Confirmed(p, digest, selected);
      LogStaysReadable(c, w, v, p, digest, selected, lines[..|lines| - 1]);
      var previous := ReadLines(c, w, p, lines[..|lines| - 1]).value;
      var row := c.parse(lines[|lines| - 1]).value;
      MaxIsLast(p, p.revisions);
      var i :| 0 <= i < |p.revisions| && p.revisions[i].rev == row.rev;
      assert q.revisions[i] == p.revisions[i];
      RowStaysOk(w, v, p, q, row, previous);
    }
  }

  lemma {:induction false} NothingEffective(rows: seq<Row>, log: seq<Row>, rev: int)
    requires forall i :: 0 <= i < |rows| ==> rows[i].rev != rev
    ensures Effective(rows, log, rev) == []
  {
    if rows != [] { NothingEffective(rows[..|rows| - 1], log, rev); }
  }

  /**
   * Confirming makes a plan that is active for the confirmed inputs, whatever its checkpoints now are; the log reads as
   * before, and no row of it is effective.
   */
  lemma ConfirmStartsAfresh(c: Codec, w: World, v: World, p: Plan, digest: string, selected: string, file: string)
    requires Read(c, w, p, file).Some? && v == w.(checkpoints := v.checkpoints)
    ensures var q := Confirmed(p, digest, selected);
      && IsActive(q, digest) && !HasRevision(p, q.active.value)
      && q.revisions == p.revisions + [Revision(q.active.value, digest, selected)]
      && q.active.value == (if p.revisions == [] then 1 else p.revisions[|p.revisions| - 1].rev + 1)
      && Read(c, v, q, file) == Read(c, w, p, file)
      && Effective(Read(c, v, q, file).value, Read(c, v, q, file).value, q.active.value) == []
  {
    var q := Confirmed(p, digest, selected);
    MaxIsLast(p, p.revisions);
    var n := |p.revisions|;
    assert q.revisions[n] == Revision(q.active.value, digest, selected);
    forall i | 0 <= i < |q.revisions| ensures q.revisions[i].rev > RevisionBefore(q, i) {
      if i < n { assert q.revisions[i] == p.revisions[i] && RevisionBefore(q, i) == RevisionBefore(p, i); }
    }
    LogStaysReadable(c, w, v, p, digest, selected, SplitLines(file));
    var rows := Read(c, w, p, file).value;
    NothingEffective(rows, rows, q.active.value);
  }
}
