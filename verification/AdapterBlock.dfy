/** The adapter block: printed from its fields at the end of a document, and read back. */
module AdapterBlock {
  import opened JsObject
  import opened Lines
  import opened ManagedInvocation
  import opened Substrings

  // ----- the block -----

  datatype UpdateCheck = Enabled | Disabled
  datatype Recovery = NoRecovery | RecoveryRequired
  datatype Notice = Notice(installed: string, available: string, managementEntry: string)

  datatype Fields = Fields(
    generation: string, invocation: string, telemetry: Telemetry, updateCheck: UpdateCheck,
    notice: Option<Notice>, recovery: Option<Recovery>)

  /** The field names a reader allows. */
  datatype Key = GenerationKey | InvocationKey | TelemetryKey | UpdateCheckKey | InstalledKey | AvailableKey | EntryKey | RecoveryKey

  function NameOf(k: Key): string {
    match k
    case GenerationKey => "generation"
    case InvocationKey => "invocation"
    case TelemetryKey => "telemetry"
    case UpdateCheckKey => "updateCheck"
    case InstalledKey => "notice.installed"
    case AvailableKey => "notice.available"
    case EntryKey => "notice.managementEntry"
    case RecoveryKey => "recovery"
  }

  function KeyOf(name: string): Option<Key> {
    if name == NameOf(GenerationKey) then Some(GenerationKey)
    else if name == NameOf(InvocationKey) then Some(InvocationKey)
    else if name == NameOf(TelemetryKey) then Some(TelemetryKey)
    else if name == NameOf(UpdateCheckKey) then Some(UpdateCheckKey)
    else if name == NameOf(InstalledKey) then Some(InstalledKey)
    else if name == NameOf(AvailableKey) then Some(AvailableKey)
    else if name == NameOf(EntryKey) then Some(EntryKey)
    else if name == NameOf(RecoveryKey) then Some(RecoveryKey)
    else None
  }

  /** The order in which keys are printed. */
  function Rank(k: Key): nat {
    match k
    case GenerationKey => 0
    case InvocationKey => 1
    case TelemetryKey => 2
    case UpdateCheckKey => 3
    case InstalledKey => 4
    case AvailableKey => 5
    case EntryKey => 6
    case RecoveryKey => 7
  }

  function TelemetryText(t: Telemetry): string { if t == AdapterOff then "adapter-off" else "official" }
  function UpdateCheckText(u: UpdateCheck): string { if u == Enabled then "enabled" else "disabled" }
  function RecoveryText(r: Recovery): string { if r == NoRecovery then "none" else "recovery-required" }

  predicate IsGeneration(g: string) {
    g != "" && forall i :: 0 <= i < |g| ==> 'a' <= g[i] <= 'z' || '0' <= g[i] <= '9' || g[i] == '.' || g[i] == '_' || g[i] == '-'
  }

  /** Without newlines, quotes and backslashes. */
  predicate IsTame(s: string) {
    '\n' !in s && '\'' !in s && '\\' !in s
  }

  /** The two markers, and how versions in a notice are normalised. */
  datatype Format = Format(start: string, end: string, canonicalVersion: string -> Option<string>) {
    /** What the markers' own text gives, and that a normalised version holds neither a newline nor `<`. */
    ghost predicate Sound() {
      && start != "" && start[0] == '<' && start[|start| - 1] == '>' && IsTame(start) && IsTame(end)
      && end != "" && |end| < |start|
      && forall v :: canonicalVersion(v).Some? ==> '\n' !in canonicalVersion(v).value && '<' !in canonicalVersion(v).value
    }
  }

  // The marker texts, in pieces short enough for the verifier to go through character by character.
  const START := "<!-- dsh-openspec" + "-adapter:block" + "-format=1 -->"
  const END := "<!-- /dsh-openspec" + "-adapter -->"

  lemma MarkersAreSound(canonicalVersion: string -> Option<string>)
    requires forall v :: canonicalVersion(v).Some? ==> '\n' !in canonicalVersion(v).value && '<' !in canonicalVersion(v).value
    ensures Format(START, END, canonicalVersion).Sound()
  {
    var a, b, c, d, e := "<!-- dsh-openspec", "-adapter:block", "-format=1 -->", "<!-- /dsh-openspec", "-adapter -->";
    assert IsTame(a);
    assert IsTame(b);
    assert IsTame(c);
    assert IsTame(d);
    assert IsTame(e);
    assert a[0] == '<' && c[12] == '>';
    PiecesAreSound(a, b, c, d, e);
  }

  lemma PiecesAreSound(a: string, b: string, c: string, d: string, e: string)
    requires IsTame(a) && IsTame(b) && IsTame(c) && IsTame(d) && IsTame(e)
    requires |a| == 17 && |b| == 14 && |c| == 13 && |d| == 18 && |e| == 12 && a[0] == '<' && c[12] == '>'
    ensures var start, end := a + b + c, d + e;
      && start != "" && start[0] == '<' && start[|start| - 1] == '>' && IsTame(start) && IsTame(end) && end != "" && |end| < |start|
  {
  }

  type Entries = seq<(Key, string)>

  function NoticeEntries(f: Format, n: Option<Notice>): Entries {
    if n.None? then []
    else
      var installed, available := f.canonicalVersion(n.value.installed), f.canonicalVersion(n.value.available);
      if installed.Some? && available.Some? && n.value.managementEntry == "openspec-upgrade"
      then [(InstalledKey, installed.value), (AvailableKey, available.value), (EntryKey, "openspec-upgrade")]
      else []
  }

  function RecoveryEntries(r: Option<Recovery>): Entries {
    if r.Some? then [(RecoveryKey, RecoveryText(r.value))] else []
  }

  function FirstEntries(input: Fields, invocation: string): Entries {
    [(GenerationKey, input.generation), (InvocationKey, invocation), (TelemetryKey, TelemetryText(input.telemetry)),
     (UpdateCheckKey, UpdateCheckText(input.updateCheck))]
  }

  function EntriesOf(f: Format, input: Fields, invocation: string): Entries {
    FirstEntries(input, invocation) + NoticeEntries(f, input.notice) + RecoveryEntries(input.recovery)
  }

  function LineOf(e: (Key, string)): string { NameOf(e.0) + "=" + e.1 }

  function LinesOf(entries: Entries): (lines: seq<string>)
    ensures |lines| == |entries| && forall i :: 0 <= i < |lines| ==> lines[i] == LineOf(entries[i])
  {
    seq(|entries|, i requires 0 <= i < |entries| => LineOf(entries[i]))
  }

  function Block(f: Format, entries: Entries): string {
    Join([f.start] + LinesOf(entries) + [f.end])
  }

  function Built(f: Format, input: Fields): Option<string> {
    var invocation := Normalized(input.invocation, input.telemetry);
    if !IsGeneration(input.generation) || invocation.None? then None
    else Some(Block(f, EntriesOf(f, input, invocation.value)))
  }

  method BuildAdapterBlock(f: Format, input: Fields) returns (r: Option<string>)
    ensures r == Built(f, input)
  {
    if !IsGeneration(input.generation) { return None; }
    var invocation := NormalizeInvocation(input.invocation, input.telemetry);
    if invocation.None? { return None; }
    var entries := [(GenerationKey, input.generation), (InvocationKey, invocation.value), (TelemetryKey, TelemetryText(input.telemetry)),
                    (UpdateCheckKey, UpdateCheckText(input.updateCheck))];
    if input.notice.Some? {
      var installed, available := f.canonicalVersion(input.notice.value.installed), f.canonicalVersion(input.notice.value.available);
      if installed.Some? && available.Some? && input.notice.value.managementEntry == "openspec-upgrade" {
        entries := entries + [(InstalledKey, installed.value), (AvailableKey, available.value), (EntryKey, "openspec-upgrade")];
      }
    }
    assert entries == FirstEntries(input, invocation.value) + NoticeEntries(f, input.notice);
    if input.recovery.Some? { entries := entries + [(RecoveryKey, RecoveryText(input.recovery.value))]; }
    assert entries == EntriesOf(f, input, invocation.value);
    r := Some(Block(f, entries));
  }

  function IndexOfEquals(line: string): Option<nat> {
    if line == "" then None
    else if line[0] == '=' then Some(0)
    else
      var r := IndexOfEquals(line[1..]);
      if r.None? then None else Some(r.value + 1)
  }

  lemma {:induction false} IndexIsFirst(line: string)
    ensures IndexOfEquals(line).Some? ==> IndexOfEquals(line).value < |line|
  {
    if line != "" && line[0] != '=' { IndexIsFirst(line[1..]); }
  }

  function ReadLine(line: string): Option<(Key, string)> {
    IndexIsFirst(line);
    var eq := IndexOfEquals(line);
    if eq.None? || eq.value < 1 then None
    else
      var k := KeyOf(line[..eq.value]);
      if k.None? then None else Some((k.value, line[eq.value + 1..]))
  }

  /** A duplicate key or a line that is not an allowed field refuses the block. */
  function ReadFields(lines: seq<string>, fields: map<Key, string>): Option<map<Key, string>>
    decreases |lines|
  {
    if lines == [] then Some(fields)
    else
      var l := ReadLine(lines[0]);
      if l.None? || l.value.0 in fields then None else ReadFields(lines[1..], fields[l.value.0 := l.value.1])
  }

  predicate Complete(m: map<Key, string>) {
    && GenerationKey in m && IsGeneration(m[GenerationKey])
    && InvocationKey in m && m[InvocationKey] != ""
    && TelemetryKey in m && (m[TelemetryKey] == "adapter-off" || m[TelemetryKey] == "official")
    && UpdateCheckKey in m && (m[UpdateCheckKey] == "enabled" || m[UpdateCheckKey] == "disabled")
  }

  function ReadBlock(f: Format, block: seq<string>): Option<map<Key, string>>
    requires block != []
  {
    if block[0] != f.start || block[|block| - 1] != f.end || |block| < 2 then None
    else
      var m := ReadFields(block[1..|block| - 1], map[]);
      if m.Some? && Complete(m.value) then m else None
  }

  function Parsed(f: Format, content: string): Option<map<Key, string>> {
    var start := LastIndexOf(content, f.start);
    if start.None? || !EndsWith(content, f.end) then None
    else
      LastFromFound(content, f.start, |content|);
      ReadBlock(f, Split(content[start.value..]))
  }

  method ParseAdapterBlock(f: Format, content: string) returns (r: Option<map<Key, string>>)
    requires f.start != f.end
    ensures r == Parsed(f, content)
  {
    var start := LastIndexOf(content, f.start);
    if start.None? || !EndsWith(content, f.end) { return None; }
    LastFromFound(content, f.start, |content|);
    var block := Split(content[start.value..]);
    if block[0] != f.start || block[|block| - 1] != f.end { return None; }
    var lines := block[1..|block| - 1];
    var fields: map<Key, string> := map[];
    var i := 0;
    while i < |lines|
      invariant 0 <= i <= |lines| && ReadFields(lines, map[]) == ReadFields(lines[i..], fields)
    {
      var line := ReadLine(lines[i]);
      if line.None? || line.value.0 in fields { return None; }
      fields := fields[line.value.0 := line.value.1];
      assert lines[i..][1..] == lines[i + 1..];
      i := i + 1;
    }
    if !Complete(fields) { return None; }
    r := Some(fields);
  }

  predicate IsSpace(c: char) {
    var n := c as int;
    || 0x9 <= n <= 0xd || n == 0x20 || n == 0xa0 || n == 0x1680 || 0x2000 <= n <= 0x200a || n == 0x2028 || n == 0x2029
    || n == 0x202f || n == 0x205f || n == 0x3000 || n == 0xfeff
  }

  function TrimEnd(s: string): string {
    if s != "" && IsSpace(s[|s| - 1]) then TrimEnd(s[..|s| - 1]) else s
  }

  predicate AcceptedBody(f: Format, body: string) {
    !Includes(body, f.start) && !Includes(body, f.end) && !Includes(body, "</skill_content>") && !Includes(body, "</skill_instructions>")
  }

  /** `renderConsumedContent`. */
  function Rendered(f: Format, body: string, input: Fields): Option<string> {
    var block := Built(f, input);
    if !AcceptedBody(f, body) || block.None? then None else Some(TrimEnd(body) + "\n\n" + block.value)
  }

  // ----- reading the block back -----

  lemma {:induction false} IndexAfterName(name: string, v: string)
    requires '=' !in name
    ensures IndexOfEquals(name + "=" + v) == Some(|name|)
  {
    var line := name + "=" + v;
    if name == "" {
      assert line[0] == '=';
    } else {
      assert line[1..] == name[1..] + "=" + v;
      IndexAfterName(name[1..], v);
    }
  }

  predicate IsNameChar(c: char) { c == '.' || 'a' <= c <= 'z' || 'A' <= c <= 'Z' }

  lemma NameChars(k: Key)
    ensures forall i :: 0 <= i < |NameOf(k)| ==> IsNameChar(NameOf(k)[i])
  {
    match k
    case GenerationKey =>
    case InvocationKey =>
    case TelemetryKey =>
    case UpdateCheckKey =>
    case InstalledKey =>
    case AvailableKey =>
    case EntryKey =>
    case RecoveryKey =>
  }

  /** Length, first and eighth character tell the names apart. */
  lemma NamesDiffer()
    ensures |NameOf(GenerationKey)| == 10 && NameOf(GenerationKey)[0] == 'g'
    ensures |NameOf(InvocationKey)| == 10 && NameOf(InvocationKey)[0] == 'i'
    ensures |NameOf(TelemetryKey)| == 9 && |NameOf(UpdateCheckKey)| == 11 && |NameOf(EntryKey)| == 22 && |NameOf(RecoveryKey)| == 8
    ensures |NameOf(InstalledKey)| == 16 && NameOf(InstalledKey)[7] == 'i'
    ensures |NameOf(AvailableKey)| == 16 && NameOf(AvailableKey)[7] == 'a'
  {
  }

  lemma NameFacts(k: Key)
    ensures '=' !in NameOf(k) && '\n' !in NameOf(k) && '<' !in NameOf(k) && NameOf(k) != ""
    ensures KeyOf(NameOf(k)) == Some(k)
  {
    NameChars(k);
    NamesDiffer();
  }

  lemma ReadsLine(e: (Key, string))
    ensures ReadLine(LineOf(e)) == Some(e)
  {
    NameFacts(e.0);
    IndexAfterName(NameOf(e.0), e.1);
    assert LineOf(e)[..|NameOf(e.0)|] == NameOf(e.0) && LineOf(e)[|NameOf(e.0)| + 1..] == e.1;
  }

  function Into(m: map<Key, string>, entries: Entries): map<Key, string>
    decreases |entries|
  {
    if entries == [] then m else Into(m[entries[0].0 := entries[0].1], entries[1..])
  }

  predicate Ascending(entries: Entries) {
    forall i, j :: 0 <= i < j < |entries| ==> Rank(entries[i].0) < Rank(entries[j].0)
  }

  /** The keys of `m` come before those of `entries`. */
  predicate Precedes(m: map<Key, string>, entries: Entries) {
    forall k, i :: k in m && 0 <= i < |entries| ==> Rank(k) < Rank(entries[i].0)
  }

  lemma {:induction false} ReadsEntries(entries: Entries, m: map<Key, string>)
    requires Ascending(entries) && Precedes(m, entries)
    ensures ReadFields(LinesOf(entries), m) == Some(Into(m, entries))
    decreases |entries|
  {
    if entries != [] {
      ReadsLine(entries[0]);
      assert LinesOf(entries)[1..] == LinesOf(entries[1..]);
      ReadsEntries(entries[1..], m[entries[0].0 := entries[0].1]);
    }
  }

  lemma {:induction false} IntoKeeps(entries: Entries, m: map<Key, string>, k: Key)
    requires Ascending(entries) && Precedes(m, entries)
    ensures k in m ==> k in Into(m, entries) && Into(m, entries)[k] == m[k]
    ensures forall i :: 0 <= i < |entries| && entries[i].0 == k ==> k in Into(m, entries) && Into(m, entries)[k] == entries[i].1
    decreases |entries|
  {
    if entries != [] { IntoKeeps(entries[1..], m[entries[0].0 := entries[0].1], k); }
  }

  lemma EntriesAscend(f: Format, input: Fields, invocation: string)
    ensures Ascending(EntriesOf(f, input, invocation))
  {
  }

  lemma {:induction false} IntoOnly(entries: Entries, m: map<Key, string>, k: Key)
    requires k in Into(m, entries)
    ensures k in m || exists i :: 0 <= i < |entries| && entries[i].0 == k
    decreases |entries|
  {
    if entries != [] {
      IntoOnly(entries[1..], m[entries[0].0 := entries[0].1], k);
      if k !in m && k != entries[0].0 {
        var i :| 0 <= i < |entries[1..]| && entries[1..][i].0 == k;
        assert entries[i + 1].0 == k;
      }
    }
  }

  /** The required fields as they were given. */
  ghost predicate RequiredRead(input: Fields, invocation: string, m: map<Key, string>) {
    && Complete(m) && m[GenerationKey] == input.generation && m[InvocationKey] == invocation
    && m[TelemetryKey] == TelemetryText(input.telemetry) && m[UpdateCheckKey] == UpdateCheckText(input.updateCheck)
  }

  /** A notice is shown whole or not at all: both versions must normalise and the entry be the managed one. */
  predicate ShowsNotice(f: Format, n: Option<Notice>) {
    n.Some? && f.canonicalVersion(n.value.installed).Some? && f.canonicalVersion(n.value.available).Some? && n.value.managementEntry == "openspec-upgrade"
  }

  /** The notice and the recovery state are there exactly if they were shown, with the normalised versions. */
  ghost predicate OptionalRead(f: Format, input: Fields, m: map<Key, string>) {
    && (InstalledKey in m <==> ShowsNotice(f, input.notice)) && (AvailableKey in m <==> ShowsNotice(f, input.notice)) && (EntryKey in m <==> ShowsNotice(f, input.notice))
    && (ShowsNotice(f, input.notice) ==>
          && Some(m[InstalledKey]) == f.canonicalVersion(input.notice.value.installed)
          && Some(m[AvailableKey]) == f.canonicalVersion(input.notice.value.available)
          && m[EntryKey] == input.notice.value.managementEntry)
    && (RecoveryKey in m <==> input.recovery.Some?)
    && (input.recovery.Some? ==> m[RecoveryKey] == RecoveryText(input.recovery.value))
  }

  lemma RequiredFieldsRead(f: Format, input: Fields, invocation: string)
    requires IsGeneration(input.generation) && invocation != ""
    ensures RequiredRead(input, invocation, Into(map[], EntriesOf(f, input, invocation)))
  {
    var entries := EntriesOf(f, input, invocation);
    EntriesAscend(f, input, invocation);
    assert Precedes(map[], entries);
    IntoKeeps(entries, map[], GenerationKey);
    IntoKeeps(entries, map[], InvocationKey);
    IntoKeeps(entries, map[], TelemetryKey);
    IntoKeeps(entries, map[], UpdateCheckKey);
    assert entries[0].0 == GenerationKey && entries[1].0 == InvocationKey && entries[2].0 == TelemetryKey && entries[3].0 == UpdateCheckKey;
  }

  /** Which optional keys an entry list has. */
  lemma OptionalEntries(f: Format, input: Fields, invocation: string, k: Key)
    requires k.InstalledKey? || k.AvailableKey? || k.EntryKey? || k.RecoveryKey?
    ensures var entries := EntriesOf(f, input, invocation);
      (exists i :: 0 <= i < |entries| && entries[i].0 == k) <==> if k.RecoveryKey? then input.recovery.Some? else ShowsNotice(f, input.notice)
  {
    var entries := EntriesOf(f, input, invocation);
    if ShowsNotice(f, input.notice) {
      assert entries[4].0 == InstalledKey && entries[5].0 == AvailableKey && entries[6].0 == EntryKey;
    }
    if input.recovery.Some? { assert entries[|entries| - 1].0 == RecoveryKey; }
  }

  lemma OptionalKey(f: Format, input: Fields, invocation: string, k: Key)
    requires k.InstalledKey? || k.AvailableKey? || k.EntryKey? || k.RecoveryKey?
    ensures k in Into(map[], EntriesOf(f, input, invocation)) <==> if k.RecoveryKey? then input.recovery.Some? else ShowsNotice(f, input.notice)
  {
    var entries := EntriesOf(f, input, invocation);
    EntriesAscend(f, input, invocation);
    OptionalEntries(f, input, invocation, k);
    IntoKeeps(entries, map[], k);
    if k in Into(map[], entries) { IntoOnly(entries, map[], k); }
  }

  lemma OptionalFieldsRead(f: Format, input: Fields, invocation: string)
    ensures OptionalRead(f, input, Into(map[], EntriesOf(f, input, invocation)))
  {
    var entries := EntriesOf(f, input, invocation);
    EntriesAscend(f, input, invocation);
    OptionalKey(f, input, invocation, InstalledKey);
    OptionalKey(f, input, invocation, AvailableKey);
    OptionalKey(f, input, invocation, EntryKey);
    OptionalKey(f, input, invocation, RecoveryKey);
    OptionalValues(f, input, invocation);
  }

  lemma OptionalValues(f: Format, input: Fields, invocation: string)
    ensures var m := Into(map[], EntriesOf(f, input, invocation));
      && (ShowsNotice(f, input.notice) ==>
            && InstalledKey in m && m[InstalledKey] == f.canonicalVersion(input.notice.value.installed).value
            && AvailableKey in m && m[AvailableKey] == f.canonicalVersion(input.notice.value.available).value
            && EntryKey in m && m[EntryKey] == "openspec-upgrade")
      && (input.recovery.Some? ==> RecoveryKey in m && m[RecoveryKey] == RecoveryText(input.recovery.value))
  {
    var entries := EntriesOf(f, input, invocation);
    EntriesAscend(f, input, invocation);
    IntoKeeps(entries, map[], InstalledKey);
    IntoKeeps(entries, map[], AvailableKey);
    IntoKeeps(entries, map[], EntryKey);
    IntoKeeps(entries, map[], RecoveryKey);
    if ShowsNotice(f, input.notice) {
      assert entries[4].0 == InstalledKey && entries[5].0 == AvailableKey && entries[6].0 == EntryKey;
    }
    if input.recovery.Some? { assert entries[|entries| - 1] == (RecoveryKey, RecoveryText(input.recovery.value)); }
  }

  lemma AfterFront(front: string, v: string, t: string, i: nat)
    requires '<' !in front && t != "" && t[0] == '<' && At(front + v, t, i)
    ensures i >= |front|
  {
    CharsOf(front + v, t, i);
    assert (front + v)[i] == '<';
    forall k | 0 <= k < |front| ensures (front + v)[k] != '<' { assert front[k] in front; }
  }

  lemma MarkerAfterName(name: string, v: string, t: string)
    requires '<' !in name && t != "" && t[0] == '<'
    ensures Includes(name + "=" + v, t) <==> Includes(v, t)
  {
    var front := name + "=";
    assert '<' !in front;
    if Includes(front + v, t) {
      var i :| 0 <= i <= |front + v| && At(front + v, t, i);
      AfterFront(front, v, t, i);
      Shifted(front, v, t, i);
      assert At(v, t, i - |front|);
    }
    if Includes(v, t) {
      var i :| 0 <= i <= |v| && At(v, t, i);
      Shifted(front, v, t, i + |front|);
      assert At(front + v, t, i + |front|);
    }
  }

  /** A line holds the marker exactly when its value does. */
  lemma MarkerInLine(f: Format, e: (Key, string))
    requires f.Sound()
    ensures Includes(LineOf(e), f.start) <==> Includes(e.1, f.start)
  {
    NameFacts(e.0);
    MarkerAfterName(NameOf(e.0), e.1, f.start);
  }

  lemma FixedTextIsPlain()
    ensures forall t :: '<' !in TelemetryText(t) && '\n' !in TelemetryText(t)
    ensures forall u :: '<' !in UpdateCheckText(u) && '\n' !in UpdateCheckText(u)
    ensures forall r :: '<' !in RecoveryText(r) && '\n' !in RecoveryText(r)
    ensures '<' !in "openspec-upgrade" && '\n' !in "openspec-upgrade"
  {
  }

  /** Every value but the invocation is free of newlines and `<`. */
  lemma OtherValuesArePlain(f: Format, input: Fields, invocation: string)
    requires f.Sound() && IsGeneration(input.generation)
    ensures var entries := EntriesOf(f, input, invocation);
      forall i :: 0 <= i < |entries| && i != 1 ==> '<' !in entries[i].1 && '\n' !in entries[i].1
  {
    FixedTextIsPlain();
    var notice := NoticeEntries(f, input.notice);
    assert forall i :: 0 <= i < |notice| ==> '<' !in notice[i].1 && '\n' !in notice[i].1;
    var entries := EntriesOf(f, input, invocation);
    forall i | 0 <= i < |entries| && i != 1 ensures '<' !in entries[i].1 && '\n' !in entries[i].1 {
      if 4 <= i < 4 + |notice| { assert entries[i] == notice[i - 4]; }
      if 4 + |notice| <= i { assert entries[i] == RecoveryEntries(input.recovery)[i - 4 - |notice|]; }
    }
  }

  lemma LinesAreOneLine(f: Format, entries: Entries)
    requires f.Sound() && forall i :: 0 <= i < |entries| ==> '\n' !in entries[i].1
    ensures Split(Block(f, entries)) == [f.start] + LinesOf(entries) + [f.end]
  {
    var all := [f.start] + LinesOf(entries) + [f.end];
    forall i | 0 <= i < |all| ensures '\n' !in all[i] {
      if 1 <= i <= |entries| {
        NameFacts(entries[i - 1].0);
        assert all[i] == LineOf(entries[i - 1]);
      }
    }
    SplitJoin(all);
  }

  lemma JoinHead(lines: seq<string>)
    requires |lines| > 1
    ensures Join(lines) == lines[0] + "\n" + Join(lines[1..])
  {
  }

  lemma RestHasNoMarker(f: Format, entries: Entries)
    requires f.Sound() && forall i :: 0 <= i < |entries| ==> !Includes(entries[i].1, f.start)
    ensures !Includes(Join(LinesOf(entries) + [f.end]), f.start)
  {
    var rest := LinesOf(entries) + [f.end];
    forall k | 0 <= k < |rest| ensures !Includes(rest[k], f.start) {
      if k < |entries| {
        assert rest[k] == LineOf(entries[k]);
        MarkerInLine(f, entries[k]);
      }
    }
    NotInJoin(rest, f.start);
  }

  /** After its first line, a block whose values hold no marker holds none either. */
  lemma OnlyFirstLineIsMarker(f: Format, entries: Entries, j: nat)
    requires f.Sound() && forall i :: 0 <= i < |entries| ==> !Includes(entries[i].1, f.start)
    requires At(Block(f, entries), f.start, j)
    ensures j == 0
  {
    var rest := LinesOf(entries) + [f.end];
    var all := [f.start] + LinesOf(entries) + [f.end];
    assert all[1..] == rest && all[0] == f.start;
    RestHasNoMarker(f, entries);
    JoinHead(all);
    assert "\n" == ['\n'];
    WithinPart(f.start, '\n', Join(rest), f.start, j);
  }

  lemma {:induction false} JoinEnds(lines: seq<string>)
    requires lines != []
    ensures EndsWith(Join(lines), lines[|lines| - 1])
    decreases |lines|
  {
    if |lines| > 1 { JoinEnds(lines[1..]); }
  }

  lemma ContentEnds(f: Format, before: string, entries: Entries)
    ensures EndsWith(before + Block(f, entries), f.end)
  {
    var all := [f.start] + LinesOf(entries) + [f.end];
    JoinEnds(all);
    assert all[|all| - 1] == f.end;
  }

  lemma NoLaterMarker(f: Format, before: string, entries: Entries, j: nat)
    requires f.Sound() && (forall i :: 0 <= i < |entries| ==> !Includes(entries[i].1, f.start)) && |before| < j
    ensures !At(before + Block(f, entries), f.start, j)
  {
    Shifted(before, Block(f, entries), f.start, j);
    if At(Block(f, entries), f.start, j - |before|) { OnlyFirstLineIsMarker(f, entries, j - |before|); }
  }

  lemma BlockBegins(f: Format, entries: Entries)
    ensures At(Block(f, entries), f.start, 0)
  {
    JoinHead([f.start] + LinesOf(entries) + [f.end]);
  }

  /** A block without markers in its values is found where it begins, whatever precedes it. */
  lemma BlockIsFound(f: Format, before: string, entries: Entries)
    requires f.Sound() && forall i :: 0 <= i < |entries| ==> !Includes(entries[i].1, f.start)
    ensures LastIndexOf(before + Block(f, entries), f.start) == Some(|before|)
  {
    var content := before + Block(f, entries);
    BlockBegins(f, entries);
    Shifted(before, Block(f, entries), f.start, |before|);
    forall j | |before| < j <= |content| ensures !At(content, f.start, j) { NoLaterMarker(f, before, entries, j); }
    LastFromIs(content, f.start, |content|, |before|);
  }

  lemma ParsesBack(f: Format, before: string, input: Fields, invocation: string)
    requires f.Sound() && IsGeneration(input.generation) && invocation != "" && '\n' !in invocation && !Includes(invocation, f.start)
    ensures Parsed(f, before + Block(f, EntriesOf(f, input, invocation))) == Some(Into(map[], EntriesOf(f, input, invocation)))
  {
    var entries := EntriesOf(f, input, invocation);
    OtherValuesArePlain(f, input, invocation);
    forall i | 0 <= i < |entries| ensures '\n' !in entries[i].1 && !Includes(entries[i].1, f.start) {
      if i == 1 { assert entries[1].1 == invocation; } else { NeedsBracket(entries[i].1, f.start); }
    }
    BlockIsFound(f, before, entries);
    ContentEnds(f, before, entries);
    LinesAreOneLine(f, entries);
    var block := [f.start] + LinesOf(entries) + [f.end];
    assert (before + Block(f, entries))[|before|..] == Block(f, entries);
    assert block[1..|block| - 1] == LinesOf(entries);
    EntriesAscend(f, input, invocation);
    ReadsEntries(entries, map[]);
    RequiredFieldsRead(f, input, invocation);
  }

  // ----- exactly when the block reads back -----

  lemma {:induction false} SplitHead(a: string, b: string)
    requires '\n' !in a
    ensures Split(a + "\n" + b)[0] == a
  {
    SplitAtNewline(a, b);
    SplitOneLine(a);
  }

  /** When the invocation holds the start marker, the reader begins inside that line and refuses. */
  lemma MarkerInInvocationRefuses(f: Format, before: string, input: Fields, invocation: string)
    requires f.Sound() && IsGeneration(input.generation) && '\n' !in invocation && Includes(invocation, f.start)
    requires invocation != "" && invocation[|invocation| - 1] == '\''
    ensures Parsed(f, before + Block(f, EntriesOf(f, input, invocation))) == None
  {
    var entries := EntriesOf(f, input, invocation);
    var all := [f.start] + LinesOf(entries) + [f.end];
    var line, tail := LineOf(entries[1]), Join(all[3..]);
    var head := f.start + "\n" + LineOf(entries[0]) + "\n";
    BlockAround(f, entries);
    Regroup(before, head, line + "\n" + tail);
    TailHasNoMarker(f, input, invocation);
    InvocationLine(f, input, invocation);
    RefusedInside(f, before + head, line, tail);
  }

  lemma Regroup(a: string, b: string, c: string)
    ensures a + (b + c) == (a + b) + c
  {
  }

  lemma InvocationLine(f: Format, input: Fields, invocation: string)
    requires f.Sound() && '\n' !in invocation && invocation != "" && invocation[|invocation| - 1] == '\''
    ensures var line := LineOf(EntriesOf(f, input, invocation)[1]);
      && '\n' !in line && line != "" && line[|line| - 1] == '\''
      && (Includes(line, f.start) <==> Includes(invocation, f.start))
  {
    assert EntriesOf(f, input, invocation)[1] == (InvocationKey, invocation);
    NameFacts(InvocationKey);
    MarkerInLine(f, (InvocationKey, invocation));
  }

  /** A reader that begins inside a line ending in a quote does not find the marker as its first line. */
  lemma RefusedInside(f: Format, head: string, line: string, tail: string)
    requires f.Sound() && Includes(line, f.start) && !Includes(tail, f.start) && '\n' !in line
    requires line != "" && line[|line| - 1] == '\''
    ensures Parsed(f, head + (line + "\n" + tail)) == None
  {
    var content := head + (line + "\n" + tail);
    LastInLine(head, line, tail, f.start);
    var q := LastIndexOf(content, f.start).value;
    var rest := line[q - |head|..];
    assert content[q..] == rest + "\n" + tail;
    SplitHead(rest, tail);
    assert rest[|rest| - 1] == '\'';
  }

  /** The block as the two lines before the invocation, the invocation and what follows. */
  lemma BlockAround(f: Format, entries: Entries)
    requires |entries| >= 4
    ensures var all := [f.start] + LinesOf(entries) + [f.end];
      Block(f, entries) == f.start + "\n" + LineOf(entries[0]) + "\n" + (LineOf(entries[1]) + "\n" + Join(all[3..]))
  {
    var all := [f.start] + LinesOf(entries) + [f.end];
    JoinHead(all);
    JoinHead(all[1..]);
    JoinHead(all[2..]);
    assert all[1..][1..] == all[2..] && all[2..][1..] == all[3..];
  }

  lemma TailHasNoMarker(f: Format, input: Fields, invocation: string)
    requires f.Sound() && IsGeneration(input.generation)
    ensures var entries := EntriesOf(f, input, invocation);
      var all := [f.start] + LinesOf(entries) + [f.end];
      !Includes(Join(all[3..]), f.start)
  {
    var entries := EntriesOf(f, input, invocation);
    var rest := ([f.start] + LinesOf(entries) + [f.end])[3..];
    OtherValuesArePlain(f, input, invocation);
    forall k | 0 <= k < |rest| ensures !Includes(rest[k], f.start) {
      if k + 2 < |entries| {
        assert rest[k] == LineOf(entries[k + 2]);
        NeedsBracket(entries[k + 2].1, f.start);
        MarkerInLine(f, entries[k + 2]);
      } else {
        assert rest[k] == f.end;
      }
    }
    NotInJoin(rest, f.start);
  }

  lemma NoControlNoNewline(s: string)
    requires !HasControl(s)
    ensures '\n' !in s
  {
    forall i | 0 <= i < |s| ensures s[i] != '\n' { assert !IsControl(s[i]); }
  }

  /**
   * Whatever body was accepted, what is rendered reads back as the fields it was built from, exactly when the invocation
   * does not hold the start marker; otherwise nothing is read.
   */
  lemma RenderedReadsBack(f: Format, body: string, input: Fields)
    requires f.Sound() && Rendered(f, body, input).Some?
    ensures var r := Parsed(f, Rendered(f, body, input).value);
      && (r.Some? <==> !Includes(input.invocation, f.start))
      && (r.Some? ==> RequiredRead(input, input.invocation, r.value) && OptionalRead(f, input, r.value))
  {
    var v := input.invocation;
    RenderedIs(f, body, input);
    var before := TrimEnd(body) + "\n\n";
    if Includes(v, f.start) {
      MarkerInInvocationRefuses(f, before, input, v);
    } else {
      ParsesBack(f, before, input, v);
      RequiredFieldsRead(f, input, v);
      OptionalFieldsRead(f, input, v);
    }
  }

  /** What is rendered: the trimmed body, an empty line, and the block of the fields as they were given. */
  lemma RenderedIs(f: Format, body: string, input: Fields)
    requires Rendered(f, body, input).Some?
    ensures Rendered(f, body, input).value == (TrimEnd(body) + "\n\n") + Block(f, EntriesOf(f, input, input.invocation))
    ensures IsGeneration(input.generation) && '\n' !in input.invocation && input.invocation != "" && input.invocation[|input.invocation| - 1] == '\''
  {
    NormalizesExactlyManaged(input.invocation, input.telemetry);
    NormalizedEndsQuoted(input.invocation, input.telemetry);
    NoControlNoNewline(input.invocation);
  }

  /** For the invocation of two given paths: the block is rendered, and it reads back exactly when neither path holds the start marker. */
  lemma PathsDecideReadingBack(f: Format, body: string, input: Fields, node: string, cli: string)
    requires f.Sound() && AcceptedBody(f, body) && IsGeneration(input.generation)
    requires Managed(node, cli, input.telemetry) == Some(input.invocation)
    ensures Rendered(f, body, input).Some?
    ensures Parsed(f, Rendered(f, body, input).value).Some? <==> !Includes(node, f.start) && !Includes(cli, f.start)
  {
    NormalizesExactlyManaged(input.invocation, input.telemetry);
    RenderedReadsBack(f, body, input);
    IncludedThroughPaths(node, cli, input.telemetry, f.start);
  }

  // ----- exactly what is rendered and what is read -----

  /** Trimming takes the white space off the end and nothing else. */
  lemma {:induction false} TrimsExactly(s: string)
    ensures var t := TrimEnd(s);
      t <= s && (forall i :: |t| <= i < |s| ==> IsSpace(s[i])) && (t != "" ==> !IsSpace(t[|t| - 1]))
    decreases |s|
  {
    if s != "" && IsSpace(s[|s| - 1]) { TrimsExactly(s[..|s| - 1]); }
  }

  function NoticeLines(f: Format, n: Option<Notice>): seq<string> {
    if !ShowsNotice(f, n) then []
    else
      ["notice.installed" + "=" + f.canonicalVersion(n.value.installed).value, "notice.available" + "=" + f.canonicalVersion(n.value.available).value,
       "notice.managementEntry" + "=" + "openspec-upgrade"]
  }

  function RecoveryLines(r: Option<Recovery>): seq<string> {
    if r.None? then [] else ["recovery" + "=" + (if r.value.NoRecovery? then "none" else "recovery-required")]
  }

  function BlockLines(f: Format, input: Fields): seq<string> {
    ["generation" + "=" + input.generation, "invocation" + "=" + input.invocation,
     "telemetry" + "=" + (if input.telemetry.AdapterOff? then "adapter-off" else "official"),
     "updateCheck" + "=" + (if input.updateCheck.Enabled? then "enabled" else "disabled")]
    + NoticeLines(f, input.notice) + RecoveryLines(input.recovery)
  }

  lemma BlockLinesAre(f: Format, input: Fields)
    ensures LinesOf(EntriesOf(f, input, input.invocation)) == BlockLines(f, input)
  {
    LinesOfAppend(FirstEntries(input, input.invocation) + NoticeEntries(f, input.notice), RecoveryEntries(input.recovery));
    LinesOfAppend(FirstEntries(input, input.invocation), NoticeEntries(f, input.notice));
    assert LinesOf(NoticeEntries(f, input.notice)) == NoticeLines(f, input.notice);
    assert LinesOf(RecoveryEntries(input.recovery)) == RecoveryLines(input.recovery);
    FirstLines(input);
  }

  lemma FirstLines(input: Fields)
    ensures LinesOf(FirstEntries(input, input.invocation)) ==
      ["generation" + "=" + input.generation, "invocation" + "=" + input.invocation,
       "telemetry" + "=" + (if input.telemetry.AdapterOff? then "adapter-off" else "official"),
       "updateCheck" + "=" + (if input.updateCheck.Enabled? then "enabled" else "disabled")]
  {
  }

  lemma LinesOfAppend(a: Entries, b: Entries)
    ensures LinesOf(a + b) == LinesOf(a) + LinesOf(b)
  {
  }

  /** The invocation is that of two paths, in this telemetry mode. */
  ghost predicate IsManaged(invocation: string, t: Telemetry) {
    exists node, cli :: IsManagedPath(node) && IsManagedPath(cli) && Managed(node, cli, t) == Some(invocation)
  }

  /**
   * A document is rendered exactly if its body holds neither marker nor a closing tag, the generation is well formed and
   * the invocation is that of two paths; it is the trimmed body, an empty line, and the lines of the block in order.
   */
  lemma RendersExactly(f: Format, body: string, input: Fields)
    ensures Rendered(f, body, input).Some? <==>
      && !Includes(body, f.start) && !Includes(body, f.end) && !Includes(body, "</skill_content>") && !Includes(body, "</skill_instructions>")
      && IsGeneration(input.generation) && IsManaged(input.invocation, input.telemetry)
    ensures Rendered(f, body, input).Some? ==>
      Rendered(f, body, input).value == TrimEnd(body) + "\n\n" + Join([f.start] + BlockLines(f, input) + [f.end])
  {
    NormalizesExactlyManaged(input.invocation, input.telemetry);
    if node, cli :| Managed(node, cli, input.telemetry) == Some(input.invocation) { ManagedExactly(node, cli, input.telemetry); }
    BlockLinesAre(f, input);
  }

  predicate DistinctKeys(entries: Entries) {
    forall i, j :: 0 <= i < j < |entries| ==> entries[i].0 != entries[j].0
  }

  lemma {:induction false} EqualsAt(line: string)
    ensures IndexOfEquals(line).Some? ==> IndexOfEquals(line).value < |line| && line[IndexOfEquals(line).value] == '='
  {
    if line != "" && line[0] != '=' { EqualsAt(line[1..]); }
  }

  /** A line that reads is an allowed name, an equals sign and the value. */
  lemma ReadLineMeans(line: string)
    ensures ReadLine(line).Some? ==> line == LineOf(ReadLine(line).value)
  {
    EqualsAt(line);
    var eq := IndexOfEquals(line);
    if eq.Some? { assert line == line[..eq.value] + "=" + line[eq.value + 1..]; }
  }

  ghost predicate Fresh(entries: Entries, m: map<Key, string>) {
    forall i :: 0 <= i < |entries| ==> entries[i].0 !in m
  }

  lemma OneMoreKey(e: (Key, string), rest: Entries, m: map<Key, string>)
    requires e.0 !in m && DistinctKeys(rest) && Fresh(rest, m[e.0 := e.1])
    ensures DistinctKeys([e] + rest) && Fresh([e] + rest, m)
  {
    var entries := [e] + rest;
    forall i | 0 <= i < |rest| ensures rest[i].0 != e.0 && rest[i].0 !in m { assert rest[i].0 !in m[e.0 := e.1]; }
    forall i, j | 0 <= i < j < |entries| ensures entries[i].0 != entries[j].0 {
      assert entries[j] == rest[j - 1];
      if i > 0 { assert entries[i] == rest[i - 1]; }
    }
    forall i | 0 <= i < |entries| ensures entries[i].0 !in m { if i > 0 { assert entries[i] == rest[i - 1]; } }
  }

  lemma OneMoreLine(e: (Key, string), rest: Entries, m: map<Key, string>)
    ensures LinesOf([e] + rest) == [LineOf(e)] + LinesOf(rest)
    ensures Into(m, [e] + rest) == Into(m[e.0 := e.1], rest)
  {
    assert ([e] + rest)[1..] == rest;
  }

  /** Fields that read are distinct allowed entries, one for each line. */
  lemma {:induction false} ReadFieldsMeans(lines: seq<string>, m: map<Key, string>) returns (entries: Entries)
    requires ReadFields(lines, m).Some?
    ensures lines == LinesOf(entries) && DistinctKeys(entries) && Fresh(entries, m)
    ensures ReadFields(lines, m).value == Into(m, entries)
    decreases |lines|
  {
    if lines == [] {
      entries := [];
    } else {
      var e := ReadLine(lines[0]).value;
      ReadLineMeans(lines[0]);
      var rest := ReadFieldsMeans(lines[1..], m[e.0 := e.1]);
      OneMoreKey(e, rest, m);
      OneMoreLine(e, rest, m);
      entries := [e] + rest;
      assert lines == [lines[0]] + lines[1..];
    }
  }

  lemma {:induction false} ReadsDistinct(entries: Entries, m: map<Key, string>)
    requires DistinctKeys(entries) && Fresh(entries, m)
    ensures ReadFields(LinesOf(entries), m) == Some(Into(m, entries))
    decreases |entries|
  {
    if entries != [] {
      ReadsLine(entries[0]);
      assert LinesOf(entries)[1..] == LinesOf(entries[1..]);
      ReadsDistinct(entries[1..], m[entries[0].0 := entries[0].1]);
    }
  }

  /** The last start marker of the content begins a block of these entries, which is all that follows. */
  ghost predicate EndsInBlock(f: Format, content: string, before: string, entries: Entries) {
    && content == before + Block(f, entries) && LastIndexOf(content, f.start) == Some(|before|)
    && DistinctKeys(entries) && forall i :: 0 <= i < |entries| ==> '\n' !in entries[i].1
  }

  /** The four required fields are there and well formed. */
  predicate HasRequired(m: map<Key, string>) {
    && GenerationKey in m && m[GenerationKey] != ""
    && (forall i :: 0 <= i < |m[GenerationKey]| ==>
          var c := m[GenerationKey][i]; 'a' <= c <= 'z' || '0' <= c <= '9' || c == '.' || c == '_' || c == '-')
    && InvocationKey in m && m[InvocationKey] != ""
    && TelemetryKey in m && m[TelemetryKey] in {"adapter-off", "official"}
    && UpdateCheckKey in m && m[UpdateCheckKey] in {"enabled", "disabled"}
  }

  lemma CompleteIsRequired(m: map<Key, string>)
    ensures Complete(m) <==> HasRequired(m)
  {
  }

  ghost predicate IsParsed(f: Format, content: string, m: map<Key, string>) {
    HasRequired(m) && exists before, entries :: EndsInBlock(f, content, before, entries) && m == Into(map[], entries)
  }

  lemma BlockParses(f: Format, content: string, before: string, entries: Entries)
    requires f.Sound() && EndsInBlock(f, content, before, entries)
    ensures Parsed(f, content) == if Complete(Into(map[], entries)) then Some(Into(map[], entries)) else None
  {
    ContentEnds(f, before, entries);
    LinesAreOneLine(f, entries);
    var block := [f.start] + LinesOf(entries) + [f.end];
    assert content[|before|..] == Block(f, entries);
    assert block[1..|block| - 1] == LinesOf(entries);
    ReadsDistinct(entries, map[]);
  }

  lemma BlockIsRead(f: Format, block: seq<string>) returns (entries: Entries)
    requires block != [] && ReadBlock(f, block).Some?
    ensures block == [f.start] + LinesOf(entries) + [f.end] && DistinctKeys(entries) && ReadBlock(f, block).value == Into(map[], entries)
  {
    BlockParts(block);
    entries := ReadFieldsMeans(block[1..|block| - 1], map[]);
  }

  lemma BlockParts(block: seq<string>)
    requires |block| >= 2
    ensures block == [block[0]] + block[1..|block| - 1] + [block[|block| - 1]]
  {
  }

  lemma ValuesAreOneLine(f: Format, entries: Entries)
    requires forall i :: 0 <= i < |entries| + 2 ==> '\n' !in ([f.start] + LinesOf(entries) + [f.end])[i]
    ensures forall i :: 0 <= i < |entries| ==> '\n' !in entries[i].1
  {
    var block := [f.start] + LinesOf(entries) + [f.end];
    forall i | 0 <= i < |entries| ensures '\n' !in entries[i].1 {
      assert block[i + 1] == LineOf(entries[i]);
      NoNewlineInValue(entries[i]);
    }
  }

  lemma ParsedIsBlock(f: Format, content: string) returns (before: string, entries: Entries)
    requires f.Sound() && Parsed(f, content).Some?
    ensures EndsInBlock(f, content, before, entries) && Parsed(f, content).value == Into(map[], entries)
  {
    var start := LastIndexOf(content, f.start).value;
    LastFromFound(content, f.start, |content|);
    before := content[..start];
    var tail := content[start..];
    entries := BlockIsRead(f, Split(tail));
    JoinSplit(tail);
    ValuesAreOneLine(f, entries);
    assert Block(f, entries) == tail;
    assert content == before + tail;
  }

  lemma NoNewlineInValue(e: (Key, string))
    requires '\n' !in LineOf(e)
    ensures '\n' !in e.1
  {
    var line, n := LineOf(e), |NameOf(e.0)| + 1;
    forall i | 0 <= i < |e.1| ensures e.1[i] != '\n' { assert line[n + i] == e.1[i] && line[n + i] in line; }
  }

  /**
   * What is read is exactly this: the content ends in a block that begins at its last start marker, the block is one of
   * allowed fields, each given once and on a line of its own, and the four required fields are among them and well formed.
   */
  lemma ParsesExactly(f: Format, content: string, m: map<Key, string>)
    requires f.Sound()
    ensures Parsed(f, content) == Some(m) <==> IsParsed(f, content, m)
  {
    CompleteIsRequired(m);
    if Parsed(f, content).Some? {
      var before, entries := ParsedIsBlock(f, content);
    }
    if IsParsed(f, content, m) {
      var before, entries :| EndsInBlock(f, content, before, entries) && m == Into(map[], entries);
      BlockParses(f, content, before, entries);
    }
  }
}
