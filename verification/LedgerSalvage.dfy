/** Offline repair of a corrupt ledger: the longest valid prefix, and a replacement that never loses the original bytes. */
module LedgerSalvage {
  import opened JsObject
  import opened Utf8

  /** The safe-integer `seq` of the record a line holds, if the line decodes and verifies. */
  type LineCodec = seq<Byte> -> Option<int>

  datatype Scan = Scan(kept: nat, keptBytes: nat, firstBadLine: Option<nat>)

  function IndexOfNewline(raw: seq<Byte>, from: nat): (i: nat)
    requires from <= |raw|
    ensures from <= i <= |raw| && NEWLINE !in raw[from..i] && (i < |raw| ==> raw[i] == NEWLINE)
    decreases |raw| - from
  {
    if from == |raw| || raw[from] == NEWLINE then from
    else
      var i := IndexOfNewline(raw, from + 1);
      assert raw[from..i] == [raw[from]] + raw[from + 1..i];
      i
  }

  /** The bytes after the last newline do not count. */
  function CompleteLength(raw: seq<Byte>): (n: nat)
    ensures n <= |raw| && NEWLINE !in raw[n..] && (n > 0 ==> raw[n - 1] == NEWLINE)
  {
    if raw == [] then 0
    else if raw[|raw| - 1] == NEWLINE then |raw|
    else
      var n := CompleteLength(raw[..|raw| - 1]);
      assert raw[n..] == raw[..|raw| - 1][n..] + [raw[|raw| - 1]];
      n
  }

  /** `raw[m..n]` is one newline-terminated line that decodes to `k`. */
  ghost predicate IsLine(decode: LineCodec, raw: seq<Byte>, m: nat, n: nat, k: nat) {
    m < n <= |raw| && raw[n - 1] == NEWLINE && NEWLINE !in raw[m..n - 1] && decode(raw[m..n - 1]) == Some(k)
  }

  /** The first `n` bytes are exactly `k` newline-terminated lines that decode to the sequence numbers 1 to `k`. */
  ghost predicate ValidTo(decode: LineCodec, raw: seq<Byte>, n: nat, k: nat) {
    if k == 0 then n == 0 else exists m: nat :: IsLine(decode, raw, m, n, k) && ValidTo(decode, raw, m, k - 1)
  }

  /** The longest valid prefix, and whether a complete line follows it. */
  ghost predicate IsScan(decode: LineCodec, raw: seq<Byte>, r: Scan) {
    && r.keptBytes <= |raw| && ValidTo(decode, raw, r.keptBytes, r.kept)
    && (forall n: nat, k: nat :: ValidTo(decode, raw, n, k) ==> n <= r.keptBytes)
    && r.firstBadLine == (if NEWLINE in raw[r.keptBytes..] then Some(r.kept + 1) else None)
  }

  lemma ValidEnds(decode: LineCodec, raw: seq<Byte>, n: nat, k: nat)
    requires ValidTo(decode, raw, n, k)
    ensures n <= |raw| && (n == 0 <==> k == 0) && (n > 0 ==> raw[n - 1] == NEWLINE)
  {
  }

  /** A longer valid prefix continues a shorter one: the line up to the next newline carries the next number. */
  lemma {:induction false} Continues(decode: LineCodec, raw: seq<Byte>, m: nat, j: nat, n: nat, k: nat, end: nat)
    requires m < n && ValidTo(decode, raw, m, j) && ValidTo(decode, raw, n, k)
    requires m <= end < |raw| && raw[end] == NEWLINE && NEWLINE !in raw[m..end]
    ensures decode(raw[m..end]) == Some(j + 1)
    decreases k
  {
    var i: nat :| IsLine(decode, raw, i, n, k) && ValidTo(decode, raw, i, k - 1);
    NotWithin(raw, NEWLINE, i, n - 1);
    NotWithin(raw, NEWLINE, m, end);
    ValidEnds(decode, raw, m, j);
    assert m <= i;
    if m < i {
      Continues(decode, raw, m, j, i, k - 1, end);
    } else {
      SameCount(decode, raw, m, j, k - 1);
      assert end == n - 1;
    }
  }

  lemma {:induction false} SameCount(decode: LineCodec, raw: seq<Byte>, n: nat, j: nat, k: nat)
    requires ValidTo(decode, raw, n, j) && ValidTo(decode, raw, n, k)
    ensures j == k
  {
    if n > 0 {
      var a: nat :| IsLine(decode, raw, a, n, j) && ValidTo(decode, raw, a, j - 1);
      var b: nat :| IsLine(decode, raw, b, n, k) && ValidTo(decode, raw, b, k - 1);
      ValidEnds(decode, raw, a, j - 1);
      ValidEnds(decode, raw, b, k - 1);
      NotWithin(raw, NEWLINE, a, n - 1);
      NotWithin(raw, NEWLINE, b, n - 1);
      assert a == b;
      SameCount(decode, raw, a, j - 1, k - 1);
    }
  }

  /** Nothing valid reaches past a line that does not decode to the next number. */
  lemma BadLineEnds(decode: LineCodec, raw: seq<Byte>, offset: nat, kept: nat, end: nat, n: nat, k: nat)
    requires offset <= end < |raw| && ValidTo(decode, raw, offset, kept)
    requires raw[end] == NEWLINE && NEWLINE !in raw[offset..end] && decode(raw[offset..end]) != Some(kept + 1)
    requires ValidTo(decode, raw, n, k)
    ensures n <= offset
  {
    if n > offset {
      Continues(decode, raw, offset, kept, n, k, end);
      assert false;
    }
  }

  method ScanLog(decode: LineCodec, raw: seq<Byte>) returns (r: Scan)
    ensures IsScan(decode, raw, r)
  {
    var complete := CompleteLength(raw);
    var offset, kept := 0, 0;
    while offset < complete
      invariant 0 <= offset <= complete && ValidTo(decode, raw, offset, kept)
      decreases complete - offset
    {
      var end := IndexOfNewline(raw, offset);
      NotWithin(raw, NEWLINE, offset, end);
      if decode(raw[offset..end]) != Some(kept + 1) {
        assert raw[offset..][end - offset] == NEWLINE;
        forall n: nat, k: nat | ValidTo(decode, raw, n, k) ensures n <= offset { BadLineEnds(decode, raw, offset, kept, end, n, k); }
        return Scan(kept, offset, Some(kept + 1));
      }
      assert IsLine(decode, raw, offset, end + 1, kept + 1);
      kept, offset := kept + 1, end + 1;
    }
    NotWithin(raw, NEWLINE, offset, |raw|);
    forall n: nat, k: nat | ValidTo(decode, raw, n, k) ensures n <= offset { ValidEnds(decode, raw, n, k); }
    r := Scan(kept, offset, None);
  }

  lemma {:induction false} ValidInPrefix(decode: LineCodec, raw: seq<Byte>, p: nat, n: nat, k: nat)
    requires n <= p <= |raw|
    ensures ValidTo(decode, raw[..p], n, k) <==> ValidTo(decode, raw, n, k)
    decreases k
  {
    forall m | 0 <= m < n ensures k > 0 ==>
      (IsLine(decode, raw[..p], m, n, k) <==> IsLine(decode, raw, m, n, k)) && (ValidTo(decode, raw[..p], m, k - 1) <==> ValidTo(decode, raw, m, k - 1))
    {
      if k > 0 {
        assert raw[..p][m..n - 1] == raw[m..n - 1];
        ValidInPrefix(decode, raw, p, m, k - 1);
      }
    }
  }

  /** Scanning the kept prefix again keeps the same lines and finds nothing bad. */
  lemma RescanIsClean(decode: LineCodec, raw: seq<Byte>, r: Scan, again: Scan)
    requires IsScan(decode, raw, r) && IsScan(decode, raw[..r.keptBytes], again)
    ensures again == Scan(r.kept, r.keptBytes, None)
  {
    ValidInPrefix(decode, raw, r.keptBytes, r.keptBytes, r.kept);
    assert again.keptBytes == r.keptBytes;
    SameCount(decode, raw[..r.keptBytes], r.keptBytes, again.kept, r.kept);
  }

  lemma {:induction false} TerminatedAppend<T>(lines: seq<seq<T>>, line: seq<T>, newline: T)
    ensures Terminated(lines + [line], newline) == Terminated(lines, newline) + line + [newline]
  {
    if lines == [] {
      assert [line][1..] == [];
    } else {
      assert (lines + [line])[1..] == lines[1..] + [line];
      TerminatedAppend(lines[1..], line, newline);
    }
  }

  lemma {:induction false} LinesOf(decode: LineCodec, raw: seq<Byte>, n: nat, k: nat) returns (lines: seq<seq<Byte>>)
    requires n <= |raw| && ValidTo(decode, raw, n, k)
    ensures |lines| == k && raw[..n] == Terminated(lines, NEWLINE)
    ensures forall i :: 0 <= i < k ==> NEWLINE !in lines[i] && decode(lines[i]) == Some(i + 1)
    decreases k
  {
    if k == 0 {
      lines := [];
    } else {
      var m: nat :| IsLine(decode, raw, m, n, k) && ValidTo(decode, raw, m, k - 1);
      var init := LinesOf(decode, raw, m, k - 1);
      TerminatedAppend(init, raw[m..n - 1], NEWLINE);
      assert raw[..n] == raw[..m] + raw[m..n - 1] + [raw[n - 1]];
      lines := init + [raw[m..n - 1]];
    }
  }

  /** The scanner's line codec: strict UTF-8 first, then `decodeRecord` on the text. */
  function StrictCodec(record: seq<int> -> Option<int>): LineCodec {
    line => var text := Decode(line); if text.None? then None else record(text.value)
  }

  ghost predicate AreLines(text: seq<int>, lines: seq<seq<int>>) {
    text == Terminated(lines, NEWLINE as int) && forall i :: 0 <= i < |lines| ==> NEWLINE as int !in lines[i]
  }

  /**
   * The store decodes the whole file and then splits it; the scan splits first. On the kept prefix both see the same
   * lines, and the n-th of them is record n.
   */
  lemma ScanAgreesWithWholeDecode(record: seq<int> -> Option<int>, raw: seq<Byte>, r: Scan) returns (texts: seq<seq<int>>)
    requires IsScan(StrictCodec(record), raw, r)
    ensures var whole := Decode(raw[..r.keptBytes]);
      whole.Some? && AreLines(whole.value, texts) && forall other :: AreLines(whole.value, other) ==> other == texts
    ensures |texts| == r.kept && forall i :: 0 <= i < r.kept ==> record(texts[i]) == Some(i + 1)
  {
    var lines := LinesOf(StrictCodec(record), raw, r.keptBytes, r.kept);
    WholeAgreesWithLines(lines);
    texts := DecodeLines(lines);
    forall i | 0 <= i < r.kept ensures NEWLINE as int !in texts[i] && record(texts[i]) == Some(i + 1) {
      assert StrictCodec(record)(lines[i]) == Some(i + 1);
      DecodedLine(lines[i]);
    }
    var whole := Decode(raw[..r.keptBytes]).value;
    forall other | AreLines(whole, other) ensures other == texts { SplitIsUnique(other, texts, NEWLINE as int); }
  }

  // ----- the directory -----

  datatype Name = Log | Tmp | Lock | Backup(stamp: string, n: nat) | Elsewhere(name: string)

  /** Names point to inodes, inodes hold bytes; `next` is an inode number never used before. */
  datatype Disk = Disk(names: map<Name, nat>, contents: map<nat, seq<Byte>>, next: nat) {
    ghost predicate Valid() {
      && (forall n :: n in names ==> names[n] in contents)
      && forall i :: i in contents ==> i < next
    }

    ghost predicate Holds(n: Name, bytes: seq<Byte>)
      requires Valid()
    {
      n in names && contents[names[n]] == bytes
    }
  }

  function Original(before: Disk): seq<Byte>
    requires Log in before.names && before.names[Log] in before.contents
  {
    before.contents[before.names[Log]]
  }

  /** The original bytes are under the log's name or a backup's, and every backup that existed is unchanged. */
  ghost predicate Safe(before: Disk, d: Disk) {
    && before.Valid() && d.Valid()
    && (Log in before.names ==> d.Holds(Log, Original(before)) || exists s, n :: d.Holds(Backup(s, n), Original(before)))
    && forall s, n :: Backup(s, n) in before.names ==> d.Holds(Backup(s, n), before.contents[before.names[Backup(s, n)]])
  }

  // ----- what may fail -----

  /** An exclusive creation may be refused, or tear after some bytes. */
  datatype Fault = NoFault | NotOpened | Torn(written: nat)

  /** Which operations fail in one call: creating the lock, reading the log, and so on to the final directory sync. */
  datatype Faults = Faults(
    lock: Fault, read: bool, write: Fault, link: bool, backupSync: bool,
    replace: bool, replaceSync: bool, cleanup: bool, release: bool)

  const NO_FAULTS := Faults(NoFault, false, NoFault, false, false, false, false, false, false)

  /** What a call reports. `NotReplaced` promises that the log still has its original bytes. */
  datatype Report = Held | NotLocked | Interrupted | Unreadable | Nothing | NotWritten | NotBackedUp | NotReplaced | Salvaged

  datatype Outcome = Ok | Exists | Failed

  /** Everything there was is still there, under the same names and with the same bytes. */
  ghost predicate Adds(before: Disk, d: Disk) {
    && d.Valid()
    && (forall n :: n in before.names ==> n in d.names && d.names[n] == before.names[n])
    && forall i :: i in before.contents ==> i in d.contents && d.contents[i] == before.contents[i]
  }

  /** The disk with a new name for a new inode. */
  function WithFile(d: Disk, name: Name, bytes: seq<Byte>): Disk {
    Disk(d.names[name := d.next], d.contents[d.next := bytes], d.next + 1)
  }

  lemma WithFileAdds(d: Disk, name: Name, bytes: seq<Byte>)
    requires d.Valid() && name !in d.names
    ensures Adds(d, WithFile(d, name, bytes)) && WithFile(d, name, bytes).Holds(name, bytes)
    ensures WithFile(d, name, bytes).names.Keys == d.names.Keys + {name}
  {
  }

  /** The ledger directory; `history` records the disk after every atomic change. */
  class Directory {
    var disk: Disk
    ghost var history: seq<Disk>

    constructor (disk: Disk)
      requires disk.Valid()
      ensures this.disk == disk && history == []
    {
      this.disk, history := disk, [];
    }

    /** `open(name, 'wx')`, write, sync: a write that fails leaves part of the bytes behind. */
    method Create(name: Name, bytes: seq<Byte>, fault: Fault) returns (r: Outcome)
      requires disk.Valid()
      modifies this
      ensures r == if name in old(disk).names then Exists else if fault.NoFault? then Ok else Failed
      ensures Adds(old(disk), disk) && disk.names.Keys <= old(disk).names.Keys + {name}
      ensures r.Ok? ==> disk.Holds(name, bytes) && disk.names == old(disk).names[name := disk.names[name]]
      ensures r.Exists? ==> disk == old(disk)
      ensures r.Failed? ==> (name in disk.names <==> fault.Torn?)
      ensures old(history) <= history
      ensures forall i :: |old(history)| <= i < |history| ==> Adds(old(disk), history[i])
    {
      if name in disk.names { return Exists; }
      if fault.NotOpened? { return Failed; }
      ghost var d := disk;
      var inode := disk.next;
      disk := Disk(disk.names[name := inode], disk.contents[inode := []], inode + 1);
      WithFileAdds(d, name, []);
      history := history + [disk];
      var kept := if fault.Torn? && fault.written < |bytes| then bytes[..fault.written] else bytes;
      disk := disk.(contents := disk.contents[inode := kept]);
      assert disk == WithFile(d, name, kept);
      WithFileAdds(d, name, kept);
      history := history + [disk];
      r := if fault.NoFault? then Ok else Failed;
    }

    /** `link(Log, to)`, never overwriting. */
    method LinkLog(to: Name, fails: bool) returns (r: Outcome)
      requires disk.Valid()
      modifies this
      ensures disk.Valid()
      ensures r == if to in old(disk).names then Exists else if fails || Log !in old(disk).names then Failed else Ok
      ensures r.Ok? ==> disk == old(disk).(names := old(disk).names[to := old(disk).names[Log]]) && history == old(history) + [disk]
      ensures !r.Ok? ==> disk == old(disk) && history == old(history)
    {
      if to in disk.names { return Exists; }
      if fails || Log !in disk.names { return Failed; }
      disk := disk.(names := disk.names[to := disk.names[Log]]);
      history := history + [disk];
      r := Ok;
    }

    /** `rename(Tmp, Log)`: one atomic replacement. */
    method RenameTmpToLog(fails: bool) returns (ok: bool)
      requires disk.Valid()
      modifies this
      ensures disk.Valid() && ok == (!fails && Tmp in old(disk).names)
      ensures ok ==> disk == old(disk).(names := (old(disk).names - {Tmp})[Log := old(disk).names[Tmp]])
      ensures ok ==> history == old(history) + [disk]
      ensures !ok ==> disk == old(disk) && history == old(history)
    {
      if fails || Tmp !in disk.names { return false; }
      disk := disk.(names := (disk.names - {Tmp})[Log := disk.names[Tmp]]);
      history := history + [disk];
      ok := true;
    }

    method Unlink(name: Name, fails: bool) returns (ok: bool)
      requires disk.Valid()
      modifies this
      ensures disk.Valid() && ok == (!fails && name in old(disk).names)
      ensures ok ==> disk == old(disk).(names := old(disk).names - {name}) && history == old(history) + [disk]
      ensures !ok ==> disk == old(disk) && history == old(history)
    {
      if fails || name !in disk.names { return false; }
      disk := disk.(names := disk.names - {name});
      history := history + [disk];
      ok := true;
    }
  }

  lemma AddsIsSafe(before: Disk, d: Disk, e: Disk)
    requires before.Valid() && Adds(before, d) && Adds(d, e)
    ensures Adds(before, e) && Safe(before, e)
  {
  }

  ghost predicate AllSafe(before: Disk, earlier: seq<Disk>, history: seq<Disk>) {
    earlier <= history && forall i :: |earlier| <= i < |history| ==> Safe(before, history[i])
  }

  /** Removing the temporary or the lock file never touches the log or a backup. */
  lemma RemovalIsSafe(before: Disk, d: Disk, name: Name)
    requires Safe(before, d) && (name.Tmp? || name.Lock?)
    ensures Safe(before, d.(names := d.names - {name}))
  {
    var e := d.(names := d.names - {name});
    if Log in before.names && !e.Holds(Log, Original(before)) {
      var s, n :| d.Holds(Backup(s, n), Original(before));
      assert e.Holds(Backup(s, n), Original(before));
    }
  }

  method Create(dir: Directory, ghost before: Disk, name: Name, bytes: seq<Byte>, fault: Fault) returns (r: Outcome)
    requires before.Valid() && Adds(before, dir.disk)
    modifies dir
    ensures r == if name in old(dir.disk).names then Exists else if fault.NoFault? then Ok else Failed
    ensures Adds(before, dir.disk) && dir.disk.names.Keys <= old(dir.disk).names.Keys + {name}
    ensures r.Ok? ==> dir.disk.Holds(name, bytes) && dir.disk.names == old(dir.disk).names[name := dir.disk.names[name]]
    ensures r.Exists? ==> dir.disk == old(dir.disk)
    ensures r.Failed? ==> (name in dir.disk.names <==> fault.Torn?)
    ensures old(dir.disk).names.Keys <= dir.disk.names.Keys
    ensures AllSafe(before, old(dir.history), dir.history)
  {
    ghost var d := dir.disk;
    r := dir.Create(name, bytes, fault);
    AddsIsSafe(before, d, dir.disk);
    forall i | |old(dir.history)| <= i < |dir.history| ensures Safe(before, dir.history[i]) { AddsIsSafe(before, d, dir.history[i]); }
  }

  /** The log is there exactly if it was, with its original bytes. */
  ghost predicate LogUntouched(before: Disk, d: Disk) {
    && before.Valid() && d.Valid() && (Log in before.names <==> Log in d.names)
    && (Log in before.names ==> d.Holds(Log, Original(before)))
  }

  /** Removes our own lock file, unless reading or removing it fails. */
  method Release(dir: Directory, ghost before: Disk, fails: bool)
    requires Safe(before, dir.disk) && Lock in dir.disk.names
    modifies dir
    ensures Safe(before, dir.disk) && AllSafe(before, old(dir.history), dir.history)
    ensures dir.disk == if fails then old(dir.disk) else old(dir.disk).(names := old(dir.disk).names - {Lock})
  {
    RemovalIsSafe(before, dir.disk, Lock);
    var _ := dir.Unlink(Lock, fails);
  }

  /** All hundred names of this second are taken. */
  predicate NamesUsedUp(names: set<Name>, stamp: string) {
    forall n :: 0 <= n <= 99 ==> Backup(stamp, n) in names
  }

  /** A backup name not used before, tried at most a hundred times; `Exists` is never an overwrite. */
  method LinkBackup(dir: Directory, ghost before: Disk, stamp: string, fails: bool) returns (n: nat, ok: bool)
    requires before.Valid() && Adds(before, dir.disk) && Log in before.names
    modifies dir
    ensures ok <==> !fails && !NamesUsedUp(old(dir.disk).names.Keys, stamp)
    ensures Adds(before, dir.disk) && AllSafe(before, old(dir.history), dir.history)
    ensures ok ==> Backup(stamp, n) !in before.names && dir.disk.Holds(Backup(stamp, n), Original(before))
    ensures ok ==> dir.disk == old(dir.disk).(names := old(dir.disk).names[Backup(stamp, n) := old(dir.disk).names[Log]])
    ensures !ok ==> dir.disk == old(dir.disk)
  {
    AddsIsSafe(before, dir.disk, dir.disk);
    n := 0;
    while true
      invariant 0 <= n <= 99 && dir.disk == old(dir.disk) && dir.history == old(dir.history)
      invariant forall m :: 0 <= m < n ==> Backup(stamp, m) in dir.disk.names
      decreases 99 - n
    {
      var r := dir.LinkLog(Backup(stamp, n), fails);
      if r.Ok? {
        AddsIsSafe(before, old(dir.disk), dir.disk);
        return n, true;
      }
      if r.Failed? || n >= 99 { return n, false; }
      n := n + 1;
    }
  }

  /** The prefix goes to a new temporary file; a failed write is cleaned up. */
  method WritePrefix(dir: Directory, ghost before: Disk, prefix: seq<Byte>, fault: Fault, cleanupFails: bool) returns (ok: bool)
    requires before.Valid() && Adds(before, dir.disk) && Tmp !in before.names && Tmp !in dir.disk.names
    modifies dir
    ensures ok == fault.NoFault?
    ensures Adds(before, dir.disk) && Safe(before, dir.disk) && AllSafe(before, old(dir.history), dir.history)
    ensures dir.disk.names.Keys == old(dir.disk).names.Keys + (if ok || (fault.Torn? && cleanupFails) then {Tmp} else {})
    ensures ok ==> dir.disk.Holds(Tmp, prefix)
  {
    var written := Create(dir, before, Tmp, prefix, fault);
    AddsIsSafe(before, before, dir.disk);
    ok := written.Ok?;
    if !ok {
      RemovalIsSafe(before, dir.disk, Tmp);
      var _ := dir.Unlink(Tmp, cleanupFails);
    }
  }

  /** The log is exactly the kept prefix, or gone when nothing was kept. */
  ghost predicate LogReplaced(before: Disk, d: Disk, r: Scan) {
    && before.Valid() && d.Valid() && Log in before.names && r.keptBytes <= |Original(before)|
    && if r.kept > 0 then d.Holds(Log, Original(before)[..r.keptBytes]) else Log !in d.names
  }

  /** The log is replaced by the temporary file in one rename, or removed when nothing valid remains. */
  method ReplaceLog(dir: Directory, ghost before: Disk, stamp: string, n: nat, ghost r: Scan, kept: nat, fails: bool, cleanupFails: bool) returns (ok: bool)
    requires before.Valid() && Adds(before, dir.disk) && Log in before.names && r.keptBytes <= |Original(before)| && kept == r.kept
    requires dir.disk.Holds(Backup(stamp, n), Original(before)) && (kept > 0 ==> dir.disk.Holds(Tmp, Original(before)[..r.keptBytes]))
    requires kept == 0 ==> Tmp !in dir.disk.names
    modifies dir
    ensures ok == !fails
    ensures Safe(before, dir.disk) && AllSafe(before, old(dir.history), dir.history)
    ensures dir.disk.Holds(Backup(stamp, n), Original(before))
    ensures if ok then LogReplaced(before, dir.disk, r) else LogUntouched(before, dir.disk)
    ensures (Lock in dir.disk.names <==> Lock in old(dir.disk).names) && (Tmp in dir.disk.names <==> kept > 0 && !ok)
  {
    AddsIsSafe(before, before, dir.disk);
    if kept > 0 {
      ok := dir.RenameTmpToLog(fails);
      assert dir.disk.Holds(Backup(stamp, n), Original(before));
    } else {
      ok := dir.Unlink(Log, fails);
      assert dir.disk.Holds(Backup(stamp, n), Original(before));
      RemovalIsSafe(before, dir.disk, Tmp);
      if ok { var _ := dir.Unlink(Tmp, cleanupFails); }
    }
  }

  ghost predicate HasNewBackup(before: Disk, d: Disk, stamp: string) {
    && before.Valid() && d.Valid() && Log in before.names
    && exists n :: Backup(stamp, n) !in before.names && d.Holds(Backup(stamp, n), Original(before))
  }

  // ----- what is reported, and what is then true -----

  /** With the lock taken, the steps are tried in order; the first that fails names the report. */
  function LockedReport(before: Disk, faults: Faults, stamp: string, scan: Option<Scan>): Report {
    if Tmp in before.names then Interrupted
    else if faults.read || Log !in before.names || scan.None? then Unreadable
    else if scan.value.firstBadLine.None? then Nothing
    else RepairReport(before, faults, stamp, scan.value)
  }

  function RepairReport(before: Disk, faults: Faults, stamp: string, r: Scan): Report {
    if r.kept > 0 && !faults.write.NoFault? then NotWritten else ReplacementReport(before, faults, stamp)
  }

  function ReplacementReport(before: Disk, faults: Faults, stamp: string): Report {
    if faults.link || NamesUsedUp(before.names.Keys, stamp) || faults.backupSync then NotBackedUp
    else if faults.replace || faults.replaceSync then NotReplaced
    else Salvaged
  }

  /** The state each report stands for. Only a failed final sync makes `NotReplaced` wrong about the log. */
  ghost predicate Means(before: Disk, d: Disk, faults: Faults, stamp: string, scan: Option<Scan>, report: Report) {
    if report.Salvaged? || report.NotReplaced? then
      && HasNewBackup(before, d, stamp) && scan.Some?
      && if report.NotReplaced? && faults.replace then LogUntouched(before, d) else LogReplaced(before, d, scan.value)
    else LogUntouched(before, d)
  }

  /** When the temporary file is left behind by a call that found none. */
  predicate LeavesTmp(faults: Faults, report: Report, kept: nat) {
    match report
    case NotWritten => faults.write.Torn? && faults.cleanup
    case NotBackedUp => kept > 0
    case NotReplaced => kept > 0 && faults.replace
    case _ => false
  }

  lemma MeaningWithoutLock(before: Disk, d: Disk, faults: Faults, stamp: string, scan: Option<Scan>, report: Report)
    requires Means(before, d, faults, stamp, scan, report)
    ensures Means(before, d.(names := d.names - {Lock}), faults, stamp, scan, report)
  {
    var e := d.(names := d.names - {Lock});
    if HasNewBackup(before, d, stamp) {
      var n :| Backup(stamp, n) !in before.names && d.Holds(Backup(stamp, n), Original(before));
      assert e.Holds(Backup(stamp, n), Original(before));
    }
  }

  /** Backup and replacement, with the prefix in the temporary file if there is one to keep. */
  method BackUpAndReplace(dir: Directory, ghost before: Disk, r: Scan, stamp: string, faults: Faults) returns (report: Report)
    requires before.Valid() && Adds(before, dir.disk) && Log in before.names && Tmp !in before.names && r.keptBytes <= |Original(before)|
    requires dir.disk.names.Keys <= before.names.Keys + {Lock, Tmp}
    requires if r.kept > 0 then dir.disk.Holds(Tmp, Original(before)[..r.keptBytes]) else Tmp !in dir.disk.names
    modifies dir
    ensures Safe(before, dir.disk) && AllSafe(before, old(dir.history), dir.history)
    ensures report == ReplacementReport(before, faults, stamp) && Means(before, dir.disk, faults, stamp, Some(r), report)
    ensures (Lock in dir.disk.names <==> Lock in old(dir.disk).names) && (Tmp in dir.disk.names <==> LeavesTmp(faults, report, r.kept))
  {
    assert NamesUsedUp(dir.disk.names.Keys, stamp) <==> NamesUsedUp(before.names.Keys, stamp);
    var n, backed := LinkBackup(dir, before, stamp, faults.link);
    AddsIsSafe(before, before, dir.disk);
    if !backed || faults.backupSync { return NotBackedUp; }
    var replaced := ReplaceLog(dir, before, stamp, n, r, r.kept, faults.replace, faults.cleanup);
    assert dir.disk.Holds(Backup(stamp, n), Original(before));
    report := if replaced && !faults.replaceSync then Salvaged else NotReplaced;
  }

  /** Prefix, backup, replacement. */
  method Repair(dir: Directory, ghost before: Disk, raw: seq<Byte>, r: Scan, stamp: string, faults: Faults) returns (report: Report)
    requires before.Valid() && Adds(before, dir.disk) && Log in before.names && raw == Original(before) && Tmp !in before.names
    requires dir.disk.names.Keys <= before.names.Keys + {Lock} && r.keptBytes <= |raw|
    modifies dir
    ensures Safe(before, dir.disk) && AllSafe(before, old(dir.history), dir.history)
    ensures report == RepairReport(before, faults, stamp, r) && Means(before, dir.disk, faults, stamp, Some(r), report)
    ensures (Lock in dir.disk.names <==> Lock in old(dir.disk).names) && (Tmp in dir.disk.names <==> LeavesTmp(faults, report, r.kept))
  {
    if r.kept > 0 {
      var written := WritePrefix(dir, before, raw[..r.keptBytes], faults.write, faults.cleanup);
      if !written { return NotWritten; }
    }
    report := BackUpAndReplace(dir, before, r, stamp, faults);
  }

  /** A kept prefix before a bad line is shorter than the log. */
  lemma PrefixIsShorter(decode: LineCodec, raw: seq<Byte>, r: Scan)
    requires IsScan(decode, raw, r) && r.firstBadLine.Some?
    ensures r.keptBytes < |raw|
  {
    assert NEWLINE in raw[r.keptBytes..];
  }

  /** Everything between taking the lock and releasing it. */
  method RepairLocked(dir: Directory, ghost before: Disk, decode: LineCodec, stamp: string, faults: Faults) returns (report: Report, scan: Option<Scan>)
    requires before.Valid() && Adds(before, dir.disk) && Lock in dir.disk.names && dir.disk.names == before.names[Lock := dir.disk.names[Lock]]
    modifies dir
    ensures Safe(before, dir.disk) && AllSafe(before, old(dir.history), dir.history)
    ensures scan.Some? <==> Tmp !in before.names && !faults.read && Log in before.names
    ensures scan.Some? ==> IsScan(decode, Original(before), scan.value)
    ensures report == LockedReport(before, faults, stamp, scan) && Means(before, dir.disk, faults, stamp, scan, report)
    ensures Lock in dir.disk.names
    ensures Tmp in dir.disk.names <==> Tmp in before.names || (scan.Some? && LeavesTmp(faults, report, scan.value.kept))
  {
    AddsIsSafe(before, before, dir.disk);
    scan := None;
    if Tmp in dir.disk.names { return Interrupted, None; }
    if faults.read || Log !in dir.disk.names { return Unreadable, None; }
    var raw := dir.disk.contents[dir.disk.names[Log]];
    var r := ScanLog(decode, raw);
    scan := Some(r);
    if r.firstBadLine.None? { return Nothing, scan; }
    report := Repair(dir, before, raw, r, stamp, faults);
  }

  /** The scan found a bad line: there is something to repair. */
  predicate IsCorrupt(scan: Option<Scan>) {
    scan.Some? && scan.value.firstBadLine.Some?
  }

  /** When each report is given, once the lock is taken. */
  lemma LockedReportIs(before: Disk, faults: Faults, stamp: string, scan: Option<Scan>)
    requires scan.Some? <==> Tmp !in before.names && !faults.read && Log in before.names
    ensures var report := LockedReport(before, faults, stamp, scan);
      var written := scan.Some? && scan.value.kept > 0 ==> faults.write.NoFault?;
      var backedUp := !faults.link && !faults.backupSync && exists n :: 0 <= n <= 99 && Backup(stamp, n) !in before.names;
      && !report.Held? && !report.NotLocked?
      && (report.Interrupted? <==> Tmp in before.names)
      && (report.Unreadable? <==> Tmp !in before.names && scan.None?)
      && (report.Nothing? <==> scan.Some? && scan.value.firstBadLine.None?)
      && (report.NotWritten? <==> IsCorrupt(scan) && !written)
      && (report.NotBackedUp? <==> IsCorrupt(scan) && written && !backedUp)
      && (report.NotReplaced? <==> IsCorrupt(scan) && written && backedUp && (faults.replace || faults.replaceSync))
      && (report.Salvaged? <==> IsCorrupt(scan) && written && backedUp && !faults.replace && !faults.replaceSync)
  {
  }

  /**
   * The repair. After every single change of the disk - whether the call then succeeds, fails or is killed - the
   * original bytes are under some name and no backup that existed has changed. Each report is given exactly when it
   * should be, and stands for what it says, an untouched log or a new backup beside exactly the longest valid prefix,
   * with one exception: `NotReplaced` is right about the log exactly when the replacement itself failed. Our lock and
   * our temporary file are left exactly where a failure keeps them; another's lock is never touched.
   */
  method Salvage(dir: Directory, decode: LineCodec, stamp: string, faults: Faults) returns (report: Report, scan: Option<Scan>)
    requires dir.disk.Valid()
    modifies dir
    ensures AllSafe(old(dir.disk), old(dir.history), dir.history) && Safe(old(dir.disk), dir.disk)
    ensures scan.Some? <==> Lock !in old(dir.disk).names && faults.lock.NoFault? && Tmp !in old(dir.disk).names && !faults.read && Log in old(dir.disk).names
    ensures scan.Some? ==> IsScan(decode, Original(old(dir.disk)), scan.value)
    ensures report.Held? <==> Lock in old(dir.disk).names
    ensures report.NotLocked? <==> Lock !in old(dir.disk).names && !faults.lock.NoFault?
    ensures report.Interrupted? <==> Lock !in old(dir.disk).names && faults.lock.NoFault? && Tmp in old(dir.disk).names
    ensures report.Unreadable? <==>
              && Lock !in old(dir.disk).names && faults.lock.NoFault? && Tmp !in old(dir.disk).names
              && (faults.read || Log !in old(dir.disk).names)
    ensures report.Nothing? <==> scan.Some? && scan.value.firstBadLine.None?
    ensures report.NotWritten? <==> IsCorrupt(scan) && scan.value.kept > 0 && !faults.write.NoFault?
    ensures report.NotBackedUp? <==>
              && IsCorrupt(scan) && (scan.value.kept > 0 ==> faults.write.NoFault?)
              && (faults.link || faults.backupSync || forall n :: 0 <= n <= 99 ==> Backup(stamp, n) in old(dir.disk).names)
    ensures report.NotReplaced? <==>
              && IsCorrupt(scan) && (scan.value.kept > 0 ==> faults.write.NoFault?) && !faults.link && !faults.backupSync
              && (exists n :: 0 <= n <= 99 && Backup(stamp, n) !in old(dir.disk).names) && (faults.replace || faults.replaceSync)
    ensures report.Salvaged? <==>
              && IsCorrupt(scan) && (scan.value.kept > 0 ==> faults.write.NoFault?) && !faults.link && !faults.backupSync
              && (exists n :: 0 <= n <= 99 && Backup(stamp, n) !in old(dir.disk).names) && !faults.replace && !faults.replaceSync
    ensures !report.NotReplaced? && !report.Salvaged? ==> LogUntouched(old(dir.disk), dir.disk)
    ensures report.NotReplaced? || report.Salvaged? ==> HasNewBackup(old(dir.disk), dir.disk, stamp)
    ensures report.Salvaged? ==> LogReplaced(old(dir.disk), dir.disk, scan.value)
    ensures report.NotReplaced? ==>
              && (dir.disk.Holds(Log, Original(old(dir.disk))) <==> faults.replace)
              && (!faults.replace ==> LogReplaced(old(dir.disk), dir.disk, scan.value))
    ensures report.Held? ==> dir.disk == old(dir.disk)
    ensures Lock in dir.disk.names <==>
              if report.Held? then true else if report.NotLocked? then faults.lock.Torn? else faults.release
    ensures Tmp in dir.disk.names <==> Tmp in old(dir.disk).names || (scan.Some? && LeavesTmp(faults, report, scan.value.kept))
  {
    ghost var before := dir.disk;
    var locked := Create(dir, before, Lock, [], faults.lock);
    AddsIsSafe(before, before, dir.disk);
    if !locked.Ok? { return if locked.Exists? then Held else NotLocked, None; }
    report, scan := RepairLocked(dir, before, decode, stamp, faults);
    MeaningWithoutLock(before, dir.disk, faults, stamp, scan, report);
    LockedReportIs(before, faults, stamp, scan);
    Release(dir, before, faults.release);
    if report.NotReplaced? { PrefixIsShorter(decode, Original(before), scan.value); }
  }

  /**
   * Any corrupt log whose repair goes well up to the last directory sync: the report says that the log still has its
   * original bytes, and the log is already the valid prefix.
   */
  method SyncFailureIsMisreported(dir: Directory, decode: LineCodec, stamp: string) returns (report: Report, scan: Option<Scan>)
    requires dir.disk.Valid() && Log in dir.disk.names && Lock !in dir.disk.names && Tmp !in dir.disk.names && !NamesUsedUp(dir.disk.names.Keys, stamp)
    modifies dir
    ensures scan.Some? && IsScan(decode, Original(old(dir.disk)), scan.value)
    ensures scan.value.firstBadLine.Some? ==>
              && report == NotReplaced && LogReplaced(old(dir.disk), dir.disk, scan.value)
              && !dir.disk.Holds(Log, Original(old(dir.disk)))
  {
    report, scan := Salvage(dir, decode, stamp, NO_FAULTS.(replaceSync := true));
  }
}
