/** The two source files of an upgrade, the closure merge, the journal, and the undo that works without a saved copy. */
module UpgradeDocuments {
  import opened JsObject

  /** A JSON value inside a manifest; `Other` stands for numbers, booleans, arrays and so on. */
  datatype Field = Text(text: string) | Table(table: Obj<Dependency, Field>) | Other(id: int)

  /** Dependency names, the property names of a lock entry, and the keys of the lock file's `packages`. */
  datatype Dependency = OpenSpec | Named(name: string)
  datatype Property = Version | Integrity | Resolved | Dependencies | Property(name: string)
  datatype LockKey =
    | Root                    // node_modules/@fission-ai/openspec
    | Workspace               // packages/dsh-openspec
    | Module(path: string)    // any other key that starts with node_modules/
    | Elsewhere(path: string)

  type Entry = Obj<Property, Field>
  type Packages = Obj<LockKey, Entry>

  datatype PackageDoc = PackageDoc(dependencies: Obj<Dependency, Field>, rest: int)
  datatype LockDoc = LockDoc(packages: Packages, rest: int)

  /** File bytes: exactly what the two-space printer emits for `doc`, the same document laid out differently, or no JSON. */
  datatype File<D> = Printed(doc: D) | Styled(doc: D, style: int) | Broken(style: int)

  /** SHA-256 taken as injective. Nothing below looks inside a hash except to state what it was taken of. */
  datatype Hash<T> = Sha256(preimage: T)

  datatype Sources = Sources(package: File<PackageDoc>, lock: File<LockDoc>)
  datatype Hashes = Hashes(package: Hash<File<PackageDoc>>, lock: Hash<File<LockDoc>>)
  datatype Staged = Staged(target: string, integrity: string, packages: Packages)
  datatype Journal = Journal(target: string, before: Hashes, after: Hashes, previous: string, added: seq<(LockKey, Hash<Entry>)>)
  datatype Plan = Plan(journal: Journal, next: Sources)

  function HashesOf(s: Sources): Hashes {
    Hashes(Sha256(s.package), Sha256(s.lock))
  }

  predicate IsNumber(s: string) {
    s == "0" || (s != "" && '1' <= s[0] <= '9' && forall i :: 0 <= i < |s| ==> '0' <= s[i] <= '9')
  }

  /** `validStableTarget`: three dot-separated numbers without leading zeros. */
  predicate IsStable(v: string) {
    exists i, j | 0 <= i < j < |v| ::
      v[i] == '.' && v[j] == '.' && IsNumber(v[..i]) && IsNumber(v[i + 1..j]) && IsNumber(v[j + 1..])
  }

  predicate Mergeable(key: LockKey) {
    key.Module?
  }

  /** `a === b` of two optional fields: objects are never identical. */
  predicate Identical(a: Option<Field>, b: Option<Field>) {
    a == b && !(a.Some? && a.value.Table?)
  }

  predicate SameRelease(a: Entry, b: Entry) {
    Identical(Get(a, Version), Get(b, Version)) && Identical(Get(a, Integrity), Get(b, Integrity))
  }

  function DependenciesOf(e: Entry): Obj<Dependency, Field> {
    var d: Option<Field> := Get(e, Dependencies);
    if d.Some? && d.value.Table? then d.value.table else []
  }

  function SetDependency(e: Entry, v: string): Entry {
    Put(e, Dependencies, Table(Put(DependenciesOf(e), OpenSpec, Text(v))))
  }

  function SetPin(p: PackageDoc, v: string): PackageDoc {
    p.(dependencies := Put(p.dependencies, OpenSpec, Text(v)))
  }

  function SetWorkspace(o: Packages, v: string): Packages
    requires Get(o, Workspace).Some?
  {
    Put(o, Workspace, SetDependency(Get(o, Workspace).value, v))
  }

  // ----- merging a staged closure -----

  /** What the closure loop computes: new keys are appended, equal releases kept, anything else is a conflict. */
  function Merged(packages: Packages, entries: Packages): Option<Packages>
    decreases |entries|
  {
    if entries == [] then Some(packages)
    else
      var (key, entry) := entries[0];
      if !Mergeable(key) then Merged(packages, entries[1..])
      else match Get(packages, key)
        case None => Merged(Put(packages, key, entry), entries[1..])
        case Some(existing) => if SameRelease(existing, entry) then Merged(packages, entries[1..]) else None
  }

  method MergeClosure(start: Packages, entries: Packages) returns (r: Option<Packages>)
    ensures r == Merged(start, entries)
  {
    var packages := start;
    for i := 0 to |entries|
      invariant Merged(start, entries) == Merged(packages, entries[i..])
    {
      var (key, entry) := entries[i];
      assert entries[i..][1..] == entries[i + 1..];
      if !Mergeable(key) { continue; }
      var existing := Get(packages, key);
      if existing.None? {
        packages := Put(packages, key, entry);
      } else if !SameRelease(existing.value, entry) {
        return None;
      }
    }
    return Some(packages);
  }

  ghost predicate IsExtension(p: Packages, ext: Packages) {
    forall i :: 0 <= i < |ext| ==>
      Mergeable(ext[i].0) && Get(p, ext[i].0).None? && forall j :: 0 <= j < i ==> ext[j].0 != ext[i].0
  }

  /** Merging never alters an existing entry: it only appends fresh, distinct dependency keys. */
  lemma {:induction false} MergeAppends(p: Packages, ext: Packages, entries: Packages)
    requires IsExtension(p, ext)
    ensures var r := Merged(p + ext, entries);
      r.Some? ==> p + ext <= r.value && IsExtension(p, r.value[|p|..])
    decreases |entries|
  {
    if entries == [] {
      assert (p + ext)[|p|..] == ext;
    } else {
      var (key, entry) := entries[0];
      if Mergeable(key) && Get(p + ext, key).None? {
        PutNew(p + ext, key, entry);
        GetHas(p + ext, key); GetHas(p, key);
        forall i | 0 <= i < |ext| ensures ext[i].0 != key {
          assert (p + ext)[|p| + i] == ext[i];
        }
        forall i | 0 <= i < |p| ensures p[i].0 != key {
          assert (p + ext)[i] == p[i];
        }
        assert p + ext + [(key, entry)] == p + (ext + [(key, entry)]);
        MergeAppends(p, ext + [(key, entry)], entries[1..]);
      } else {
        MergeAppends(p, ext, entries[1..]);
      }
    }
  }

  /** Every dependency of the staged closure is already locked at the same release. */
  ghost predicate Contained(entries: Packages, p: Packages) {
    forall i :: 0 <= i < |entries| && Mergeable(entries[i].0) ==>
      Get(p, entries[i].0).Some? && SameRelease(Get(p, entries[i].0).value, entries[i].1)
  }

  lemma {:induction false} MergeContained(p: Packages, entries: Packages)
    requires Contained(entries, p)
    ensures Merged(p, entries) == Some(p)
    decreases |entries|
  {
    if entries != [] {
      assert entries[0] in entries;
      assert Contained(entries[1..], p) by {
        forall i | 0 <= i < |entries[1..]| && Mergeable(entries[1..][i].0)
          ensures Get(p, entries[1..][i].0).Some? && SameRelease(Get(p, entries[1..][i].0).value, entries[1..][i].1)
        {
          assert entries[1..][i] == entries[i + 1];
        }
      }
      MergeContained(p, entries[1..]);
    }
  }

  // ----- the added closure and its removal -----

  function Added(q: Packages, base: Packages): seq<(LockKey, Hash<Entry>)> {
    if q == [] then []
    else (if Get(base, q[0].0).Some? then [] else [(q[0].0, Sha256(q[0].1))]) + Added(q[1..], base)
  }

  function Undone(packages: Packages, added: seq<(LockKey, Hash<Entry>)>): Option<Packages>
    decreases |added|
  {
    if added == [] then Some(packages)
    else
      var (key, hash) := added[0];
      var e := Get(packages, key);
      if Mergeable(key) && e.Some? && Sha256(e.value) == hash then Undone(Remove(packages, key), added[1..]) else None
  }

  method UndoClosure(start: Packages, added: seq<(LockKey, Hash<Entry>)>) returns (r: Option<Packages>)
    ensures r == Undone(start, added)
  {
    var packages := start;
    for i := 0 to |added|
      invariant Undone(start, added) == Undone(packages, added[i..])
    {
      var (key, hash) := added[i];
      assert added[i..][1..] == added[i + 1..];
      var e := Get(packages, key);
      if !Mergeable(key) || e.None? || Sha256(e.value) != hash { return None; }
      packages := Remove(packages, key);
    }
    return Some(packages);
  }

  lemma {:induction false} AddedIsExtension(p: Packages, ext: Packages, base: Packages)
    requires forall i :: 0 <= i < |p| ==> Get(base, p[i].0).Some?
    requires forall i :: 0 <= i < |ext| ==> Get(base, ext[i].0).None?
    ensures Added(p + ext, base) == Added(ext, base)
    ensures |Added(ext, base)| == |ext|
    ensures forall i :: 0 <= i < |ext| ==> Added(ext, base)[i] == (ext[i].0, Sha256(ext[i].1))
    decreases |p|, |ext|
  {
    if p != [] {
      assert (p + ext)[1..] == p[1..] + ext;
      AddedIsExtension(p[1..], ext, base);
    } else {
      assert p + ext == ext;
      if ext != [] {
        assert [] + ext[1..] == ext[1..];
        AddedIsExtension([], ext[1..], base);
      }
    }
  }

  lemma {:induction false} RemoveAbsent<K, V>(o: Obj<K, V>, k: K)
    requires forall i :: 0 <= i < |o| ==> o[i].0 != k
    ensures Remove(o, k) == o
  {
    if o != [] { RemoveAbsent(o[1..], k); }
  }

  lemma {:induction false} UndoExtension(p: Packages, ext: Packages, base: Packages)
    requires IsExtension(p, ext)
    requires forall i :: 0 <= i < |ext| ==> Get(base, ext[i].0).None?
    ensures Undone(p + ext, Added(ext, base)) == Some(p)
    decreases |ext|
  {
    if ext == [] {
      assert p + ext == p;
    } else {
      var (k, e) := ext[0];
      RemoveOverAppend(p, ext, k);
      RemoveAbsent(ext[1..], k);
      assert IsExtension(p, ext[1..]);
      UndoExtension(p, ext[1..], base);
    }
  }

  // ----- staging, planning and restoring -----

  /** The root entry of a staged lock file: the current one overlaid with the installed one, from the given tarball. */
  function RestagedRoot(current: Entry, installed: Entry, tarball: string): Entry {
    Put(Spread(current, installed), Resolved, Text(tarball))
  }

  /** `stageTarget`: the staged lock file built from the checkout's own lock and an isolated install. */
  function StageTarget(lock: Packages, target: string, integrity: string, tarball: string, install: Packages): Option<Staged> {
    var entry := Get(install, Root);
    if entry.None? || Get(entry.value, Integrity) != Some(Text(integrity)) || Get(entry.value, Version) != Some(Text(target)) then None
    else if Get(lock, Workspace).None? || Get(lock, Root).None? then None
    else
      var root := RestagedRoot(Get(lock, Root).value, entry.value, tarball);
      var merged := Merged(Put(SetWorkspace(lock, target), Root, root), install);
      if merged.None? then None else Some(Staged(target, integrity, merged.value))
  }

  /** The stable pin on which package.json, the workspace entry and the root entry agree. */
  function PinOf(s: Sources): Option<string> {
    if s.package.Broken? || s.lock.Broken? then None
    else
      var o := s.lock.doc.packages;
      var pin := Get(s.package.doc.dependencies, OpenSpec);
      if pin.Some? && pin.value.Text? && IsStable(pin.value.text)
        && Get(o, Workspace).Some? && Get(DependenciesOf(Get(o, Workspace).value), OpenSpec) == pin
        && Get(o, Root).Some? && Get(Get(o, Root).value, Version) == pin
      then Some(pin.value.text) else None
  }

  /** The version and integrity gate both transactions put on a staged target, beside the external verification. */
  predicate StagedFor(staged: Staged, target: string) {
    && staged.target == target && staged.integrity != ""
    && Get(staged.packages, Root).Some?
    && Get(Get(staged.packages, Root).value, Integrity) == Some(Text(staged.integrity))
    && Get(Get(staged.packages, Root).value, Version) == Some(Text(target))
  }

  function UpgradeBase(o: Packages, target: string, stagedRoot: Entry): Packages
    requires Get(o, Workspace).Some? && Get(o, Root).Some?
  {
    Put(SetWorkspace(o, target), Root, Spread(Get(o, Root).value, stagedRoot))
  }

  /** The `prepared` journal and the two documents to be written; None is a refusal that writes nothing. */
  function PlanUpgrade(s: Sources, target: string, staged: Staged): Option<Plan> {
    var pin := PinOf(s);
    if pin.None? || !StagedFor(staged, target) || Get(staged.packages, Workspace).None? then None
    else
      var o := s.lock.doc.packages;
      var merged := Merged(UpgradeBase(o, target, Get(staged.packages, Root).value), staged.packages);
      if merged.None? then None
      else
        var next := Sources(Printed(SetPin(s.package.doc, target)), Printed(s.lock.doc.(packages := merged.value)));
        Some(Plan(Journal(target, HashesOf(s), HashesOf(next), pin.value, Added(merged.value, o)), next))
  }

  predicate Matches(s: Sources, j: Journal) {
    && (HashesOf(s).package == j.before.package || HashesOf(s).package == j.after.package)
    && (HashesOf(s).lock == j.before.lock || HashesOf(s).lock == j.after.lock)
  }

  /** The lock entries a recovery computes: previous pin and root entry, re-staged closure, minus the added closure. */
  function RestoredPackages(q: Packages, previous: string, staged: Packages, added: seq<(LockKey, Hash<Entry>)>): Option<Packages> {
    if Get(q, Workspace).None? || Get(staged, Workspace).None? || Get(staged, Root).None? then None
    else
      var merged := Merged(Put(SetWorkspace(q, previous), Root, Get(staged, Root).value), staged);
      if merged.None? then None else Undone(merged.value, added)
  }

  /** The two files a recovery puts back; a file that still has its before-hash is left alone. */
  function PlanRecovery(s: Sources, j: Journal, staged: Staged): Option<Sources> {
    if !IsStable(j.previous) || !Matches(s, j) || !StagedFor(staged, j.previous) || s.package.Broken? || s.lock.Broken? then None
    else
      var packageChanged := HashesOf(s).package != j.before.package;
      var lockChanged := HashesOf(s).lock != j.before.lock;
      var restored := RestoredPackages(s.lock.doc.packages, j.previous, staged.packages, if lockChanged then j.added else []);
      if restored.None? then None
      else Some(Sources(
        if packageChanged then Printed(SetPin(s.package.doc, j.previous)) else s.package,
        if lockChanged then Printed(s.lock.doc.(packages := restored.value)) else s.lock))
  }

  // ----- recovery is the inverse of an upgrade -----

  /** The journal was prepared by an upgrade from these two files. */
  ghost predicate PreparedFrom(j: Journal, s: Sources) {
    exists staged :: var p := PlanUpgrade(s, j.target, staged); p.Some? && p.value.journal == j
  }

  /** The previous closure, staged again against the lock file `q`, brings no release the lock file does not have. */
  ghost predicate Restaged(staged: Staged, j: Journal, q: Packages) {
    StagedFor(staged, j.previous) && Get(staged.packages, Workspace).Some? && Contained(staged.packages, q)
  }

  lemma SetDependencyBack(e: Entry, v: string, w: string)
    requires Get(e, Dependencies).Some? && Get(e, Dependencies).value.Table?
    requires Get(DependenciesOf(e), OpenSpec) == Some(Text(w))
    ensures SetDependency(SetDependency(e, v), w) == e
  {
    var d := DependenciesOf(e);
    GetPut(e, Dependencies, Table(Put(d, OpenSpec, Text(v))), Dependencies);
    PutBack(d, OpenSpec, Text(v), Text(w));
    PutBack(e, Dependencies, Table(Put(d, OpenSpec, Text(v))), Table(d));
  }

  /** Writing the previous pin and a root entry over an upgraded base changes nothing but the root entry. */
  lemma BaseBack(o: Packages, ext: Packages, target: string, stagedRoot: Entry, previous: string, root: Entry)
    requires Get(o, Workspace).Some? && Get(o, Root).Some?
    requires Get(DependenciesOf(Get(o, Workspace).value), OpenSpec) == Some(Text(previous))
    ensures var b := UpgradeBase(o, target, stagedRoot);
      && Get(b, Workspace).Some? && Get(b + ext, Workspace) == Get(b, Workspace)
      && Put(SetWorkspace(b + ext, previous), Root, root) == Put(o, Root, root) + ext
  {
    var e := Get(o, Workspace).value;
    var e1, r1 := SetDependency(e, target), Spread(Get(o, Root).value, stagedRoot);
    var w := Put(o, Workspace, e1);
    var b := Put(w, Root, r1);
    SetDependencyBack(e, target, previous);
    GetPut(o, Workspace, e1, Workspace); GetPut(o, Workspace, e1, Root);
    GetPut(w, Root, r1, Workspace);
    PutCommutes(w, Root, r1, Workspace, e);
    PutBack(o, Workspace, e1, e);
    PutBack(o, Root, r1, root);
    GetPut(o, Root, r1, Root);
    PutOverAppend(b, ext, Workspace, e);
    PutOverAppend(Put(o, Root, r1), ext, Root, root);
  }

  /** The upgrade rewrote the base entries, appended `ext`, and its journal records exactly that. */
  ghost predicate Shape(j: Journal, s: Sources, stagedRoot: Entry, ext: Packages) {
    && PinOf(s) == Some(j.previous) && j.before == HashesOf(s)
    && var o := s.lock.doc.packages;
    && j.after.package == Sha256(Printed(SetPin(s.package.doc, j.target)))
    && j.after.lock == Sha256(Printed(s.lock.doc.(packages := UpgradeBase(o, j.target, stagedRoot) + ext)))
    && IsExtension(o, ext) && j.added == Added(ext, o)
  }

  lemma BaseKeys(o: Packages, target: string, stagedRoot: Entry)
    requires Get(o, Workspace).Some? && Get(o, Root).Some?
    ensures var b := UpgradeBase(o, target, stagedRoot);
      && (forall k :: k != Root && k != Workspace ==> Get(b, k) == Get(o, k))
      && forall i :: 0 <= i < |b| ==> Get(o, b[i].0).Some?
  {
    var e1 := SetDependency(Get(o, Workspace).value, target);
    var w := Put(o, Workspace, e1);
    var r1 := Spread(Get(o, Root).value, stagedRoot);
    var b := UpgradeBase(o, target, stagedRoot);
    forall k ensures k != Root && k != Workspace ==> Get(b, k) == Get(o, k) {
      GetPut(o, Workspace, e1, k); GetPut(w, Root, r1, k);
    }
    GetPut(o, Workspace, e1, Root);
    PutKeepsKeys(o, Workspace, e1); PutKeepsKeys(w, Root, r1);
    forall i | 0 <= i < |b| ensures Get(o, b[i].0).Some? {
      assert o[i].0 == b[i].0;
      GetHas(o, b[i].0);
    }
  }

  /** A merge over the upgraded base appends to it, and what it appends is what the journal records. */
  lemma MergeShape(o: Packages, target: string, stagedRoot: Entry, entries: Packages) returns (ext: Packages)
    requires Get(o, Workspace).Some? && Get(o, Root).Some? && Merged(UpgradeBase(o, target, stagedRoot), entries).Some?
    ensures var merged := Merged(UpgradeBase(o, target, stagedRoot), entries).value;
      merged == UpgradeBase(o, target, stagedRoot) + ext && IsExtension(o, ext) && Added(merged, o) == Added(ext, o)
  {
    var b := UpgradeBase(o, target, stagedRoot);
    assert b + [] == b;
    MergeAppends(b, [], entries);
    ext := Merged(b, entries).value[|b|..];
    assert Merged(b, entries).value == b + ext;
    BaseKeys(o, target, stagedRoot);
    forall i | 0 <= i < |ext| ensures Get(o, ext[i].0).None? { assert Get(b, ext[i].0).None?; }
    AddedIsExtension(b, ext, o);
  }

  lemma UpgradeShape(j: Journal, s: Sources) returns (stagedRoot: Entry, ext: Packages)
    requires PreparedFrom(j, s)
    ensures Shape(j, s, stagedRoot, ext)
  {
    var staged :| var p := PlanUpgrade(s, j.target, staged); p.Some? && p.value.journal == j;
    stagedRoot := Get(staged.packages, Root).value;
    ext := MergeShape(s.lock.doc.packages, j.target, stagedRoot, staged.packages);
  }

  lemma BasedContains(q: Packages, previous: string, root: Entry, entries: Packages)
    requires Get(q, Workspace).Some? && Contained(entries, q)
    ensures var based := Put(SetWorkspace(q, previous), Root, root);
      Merged(based, entries) == Some(based)
  {
    var based := Put(SetWorkspace(q, previous), Root, root);
    forall i | 0 <= i < |entries| && Mergeable(entries[i].0) ensures Get(based, entries[i].0) == Get(q, entries[i].0) {
      GetPut(q, Workspace, SetDependency(Get(q, Workspace).value, previous), entries[i].0);
      GetPut(SetWorkspace(q, previous), Root, root, entries[i].0);
    }
    MergeContained(based, entries);
  }

  /** Undoing an upgraded lock file leaves the old entries, with the re-staged root entry. */
  lemma RestoresPackages(o: Packages, ext: Packages, target: string, stagedRoot: Entry, previous: string, staged: Packages)
    requires Get(o, Workspace).Some? && Get(o, Root).Some? && IsExtension(o, ext)
    requires Get(DependenciesOf(Get(o, Workspace).value), OpenSpec) == Some(Text(previous))
    requires Get(staged, Workspace).Some? && Get(staged, Root).Some?
    requires Contained(staged, UpgradeBase(o, target, stagedRoot) + ext)
    ensures RestoredPackages(UpgradeBase(o, target, stagedRoot) + ext, previous, staged, Added(ext, o))
      == Some(Put(o, Root, Get(staged, Root).value))
  {
    var root := Get(staged, Root).value;
    var p := Put(o, Root, root);
    BaseBack(o, ext, target, stagedRoot, previous, root);
    BasedContains(UpgradeBase(o, target, stagedRoot) + ext, previous, root, staged);
    forall i | 0 <= i < |ext| ensures Get(p, ext[i].0).None? { GetPut(o, Root, root, ext[i].0); }
    UndoExtension(p, ext, o);
  }

  lemma ShapeOutcome(s: Sources, j: Journal, stagedRoot: Entry, ext: Packages, now: Sources, staged: Staged)
    requires Shape(j, s, stagedRoot, ext) && Matches(now, j)
    requires now.lock.Broken? || Restaged(staged, j, now.lock.doc.packages)
    ensures !now.package.Broken? && !now.lock.Broken?
    ensures var r := PlanRecovery(now, j, staged);
      && r.Some?
      && r.value.package == (if now.package == s.package then s.package else Printed(s.package.doc))
      && r.value.lock == (if now.lock == s.lock then s.lock
                          else Printed(s.lock.doc.(packages := Put(s.lock.doc.packages, Root, Get(staged.packages, Root).value))))
  {
    PutBack(s.package.doc.dependencies, OpenSpec, Text(j.target), Text(j.previous));
    if now.lock == s.lock {
      BasedContains(s.lock.doc.packages, j.previous, Get(staged.packages, Root).value, staged.packages);
    } else {
      RestoresPackages(s.lock.doc.packages, ext, j.target, stagedRoot, j.previous, staged.packages);
    }
  }

  /** Recovery from either or both written files, whatever the layout of the originals and whatever root entry was re-staged. */
  lemma RecoveryOutcome(s: Sources, j: Journal, now: Sources, staged: Staged)
    requires PreparedFrom(j, s) && Matches(now, j)
    requires now.lock.Broken? || Restaged(staged, j, now.lock.doc.packages)
    ensures !now.package.Broken? && !now.lock.Broken?
    ensures PinOf(s) == Some(j.previous)
    ensures var r := PlanRecovery(now, j, staged);
      && r.Some?
      && r.value.package == (if now.package == s.package then s.package else Printed(s.package.doc))
      && r.value.lock == (if now.lock == s.lock then s.lock
                          else Printed(s.lock.doc.(packages := Put(s.lock.doc.packages, Root, Get(staged.packages, Root).value))))
  {
    var stagedRoot, ext := UpgradeShape(j, s);
    ShapeOutcome(s, j, stagedRoot, ext, now, staged);
  }

  /**
   * From every state an interrupted upgrade can leave, recovery gives back the old bytes exactly when each rewritten
   * file was stored as the printer prints it and the re-staged root entry is the old one.
   */
  lemma RecoveryIsInverse(s: Sources, j: Journal, now: Sources, staged: Staged)
    requires PreparedFrom(j, s) && Matches(now, j)
    requires now.lock.Broken? || Restaged(staged, j, now.lock.doc.packages)
    ensures PlanRecovery(now, j, staged) == Some(s) <==>
      && (now.package != s.package ==> s.package.Printed?)
      && (now.lock != s.lock ==> s.lock.Printed? && Get(staged.packages, Root) == Get(s.lock.doc.packages, Root))
  {
    RecoveryOutcome(s, j, now, staged);
    var o, root := s.lock.doc.packages, Get(staged.packages, Root).value;
    GetPut(o, Root, root, Root);
    PutBack(o, Root, root, Get(o, Root).value);
  }

  /** Beside the root entry, every key of the restored lock file maps as it did before the upgrade. */
  lemma RecoveryKeepsOtherKeys(s: Sources, j: Journal, now: Sources, staged: Staged, key: LockKey)
    requires PreparedFrom(j, s) && Matches(now, j) && !now.lock.Broken? && Restaged(staged, j, now.lock.doc.packages)
    ensures var r := PlanRecovery(now, j, staged);
      && r.Some? && !r.value.lock.Broken?
      && (key != Root ==> Get(r.value.lock.doc.packages, key) == Get(s.lock.doc.packages, key))
      && PinOf(r.value) == Some(j.previous)
  {
    RecoveryOutcome(s, j, now, staged);
    var o, root := s.lock.doc.packages, Get(staged.packages, Root).value;
    GetPut(o, Root, root, key); GetPut(o, Root, root, Root); GetPut(o, Root, root, Workspace);
  }

  // ----- the staging step provides what recovery asks of it -----

  ghost predicate WellFormed(o: Packages) {
    && (forall i, j :: 0 <= i < j < |o| ==> o[i].0 != o[j].0)
    && forall i :: 0 <= i < |o| ==> SameRelease(o[i].1, o[i].1)
  }

  lemma {:induction false} GetAt<K, V>(o: Obj<K, V>, i: nat)
    requires i < |o| && forall j :: 0 <= j < i ==> o[j].0 != o[i].0
    ensures Get(o, o[i].0) == Some(o[i].1)
  {
    if i > 0 { GetAt(o[1..], i - 1); }
  }

  lemma {:induction false} GetSpread<K, V>(a: Obj<K, V>, b: Obj<K, V>, k: K)
    requires forall i, j :: 0 <= i < j < |b| ==> b[i].0 != b[j].0
    ensures Get(Spread(a, b), k) == if Get(b, k).Some? then Get(b, k) else Get(a, k)
    decreases |b|
  {
    if b != [] {
      GetSpread(Put(a, b[0].0, b[0].1), b[1..], k);
      GetPut(a, b[0].0, b[0].1, k);
      GetHas(b[1..], k);
    }
  }

  /** The staged root entry is the restaged one: the merge leaves it alone. */
  lemma StagedRootIs(lock: Packages, target: string, integrity: string, tarball: string, install: Packages)
    ensures var r := StageTarget(lock, target, integrity, tarball, install);
      r.Some? ==> Get(lock, Root).Some? && Get(install, Root).Some?
                  && Get(r.value.packages, Root) == Some(RestagedRoot(Get(lock, Root).value, Get(install, Root).value, tarball))
  {
    var r := StageTarget(lock, target, integrity, tarball, install);
    if r.Some? {
      var root := RestagedRoot(Get(lock, Root).value, Get(install, Root).value, tarball);
      var w := SetWorkspace(lock, target);
      var based := Put(w, Root, root);
      assert based + [] == based;
      MergeAppends(based, [], install);
      GetPut(w, Root, root, Root);
      LeadingGet(based, r.value.packages, Root);
    }
  }

  lemma {:induction false} LeadingGet<K, V>(a: Obj<K, V>, b: Obj<K, V>, k: K)
    requires a <= b && Get(a, k).Some?
    ensures Get(b, k) == Get(a, k)
  {
    if a[0].0 != k {
      assert a[1..] <= b[1..];
      LeadingGet(a[1..], b[1..], k);
    }
  }

  /** An install contained in the checkout's lock file stages to something recovery accepts. */
  lemma StagingIsRestaged(q: Packages, j: Journal, integrity: string, tarball: string, install: Packages)
    requires WellFormed(q) && Get(q, Workspace).Some? && Contained(install, q) && integrity != ""
    requires Get(install, Root).Some? ==> forall i, k :: 0 <= i < k < |Get(install, Root).value| ==>
      Get(install, Root).value[i].0 != Get(install, Root).value[k].0
    ensures var r := StageTarget(q, j.previous, integrity, tarball, install);
      r.Some? ==> Restaged(r.value, j, q)
  {
    var r := StageTarget(q, j.previous, integrity, tarball, install);
    if r.Some? {
      var entry, cur := Get(install, Root).value, Get(q, Root).value;
      var root := RestagedRoot(cur, entry, tarball);
      var w := SetWorkspace(q, j.previous);
      var e1 := SetDependency(Get(q, Workspace).value, j.previous);
      var based := Put(w, Root, root);
      forall k ensures Get(based, k) == if k == Root then Some(root) else if k == Workspace then Some(e1) else Get(q, k) {
        GetPut(q, Workspace, e1, k); GetPut(w, Root, root, k);
      }
      MergeContained(based, install);
      forall k ensures Get(root, k) == if k == Resolved then Some(Text(tarball)) else if Get(entry, k).Some? then Get(entry, k) else Get(cur, k) {
        GetSpread(cur, entry, k); GetPut(Spread(cur, entry), Resolved, Text(tarball), k);
      }
      GetPut(q, Workspace, e1, Root);
      PutKeepsKeys(q, Workspace, e1); PutKeepsKeys(w, Root, root);
      forall i | 0 <= i < |based| && Mergeable(based[i].0)
        ensures Get(q, based[i].0).Some? && SameRelease(Get(q, based[i].0).value, based[i].1)
      {
        assert q[i].0 == based[i].0;
        GetAt(q, i); GetAt(based, i);
      }
    }
  }

  /** An object has each key once. */
  predicate DistinctKeys<K(==), V>(o: Obj<K, V>) {
    forall i, j :: 0 <= i < j < |o| ==> o[i].0 != o[j].0
  }

  // ----- what an upgrade writes -----

  /** package.json, the workspace entry and the root entry all carry version `v`. */
  predicate AgreesOn(s: Sources, v: string) {
    && !s.package.Broken? && !s.lock.Broken?
    && Get(s.package.doc.dependencies, OpenSpec) == Some(Text(v))
    && var o := s.lock.doc.packages;
    && Get(o, Workspace).Some? && Get(o, Root).Some?
    && Get(DependenciesOf(Get(o, Workspace).value), OpenSpec) == Some(Text(v))
    && Get(Get(o, Root).value, Version) == Some(Text(v))
  }

  lemma PinIsAgreed(s: Sources, v: string)
    ensures PinOf(s) == Some(v) <==> AgreesOn(s, v) && IsStable(v)
  {
  }

  /** No staged dependency is locked at another release. */
  predicate Compatible(entries: Packages, p: Packages) {
    forall i :: 0 <= i < |entries| && entries[i].0.Module? && Get(p, entries[i].0).Some? ==> SameRelease(Get(p, entries[i].0).value, entries[i].1)
  }

  /** A merge succeeds exactly on compatible entries, and then adds the dependencies that were missing. */
  lemma {:induction false} MergedExactly(p: Packages, entries: Packages, k: LockKey)
    requires DistinctKeys(entries)
    ensures Merged(p, entries).Some? <==> Compatible(entries, p)
    ensures Merged(p, entries).Some? ==>
      Get(Merged(p, entries).value, k) == if Get(p, k).Some? then Get(p, k) else if k.Module? then Get(entries, k) else None
    decreases |entries|
  {
    if entries != [] {
      var (key, entry) := entries[0];
      var rest := entries[1..];
      assert DistinctKeys(rest) by { forall i, j | 0 <= i < j < |rest| ensures rest[i].0 != rest[j].0 { assert entries[i + 1].0 != entries[j + 1].0; } }
      forall i | 0 <= i < |rest| ensures rest[i] == entries[i + 1] && rest[i].0 != key {}
      var next := if key.Module? && Get(p, key).None? then Put(p, key, entry) else p;
      MergedExactly(next, rest, k);
      GetPut(p, key, entry, k);
      forall i | 0 < i < |entries| ensures Get(next, entries[i].0) == Get(p, entries[i].0) { GetPut(p, key, entry, entries[i].0); }
      CompatibleTail(entries, p, next);
      assert [entries[0]][0] == (key, entry);
      assert Compatible([entries[0]], p) <==> (key.Module? && Get(p, key).Some? ==> SameRelease(Get(p, key).value, entry));
    }
  }

  lemma CompatibleTail(entries: Packages, p: Packages, next: Packages)
    requires entries != [] && forall i :: 0 < i < |entries| ==> Get(next, entries[i].0) == Get(p, entries[i].0)
    ensures Compatible(entries, p) <==> Compatible(entries[1..], next) && Compatible([entries[0]], p)
  {
    var rest := entries[1..];
    forall i | 0 <= i < |rest| ensures rest[i] == entries[i + 1] {}
    if Compatible(entries, p) {
      forall i | 0 <= i < |rest| && rest[i].0.Module? && Get(next, rest[i].0).Some? ensures SameRelease(Get(next, rest[i].0).value, rest[i].1) {
        assert entries[i + 1] == rest[i];
      }
    }
    if Compatible(rest, next) && Compatible([entries[0]], p) {
      forall i | 0 <= i < |entries| && entries[i].0.Module? && Get(p, entries[i].0).Some? ensures SameRelease(Get(p, entries[i].0).value, entries[i].1) {
        if i == 0 { assert [entries[0]][0] == entries[0]; } else { assert rest[i - 1] == entries[i]; }
      }
    }
  }

  /** Everything an upgrade asks of the two files and of what has been staged. */
  ghost predicate Upgradable(s: Sources, target: string, staged: Staged) {
    && (exists pin :: AgreesOn(s, pin) && IsStable(pin))
    && staged.target == target && staged.integrity != "" && Get(staged.packages, Workspace).Some?
    && Get(staged.packages, Root).Some?
    && Get(Get(staged.packages, Root).value, Version) == Some(Text(target))
    && Get(Get(staged.packages, Root).value, Integrity) == Some(Text(staged.integrity))
    && Compatible(staged.packages, s.lock.doc.packages)
  }

  /** The files an upgrade from `s` leaves, key by key and property by property. */
  ghost predicate Upgraded(s: Sources, u: Sources, target: string, staged: Staged)
    requires !s.package.Broken? && !s.lock.Broken? && Get(s.lock.doc.packages, Workspace).Some? && Get(s.lock.doc.packages, Root).Some?
    requires Get(staged.packages, Root).Some?
  {
    && AgreesOn(u, target) && u.package.Printed? && u.lock.Printed?
    && u.package.doc.rest == s.package.doc.rest && u.lock.doc.rest == s.lock.doc.rest
    && (forall k :: k != OpenSpec ==> Get(u.package.doc.dependencies, k) == Get(s.package.doc.dependencies, k))
    && var o, q := s.lock.doc.packages, u.lock.doc.packages;
    && (forall k :: k != Root && k != Workspace ==>
          Get(q, k) == if Get(o, k).Some? then Get(o, k) else if k.Module? then Get(staged.packages, k) else None)
    && RootOverlaid(Get(o, Root).value, Get(staged.packages, Root).value, Get(q, Root).value)
    && OnlyPinChanged(Get(o, Workspace).value, Get(q, Workspace).value)
  }

  /** The staged properties over the ones in place. */
  ghost predicate RootOverlaid(earlier: Entry, staged: Entry, r: Entry) {
    forall k :: Get(r, k) == if Get(staged, k).Some? then Get(staged, k) else Get(earlier, k)
  }

  ghost predicate OnlyPinChanged(earlier: Entry, r: Entry) {
    && (forall k :: k != Dependencies ==> Get(r, k) == Get(earlier, k))
    && forall k :: k != OpenSpec ==> Get(DependenciesOf(r), k) == Get(DependenciesOf(earlier), k)
  }

  lemma SetDependencyChangesPin(e: Entry, v: string)
    ensures Get(DependenciesOf(SetDependency(e, v)), OpenSpec) == Some(Text(v)) && OnlyPinChanged(e, SetDependency(e, v))
  {
    var d := DependenciesOf(e);
    GetPut(e, Dependencies, Table(Put(d, OpenSpec, Text(v))), Dependencies);
    forall k ensures Get(SetDependency(e, v), k) == if k == Dependencies then Some(Table(Put(d, OpenSpec, Text(v)))) else Get(e, k) {
      GetPut(e, Dependencies, Table(Put(d, OpenSpec, Text(v))), k);
    }
    forall k ensures Get(Put(d, OpenSpec, Text(v)), k) == if k == OpenSpec then Some(Text(v)) else Get(d, k) { GetPut(d, OpenSpec, Text(v), k); }
  }

  /** The upgraded base differs from the old entries in the workspace's pin and in the root entry. */
  lemma BaseIs(o: Packages, target: string, stagedRoot: Entry, k: LockKey)
    requires Get(o, Workspace).Some? && Get(o, Root).Some?
    ensures Get(UpgradeBase(o, target, stagedRoot), k) ==
      if k == Root then Some(Spread(Get(o, Root).value, stagedRoot))
      else if k == Workspace then Some(SetDependency(Get(o, Workspace).value, target)) else Get(o, k)
  {
    GetPut(o, Workspace, SetDependency(Get(o, Workspace).value, target), k);
    GetPut(SetWorkspace(o, target), Root, Spread(Get(o, Root).value, stagedRoot), k);
  }

  lemma BaseIsCompatible(o: Packages, target: string, stagedRoot: Entry, entries: Packages)
    requires Get(o, Workspace).Some? && Get(o, Root).Some?
    ensures Compatible(entries, UpgradeBase(o, target, stagedRoot)) <==> Compatible(entries, o)
  {
    var b := UpgradeBase(o, target, stagedRoot);
    forall i | 0 <= i < |entries| && entries[i].0.Module? ensures Get(b, entries[i].0) == Get(o, entries[i].0) { BaseIs(o, target, stagedRoot, entries[i].0); }
  }

  /** An upgrade is planned exactly when all that is asked holds. */
  lemma PlannedExactly(s: Sources, target: string, staged: Staged)
    requires DistinctKeys(staged.packages)
    ensures PlanUpgrade(s, target, staged).Some? <==> Upgradable(s, target, staged)
  {
    if PinOf(s).Some? { PinIsAgreed(s, PinOf(s).value); }
    if pin :| AgreesOn(s, pin) && IsStable(pin) { PinIsAgreed(s, pin); }
    if PinOf(s).Some? && Get(staged.packages, Root).Some? {
      var o, r := s.lock.doc.packages, Get(staged.packages, Root).value;
      MergedExactly(UpgradeBase(o, target, r), staged.packages, Root);
      BaseIsCompatible(o, target, r, staged.packages);
    }
  }

  lemma UpgradedEntries(o: Packages, target: string, staged: Staged, q: Packages)
    requires Get(o, Workspace).Some? && Get(o, Root).Some? && Get(staged.packages, Root).Some? && DistinctKeys(staged.packages)
    requires Merged(UpgradeBase(o, target, Get(staged.packages, Root).value), staged.packages) == Some(q)
    ensures Get(q, Root) == Some(Spread(Get(o, Root).value, Get(staged.packages, Root).value))
    ensures Get(q, Workspace) == Some(SetDependency(Get(o, Workspace).value, target))
    ensures forall k :: k != Root && k != Workspace ==>
          Get(q, k) == if Get(o, k).Some? then Get(o, k) else if k.Module? then Get(staged.packages, k) else None
  {
    var r := Get(staged.packages, Root).value;
    forall k ensures Get(q, k) == var b := Get(UpgradeBase(o, target, r), k); if b.Some? then b else if k.Module? then Get(staged.packages, k) else None {
      MergedExactly(UpgradeBase(o, target, r), staged.packages, k);
    }
    forall k ensures Get(UpgradeBase(o, target, r), k) ==
      if k == Root then Some(Spread(Get(o, Root).value, r))
      else if k == Workspace then Some(SetDependency(Get(o, Workspace).value, target)) else Get(o, k) { BaseIs(o, target, r, k); }
  }

  /** A planned upgrade writes the upgraded files, and its journal has their hashes, the old ones and the old pin. */
  lemma PlanUpgrades(s: Sources, target: string, staged: Staged)
    requires PlanUpgrade(s, target, staged).Some? && DistinctKeys(staged.packages) && DistinctKeys(Get(staged.packages, Root).value)
    ensures var p := PlanUpgrade(s, target, staged).value;
      && Upgraded(s, p.next, target, staged)
      && p.journal.target == target && p.journal.before == HashesOf(s) && p.journal.after == HashesOf(p.next) && AgreesOn(s, p.journal.previous)
  {
    var p := PlanUpgrade(s, target, staged).value;
    var o, r := s.lock.doc.packages, Get(staged.packages, Root).value;
    PinIsAgreed(s, p.journal.previous);
    UpgradedEntries(o, target, staged, p.next.lock.doc.packages);
    SetDependencyChangesPin(Get(o, Workspace).value, target);
    forall k ensures Get(Spread(Get(o, Root).value, r), k) == if Get(r, k).Some? then Get(r, k) else Get(Get(o, Root).value, k) {
      GetSpread(Get(o, Root).value, r, k);
    }
    forall k ensures Get(p.next.package.doc.dependencies, k) == if k == OpenSpec then Some(Text(target)) else Get(s.package.doc.dependencies, k) {
      GetPut(s.package.doc.dependencies, OpenSpec, Text(target), k);
    }
  }

  // ----- what staging provides -----

  /** Old entries with another pin and another root entry. */
  lemma RootedIs(o: Packages, target: string, root: Entry, k: LockKey)
    requires Get(o, Workspace).Some?
    ensures Get(Put(SetWorkspace(o, target), Root, root), k) ==
      if k == Root then Some(root) else if k == Workspace then Some(SetDependency(Get(o, Workspace).value, target)) else Get(o, k)
  {
    GetPut(o, Workspace, SetDependency(Get(o, Workspace).value, target), k);
    GetPut(SetWorkspace(o, target), Root, root, k);
  }

  /** Everything staging asks of the lock file and the isolated install. */
  predicate Stageable(lock: Packages, target: string, integrity: string, install: Packages) {
    && Get(lock, Workspace).Some? && Get(lock, Root).Some? && Get(install, Root).Some?
    && Get(Get(install, Root).value, Integrity) == Some(Text(integrity)) && Get(Get(install, Root).value, Version) == Some(Text(target))
    && Compatible(install, lock)
  }

  /** The staged lock entries, key by key. */
  ghost predicate StagedFrom(lock: Packages, target: string, tarball: string, install: Packages, q: Packages)
    requires Get(lock, Workspace).Some? && Get(lock, Root).Some? && Get(install, Root).Some?
  {
    && (forall k :: k != Root && k != Workspace ==> Get(q, k) == if Get(lock, k).Some? then Get(lock, k) else if k.Module? then Get(install, k) else None)
    && Get(q, Workspace).Some? && OnlyPinChanged(Get(lock, Workspace).value, Get(q, Workspace).value)
    && Get(DependenciesOf(Get(q, Workspace).value), OpenSpec) == Some(Text(target))
    && Get(q, Root).Some? && RootInstalled(Get(lock, Root).value, Get(install, Root).value, tarball, Get(q, Root).value)
  }

  /** The installed properties over the ones in place, and the tarball the release came from. */
  ghost predicate RootInstalled(earlier: Entry, installed: Entry, tarball: string, r: Entry) {
    forall k :: Get(r, k) ==
      if k == Resolved then Some(Text(tarball)) else if Get(installed, k).Some? then Get(installed, k) else Get(earlier, k)
  }

  /** Staging succeeds exactly when it should, and gives the lock file with the installed closure added. */
  lemma StagesExactly(lock: Packages, target: string, integrity: string, tarball: string, install: Packages)
    requires DistinctKeys(install) && (Get(install, Root).Some? ==> DistinctKeys(Get(install, Root).value))
    ensures var r := StageTarget(lock, target, integrity, tarball, install);
      && (r.Some? <==> Stageable(lock, target, integrity, install))
      && (r.Some? ==> r.value.target == target && r.value.integrity == integrity && StagedFrom(lock, target, tarball, install, r.value.packages))
  {
    if Get(lock, Workspace).Some? && Get(lock, Root).Some? && Get(install, Root).Some? {
      var root := RestagedRoot(Get(lock, Root).value, Get(install, Root).value, tarball);
      var based := Put(SetWorkspace(lock, target), Root, root);
      forall k ensures Get(based, k) ==
        if k == Root then Some(root) else if k == Workspace then Some(SetDependency(Get(lock, Workspace).value, target)) else Get(lock, k) {
        RootedIs(lock, target, root, k);
      }
      forall k ensures (Merged(based, install).Some? <==> Compatible(install, based)) && (Merged(based, install).Some? ==>
        Get(Merged(based, install).value, k) == if Get(based, k).Some? then Get(based, k) else if k.Module? then Get(install, k) else None) {
        MergedExactly(based, install, k);
      }
      forall k ensures Get(root, k) == if k == Resolved then Some(Text(tarball))
        else if Get(Get(install, Root).value, k).Some? then Get(Get(install, Root).value, k) else Get(Get(lock, Root).value, k) {
        RestagedProperty(Get(lock, Root).value, Get(install, Root).value, tarball, k);
      }
      SetDependencyChangesPin(Get(lock, Workspace).value, target);
    }
  }

  /** What the merge of a closure into a lock file holds is compatible with that lock file. */
  lemma MergedIsCompatible(lock: Packages, target: string, root: Entry, install: Packages)
    requires WellFormed(lock) && Get(lock, Workspace).Some? && Get(lock, Root).Some?
    requires Merged(Put(SetWorkspace(lock, target), Root, root), install).Some?
    ensures Compatible(Merged(Put(SetWorkspace(lock, target), Root, root), install).value, lock)
  {
    var e1 := SetDependency(Get(lock, Workspace).value, target);
    var based := Put(SetWorkspace(lock, target), Root, root);
    var q := Merged(based, install).value;
    assert based + [] == based;
    MergeAppends(based, [], install);
    GetPut(lock, Workspace, e1, Root);
    PutKeepsKeys(lock, Workspace, e1); PutKeepsKeys(SetWorkspace(lock, target), Root, root);
    var ext := q[|based|..];
    forall i | |based| <= i < |q| && q[i].0.Module? ensures Get(lock, q[i].0).None? {
      RootedIs(lock, target, root, q[i].0);
      assert q[i] == ext[i - |based|];
    }
    forall i | 0 <= i < |based| && q[i].0.Module? ensures Get(lock, q[i].0).Some? && SameRelease(Get(lock, q[i].0).value, q[i].1) {
      RootedIs(lock, target, root, q[i].0);
      assert q[i] == based[i] && lock[i].0 == based[i].0;
      GetAt(lock, i); GetAt(based, i);
    }
  }

  /** What staging provides passes the transaction that asked for it. */
  lemma StagedPasses(s: Sources, pin: string, target: string, integrity: string, tarball: string, install: Packages)
    requires AgreesOn(s, pin) && IsStable(pin) && WellFormed(s.lock.doc.packages) && integrity != ""
    requires DistinctKeys(install) && (Get(install, Root).Some? ==> DistinctKeys(Get(install, Root).value))
    ensures var r := StageTarget(s.lock.doc.packages, target, integrity, tarball, install);
      r.Some? ==> Upgradable(s, target, r.value)
  {
    var lock := s.lock.doc.packages;
    var r := StageTarget(lock, target, integrity, tarball, install);
    StagesExactly(lock, target, integrity, tarball, install);
    if r.Some? {
      MergedIsCompatible(lock, target, RestagedRoot(Get(lock, Root).value, Get(install, Root).value, tarball), install);
    }
  }

  // ----- whether the old root entry comes back -----

  /** The keys of `a` come first in `b`, in the same order. */
  predicate LeadingKeys<K(==), V>(a: Obj<K, V>, b: Obj<K, V>) {
    |a| <= |b| && forall i :: 0 <= i < |a| ==> b[i].0 == a[i].0
  }

  lemma PutLeads<K, V>(o: Obj<K, V>, k: K, v: V)
    ensures LeadingKeys(o, Put(o, k, v)) && (DistinctKeys(o) ==> DistinctKeys(Put(o, k, v)))
    ensures |Put(o, k, v)| == |o| <==> Get(o, k).Some?
  {
    GetHas(o, k);
    if Get(o, k).Some? { PutKeepsKeys(o, k, v); } else { PutNew(o, k, v); }
  }

  lemma {:induction false} SpreadLeads<K, V>(a: Obj<K, V>, b: Obj<K, V>)
    ensures LeadingKeys(a, Spread(a, b)) && (DistinctKeys(a) ==> DistinctKeys(Spread(a, b)))
    decreases |b|
  {
    if b != [] {
      PutLeads(a, b[0].0, b[0].1);
      SpreadLeads(Put(a, b[0].0, b[0].1), b[1..]);
    }
  }

  /** A spread brings no new key exactly when all its keys are there already. */
  lemma {:induction false} SpreadAddsNothing<K, V>(a: Obj<K, V>, b: Obj<K, V>)
    ensures |Spread(a, b)| == |a| <==> forall i :: 0 <= i < |b| ==> Get(a, b[i].0).Some?
    decreases |b|
  {
    if b != [] {
      var p := Put(a, b[0].0, b[0].1);
      PutLeads(a, b[0].0, b[0].1);
      SpreadLeads(p, b[1..]);
      SpreadAddsNothing(p, b[1..]);
      forall i | 0 <= i < |b[1..]| ensures Get(p, b[1..][i].0).Some? <==> b[i + 1].0 == b[0].0 || Get(a, b[i + 1].0).Some? {
        GetPut(a, b[0].0, b[0].1, b[i + 1].0);
      }
      if Get(a, b[0].0).Some? {
        forall i | 0 <= i < |b| ensures Get(a, b[i].0).Some? <==> i == 0 || Get(p, b[1..][i - 1].0).Some? { if i > 0 { assert b[1..][i - 1] == b[i]; } }
      }
    }
  }

  lemma ExtraKey<K, V>(a: Obj<K, V>, b: Obj<K, V>)
    requires DistinctKeys(b) && LeadingKeys(a, b) && |a| < |b|
    ensures Get(b, b[|a|].0).Some? && Get(a, b[|a|].0).None?
  {
    var k := b[|a|].0;
    GetHas(a, k);
    GetHas(b, k);
    forall i | 0 <= i < |a| ensures a[i].0 != k { assert b[i].0 != b[|a|].0; }
  }

  /** Objects with the same keys in the same order and the same values are the same. */
  lemma SameObject<K, V>(a: Obj<K, V>, b: Obj<K, V>)
    requires DistinctKeys(a) && DistinctKeys(b) && LeadingKeys(a, b) && forall k :: Get(a, k) == Get(b, k)
    ensures a == b
  {
    if |a| < |b| { ExtraKey(a, b); }
    forall i | 0 <= i < |a| ensures a[i] == b[i] { GetAt(a, i); GetAt(b, i); }
  }

  /**
   * What brings the old root entry back: the entry in the lock file has no property the old one lacks, the tarball is the
   * old one, every property the install brings is the old one, and what it does not bring is as it was.
   */
  predicate BringsBack(earlier: Entry, current: Entry, installed: Entry, tarball: string) {
    && |current| == |earlier|
    && Get(earlier, Resolved) == Some(Text(tarball))
    && (forall i :: 0 <= i < |installed| ==> installed[i].0 == Resolved || Get(earlier, installed[i].0) == Some(installed[i].1))
    && (forall i :: 0 <= i < |current| ==> current[i].0 == Resolved || Get(installed, current[i].0).Some? || Get(earlier, current[i].0) == Some(current[i].1))
  }

  lemma RestagedProperty(current: Entry, installed: Entry, tarball: string, k: Property)
    requires DistinctKeys(installed)
    ensures Get(RestagedRoot(current, installed, tarball), k) ==
              if k == Resolved then Some(Text(tarball)) else if Get(installed, k).Some? then Get(installed, k) else Get(current, k)
  {
    GetSpread(current, installed, k);
    GetPut(Spread(current, installed), Resolved, Text(tarball), k);
  }

  lemma {:induction false} GetIn<K, V>(o: Obj<K, V>, k: K)
    ensures Get(o, k).Some? ==> exists i :: 0 <= i < |o| && o[i] == (k, Get(o, k).value)
  {
    if o != [] && o[0].0 != k {
      GetIn(o[1..], k);
      if Get(o, k).Some? {
        var i :| 0 <= i < |o[1..]| && o[1..][i] == (k, Get(o, k).value);
        assert o[i + 1] == (k, Get(o, k).value);
      }
    }
  }

  /** Staging against a lock file whose root entry extends the old one gives the old root entry exactly under these conditions. */
  lemma OldRootComesBackExactly(earlier: Entry, current: Entry, installed: Entry, tarball: string)
    requires DistinctKeys(earlier) && DistinctKeys(current) && DistinctKeys(installed) && LeadingKeys(earlier, current)
    ensures RestagedRoot(current, installed, tarball) == earlier <==> BringsBack(earlier, current, installed, tarball)
  {
    var r := RestagedRoot(current, installed, tarball);
    SpreadLeads(current, installed);
    PutLeads(Spread(current, installed), Resolved, Text(tarball));
    assert LeadingKeys(earlier, r) && DistinctKeys(r);
    if r == earlier { BroughtBack(earlier, current, installed, tarball); }
    if BringsBack(earlier, current, installed, tarball) {
      forall k ensures Get(earlier, k) == Get(r, k) { BroughtBackProperty(earlier, current, installed, tarball, k); }
      SameObject(earlier, r);
    }
  }

  lemma BroughtBack(earlier: Entry, current: Entry, installed: Entry, tarball: string)
    requires DistinctKeys(current) && DistinctKeys(installed) && LeadingKeys(earlier, current)
    requires LeadingKeys(current, RestagedRoot(current, installed, tarball)) && RestagedRoot(current, installed, tarball) == earlier
    ensures BringsBack(earlier, current, installed, tarball)
  {
    RestagedProperty(current, installed, tarball, Resolved);
    forall i | 0 <= i < |installed| ensures installed[i].0 == Resolved || Get(earlier, installed[i].0) == Some(installed[i].1) {
      RestagedProperty(current, installed, tarball, installed[i].0);
      GetAt(installed, i);
    }
    forall i | 0 <= i < |current|
      ensures current[i].0 == Resolved || Get(installed, current[i].0).Some? || Get(earlier, current[i].0) == Some(current[i].1)
    {
      RestagedProperty(current, installed, tarball, current[i].0);
      GetAt(current, i);
    }
  }

  lemma BroughtBackProperty(earlier: Entry, current: Entry, installed: Entry, tarball: string, k: Property)
    requires DistinctKeys(installed) && LeadingKeys(earlier, current) && BringsBack(earlier, current, installed, tarball)
    ensures Get(RestagedRoot(current, installed, tarball), k) == Get(earlier, k)
  {
    RestagedProperty(current, installed, tarball, k);
    GetIn(installed, k);
    GetIn(current, k);
    GetHas(earlier, k);
    GetHas(current, k);
    if Get(earlier, k).Some? {
      var i :| 0 <= i < |earlier| && earlier[i].0 == k;
      assert current[i].0 == k;
    }
  }

  /**
   * When the old release installs as it did before, the old root entry comes back after an upgrade exactly if the new
   * release's entry has no property the old one lacks.
   */
  lemma NewPropertiesDecide(earlier: Entry, upgraded: Entry, installed: Entry, tarball: string)
    requires DistinctKeys(earlier) && DistinctKeys(installed)
    requires Get(earlier, Resolved) == Some(Text(tarball)) && forall k :: k == Resolved || Get(installed, k) == Get(earlier, k)
    ensures RestagedRoot(Spread(earlier, upgraded), installed, tarball) == earlier
            <==> forall i :: 0 <= i < |upgraded| ==> Get(earlier, upgraded[i].0).Some?
  {
    var current := Spread(earlier, upgraded);
    SpreadLeads(earlier, upgraded);
    SpreadAddsNothing(earlier, upgraded);
    OldRootComesBackExactly(earlier, current, installed, tarball);
    forall i | 0 <= i < |installed| ensures Get(installed, installed[i].0) == Some(installed[i].1) { GetAt(installed, i); }
    if |current| == |earlier| {
      forall i | 0 <= i < |current| ensures current[i].0 == Resolved || Get(installed, current[i].0).Some? {
        GetAt(earlier, i);
      }
    }
  }

  /** An `engines` property that only the new release has stays in the root entry. */
  lemma NewPropertyStays(a: string, b: string, tarball: string, next: string)
    ensures var earlier := [(Version, Text(a)), (Resolved, Text(tarball))];
      var upgraded := [(Version, Text(b)), (Property("engines"), Other(0)), (Resolved, Text(next))];
      RestagedRoot(Spread(earlier, upgraded), earlier, tarball) != earlier
  {
    var earlier := [(Version, Text(a)), (Resolved, Text(tarball))];
    var upgraded := [(Version, Text(b)), (Property("engines"), Other(0)), (Resolved, Text(next))];
    GetAt(earlier, 1);
    NewPropertiesDecide(earlier, upgraded, earlier, tarball);
    GetHas(earlier, Property("engines"));
    assert upgraded[1].0 == Property("engines");
  }

  /** The workspace entry of an upgraded lock file carries the new pin. */
  lemma UpgradedPin(o: Packages, ext: Packages, target: string, stagedRoot: Entry)
    requires Get(o, Workspace).Some? && Get(o, Root).Some?
    ensures var w := Get(UpgradeBase(o, target, stagedRoot) + ext, Workspace);
      w.Some? && Get(DependenciesOf(w.value), OpenSpec) == Some(Text(target))
  {
    var e := Get(o, Workspace).value;
    var e1 := SetDependency(e, target);
    var w := Put(o, Workspace, e1);
    var r := Spread(Get(o, Root).value, stagedRoot);
    GetPut(o, Workspace, e1, Workspace);
    GetPut(w, Root, r, Workspace);
    PutOverAppend(Put(w, Root, r), ext, Workspace, e1);
    GetPut(e, Dependencies, Table(Put(DependenciesOf(e), OpenSpec, Text(target))), Dependencies);
    GetPut(DependenciesOf(e), OpenSpec, Text(target), OpenSpec);
  }

  /**
   * A recovery that re-stages a different root entry writes a lock file with neither hash: if it is interrupted before it
   * resolves the journal, no later recovery will touch the files again.
   */
  lemma UnfaithfulRestagingStrands(s: Sources, j: Journal, now: Sources, staged: Staged, package: File<PackageDoc>, later: Staged)
    requires PreparedFrom(j, s) && Matches(now, j) && now.lock != s.lock && j.target != j.previous
    requires !now.lock.Broken? && Restaged(staged, j, now.lock.doc.packages)
    requires Get(staged.packages, Root) != Get(s.lock.doc.packages, Root)
    ensures PlanRecovery(now, j, staged).Some?
    ensures var written := Sources(package, PlanRecovery(now, j, staged).value.lock);
      !Matches(written, j) && PlanRecovery(written, j, later).None?
  {
    RecoveryOutcome(s, j, now, staged);
    var stagedRoot, ext := UpgradeShape(j, s);
    var o, root := s.lock.doc.packages, Get(staged.packages, Root).value;
    GetPut(o, Root, root, Root);
    GetPut(o, Root, root, Workspace);
    UpgradedPin(o, ext, j.target, stagedRoot);
  }
}
