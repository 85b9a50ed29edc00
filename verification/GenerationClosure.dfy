/** Planning a package's dependency closure and copying it into a generation under path-free keys. */
module GenerationClosure {
  import opened JsObject

  /** A real directory as the path components below the file-system root. */
  type Dir = seq<string>

  /** `names`: the sorted keys of `dependencies` and `optionalDependencies` together. */
  datatype Manifest = Manifest(name: string, version: string, names: seq<string>, optional: set<string>)

  /** `modules[(d, n)]` is the real path of `d/node_modules/n`; `contents` is what a copy of the package would hold. */
  datatype Disk = Disk(modules: map<(Dir, string), Dir>, manifests: map<Dir, Manifest>, contents: map<Dir, string>)

  /** Everything a key is computed from: none of it is a path. The served package's content is not looked at. */
  datatype Description = Description(name: string, version: string, content: Option<string>, context: seq<(string, (string, string))>)

  datatype Node = Node(key: string, links: seq<(string, string)>)

  // ----- resolution -----

  /** The nearest enclosing directory that has the dependency wins. */
  function Resolve(disk: Disk, from: Dir, name: string): Option<Dir> {
    if (from, name) in disk.modules then Some(disk.modules[(from, name)])
    else if from == [] then None
    else Resolve(disk, from[..|from| - 1], name)
  }

  method ResolveDependency(disk: Disk, from: Dir, name: string) returns (r: Option<Dir>)
    ensures r == Resolve(disk, from, name)
  {
    var cursor := from;
    while true
      invariant Resolve(disk, cursor, name) == Resolve(disk, from, name)
      decreases |cursor|
    {
      if (cursor, name) in disk.modules { return Some(disk.modules[(cursor, name)]); }
      if cursor == [] { return None; }
      cursor := cursor[..|cursor| - 1];
    }
  }

  /** Node's rule read declaratively: the entry of the longest prefix of `from` that has one. */
  lemma {:induction false} ResolveIsNearest(disk: Disk, from: Dir, name: string, n: nat)
    requires n <= |from| && (from[..n], name) in disk.modules
    requires forall m :: n < m <= |from| ==> (from[..m], name) !in disk.modules
    ensures Resolve(disk, from, name) == Some(disk.modules[(from[..n], name)])
    decreases |from|
  {
    if n == |from| {
      assert from[..n] == from;
    } else {
      assert from[..|from|] == from;
      var parent := from[..|from| - 1];
      assert parent[..n] == from[..n];
      forall m | n < m <= |parent| ensures (parent[..m], name) !in disk.modules { assert parent[..m] == from[..m]; }
      ResolveIsNearest(disk, parent, name, n);
    }
  }

  /** Nothing is found but what an enclosing directory has. */
  lemma {:induction false} ResolveFindsEnclosing(disk: Disk, from: Dir, name: string)
    ensures Resolve(disk, from, name).Some? <==> exists n :: 0 <= n <= |from| && (from[..n], name) in disk.modules
  {
    assert from[..|from|] == from;
    if (from, name) !in disk.modules && from != [] {
      var parent := from[..|from| - 1];
      ResolveFindsEnclosing(disk, parent, name);
      assert forall n :: 0 <= n < |from| ==> from[..n] == parent[..n];
    }
  }

  predicate IsToken(s: string) {
    s != "" && forall c :: c in s ==> 'a' <= c <= 'z' || 'A' <= c <= 'Z' || '0' <= c <= '9' || c == '.' || c == '_' || c == '-'
  }

  predicate IsDependencyName(s: string) {
    s != "." && s != ".." &&
    (IsToken(s) || (s != "" && s[0] == '@' && exists i :: 1 <= i < |s| && s[i] == '/' && IsToken(s[1..i]) && IsToken(s[i + 1..])))
  }

  /** The resolved dependencies in order; None when a name is invalid or a required dependency is missing. */
  function ResolveAll(disk: Disk, from: Dir, names: seq<string>, optional: set<string>): Option<seq<(string, Dir)>>
    decreases |names|
  {
    if names == [] then Some([])
    else if !IsDependencyName(names[0]) then None
    else
      var target := Resolve(disk, from, names[0]);
      var rest := ResolveAll(disk, from, names[1..], optional);
      if target.None? && names[0] !in optional then None
      else if rest.None? then None
      else Some((if target.Some? then [(names[0], target.value)] else []) + rest.value)
  }

  predicate HasIdentity(disk: Disk, d: Dir) {
    d in disk.manifests && disk.manifests[d].name != "" && disk.manifests[d].version != ""
  }

  function DependenciesOf(disk: Disk, d: Dir): Option<seq<(string, Dir)>> {
    if d !in disk.manifests then None
    else ResolveAll(disk, d, disk.manifests[d].names, disk.manifests[d].optional)
  }

  /** One planning run: the disk, the served package, and the hash that turns a description into a key. */
  datatype Survey = Survey(disk: Disk, source: Dir, hash: Description -> string) {
    /** The package can be planned: it, its direct dependencies and (unless it is the served one) its content are readable. */
    predicate Plannable(d: Dir) {
      && HasIdentity(disk, d) && (d != source ==> d in disk.contents)
      && var deps := DependenciesOf(disk, d);
      deps.Some? && forall i :: 0 <= i < |deps.value| ==> HasIdentity(disk, deps.value[i].1)
    }

    function Describe(d: Dir): Description {
      var deps := DependenciesOf(disk, d);
      Description(IdentityOf(disk, d).0, IdentityOf(disk, d).1,
        if d == source || d !in disk.contents then None else Some(disk.contents[d]),
        if deps.None? then [] else Context(disk, deps.value))
    }

    function Key(d: Dir): string {
      hash(Describe(d))
    }

    /** The links a package gets: each resolved dependency name with its target's key. */
    function Links(d: Dir): seq<(string, string)> {
      var deps := DependenciesOf(disk, d);
      if deps.None? then [] else Keyed(deps.value)
    }

    function Keyed(deps: seq<(string, Dir)>): (r: seq<(string, string)>)
      ensures |r| == |deps|
    {
      seq(|deps|, i requires 0 <= i < |deps| => (deps[i].0, Key(deps[i].1)))
    }
  }

  function IdentityOf(disk: Disk, d: Dir): (string, string) {
    if d in disk.manifests then (disk.manifests[d].name, disk.manifests[d].version) else ("", "")
  }

  function Context(disk: Disk, deps: seq<(string, Dir)>): seq<(string, (string, string))> {
    seq(|deps|, i requires 0 <= i < |deps| => (deps[i].0, IdentityOf(disk, deps[i].1)))
  }

  /** A listed dependency is in order: its name is allowed, and it is found, with an identity, or may be missing. */
  predicate InOrder(disk: Disk, from: Dir, name: string, optional: set<string>) {
    && IsDependencyName(name)
    && (Resolve(disk, from, name).None? ==> name in optional)
    && (Resolve(disk, from, name).Some? ==> HasIdentity(disk, Resolve(disk, from, name).value))
  }

  lemma {:induction false} ResolvesAllExactly(disk: Disk, from: Dir, names: seq<string>, optional: set<string>)
    ensures var r := ResolveAll(disk, from, names, optional);
      r.Some? && (forall i :: 0 <= i < |r.value| ==> HasIdentity(disk, r.value[i].1)) <==> forall i :: 0 <= i < |names| ==> InOrder(disk, from, names[i], optional)
    decreases |names|
  {
    if names != [] {
      var rest := names[1..];
      ResolvesAllExactly(disk, from, rest, optional);
      assert (forall i :: 0 <= i < |names| ==> InOrder(disk, from, names[i], optional))
        <==> InOrder(disk, from, names[0], optional) && forall i :: 0 <= i < |rest| ==> InOrder(disk, from, rest[i], optional) by {
        if forall i :: 0 <= i < |names| ==> InOrder(disk, from, names[i], optional) {
          forall i | 0 <= i < |rest| ensures InOrder(disk, from, rest[i], optional) { assert rest[i] == names[i + 1]; }
        }
        if InOrder(disk, from, names[0], optional) && forall i :: 0 <= i < |rest| ==> InOrder(disk, from, rest[i], optional) {
          forall i | 0 <= i < |names| ensures InOrder(disk, from, names[i], optional) { if i > 0 { assert names[i] == rest[i - 1]; } }
        }
      }
      FirstResolved(disk, from, names, optional);
    }
  }

  lemma FirstResolved(disk: Disk, from: Dir, names: seq<string>, optional: set<string>)
    requires names != []
    ensures var r, rest := ResolveAll(disk, from, names, optional), ResolveAll(disk, from, names[1..], optional);
      r.Some? && (forall i :: 0 <= i < |r.value| ==> HasIdentity(disk, r.value[i].1)) <==>
        InOrder(disk, from, names[0], optional) && rest.Some? && forall i :: 0 <= i < |rest.value| ==> HasIdentity(disk, rest.value[i].1)
  {
    var r, rest := ResolveAll(disk, from, names, optional), ResolveAll(disk, from, names[1..], optional);
    var target := Resolve(disk, from, names[0]);
    if r.Some? {
      assert r.value == (if target.Some? then [(names[0], target.value)] else []) + rest.value;
      if target.Some? {
        assert r.value[0] == (names[0], target.value);
        assert forall i :: 0 <= i < |rest.value| ==> r.value[i + 1] == rest.value[i];
      } else {
        assert r.value == rest.value;
      }
    }
  }

  /** What a package needs to be planned: an identity, a content unless it is served itself, and dependencies in order. */
  lemma PlannableExactly(s: Survey, d: Dir)
    ensures s.Plannable(d) <==>
      && d in s.disk.manifests && s.disk.manifests[d].name != "" && s.disk.manifests[d].version != ""
      && (d != s.source ==> d in s.disk.contents)
      && forall i :: 0 <= i < |s.disk.manifests[d].names| ==> InOrder(s.disk, d, s.disk.manifests[d].names[i], s.disk.manifests[d].optional)
  {
    if d in s.disk.manifests { ResolvesAllExactly(s.disk, d, s.disk.manifests[d].names, s.disk.manifests[d].optional); }
  }

  // ----- paths of dependency names -----

  function Lookup<T>(links: seq<(string, T)>, name: string): Option<T> {
    if links == [] then None else if links[0].0 == name then Some(links[0].1) else Lookup(links[1..], name)
  }

  function Follow(disk: Disk, d: Dir, path: seq<string>): Option<Dir>
    decreases |path|
  {
    if path == [] then Some(d)
    else
      var deps := DependenciesOf(disk, d);
      var next := if deps.Some? then Lookup(deps.value, path[0]) else None;
      if next.None? then None else Follow(disk, next.value, path[1..])
  }

  ghost predicate Reachable(disk: Disk, from: Dir, d: Dir) {
    exists path :: Follow(disk, from, path) == Some(d)
  }

  predicate DistinctNames<T>(links: seq<(string, T)>) {
    forall i, j :: 0 <= i < j < |links| ==> links[i].0 != links[j].0
  }

  lemma {:induction false} LookupAt<T>(links: seq<(string, T)>, i: nat)
    requires i < |links| && DistinctNames(links)
    ensures Lookup(links, links[i].0) == Some(links[i].1)
  {
    if i > 0 {
      assert DistinctNames(links[1..]);
      LookupAt(links[1..], i - 1);
    }
  }

  lemma {:induction false} LookupIn<T>(links: seq<(string, T)>, name: string)
    ensures Lookup(links, name).Some? ==> exists i :: 0 <= i < |links| && links[i] == (name, Lookup(links, name).value)
  {
    if links != [] && links[0].0 != name {
      LookupIn(links[1..], name);
      if Lookup(links, name).Some? {
        var i :| 0 <= i < |links[1..]| && links[1..][i] == (name, Lookup(links, name).value);
        assert links[i + 1] == (name, Lookup(links, name).value);
      }
    }
  }

  /** Manifest keys are distinct, as the keys of one object are. */
  ghost predicate WellFormed(disk: Disk) {
    forall d :: d in disk.manifests ==> forall i, j :: 0 <= i < j < |disk.manifests[d].names| ==> disk.manifests[d].names[i] != disk.manifests[d].names[j]
  }

  lemma {:induction false} ResolveAllNames(disk: Disk, from: Dir, names: seq<string>, optional: set<string>)
    requires forall i, j :: 0 <= i < j < |names| ==> names[i] != names[j]
    ensures var r := ResolveAll(disk, from, names, optional);
      r.Some? ==> DistinctNames(r.value) && forall i :: 0 <= i < |r.value| ==> r.value[i].0 in names
    decreases |names|
  {
    if names != [] { ResolveAllNames(disk, from, names[1..], optional); }
  }

  lemma {:induction false} FollowAppend(disk: Disk, d: Dir, path: seq<string>, more: seq<string>)
    ensures Follow(disk, d, path + more) == var n := Follow(disk, d, path); if n.None? then None else Follow(disk, n.value, more)
    decreases |path|
  {
    if path == [] {
      assert path + more == more;
    } else {
      assert (path + more)[1..] == path[1..] + more;
      var deps := DependenciesOf(disk, d);
      var next := if deps.Some? then Lookup(deps.value, path[0]) else None;
      if next.Some? { FollowAppend(disk, next.value, path[1..], more); }
    }
  }

  lemma OneStep(disk: Disk, d: Dir, i: nat)
    requires WellFormed(disk) && DependenciesOf(disk, d).Some? && i < |DependenciesOf(disk, d).value|
    ensures var deps := DependenciesOf(disk, d).value; Follow(disk, d, [deps[i].0]) == Some(deps[i].1)
  {
    var deps := DependenciesOf(disk, d).value;
    ResolveAllNames(disk, d, disk.manifests[d].names, disk.manifests[d].optional);
    LookupAt(deps, i);
    assert [deps[i].0][1..] == [];
  }

  lemma OneStepBack(disk: Disk, d: Dir, name: string) returns (i: nat)
    requires Follow(disk, d, [name]).Some?
    ensures DependenciesOf(disk, d).Some? && i < |DependenciesOf(disk, d).value|
    ensures DependenciesOf(disk, d).value[i] == (name, Follow(disk, d, [name]).value)
  {
    var deps := DependenciesOf(disk, d).value;
    assert [name][1..] == [];
    LookupIn(deps, name);
    i :| 0 <= i < |deps| && deps[i] == (name, Lookup(deps, name).value);
  }

  lemma ChildReachable(disk: Disk, d: Dir, i: nat, n: Dir)
    requires WellFormed(disk) && DependenciesOf(disk, d).Some? && i < |DependenciesOf(disk, d).value|
    requires Reachable(disk, DependenciesOf(disk, d).value[i].1, n)
    ensures Reachable(disk, d, n)
  {
    var deps := DependenciesOf(disk, d).value;
    var path :| Follow(disk, deps[i].1, path) == Some(n);
    OneStep(disk, d, i);
    FollowAppend(disk, d, [deps[i].0], path);
    assert Follow(disk, d, [deps[i].0] + path) == Some(n);
  }

  lemma SelfReachable(disk: Disk, d: Dir)
    ensures Reachable(disk, d, d)
  {
    assert Follow(disk, d, []) == Some(d);
  }

  // ----- the memoised walk -----

  ghost predicate Sound(s: Survey, nodes: map<Dir, Node>) {
    nodes.Keys <= s.disk.manifests.Keys && forall d :: d in nodes ==> s.Plannable(d) && nodes[d].key == s.Key(d)
  }

  /** All links of `d` are recorded and every target has been visited. */
  ghost predicate Complete(s: Survey, nodes: map<Dir, Node>, d: Dir) {
    && d in nodes && nodes[d].links == s.Links(d) && DependenciesOf(s.disk, d).Some?
    && var deps := DependenciesOf(s.disk, d).value;
    forall i :: 0 <= i < |deps| ==> deps[i].1 in nodes
  }

  ghost predicate Extends(earlier: map<Dir, Node>, nodes: map<Dir, Node>) {
    earlier.Keys <= nodes.Keys && forall n :: n in earlier ==> nodes[n] == earlier[n]
  }

  /** What a finished visit of `d` has added: complete packages reachable from `d`. */
  ghost predicate Grown(s: Survey, d: Dir, earlier: map<Dir, Node>, nodes: map<Dir, Node>) {
    && Extends(earlier, nodes) && d in nodes
    && (forall n {:trigger Complete(s, nodes, n)} :: n in nodes && n !in earlier ==> Complete(s, nodes, n))
    && forall n {:trigger Reachable(s.disk, d, n)} :: n in nodes && n !in earlier ==> Reachable(s.disk, d, n)
  }

  /** The visit of `d` after `i` of its links. */
  ghost predicate Visiting(s: Survey, d: Dir, earlier: map<Dir, Node>, nodes: map<Dir, Node>, i: nat) {
    && d in nodes && d !in earlier && Extends(earlier, nodes)
    && DependenciesOf(s.disk, d).Some? && i <= |DependenciesOf(s.disk, d).value|
    && var deps := DependenciesOf(s.disk, d).value;
    && nodes[d].links == s.Keyed(deps[..i])
    && (forall k :: 0 <= k < i ==> deps[k].1 in nodes)
    && (forall n {:trigger Complete(s, nodes, n)} :: n in nodes && n !in earlier && n != d ==> Complete(s, nodes, n))
    && forall n {:trigger Reachable(s.disk, d, n)} :: n in nodes && n !in earlier && n != d ==> Reachable(s.disk, d, n)
  }

  function Push(nodes: map<Dir, Node>, d: Dir, link: (string, string)): map<Dir, Node>
    requires d in nodes
  {
    nodes[d := nodes[d].(links := nodes[d].links + [link])]
  }

  lemma CompleteStays(s: Survey, nodes: map<Dir, Node>, next: map<Dir, Node>, n: Dir)
    requires Complete(s, nodes, n) && nodes.Keys <= next.Keys && next[n] == nodes[n]
    ensures Complete(s, next, n)
  {
  }

  lemma VisitNextAt(s: Survey, d: Dir, earlier: map<Dir, Node>, nodes: map<Dir, Node>, i: nat, after: map<Dir, Node>, n: Dir, link: (string, string))
    requires WellFormed(s.disk) && Visiting(s, d, earlier, nodes, i) && i < |DependenciesOf(s.disk, d).value|
    requires Grown(s, DependenciesOf(s.disk, d).value[i].1, nodes, after)
    requires n in after && n !in earlier && n != d
    ensures Complete(s, Push(after, d, link), n) && Reachable(s.disk, d, n)
  {
    if n in nodes {
      CompleteStays(s, nodes, Push(after, d, link), n);
    } else {
      CompleteStays(s, after, Push(after, d, link), n);
      ChildReachable(s.disk, d, i, n);
    }
  }

  lemma KeyedMore(s: Survey, deps: seq<(string, Dir)>, i: nat)
    requires i < |deps|
    ensures s.Keyed(deps[..i + 1]) == s.Keyed(deps[..i]) + [(deps[i].0, s.Key(deps[i].1))]
  {
  }

  lemma VisitLink(s: Survey, d: Dir, earlier: map<Dir, Node>, nodes: map<Dir, Node>, i: nat, after: map<Dir, Node>)
    requires Visiting(s, d, earlier, nodes, i) && i < |DependenciesOf(s.disk, d).value|
    requires Extends(nodes, after) && DependenciesOf(s.disk, d).value[i].1 in after
    ensures var deps := DependenciesOf(s.disk, d).value;
      var next := Push(after, d, (deps[i].0, s.Key(deps[i].1)));
      && d in next && Extends(earlier, next) && next[d].links == s.Keyed(deps[..i + 1]) && forall k :: 0 <= k <= i ==> deps[k].1 in next
  {
    var deps := DependenciesOf(s.disk, d).value;
    var link := (deps[i].0, s.Key(deps[i].1));
    KeyedMore(s, deps, i);
    assert after[d] == nodes[d];
    forall k | 0 <= k <= i ensures deps[k].1 in Push(after, d, link) { if k < i { assert deps[k].1 in nodes; } }
  }

  lemma VisitNext(s: Survey, d: Dir, earlier: map<Dir, Node>, nodes: map<Dir, Node>, i: nat, after: map<Dir, Node>)
    requires WellFormed(s.disk) && Visiting(s, d, earlier, nodes, i) && i < |DependenciesOf(s.disk, d).value|
    requires Grown(s, DependenciesOf(s.disk, d).value[i].1, nodes, after)
    ensures var link := DependenciesOf(s.disk, d).value[i];
      Visiting(s, d, earlier, Push(after, d, (link.0, s.Key(link.1))), i + 1)
  {
    var deps := DependenciesOf(s.disk, d).value;
    var link := (deps[i].0, s.Key(deps[i].1));
    var next := Push(after, d, link);
    VisitLink(s, d, earlier, nodes, i, after);
    forall n | n in next && n !in earlier && n != d ensures Complete(s, next, n) && Reachable(s.disk, d, n) {
      VisitNextAt(s, d, earlier, nodes, i, after, n, link);
    }
  }

  lemma VisitDone(s: Survey, d: Dir, earlier: map<Dir, Node>, nodes: map<Dir, Node>)
    requires DependenciesOf(s.disk, d).Some? && Visiting(s, d, earlier, nodes, |DependenciesOf(s.disk, d).value|)
    ensures Grown(s, d, earlier, nodes)
  {
    var deps := DependenciesOf(s.disk, d).value;
    assert deps[..|deps|] == deps;
    SelfReachable(s.disk, d);
  }

  lemma VisitStart(s: Survey, d: Dir, earlier: map<Dir, Node>)
    requires Sound(s, earlier) && d !in earlier && s.Plannable(d)
    ensures var nodes := earlier[d := Node(s.Key(d), [])];
      Sound(s, nodes) && Extends(earlier, nodes) && Visiting(s, d, earlier, nodes, 0)
  {
    assert s.Keyed([]) == [];
    assert DependenciesOf(s.disk, d).value[..0] == [];
  }

  lemma PushKeeps(s: Survey, d: Dir, earlier: map<Dir, Node>, nodes: map<Dir, Node>, after: map<Dir, Node>, link: (string, string))
    requires Extends(earlier, nodes) && Extends(nodes, after) && Sound(s, after) && d in nodes && d !in earlier
    ensures Extends(earlier, after) && Extends(earlier, Push(after, d, link)) && Sound(s, Push(after, d, link))
    ensures Push(after, d, link).Keys == after.Keys
  {
  }

  class ClosurePlanner {
    const survey: Survey
    var nodeByRoot: map<Dir, Node>
    var order: seq<Dir>    // the insertion order of nodeByRoot

    constructor (survey: Survey)
      ensures this.survey == survey && nodeByRoot == map[] && order == []
    {
      this.survey, nodeByRoot, order := survey, map[], [];
    }

    ghost predicate Valid()
      reads this
    {
      WellFormed(survey.disk) && Sound(survey, nodeByRoot) && forall d :: d in order <==> d in nodeByRoot
    }

    /** Depth first; the node is registered before descending, so a cycle ends at it. */
    method Visit(d: Dir) returns (ok: bool)
      requires Valid()
      modifies this
      ensures Valid() && Extends(old(nodeByRoot), nodeByRoot)
      ensures ok ==> Grown(survey, d, old(nodeByRoot), nodeByRoot)
      ensures !ok ==> exists n :: Reachable(survey.disk, d, n) && !survey.Plannable(n)
      decreases survey.disk.manifests.Keys - nodeByRoot.Keys
    {
      if d in nodeByRoot { return true; }
      if !survey.Plannable(d) {
        SelfReachable(survey.disk, d);
        return false;
      }
      ghost var before := nodeByRoot;
      VisitStart(survey, d, before);
      var deps := DependenciesOf(survey.disk, d).value;
      nodeByRoot := nodeByRoot[d := Node(survey.Key(d), [])];
      order := order + [d];
      for i := 0 to |deps|
        invariant Valid() && Extends(before, nodeByRoot) && Visiting(survey, d, before, nodeByRoot, i)
      {
        ghost var current := nodeByRoot;
        ok := Visit(deps[i].1);
        PushKeeps(survey, d, before, current, nodeByRoot, (deps[i].0, survey.Key(deps[i].1)));
        if !ok {
          ghost var n :| Reachable(survey.disk, deps[i].1, n) && !survey.Plannable(n);
          ChildReachable(survey.disk, d, i, n);
          return;
        }
        VisitNext(survey, d, before, current, i, nodeByRoot);
        nodeByRoot := Push(nodeByRoot, d, (deps[i].0, nodeByRoot[deps[i].1].key));
      }
      VisitDone(survey, d, before, nodeByRoot);
      ok := true;
    }
  }

  // ----- what the walk finds -----

  ghost predicate AllPlannable(s: Survey) {
    forall n :: Reachable(s.disk, s.source, n) ==> s.Plannable(n)
  }

  lemma {:induction false} WalkIsClosed(s: Survey, nodes: map<Dir, Node>, d: Dir, path: seq<string>)
    requires d in nodes && forall n {:trigger Complete(s, nodes, n)} :: n in nodes ==> Complete(s, nodes, n)
    ensures var n := Follow(s.disk, d, path); n.Some? ==> n.value in nodes
    decreases |path|
  {
    if path != [] {
      assert Complete(s, nodes, d);
      var deps := DependenciesOf(s.disk, d).value;
      LookupIn(deps, path[0]);
      if Lookup(deps, path[0]).Some? { WalkIsClosed(s, nodes, Lookup(deps, path[0]).value, path[1..]); }
    }
  }

  /** The walk finds exactly the packages reachable from the served one, and succeeds exactly when all of them can be planned. */
  method Plan(s: Survey) returns (ok: bool, nodes: map<Dir, Node>, order: seq<Dir>)
    requires WellFormed(s.disk)
    ensures ok <==> AllPlannable(s)
    ensures ok ==> forall n :: n in nodes <==> Reachable(s.disk, s.source, n)
    ensures ok ==> forall n :: n in nodes ==> nodes[n] == Node(s.Key(n), s.Links(n))
    ensures forall n :: n in order <==> n in nodes
  {
    var planner := new ClosurePlanner(s);
    ok := planner.Visit(s.source);
    nodes, order := planner.nodeByRoot, planner.order;
    if ok {
      forall n | n in nodes ensures nodes[n] == Node(s.Key(n), s.Links(n)) && Reachable(s.disk, s.source, n) {
        assert Complete(s, nodes, n);
      }
      forall n | Reachable(s.disk, s.source, n) ensures n in nodes {
        var path :| Follow(s.disk, s.source, path) == Some(n);
        WalkIsClosed(s, nodes, s.source, path);
      }
    }
  }

  // ----- copying -----

  datatype Copy = Copy(from: Dir, links: seq<(string, string)>)
  datatype Generation = Generation(top: seq<(string, string)>, copies: map<string, Copy>)

  /** A package that is copied: reachable, and not the served package itself. */
  ghost predicate Copied(s: Survey, n: Dir) {
    n != s.source && Reachable(s.disk, s.source, n)
  }

  /** Two packages that share a key link the same children. */
  ghost predicate Unambiguous(s: Survey) {
    forall m, n :: Copied(s, m) && Copied(s, n) && s.Key(m) == s.Key(n) ==> s.Links(m) == s.Links(n)
  }

  ghost predicate IsCopy(s: Survey, key: string, copy: Copy) {
    Copied(s, copy.from) && s.Key(copy.from) == key && copy.links == s.Links(copy.from)
  }

  ghost predicate IsGeneration(s: Survey, g: Generation) {
    && g.top == s.Links(s.source)
    && (forall k :: k in g.copies ==> IsCopy(s, k, g.copies[k]))
    && forall n :: Copied(s, n) ==> s.Key(n) in g.copies && g.copies[s.Key(n)].links == s.Links(n)
  }

  /** The packages seen so far, one copy for each key. */
  ghost predicate Collapsed(s: Survey, seen: seq<Dir>, byKey: map<string, Copy>) {
    && (forall k :: k in byKey ==> IsCopy(s, k, byKey[k]))
    && forall j :: 0 <= j < |seen| && seen[j] != s.source ==> s.Key(seen[j]) in byKey && byKey[s.Key(seen[j])].links == s.Links(seen[j])
  }

  lemma CollapsedMore(s: Survey, order: seq<Dir>, i: nat, byKey: map<string, Copy>, next: map<string, Copy>)
    requires i < |order| && Collapsed(s, order[..i], byKey) && Reachable(s.disk, s.source, order[i])
    requires if order[i] == s.source || s.Key(order[i]) in byKey then next == byKey else next == byKey[s.Key(order[i]) := Copy(order[i], s.Links(order[i]))]
    requires order[i] != s.source ==> next[s.Key(order[i])].links == s.Links(order[i])
    ensures Collapsed(s, order[..i + 1], next)
  {
    var seen := order[..i + 1];
    forall k | k in next ensures IsCopy(s, k, next[k]) {
      if k in byKey { assert IsCopy(s, k, byKey[k]) && next[k] == byKey[k]; }
    }
    forall j | 0 <= j < |seen| && seen[j] != s.source ensures s.Key(seen[j]) in next && next[s.Key(seen[j])].links == s.Links(seen[j]) {
      if j < i {
        assert order[..i][j] == seen[j];
      } else {
        assert seen[j] == order[i];
      }
    }
  }

  lemma AmbiguityFound(s: Survey, order: seq<Dir>, i: nat, byKey: map<string, Copy>)
    requires i < |order| && Collapsed(s, order[..i], byKey) && Copied(s, order[i])
    requires s.Key(order[i]) in byKey && byKey[s.Key(order[i])].links != s.Links(order[i])
    ensures !Unambiguous(s)
  {
    assert IsCopy(s, s.Key(order[i]), byKey[s.Key(order[i])]);
  }

  lemma CollapsedIsGeneration(s: Survey, order: seq<Dir>, byKey: map<string, Copy>)
    requires Collapsed(s, order, byKey) && forall n :: n in order <==> Reachable(s.disk, s.source, n)
    ensures IsGeneration(s, Generation(s.Links(s.source), byKey)) && Unambiguous(s)
  {
    forall n | Copied(s, n) ensures s.Key(n) in byKey && byKey[s.Key(n)].links == s.Links(n) {
      assert n in order;
    }
  }

  method CopyDependencyClosure(s: Survey) returns (g: Option<Generation>)
    requires WellFormed(s.disk)
    ensures g.Some? <==> AllPlannable(s) && Unambiguous(s)
    ensures g.Some? ==> IsGeneration(s, g.value)
  {
    var ok, nodes, order := Plan(s);
    if !ok { return None; }
    SelfReachable(s.disk, s.source);
    var byKey: map<string, Copy> := map[];
    for i := 0 to |order|
      invariant Collapsed(s, order[..i], byKey)
    {
      var node := nodes[order[i]];
      ghost var before := byKey;
      if order[i] != s.source {
        if node.key !in byKey {
          byKey := byKey[node.key := Copy(order[i], node.links)];
        } else if byKey[node.key].links != node.links {
          AmbiguityFound(s, order, i, byKey);
          return None;
        }
      }
      CollapsedMore(s, order, i, before, byKey);
    }
    assert order[..|order|] == order;
    CollapsedIsGeneration(s, order, byKey);
    return Some(Generation(nodes[s.source].links, byKey));
  }

  // ----- what a key tells -----

  ghost predicate Injective(hash: Description -> string) {
    forall a, b :: hash(a) == hash(b) ==> a == b
  }

  predicate SameIdentity(a: Disk, d: Dir, b: Disk, e: Dir) {
    && d in a.manifests && e in b.manifests
    && a.manifests[d].name == b.manifests[e].name && a.manifests[d].version == b.manifests[e].version
  }

  /** Directory `e` of one disk holds the package that directory `d` of another does: name, version and content. */
  predicate SamePackage(a: Disk, d: Dir, b: Disk, e: Dir) {
    SameIdentity(a, d, b, e) && d in a.contents && e in b.contents && a.contents[d] == b.contents[e]
  }

  predicate SameNeighbours(a: Disk, da: seq<(string, Dir)>, b: Disk, db: seq<(string, Dir)>) {
    |da| == |db| && forall i :: 0 <= i < |da| ==> da[i].0 == db[i].0 && SameIdentity(a, da[i].1, b, db[i].1)
  }

  /** Under the same dependency names, in the same order, they find packages of the same names and versions. */
  predicate SameContext(a: Disk, d: Dir, b: Disk, e: Dir) {
    && DependenciesOf(a, d).Some? && DependenciesOf(b, e).Some?
    && SameNeighbours(a, DependenciesOf(a, d).value, b, DependenciesOf(b, e).value)
  }

  lemma ContextsAgree(a: Disk, da: seq<(string, Dir)>, b: Disk, db: seq<(string, Dir)>)
    requires forall i :: 0 <= i < |da| ==> HasIdentity(a, da[i].1)
    requires forall i :: 0 <= i < |db| ==> HasIdentity(b, db[i].1)
    ensures Context(a, da) == Context(b, db) <==> SameNeighbours(a, da, b, db)
  {
    var x, y := Context(a, da), Context(b, db);
    if x == y {
      assert |da| == |x| == |db|;
      forall i | 0 <= i < |da| ensures da[i].0 == db[i].0 && SameIdentity(a, da[i].1, b, db[i].1) {
        assert x[i] == y[i] && HasIdentity(a, da[i].1) && HasIdentity(b, db[i].1);
      }
    }
    if SameNeighbours(a, da, b, db) {
      forall i | 0 <= i < |da| ensures x[i] == y[i] {
        assert SameIdentity(a, da[i].1, b, db[i].1);
      }
    }
  }

  /**
   * The key is all there is to a package: two copied packages, of one install or of two, have equal keys exactly when
   * they agree in name, version, content, dependency names and the identities found under them.
   */
  lemma KeysTellPackagesApart(s: Survey, a: Dir, t: Survey, b: Dir)
    requires Injective(s.hash) && s.hash == t.hash
    requires s.Plannable(a) && a != s.source && t.Plannable(b) && b != t.source
    ensures s.Key(a) == t.Key(b) <==> SamePackage(s.disk, a, t.disk, b) && SameContext(s.disk, a, t.disk, b)
  {
    ContextsAgree(s.disk, DependenciesOf(s.disk, a).value, t.disk, DependenciesOf(t.disk, b).value);
    assert s.Key(a) == t.Key(b) <==> s.Describe(a) == t.Describe(b);
  }

  /** Following links inside a generation, from its top (None) or from a copied package's directory. */
  function FollowLinks(g: Generation, at: Option<string>, path: seq<string>): Option<Option<string>>
    decreases |path|
  {
    if path == [] then Some(at)
    else if at.Some? && at.value !in g.copies then None
    else
      var next := Lookup(if at.None? then g.top else g.copies[at.value].links, path[0]);
      if next.None? then None else FollowLinks(g, next, path[1..])
  }

  lemma {:induction false} KeyedLookup(s: Survey, deps: seq<(string, Dir)>, name: string)
    ensures Lookup(s.Keyed(deps), name) == var d := Lookup(deps, name); if d.None? then None else Some(s.Key(d.value))
  {
    if deps != [] {
      assert s.Keyed(deps)[1..] == s.Keyed(deps[1..]);
      KeyedLookup(s, deps[1..], name);
    }
  }

  /** No installed dependency link leads back to the served package. */
  ghost predicate NoLinkBack(s: Survey) {
    forall n, name :: Reachable(s.disk, s.source, n) ==> Follow(s.disk, n, [name]) != Some(s.source)
  }

  lemma NextReachable(s: Survey, n: Dir, name: string)
    requires Reachable(s.disk, s.source, n) && Follow(s.disk, n, [name]).Some?
    ensures Reachable(s.disk, s.source, Follow(s.disk, n, [name]).value)
  {
    var path :| Follow(s.disk, s.source, path) == Some(n);
    FollowAppend(s.disk, s.source, path, [name]);
  }

  function Place(s: Survey, d: Dir): Option<string> {
    if d == s.source then None else Some(s.Key(d))
  }

  lemma {:induction false} LinksMirror(s: Survey, g: Generation, d: Dir, path: seq<string>)
    requires IsGeneration(s, g) && NoLinkBack(s) && Reachable(s.disk, s.source, d)
    ensures FollowLinks(g, Place(s, d), path) ==
      var n := Follow(s.disk, d, path); if n.None? then None else Some(Place(s, n.value))
    decreases |path|
  {
    if path != [] {
      var deps := DependenciesOf(s.disk, d);
      KeyedLookup(s, if deps.Some? then deps.value else [], path[0]);
      var next := if deps.Some? then Lookup(deps.value, path[0]) else None;
      if next.Some? {
        assert [path[0]][1..] == [];
        assert Follow(s.disk, d, [path[0]]) == next;
        NextReachable(s, d, path[0]);
        LinksMirror(s, g, next.value, path[1..]);
      }
    }
  }

  /**
   * Following links: for every path of dependency names, of any length, cyclic or not, the links of the generation can
   * be followed exactly when the install resolves the path, and they end at the key of the package it resolves to.
   */
  lemma LinksPreserveResolution(s: Survey, g: Generation, path: seq<string>)
    requires IsGeneration(s, g) && NoLinkBack(s) && path != []
    ensures var n := Follow(s.disk, s.source, path);
      var r := FollowLinks(g, None, path);
      && (n.Some? <==> r.Some?)
      && (n.Some? ==> r.value == Some(s.Key(n.value)) && s.Key(n.value) in g.copies)
  {
    SelfReachable(s.disk, s.source);
    LinksMirror(s, g, s.source, path);
    var n := Follow(s.disk, s.source, path);
    if n.Some? {
      var init, last := path[..|path| - 1], path[|path| - 1];
      assert path == init + [last];
      FollowAppend(s.disk, s.source, init, [last]);
      var m := Follow(s.disk, s.source, init);
      if n.value == s.source { assert Reachable(s.disk, s.source, m.value); }
      assert Copied(s, n.value);
    }
  }

  lemma LinkTarget(s: Survey, g: Generation, n: Dir, i: nat)
    requires WellFormed(s.disk) && IsGeneration(s, g) && Reachable(s.disk, s.source, n) && i < |s.Links(n)|
    ensures var c := Follow(s.disk, n, [s.Links(n)[i].0]);
      c.Some? && s.Links(n)[i].1 == s.Key(c.value) && (c.value != s.source ==> s.Key(c.value) in g.copies)
  {
    var deps := DependenciesOf(s.disk, n).value;
    OneStep(s.disk, n, i);
    NextReachable(s, n, deps[i].0);
    if deps[i].1 != s.source { assert Copied(s, deps[i].1); }
  }

  /** Every link of a generation leads to a copied directory exactly when the links back, if any, meet a copy by their key. */
  lemma LinksAreClosedExactlyWithoutLinkBack(s: Survey, g: Generation)
    requires WellFormed(s.disk) && IsGeneration(s, g)
    ensures (forall n, i :: Reachable(s.disk, s.source, n) && 0 <= i < |s.Links(n)| ==> s.Links(n)[i].1 in g.copies)
      <==> NoLinkBack(s) || s.Key(s.source) in g.copies
  {
    if NoLinkBack(s) || s.Key(s.source) in g.copies {
      forall n, i | Reachable(s.disk, s.source, n) && 0 <= i < |s.Links(n)| ensures s.Links(n)[i].1 in g.copies {
        LinkTarget(s, g, n, i);
      }
    } else {
      var n, name :| Reachable(s.disk, s.source, n) && Follow(s.disk, n, [name]) == Some(s.source);
      var i := OneStepBack(s.disk, n, name);
      assert s.Links(n)[i].1 == s.Key(s.source);
    }
  }

  // ----- the generation on disk -----

  /** Where a generation is put: its own directory, and below it the directory of each key. */
  datatype Site = Site(generation: Dir) {
    function Modules(): Dir { generation + ["node_modules"] }
    function Store(): Dir { Modules() + [".dsh-closure"] }
    function Home(key: string): Dir { Store() + [key] }
    function At(place: Option<string>): Dir { if place.None? then generation else Home(place.value) }
  }

  lemma SitesDiffer(site: Site, a: string, b: string)
    ensures site.Home(a) == site.Home(b) ==> a == b
    ensures site.Home(a) != site.generation && site.Home(a) != site.Modules() && site.Home(a) != site.Store()
  {
    var g := |site.generation|;
    assert site.Home(a)[g + 2] == a && site.Home(b)[g + 2] == b;
  }

  /** A link resolves to its target's directory if that has been copied, and dangles otherwise. */
  function LinkTo(g: Generation, site: Site, links: seq<(string, string)>, name: string): Option<Dir> {
    var key := Lookup(links, name);
    if key.Some? && key.value in g.copies then Some(site.Home(key.value)) else None
  }

  function Entry(disk: Disk, d: Dir, name: string): Option<Dir> {
    if (d, name) in disk.modules then Some(disk.modules[(d, name)]) else None
  }

  /** Directory `d` of the disk is exactly what the links make of it. */
  ghost predicate Linked(disk: Disk, g: Generation, site: Site, d: Dir, links: seq<(string, string)>) {
    forall name :: Entry(disk, d, name) == LinkTo(g, site, links, name)
  }

  /** A directory of the generation: manifest and content of the package it stands for, and that package's links. */
  ghost predicate StandsFor(s: Survey, g: Generation, site: Site, disk: Disk, d: Dir, package: Dir, links: seq<(string, string)>) {
    && package in s.disk.manifests && d in disk.manifests && disk.manifests[d] == s.disk.manifests[package]
    && (package in s.disk.contents ==> d in disk.contents && disk.contents[d] == s.disk.contents[package])
    && Linked(disk, g, site, d, links)
  }

  ghost predicate CopiesLaid(s: Survey, g: Generation, site: Site, disk: Disk, keys: set<string>) {
    forall k :: k in keys && k in g.copies ==> StandsFor(s, g, site, disk, site.Home(k), g.copies[k].from, g.copies[k].links)
  }

  /** The generation as it lies on disk; the directories above it may hold anything. */
  ghost predicate Laid(s: Survey, g: Generation, site: Site, disk: Disk) {
    && StandsFor(s, g, site, disk, site.generation, s.source, g.top)
    && CopiesLaid(s, g, site, disk, g.copies.Keys)
    && forall name :: Entry(disk, site.Modules(), name) == None && Entry(disk, site.Store(), name) == None
  }

  /** Links the modules of one directory, in order. */
  method Link(start: Disk, g: Generation, site: Site, d: Dir, links: seq<(string, string)>) returns (disk: Disk)
    requires DistinctNames(links) && forall name :: Entry(start, d, name) == None
    ensures Linked(disk, g, site, d, links) && disk.manifests == start.manifests && disk.contents == start.contents
    ensures forall e, name :: e != d ==> Entry(disk, e, name) == Entry(start, e, name)
  {
    disk := start;
    for i := 0 to |links|
      invariant disk.manifests == start.manifests && disk.contents == start.contents
      invariant forall name :: Entry(disk, d, name) == LinkTo(g, site, links[..i], name)
      invariant forall e, name :: e != d ==> Entry(disk, e, name) == Entry(start, e, name)
    {
      var (name, key) := links[i];
      ghost var before := disk;
      if key in g.copies { disk := disk.(modules := disk.modules[(d, name) := site.Home(key)]); }
      forall other ensures Entry(disk, d, other) == LinkTo(g, site, links[..i + 1], other) {
        LookupMore(links, i, other);
        assert Entry(before, d, other) == LinkTo(g, site, links[..i], other);
      }
      forall e, other | e != d ensures Entry(disk, e, other) == Entry(start, e, other) {
        assert Entry(before, e, other) == Entry(start, e, other);
      }
    }
    assert links[..|links|] == links;
  }

  lemma {:induction false} LookupMore(links: seq<(string, string)>, i: nat, name: string)
    requires i < |links| && DistinctNames(links)
    ensures Lookup(links[..i + 1], name) == if name == links[i].0 then Some(links[i].1) else Lookup(links[..i], name)
    ensures Lookup(links[..i], links[i].0) == None
    decreases i
  {
    if i == 0 {
      assert links[..1] == [links[0]] && [links[0]][1..] == [] && links[..0] == [];
    } else {
      assert links[..i + 1][1..] == links[1..][..i] && links[..i][1..] == links[1..][..i - 1];
      assert DistinctNames(links[1..]);
      LookupMore(links[1..], i - 1, name);
    }
  }

  /** Nothing but directory `d` has changed. */
  ghost predicate OnlyAt(start: Disk, disk: Disk, d: Dir) {
    && (forall e, name :: e != d ==> Entry(disk, e, name) == Entry(start, e, name))
    && (forall e :: e != d && e in start.manifests ==> e in disk.manifests && disk.manifests[e] == start.manifests[e])
    && forall e :: e != d && e in start.contents ==> e in disk.contents && disk.contents[e] == start.contents[e]
  }

  /** One directory: the package is copied, then its links are written. */
  method WriteDirectory(s: Survey, g: Generation, site: Site, d: Dir, package: Dir, links: seq<(string, string)>, start: Disk) returns (disk: Disk)
    requires package in s.disk.manifests && DistinctNames(links) && forall name :: Entry(start, d, name) == None
    ensures StandsFor(s, g, site, disk, d, package, links) && OnlyAt(start, disk, d)
  {
    var contents := if package in s.disk.contents then start.contents[d := s.disk.contents[package]] else start.contents;
    var copied := start.(manifests := start.manifests[d := s.disk.manifests[package]], contents := contents);
    forall name ensures Entry(copied, d, name) == None { assert Entry(start, d, name) == None; }
    disk := Link(copied, g, site, d, links);
    forall e, name | e != d ensures Entry(disk, e, name) == Entry(start, e, name) { assert Entry(copied, e, name) == Entry(start, e, name); }
  }

  lemma OthersStay(s: Survey, g: Generation, site: Site, start: Disk, disk: Disk, d: Dir, e: Dir, package: Dir, links: seq<(string, string)>)
    requires OnlyAt(start, disk, d) && e != d && StandsFor(s, g, site, start, e, package, links)
    ensures StandsFor(s, g, site, disk, e, package, links)
  {
  }

  /** What is already laid while the copies of `rest` are still to be written. */
  ghost predicate Writing(s: Survey, g: Generation, site: Site, start: Disk, disk: Disk, rest: set<string>) {
    && StandsFor(s, g, site, disk, site.generation, s.source, g.top)
    && CopiesLaid(s, g, site, disk, g.copies.Keys - rest)
    && (forall k, name :: k in rest ==> Entry(disk, site.Home(k), name) == None)
    && (forall name :: Entry(disk, site.Modules(), name) == None && Entry(disk, site.Store(), name) == None)
    && forall d, name :: !(site.generation <= d) ==> Entry(disk, d, name) == Entry(start, d, name)
  }

  lemma WritingBegins(s: Survey, g: Generation, site: Site, start: Disk, disk: Disk)
    requires forall d, name :: site.generation <= d ==> Entry(start, d, name) == None
    requires OnlyAt(start, disk, site.generation) && StandsFor(s, g, site, disk, site.generation, s.source, g.top)
    ensures Writing(s, g, site, start, disk, g.copies.Keys)
  {
    SitesBelow(site);
    forall k, name ensures Entry(disk, site.Home(k), name) == None {
      assert Entry(disk, site.Home(k), name) == Entry(start, site.Home(k), name);
    }
  }

  lemma WritingFrame(s: Survey, g: Generation, site: Site, start: Disk, disk: Disk, next: Disk, rest: set<string>, key: string)
    requires Writing(s, g, site, start, disk, rest) && key in rest && OnlyAt(disk, next, site.Home(key))
    ensures forall k, name :: k in rest && k != key ==> Entry(next, site.Home(k), name) == None
    ensures forall name :: Entry(next, site.Modules(), name) == None && Entry(next, site.Store(), name) == None
    ensures forall d, name :: !(site.generation <= d) ==> Entry(next, d, name) == Entry(start, d, name)
  {
    SitesBelow(site);
    forall k, name | k in rest && k != key ensures Entry(next, site.Home(k), name) == None {
      assert Entry(next, site.Home(k), name) == Entry(disk, site.Home(k), name);
    }
    forall name ensures Entry(next, site.Modules(), name) == None && Entry(next, site.Store(), name) == None {
      assert Entry(disk, site.Modules(), name) == None && Entry(disk, site.Store(), name) == None;
    }
    forall d, name | !(site.generation <= d) ensures Entry(next, d, name) == Entry(start, d, name) {
      assert Entry(disk, d, name) == Entry(start, d, name);
    }
  }

  lemma WritingNext(s: Survey, g: Generation, site: Site, start: Disk, disk: Disk, next: Disk, rest: set<string>, key: string)
    requires Writing(s, g, site, start, disk, rest) && rest <= g.copies.Keys && key in rest && OnlyAt(disk, next, site.Home(key))
    requires StandsFor(s, g, site, next, site.Home(key), g.copies[key].from, g.copies[key].links)
    ensures Writing(s, g, site, start, next, rest - {key})
  {
    SitesBelow(site);
    WritingFrame(s, g, site, start, disk, next, rest, key);
    OthersStay(s, g, site, disk, next, site.Home(key), site.generation, s.source, g.top);
    forall k | k in g.copies.Keys - (rest - {key}) ensures StandsFor(s, g, site, next, site.Home(k), g.copies[k].from, g.copies[k].links) {
      if k != key { OthersStay(s, g, site, disk, next, site.Home(key), site.Home(k), g.copies[k].from, g.copies[k].links); }
    }
  }

  /** The rest of the copier: the served package's links and every copy with its own, below a directory that was empty. */
  method WriteGeneration(s: Survey, g: Generation, site: Site, start: Disk) returns (disk: Disk)
    requires WellFormed(s.disk) && IsGeneration(s, g) && AllPlannable(s)
    requires forall d, name :: site.generation <= d ==> Entry(start, d, name) == None
    ensures Laid(s, g, site, disk)
    ensures forall d, name :: !(site.generation <= d) ==> Entry(disk, d, name) == Entry(start, d, name)
  {
    SelfReachable(s.disk, s.source);
    LinksAreDistinct(s, s.source);
    disk := WriteDirectory(s, g, site, site.generation, s.source, g.top, start);
    WritingBegins(s, g, site, start, disk);
    var rest := g.copies.Keys;
    while rest != {}
      invariant rest <= g.copies.Keys && Writing(s, g, site, start, disk, rest)
      decreases |rest|
    {
      var key :| key in rest;
      assert IsCopy(s, key, g.copies[key]);
      LinksAreDistinct(s, g.copies[key].from);
      ghost var before := disk;
      disk := WriteDirectory(s, g, site, site.Home(key), g.copies[key].from, g.copies[key].links, disk);
      WritingNext(s, g, site, start, before, disk, rest, key);
      rest := rest - {key};
    }
  }

  lemma SitesBelow(site: Site)
    ensures site.generation <= site.Modules() && site.generation <= site.Store()
    ensures forall a :: site.generation <= site.Home(a) && site.Home(a) != site.generation && site.Home(a) != site.Modules() && site.Home(a) != site.Store()
    ensures forall a, b :: site.Home(a) == site.Home(b) ==> a == b
  {
    forall a, b ensures (site.Home(a) == site.Home(b) ==> a == b) && site.Home(a) != site.generation && site.Home(a) != site.Modules() && site.Home(a) != site.Store() {
      SitesDiffer(site, a, b);
    }
  }

  lemma LinksAreDistinct(s: Survey, d: Dir)
    requires WellFormed(s.disk)
    ensures DistinctNames(s.Links(d))
  {
    var deps := DependenciesOf(s.disk, d);
    if deps.Some? { ResolveAllNames(s.disk, d, s.disk.manifests[d].names, s.disk.manifests[d].optional); }
  }

  // ----- resolution inside the generation -----

  lemma {:induction false} LookupResolved(disk: Disk, from: Dir, names: seq<string>, optional: set<string>, x: string)
    requires ResolveAll(disk, from, names, optional).Some?
    ensures Lookup(ResolveAll(disk, from, names, optional).value, x) == if x in names then Resolve(disk, from, x) else None
    decreases |names|
  {
    if names != [] {
      LookupResolved(disk, from, names[1..], optional, x);
      var target, rest := Resolve(disk, from, names[0]), ResolveAll(disk, from, names[1..], optional).value;
      if target.Some? {
        assert ([(names[0], target.value)] + rest)[1..] == rest;
      } else {
        assert ResolveAll(disk, from, names, optional).value == rest;
      }
      assert x in names <==> x == names[0] || x in names[1..];
    }
  }

  /** What one directory can resolve completely, another that sees no less can. */
  lemma {:induction false} ResolvesAllToo(a: Disk, d: Dir, b: Disk, e: Dir, names: seq<string>, optional: set<string>)
    requires ResolveAll(a, d, names, optional).Some?
    requires forall x :: x in names && Resolve(a, d, x).Some? ==> Resolve(b, e, x).Some?
    ensures ResolveAll(b, e, names, optional).Some?
    decreases |names|
  {
    if names != [] {
      assert forall x :: x in names[1..] ==> x in names;
      assert names[0] in names;
      ResolvesAllToo(a, d, b, e, names[1..], optional);
    }
  }

  /** A name a package lists and its install does not resolve: it is optional. */
  predicate Skips(s: Survey, m: Dir, x: string) {
    m in s.disk.manifests && x in s.disk.manifests[m].names && Resolve(s.disk, m, x) == None
  }

  /** The package whose bytes lie where `n` is looked for. */
  function Owner(s: Survey, g: Generation, n: Dir): Dir {
    if n == s.source || s.Key(n) !in g.copies then n else g.copies[s.Key(n)].from
  }

  lemma LinkedByName(s: Survey, m: Dir, x: string)
    requires DependenciesOf(s.disk, m).Some?
    ensures Lookup(s.Links(m), x) == if x in s.disk.manifests[m].names && Resolve(s.disk, m, x).Some? then Some(s.Key(Resolve(s.disk, m, x).value)) else None
    ensures Follow(s.disk, m, [x]) == if x in s.disk.manifests[m].names then Resolve(s.disk, m, x) else None
  {
    LookupResolved(s.disk, m, s.disk.manifests[m].names, s.disk.manifests[m].optional, x);
    KeyedLookup(s, DependenciesOf(s.disk, m).value, x);
    assert [x][1..] == [];
  }

  /** The owner is itself a reachable package, has the same links, and its manifest lies in the directory. */
  lemma OwnerStands(s: Survey, g: Generation, site: Site, disk: Disk, n: Dir)
    requires IsGeneration(s, g) && AllPlannable(s) && Laid(s, g, site, disk) && Reachable(s.disk, s.source, n)
    ensures var m := Owner(s, g, n);
      && Reachable(s.disk, s.source, m) && s.Plannable(m) && s.Links(m) == s.Links(n)
      && StandsFor(s, g, site, disk, site.At(Place(s, n)), m, s.Links(n))
  {
    SelfReachable(s.disk, s.source);
    if n != s.source {
      assert Copied(s, n);
      assert IsCopy(s, s.Key(n), g.copies[s.Key(n)]);
    }
  }

  /** The targets of links have been copied: nothing links back. */
  lemma TargetIsCopied(s: Survey, g: Generation, m: Dir, x: string)
    requires IsGeneration(s, g) && NoLinkBack(s) && Reachable(s.disk, s.source, m) && DependenciesOf(s.disk, m).Some?
    requires x in s.disk.manifests[m].names && Resolve(s.disk, m, x).Some?
    ensures var c := Resolve(s.disk, m, x).value;
      Copied(s, c) && s.Key(c) in g.copies
  {
    LinkedByName(s, m, x);
    NextReachable(s, m, x);
  }

  /** What a laid directory resolves: every linked name to its copy, and a skipped name to whatever shows through from above. */
  lemma LaidDependencies(s: Survey, g: Generation, site: Site, disk: Disk, n: Dir, x: string)
    requires IsGeneration(s, g) && NoLinkBack(s) && AllPlannable(s) && Laid(s, g, site, disk) && Reachable(s.disk, s.source, n)
    ensures var d := site.At(Place(s, n));
      var deps := DependenciesOf(disk, d);
      var c := Follow(s.disk, n, [x]);
      && deps.Some?
      && Lookup(deps.value, x) ==
           if c.Some? then Some(site.Home(s.Key(c.value))) else if Skips(s, Owner(s, g, n), x) then Resolve(disk, d, x) else None
  {
    var d, m := site.At(Place(s, n)), Owner(s, g, n);
    OwnerStands(s, g, site, disk, n);
    var names, optional := s.disk.manifests[m].names, s.disk.manifests[m].optional;
    forall y | y in names && Resolve(s.disk, m, y).Some? ensures Resolve(disk, d, y) == Some(site.Home(s.Key(Resolve(s.disk, m, y).value))) {
      TargetIsCopied(s, g, m, y);
      LinkedByName(s, m, y);
      assert Entry(disk, d, y) == LinkTo(g, site, s.Links(n), y);
    }
    ResolvesAllToo(s.disk, m, disk, d, names, optional);
    LookupResolved(disk, d, names, optional, x);
    LinkedByName(s, m, x);
    LinkedByName(s, n, x);
  }

  lemma {:induction false} LaidFollows(s: Survey, g: Generation, site: Site, disk: Disk, n: Dir, path: seq<string>)
    requires IsGeneration(s, g) && NoLinkBack(s) && AllPlannable(s) && Laid(s, g, site, disk) && Reachable(s.disk, s.source, n)
    requires Follow(s.disk, n, path).Some?
    ensures Follow(disk, site.At(Place(s, n)), path) == Some(site.At(Place(s, Follow(s.disk, n, path).value)))
    decreases |path|
  {
    if path != [] {
      LaidDependencies(s, g, site, disk, n, path[0]);
      assert [path[0]][1..] == [];
      var c := Follow(s.disk, n, [path[0]]).value;
      NextReachable(s, n, path[0]);
      LaidFollows(s, g, site, disk, c, path[1..]);
    }
  }

  /**
   * For every path of dependency names, of any length, cyclic or not: what the install resolves it to, by walking up
   * `node_modules` at every step, the generation resolves by the same walk to the directory of that package's key - also
   * after packages with equal keys have been collapsed into one directory. What lies there is that package: its name, its
   * version and its content.
   */
  lemma CopyPreservesResolution(s: Survey, g: Generation, site: Site, disk: Disk, path: seq<string>)
    requires IsGeneration(s, g) && NoLinkBack(s) && AllPlannable(s) && Laid(s, g, site, disk)
    requires path != [] && Follow(s.disk, s.source, path).Some?
    ensures var n := Follow(s.disk, s.source, path).value;
      && Follow(disk, site.generation, path) == Some(site.Home(s.Key(n)))
      && (Injective(s.hash) ==> SamePackage(s.disk, n, disk, site.Home(s.Key(n))))
  {
    SelfReachable(s.disk, s.source);
    LaidFollows(s, g, site, disk, s.source, path);
    LinksPreserveResolution(s, g, path);
    NotBack(s, path);
    var n := Follow(s.disk, s.source, path).value;
    assert Copied(s, n) && IsCopy(s, s.Key(n), g.copies[s.Key(n)]);
    if Injective(s.hash) { KeysTellPackagesApart(s, n, s, g.copies[s.Key(n)].from); }
  }

  // ----- what else the generation resolves -----

  /** What the directories above the generation make of a name. */
  function Above(disk: Disk, site: Site, x: string): Option<Dir> {
    var g := site.generation;
    if g == [] then None else Resolve(disk, g[..|g| - 1], x)
  }

  /** No skipped name is found above its copy: neither among the top links nor above the generation. */
  ghost predicate NothingShowsThrough(s: Survey, g: Generation, site: Site, disk: Disk) {
    && (forall x :: Skips(s, s.source, x) ==> Above(disk, site, x) == None)
    && forall k, x :: k in g.copies && Skips(s, g.copies[k].from, x) ==> LinkTo(g, site, g.top, x) == None && Above(disk, site, x) == None
  }

  /** A name that a directory of the generation does not link resolves to the top link, or else to what is above. */
  lemma WalkUp(s: Survey, g: Generation, site: Site, disk: Disk, k: string, x: string)
    requires Laid(s, g, site, disk)
    ensures Resolve(disk, site.generation, x) == if LinkTo(g, site, g.top, x).Some? then LinkTo(g, site, g.top, x) else Above(disk, site, x)
    ensures Entry(disk, site.Home(k), x) == None ==> Resolve(disk, site.Home(k), x) == Resolve(disk, site.generation, x)
  {
    assert Entry(disk, site.generation, x) == LinkTo(g, site, g.top, x);
    assert Entry(disk, site.Modules(), x) == None && Entry(disk, site.Store(), x) == None;
    var h, store, modules := site.Home(k), site.Store(), site.Modules();
    assert h[..|h| - 1] == store && store[..|store| - 1] == modules && modules[..|modules| - 1] == site.generation;
    assert Entry(disk, h, x) == None ==> Resolve(disk, h, x) == Resolve(disk, store, x);
    assert Resolve(disk, store, x) == Resolve(disk, modules, x);
  }

  lemma SkippedResolves(s: Survey, g: Generation, site: Site, disk: Disk, n: Dir, x: string)
    requires IsGeneration(s, g) && NoLinkBack(s) && AllPlannable(s) && Laid(s, g, site, disk) && Reachable(s.disk, s.source, n)
    requires Skips(s, Owner(s, g, n), x)
    ensures Follow(s.disk, n, [x]) == None
    ensures Resolve(disk, site.At(Place(s, n)), x) ==
              if n != s.source && LinkTo(g, site, g.top, x).Some? then LinkTo(g, site, g.top, x) else Above(disk, site, x)
  {
    var m := Owner(s, g, n);
    OwnerStands(s, g, site, disk, n);
    LinkedByName(s, m, x);
    LinkedByName(s, n, x);
    WalkUp(s, g, site, disk, s.Key(n), x);
    assert Entry(disk, site.At(Place(s, n)), x) == LinkTo(g, site, s.Links(n), x) == None;
    if n == s.source { assert LinkTo(g, site, g.top, x) == None; }
  }

  lemma {:induction false} NothingMore(s: Survey, g: Generation, site: Site, disk: Disk, n: Dir, path: seq<string>)
    requires IsGeneration(s, g) && NoLinkBack(s) && AllPlannable(s) && Laid(s, g, site, disk) && Reachable(s.disk, s.source, n)
    requires NothingShowsThrough(s, g, site, disk) && Follow(disk, site.At(Place(s, n)), path).Some?
    ensures Follow(s.disk, n, path).Some?
    decreases |path|
  {
    if path != [] {
      var x := path[0];
      LaidDependencies(s, g, site, disk, n, x);
      assert [x][1..] == [];
      if Skips(s, Owner(s, g, n), x) { SkippedResolves(s, g, site, disk, n, x); SkipShowsNothing(s, g, site, disk, n, x); }
      var c := Follow(s.disk, n, [x]).value;
      NextReachable(s, n, x);
      assert NotSource(s, n, x);
      NothingMore(s, g, site, disk, c, path[1..]);
    }
  }

  ghost predicate NotSource(s: Survey, n: Dir, x: string) {
    Follow(s.disk, n, [x]) != Some(s.source)
  }

  lemma SkipShowsNothing(s: Survey, g: Generation, site: Site, disk: Disk, n: Dir, x: string)
    requires IsGeneration(s, g) && NothingShowsThrough(s, g, site, disk) && Reachable(s.disk, s.source, n) && Skips(s, Owner(s, g, n), x)
    ensures Above(disk, site, x) == None && (n != s.source ==> LinkTo(g, site, g.top, x) == None)
  {
    if n != s.source { assert Copied(s, n); }
  }

  lemma StepOn(disk: Disk, start: Dir, way: seq<string>, d: Dir, x: string)
    requires Follow(disk, start, way) == Some(d)
    ensures Follow(disk, start, way + [x]) == var deps := DependenciesOf(disk, d); if deps.Some? then Lookup(deps.value, x) else None
  {
    FollowAppend(disk, start, way, [x]);
    assert [x][1..] == [];
  }

  /** A way to a package whose owner skips a name that shows through: the generation goes one step further than the install. */
  lemma OneStepFurther(s: Survey, g: Generation, site: Site, disk: Disk, way: seq<string>, n: Dir, x: string)
    requires IsGeneration(s, g) && NoLinkBack(s) && AllPlannable(s) && Laid(s, g, site, disk) && Follow(s.disk, s.source, way) == Some(n)
    requires Skips(s, Owner(s, g, n), x) && Resolve(disk, site.At(Place(s, n)), x).Some?
    ensures Follow(disk, site.generation, way + [x]).Some? && Follow(s.disk, s.source, way + [x]) == None
  {
    SelfReachable(s.disk, s.source);
    LaidFollows(s, g, site, disk, s.source, way);
    assert Reachable(s.disk, s.source, n);
    SkippedResolves(s, g, site, disk, n, x);
    LaidDependencies(s, g, site, disk, n, x);
    StepOn(disk, site.generation, way, site.At(Place(s, n)), x);
    FollowAppend(s.disk, s.source, way, [x]);
  }

  lemma ShowsThrough(s: Survey, g: Generation, site: Site, disk: Disk, n: Dir, x: string) returns (path: seq<string>)
    requires IsGeneration(s, g) && NoLinkBack(s) && AllPlannable(s) && Laid(s, g, site, disk) && Reachable(s.disk, s.source, n)
    requires Skips(s, Owner(s, g, n), x) && Resolve(disk, site.At(Place(s, n)), x).Some?
    ensures Follow(disk, site.generation, path).Some? && Follow(s.disk, s.source, path) == None
  {
    var way :| Follow(s.disk, s.source, way) == Some(n);
    OneStepFurther(s, g, site, disk, way, n, x);
    path := way + [x];
  }

  lemma TopShows(s: Survey, g: Generation, site: Site, disk: Disk, x: string) returns (path: seq<string>)
    requires IsGeneration(s, g) && NoLinkBack(s) && AllPlannable(s) && Laid(s, g, site, disk)
    requires Skips(s, s.source, x) && Above(disk, site, x).Some?
    ensures Follow(disk, site.generation, path).Some? && Follow(s.disk, s.source, path) == None
  {
    SelfReachable(s.disk, s.source);
    SkippedResolves(s, g, site, disk, s.source, x);
    path := ShowsThrough(s, g, site, disk, s.source, x);
  }

  lemma CopyShows(s: Survey, g: Generation, site: Site, disk: Disk, k: string, x: string) returns (path: seq<string>)
    requires IsGeneration(s, g) && NoLinkBack(s) && AllPlannable(s) && Laid(s, g, site, disk)
    requires k in g.copies && Skips(s, g.copies[k].from, x) && (LinkTo(g, site, g.top, x).Some? || Above(disk, site, x).Some?)
    ensures Follow(disk, site.generation, path).Some? && Follow(s.disk, s.source, path) == None
  {
    assert IsCopy(s, k, g.copies[k]);
    SkippedResolves(s, g, site, disk, g.copies[k].from, x);
    path := ShowsThrough(s, g, site, disk, g.copies[k].from, x);
  }

  /** Where something shows through: at the served package (None) or at a copy. */
  lemma WhereItShows(s: Survey, g: Generation, site: Site, disk: Disk) returns (k: Option<string>, x: string)
    requires !NothingShowsThrough(s, g, site, disk)
    ensures if k.None? then Skips(s, s.source, x) && Above(disk, site, x).Some?
            else k.value in g.copies && Skips(s, g.copies[k.value].from, x) && (LinkTo(g, site, g.top, x).Some? || Above(disk, site, x).Some?)
  {
    if y :| Skips(s, s.source, y) && Above(disk, site, y) != None {
      k, x := None, y;
    } else {
      var c, y :| c in g.copies && Skips(s, g.copies[c].from, y) && !(LinkTo(g, site, g.top, y) == None && Above(disk, site, y) == None);
      k, x := Some(c), y;
    }
  }

  ghost predicate ResolvesNothingMore(s: Survey, site: Site, disk: Disk) {
    forall path :: Follow(disk, site.generation, path).Some? ==> Follow(s.disk, s.source, path).Some?
  }

  lemma ShowsMore(s: Survey, g: Generation, site: Site, disk: Disk, k: Option<string>, x: string)
    requires IsGeneration(s, g) && NoLinkBack(s) && AllPlannable(s) && Laid(s, g, site, disk)
    requires if k.None? then Skips(s, s.source, x) && Above(disk, site, x).Some?
             else k.value in g.copies && Skips(s, g.copies[k.value].from, x) && (LinkTo(g, site, g.top, x).Some? || Above(disk, site, x).Some?)
    ensures !ResolvesNothingMore(s, site, disk)
  {
    if k.None? {
      var path := TopShows(s, g, site, disk, x);
    } else {
      var path := CopyShows(s, g, site, disk, k.value, x);
    }
  }

  /**
   * The generation resolves no path that the install does not, exactly when no optional name that a package skipped is
   * found above its copy: as a top link of the generation, or in a directory above it.
   */
  lemma NothingMoreIsResolvedExactly(s: Survey, g: Generation, site: Site, disk: Disk)
    requires IsGeneration(s, g) && NoLinkBack(s) && AllPlannable(s) && Laid(s, g, site, disk)
    ensures ResolvesNothingMore(s, site, disk) <==> NothingShowsThrough(s, g, site, disk)
  {
    if NothingShowsThrough(s, g, site, disk) {
      SelfReachable(s.disk, s.source);
      forall path | Follow(disk, site.generation, path).Some? ensures Follow(s.disk, s.source, path).Some? {
        NothingMore(s, g, site, disk, s.source, path);
      }
    } else {
      var k, x := WhereItShows(s, g, site, disk);
      ShowsMore(s, g, site, disk, k, x);
    }
  }

  // An install in which a hoisted package skips an optional name that the served package has for itself.
  const APP: Dir := ["app"]
  const HOISTED: Dir := ["node_modules", "a"]
  const NESTED: Dir := ["app", "node_modules", "x"]

  function HoistedDisk(): Disk {
    Disk(
      map[(APP, "x") := NESTED, ([], "a") := HOISTED],
      map[APP := Manifest("app", "1", ["a", "x"], {}), HOISTED := Manifest("a", "1", ["x"], {"x"}), NESTED := Manifest("x", "1", [], {})],
      map[HOISTED := "a", NESTED := "x"])
  }

  lemma {:induction false} ResolveStays(disk: Disk, all: set<Dir>, from: Dir, x: string)
    requires forall p :: p in disk.modules ==> disk.modules[p] in all
    ensures Resolve(disk, from, x).Some? ==> Resolve(disk, from, x).value in all
  {
    if (from, x) !in disk.modules && from != [] { ResolveStays(disk, all, from[..|from| - 1], x); }
  }

  lemma {:induction false} FollowStays(disk: Disk, all: set<Dir>, d: Dir, path: seq<string>)
    requires d in all && forall p :: p in disk.modules ==> disk.modules[p] in all
    ensures Follow(disk, d, path).Some? ==> Follow(disk, d, path).value in all
    decreases |path|
  {
    if path != [] && DependenciesOf(disk, d).Some? {
      LookupResolved(disk, d, disk.manifests[d].names, disk.manifests[d].optional, path[0]);
      ResolveStays(disk, all, d, path[0]);
      var next := Lookup(DependenciesOf(disk, d).value, path[0]);
      if next.Some? { FollowStays(disk, all, next.value, path[1..]); }
    }
  }

  lemma HoistedResolves()
    ensures var d := HoistedDisk();
      && Resolve(d, APP, "a") == Some(HOISTED) && Resolve(d, APP, "x") == Some(NESTED) && Resolve(d, HOISTED, "x") == None
  {
    var d := HoistedDisk();
    assert APP[..0] == [] && HOISTED[..1] == ["node_modules"] && ["node_modules"][..0] == [];
    assert (APP, "x") in d.modules && ([], "a") in d.modules && (APP, "a") !in d.modules;
    assert (HOISTED, "x") !in d.modules && (["node_modules"], "x") !in d.modules && ([], "x") !in d.modules;
    assert Resolve(d, [], "x") == None;
    assert Resolve(d, ["node_modules"], "x") == None;
  }

  lemma HoistedDependencies()
    ensures var d := HoistedDisk();
      && DependenciesOf(d, APP) == Some([("a", HOISTED), ("x", NESTED)]) && DependenciesOf(d, HOISTED) == Some([]) && DependenciesOf(d, NESTED) == Some([])
  {
    var d := HoistedDisk();
    HoistedResolves();
    assert IsDependencyName("a") && IsDependencyName("x") by { assert IsToken("a") && IsToken("x"); }
    assert ["a", "x"][1..] == ["x"] && ["x"][1..] == [];
    assert ResolveAll(d, APP, [], {}) == Some([]) && ResolveAll(d, HOISTED, [], {"x"}) == Some([]);
    var x: seq<(string, Dir)> := [("x", NESTED)];
    assert x + [] == x && [("a", HOISTED)] + x == [("a", HOISTED), ("x", NESTED)];
    assert ResolveAll(d, APP, ["x"], {}) == Some(x);
    var none: seq<(string, Dir)> := [];
    assert none + none == none;
    assert ResolveAll(d, HOISTED, ["x"], {"x"}) == Some(none);
  }

  lemma HoistedHasNoLinkBack(hash: Description -> string)
    ensures NoLinkBack(Survey(HoistedDisk(), APP, hash))
  {
    var disk := HoistedDisk();
    forall n, name ensures Follow(disk, n, [name]) != Some(APP) {
      if DependenciesOf(disk, n).Some? {
        LookupResolved(disk, n, disk.manifests[n].names, disk.manifests[n].optional, name);
        ResolveStays(disk, {HOISTED, NESTED}, n, name);
        assert [name][1..] == [];
      }
    }
  }

  /** The hoisted install satisfies every assumption made above. */
  lemma HoistedIsPlannable(hash: Description -> string)
    ensures var s := Survey(HoistedDisk(), APP, hash);
      WellFormed(s.disk) && AllPlannable(s) && NoLinkBack(s)
  {
    var s := Survey(HoistedDisk(), APP, hash);
    HoistedDependencies();
    HoistedHasNoLinkBack(hash);
    assert s.Plannable(APP) && s.Plannable(HOISTED) && s.Plannable(NESTED);
    forall n | Reachable(s.disk, APP, n) ensures s.Plannable(n) {
      var path :| Follow(s.disk, APP, path) == Some(n);
      FollowStays(s.disk, {APP, HOISTED, NESTED}, APP, path);
    }
  }

  /** On the given way lies `m`, which skips the optional `x`; the served package has resolved an `x` of its own to `c`. */
  ghost predicate HidesOptional(s: Survey, way: seq<string>, m: Dir, x: string, c: Dir) {
    && WellFormed(s.disk) && AllPlannable(s) && NoLinkBack(s)
    && Follow(s.disk, s.source, way) == Some(m) && m != s.source && Follow(s.disk, m, [x]) == None && Skips(s, m, x)
    && Lookup(s.Links(s.source), x) == Some(s.Key(c)) && Copied(s, c)
  }

  lemma HoistedHidesOptional(hash: Description -> string)
    ensures HidesOptional(Survey(HoistedDisk(), APP, hash), ["a"], HOISTED, "x", NESTED)
  {
    var s := Survey(HoistedDisk(), APP, hash);
    HoistedIsPlannable(hash);
    HoistedResolves();
    HoistedDependencies();
    LinkedByName(s, APP, "a");
    LinkedByName(s, APP, "x");
    LinkedByName(s, HOISTED, "x");
    assert Follow(s.disk, APP, ["x"]) == Some(NESTED);
  }

  /** The copy of a package that skipped `x` finds the `x` that the served package has. */
  lemma FindsTopLink(s: Survey, g: Generation, site: Site, disk: Disk, k: string, way: seq<string>, m: Dir, x: string, c: Dir)
    requires HidesOptional(s, way, m, x, c) && IsGeneration(s, g) && Laid(s, g, site, disk)
    requires k in g.copies && g.copies[k].from == m
    ensures Follow(disk, site.generation, way + [x]).Some? && Follow(s.disk, s.source, way + [x]) == None
  {
    assert IsCopy(s, k, g.copies[k]);
    assert LinkTo(g, site, g.top, x).Some?;
    SkippedResolves(s, g, site, disk, m, x);
    OneStepFurther(s, g, site, disk, way, m, x);
  }

  /** In the install `a` does not find `x`; in every generation laid from it, wherever it is put, the copy of `a` does. */
  lemma HoistedPackageFindsMore(s: Survey, g: Generation, site: Site, disk: Disk, k: string)
    requires s == Survey(HoistedDisk(), APP, s.hash)
    requires IsGeneration(s, g) && Laid(s, g, site, disk) && k in g.copies && g.copies[k].from == HOISTED
    ensures Follow(s.disk, APP, ["a"] + ["x"]) == None
    ensures Follow(disk, site.generation, ["a"] + ["x"]).Some?
  {
    HoistedHidesOptional(s.hash);
    FindsTopLink(s, g, site, disk, k, ["a"], HOISTED, "x", NESTED);
  }

  // ----- identity -----

  /** What `closureIdentity` hashes: the sorted set of keys and the sorted top links. */
  datatype Identity = Identity(keys: set<string>, topLinks: multiset<(string, string)>)

  ghost predicate IsIdentity(s: Survey, id: Identity) {
    && id.topLinks == multiset(s.Links(s.source))
    && forall k :: k in id.keys <==> exists n :: Copied(s, n) && s.Key(n) == k
  }

  method ClosureIdentity(s: Survey) returns (id: Option<Identity>)
    requires WellFormed(s.disk)
    ensures id.Some? <==> AllPlannable(s)
    ensures id.Some? ==> IsIdentity(s, id.value)
  {
    var ok, nodes, order := Plan(s);
    if !ok { return None; }
    SelfReachable(s.disk, s.source);
    var keys := set n | n in nodes && n != s.source :: nodes[n].key;
    return Some(Identity(keys, multiset(nodes[s.source].links)));
  }

  /** Two packages look alike: same name, version, content and dependency names, and dependencies that are related again. */
  ghost predicate Alike(s: Survey, t: Survey, related: set<(Dir, Dir)>, a: Dir, b: Dir) {
    && HasIdentity(s.disk, a) && HasIdentity(t.disk, b) && IdentityOf(s.disk, a) == IdentityOf(t.disk, b)
    && (a != s.source && b != t.source ==> a in s.disk.contents && b in t.disk.contents && s.disk.contents[a] == t.disk.contents[b])
    && DependenciesOf(s.disk, a).Some? && DependenciesOf(t.disk, b).Some?
    && var da, db := DependenciesOf(s.disk, a).value, DependenciesOf(t.disk, b).value;
    && |da| == |db|
    && forall i :: 0 <= i < |da| ==> da[i].0 == db[i].0 && (da[i].1, db[i].1) in related
  }

  ghost predicate Bisimulation(s: Survey, t: Survey, related: set<(Dir, Dir)>) {
    && (s.source, t.source) in related && s.hash == t.hash
    && forall a, b :: (a, b) in related ==> Alike(s, t, related, a, b)
  }

  lemma AlikeKeys(s: Survey, t: Survey, related: set<(Dir, Dir)>, a: Dir, b: Dir)
    requires Bisimulation(s, t, related) && (a, b) in related && (a == s.source <==> b == t.source)
    ensures s.Plannable(a) && t.Plannable(b) && s.Key(a) == t.Key(b)
  {
    var da, db := DependenciesOf(s.disk, a).value, DependenciesOf(t.disk, b).value;
    forall i | 0 <= i < |da|
      ensures HasIdentity(s.disk, da[i].1) && HasIdentity(t.disk, db[i].1) && IdentityOf(s.disk, da[i].1) == IdentityOf(t.disk, db[i].1)
    {
      assert (da[i].1, db[i].1) in related;
    }
    assert Context(s.disk, da) == Context(t.disk, db);
  }

  lemma {:induction false} AlikeLookup(s: Survey, t: Survey, related: set<(Dir, Dir)>, da: seq<(string, Dir)>, db: seq<(string, Dir)>, name: string)
    requires |da| == |db| && forall i :: 0 <= i < |da| ==> da[i].0 == db[i].0 && (da[i].1, db[i].1) in related
    ensures var x, y := Lookup(da, name), Lookup(db, name); (x.Some? <==> y.Some?) && (x.Some? ==> (x.value, y.value) in related)
  {
    if da != [] { AlikeLookup(s, t, related, da[1..], db[1..], name); }
  }

  lemma {:induction false} AlikePaths(s: Survey, t: Survey, related: set<(Dir, Dir)>, a: Dir, b: Dir, path: seq<string>)
    requires Bisimulation(s, t, related) && (a, b) in related
    ensures var x, y := Follow(s.disk, a, path), Follow(t.disk, b, path); (x.Some? <==> y.Some?) && (x.Some? ==> (x.value, y.value) in related)
    decreases |path|
  {
    if path != [] {
      var da, db := DependenciesOf(s.disk, a).value, DependenciesOf(t.disk, b).value;
      AlikeLookup(s, t, related, da, db, path[0]);
      if Lookup(da, path[0]).Some? {
        AlikePaths(s, t, related, Lookup(da, path[0]).value, Lookup(db, path[0]).value, path[1..]);
      }
    }
  }

  lemma NotBack(s: Survey, path: seq<string>)
    requires NoLinkBack(s) && path != []
    ensures Follow(s.disk, s.source, path) != Some(s.source)
  {
    var init, last := path[..|path| - 1], path[|path| - 1];
    assert path == init + [last];
    FollowAppend(s.disk, s.source, init, [last]);
    var m := Follow(s.disk, s.source, init);
    if m.Some? { assert Reachable(s.disk, s.source, m.value); }
  }

  lemma AlikeAlong(s: Survey, t: Survey, related: set<(Dir, Dir)>, path: seq<string>)
    requires Bisimulation(s, t, related) && NoLinkBack(s) && NoLinkBack(t)
    ensures var x, y := Follow(s.disk, s.source, path), Follow(t.disk, t.source, path);
      && (x.Some? <==> y.Some?)
      && (x.Some? ==> s.Plannable(x.value) && t.Plannable(y.value) && s.Key(x.value) == t.Key(y.value)
                      && (x.value == s.source <==> y.value == t.source))
  {
    AlikePaths(s, t, related, s.source, t.source, path);
    var x, y := Follow(s.disk, s.source, path), Follow(t.disk, t.source, path);
    if x.Some? {
      if path != [] { NotBack(s, path); NotBack(t, path); }
      AlikeKeys(s, t, related, x.value, y.value);
    }
  }

  /** However copies are nested, hoisted or shared: bisimilar installs have the same closure identity. */
  lemma IdentityIgnoresLayout(s: Survey, t: Survey, related: set<(Dir, Dir)>, i: Identity, j: Identity)
    requires WellFormed(s.disk) && WellFormed(t.disk)
    requires Bisimulation(s, t, related) && NoLinkBack(s) && NoLinkBack(t) && IsIdentity(s, i) && IsIdentity(t, j)
    ensures AllPlannable(s) && AllPlannable(t) && i == j
  {
    forall n | Reachable(s.disk, s.source, n)
      ensures s.Plannable(n) && (Copied(s, n) ==> s.Key(n) in j.keys)
    {
      var path :| Follow(s.disk, s.source, path) == Some(n);
      AlikeAlong(s, t, related, path);
      assert Reachable(t.disk, t.source, Follow(t.disk, t.source, path).value);
    }
    forall m | Reachable(t.disk, t.source, m)
      ensures t.Plannable(m) && (Copied(t, m) ==> t.Key(m) in i.keys)
    {
      var path :| Follow(t.disk, t.source, path) == Some(m);
      AlikeAlong(s, t, related, path);
      assert Reachable(s.disk, s.source, Follow(s.disk, s.source, path).value);
    }
    TopLinksAlike(s, t, related);
  }

  lemma TopLinksAlike(s: Survey, t: Survey, related: set<(Dir, Dir)>)
    requires WellFormed(s.disk) && WellFormed(t.disk) && Bisimulation(s, t, related) && NoLinkBack(s) && NoLinkBack(t)
    ensures s.Links(s.source) == t.Links(t.source)
  {
    var da, db := DependenciesOf(s.disk, s.source).value, DependenciesOf(t.disk, t.source).value;
    forall k | 0 <= k < |da| ensures s.Links(s.source)[k] == t.Links(t.source)[k] {
      OneStep(s.disk, s.source, k);
      OneStep(t.disk, t.source, k);
      AlikeAlong(s, t, related, [da[k].0]);
    }
  }

  /** What one install copies, the other copies too. */
  ghost predicate CopiesIn(s: Survey, t: Survey) {
    forall n :: Copied(s, n) ==> exists m :: Copied(t, m) && SamePackage(s.disk, n, t.disk, m) && SameContext(s.disk, n, t.disk, m)
  }

  lemma KeysWithin(s: Survey, t: Survey, i: Identity, j: Identity)
    requires Injective(s.hash) && s.hash == t.hash && AllPlannable(s) && AllPlannable(t) && IsIdentity(s, i) && IsIdentity(t, j)
    ensures i.keys <= j.keys <==> CopiesIn(s, t)
  {
    if i.keys <= j.keys {
      forall n | Copied(s, n) ensures exists m :: Copied(t, m) && SamePackage(s.disk, n, t.disk, m) && SameContext(s.disk, n, t.disk, m) {
        assert s.Key(n) in i.keys;
        var m :| Copied(t, m) && t.Key(m) == s.Key(n);
        KeysTellPackagesApart(s, n, t, m);
      }
    }
    if CopiesIn(s, t) {
      forall k | k in i.keys ensures k in j.keys {
        var n :| Copied(s, n) && s.Key(n) == k;
        var m :| Copied(t, m) && SamePackage(s.disk, n, t.disk, m) && SameContext(s.disk, n, t.disk, m);
        KeysTellPackagesApart(s, n, t, m);
      }
    }
  }

  /** Two identities are equal exactly when the installs copy the same packages and link the same ones at the top. */
  lemma IdentityTellsInstallsApart(s: Survey, t: Survey, i: Identity, j: Identity)
    requires Injective(s.hash) && s.hash == t.hash && AllPlannable(s) && AllPlannable(t) && IsIdentity(s, i) && IsIdentity(t, j)
    ensures i == j <==> CopiesIn(s, t) && CopiesIn(t, s) && multiset(s.Links(s.source)) == multiset(t.Links(t.source))
  {
    KeysWithin(s, t, i, j);
    KeysWithin(t, s, j, i);
  }
}
