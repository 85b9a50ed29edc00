/**
 * The routing dispatcher's one-shot stage tokens: a formal first stage mints one, a workflow selection spends one. A dispatch
 * is two await-free segments around the provider's answer; other dispatches run in between.
 */
module StageTokens {
  import opened JsObject

  const TTL := 10 * 60_000

  datatype Token = Token(sessionId: string, expiresAt: int)

  /** A `Map` in insertion order. */
  type Store = Obj<string, Token>

  datatype Stage = ChangeNecessity | WorkflowSelection
  datatype Feature = Flag(value: bool) | Number(amount: real) | NotFinite | OtherValue

  /** A missing or empty token is `None`; a candidate without a string id is `None`. */
  datatype Request = Request(
    stage: Stage, sessionId: string, token: Option<string>, firstStageFormal: bool,
    features: seq<(string, Feature)>, candidates: Option<seq<Option<string>>>)

  /** What the change name and the directory lookups before the first segment came to. */
  datatype Change = NoChangeName | BadName | Unresolved(reason: string) | Recorded(schema: string) | NothingRecorded

  datatype Context = Context(change: Change, existingSchema: Option<string>, eligible: seq<string>)

  datatype Verdict = Unavailable(reason: string) | Existing(schema: string) | NeedsReview(reason: string) | Forwarded

  datatype Status = Selected | Review | NotAvailable
  datatype Reply = Reply(status: Status, candidateId: Option<string>, token: Option<string>)

  // ----- the store -----

  function Newest(s: Store, bound: nat): Store {
    if |s| > bound then s[|s| - bound..] else s
  }

  function AfterMint(s: Store, bound: nat, token: string, sessionId: string, now: int): Store {
    Newest(Put(s, token, Token(sessionId, now + TTL)), bound)
  }

  function AfterConsume(s: Store, token: string, sessionId: string, now: int): (Store, bool) {
    var record := Get(s, token);
    if record.None? then (s, false)
    else if record.value.expiresAt < now then (Remove(s, token), false)
    else if record.value.sessionId != sessionId then (s, false)
    else (Remove(s, token), true)
  }

  /** The store has the token, it is the session's own, and it has not expired. */
  predicate IsLiveTokenOf(s: Store, token: string, sessionId: string, now: int) {
    Get(s, token).Some? && Get(s, token).value.sessionId == sessionId && now <= Get(s, token).value.expiresAt
  }

  predicate AllowedName(name: string) {
    || name == "has-existing-change" || name == "has-official-schema" || name == "has-external-workflow"
    || name == "user-explicitly-selected" || name == "change-count" || name == "schema-count"
  }

  predicate AllowedFeature(f: (string, Feature)) {
    AllowedName(f.0) && (f.1.Flag? || (f.1.Number? && 0.0 <= f.1.amount <= 100.0))
  }

  function CandidatesOf(r: Request): seq<Option<string>> {
    if r.candidates.Some? then r.candidates.value else []
  }

  /** The vocabulary checks between spending the token and calling the registry. */
  function Screened(r: Request, c: Context): Verdict {
    if exists i :: 0 <= i < |r.features| && !AllowedFeature(r.features[i]) then NeedsReview("unknown-feature")
    else if |CandidatesOf(r)| > 32 then NeedsReview("too-many-candidates")
    else if exists i :: 0 <= i < |CandidatesOf(r)| && (CandidatesOf(r)[i].None? || CandidatesOf(r)[i].value !in c.eligible) then NeedsReview("ineligible-candidate")
    else Forwarded
  }

  /** An answer given without looking at tokens. */
  function Shortcut(c: Context): Option<Verdict> {
    match c.change
    case BadName => Some(Unavailable("invalid-change-name"))
    case Unresolved(reason) => Some(Unavailable(reason))
    case Recorded(schema) => Some(Existing(schema))
    case NothingRecorded => None
    case NoChangeName => if c.existingSchema.Some? then Some(Existing(c.existingSchema.value)) else None
  }

  function AfterBegin(s: Store, r: Request, c: Context, now: int): (Store, Verdict) {
    if Shortcut(c).Some? then (s, Shortcut(c).value)
    else if r.stage == ChangeNecessity then (s, Screened(r, c))
    else if !r.firstStageFormal || r.token.None? then (s, Unavailable("invalid-stage-token"))
    else
      var (next, ok) := AfterConsume(s, r.token.value, r.sessionId, now);
      (next, if ok then Screened(r, c) else Unavailable("invalid-stage-token"))
  }

  /** A selected answer must name an eligible candidate, or a first-stage outcome when no candidates were given. */
  predicate AcceptableId(r: Request, c: Context, id: string) {
    || id in c.eligible
    || (r.stage == ChangeNecessity && CandidatesOf(r) == [] && (id == "direct" || id == "formal-workflow"))
  }

  predicate MintsToken(r: Request, c: Context, reply: Reply) {
    && r.stage == ChangeNecessity && reply.status == Selected
    && reply.candidateId == Some("formal-workflow") && AcceptableId(r, c, "formal-workflow")
  }

  function Routed(r: Request, c: Context, reply: Reply, drawn: string): Reply {
    if reply.status == Selected && (reply.candidateId.None? || !AcceptableId(r, c, reply.candidateId.value)) then Reply(Review, None, None)
    else reply.(token := if MintsToken(r, c, reply) then Some(drawn) else None)
  }

  class RoutingDispatcher {
    const maxTokens: nat
    var tokens: Store

    constructor (maxTokens: nat)
      ensures this.maxTokens == (if maxTokens < 1 then 1 else maxTokens) && tokens == []
    {
      this.maxTokens := if maxTokens < 1 then 1 else maxTokens;
      tokens := [];
    }

    method StageToken(sessionId: string, token: string, now: int)
      modifies this
      ensures tokens == AfterMint(old(tokens), maxTokens, token, sessionId, now)
    {
      tokens := Put(tokens, token, Token(sessionId, now + TTL));
      ghost var all := tokens;
      while |tokens| > maxTokens
        invariant |tokens| <= |all| && tokens == all[|all| - |tokens|..]
        invariant |all| <= maxTokens ==> tokens == all
        invariant |all| > maxTokens ==> |tokens| >= maxTokens
      {
        tokens := tokens[1..];
      }
    }

    method ConsumeToken(token: string, sessionId: string, now: int) returns (ok: bool)
      modifies this
      ensures (tokens, ok) == AfterConsume(old(tokens), token, sessionId, now)
    {
      var record := Get(tokens, token);
      if record.None? { return false; }
      if record.value.expiresAt < now {
        tokens := Remove(tokens, token);
        return false;
      }
      if record.value.sessionId != sessionId { return false; }
      tokens := Remove(tokens, token);
      ok := true;
    }

    /** `dispatch` up to the call of the registry. */
    method Begin(r: Request, c: Context, now: int) returns (v: Verdict)
      modifies this
      ensures (tokens, v) == AfterBegin(old(tokens), r, c, now)
      ensures r.stage == WorkflowSelection && v == Forwarded ==>
                && r.token.Some? && IsLiveTokenOf(old(tokens), r.token.value, r.sessionId, now)
                && Get(tokens, r.token.value).None?
      ensures v == Forwarded ==> !exists i :: 0 <= i < |r.features| && !AllowedFeature(r.features[i])
    {
      match c.change {
        case BadName => return Unavailable("invalid-change-name");
        case Unresolved(reason) => return Unavailable(reason);
        case Recorded(schema) => return Existing(schema);
        case NothingRecorded =>
        case NoChangeName => if c.existingSchema.Some? { return Existing(c.existingSchema.value); }
      }
      if r.stage == WorkflowSelection {
        if !r.firstStageFormal || r.token.None? { return Unavailable("invalid-stage-token"); }
        RemoveIsPart(tokens, r.token.value);
        var ok := ConsumeToken(r.token.value, r.sessionId, now);
        GetIsPart(tokens, r.token.value);
        if !ok { return Unavailable("invalid-stage-token"); }
      }
      v := Screened(r, c);
    }

    /** The rest of `dispatch` once the registry has answered. */
    method Finish(r: Request, c: Context, reply: Reply, drawn: string, now: int) returns (routed: Reply)
      modifies this
      ensures routed == Routed(r, c, reply, drawn)
      ensures routed.token == (if routed.status == Selected && r.stage == ChangeNecessity && routed.candidateId == Some("formal-workflow") then Some(drawn) else None)
      ensures routed.status == Selected ==> routed.candidateId.Some? && AcceptableId(r, c, routed.candidateId.value)
      ensures tokens == if MintsToken(r, c, reply) then AfterMint(old(tokens), maxTokens, drawn, r.sessionId, now) else old(tokens)
    {
      if reply.status == Selected {
        if reply.candidateId.None? || !AcceptableId(r, c, reply.candidateId.value) { return Reply(Review, None, None); }
      }
      routed := reply.(token := None);
      if r.stage == ChangeNecessity && reply.status == Selected && reply.candidateId.value == "formal-workflow" {
        StageToken(r.sessionId, drawn, now);
        routed := routed.(token := Some(drawn));
      }
    }
  }

  // ----- what each operation comes to -----

  /** The change itself gives no answer: none is named and none recorded, or nothing is recorded for it. */
  predicate IsOpen(c: Context) {
    c.change.NothingRecorded? || (c.change.NoChangeName? && c.existingSchema.None?)
  }

  /** Known features within their ranges, and at most 32 candidates, all of them eligible. */
  predicate IsProper(r: Request, c: Context) {
    && (forall f :: f in r.features ==> AllowedName(f.0) && (f.1.Flag? || (f.1.Number? && 0.0 <= f.1.amount <= 100.0)))
    && (r.candidates.Some? ==> |r.candidates.value| <= 32 && forall id :: id in r.candidates.value ==> id.Some? && id.value in c.eligible)
  }

  /** The token a workflow selection shows is its own session's, and alive. */
  predicate IsPaidFor(s: Store, r: Request, now: int) {
    r.firstStageFormal && r.token.Some? && IsLiveTokenOf(s, r.token.value, r.sessionId, now)
  }

  /** Token `x` leaves the store: it is shown by a formal selection, and is the session's own or has expired. */
  predicate Leaves(s: Store, r: Request, c: Context, now: int, x: string) {
    && IsOpen(c) && r.stage == WorkflowSelection && r.firstStageFormal && r.token == Some(x)
    && Get(s, x).Some? && (Get(s, x).value.sessionId == r.sessionId || Get(s, x).value.expiresAt < now)
  }

  lemma {:induction false} GetRemove<K, V>(o: Obj<K, V>, k: K, x: K)
    ensures Get(Remove(o, k), x) == if x == k then None else Get(o, x)
  {
    if o != [] { GetRemove(o[1..], k, x); }
  }

  /** When a request reaches the provider, when an existing change answers, and which tokens are gone afterwards. */
  lemma BeginsExactly(s: Store, r: Request, c: Context, now: int)
    ensures var (next, v) := AfterBegin(s, r, c, now);
      && (v == Forwarded <==> IsOpen(c) && (r.stage == WorkflowSelection ==> IsPaidFor(s, r, now)) && IsProper(r, c))
      && (forall schema :: v == Existing(schema) <==> c.change == Recorded(schema) || (c.change.NoChangeName? && c.existingSchema == Some(schema)))
      && (IsOpen(c) && !v.Forwarded? ==> if r.stage == WorkflowSelection && !IsPaidFor(s, r, now) then v == Unavailable("invalid-stage-token") else v.NeedsReview?)
      && forall x :: Get(next, x) == if Leaves(s, r, c, now, x) then None else Get(s, x)
  {
    ScreensExactly(r, c);
    if r.token.Some? {
      forall x ensures Get(Remove(s, r.token.value), x) == if x == r.token.value then None else Get(s, x) { GetRemove(s, r.token.value, x); }
    }
  }

  lemma ScreensExactly(r: Request, c: Context)
    ensures Screened(r, c) == Forwarded <==> IsProper(r, c)
    ensures Screened(r, c).Forwarded? || Screened(r, c).NeedsReview?
  {
    var ids := CandidatesOf(r);
    assert (forall f :: f in r.features ==> AllowedFeature(f)) <==> forall i :: 0 <= i < |r.features| ==> AllowedFeature(r.features[i]);
    assert (forall id :: id in ids ==> id.Some? && id.value in c.eligible) <==> forall i :: 0 <= i < |ids| ==> ids[i].Some? && ids[i].value in c.eligible;
  }

  /** A new token goes last; the oldest ones go once there are too many. */
  lemma MintsExactly(s: Store, bound: nat, token: string, sessionId: string, now: int)
    requires Get(s, token).None?
    ensures var all := s + [(token, Token(sessionId, now + TTL))];
      AfterMint(s, bound, token, sessionId, now) == if |all| > bound then all[|all| - bound..] else all
  {
    PutNew(s, token, Token(sessionId, now + TTL));
  }

  /** What a caller gets for the provider's answer: as given, without its token, unless it selects what may not be selected. */
  lemma RoutesExactly(r: Request, c: Context, reply: Reply, drawn: string)
    ensures var routed := Routed(r, c, reply, drawn);
      var formal := reply.candidateId == Some("formal-workflow");
      && (routed.status == Selected <==> reply.status == Selected && reply.candidateId.Some? && AcceptableId(r, c, reply.candidateId.value))
      && (reply.status != Selected || routed.status == Selected ==> routed.status == reply.status && routed.candidateId == reply.candidateId)
      && (reply.status == Selected && routed.status != Selected ==> routed == Reply(Review, None, None))
      && routed.token == (if routed.status == Selected && r.stage == ChangeNecessity && formal then Some(drawn) else None)
      && (routed.token.Some? <==> MintsToken(r, c, reply))
  {
  }

  /** A token that has been minted lets one selection of its session through, at any time in the next ten minutes. */
  lemma TokenWorksOnce(s: Store, bound: nat, r: Request, c: Context, d: Context, minted: int, now: int, later: int)
    requires bound > 0 && r.token.Some? && Get(s, r.token.value).None? && r.stage == WorkflowSelection && r.firstStageFormal
    requires IsOpen(c) && IsProper(r, c) && now <= minted + 10 * 60_000 && IsOpen(d)
    ensures var store := AfterMint(s, bound, r.token.value, r.sessionId, minted);
      var (next, v) := AfterBegin(store, r, c, now);
      v == Forwarded && AfterBegin(next, r, d, later).1 == Unavailable("invalid-stage-token")
  {
    var store := AfterMint(s, bound, r.token.value, r.sessionId, minted);
    MintsExactly(s, bound, r.token.value, r.sessionId, minted);
    LastIsFound(s, bound, (r.token.value, Token(r.sessionId, minted + TTL)));
    WorksOnce(store, r, c, d, now, later);
  }

  lemma WorksOnce(s: Store, r: Request, c: Context, d: Context, now: int, later: int)
    requires r.stage == WorkflowSelection && IsPaidFor(s, r, now) && IsOpen(c) && IsProper(r, c) && IsOpen(d)
    ensures var (next, v) := AfterBegin(s, r, c, now);
      v == Forwarded && AfterBegin(next, r, d, later).1 == Unavailable("invalid-stage-token")
  {
    var next := AfterBegin(s, r, c, now).0;
    BeginsExactly(s, r, c, now);
    assert Leaves(s, r, c, now, r.token.value);
    assert Get(next, r.token.value).None?;
    BeginsExactly(next, r, d, later);
  }

  lemma {:induction false} LastIsFound(s: Store, bound: nat, entry: (string, Token))
    requires bound > 0 && Get(s, entry.0).None?
    ensures var all := s + [entry];
      Get(if |all| > bound then all[|all| - bound..] else all, entry.0) == Some(entry.1)
  {
    var all := s + [entry];
    if |all| > bound {
      assert all[1..] == s[1..] + [entry];
      LastIsFound(s[1..], bound, entry);
      if |all| - 1 > bound { assert all[1..][|all| - 1 - bound..] == all[|all| - bound..]; }
    } else if s != [] {
      assert all[1..] == s[1..] + [entry];
      LastIsFound(s[1..], bound, entry);
    }
  }

  // ----- whole runs -----

  datatype Event =
    | Began(request: Request, context: Context, now: int)
    | Answered(index: nat, reply: Reply, drawn: string, now: int)
    | Issued(sessionId: string, drawn: string, now: int)                // the public issuing functions
    | Consumed(token: string, sessionId: string, now: int)              // the public consuming function

  /** A request that reached the provider, and its answer once there is one. */
  datatype Forward = Forward(request: Request, context: Context, at: int, reply: Option<Reply>)

  /** Who minted a token: the answer to a forwarded request, or a caller of the public functions. */
  datatype Minting = Minting(sessionId: string, at: int, source: Option<nat>)

  datatype Trace = Trace(store: Store, clock: int, minted: map<string, Minting>, forwarded: seq<Forward>)

  function Extend(t: Trace, bound: nat, e: Event): Trace {
    match e
    case Began(r, c, now) =>
      var (store, v) := AfterBegin(t.store, r, c, now);
      t.(store := store, clock := now, forwarded := if v == Forwarded then t.forwarded + [Forward(r, c, now, None)] else t.forwarded)
    case Answered(i, reply, drawn, now) =>
      if i >= |t.forwarded| || t.forwarded[i].reply.Some? then t
      else
        var f := t.forwarded[i];
        var answered := t.(clock := now, forwarded := t.forwarded[i := f.(reply := Some(reply))]);
        if MintsToken(f.request, f.context, reply) then Mint(answered, bound, f.request.sessionId, drawn, now, Some(i)) else answered
    case Issued(s, drawn, now) => Mint(t.(clock := now), bound, s, drawn, now, None)
    case Consumed(token, s, now) => t.(clock := now, store := AfterConsume(t.store, token, s, now).0)
  }

  function Mint(t: Trace, bound: nat, sessionId: string, drawn: string, now: int, source: Option<nat>): Trace {
    t.(store := AfterMint(t.store, bound, drawn, sessionId, now), minted := t.minted[drawn := Minting(sessionId, now, source)])
  }

  /** The clock never goes back and random tokens never repeat. */
  predicate Possible(t: Trace, e: Event) {
    && t.clock <= e.now
    && (e.Answered? || e.Issued? ==> e.drawn !in t.minted)
  }

  function Play(t: Trace, bound: nat, events: seq<Event>): Trace
    decreases |events|
  {
    if events == [] then t else Play(Extend(t, bound, events[0]), bound, events[1..])
  }

  predicate AllPossible(t: Trace, bound: nat, events: seq<Event>)
    decreases |events|
  {
    events != [] ==> Possible(t, events[0]) && AllPossible(Extend(t, bound, events[0]), bound, events[1..])
  }

  predicate Spends(f: Forward, token: string) {
    f.request.stage == WorkflowSelection && f.request.token == Some(token)
  }

  /** A stored token is a minted one, unchanged. */
  predicate Genuine(t: Trace, token: string, record: Token) {
    token in t.minted && record == Token(t.minted[token].sessionId, t.minted[token].at + TTL) && t.minted[token].at <= t.clock
  }

  predicate Paid(t: Trace, f: Forward) {
    f.request.stage == WorkflowSelection ==>
      && f.request.token.Some? && f.request.token.value in t.minted
      && var m := t.minted[f.request.token.value];
      m.sessionId == f.request.sessionId && m.at <= f.at <= m.at + TTL
  }

  /** The answer that minted the token chose the formal workflow in the first stage of the same session. */
  predicate FromFormalOutcome(t: Trace, m: Minting) {
    m.source.Some? ==>
      && m.source.value < |t.forwarded|
      && var f := t.forwarded[m.source.value];
      && f.request.stage == ChangeNecessity && f.request.sessionId == m.sessionId && f.at <= m.at
      && f.reply.Some? && f.reply.value.status == Selected && f.reply.value.candidateId == Some("formal-workflow")
  }

  ghost predicate StoreOk(t: Trace, bound: nat) {
    && |t.store| <= bound
    && (forall i, j :: 0 <= i < j < |t.store| ==> t.store[i].0 != t.store[j].0)
    && (forall i :: 0 <= i < |t.store| ==> Genuine(t, t.store[i].0, t.store[i].1))
  }

  ghost predicate SpentOk(t: Trace) {
    && (forall i {:trigger t.forwarded[i]} :: 0 <= i < |t.forwarded| ==> Paid(t, t.forwarded[i]) && t.forwarded[i].at <= t.clock)
    && (forall i, k :: 0 <= i < |t.forwarded| && 0 <= k < |t.store| ==> !Spends(t.forwarded[i], t.store[k].0))
    && (forall i, j :: 0 <= i < j < |t.forwarded| && t.forwarded[i].request.stage == WorkflowSelection ==>
          !(t.forwarded[j].request.stage == WorkflowSelection && t.forwarded[j].request.token == t.forwarded[i].request.token))
  }

  ghost predicate Inv(t: Trace, bound: nat) {
    && StoreOk(t, bound) && SpentOk(t) && MintedOnce(t)
    && forall x :: x in t.minted ==> FromFormalOutcome(t, t.minted[x])
  }

  /** An answer mints at most one token. */
  ghost predicate MintedOnce(t: Trace) {
    forall x, y :: x in t.minted && y in t.minted && x != y && t.minted[x].source.Some? ==> t.minted[y].source != t.minted[x].source
  }

  // ----- the store under one operation -----

  lemma {:induction false} RemoveIsPart(s: Store, token: string)
    ensures |Remove(s, token)| <= |s|
    ensures forall i :: 0 <= i < |Remove(s, token)| ==> Remove(s, token)[i] in s && Remove(s, token)[i].0 != token
    ensures (forall i, j :: 0 <= i < j < |s| ==> s[i].0 != s[j].0) ==>
              forall i, j :: 0 <= i < j < |Remove(s, token)| ==> Remove(s, token)[i].0 != Remove(s, token)[j].0
  {
    if s != [] { RemoveIsPart(s[1..], token); }
  }

  lemma {:induction false} GetIsPart(s: Store, token: string)
    ensures Get(s, token).Some? ==> exists i :: 0 <= i < |s| && s[i] == (token, Get(s, token).value)
    ensures Get(s, token).None? <==> forall i :: 0 <= i < |s| ==> s[i].0 != token
  {
    if s != [] && s[0].0 != token { GetIsPart(s[1..], token); }
  }

  lemma NewestIsPart(all: Store, bound: nat)
    requires forall i, j :: 0 <= i < j < |all| ==> all[i].0 != all[j].0
    ensures |Newest(all, bound)| <= bound
    ensures forall k :: 0 <= k < |Newest(all, bound)| ==> Newest(all, bound)[k] in all
    ensures forall i, j :: 0 <= i < j < |Newest(all, bound)| ==> Newest(all, bound)[i].0 != Newest(all, bound)[j].0
  {
    var n := if |all| > bound then |all| - bound else 0;
    assert Newest(all, bound) == all[n..];
  }

  lemma MintedEntry(t: Trace, bound: nat, sessionId: string, drawn: string, now: int, source: Option<nat>, entry: (string, Token))
    requires StoreOk(t, bound) && drawn !in t.minted && t.clock == now
    requires entry in t.store || entry == (drawn, Token(sessionId, now + TTL))
    ensures Genuine(Mint(t, bound, sessionId, drawn, now, source), entry.0, entry.1)
  {
    if entry in t.store {
      var i :| 0 <= i < |t.store| && t.store[i] == entry;
      assert Genuine(t, t.store[i].0, t.store[i].1);
    }
  }

  lemma DistinctWithNew(t: Trace, bound: nat, drawn: string, record: Token)
    requires StoreOk(t, bound) && drawn !in t.minted
    ensures Put(t.store, drawn, record) == t.store + [(drawn, record)]
    ensures var all := t.store + [(drawn, record)];
      forall i, j :: 0 <= i < j < |all| ==> all[i].0 != all[j].0
  {
    forall i | 0 <= i < |t.store| ensures t.store[i].0 != drawn { assert Genuine(t, t.store[i].0, t.store[i].1); }
    GetIsPart(t.store, drawn);
    PutNew(t.store, drawn, record);
  }

  /** Minting appends and keeps the newest; the bound holds again at once. */
  lemma MintStore(t: Trace, bound: nat, sessionId: string, drawn: string, now: int, source: Option<nat>)
    requires StoreOk(t, bound) && drawn !in t.minted && t.clock == now && bound > 0
    ensures var v := Mint(t, bound, sessionId, drawn, now, source);
      && StoreOk(v, bound)
      && forall k :: 0 <= k < |v.store| ==> v.store[k] in t.store || v.store[k].0 == drawn
  {
    var record := Token(sessionId, now + TTL);
    DistinctWithNew(t, bound, drawn, record);
    var all := t.store + [(drawn, record)];
    NewestIsPart(all, bound);
    var store := Newest(all, bound);
    var v := Mint(t, bound, sessionId, drawn, now, source);
    forall k | 0 <= k < |store| ensures Genuine(v, store[k].0, store[k].1) && (store[k] in t.store || store[k].0 == drawn) {
      assert store[k] in all;
      MintedEntry(t, bound, sessionId, drawn, now, source, store[k]);
    }
  }

  lemma MintSpent(t: Trace, bound: nat, sessionId: string, drawn: string, now: int, source: Option<nat>)
    requires SpentOk(t) && drawn !in t.minted
    requires var v := Mint(t, bound, sessionId, drawn, now, source);
      forall k :: 0 <= k < |v.store| ==> v.store[k] in t.store || v.store[k].0 == drawn
    ensures SpentOk(Mint(t, bound, sessionId, drawn, now, source))
  {
    var v := Mint(t, bound, sessionId, drawn, now, source);
    forall i, k | 0 <= i < |v.forwarded| && 0 <= k < |v.store| ensures !Spends(v.forwarded[i], v.store[k].0) {
      assert Paid(t, t.forwarded[i]);
      if v.store[k] in t.store {
        var j :| 0 <= j < |t.store| && t.store[j] == v.store[k];
        assert !Spends(t.forwarded[i], t.store[j].0);
      }
    }
    forall i | 0 <= i < |v.forwarded| ensures Paid(v, v.forwarded[i]) { assert Paid(t, t.forwarded[i]); }
  }

  lemma MintKeeps(t: Trace, bound: nat, sessionId: string, drawn: string, now: int, source: Option<nat>)
    requires Inv(t, bound) && drawn !in t.minted && t.clock == now && bound > 0
    requires FromFormalOutcome(t, Minting(sessionId, now, source))
    requires source.Some? ==> forall x :: x in t.minted ==> t.minted[x].source != source
    ensures Inv(Mint(t, bound, sessionId, drawn, now, source), bound)
  {
    var v := Mint(t, bound, sessionId, drawn, now, source);
    MintStore(t, bound, sessionId, drawn, now, source);
    MintSpent(t, bound, sessionId, drawn, now, source);
    forall x | x in v.minted ensures FromFormalOutcome(v, v.minted[x]) {
      if x != drawn { assert FromFormalOutcome(t, t.minted[x]); }
    }
  }

  lemma ConsumeKeeps(t: Trace, bound: nat, token: string, sessionId: string, now: int)
    requires Inv(t, bound) && t.clock <= now
    ensures var v := t.(clock := now, store := AfterConsume(t.store, token, sessionId, now).0);
      Inv(v, bound)
  {
    var v := t.(clock := now, store := AfterConsume(t.store, token, sessionId, now).0);
    RemoveIsPart(t.store, token);
    PartKeeps(t, v, bound);
  }

  /** Dropping entries from the store and letting time pass keeps everything. */
  lemma PartKeeps(t: Trace, v: Trace, bound: nat)
    requires Inv(t, bound) && v.minted == t.minted && v.forwarded == t.forwarded && t.clock <= v.clock
    requires |v.store| <= |t.store| && forall k :: 0 <= k < |v.store| ==> v.store[k] in t.store
    requires forall i, j :: 0 <= i < j < |v.store| ==> v.store[i].0 != v.store[j].0
    ensures Inv(v, bound)
  {
    forall k | 0 <= k < |v.store| ensures Genuine(v, v.store[k].0, v.store[k].1) {
      var j :| 0 <= j < |t.store| && t.store[j] == v.store[k];
      assert Genuine(t, t.store[j].0, t.store[j].1);
    }
    forall i, k | 0 <= i < |v.forwarded| && 0 <= k < |v.store| ensures !Spends(v.forwarded[i], v.store[k].0) {
      var j :| 0 <= j < |t.store| && t.store[j] == v.store[k];
      assert !Spends(t.forwarded[i], t.store[j].0);
    }
    forall i | 0 <= i < |v.forwarded| ensures Paid(v, v.forwarded[i]) { assert Paid(t, t.forwarded[i]); }
    forall x | x in v.minted ensures FromFormalOutcome(v, v.minted[x]) { assert FromFormalOutcome(t, t.minted[x]); }
  }

  /** A token that is spent was stored, its record is genuine, and it is stored no more. */
  lemma SpentToken(t: Trace, bound: nat, r: Request, now: int)
    requires Inv(t, bound) && t.clock <= now && r.stage == WorkflowSelection && r.token.Some?
    requires AfterConsume(t.store, r.token.value, r.sessionId, now).1
    ensures var token := r.token.value;
      && token in t.minted && t.minted[token].sessionId == r.sessionId && t.minted[token].at <= now <= t.minted[token].at + TTL
      && (forall i :: 0 <= i < |t.forwarded| ==> !Spends(t.forwarded[i], token))
      && forall k :: 0 <= k < |AfterConsume(t.store, token, r.sessionId, now).0| ==> AfterConsume(t.store, token, r.sessionId, now).0[k].0 != token
  {
    var token := r.token.value;
    GetIsPart(t.store, token);
    RemoveIsPart(t.store, token);
    var k :| 0 <= k < |t.store| && t.store[k] == (token, Get(t.store, token).value);
    assert Genuine(t, t.store[k].0, t.store[k].1);
    forall i | 0 <= i < |t.forwarded| ensures !Spends(t.forwarded[i], token) { assert !Spends(t.forwarded[i], t.store[k].0); }
  }

  lemma ForwardKeeps(t: Trace, bound: nat, f: Forward)
    requires Inv(t, bound) && f.at <= t.clock && Paid(t, f) && f.reply.None?
    requires f.request.stage == WorkflowSelection ==>
               && (forall i :: 0 <= i < |t.forwarded| ==> !Spends(t.forwarded[i], f.request.token.value))
               && forall k :: 0 <= k < |t.store| ==> t.store[k].0 != f.request.token.value
    ensures Inv(t.(forwarded := t.forwarded + [f]), bound)
  {
    var v := t.(forwarded := t.forwarded + [f]);
    var n := |t.forwarded|;
    forall i | 0 <= i < |v.forwarded| ensures Paid(v, v.forwarded[i]) && v.forwarded[i].at <= v.clock {
      if i < n { assert Paid(t, t.forwarded[i]); }
    }
    forall i, k | 0 <= i < |v.forwarded| && 0 <= k < |v.store| ensures !Spends(v.forwarded[i], v.store[k].0) {
      if i < n { assert !Spends(t.forwarded[i], t.store[k].0); }
    }
    forall i, j | 0 <= i < j < |v.forwarded| && v.forwarded[i].request.stage == WorkflowSelection
      ensures !(v.forwarded[j].request.stage == WorkflowSelection && v.forwarded[j].request.token == v.forwarded[i].request.token)
    {
      if j == n && f.request.stage == WorkflowSelection { assert !Spends(t.forwarded[i], f.request.token.value); }
    }
    forall k | 0 <= k < |v.store| ensures Genuine(v, v.store[k].0, v.store[k].1) { assert Genuine(t, t.store[k].0, t.store[k].1); }
    forall x | x in v.minted ensures FromFormalOutcome(v, v.minted[x]) { assert FromFormalOutcome(t, t.minted[x]); }
  }

  lemma SelectionKeeps(t: Trace, bound: nat, r: Request, c: Context, now: int)
    requires Inv(t, bound) && t.clock <= now && r.stage == WorkflowSelection && r.token.Some?
    requires AfterConsume(t.store, r.token.value, r.sessionId, now).1
    ensures var store := AfterConsume(t.store, r.token.value, r.sessionId, now).0;
      Inv(t.(store := store, clock := now, forwarded := t.forwarded + [Forward(r, c, now, None)]), bound)
  {
    ConsumeKeeps(t, bound, r.token.value, r.sessionId, now);
    SpentToken(t, bound, r, now);
    ForwardKeeps(t.(clock := now, store := AfterConsume(t.store, r.token.value, r.sessionId, now).0), bound, Forward(r, c, now, None));
  }

  lemma BeganKeeps(t: Trace, bound: nat, r: Request, c: Context, now: int)
    requires Inv(t, bound) && t.clock <= now
    ensures Inv(Extend(t, bound, Began(r, c, now)), bound)
  {
    var (store, v) := AfterBegin(t.store, r, c, now);
    if v == Forwarded {
      if r.stage == WorkflowSelection {
        SelectionKeeps(t, bound, r, c, now);
      } else {
        PartKeeps(t, t.(clock := now), bound);
        ForwardKeeps(t.(clock := now), bound, Forward(r, c, now, None));
      }
    } else if store == t.store {
      PartKeeps(t, t.(clock := now), bound);
    } else {
      ConsumeKeeps(t, bound, r.token.value, r.sessionId, now);
    }
  }

  lemma ReplyKeeps(t: Trace, bound: nat, i: nat, reply: Reply, now: int)
    requires Inv(t, bound) && t.clock <= now && i < |t.forwarded| && t.forwarded[i].reply.None?
    ensures Inv(t.(clock := now, forwarded := t.forwarded[i := t.forwarded[i].(reply := Some(reply))]), bound)
  {
    var v := t.(clock := now, forwarded := t.forwarded[i := t.forwarded[i].(reply := Some(reply))]);
    forall j | 0 <= j < |v.forwarded| ensures Paid(v, v.forwarded[j]) && v.forwarded[j].at <= v.clock { assert Paid(t, t.forwarded[j]); }
    forall j, k | 0 <= j < |v.forwarded| && 0 <= k < |v.store| ensures !Spends(v.forwarded[j], v.store[k].0) {
      assert !Spends(t.forwarded[j], t.store[k].0);
    }
    forall k | 0 <= k < |v.store| ensures Genuine(v, v.store[k].0, v.store[k].1) { assert Genuine(t, t.store[k].0, t.store[k].1); }
    forall x | x in v.minted ensures FromFormalOutcome(v, v.minted[x]) { assert FromFormalOutcome(t, t.minted[x]); }
  }

  lemma EventKeeps(t: Trace, bound: nat, e: Event)
    requires Inv(t, bound) && Possible(t, e) && bound > 0
    ensures Inv(Extend(t, bound, e), bound)
  {
    match e
    case Began(r, c, now) => BeganKeeps(t, bound, r, c, now);
    case Answered(i, reply, drawn, now) =>
      if i < |t.forwarded| && t.forwarded[i].reply.None? {
        var f := t.forwarded[i];
        var answered := t.(clock := now, forwarded := t.forwarded[i := f.(reply := Some(reply))]);
        ReplyKeeps(t, bound, i, reply, now);
        forall x | x in t.minted ensures t.minted[x].source != Some(i) { assert FromFormalOutcome(t, t.minted[x]); }
        if MintsToken(f.request, f.context, reply) { MintKeeps(answered, bound, f.request.sessionId, drawn, now, Some(i)); }
      }
    case Issued(s, drawn, now) =>
      PartKeeps(t, t.(clock := now), bound);
      MintKeeps(t.(clock := now), bound, s, drawn, now, None);
    case Consumed(token, s, now) => ConsumeKeeps(t, bound, token, s, now);
  }

  lemma {:induction false} PlayKeeps(t: Trace, bound: nat, events: seq<Event>)
    requires Inv(t, bound) && AllPossible(t, bound, events) && bound > 0
    ensures Inv(Play(t, bound, events), bound)
    decreases |events|
  {
    if events != [] {
      EventKeeps(t, bound, events[0]);
      PlayKeeps(Extend(t, bound, events[0]), bound, events[1..]);
    }
  }

  function Start(clock: int): Trace { Trace([], clock, map[], []) }

  predicate NoPublicIssue(events: seq<Event>) {
    forall i :: 0 <= i < |events| ==> !events[i].Issued?
  }

  lemma {:induction false} MintedByDispatch(t: Trace, bound: nat, events: seq<Event>)
    requires NoPublicIssue(events) && forall x :: x in t.minted ==> t.minted[x].source.Some?
    ensures forall x :: x in Play(t, bound, events).minted ==> Play(t, bound, events).minted[x].source.Some?
    decreases |events|
  {
    if events != [] { MintedByDispatch(Extend(t, bound, events[0]), bound, events[1..]); }
  }

  /**
   * Over every run of interleaved dispatches, each workflow selection that reached the provider spent a token minted for its
   * session at most ten minutes before, and none of them shares its token with another.
   */
  lemma SelectionsAreTokened(bound: nat, clock: int, events: seq<Event>, i: nat)
    requires bound > 0 && AllPossible(Start(clock), bound, events)
    requires i < |Play(Start(clock), bound, events).forwarded|
    ensures var t := Play(Start(clock), bound, events);
      var f := t.forwarded[i];
      f.request.stage == WorkflowSelection ==>
        && f.request.token.Some? && f.request.token.value in t.minted
        && t.minted[f.request.token.value].sessionId == f.request.sessionId
        && t.minted[f.request.token.value].at <= f.at <= t.minted[f.request.token.value].at + 10 * 60_000
        && forall j :: 0 <= j < |t.forwarded| && j != i ==> !Spends(t.forwarded[j], f.request.token.value)
  {
    PlayKeeps(Start(clock), bound, events);
    var t := Play(Start(clock), bound, events);
    assert Paid(t, t.forwarded[i]);
  }

  /** Selection `f` spent a token that the answer to request `k`, the formal workflow chosen in the first stage of its session, had minted. */
  ghost predicate AdmittedBy(t: Trace, f: Forward, k: nat) {
    && f.request.token.Some? && f.request.token.value in t.minted
    && var m := t.minted[f.request.token.value];
    && m.source == Some(k) && k < |t.forwarded|
    && var formal := t.forwarded[k];
    && formal.request.stage == ChangeNecessity && formal.request.sessionId == f.request.sessionId
    && formal.reply.Some? && formal.reply.value.status == Selected && formal.reply.value.candidateId == Some("formal-workflow")
    && formal.at <= m.at <= f.at <= m.at + 10 * 60_000
  }

  /**
   * Unless the public issuing functions are used, each workflow selection that reached the provider is admitted by the very
   * first-stage formal outcome that minted its token, at most ten minutes earlier, and each outcome admits at most one.
   */
  lemma TokensComeFromFormalOutcomes(bound: nat, clock: int, events: seq<Event>, i: nat) returns (k: nat)
    requires bound > 0 && AllPossible(Start(clock), bound, events) && NoPublicIssue(events)
    requires i < |Play(Start(clock), bound, events).forwarded|
    requires Play(Start(clock), bound, events).forwarded[i].request.stage == WorkflowSelection
    ensures var t := Play(Start(clock), bound, events);
      && AdmittedBy(t, t.forwarded[i], k)
      && forall j :: 0 <= j < |t.forwarded| && j != i && t.forwarded[j].request.stage == WorkflowSelection ==> !AdmittedBy(t, t.forwarded[j], k)
  {
    PlayKeeps(Start(clock), bound, events);
    MintedByDispatch(Start(clock), bound, events);
    var t := Play(Start(clock), bound, events);
    var f := t.forwarded[i];
    assert Paid(t, f);
    var m := t.minted[f.request.token.value];
    assert FromFormalOutcome(t, m);
    k := m.source.value;
    forall j | 0 <= j < |t.forwarded| && j != i && t.forwarded[j].request.stage == WorkflowSelection ensures !AdmittedBy(t, t.forwarded[j], k) {
      assert Paid(t, t.forwarded[j]);
      var other := t.forwarded[j].request.token.value;
      assert other != f.request.token.value by { if i < j { } else { } }
      assert t.minted[other].source != m.source;
    }
  }

  /** After every operation of every run the store is within its bound. */
  lemma StoreStaysBounded(bound: nat, clock: int, events: seq<Event>)
    requires bound > 0 && AllPossible(Start(clock), bound, events)
    ensures |Play(Start(clock), bound, events).store| <= bound
  {
    PlayKeeps(Start(clock), bound, events);
  }

  /** Another session's attempt leaves a live token usable by its owner; the owner's use is the last one. */
  lemma OnlyTheOwnerBurnsAToken(s: Store, token: string, owner: string, other: string, now: int, later: int)
    requires Get(s, token).Some? && Get(s, token).value.sessionId == owner && owner != other
    requires now <= later <= Get(s, token).value.expiresAt
    ensures AfterConsume(s, token, other, now) == (s, false)
    ensures AfterConsume(s, token, owner, later).1
    ensures !AfterConsume(AfterConsume(s, token, owner, later).0, token, owner, later).1
  {
    RemoveIsPart(s, token);
    GetIsPart(Remove(s, token), token);
  }
}
