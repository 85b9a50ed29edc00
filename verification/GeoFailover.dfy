/** Resolving the egress country through two endpoints, each with a budget of its own and one retry inside it. */
module GeoFailover {
  import opened JsObject

  const RETRY_BACKOFF := 150

  datatype Reason = Timeout | InvalidResponse | FetchFailed

  /** How one fetch would go if nothing aborted it: when the headers come or the transport fails, and when the body is read. */
  datatype Reply = NoReply | NotOk | Body(country: Option<string>)
  datatype Fetch = Fetch(headers: nat, reply: Reply, body: nat)

  datatype Outcome = Country(code: string) | Failed(reason: Reason, transient: bool)

  /** A request as it goes out: to which endpoint, when, and when its combined signal aborts it. */
  datatype Request = Request(endpoint: nat, at: nat, deadline: nat)

  datatype Attempt = Attempt(outcome: Outcome, end: nat, requests: seq<Request>)

  function Min(a: nat, b: nat): nat { if a < b then a else b }
  function Max(a: nat, b: nat): nat { if a < b then b else a }

  /** `fetchCountryOf` from `t` under a signal that aborts at `deadline`. */
  function FetchCountry(t: nat, deadline: nat, f: Fetch): (Outcome, nat) {
    if t + f.headers >= deadline then (Failed(Timeout, false), Max(t, deadline))
    else
      match f.reply
      case NoReply => (Failed(FetchFailed, true), t + f.headers)
      case NotOk => (Failed(InvalidResponse, true), t + f.headers)
      case Body(country) =>
        if t + f.headers + f.body >= deadline then (Failed(InvalidResponse, false), Max(t, deadline))
        else (if country.Some? then Country(country.value) else Failed(InvalidResponse, false), t + f.headers + f.body)
  }

  /** `attemptEndpoint`: the caller's abort and the endpoint's own budget both end it. */
  function AttemptEndpoint(endpoint: nat, t: nat, budget: nat, abort: nat, first: Fetch, second: Fetch): Attempt {
    var deadline := Min(t + budget, abort);
    var (o, end) := FetchCountry(t, deadline, first);
    var sent := [Request(endpoint, t, deadline)];
    if o.Country? || !o.transient || end >= deadline then Attempt(o, end, sent)
    else
      var retry := Min(end + RETRY_BACKOFF, deadline);
      if retry >= deadline then Attempt(Failed(Timeout, false), deadline, sent)
      else
        var (p, last) := FetchCountry(retry, deadline, second);
        Attempt(p, last, sent + [Request(endpoint, retry, deadline)])
  }

  /** The first and the second fetch each endpoint would see. */
  type Script = seq<(Fetch, Fetch)>

  datatype Resolution = Resolved(code: string, endpoint: nat) | Unresolved(reason: Reason)

  function Resolve(script: Script, i: nat, t: nat, budget: nat, abort: nat, lastReason: Reason): (Resolution, nat, seq<Request>)
    requires i <= |script|
    decreases |script| - i
  {
    if i == |script| then (Unresolved(lastReason), t, [])
    else if t >= abort then (Unresolved(Timeout), t, [])
    else
      var a := AttemptEndpoint(i, t, budget, abort, script[i].0, script[i].1);
      if a.outcome.Country? then (Resolved(a.outcome.code, i), a.end, a.requests)
      else
        var (r, end, more) := Resolve(script, i + 1, a.end, budget, abort, a.outcome.reason);
        (r, end, a.requests + more)
  }

  method ResolveCountry(script: Script, start: nat, budget: nat, abort: nat) returns (r: Resolution, end: nat, requests: seq<Request>)
    ensures (r, end, requests) == Resolve(script, 0, start, budget, abort, FetchFailed)
  {
    var lastReason := FetchFailed;
    end, requests := start, [];
    var i := 0;
    assert forall more: seq<Request> :: [] + more == more;
    while i < |script|
      invariant 0 <= i <= |script|
      invariant var (q, e, more) := Resolve(script, i, end, budget, abort, lastReason);
        Resolve(script, 0, start, budget, abort, FetchFailed) == (q, e, requests + more)
    {
      assert requests + [] == requests;
      if end >= abort { return Unresolved(Timeout), end, requests; }
      var a := AttemptEndpoint(i, end, budget, abort, script[i].0, script[i].1);
      ghost var before := requests;
      end, requests := a.end, requests + a.requests;
      if a.outcome.Country? { return Resolved(a.outcome.code, i), end, requests; }
      lastReason := a.outcome.reason;
      assert forall more: seq<Request> :: before + (a.requests + more) == requests + more;
      i := i + 1;
    }
    assert requests + [] == requests;
    r := Unresolved(lastReason);
  }

  /** One endpoint takes its own budget at most, one request or two, the second only after the pause and before the deadline. */
  lemma AttemptStaysInBudget(endpoint: nat, t: nat, budget: nat, abort: nat, first: Fetch, second: Fetch)
    requires t < abort
    ensures var a := AttemptEndpoint(endpoint, t, budget, abort, first, second);
      && t <= a.end <= Min(t + budget, abort)
      && 1 <= |a.requests| <= 2 && a.requests[0] == Request(endpoint, t, Min(t + budget, abort))
      && (|a.requests| == 2 ==> a.requests[1].endpoint == endpoint && a.requests[0].at + RETRY_BACKOFF <= a.requests[1].at < a.requests[1].deadline)
      && (|a.requests| == 2 ==> a.requests[1].deadline == a.requests[0].deadline)
  {
  }

  /** The fetch gives the country before the deadline. */
  predicate Answers(f: Fetch, t: nat, deadline: nat, code: string) {
    f.reply == Body(Some(code)) && t + f.headers + f.body < deadline
  }

  /** The fetch fails in a way worth another try: no answer or an error status, before the deadline. */
  predicate FailsForNow(f: Fetch, t: nat, deadline: nat) {
    (f.reply.NoReply? || f.reply.NotOk?) && t + f.headers < deadline
  }

  /** When a fetch succeeds, and what a failure is called. */
  lemma FetchExactly(t: nat, deadline: nat, f: Fetch)
    ensures var (o, end) := FetchCountry(t, deadline, f);
      && (forall code :: o == Country(code) <==> Answers(f, t, deadline, code))
      && (o.Failed? ==> (o.transient <==> FailsForNow(f, t, deadline)))
      && (o.Failed? ==> (o.reason == Timeout <==> t + f.headers >= deadline))
      && (o.Failed? ==> (o.reason == FetchFailed <==> t + f.headers < deadline && f.reply.NoReply?))
      && (FailsForNow(f, t, deadline) ==> end == t + f.headers)
  {
  }

  /** An endpoint gives a country exactly if its first request does, or that one fails for now and the retry does. */
  lemma AttemptSucceedsExactly(endpoint: nat, t: nat, budget: nat, abort: nat, first: Fetch, second: Fetch, code: string)
    requires t < abort
    ensures var deadline := Min(t + budget, abort);
      AttemptEndpoint(endpoint, t, budget, abort, first, second).outcome == Country(code) <==>
        || Answers(first, t, deadline, code)
        || (FailsForNow(first, t, deadline) && Answers(second, t + first.headers + 150, deadline, code))
  {
    var deadline := Min(t + budget, abort);
    FetchExactly(t, deadline, first);
    if FailsForNow(first, t, deadline) { FetchExactly(Min(t + first.headers + RETRY_BACKOFF, deadline), deadline, second); }
  }

  /** What a failed primary leaves to the fallback: unless the caller has aborted, an attempt that begins at once with a full budget. */
  lemma FallbackKeepsItsBudget(script: Script, start: nat, budget: nat, abort: nat)
    requires |script| == 2 && start < abort
    ensures var primary := AttemptEndpoint(0, start, budget, abort, script[0].0, script[0].1);
      var (r, end, requests) := Resolve(script, 0, start, budget, abort, FetchFailed);
      && primary.end <= start + budget && end <= start + 2 * budget && |requests| <= 4
      && (primary.outcome.Failed? && primary.end < abort ==>
            && |requests| > |primary.requests|
            && requests[|primary.requests|] == Request(1, primary.end, Min(primary.end + budget, abort))
            && r == var a := AttemptEndpoint(1, primary.end, budget, abort, script[1].0, script[1].1);
                 if a.outcome.Country? then Resolved(a.outcome.code, 1) else Unresolved(a.outcome.reason))
      && (primary.outcome.Failed? && primary.end >= abort ==> r == Unresolved(Timeout) && requests == primary.requests)
      && (primary.outcome.Country? ==> r == Resolved(primary.outcome.code, 0) && requests == primary.requests)
  {
    var primary := AttemptEndpoint(0, start, budget, abort, script[0].0, script[0].1);
    AttemptStaysInBudget(0, start, budget, abort, script[0].0, script[0].1);
    if primary.outcome.Failed? && primary.end < abort {
      var a := AttemptEndpoint(1, primary.end, budget, abort, script[1].0, script[1].1);
      AttemptStaysInBudget(1, primary.end, budget, abort, script[1].0, script[1].1);
      var rest := Resolve(script, 1, primary.end, budget, abort, primary.outcome.reason);
      if a.outcome.Failed? {
        assert Resolve(script, 2, a.end, budget, abort, a.outcome.reason) == (Unresolved(a.outcome.reason), a.end, []);
        assert rest.2 == a.requests;
      }
    }
  }

  /** The fetch the last request went to: the retry of its endpoint if that endpoint was asked twice. */
  function LastFetch(script: Script, requests: seq<Request>): Fetch
    requires requests != [] && requests[|requests| - 1].endpoint < |script|
  {
    var e := requests[|requests| - 1].endpoint;
    if |requests| >= 2 && requests[|requests| - 2].endpoint == e then script[e].1 else script[e].0
  }

  /** The endpoint answered well, and in time, as far as its headers go. */
  predicate HeadersCameInTime(q: Request, f: Fetch) {
    f.reply.Body? && q.at + f.headers < q.deadline
  }

  /** From endpoint `i` on: its requests, and what an end at the deadline of the last one is called. */
  ghost predicate Attributed(script: Script, i: nat, r: Resolution, end: nat, requests: seq<Request>) {
    && requests != [] && i <= requests[0].endpoint && requests[|requests| - 1].endpoint < |script|
    && var q := requests[|requests| - 1];
    r.Unresolved? && end == q.deadline ==>
      r.reason == if q.endpoint == |script| - 1 && HeadersCameInTime(q, LastFetch(script, requests)) then InvalidResponse else Timeout
  }

  /** One attempt as far as its attribution goes. */
  ghost predicate AttemptAttributed(script: Script, i: nat, a: Attempt) {
    && i < |script| && a.requests != [] && (forall k :: 0 <= k < |a.requests| ==> a.requests[k].endpoint == i)
    && var q := a.requests[|a.requests| - 1];
    a.outcome.Failed? && a.end == q.deadline ==>
      a.outcome.reason == if HeadersCameInTime(q, LastFetch(script, a.requests)) then InvalidResponse else Timeout
  }

  /** An attempt that ends at its deadline has timed out, unless good headers were in: then it counts as a bad answer. */
  lemma LateAttempt(script: Script, i: nat, t: nat, budget: nat, abort: nat)
    requires i < |script| && t < abort
    ensures AttemptAttributed(script, i, AttemptEndpoint(i, t, budget, abort, script[i].0, script[i].1))
  {
  }

  /** The requests of later endpoints decide. */
  lemma LaterRequestsDecide(script: Script, i: nat, a: Attempt, r: Resolution, end: nat, more: seq<Request>)
    requires AttemptAttributed(script, i, a) && Attributed(script, i + 1, r, end, more)
    ensures Attributed(script, i, r, end, a.requests + more)
  {
    var all := a.requests + more;
    assert all[|all| - 1] == more[|more| - 1] && all[0] == a.requests[0];
    assert LastFetch(script, all) == LastFetch(script, more) by {
      if |more| == 1 { assert all[|all| - 2] == a.requests[|a.requests| - 1]; } else { assert all[|all| - 2] == more[|more| - 2]; }
    }
  }

  /**
   * Whatever the endpoints do: when the resolution gives up at the deadline of its last request, the reason is a timeout,
   * except that the last endpoint's good headers, in before that deadline, make it an invalid response.
   */
  lemma {:induction false} LateBodyIsInvalid(script: Script, i: nat, t: nat, budget: nat, abort: nat, lastReason: Reason)
    requires i < |script| && t < abort
    ensures var (r, end, requests) := Resolve(script, i, t, budget, abort, lastReason);
      Attributed(script, i, r, end, requests)
    decreases |script| - i
  {
    var a := AttemptEndpoint(i, t, budget, abort, script[i].0, script[i].1);
    LateAttempt(script, i, t, budget, abort);
    AttemptStaysInBudget(i, t, budget, abort, script[i].0, script[i].1);
    if a.outcome.Failed? {
      var (r, end, more) := Resolve(script, i + 1, a.end, budget, abort, a.outcome.reason);
      if i + 1 < |script| && a.end < abort {
        LateBodyIsInvalid(script, i + 1, a.end, budget, abort, a.outcome.reason);
        LaterRequestsDecide(script, i, a, r, end, more);
      } else {
        assert more == [] && a.requests + more == a.requests;
      }
    }
  }

  /** Two endpoints that answer well but slowly: nothing was malformed, no budget was kept, and the reason is an invalid response. */
  lemma SlowBodiesAreCalledInvalid()
    ensures var slow := Fetch(10, Body(Some("FR")), 90);
      Resolve([(slow, slow), (slow, slow)], 0, 0, 50, 1000, FetchFailed)
      == (Unresolved(InvalidResponse), 100, [Request(0, 0, 50), Request(1, 50, 100)])
  {
    var slow := Fetch(10, Body(Some("FR")), 90);
    var script := [(slow, slow), (slow, slow)];
    assert AttemptEndpoint(0, 0, 50, 1000, slow, slow) == Attempt(Failed(InvalidResponse, false), 50, [Request(0, 0, 50)]);
    assert AttemptEndpoint(1, 50, 50, 1000, slow, slow) == Attempt(Failed(InvalidResponse, false), 100, [Request(1, 50, 100)]);
    assert script[0] == (slow, slow) && script[1] == (slow, slow);
    assert Resolve(script, 2, 100, 50, 1000, InvalidResponse) == (Unresolved(InvalidResponse), 100, []);
    assert [Request(1, 50, 100)] + [] == [Request(1, 50, 100)];
    assert Resolve(script, 1, 50, 50, 1000, InvalidResponse) == (Unresolved(InvalidResponse), 100, [Request(1, 50, 100)]);
    assert [Request(0, 0, 50)] + [Request(1, 50, 100)] == [Request(0, 0, 50), Request(1, 50, 100)];
    assert Resolve(script, 0, 0, 50, 1000, FetchFailed) == (Unresolved(InvalidResponse), 100, [Request(0, 0, 50)] + [Request(1, 50, 100)]);
  }
}
