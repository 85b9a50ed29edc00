/** The network verdict cache: TTL and network match for hits, one refresh at a time, exponential backoff after failures. */
module VerdictCache {
  import opened JsObject

  /** What a verdict is bound to: the local fingerprint and the configuration epoch. */
  datatype Network = Network(fingerprint: string, epoch: string)

  datatype Verdict = Allowed | Blocked | Unknown
  datatype Reason = Timeout | InvalidResponse | FetchFailed

  /** What `fetchCountry` and `classify` come to. */
  datatype Resolution = Resolved(verdict: Verdict) | Failure(reason: Reason)

  datatype Options = Options(ttl: nat, base: nat, max: nat)

  datatype Entry = Entry(verdict: Verdict, fetchedAt: int, network: Network)
  datatype Flight = Flight(start: int, network: Network, settled: Option<Resolution>)

  datatype Answer =
    | Hit(verdict: Verdict, sampledAt: int, freshFor: int)
    | Degraded(reason: Reason)
    | Awaits(flight: Flight)    // the caller gets what this refresh comes to

  datatype State = State(
    cached: Option<Entry>, flight: Option<Flight>, last: Option<Network>,
    nextAttemptAt: int, backoff: nat, lastReason: Reason)

  function Initial(o: Options): State {
    State(None, None, None, 0, o.base, FetchFailed)
  }

  function Min(a: int, b: int): int { if a < b then a else b }

  /** `check()` up to its first await; `start` is the clock as the refresh reads it again. */
  function AfterCheck(s: State, o: Options, now: int, start: int, n: Network): (State, Answer) {
    if s.cached.Some? && now - s.cached.value.fetchedAt < o.ttl && s.cached.value.network == n then
      (s, Hit(s.cached.value.verdict, s.cached.value.fetchedAt, o.ttl - (now - s.cached.value.fetchedAt)))
    else if s.flight.Some? then (s, Awaits(s.flight.value))
    else if s.last == Some(n) && now < s.nextAttemptAt then (s, Degraded(s.lastReason))
    else
      var f := Flight(start, n, None);
      (s.(flight := Some(f), last := Some(n)), Awaits(f))
  }

  /** The rest of `refresh` once the country is resolved or not. */
  function AfterSettle(s: State, o: Options, r: Resolution): State {
    if s.flight.None? || s.flight.value.settled.Some? then s
    else
      var f := s.flight.value.(settled := Some(r));
      match r
      case Resolved(v) => s.(flight := Some(f), cached := Some(Entry(v, f.start, f.network)), nextAttemptAt := 0, backoff := o.base)
      case Failure(reason) => s.(flight := Some(f), nextAttemptAt := f.start + s.backoff, backoff := Min(s.backoff * 2, o.max), lastReason := reason)
  }

  /** The `finally` that clears the settled flight, in a microtask of its own. */
  function AfterClear(s: State): State {
    if s.flight.Some? && s.flight.value.settled.Some? then s.(flight := None) else s
  }

  class NetworkVerdictCache {
    const options: Options
    var cached: Option<Entry>
    var flight: Option<Flight>
    var last: Option<Network>
    var nextAttemptAt: int
    var backoff: nat
    var lastReason: Reason

    function Abstract(): State
      reads this
    {
      State(cached, flight, last, nextAttemptAt, backoff, lastReason)
    }

    constructor (options: Options)
      ensures this.options == options && Abstract() == Initial(options)
    {
      this.options := options;
      cached, flight, last, nextAttemptAt, backoff, lastReason := None, None, None, 0, options.base, FetchFailed;
    }

    method Check(now: int, start: int, network: Network) returns (a: Answer)
      modifies this
      ensures (Abstract(), a) == AfterCheck(old(Abstract()), options, now, start, network)
      ensures a.Hit? ==> cached == old(cached) && cached.Some? && cached.value.network == network && now < cached.value.fetchedAt + options.ttl
      ensures a.Degraded? ==> old(last) == Some(network) && now < old(nextAttemptAt) && flight.None?
      ensures a.Awaits? ==> flight == Some(a.flight) && (old(flight).None? ==> a.flight == Flight(start, network, None))
    {
      if cached.Some? {
        var entry := cached.value;
        if now - entry.fetchedAt < options.ttl && entry.network == network {
          return Hit(entry.verdict, entry.fetchedAt, options.ttl - (now - entry.fetchedAt));
        }
      }
      if flight.None? && last == Some(network) && now < nextAttemptAt { return Degraded(lastReason); }
      if flight.None? {
        last := Some(network);
        flight := Some(Flight(start, network, None));
      }
      a := Awaits(flight.value);
    }

    method Settle(r: Resolution)
      requires flight.Some? && flight.value.settled.None?
      modifies this
      ensures Abstract() == AfterSettle(old(Abstract()), options, r)
      ensures r.Failure? ==> cached == old(cached)
    {
      var f := flight.value;
      flight := Some(f.(settled := Some(r)));
      match r {
        case Resolved(v) =>
          cached := Some(Entry(v, f.start, f.network));
          nextAttemptAt := 0;
          backoff := options.base;
        case Failure(reason) =>
          lastReason := reason;
          var wait := backoff;
          nextAttemptAt := f.start + wait;
          backoff := if wait * 2 < options.max then wait * 2 else options.max;
      }
    }

    method Clear()
      modifies this
      ensures Abstract() == AfterClear(old(Abstract()))
    {
      if flight.Some? && flight.value.settled.Some? { flight := None; }
    }
  }

  // ----- whole runs -----

  datatype Event = Checked(now: int, start: int, network: Network) | Settled(r: Resolution) | Cleared

  /** The state together with every attempt made so far, the last one possibly still in flight. */
  datatype Trace = Trace(state: State, clock: int, attempts: seq<Flight>)

  function Extend(t: Trace, o: Options, e: Event): Trace {
    match e
    case Checked(now, start, n) =>
      var (s, a) := AfterCheck(t.state, o, now, start, n);
      Trace(s, start, if t.state.flight.None? && s.flight.Some? then t.attempts + [s.flight.value] else t.attempts)
    case Settled(r) =>
      var s := AfterSettle(t.state, o, r);
      Trace(s, t.clock, if s != t.state && t.attempts != [] && s.flight.Some? then t.attempts[..|t.attempts| - 1] + [s.flight.value] else t.attempts)
    case Cleared => t.(state := AfterClear(t.state))
  }

  /** The clock never goes back. */
  predicate InTime(t: Trace, e: Event) {
    e.Checked? ==> t.clock <= e.now <= e.start
  }

  function Play(t: Trace, o: Options, events: seq<Event>): Trace
    decreases |events|
  {
    if events == [] then t else Play(Extend(t, o, events[0]), o, events[1..])
  }

  predicate AllInTime(t: Trace, o: Options, events: seq<Event>)
    decreases |events|
  {
    events != [] ==> InTime(t, events[0]) && AllInTime(Extend(t, o, events[0]), o, events[1..])
  }

  function Pow2(k: nat): nat { if k == 0 then 1 else 2 * Pow2(k - 1) }

  predicate Failed(f: Flight) { f.settled.Some? && f.settled.value.Failure? }

  /** How many failures in a row end at attempt `n - 1`. */
  function FailuresBefore(attempts: seq<Flight>, n: nat): nat
    requires n <= |attempts|
  {
    if n > 0 && Failed(attempts[n - 1]) then 1 + FailuresBefore(attempts, n - 1) else 0
  }

  /** The wait after `k` consecutive failures; only the very first one is not capped. */
  function Wait(o: Options, k: nat): nat
    requires k > 0
  {
    if k == 1 then o.base else Min(o.base * Pow2(k - 1), o.max)
  }

  /** An attempt on the network the previous one failed on keeps its distance. */
  ghost predicate Spaced(o: Options, attempts: seq<Flight>, i: nat)
    requires i + 1 < |attempts|
  {
    var k := FailuresBefore(attempts, i + 1);
    k > 0 && attempts[i + 1].network == attempts[i].network ==> attempts[i + 1].start >= attempts[i].start + Wait(o, k)
  }

  /** The entry is the outcome of a successful attempt on its own network. */
  ghost predicate FromSuccess(attempts: seq<Flight>, e: Entry) {
    exists i :: 0 <= i < |attempts| && attempts[i] == Flight(e.fetchedAt, e.network, Some(Resolved(e.verdict)))
  }

  /** Every attempt but the newest has settled; the newest is the one in flight, if any is. */
  ghost predicate OneAtATime(t: Trace) {
    && (forall i :: 0 <= i < |t.attempts| - 1 ==> t.attempts[i].settled.Some?)
    && (t.state.flight.Some? ==> t.attempts != [] && t.attempts[|t.attempts| - 1] == t.state.flight.value)
    && (t.state.flight.None? && t.attempts != [] ==> t.attempts[|t.attempts| - 1].settled.Some?)
    && t.state.last == (if t.attempts == [] then None else Some(t.attempts[|t.attempts| - 1].network))
  }

  ghost predicate BackoffOk(t: Trace, o: Options) {
    var n := |t.attempts|;
    var settled := n > 0 && t.attempts[n - 1].settled.Some?;
    var k := FailuresBefore(t.attempts, if n > 0 && !settled then n - 1 else n);
    && t.state.backoff == (if k == 0 then o.base else Wait(o, k + 1))
    && (settled && k > 0 ==> t.state.nextAttemptAt == t.attempts[n - 1].start + Wait(o, k))
  }

  ghost predicate Inv(t: Trace, o: Options) {
    && OneAtATime(t) && BackoffOk(t, o)
    && (t.state.cached.Some? ==> FromSuccess(t.attempts, t.state.cached.value) && t.state.cached.value.fetchedAt <= t.clock)
    && (forall i :: 0 <= i < |t.attempts| ==> t.attempts[i].start <= t.clock)
    && forall i :: 0 <= i < |t.attempts| - 1 ==> Spaced(o, t.attempts, i)
  }

  lemma {:induction false} FailuresSame(a: seq<Flight>, b: seq<Flight>, n: nat)
    requires n <= |a| && n <= |b| && a[..n] == b[..n]
    ensures FailuresBefore(a, n) == FailuresBefore(b, n)
  {
    if n > 0 {
      assert a[n - 1] == a[..n][n - 1] == b[..n][n - 1] == b[n - 1];
      assert a[..n - 1] == a[..n][..n - 1] == b[..n - 1];
      FailuresSame(a, b, n - 1);
    }
  }

  /** Doubling and capping step by step is capping the power. */
  lemma Doubles(o: Options, k: nat)
    requires k > 0
    ensures Min((if k == 1 then o.base else Wait(o, k)) * 2, o.max) == Wait(o, k + 1)
  {
    assert Pow2(k) == 2 * Pow2(k - 1);
    assert o.base * Pow2(k) == 2 * (o.base * Pow2(k - 1));
  }

  lemma PrefixKept(t: Trace, o: Options, attempts: seq<Flight>, m: nat)
    requires m <= |t.attempts| && m <= |attempts| && attempts[..m] == t.attempts[..m]
    requires forall i :: 0 <= i < |t.attempts| - 1 ==> Spaced(o, t.attempts, i)
    ensures forall i :: 0 <= i < m - 1 ==> Spaced(o, attempts, i)
  {
    forall i | 0 <= i < m - 1 ensures Spaced(o, attempts, i) {
      assert Spaced(o, t.attempts, i);
      assert attempts[i] == attempts[..m][i] == t.attempts[i] && attempts[i + 1] == attempts[..m][i + 1] == t.attempts[i + 1];
      assert attempts[..i + 1] == attempts[..m][..i + 1] == t.attempts[..i + 1];
      FailuresSame(attempts, t.attempts, i + 1);
    }
  }

  lemma StartKeeps(t: Trace, o: Options, e: Event)
    requires Inv(t, o) && e.Checked? && InTime(t, e) && t.state.flight.None? && AfterCheck(t.state, o, e.now, e.start, e.network).0.flight.Some?
    ensures Inv(Extend(t, o, e), o)
  {
    var v := Extend(t, o, e);
    var n := |t.attempts|;
    assert v.attempts[..n] == t.attempts;
    assert t.attempts[..n] == t.attempts;
    FailuresSame(v.attempts, t.attempts, n);
    PrefixKept(t, o, v.attempts, n);
    if v.state.cached.Some? {
      var i :| 0 <= i < n && t.attempts[i] == Flight(t.state.cached.value.fetchedAt, t.state.cached.value.network, Some(Resolved(t.state.cached.value.verdict)));
      assert v.attempts[i] == t.attempts[i];
    }
  }

  /** A settled attempt takes the place of the one in flight. */
  lemma SettleShape(t: Trace, o: Options, r: Resolution)
    requires OneAtATime(t) && t.state.flight.Some? && t.state.flight.value.settled.None?
    ensures var v := Extend(t, o, Settled(r));
      var n := |t.attempts|;
      && n > 0 && v.attempts == t.attempts[..n - 1] + [t.state.flight.value.(settled := Some(r))]
      && v.attempts[..n - 1] == t.attempts[..n - 1] && v.attempts[n - 1] == v.state.flight.value
      && t.attempts[n - 1] == t.state.flight.value
  {
    var v := Extend(t, o, Settled(r));
    var n := |t.attempts|;
    assert v.attempts[..n - 1] == t.attempts[..n - 1];
  }

  lemma SettledBackoff(t: Trace, o: Options, r: Resolution)
    requires OneAtATime(t) && BackoffOk(t, o) && t.state.flight.Some? && t.state.flight.value.settled.None?
    ensures BackoffOk(Extend(t, o, Settled(r)), o)
  {
    SettleShape(t, o, r);
    var v := Extend(t, o, Settled(r));
    var n := |t.attempts|;
    FailuresSame(v.attempts, t.attempts, n - 1);
    if r.Failure? { Doubles(o, FailuresBefore(t.attempts, n - 1) + 1); }
  }

  lemma SettledSpacing(t: Trace, o: Options, r: Resolution)
    requires OneAtATime(t) && t.state.flight.Some? && t.state.flight.value.settled.None?
    requires forall i :: 0 <= i < |t.attempts| - 1 ==> Spaced(o, t.attempts, i)
    ensures var v := Extend(t, o, Settled(r));
      forall i :: 0 <= i < |v.attempts| - 1 ==> Spaced(o, v.attempts, i)
  {
    SettleShape(t, o, r);
    var v := Extend(t, o, Settled(r));
    var n := |t.attempts|;
    PrefixKept(t, o, v.attempts, n - 1);
    if n >= 2 {
      assert Spaced(o, t.attempts, n - 2);
      assert v.attempts[n - 2] == v.attempts[..n - 1][n - 2] == t.attempts[n - 2];
      FailuresSame(v.attempts, t.attempts, n - 1);
    }
  }

  lemma SettledEntry(t: Trace, o: Options, r: Resolution)
    requires Inv(t, o) && t.state.flight.Some? && t.state.flight.value.settled.None?
    ensures var v := Extend(t, o, Settled(r));
      v.state.cached.Some? ==> FromSuccess(v.attempts, v.state.cached.value) && v.state.cached.value.fetchedAt <= v.clock
  {
    SettleShape(t, o, r);
    var v := Extend(t, o, Settled(r));
    var n := |t.attempts|;
    if r.Resolved? {
      assert v.attempts[n - 1] == Flight(t.state.flight.value.start, t.state.flight.value.network, Some(r));
    } else if t.state.cached.Some? {
      var c := t.state.cached.value;
      var i :| 0 <= i < n && t.attempts[i] == Flight(c.fetchedAt, c.network, Some(Resolved(c.verdict)));
      assert i < n - 1;
      assert v.attempts[i] == v.attempts[..n - 1][i] == t.attempts[i];
    }
  }

  lemma SettleKeeps(t: Trace, o: Options, r: Resolution)
    requires Inv(t, o) && t.state.flight.Some? && t.state.flight.value.settled.None?
    ensures Inv(Extend(t, o, Settled(r)), o)
  {
    SettleShape(t, o, r);
    SettledBackoff(t, o, r);
    SettledSpacing(t, o, r);
    SettledEntry(t, o, r);
  }

  lemma EventKeeps(t: Trace, o: Options, e: Event)
    requires Inv(t, o) && InTime(t, e)
    ensures Inv(Extend(t, o, e), o)
  {
    match e
    case Checked(now, start, n) => if t.state.flight.None? && AfterCheck(t.state, o, now, start, n).0.flight.Some? { StartKeeps(t, o, e); }
    case Settled(r) => if t.state.flight.Some? && t.state.flight.value.settled.None? { SettleKeeps(t, o, r); }
    case Cleared =>
  }

  lemma {:induction false} PlayKeeps(t: Trace, o: Options, events: seq<Event>)
    requires Inv(t, o) && AllInTime(t, o, events)
    ensures Inv(Play(t, o, events), o)
    decreases |events|
  {
    if events != [] {
      EventKeeps(t, o, events[0]);
      PlayKeeps(Extend(t, o, events[0]), o, events[1..]);
    }
  }

  function Begin(o: Options, clock: int): Trace {
    Trace(Initial(o), clock, [])
  }

  /** Over any run at most one refresh is unfinished, and it is the newest. */
  lemma SingleFlight(o: Options, clock: int, events: seq<Event>)
    requires AllInTime(Begin(o, clock), o, events)
    ensures var t := Play(Begin(o, clock), o, events);
      forall i :: 0 <= i < |t.attempts| && t.attempts[i].settled.None? ==> i == |t.attempts| - 1 && t.state.flight == Some(t.attempts[i])
  {
    PlayKeeps(Begin(o, clock), o, events);
  }

  /** A hit repeats a successful resolution that began on the caller's own network less than the TTL ago. */
  lemma HitsAreFresh(o: Options, clock: int, events: seq<Event>, now: int, start: int, n: Network)
    requires AllInTime(Begin(o, clock), o, events)
    ensures var t := Play(Begin(o, clock), o, events);
      var a := AfterCheck(t.state, o, now, start, n).1;
      t.clock <= now && a.Hit? ==>
        && 0 <= now - a.sampledAt < o.ttl && a.freshFor == a.sampledAt + o.ttl - now
        && exists i :: 0 <= i < |t.attempts| && t.attempts[i] == Flight(a.sampledAt, n, Some(Resolved(a.verdict)))
  {
    PlayKeeps(Begin(o, clock), o, events);
  }

  lemma WaitReachesCappedPower(o: Options, k: nat)
    requires k > 0
    ensures Wait(o, k) >= Min(o.base * Pow2(k - 1), o.max)
  {
    assert Pow2(0) == 1;
  }

  /** After `k` failures in a row, the next attempt on the same network waits at least the k-th backoff after the last one. */
  lemma FailuresBackOff(o: Options, clock: int, events: seq<Event>, i: nat)
    requires AllInTime(Begin(o, clock), o, events)
    requires i + 1 < |Play(Begin(o, clock), o, events).attempts|
    ensures var attempts := Play(Begin(o, clock), o, events).attempts;
      var k := FailuresBefore(attempts, i + 1);
      k > 0 && attempts[i + 1].network == attempts[i].network ==> attempts[i + 1].start >= attempts[i].start + Min(o.base * Pow2(k - 1), o.max)
  {
    PlayKeeps(Begin(o, clock), o, events);
    var attempts := Play(Begin(o, clock), o, events).attempts;
    assert Spaced(o, attempts, i);
    var k := FailuresBefore(attempts, i + 1);
    if k > 0 { WaitReachesCappedPower(o, k); }
  }

  /** If the newest attempt has failed, the k-th in a row, the cache postpones the next one by the capped power. */
  ghost predicate PostponesByCappedPower(t: Trace, o: Options) {
    var n := |t.attempts|;
    n > 0 && Failed(t.attempts[n - 1]) ==>
      t.state.nextAttemptAt - t.attempts[n - 1].start == Min(o.base * Pow2(FailuresBefore(t.attempts, n) - 1), o.max)
  }

  /** The run of a first check and its failure, step by step. */
  lemma FirstFailure(o: Options, n: Network, reason: Reason)
    ensures var events := [Checked(0, 0, n), Settled(Failure(reason))];
      var t := Play(Begin(o, 0), o, events);
      && AllInTime(Begin(o, 0), o, events)
      && t.attempts == [Flight(0, n, Some(Failure(reason)))] && t.state.nextAttemptAt == o.base
  {
    var check, failure := Checked(0, 0, n), Settled(Failure(reason));
    var first := Extend(Begin(o, 0), o, check);
    assert first.attempts == [Flight(0, n, None)];
    var second := Extend(first, o, failure);
    assert second.attempts == [Flight(0, n, Some(Failure(reason)))];
    assert [failure][1..] == [] && [check, failure][1..] == [failure];
    assert Play(first, o, [failure]) == second && AllInTime(first, o, [failure]);
  }

  lemma FirstFailurePostpones(t: Trace, o: Options, f: Flight)
    requires o.base > o.max && t.attempts == [f] && Failed(f) && f.start == 0 && t.state.nextAttemptAt == o.base
    ensures !PostponesByCappedPower(t, o)
  {
    assert FailuresBefore(t.attempts, 0) == 0 && FailuresBefore(t.attempts, 1) == 1;
    assert Pow2(0) == 1;
  }

  /** A cache whose first backoff exceeds the cap waits that long after its first failure. */
  lemma FirstWaitExceedsCap(o: Options, n: Network, reason: Reason)
    requires o.base > o.max
    ensures var events := [Checked(0, 0, n), Settled(Failure(reason))];
      var t := Play(Begin(o, 0), o, events);
      && AllInTime(Begin(o, 0), o, events)
      && t.attempts == [Flight(0, n, Some(Failure(reason)))] && t.state.nextAttemptAt == o.base > o.max
      && !PostponesByCappedPower(t, o)
  {
    FirstFailure(o, n, reason);
    FirstFailurePostpones(Play(Begin(o, 0), o, [Checked(0, 0, n), Settled(Failure(reason))]), o, Flight(0, n, Some(Failure(reason))));
  }

  /** On every run the cache postpones by the capped power exactly when the first backoff does not exceed the cap. */
  lemma PostponementIsCappedPower(o: Options)
    ensures (forall clock, events :: AllInTime(Begin(o, clock), o, events) ==> PostponesByCappedPower(Play(Begin(o, clock), o, events), o))
            <==> o.base <= o.max
  {
    if o.base <= o.max {
      forall clock, events | AllInTime(Begin(o, clock), o, events) ensures PostponesByCappedPower(Play(Begin(o, clock), o, events), o) {
        PlayKeeps(Begin(o, clock), o, events);
        assert Pow2(0) == 1;
      }
    } else {
      var n := Network("", "");
      FirstWaitExceedsCap(o, n, Timeout);
      assert !PostponesByCappedPower(Play(Begin(o, 0), o, [Checked(0, 0, n), Settled(Failure(Timeout))]), o);
    }
  }

  // ----- what a caller is told -----

  /** The answer speaks of network `n`: a successful attempt on it, or the newest attempt, which was made on it. */
  ghost predicate IsAbout(t: Trace, a: Answer, n: Network) {
    match a
    case Hit(verdict, at, _) => exists i :: 0 <= i < |t.attempts| && t.attempts[i] == Flight(at, n, Some(Resolved(verdict)))
    case Degraded(_) => t.attempts != [] && t.attempts[|t.attempts| - 1].network == n
    case Awaits(f) => f.network == n
  }

  predicate HasFreshEntry(s: State, o: Options, now: int, n: Network) {
    s.cached.Some? && s.cached.value.network == n && now - s.cached.value.fetchedAt < o.ttl
  }

  /**
   * On every run: what a caller is told is about its own network exactly when no refresh is in flight, the one in flight
   * began on that network, or the cache has a fresh entry for it.
   */
  lemma AnswerIsAboutTheCallersNetwork(o: Options, clock: int, events: seq<Event>, now: int, start: int, n: Network)
    requires AllInTime(Begin(o, clock), o, events)
    ensures var t := Play(Begin(o, clock), o, events);
      IsAbout(t, AfterCheck(t.state, o, now, start, n).1, n) <==>
        t.state.flight.None? || t.state.flight.value.network == n || HasFreshEntry(t.state, o, now, n)
  {
    PlayKeeps(Begin(o, clock), o, events);
  }

  /** A caller on another network that arrives during the very first refresh is told about the network that refresh began on. */
  lemma ChangedNetworkJoins(o: Options, m: Network, n: Network)
    requires m != n
    ensures var events := [Checked(1, 1, m)];
      var t := Play(Begin(o, 0), o, events);
      && AllInTime(Begin(o, 0), o, events)
      && AfterCheck(t.state, o, 2, 2, n) == (t.state, Awaits(Flight(1, m, None)))
      && !IsAbout(t, AfterCheck(t.state, o, 2, 2, n).1, n)
  {
    assert [Checked(1, 1, m)][1..] == [];
  }

  /**
   * Which answer a check gives, and what it begins: a fresh verdict for the caller's network if there is one, else what a
   * refresh in flight comes to, else the last failure if it was on this network and the backoff runs, else a new refresh.
   */
  lemma ChecksExactly(s: State, o: Options, now: int, start: int, n: Network)
    ensures var (t, a) := AfterCheck(s, o, now, start, n);
      var backingOff := s.last == Some(n) && now < s.nextAttemptAt;
      && (a.Hit? <==> HasFreshEntry(s, o, now, n))
      && (a.Hit? ==> a.verdict == s.cached.value.verdict && a.sampledAt == s.cached.value.fetchedAt && a.sampledAt + o.ttl == now + a.freshFor)
      && (a.Degraded? <==> !HasFreshEntry(s, o, now, n) && s.flight.None? && backingOff)
      && (a.Degraded? ==> a.reason == s.lastReason)
      && (a.Awaits? ==> a.flight == if s.flight.Some? then s.flight.value else Flight(start, n, None))
      && (if a.Awaits? && s.flight.None? then t == State(s.cached, Some(a.flight), Some(n), s.nextAttemptAt, s.backoff, s.lastReason) else t == s)
  {
  }

  /**
   * What a refresh leaves behind once it has settled and been cleared. A success answers its own network until the TTL
   * ends; a failure is never served as a verdict and turns callers on its network away until the backoff ends.
   */
  lemma SettledRefreshDecidesAnswers(s: State, o: Options, r: Resolution, now: int, start: int, n: Network)
    requires s.flight.Some? && s.flight.value.settled.None? && s.last == Some(s.flight.value.network) && s.flight.value.start <= now
    ensures var f := s.flight.value;
      var t := AfterClear(AfterSettle(s, o, r));
      var a := AfterCheck(t, o, now, start, n).1;
      && (r.Resolved? ==> (a.Hit? <==> n == f.network && now < f.start + o.ttl)
                          && (a.Hit? ==> a == Hit(r.verdict, f.start, f.start + o.ttl - now)))
      && (r.Failure? ==> (a.Hit? <==> HasFreshEntry(s, o, now, n)))
      && (r.Failure? && !a.Hit? ==> if n == f.network && now < f.start + s.backoff then a == Degraded(r.reason) else a == Awaits(Flight(start, n, None)))
  {
    var t := AfterClear(AfterSettle(s, o, r));
    assert t.flight.None?;
  }
}
