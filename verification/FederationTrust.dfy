/**
 * evaluateEntityTrust: trust evaluations with a time-limited cache, a negative cache, stale results
 * after a failed refresh, and at most one evaluation in flight per key.
 */
module FederationTrust {
  import opened Wrappers

  const STALE_TTL := 60 * 60 * 1000
  const NEGATIVE_TTL := 10 * 1000

  datatype Evaluation = Evaluation(trusted: bool, reason: string)

  /** The cache key: the entity without trailing slash, and the configured anchors. */
  datatype Key = Key(entity: string, anchors: seq<string>)

  datatype Cached = Cached(value: Evaluation, fetchedAt: int, expiresAt: int)

  /** One evaluation: what its caller saw when it started, and its result once there is one. */
  datatype Flight = Flight(key: Key, startedAt: int, cached: Option<Cached>, ttl: int, result: Option<Evaluation>,
                           finished: bool)

  /** What the chain evaluator does: it answers, or it throws. */
  datatype Outcome = Evaluated(value: Evaluation) | Threw

  datatype Service = Service(cache: map<Key, Cached>, inFlight: map<Key, nat>, flights: seq<Flight>)

  const IDLE := Service(map[], map[], [])

  /** How a call goes on: answered from the cache, waiting for another's evaluation, or its own. */
  datatype Begun = Hit(value: Evaluation) | Joined(flight: nat) | Started(flight: nat)

  function WithoutSlash(id: string): string {
    if id != "" && id[|id| - 1] == '/' then id[..|id| - 1] else id
  }

  predicate IsAnchor(key: Key) {
    exists i :: 0 <= i < |key.anchors| && WithoutSlash(key.anchors[i]) == key.entity
  }

  const ANCHOR := Evaluation(true, "entity is a configured federation trust anchor")
  const UNREACHABLE := Evaluation(false, "could not fetch federation entity configuration")

  /** The lifetime of a cache entry in milliseconds: at least five seconds, five minutes by default. */
  function Ttl(seconds: Option<int>): (ms: int)
    ensures seconds == None ==> ms == 300_000
    ensures seconds.Some? ==> ms >= 5_000 && ms >= 1_000 * seconds.value
    ensures seconds.Some? ==> ms == 5_000 || ms == 1_000 * seconds.value
  {
    var s := match seconds case Some(n) => n case None => 300;
    (if s < 5 then 5 else s) * 1000
  }

  // ---- The service as functions ---------------------------------------------------------

  function SetCache(s: Service, now: int, key: Key, ttl: int, value: Evaluation): Service {
    s.(cache := s.cache[key := Cached(value, now, now + ttl)])
  }

  predicate Fresh(s: Service, now: int, key: Key) {
    key in s.cache && s.cache[key].expiresAt > now
  }

  function Begin(s: Service, now: int, key: Key, seconds: Option<int>): Begun {
    if Fresh(s, now, key) then Hit(s.cache[key].value)
    else if key in s.inFlight then Joined(s.inFlight[key])
    else Started(|s.flights|)
  }

  /** The synchronous part of a call. */
  function Called(s: Service, now: int, key: Key, seconds: Option<int>): Service {
    if !Begin(s, now, key, seconds).Started? then s
    else
      var cached := if key in s.cache then Some(s.cache[key]) else None;
      var ttl := Ttl(seconds);
      if IsAnchor(key) then
        SetCache(s, now, key, ttl, ANCHOR).(
          inFlight := s.inFlight[key := |s.flights|],
          flights := s.flights + [Flight(key, now, cached, ttl, Some(ANCHOR), false)])
      else
        s.(inFlight := s.inFlight[key := |s.flights|],
           flights := s.flights + [Flight(key, now, cached, ttl, None, false)])
  }

  /** The stale value a failed refresh may serve. */
  predicate MayServeStale(f: Flight) {
    f.cached.Some? && f.startedAt - f.cached.value.fetchedAt <= STALE_TTL
  }

  function ResultOf(f: Flight, outcome: Outcome): Evaluation {
    match outcome
    case Evaluated(value) => value
    case Threw => if MayServeStale(f) then f.cached.value.value else UNREACHABLE
  }

  predicate Running(s: Service, i: nat) {
    i < |s.flights| && s.flights[i].result.None?
  }

  /** The chain evaluation of a flight ends. */
  function Settled(s: Service, now: int, i: nat, outcome: Outcome): Service
    requires Running(s, i)
  {
    var f := s.flights[i];
    var done := s.(flights := s.flights[i := f.(result := Some(ResultOf(f, outcome)))]);
    match outcome
    case Evaluated(value) => SetCache(done, now, f.key, f.ttl, value)
    case Threw => if MayServeStale(f) then done else SetCache(done, now, f.key, NEGATIVE_TTL, UNREACHABLE)
  }

  predicate CanFinish(s: Service, i: nat) {
    i < |s.flights| && s.flights[i].result.Some? && !s.flights[i].finished
  }

  /** The caller that started the flight resumes: its `finally` removes the key. */
  function Finished(s: Service, i: nat): Service
    requires CanFinish(s, i)
  {
    s.(inFlight := s.inFlight - {s.flights[i].key}, flights := s.flights[i := s.flights[i].(finished := true)])
  }

  function Cleared(s: Service): Service {
    s.(cache := map[], inFlight := map[])
  }

  // ---- The service ----------------------------------------------------------------------

  class FederationTrustService {
    var trustCache: map<Key, Cached>
    var inFlightEvaluations: map<Key, nat>
    var flights: seq<Flight>

    constructor ()
      ensures State() == IDLE
    {
      trustCache, inFlightEvaluations, flights := map[], map[], [];
    }

    function State(): Service
      reads this
    {
      Service(trustCache, inFlightEvaluations, flights)
    }

    method StoreValue(now: int, key: Key, ttl: int, value: Evaluation)
      modifies this`trustCache
      ensures State() == SetCache(old(State()), now, key, ttl, value)
    {
      trustCache := trustCache[key := Cached(value, now, now + ttl)];
    }

    /** evaluateEntityTrust up to its first await. */
    method EvaluateEntityTrust(now: int, key: Key, seconds: Option<int>) returns (begun: Begun)
      modifies this
      ensures begun == Begin(old(State()), now, key, seconds)
      ensures State() == Called(old(State()), now, key, seconds)
    {
      if key in trustCache && trustCache[key].expiresAt > now {
        return Hit(trustCache[key].value);
      }
      if key in inFlightEvaluations {
        return Joined(inFlightEvaluations[key]);
      }
      var cached := if key in trustCache then Some(trustCache[key]) else None;
      var id, result := |flights|, None;
      if IsAnchor(key) {
        StoreValue(now, key, Ttl(seconds), ANCHOR);
        result := Some(ANCHOR);
      }
      flights := flights + [Flight(key, now, cached, Ttl(seconds), result, false)];
      inFlightEvaluations := inFlightEvaluations[key := id];
      return Started(id);
    }

    /** The rest of the evaluation, once the chain evaluator has answered or thrown. */
    method OnChainResult(now: int, id: nat, outcome: Outcome)
      requires Running(State(), id)
      modifies this
      ensures State() == Settled(old(State()), now, id, outcome)
    {
      var flight := flights[id];
      var value;
      match outcome {
        case Evaluated(v) =>
          value := v;
          StoreValue(now, flight.key, flight.ttl, v);
        case Threw =>
          if flight.cached.Some? && flight.startedAt - flight.cached.value.fetchedAt <= STALE_TTL {
            value := flight.cached.value.value;
          } else {
            value := UNREACHABLE;
            StoreValue(now, flight.key, NEGATIVE_TTL, value);
          }
      }
      flights := flights[id := flight.(result := Some(value))];
    }

    /** The `finally` of the caller that started the evaluation. */
    method Resume(id: nat) returns (value: Evaluation)
      requires CanFinish(State(), id)
      modifies this
      ensures State() == Finished(old(State()), id) && Some(value) == old(flights[id].result)
    {
      value := flights[id].result.value;
      inFlightEvaluations := inFlightEvaluations - {flights[id].key};
      flights := flights[id := flights[id].(finished := true)];
    }

    method ClearTrustCache()
      modifies this
      ensures State() == Cleared(old(State()))
    {
      trustCache := map[];
      inFlightEvaluations := map[];
    }
  }

  // ---- The system -----------------------------------------------------------------------

  /** A successful evaluation (or anchor match) that was stored, for how long, and when. */
  datatype Production = Production(key: Key, value: Evaluation, at: int, ttl: int)

  /** A refresh that threw. */
  datatype Failure = Failure(key: Key, at: int)

  /** A value handed to a caller: by which evaluation (None: from the cache), and when that began. */
  datatype Return = Return(key: Key, value: Evaluation, servedAt: int, flight: Option<nat>)

  /**
   * The service, the clock, the flights that callers wait for, and what happened: what the cache held
   * when each flight began, what the chain evaluator answered to it, what was produced, what failed, and
   * what was returned.
   */
  datatype World = World(now: int, service: Service, joined: seq<nat>, held: map<nat, Cached>,
                         outcomes: map<nat, Outcome>, productions: seq<Production>, failures: seq<Failure>,
                         served: seq<Return>)

  datatype Step =
    | Tick(ms: nat)
    | Call(key: Key, seconds: Option<int>)
    | Settle(flight: nat, outcome: Outcome)
    | Finish(flight: nat)
    | Rejoin(waiting: nat)
    | Clear

  /** Every interleaving of callers, evaluations of any length and outcome, time, and clears. */
  predicate Enabled(w: World, step: Step) {
    match step
    case Settle(i, _) => Running(w.service, i)
    case Finish(i) => CanFinish(w.service, i)
    case Rejoin(j) => j < |w.joined| && w.joined[j] < |w.service.flights| && w.service.flights[w.joined[j]].result.Some?
    case _ => true
  }

  function FlightReturn(w: World, i: nat): Return
    requires i < |w.service.flights| && w.service.flights[i].result.Some?
  {
    var f := w.service.flights[i];
    Return(f.key, f.result.value, f.startedAt, Some(i))
  }

  /** The call as the service handles it, and what the caller got or waits for. */
  function AfterCall(w: World, key: Key, seconds: Option<int>): World {
    var v := w.(service := Called(w.service, w.now, key, seconds));
    match Begin(w.service, w.now, key, seconds)
    case Hit(value) => v.(served := w.served + [Return(key, value, w.now, None)])
    case Joined(i) => v.(joined := w.joined + [i])
    case Started(i) =>
      v.(held := if key in w.service.cache then w.held[i := w.service.cache[key]] else w.held,
         productions := w.productions + if IsAnchor(key) then [Production(key, ANCHOR, w.now, Ttl(seconds))] else [])
  }

  /** The record of what the chain evaluator did, kept apart from what the service made of it. */
  function Recorded(w: World, i: nat, outcome: Outcome): World
    requires i < |w.service.flights|
  {
    var f, v := w.service.flights[i], w.(outcomes := w.outcomes[i := outcome]);
    match outcome
    case Evaluated(value) => v.(productions := w.productions + [Production(f.key, value, w.now, f.ttl)])
    case Threw => v.(failures := w.failures + [Failure(f.key, w.now)])
  }

  function Next(w: World, step: Step): World
    requires Enabled(w, step)
  {
    match step
    case Tick(ms) => w.(now := w.now + ms)
    case Call(key, seconds) => AfterCall(w, key, seconds)
    case Settle(i, outcome) => Recorded(w, i, outcome).(service := Settled(w.service, w.now, i, outcome))
    case Finish(i) => w.(service := Finished(w.service, i), served := w.served + [FlightReturn(w, i)])
    case Rejoin(j) => w.(served := w.served + [FlightReturn(w, w.joined[j])])
    case Clear => w.(service := Cleared(w.service))
  }

  predicate Start(w: World) {
    && w.service == IDLE && w.joined == [] && w.held == map[] && w.outcomes == map[]
    && w.productions == [] && w.failures == [] && w.served == []
  }

  ghost predicate Runs(w: World, steps: seq<Step>, end: World)
    decreases |steps|
  {
    if steps == [] then end == w
    else Enabled(w, steps[0]) && Runs(Next(w, steps[0]), steps[1..], end)
  }

  // ---- Where returned values come from --------------------------------------------------

  /** `value` was produced for `key`, and at `at` that was less than its own lifetime ago. */
  predicate ProducedInTime(w: World, key: Key, value: Evaluation, at: int) {
    exists p :: p in w.productions && p.key == key && p.value == value && at - p.at < p.ttl
  }

  /** `value` was produced for `key`, and at `at` that was at most an hour ago. */
  predicate ProducedWithinHour(w: World, key: Key, value: Evaluation, at: int) {
    exists p :: p in w.productions && p.key == key && p.value == value && at - p.at <= 3_600_000
  }

  /** `value` was produced for `key` at `from` or later. */
  predicate ProducedSince(w: World, key: Key, value: Evaluation, from: int) {
    exists p :: p in w.productions && p.key == key && p.value == value && p.at >= from
  }

  /** At `at` a refresh of `key` had thrown less than ten seconds ago. */
  predicate FailedJustBefore(w: World, key: Key, at: int) {
    exists f :: f in w.failures && f.key == key && at - f.at < 10_000
  }

  /** From the cache: a value within its lifetime, or the negative entry of a recent failure. */
  predicate ExplainedHit(w: World, key: Key, value: Evaluation, at: int) {
    ProducedInTime(w, key, value, at) || (value == UNREACHABLE && FailedJustBefore(w, key, at))
  }

  /**
   * From evaluation `i`: the anchor's own value; what the evaluator answered, and nothing else; and only
   * if the evaluator threw, what the cache held when the evaluation began if that was fetched at most an
   * hour before, or else the negative result.
   */
  predicate ExplainedFlight(w: World, i: nat, key: Key, value: Evaluation, startedAt: int) {
    if IsAnchor(key) then value == ANCHOR && ProducedSince(w, key, value, startedAt)
    else
      && i in w.outcomes
      && match w.outcomes[i]
         case Evaluated(v) => value == v && ProducedSince(w, key, value, startedAt)
         case Threw =>
           && value == Fallback(w, i, startedAt)
           && (value == UNREACHABLE || ProducedWithinHour(w, key, value, startedAt))
  }

  function Fallback(w: World, i: nat, startedAt: int): Evaluation {
    if i in w.held && startedAt - w.held[i].fetchedAt <= 3_600_000 then w.held[i].value else UNREACHABLE
  }

  predicate Explained(w: World, r: Return) {
    match r.flight
    case None => ExplainedHit(w, r.key, r.value, r.servedAt)
    case Some(i) => ExplainedFlight(w, i, r.key, r.value, r.servedAt)
  }

  /** A cache entry is a production, stored when it says for as long as it says, or a recorded failure. */
  predicate Backed(w: World, key: Key, c: Cached) {
    || Production(key, c.value, c.fetchedAt, c.expiresAt - c.fetchedAt) in w.productions
    || (c.value == UNREACHABLE && c.expiresAt == c.fetchedAt + NEGATIVE_TTL && Failure(key, c.fetchedAt) in w.failures)
  }

  predicate GoodFlight(w: World, i: nat)
    requires i < |w.service.flights|
  {
    var f := w.service.flights[i];
    && f.startedAt <= w.now && f.ttl >= 5000
    && (f.cached == if i in w.held then Some(w.held[i]) else None)
    && (f.cached.Some? ==> Backed(w, f.key, f.cached.value))
    && (f.result.None? ==> i !in w.outcomes && !IsAnchor(f.key))
    && (f.result.Some? ==> ExplainedFlight(w, i, f.key, f.result.value, f.startedAt))
  }

  predicate GoodProduction(p: Production, now: int) {
    p.at <= now && p.ttl >= 5000
  }

  ghost predicate GoodWorld(w: World) {
    && (forall key :: key in w.service.cache ==> Backed(w, key, w.service.cache[key]))
    && (forall i :: 0 <= i < |w.service.flights| ==> GoodFlight(w, i))
    && (forall i :: i in w.outcomes || i in w.held ==> i < |w.service.flights|)
    && (forall p :: p in w.productions ==> GoodProduction(p, w.now))
    && (forall r :: r in w.served ==> Explained(w, r))
    && (forall r :: r in w.served && r.flight.Some? ==> r.flight.value < |w.service.flights|)
  }

  /** `v` knows all that `w` knows. */
  ghost predicate Knows(w: World, v: World) {
    && w.now <= v.now
    && (forall p :: p in w.productions ==> p in v.productions)
    && (forall f :: f in w.failures ==> f in v.failures)
    && (forall i :: i in w.outcomes ==> i in v.outcomes && v.outcomes[i] == w.outcomes[i])
    && (forall i :: i in w.held ==> i in v.held && v.held[i] == w.held[i])
  }

  lemma StillBacked(w: World, v: World, key: Key, c: Cached)
    requires Knows(w, v) && Backed(w, key, c)
    ensures Backed(v, key, c)
  {
  }

  lemma StillExplained(w: World, v: World, i: nat, key: Key, value: Evaluation, at: int)
    requires Knows(w, v)
    ensures ExplainedHit(w, key, value, at) ==> ExplainedHit(v, key, value, at)
    ensures ExplainedFlight(w, i, key, value, at) && (i in v.held ==> i in w.held) ==>
      ExplainedFlight(v, i, key, value, at)
  {
    hide IsAnchor;
  }

  lemma StillGood(w: World, v: World, i: nat)
    requires Knows(w, v) && i < |w.service.flights| && i < |v.service.flights| && GoodFlight(w, i)
    requires v.service.flights[i] == w.service.flights[i].(finished := v.service.flights[i].finished)
    requires (i in v.outcomes ==> i in w.outcomes) && (i in v.held ==> i in w.held)
    ensures GoodFlight(v, i)
  {
    hide IsAnchor, Backed, ExplainedHit, ExplainedFlight, Knows;
    var f := w.service.flights[i];
    if f.cached.Some? {
      StillBacked(w, v, f.key, f.cached.value);
    }
    if f.result.Some? {
      StillExplained(w, v, i, f.key, f.result.value, f.startedAt);
    }
    KnowsLater(w, v);
  }

  lemma KnowsLater(w: World, v: World)
    requires Knows(w, v)
    ensures w.now <= v.now && forall i :: i in w.held ==> i in v.held && v.held[i] == w.held[i]
  {
  }

  lemma StillServed(w: World, v: World)
    requires Knows(w, v) && forall r :: r in w.served ==> Explained(w, r)
    requires forall i :: i in v.held ==> i in w.held || i >= |w.service.flights|
    requires forall r :: r in w.served && r.flight.Some? ==> r.flight.value < |w.service.flights|
    ensures forall r :: r in w.served ==> Explained(v, r)
  {
    hide ExplainedHit, ExplainedFlight, Knows;
    forall r | r in w.served
      ensures Explained(v, r)
    {
      StillExplained(w, v, if r.flight.Some? then r.flight.value else 0, r.key, r.value, r.servedAt);
    }
  }

  lemma HitIsExplained(w: World, key: Key)
    requires GoodWorld(w) && Fresh(w.service, w.now, key)
    ensures ExplainedHit(w, key, w.service.cache[key].value, w.now)
  {
    var c := w.service.cache[key];
    assert Backed(w, key, c);
  }

  /** The stale value of a flight is at most an hour old, or itself the result of a failure. */
  lemma StaleIsExplained(w: World, i: nat)
    requires GoodWorld(w) && i < |w.service.flights| && MayServeStale(w.service.flights[i])
    ensures var f := w.service.flights[i]; var value := f.cached.value.value;
      value == UNREACHABLE || ProducedWithinHour(w, f.key, value, f.startedAt)
  {
    assert GoodFlight(w, i);
    assert Backed(w, w.service.flights[i].key, w.service.flights[i].cached.value);
  }

  lemma CallKeeps(w: World, key: Key, seconds: Option<int>)
    requires GoodWorld(w)
    ensures GoodWorld(AfterCall(w, key, seconds))
  {
    hide Backed, ExplainedHit, ExplainedFlight, GoodFlight;
    var v := AfterCall(w, key, seconds);
    match Begin(w.service, w.now, key, seconds)
    case Hit(value) =>
      HitIsExplained(w, key);
      OnlyServed(w, v);
    case Joined(_) => OnlyServed(w, v);
    case Started(_) => StartKeeps(w, key, seconds);
  }

  /** Only what was returned or is waited for changed. */
  lemma OnlyServed(w: World, v: World)
    requires GoodWorld(w) && v == w.(joined := v.joined, served := v.served)
    requires forall r :: r in v.served && r !in w.served ==> Explained(w, r)
    requires forall r :: r in v.served && r.flight.Some? ==> r.flight.value < |w.service.flights|
    ensures GoodWorld(v)
  {
    hide Backed, ExplainedHit, ExplainedFlight, IsAnchor;
    forall i | 0 <= i < |v.service.flights|
      ensures GoodFlight(v, i)
    {
      StillGood(w, v, i);
    }
    forall key | key in v.service.cache
      ensures Backed(v, key, v.service.cache[key])
    {
      StillBacked(w, v, key, v.service.cache[key]);
    }
    forall r | r in v.served
      ensures Explained(v, r)
    {
      StillExplained(w, v, if r.flight.Some? then r.flight.value else 0, r.key, r.value, r.servedAt);
    }
  }

  lemma StartKeeps(w: World, key: Key, seconds: Option<int>)
    requires GoodWorld(w) && Begin(w.service, w.now, key, seconds).Started?
    ensures GoodWorld(AfterCall(w, key, seconds))
  {
    hide ExplainedHit, ExplainedFlight, Backed, IsAnchor, Explained;
    var v, n := AfterCall(w, key, seconds), |w.service.flights|;
    StillServed(w, v);
    forall i | 0 <= i < n
      ensures GoodFlight(v, i)
    {
      StillGood(w, v, i);
    }
    StartedIsGood(w, key, seconds);
    StartedCache(w, key, seconds);
  }

  lemma StartedCache(w: World, key: Key, seconds: Option<int>)
    requires GoodWorld(w) && Begin(w.service, w.now, key, seconds).Started?
    ensures var v := AfterCall(w, key, seconds); forall k :: k in v.service.cache ==> Backed(v, k, v.service.cache[k])
  {
    hide Backed, IsAnchor, GoodFlight, Explained, GoodProduction;
    var v := AfterCall(w, key, seconds);
    forall k | k in v.service.cache
      ensures Backed(v, k, v.service.cache[k])
    {
      if k in w.service.cache && v.service.cache[k] == w.service.cache[k] {
        StillBacked(w, v, k, w.service.cache[k]);
      } else {
        AnchorIsBacked(w, key, seconds);
      }
    }
  }

  lemma StartedIsGood(w: World, key: Key, seconds: Option<int>)
    requires GoodWorld(w) && Begin(w.service, w.now, key, seconds).Started?
    ensures GoodFlight(AfterCall(w, key, seconds), |w.service.flights|)
  {
    hide IsAnchor, Backed;
    var v, n := AfterCall(w, key, seconds), |w.service.flights|;
    var f := v.service.flights[n];
    if f.cached.Some? {
      StillBacked(w, v, key, f.cached.value);
    }
    if IsAnchor(key) {
      assert Production(key, ANCHOR, w.now, Ttl(seconds)) in v.productions;
      assert ProducedSince(v, key, ANCHOR, w.now);
    }
  }

  lemma AnchorIsBacked(w: World, key: Key, seconds: Option<int>)
    requires Begin(w.service, w.now, key, seconds).Started? && IsAnchor(key)
    ensures var v := AfterCall(w, key, seconds); key in v.service.cache && Backed(v, key, v.service.cache[key])
  {
    hide IsAnchor;
  }

  lemma SettleKeeps(w: World, i: nat, outcome: Outcome)
    requires GoodWorld(w) && Running(w.service, i)
    ensures GoodWorld(Next(w, Settle(i, outcome)))
  {
    hide ExplainedHit, ExplainedFlight, Backed, IsAnchor, Explained;
    var v := Next(w, Settle(i, outcome));
    assert GoodFlight(w, i);
    StillServed(w, v);
    forall j | 0 <= j < |v.service.flights|
      ensures GoodFlight(v, j)
    {
      if j == i {
        SettledIsGood(w, i, outcome);
      } else {
        StillGood(w, v, j);
      }
    }
    forall k | k in v.service.cache
      ensures Backed(v, k, v.service.cache[k])
    {
      if k in w.service.cache && v.service.cache[k] == w.service.cache[k] {
        StillBacked(w, v, k, w.service.cache[k]);
      } else {
        StoredIsBacked(w, i, outcome, k);
      }
    }
  }

  lemma StoredIsBacked(w: World, i: nat, outcome: Outcome, k: Key)
    requires Running(w.service, i)
    requires var v := Next(w, Settle(i, outcome)).service;
      k in v.cache && !(k in w.service.cache && v.cache[k] == w.service.cache[k])
    ensures var v := Next(w, Settle(i, outcome)); Backed(v, k, v.service.cache[k])
  {
  }

  lemma SettledIsGood(w: World, i: nat, outcome: Outcome)
    requires GoodWorld(w) && Running(w.service, i)
    ensures GoodFlight(Next(w, Settle(i, outcome)), i)
  {
    hide IsAnchor, Backed, ProducedWithinHour;
    var f, v := w.service.flights[i], Next(w, Settle(i, outcome));
    assert GoodFlight(w, i);
    if f.cached.Some? {
      StillBacked(w, v, f.key, f.cached.value);
    }
    match outcome
    case Evaluated(value) =>
      assert Production(f.key, value, w.now, f.ttl) in v.productions;
      assert ProducedSince(v, f.key, value, f.startedAt);
    case Threw =>
      if MayServeStale(f) {
        StaleIsExplained(w, i);
        StillWithinHour(w, v, f.key, f.cached.value.value, f.startedAt);
      }
  }

  lemma StillWithinHour(w: World, v: World, key: Key, value: Evaluation, at: int)
    requires Knows(w, v)
    ensures ProducedWithinHour(w, key, value, at) ==> ProducedWithinHour(v, key, value, at)
  {
  }

  /** A caller gets the result of a flight: its own when it finishes, or one it joined. */
  lemma ServeKeeps(w: World, step: Step)
    requires GoodWorld(w) && Enabled(w, step) && (step.Finish? || step.Rejoin?)
    ensures GoodWorld(Next(w, step))
  {
    hide ExplainedHit, ExplainedFlight, Backed, IsAnchor;
    var v, i := Next(w, step), if step.Finish? then step.flight else w.joined[step.waiting];
    assert GoodFlight(w, i) && Explained(w, FlightReturn(w, i));
    var u := w.(served := v.served);
    OnlyServed(w, u);
    forall j | 0 <= j < |v.service.flights|
      ensures GoodFlight(v, j)
    {
      StillGood(u, v, j);
    }
    StillServed(u, v);
    forall k | k in v.service.cache
      ensures Backed(v, k, v.service.cache[k])
    {
      StillBacked(u, v, k, u.service.cache[k]);
    }
  }

  lemma QuietKeeps(w: World, step: Step)
    requires GoodWorld(w) && Enabled(w, step) && (step.Tick? || step.Clear?)
    ensures GoodWorld(Next(w, step))
  {
    hide ExplainedHit, ExplainedFlight, Backed, IsAnchor, Explained;
    var v := Next(w, step);
    StillServed(w, v);
    forall i | 0 <= i < |v.service.flights|
      ensures GoodFlight(v, i)
    {
      StillGood(w, v, i);
    }
    forall k | k in v.service.cache
      ensures Backed(v, k, v.service.cache[k])
    {
      StillBacked(w, v, k, w.service.cache[k]);
    }
  }

  lemma NextKeeps(w: World, step: Step)
    requires GoodWorld(w) && Enabled(w, step)
    ensures GoodWorld(Next(w, step))
  {
    hide GoodWorld, Settled, Called, Begin, Finished, Cleared;
    match step
    case Tick(_) => QuietKeeps(w, step);
    case Call(key, seconds) => CallKeeps(w, key, seconds);
    case Settle(i, outcome) => SettleKeeps(w, i, outcome);
    case Finish(_) => ServeKeeps(w, step);
    case Rejoin(_) => ServeKeeps(w, step);
    case Clear => QuietKeeps(w, step);
  }

  lemma {:induction false} RunsKeep(w: World, steps: seq<Step>, end: World)
    requires GoodWorld(w) && Runs(w, steps, end)
    ensures GoodWorld(end)
    decreases |steps|
  {
    if steps != [] {
      NextKeeps(w, steps[0]);
      RunsKeep(Next(w, steps[0]), steps[1..], end);
    }
  }

  /**
   * In every run each returned value is explained. A cache hit is a value within the lifetime its storing
   * caller gave it (or a negative entry of less than ten seconds); an evaluation returns exactly what the
   * evaluator answered to it; and only after the evaluator threw, a value of at most an hour or the
   * negative result.
   */
  lemma ReturnsAreExplained(start: World, steps: seq<Step>, end: World, r: Return)
    requires Start(start) && Runs(start, steps, end) && r in end.served
    ensures Explained(end, r)
    ensures forall p :: p in end.productions ==> p.ttl >= 5000 && p.at <= end.now
  {
    RunsKeep(start, steps, end);
    assert forall p :: p in end.productions ==> GoodProduction(p, end.now);
  }

  /** The evaluator answered "trusted" to evaluation `i`, or it threw and an hour-old "trusted" was left. */
  predicate TrustedBy(w: World, i: nat, r: Return) {
    && i in w.outcomes
    && match w.outcomes[i]
       case Evaluated(v) => v == r.value && ProducedSince(w, r.key, v, r.servedAt)
       case Threw =>
         && i in w.held && r.servedAt - w.held[i].fetchedAt <= 3_600_000 && r.value == w.held[i].value
         && ProducedWithinHour(w, r.key, r.value, r.servedAt)
  }

  /** One of the anchors is the entity, written with or without a slash at its end. */
  predicate NamesAnchor(key: Key) {
    exists a :: a in key.anchors && (a == key.entity || a == key.entity + "/")
  }

  predicate HasEndSlash(id: string) {
    id != "" && id[|id| - 1] == '/'
  }

  lemma WithoutSlashExactly(id: string, entity: string)
    ensures WithoutSlash(id) == entity <==> id == entity + "/" || (id == entity && !HasEndSlash(entity))
  {
    if HasEndSlash(id) {
      assert id == id[..|id| - 1] + "/";
    }
  }

  /** An entity that is named without a slash at its end is an anchor exactly when one of the anchors names it. */
  lemma AnchorExactly(key: Key)
    ensures IsAnchor(key) ==> NamesAnchor(key)
    ensures NamesAnchor(key) && !HasEndSlash(key.entity) ==> IsAnchor(key)
  {
    forall id: string
      ensures WithoutSlash(id) == key.entity <==>
        id == key.entity + "/" || (id == key.entity && !HasEndSlash(key.entity))
    {
      WithoutSlashExactly(id, key.entity);
    }
    hide WithoutSlash;
    if a :| a in key.anchors && WithoutSlash(a) == key.entity {
      assert NamesAnchor(key);
    }
  }

  /** To some evaluation of the key the evaluator answered `value`. */
  predicate AnsweredTo(w: World, key: Key, value: Evaluation) {
    exists i :: i in w.outcomes && i < |w.service.flights| && w.service.flights[i].key == key
      && w.outcomes[i] == Evaluated(value)
  }

  /** The evaluator is asked about no anchor, and every production is its answer or an anchor's. */
  ghost predicate Answered(w: World) {
    && (forall i :: i in w.outcomes ==> i < |w.service.flights| && !IsAnchor(w.service.flights[i].key))
    && (forall p :: p in w.productions ==> AnsweredTo(w, p.key, p.value) || (IsAnchor(p.key) && p.value == ANCHOR))
  }

  lemma StillAnswered(w: World, v: World, key: Key, value: Evaluation)
    requires Knows(w, v) && FlightsGrow(w.service.flights, v.service.flights) && AnsweredTo(w, key, value)
    ensures AnsweredTo(v, key, value)
  {
    var i :| i in w.outcomes && i < |w.service.flights| && w.service.flights[i].key == key
             && w.outcomes[i] == Evaluated(value);
    assert FlightKept(w.service.flights[i], v.service.flights[i]);
  }

  lemma NextKnows(w: World, step: Step)
    requires GoodWorld(w) && Enabled(w, step)
    ensures Knows(w, Next(w, step))
  {
    hide IsAnchor, Explained, Backed, Called, Settled, Finished, Fresh;
    if step.Settle? {
      assert GoodFlight(w, step.flight);
    }
  }

  lemma NextAnswers(w: World, step: Step)
    requires GoodWorld(w) && Answered(w) && Enabled(w, step)
    ensures Answered(Next(w, step))
  {
    var v := Next(w, step);
    NextKnows(w, step);
    NextGrows(w, step);
    NewAnswers(w, step);
    hide GoodWorld, Next, Grown, Knows, IsAnchor, AnsweredTo;
    forall p | p in v.productions
      ensures AnsweredTo(v, p.key, p.value) || (IsAnchor(p.key) && p.value == ANCHOR)
    {
      if p in w.productions && AnsweredTo(w, p.key, p.value) {
        StillAnswered(w, v, p.key, p.value);
      }
    }
  }

  /** The outcomes are those of evaluations that are not of anchors, and what is newly produced is an answer. */
  lemma NewAnswers(w: World, step: Step)
    requires GoodWorld(w) && Answered(w) && Enabled(w, step)
    ensures var v := Next(w, step);
      && (forall i :: i in v.outcomes ==> i < |v.service.flights| && !IsAnchor(v.service.flights[i].key))
      && (forall p :: p in v.productions && p !in w.productions ==>
            AnsweredTo(v, p.key, p.value) || (IsAnchor(p.key) && p.value == ANCHOR))
  {
    hide IsAnchor, Explained, Backed, ExplainedFlight, MayServeStale, Fresh;
    if step.Settle? {
      assert GoodFlight(w, step.flight);
      var v, f := Next(w, step), w.service.flights[step.flight];
      assert v.service.flights[step.flight].key == f.key;
      assert v.outcomes[step.flight] == step.outcome;
    }
  }

  lemma {:induction false} RunsAnswer(w: World, steps: seq<Step>, end: World)
    requires GoodWorld(w) && Answered(w) && Runs(w, steps, end)
    ensures GoodWorld(end) && Answered(end)
    decreases |steps|
  {
    hide GoodWorld, Answered, Next;
    if steps != [] {
      NextKeeps(w, steps[0]);
      NextAnswers(w, steps[0]);
      RunsAnswer(Next(w, steps[0]), steps[1..], end);
    }
  }

  /**
   * In particular "trusted" is never invented. Unless one of the anchors names the entity, the evaluator
   * answered so to an evaluation of the same key; from the cache this is told within the lifetime of at least
   * five seconds, by an evaluation that was answered only if this was the answer, and by one whose evaluator
   * threw at most an hour after it was fetched.
   */
  lemma TrustIsProduced(start: World, steps: seq<Step>, end: World, r: Return)
    requires Start(start) && Runs(start, steps, end) && r in end.served && r.value.trusted
    ensures r.flight.None? ==> ProducedInTime(end, r.key, r.value, r.servedAt)
    ensures !NamesAnchor(r.key) ==> AnsweredTo(end, r.key, r.value)
    ensures r.flight.Some? && !NamesAnchor(r.key) ==> TrustedBy(end, r.flight.value, r)
  {
    ReturnsAreExplained(start, steps, end, r);
    RunsAnswer(start, steps, end);
    AnchorExactly(r.key);
    assert r.flight.Some? && !NamesAnchor(r.key) ==> TrustedBy(end, r.flight.value, r);
  }

  /** An entity that one of the anchors names is not asked about: nobody evaluates it, and it is trusted. */
  lemma AnchorsAreNotFetched(start: World, steps: seq<Step>, end: World, i: nat)
    requires Start(start) && Runs(start, steps, end) && i < |end.service.flights|
    requires var key := end.service.flights[i].key; NamesAnchor(key) && !HasEndSlash(key.entity)
    ensures i !in end.outcomes
    ensures var result := end.service.flights[i].result; result.Some? && result.value.trusted
  {
    AnchorExactly(end.service.flights[i].key);
    RunsAnswer(start, steps, end);
    hide IsAnchor, NamesAnchor;
    assert GoodFlight(end, i);
  }

  // ---- Callers of one flight agree ------------------------------------------------------

  /** Everyone who was served by a flight got its result. */
  ghost predicate Agreed(w: World) {
    && (forall f :: f in w.service.flights && f.finished ==> f.result.Some?)
    && (forall r :: r in w.served && r.flight.Some? ==> GotResult(w.service.flights, r))
  }

  ghost predicate GotResult(flights: seq<Flight>, r: Return)
    requires r.flight.Some?
  {
    var i := r.flight.value;
    i < |flights| && flights[i].key == r.key && flights[i].result == Some(r.value)
  }

  /** Flights are only added, and a result once there stays. */
  ghost predicate FlightsGrow(fs: seq<Flight>, gs: seq<Flight>) {
    |fs| <= |gs| && forall i :: 0 <= i < |fs| ==> FlightKept(fs[i], gs[i])
  }

  predicate FlightKept(f: Flight, g: Flight) {
    g.key == f.key && (f.result.Some? ==> g.result == f.result)
  }

  /** Flights are kept, and have a result before they finish. */
  ghost predicate Grown(fs: seq<Flight>, gs: seq<Flight>) {
    FlightsGrow(fs, gs) && forall g :: g in gs && g.finished ==> g in fs || g.result.Some?
  }

  lemma CallGrows(s: Service, now: int, key: Key, seconds: Option<int>)
    ensures Grown(s.flights, Called(s, now, key, seconds).flights)
  {
    hide IsAnchor, Begin, Fresh;
  }

  lemma SettleGrows(s: Service, now: int, i: nat, outcome: Outcome)
    requires Running(s, i)
    ensures Grown(s.flights, Settled(s, now, i, outcome).flights)
  {
    hide ResultOf, MayServeStale;
  }

  lemma FinishGrows(s: Service, i: nat)
    requires CanFinish(s, i)
    ensures Grown(s.flights, Finished(s, i).flights)
  {
  }

  lemma NextGrows(w: World, step: Step)
    requires Enabled(w, step)
    ensures Grown(w.service.flights, Next(w, step).service.flights)
  {
    hide Grown, Called, Settled, Finished, Begin;
    match step
    case Call(key, seconds) => CallGrows(w.service, w.now, key, seconds);
    case Settle(i, outcome) => SettleGrows(w.service, w.now, i, outcome);
    case Finish(i) => FinishGrows(w.service, i);
    case _ => NothingGrows(w.service.flights);
  }

  lemma NothingGrows(fs: seq<Flight>)
    ensures Grown(fs, fs)
  {
  }

  lemma GotStill(fs: seq<Flight>, gs: seq<Flight>, r: Return)
    requires FlightsGrow(fs, gs) && r.flight.Some? && GotResult(fs, r)
    ensures GotResult(gs, r)
  {
    assert FlightKept(fs[r.flight.value], gs[r.flight.value]);
  }

  /** What is newly returned from a flight is its result. */
  lemma NextServes(w: World, step: Step, r: Return)
    requires Enabled(w, step) && r in Next(w, step).served && r !in w.served && r.flight.Some?
    ensures GotResult(w.service.flights, r)
  {
    hide IsAnchor, Called, Settled, Finished, Fresh;
  }

  lemma NextAgrees(w: World, step: Step)
    requires Agreed(w) && Enabled(w, step)
    ensures Agreed(Next(w, step))
  {
    var fs, v := w.service.flights, Next(w, step);
    NextGrows(w, step);
    hide Next, FlightsGrow, GotResult;
    forall r | r in v.served && r.flight.Some?
      ensures GotResult(v.service.flights, r)
    {
      if r !in w.served {
        NextServes(w, step, r);
      }
      GotStill(fs, v.service.flights, r);
    }
  }

  lemma {:induction false} RunsAgree(w: World, steps: seq<Step>, end: World)
    requires Agreed(w) && Runs(w, steps, end)
    ensures Agreed(end)
    decreases |steps|
  {
    if steps != [] {
      NextAgrees(w, steps[0]);
      RunsAgree(Next(w, steps[0]), steps[1..], end);
    }
  }

  /** In every run, all callers served by one evaluation get the same value for the same key. */
  lemma JoinersAgree(start: World, steps: seq<Step>, end: World, r: Return, q: Return)
    requires Start(start) && Runs(start, steps, end) && r in end.served && q in end.served
    requires r.flight.Some? && r.flight == q.flight
    ensures r.value == q.value && r.key == q.key
  {
    RunsAgree(start, steps, end);
    assert GotResult(end.service.flights, r) && GotResult(end.service.flights, q);
  }

  // ---- Single flight --------------------------------------------------------------------

  /** An evaluation of `key` that its first caller has not finished, though it may have its result. */
  predicate Unfinished(s: Service, key: Key, i: nat) {
    i < |s.flights| && s.flights[i].key == key && !s.flights[i].finished
  }

  /** The entry of `key` in the map of evaluations in flight leads to its one unfinished evaluation, if any. */
  ghost predicate Tidy(s: Service, key: Key) {
    && (key in s.inFlight ==> Unfinished(s, key, s.inFlight[key]))
    && (forall i: nat :: Unfinished(s, key, i) ==> key in s.inFlight && s.inFlight[key] == i)
    && (forall i: nat :: i < |s.flights| && s.flights[i].finished ==> s.flights[i].result.Some?)
    && (forall i: nat :: Running(s, i) ==> !IsAnchor(s.flights[i].key))
  }

  /** No evaluation of `key` is in flight: `!inFlightEvaluations.has(key)`, as long as the map is tidy. */
  ghost predicate IsIdle(s: Service, key: Key) {
    forall i: nat :: !Unfinished(s, key, i)
  }

  /** Two evaluations of `key` run at once. */
  ghost predicate Doubled(s: Service, key: Key) {
    exists i: nat, j: nat :: i < j && RunningFor(s, key, i) && RunningFor(s, key, j)
  }

  predicate RunningFor(s: Service, key: Key, i: nat) {
    Running(s, i) && s.flights[i].key == key
  }

  /** The entry that the first caller of flight `i` is about to delete is its own. */
  predicate OwnsEntry(s: Service, i: nat)
    requires i < |s.flights|
  {
    s.flights[i].key in s.inFlight && s.inFlight[s.flights[i].key] == i
  }

  /** Runs in which the cache is only cleared while no evaluation of `key` is in flight. */
  ghost predicate QuietRuns(w: World, key: Key, steps: seq<Step>, end: World)
    decreases |steps|
  {
    if steps == [] then end == w
    else
      && Enabled(w, steps[0]) && (steps[0].Clear? ==> IsIdle(w.service, key))
      && QuietRuns(Next(w, steps[0]), key, steps[1..], end)
  }

  lemma NextTidy(w: World, key: Key, step: Step)
    requires Tidy(w.service, key) && Enabled(w, step) && (step.Clear? ==> IsIdle(w.service, key))
    ensures Tidy(Next(w, step).service, key)
  {
    hide IsAnchor, ResultOf, MayServeStale;
    match step
    case Tick(_) =>
    case Call(k, seconds) => CalledTidy(w.service, key, w.now, k, seconds);
    case Settle(i, outcome) => SettledTidy(w.service, key, w.now, i, outcome);
    case Finish(i) => FinishedTidy(w.service, key, i);
    case Rejoin(_) =>
    case Clear => ClearedTidy(w.service, key);
  }

  lemma CalledTidy(s: Service, key: Key, now: int, k: Key, seconds: Option<int>)
    requires Tidy(s, key)
    ensures Tidy(Called(s, now, k, seconds), key)
  {
    hide IsAnchor;
    var v := Called(s, now, k, seconds);
    assert forall i :: 0 <= i < |s.flights| ==> v.flights[i] == s.flights[i];
    assert forall i: nat :: i < |s.flights| ==> Unfinished(v, key, i) == Unfinished(s, key, i);
    assert forall i: nat :: i < |s.flights| ==> Running(v, i) == Running(s, i);
  }

  lemma SettledTidy(s: Service, key: Key, now: int, i: nat, outcome: Outcome)
    requires Tidy(s, key) && Running(s, i)
    ensures Tidy(Settled(s, now, i, outcome), key)
  {
    hide IsAnchor, ResultOf, MayServeStale;
    var v := Settled(s, now, i, outcome);
    assert forall j: nat :: Unfinished(v, key, j) <==> Unfinished(s, key, j);
    assert forall j: nat :: Running(v, j) ==> Running(s, j) && v.flights[j] == s.flights[j];
  }

  lemma FinishedTidy(s: Service, key: Key, i: nat)
    requires Tidy(s, key) && CanFinish(s, i)
    ensures Tidy(Finished(s, i), key)
  {
    hide IsAnchor;
    var v := Finished(s, i);
    assert forall j: nat :: Unfinished(v, key, j) <==> Unfinished(s, key, j) && j != i;
    assert forall j: nat :: Running(v, j) ==> Running(s, j) && v.flights[j] == s.flights[j];
    if s.flights[i].key == key {
      assert Unfinished(s, key, i);
    } else {
      assert key in v.inFlight ==> v.inFlight[key] == s.inFlight[key] && s.inFlight[key] != i;
    }
    forall j: nat | j < |v.flights| && v.flights[j].finished
      ensures v.flights[j].result.Some?
    {
      assert j != i ==> s.flights[j].finished;
    }
  }

  lemma ClearedTidy(s: Service, key: Key)
    requires Tidy(s, key) && IsIdle(s, key)
    ensures Tidy(Cleared(s), key)
  {
    hide IsAnchor;
    var v := Cleared(s);
    assert forall j: nat :: Unfinished(v, key, j) <==> Unfinished(s, key, j);
    assert forall j: nat :: Running(v, j) <==> Running(s, j);
  }

  lemma {:induction false} QuietRunsTidy(w: World, key: Key, steps: seq<Step>, end: World)
    requires Tidy(w.service, key) && QuietRuns(w, key, steps, end)
    ensures Tidy(end.service, key)
    decreases |steps|
  {
    if steps != [] {
      NextTidy(w, key, steps[0]);
      QuietRunsTidy(Next(w, steps[0]), key, steps[1..], end);
    }
  }

  lemma TidyIsSingle(s: Service, key: Key)
    requires Tidy(s, key)
    ensures !Doubled(s, key)
    ensures forall i: nat :: CanFinish(s, i) && s.flights[i].key == key ==> OwnsEntry(s, i)
  {
    assert forall i: nat :: RunningFor(s, key, i) ==> Unfinished(s, key, i);
    assert forall i: nat :: CanFinish(s, i) && s.flights[i].key == key ==> Unfinished(s, key, i);
  }

  /**
   * Single flight for a key: when the caches are cleared only while no evaluation of that key is in
   * flight, at most one is running in any interleaving with any traffic for other keys, and a caller that
   * finishes removes its own entry only.
   */
  lemma SingleFlight(start: World, key: Key, steps: seq<Step>, end: World)
    requires Start(start) && QuietRuns(start, key, steps, end)
    ensures !Doubled(end.service, key)
    ensures forall i: nat :: CanFinish(end.service, i) && end.service.flights[i].key == key ==>
      OwnsEntry(end.service, i)
  {
    QuietRunsTidy(start, key, steps, end);
    TidyIsSingle(end.service, key);
  }

  // ---- The cache caches -----------------------------------------------------------------

  predicate NoClear(steps: seq<Step>) {
    forall i :: 0 <= i < |steps| ==> !steps[i].Clear?
  }

  /** The cache holds `c` for `key`, and no evaluation that could replace it is running. */
  ghost predicate Holds(w: World, key: Key, c: Cached) {
    key in w.service.cache && w.service.cache[key] == c && forall i: nat :: !RunningFor(w.service, key, i)
  }

  lemma StillHolds(w: World, key: Key, c: Cached, step: Step)
    requires Holds(w, key, c) && Enabled(w, step) && !step.Clear? && w.now < c.expiresAt
    ensures Holds(Next(w, step), key, c)
  {
    hide IsAnchor, ResultOf, MayServeStale, Recorded, FlightReturn;
    var v := Next(w, step);
    forall i: nat
      ensures !RunningFor(v.service, key, i)
    {
      assert !RunningFor(w.service, key, i);
    }
    if step.Settle? {
      assert !RunningFor(w.service, key, step.flight);
    }
  }

  lemma TimePasses(w: World, step: Step)
    requires Enabled(w, step)
    ensures w.now <= Next(w, step).now
  {
    hide Settled, Called, Finished, Begin, IsAnchor;
  }

  lemma {:induction false} HeldUntilExpiry(w: World, key: Key, c: Cached, steps: seq<Step>, end: World)
    requires Holds(w, key, c) && Runs(w, steps, end) && NoClear(steps) && end.now < c.expiresAt
    ensures Holds(end, key, c) && w.now <= end.now
    decreases |steps|
  {
    hide Next, Holds;
    if steps != [] {
      assert !steps[0].Clear?;
      TimePasses(w, steps[0]);
      TimeRuns(Next(w, steps[0]), steps[1..], end);
      StillHolds(w, key, c, steps[0]);
      HeldUntilExpiry(Next(w, steps[0]), key, c, steps[1..], end);
    }
  }

  lemma {:induction false} TimeRuns(w: World, steps: seq<Step>, end: World)
    requires Runs(w, steps, end)
    ensures w.now <= end.now
    decreases |steps|
  {
    hide Next;
    if steps != [] {
      TimePasses(w, steps[0]);
      TimeRuns(Next(w, steps[0]), steps[1..], end);
    }
  }

  /** The entry that the end of evaluation `i` leaves, unless the evaluator threw and a stale value was served. */
  function EntryLeft(w: World, i: nat, outcome: Outcome): Cached
    requires i < |w.service.flights|
  {
    match outcome
    case Evaluated(value) => Cached(value, w.now, w.now + w.service.flights[i].ttl)
    case Threw => Cached(UNREACHABLE, w.now, w.now + 10_000)
  }

  /**
   * An answer is served from the cache for its whole lifetime, and a failure for ten seconds: until the entry
   * expires, with no clear, every call for the key is a hit, so none starts another evaluation. The one
   * exception is a failure for which a stale value was served: it leaves no entry.
   */
  lemma ResultIsCached(w: World, key: Key, i: nat, outcome: Outcome, steps: seq<Step>, end: World, seconds: Option<int>)
    requires Tidy(w.service, key) && RunningFor(w.service, key, i)
    requires outcome.Threw? ==> !MayServeStale(w.service.flights[i])
    requires Runs(Next(w, Settle(i, outcome)), steps, end) && NoClear(steps)
    requires end.now < EntryLeft(w, i, outcome).expiresAt
    ensures Begin(end.service, end.now, key, seconds) == Hit(EntryLeft(w, i, outcome).value)
    ensures Called(end.service, end.now, key, seconds) == end.service
  {
    hide IsAnchor, MayServeStale, Runs;
    var v, c := Next(w, Settle(i, outcome)), EntryLeft(w, i, outcome);
    assert Unfinished(w.service, key, i);
    forall j: nat
      ensures !RunningFor(v.service, key, j)
    {
      assert RunningFor(v.service, key, j) ==> Unfinished(w.service, key, j) && j != i;
    }
    HeldUntilExpiry(v, key, c, steps, end);
  }

  /** So is the answer for a trust anchor. */
  lemma AnchorIsCached(w: World, key: Key, seconds: Option<int>, steps: seq<Step>, end: World, again: Option<int>)
    requires Tidy(w.service, key) && IsAnchor(key) && Begin(w.service, w.now, key, seconds).Started?
    requires Runs(AfterCall(w, key, seconds), steps, end) && NoClear(steps) && end.now < w.now + Ttl(seconds)
    ensures Begin(end.service, end.now, key, again) == Hit(ANCHOR)
  {
    hide Runs;
    var v := AfterCall(w, key, seconds);
    forall j: nat
      ensures !RunningFor(v.service, key, j)
    {
      assert Running(v.service, j) ==> Running(w.service, j) && v.service.flights[j] == w.service.flights[j];
    }
    HeldUntilExpiry(v, key, Cached(ANCHOR, w.now, w.now + Ttl(seconds)), steps, end);
  }

  // ---- When clearing is safe ------------------------------------------------------------

  /** From `w` on, as long as nobody clears again, at most one evaluation of `key` runs at a time. */
  ghost predicate StaysSingle(w: World, key: Key) {
    forall steps, end :: Runs(w, steps, end) && NoClear(steps) ==> !Doubled(end.service, key)
  }

  lemma {:induction false} NoClearIsQuiet(w: World, key: Key, steps: seq<Step>, end: World)
    requires Runs(w, steps, end) && NoClear(steps)
    ensures QuietRuns(w, key, steps, end)
    decreases |steps|
  {
    if steps != [] {
      assert !steps[0].Clear?;
      NoClearIsQuiet(Next(w, steps[0]), key, steps[1..], end);
    }
  }

  /** After a clear the next call for a key starts an evaluation. */
  lemma StartsAfresh(w: World, key: Key)
    requires key !in w.service.cache && key !in w.service.inFlight && !IsAnchor(key)
    ensures var v := Next(w, Call(key, None)).service;
      && |v.flights| == |w.service.flights| + 1 && RunningFor(v, key, |w.service.flights|)
      && v.cache == w.service.cache && v.inFlight == w.service.inFlight[key := |w.service.flights|]
      && forall i :: 0 <= i < |w.service.flights| ==> v.flights[i] == w.service.flights[i]
  {
    hide IsAnchor;
  }

  /** A clear while an evaluation is running: the next call starts a second one. */
  lemma ClearWhileRunning(w: World, key: Key, i: nat)
    requires RunningFor(w.service, key, i) && !IsAnchor(key)
    ensures !StaysSingle(Next(w, Clear), key)
  {
    hide IsAnchor, Runs;
    var v, steps := Next(w, Clear), [Call(key, None)];
    var end := Next(v, steps[0]);
    StartsAfresh(v, key);
    assert RunningFor(end.service, key, i);
    assert Doubled(end.service, key);
    OneStep(v, steps[0]);
  }

  /**
   * A clear while an evaluation has its result but its first caller has not resumed: the next call starts
   * another; the first caller's `finally` removes that one's entry; and the next call starts a third.
   */
  lemma ClearBeforeResume(w: World, key: Key, i: nat)
    requires CanFinish(w.service, i) && w.service.flights[i].key == key && !IsAnchor(key)
    ensures !StaysSingle(Next(w, Clear), key)
  {
    hide IsAnchor, Runs;
    var v, n := Next(w, Clear), |w.service.flights|;
    StartsAfresh(v, key);
    var second := Next(v, Call(key, None));
    var orphaned := Next(second, Finish(i));
    assert RunningFor(orphaned.service, key, n);
    StartsAfresh(orphaned, key);
    var end := Next(orphaned, Call(key, None));
    assert RunningFor(end.service, key, n) && RunningFor(end.service, key, n + 1);
    assert Doubled(end.service, key);
    OneStep(orphaned, Call(key, None));
    MoreSteps(second, Finish(i), [Call(key, None)], end);
    MoreSteps(v, Call(key, None), [Finish(i), Call(key, None)], end);
    assert NoClear([Call(key, None)] + [Finish(i), Call(key, None)]);
    assert [Call(key, None)] + [Finish(i), Call(key, None)] == [Call(key, None), Finish(i), Call(key, None)];
    assert [Finish(i)] + [Call(key, None)] == [Finish(i), Call(key, None)];
  }

  lemma OneStep(w: World, step: Step)
    requires Enabled(w, step)
    ensures Runs(w, [step], Next(w, step))
  {
    assert Runs(Next(w, step), [], Next(w, step));
    assert [step][1..] == [];
  }

  lemma MoreSteps(w: World, step: Step, steps: seq<Step>, end: World)
    requires Enabled(w, step) && Runs(Next(w, step), steps, end)
    ensures Runs(w, [step] + steps, end)
  {
    assert ([step] + steps)[1..] == steps;
  }

  /**
   * Clearing is safe for a key exactly when no evaluation of that key is in flight (anchors, which are
   * never fetched, aside): only then does every continuation run at most one of them at a time.
   */
  lemma ClearIsSafeExactlyWhenIdle(w: World, key: Key)
    requires Tidy(w.service, key)
    ensures StaysSingle(Next(w, Clear), key) <==> IsAnchor(key) || IsIdle(w.service, key)
  {
    hide IsAnchor, StaysSingle, Doubled;
    if IsAnchor(key) {
      AnchorsNeverRun(w, key);
    } else if IsIdle(w.service, key) {
      ClearedTidy(w.service, key);
      TidyStaysSingle(Next(w, Clear), key);
    } else {
      var i: nat :| Unfinished(w.service, key, i);
      if w.service.flights[i].result.None? {
        ClearWhileRunning(w, key, i);
      } else {
        ClearBeforeResume(w, key, i);
      }
    }
  }

  lemma TidyStaysSingle(w: World, key: Key)
    requires Tidy(w.service, key)
    ensures StaysSingle(w, key)
  {
    hide Tidy, Doubled;
    forall steps, end | Runs(w, steps, end) && NoClear(steps)
      ensures !Doubled(end.service, key)
    {
      NoClearIsQuiet(w, key, steps, end);
      QuietRunsTidy(w, key, steps, end);
      TidyIsSingle(end.service, key);
    }
  }

  ghost predicate NoAnchorRuns(s: Service) {
    forall i: nat :: Running(s, i) ==> !IsAnchor(s.flights[i].key)
  }

  lemma NoAnchorStarts(w: World, step: Step)
    requires NoAnchorRuns(w.service) && Enabled(w, step)
    ensures NoAnchorRuns(Next(w, step).service)
  {
    hide IsAnchor, ResultOf, MayServeStale, Recorded, FlightReturn, Begin, Fresh;
    var v := Next(w, step);
    forall i: nat | Running(v.service, i)
      ensures !IsAnchor(v.service.flights[i].key)
    {
      assert i < |w.service.flights| ==> Running(w.service, i) && v.service.flights[i].key == w.service.flights[i].key;
    }
  }

  lemma {:induction false} AnchorsSettled(w: World, steps: seq<Step>, end: World)
    requires NoAnchorRuns(w.service) && Runs(w, steps, end)
    ensures NoAnchorRuns(end.service)
    decreases |steps|
  {
    hide NoAnchorRuns, Next;
    if steps != [] {
      NoAnchorStarts(w, steps[0]);
      AnchorsSettled(Next(w, steps[0]), steps[1..], end);
    }
  }

  lemma AnchorsNeverRun(w: World, key: Key)
    requires Tidy(w.service, key) && IsAnchor(key)
    ensures StaysSingle(Next(w, Clear), key)
  {
    hide IsAnchor, Runs;
    var v := Next(w, Clear);
    assert forall i: nat :: Running(v.service, i) ==> Running(w.service, i);
    forall steps, end | Runs(v, steps, end) && NoClear(steps)
      ensures !Doubled(end.service, key)
    {
      AnchorsSettled(v, steps, end);
    }
  }
}
