/** The circuit breaker: `common/src/circuit_breaker.cpp`.

    Every method runs under one mutex, so a run is a sequence of whole operations. The failure count
    survives OPEN -> HALF_OPEN while the other two counters are cleared; whether a breaker can get
    stuck in HALF_OPEN hangs on that count. */
module CircuitBreaker {
  import opened Common

  datatype Mode = CLOSED | OPEN | HALF_OPEN

  datatype Config = Config(
    failureThreshold: int,
    successThreshold: int,
    timeout: int,
    rateThreshold: real,
    minRequests: int)

  /** State and statistics; `since` is the time of the last change of mode. */
  datatype State = State(mode: Mode, total: nat, succeeded: nat, failed: nat, rate: real, since: int)

  function Fresh(now: int): State { State(CLOSED, 0, 0, 0, 0.0, now) }

  datatype Op = Success(at: int) | Failure(at: int) | Ask(at: int) | Reset(at: int)

  // ------------------------------------------------------------------ one operation

  function ToOpen(s: State, now: int): State {
    if s.mode == OPEN then s else s.(mode := OPEN, since := now)
  }

  function ToHalfOpen(s: State, now: int): State {
    if s.mode == HALF_OPEN then s else s.(mode := HALF_OPEN, since := now, succeeded := 0, total := 0)
  }

  function ToClosed(s: State, now: int): State {
    if s.mode == CLOSED then s else Fresh(now)
  }

  /** The failure rate is looked at only once enough requests were counted. */
  function Rated(c: Config, s: State, now: int): State
    requires s.total > 0
  {
    if s.total < c.minRequests then s
    else
      var r := s.failed as real / s.total as real;
      var rated := s.(rate := r);
      if r >= c.rateThreshold then ToOpen(rated, now) else rated
  }

  function AfterSuccess(c: Config, s: State, now: int): State {
    var counted := Rated(c, s.(total := s.total + 1, succeeded := s.succeeded + 1), now);
    if counted.mode == HALF_OPEN && counted.succeeded >= c.successThreshold then ToClosed(counted, now) else counted
  }

  function AfterFailure(c: Config, s: State, now: int): State {
    var counted := Rated(c, s.(total := s.total + 1, failed := s.failed + 1), now);
    if counted.failed >= c.failureThreshold then ToOpen(counted, now) else counted
  }

  predicate Expired(c: Config, s: State, now: int) { now - s.since >= c.timeout }

  /** What `isRequestAllowed` answers. */
  predicate Allowed(c: Config, s: State, now: int) {
    match s.mode
    case CLOSED => true
    case OPEN => Expired(c, s, now)
    case HALF_OPEN => s.total < c.successThreshold
  }

  function AfterAsk(c: Config, s: State, now: int): State {
    if s.mode == OPEN && Expired(c, s, now) then ToHalfOpen(s, now) else s
  }

  function Next(c: Config, s: State, op: Op): State {
    match op
    case Success(at) => AfterSuccess(c, s, at)
    case Failure(at) => AfterFailure(c, s, at)
    case Ask(at) => AfterAsk(c, s, at)
    case Reset(at) => Fresh(at)
  }

  function RunFrom(c: Config, s: State, ops: seq<Op>): State
    decreases |ops|
  {
    if ops == [] then s else RunFrom(c, Next(c, s, ops[0]), ops[1..])
  }

  class Breaker {
    var config: Config
    var mode: Mode
    var total: nat
    var succeeded: nat
    var failed: nat
    var rate: real
    var since: int

    ghost function Now(): State
      reads this
    {
      State(mode, total, succeeded, failed, rate, since)
    }

    constructor (config: Config, now: int)
      ensures this.config == config && Now() == Fresh(now)
    {
      this.config := config;
      mode, since := CLOSED, now;
      total, succeeded, failed, rate := 0, 0, 0, 0.0;
    }

    method RecordSuccess(now: int)
      modifies this
      ensures config == old(config) && Now() == AfterSuccess(config, old(Now()), now)
    {
      total := total + 1;
      succeeded := succeeded + 1;
      UpdateFailureRate(now);
      if mode == HALF_OPEN && succeeded >= config.successThreshold {
        TransitionToClosed(now);
      }
    }

    method RecordFailure(now: int)
      modifies this
      ensures config == old(config) && Now() == AfterFailure(config, old(Now()), now)
    {
      total := total + 1;
      failed := failed + 1;
      UpdateFailureRate(now);
      if failed >= config.failureThreshold {
        TransitionToOpen(now);
      }
    }

    method IsRequestAllowed(now: int) returns (allowed: bool)
      modifies this
      ensures config == old(config) && Now() == AfterAsk(config, old(Now()), now)
      ensures allowed == Allowed(config, old(Now()), now)
    {
      match mode
      case CLOSED => return true;
      case OPEN =>
        if now - since >= config.timeout {
          TransitionToHalfOpen(now);
          return true;
        }
        return false;
      case HALF_OPEN => return total < config.successThreshold;
    }

    method ResetAll(now: int)
      modifies this
      ensures config == old(config) && Now() == Fresh(now)
    {
      total, succeeded, failed, rate := 0, 0, 0, 0.0;
      mode, since := CLOSED, now;
    }

    method UpdateConfig(config: Config)
      modifies this
      ensures this.config == config && Now() == old(Now())
    {
      this.config := config;
    }

    method TransitionToOpen(now: int)
      modifies this
      ensures config == old(config) && Now() == ToOpen(old(Now()), now)
    {
      if mode != OPEN { mode, since := OPEN, now; }
    }

    method TransitionToHalfOpen(now: int)
      modifies this
      ensures config == old(config) && Now() == ToHalfOpen(old(Now()), now)
    {
      if mode != HALF_OPEN {
        mode, since := HALF_OPEN, now;
        succeeded, total := 0, 0;
      }
    }

    method TransitionToClosed(now: int)
      modifies this
      ensures config == old(config) && Now() == ToClosed(old(Now()), now)
    {
      if mode != CLOSED {
        mode, since := CLOSED, now;
        total, succeeded, failed, rate := 0, 0, 0, 0.0;
      }
    }

    method UpdateFailureRate(now: int)
      requires total > 0
      modifies this
      ensures config == old(config) && Now() == Rated(config, old(Now()), now)
    {
      if total >= config.minRequests {
        rate := failed as real / total as real;
        if rate >= config.rateThreshold {
          TransitionToOpen(now);
        }
      }
    }
  }

  // ------------------------------------------------------------------ the rate rule without division

  /** How many requests it takes until the rate is looked at. */
  function Quorum(c: Config): nat { if c.minRequests >= 1 then c.minRequests else 1 }

  /** `failed` is at least the threshold's share of `total`. */
  predicate Share(c: Config, failed: nat, total: nat) { failed as real >= c.rateThreshold * total as real }

  /** The rate rule opens the breaker exactly from the quorum on and at the threshold's share. */
  lemma RatedIsShare(c: Config, s: State, now: int)
    requires s.total > 0
    ensures var s' := Rated(c, s, now);
            && (s'.mode == if s.total >= Quorum(c) && Share(c, s.failed, s.total) then OPEN else s.mode)
            && s'.total == s.total && s'.succeeded == s.succeeded && s'.failed == s.failed
            && (s'.since == if s.mode != OPEN && s'.mode == OPEN then now else s.since)
  {
    QuotientAtLeast(s.failed as real, s.total as real, c.rateThreshold);
  }

  /** Shares shrink as the total grows, unless the threshold is negative and always reached. */
  lemma ShareShrinks(c: Config, failed: nat, few: nat, many: nat)
    requires few <= many && Share(c, failed, many)
    ensures Share(c, failed, few)
  {
    if c.rateThreshold >= 0.0 {
      assert c.rateThreshold * few as real <= c.rateThreshold * many as real;
    } else {
      assert c.rateThreshold * few as real <= 0.0;
    }
  }

  /** If everything failed, the share is reached exactly for thresholds up to 1. */
  lemma AllFailedShare(c: Config, total: nat)
    requires total > 0
    ensures Share(c, total, total) <==> c.rateThreshold <= 1.0
  {
    var t := total as real;
    QuotientAtLeast(t, t, c.rateThreshold);
    assert t / t == 1.0;
  }

  /** The rate rule can open a closed breaker with at most `k` failures on record. */
  predicate TripsWith(c: Config, k: int) {
    c.rateThreshold <= 1.0 && k >= 0 && Share(c, k, Quorum(c))
  }

  lemma AboveOne(threshold: real, total: real)
    requires total > 0.0
    ensures threshold > 1.0 ==> threshold * total > total
  {
    if threshold > 1.0 {
      assert (threshold - 1.0) * total > 0.0;
      assert (threshold - 1.0) * total == threshold * total - total;
    }
  }

  lemma ReachedByAtMostAll(c: Config, total: nat, failed: nat)
    requires failed <= total && total > 0 && Share(c, failed, total)
    ensures c.rateThreshold <= 1.0
  {
    AboveOne(c.rateThreshold, total as real);
    assert c.rateThreshold * total as real <= failed as real <= total as real;
  }

  lemma ClosedTrips(c: Config, total: nat, failed: nat, k: int)
    requires failed <= total && total >= Quorum(c) && Share(c, failed, total) && failed <= k
    ensures TripsWith(c, k)
  {
    assert total > 0;
    hide Share, Quorum;
    ReachedByAtMostAll(c, total, failed);
    ShareShrinks(c, failed, Quorum(c), total);
    ShareGrows(c, failed, k, Quorum(c));
  }

  // ------------------------------------------------------------------ the failure floor

  /** At least `floor` failures are on record whenever the breaker is not closed, and every probe
      counted in HALF_OPEN succeeded. */
  predicate Inv(c: Config, floor: int, s: State) {
    && (s.mode == CLOSED ==> s.total == s.succeeded + s.failed)
    && (s.mode != CLOSED ==> s.failed >= floor)
    && (s.mode == HALF_OPEN ==> s.total == s.succeeded && (s.total == 0 || s.succeeded < c.successThreshold))
  }

  /** The breaker opens only with `floor` failures, and one more failure opens it in any case. */
  predicate Floor(c: Config, floor: int) {
    floor <= c.failureThreshold <= floor + 1 && !TripsWith(c, floor - 1)
  }

  lemma NextKeepsInv(c: Config, floor: int, s: State, op: Op)
    requires Floor(c, floor) && Inv(c, floor, s)
    ensures Inv(c, floor, Next(c, s, op))
  {
    hide Rated, TripsWith, Share, Quorum;
    if op.Success? || op.Failure? {
      var counted := if op.Success? then s.(total := s.total + 1, succeeded := s.succeeded + 1)
                     else s.(total := s.total + 1, failed := s.failed + 1);
      RatedIsShare(c, counted, op.at);
      if s.mode == CLOSED && Rated(c, counted, op.at).mode == OPEN && counted.failed < floor {
        ClosedTrips(c, counted.total, counted.failed, floor - 1);
      }
    }
  }

  /** Resets included, every run keeps the failure count above the floor outside CLOSED and never
      counts a failed probe in HALF_OPEN. */
  lemma {:induction false} RunKeepsInv(c: Config, floor: int, s: State, ops: seq<Op>)
    requires Floor(c, floor) && Inv(c, floor, s)
    ensures Inv(c, floor, RunFrom(c, s, ops))
    decreases |ops|
  {
    if ops != [] {
      NextKeepsInv(c, floor, s, ops[0]);
      RunKeepsInv(c, floor, Next(c, s, ops[0]), ops[1..]);
    }
  }

  ghost predicate FailuresSurvive(c: Config) {
    forall start: int, ops: seq<Op> :: Survived(c, RunFrom(c, Fresh(start), ops))
  }

  predicate Survived(c: Config, s: State) {
    && (s.mode != CLOSED ==> s.failed >= c.failureThreshold)
    && (s.mode == HALF_OPEN ==> s.total == s.succeeded && (s.total == 0 || s.succeeded < c.successThreshold))
  }

  /** On every run the breaker has its full number of failures on record whenever it is not closed,
      if and only if the rate cannot open it with fewer. In particular it does when
      `failure_threshold <= failure_rate_threshold * min_request_count` (`ProductIsEnough`). */
  lemma FailuresSurviveIff(c: Config)
    ensures FailuresSurvive(c) <==> !TripsWith(c, c.failureThreshold - 1)
  {
    if !TripsWith(c, c.failureThreshold - 1) {
      forall start: int, ops: seq<Op> ensures Survived(c, RunFrom(c, Fresh(start), ops)) {
        RunKeepsInv(c, c.failureThreshold, Fresh(start), ops);
      }
    } else {
      var ops := TripRun(c, c.failureThreshold - 1);
      assert !Survived(c, RunFrom(c, Fresh(0), ops));
    }
  }

  lemma ProductIsEnough(c: Config)
    requires c.minRequests >= 1 && c.failureThreshold as real <= c.rateThreshold * c.minRequests as real
    ensures FailuresSurvive(c)
  {
    FailuresSurviveIff(c);
  }

  // ------------------------------------------------------------------ recovery

  function Successes(times: seq<int>): seq<Op> { seq(|times|, i requires 0 <= i < |times| => Success(times[i])) }

  lemma {:induction false} OpenStaysOpen(c: Config, s: State, times: seq<int>)
    requires s.mode == OPEN
    ensures RunFrom(c, s, Successes(times)).mode == OPEN
    decreases |times|
  {
    if times != [] {
      assert Successes(times)[1..] == Successes(times[1..]);
      OpenStaysOpen(c, AfterSuccess(c, s, times[0]), times[1..]);
    }
  }

  /** How many successes it takes to close. */
  function Needed(c: Config): nat { if c.successThreshold >= 1 then c.successThreshold else 1 }

  /** The old failures, which HALF_OPEN keeps, do not trip the rate while the successes come in. */
  predicate Recovers(c: Config, failed: nat) { Needed(c) < Quorum(c) || !Share(c, failed, Quorum(c)) }

  lemma OneSuccess(c: Config, s: State, now: int)
    requires s.mode == HALF_OPEN && s.total == s.succeeded
    ensures var s', n := AfterSuccess(c, s, now), s.total + 1;
            if n >= Quorum(c) && Share(c, s.failed, n) then s'.mode == OPEN
            else if n >= c.successThreshold then s' == Fresh(now)
            else s'.mode == HALF_OPEN && s'.total == s'.succeeded == n && s'.failed == s.failed
  {
    hide Rated, Share, Quorum;
    RatedIsShare(c, s.(total := s.total + 1, succeeded := s.succeeded + 1), now);
  }

  lemma {:induction false} SuccessesCloseIff(c: Config, s: State, times: seq<int>)
    requires s.mode == HALF_OPEN && s.total == s.succeeded
    requires |times| > 0 && s.total + |times| == Needed(c)
    requires s.total < Quorum(c) || !Share(c, s.failed, Quorum(c))
    ensures var s' := RunFrom(c, s, Successes(times));
            if Recovers(c, s.failed) then s' == Fresh(times[|times| - 1]) else s'.mode == OPEN
    decreases |times|
  {
    var s', n := AfterSuccess(c, s, times[0]), s.total + 1;
    OneSuccess(c, s, times[0]);
    assert Successes(times)[1..] == Successes(times[1..]);
    assert RunFrom(c, s, Successes(times)) == RunFrom(c, s', Successes(times[1..]));
    hide Share, Quorum, AfterSuccess;
    if n >= Quorum(c) && Share(c, s.failed, n) {
      ShareShrinks(c, s.failed, Quorum(c), n);
      OpenStaysOpen(c, s', times[1..]);
    } else if |times| > 1 {
      SuccessesCloseIff(c, s', times[1..]);
    } else {
      assert Successes(times[1..]) == [];
    }
  }

  /** From OPEN, a request after the timeout is let through, and the needed number of successes after
      it closes the breaker with clean counters, if and only if the failures on record do not trip
      the rate meanwhile. If they do, the breaker is open again. */
  lemma OpenRecoversIff(c: Config, s: State, now: int, times: seq<int>)
    requires s.mode == OPEN && Expired(c, s, now) && |times| == Needed(c)
    ensures Allowed(c, s, now)
    ensures var s' := RunFrom(c, s, [Ask(now)] + Successes(times));
            if Recovers(c, s.failed) then s' == Fresh(times[|times| - 1]) else s'.mode == OPEN
  {
    assert ([Ask(now)] + Successes(times))[1..] == Successes(times);
    SuccessesCloseIff(c, AfterAsk(c, s, now), times);
  }

  // ------------------------------------------------------------------ when HALF_OPEN can get stuck

  /** No further probe is allowed. One that was allowed may still be running. */
  predicate Wedged(c: Config, s: State) {
    s.mode == HALF_OPEN && s.total >= c.successThreshold
  }

  predicate Timely(ops: seq<Op>, start: int) {
    forall i | 0 <= i < |ops| :: (if i == 0 then start else ops[i - 1].at) <= ops[i].at
  }

  /** A breaker together with the number of requests that it let in and that have not reported. */
  datatype Live = Live(s: State, running: nat)

  /** Only running requests report; a report of none changes nothing. */
  function NextLive(c: Config, live: Live, op: Op): Live {
    match op
    case Ask(at) => Live(Next(c, live.s, op), live.running + if Allowed(c, live.s, at) then 1 else 0)
    case Reset(_) => Live(Next(c, live.s, op), live.running)
    case _ => if live.running == 0 then live else Live(Next(c, live.s, op), live.running - 1)
  }

  function RunLive(c: Config, live: Live, ops: seq<Op>): Live
    decreases |ops|
  {
    if ops == [] then live else RunLive(c, NextLive(c, live, ops[0]), ops[1..])
  }

  /** Nothing is allowed in and nothing is on its way that could change that, short of a reset. */
  predicate Stuck(c: Config, live: Live) { Wedged(c, live.s) && live.running == 0 }

  /** Some run of a new breaker, at non-decreasing times, gets stuck. */
  ghost predicate CanStick(c: Config) {
    exists start: int, ops: seq<Op> :: Timely(ops, start) && Stuck(c, RunLive(c, Live(Fresh(start), 0), ops))
  }

  /** The rate can open the breaker with a failure count two short of the threshold, so that a probe
      may fail without reopening it. */
  predicate RateTripsEarly(c: Config) { TripsWith(c, c.failureThreshold - 2) }

  /** When the quorum comes within the probes, HALF_OPEN either still has the quorum's share of
      failures on record and is before the quorum, or the next failure opens it. */
  predicate QuorumInv(c: Config, s: State) {
    var sharing, onEdge := Share(c, s.failed, Quorum(c)), s.failed >= c.failureThreshold - 1;
    && (s.mode != CLOSED ==> sharing || onEdge)
    && (s.mode == HALF_OPEN ==>
          && s.succeeded <= s.total
          && ((sharing && s.total < Quorum(c)) || (onEdge && s.total == s.succeeded < Needed(c))))
  }

  lemma NextKeepsQuorumInv(c: Config, s: State, op: Op)
    requires Quorum(c) <= Needed(c) && QuorumInv(c, s)
    ensures QuorumInv(c, Next(c, s, op))
  {
    if op.Success? || op.Failure? {
      var counted := if op.Success? then s.(total := s.total + 1, succeeded := s.succeeded + 1)
                     else s.(total := s.total + 1, failed := s.failed + 1);
      RatedIsShare(c, counted, op.at);
      if counted.total >= Quorum(c) && Share(c, counted.failed, counted.total) {
        ShareShrinks(c, counted.failed, Quorum(c), counted.total);
      }
      ShareGrows(c, s.failed, counted.failed, Quorum(c));
      hide Rated, Share, Quorum;
    }
  }

  lemma ShareGrows(c: Config, less: nat, more: nat, total: nat)
    requires less <= more
    ensures Share(c, less, total) ==> Share(c, more, total)
  {
  }

  /** Behind a half-open breaker that has counted nothing, the request that half-opened it runs. */
  predicate ProbeRuns(live: Live) {
    live.s.mode == HALF_OPEN && live.s.total == 0 ==> live.running > 0
  }

  lemma NextKeepsProbe(c: Config, live: Live, op: Op)
    requires ProbeRuns(live)
    ensures ProbeRuns(NextLive(c, live, op))
  {
    if op.Success? || op.Failure? {
      var s := live.s;
      var counted := if op.Success? then s.(total := s.total + 1, succeeded := s.succeeded + 1)
                     else s.(total := s.total + 1, failed := s.failed + 1);
      RatedIsShare(c, counted, op.at);
      hide Rated, Share, Quorum;
    }
  }

  lemma {:induction false} LiveKeepsInv(c: Config, floor: int, live: Live, ops: seq<Op>)
    requires Floor(c, floor) && Inv(c, floor, live.s) && ProbeRuns(live)
    ensures Inv(c, floor, RunLive(c, live, ops).s) && ProbeRuns(RunLive(c, live, ops))
    decreases |ops|
  {
    if ops != [] {
      NextKeepsInv(c, floor, live.s, ops[0]);
      NextKeepsProbe(c, live, ops[0]);
      LiveKeepsInv(c, floor, NextLive(c, live, ops[0]), ops[1..]);
    }
  }

  lemma {:induction false} LiveKeepsQuorumInv(c: Config, live: Live, ops: seq<Op>)
    requires Quorum(c) <= Needed(c) && QuorumInv(c, live.s) && ProbeRuns(live)
    ensures QuorumInv(c, RunLive(c, live, ops).s) && ProbeRuns(RunLive(c, live, ops))
    decreases |ops|
  {
    if ops != [] {
      NextKeepsQuorumInv(c, live.s, ops[0]);
      NextKeepsProbe(c, live, ops[0]);
      LiveKeepsQuorumInv(c, NextLive(c, live, ops[0]), ops[1..]);
    }
  }

  /** A breaker can get stuck in HALF_OPEN, under whatever configuration, if and only if the rate may
      open it two or more failures before the failure threshold does, and stays out of the way
      while probing. */
  lemma StuckIff(c: Config)
    ensures CanStick(c) <==> Needed(c) < Quorum(c) && RateTripsEarly(c)
  {
    if Needed(c) < Quorum(c) && RateTripsEarly(c) {
      EarlyTripSticks(c);
    } else {
      forall start: int, ops: seq<Op> ensures !Stuck(c, RunLive(c, Live(Fresh(start), 0), ops)) {
        if RateTripsEarly(c) {
          LiveKeepsQuorumInv(c, Live(Fresh(start), 0), ops);
        } else {
          LiveKeepsInv(c, c.failureThreshold - 1, Live(Fresh(start), 0), ops);
        }
      }
    }
  }

  /** A stuck breaker answers no to every later request, whatever the time. */
  lemma {:induction false} StuckStaysShut(c: Config, live: Live, times: seq<int>)
    requires Stuck(c, live)
    ensures RunLive(c, live, Asks(times)) == live
    ensures forall t | t in times :: !Allowed(c, live.s, t)
    decreases |times|
  {
    if times != [] {
      assert Asks(times)[1..] == Asks(times[1..]);
      StuckStaysShut(c, live, times[1..]);
    }
  }

  function Asks(times: seq<int>): seq<Op> { seq(|times|, i requires 0 <= i < |times| => Ask(times[i])) }

  /** The shipped defaults do not get stuck; raising only the failure threshold to 7 makes them. */
  lemma DefaultsAreSafe()
    ensures !CanStick(Config(5, 3, 60000, 0.5, 10))
    ensures CanStick(Config(7, 3, 60000, 0.5, 10))
  {
    StuckIff(Config(5, 3, 60000, 0.5, 10));
    StuckIff(Config(7, 3, 60000, 0.5, 10));
  }

  // ------------------------------------------------------------------ when HALF_OPEN does its job

  ghost predicate Closes(c: Config, s: State, times: seq<int>) {
    |times| > 0 && |times| == c.successThreshold - s.succeeded ==>
      RunFrom(c, s, Successes(times)) == Fresh(times[|times| - 1])
  }

  /** A probe is allowed, one failure reopens, and the missing successes in a row close. */
  ghost predicate Healthy(c: Config, s: State) {
    && s.total < c.successThreshold
    && (forall now :: AfterFailure(c, s, now).mode == OPEN)
    && (forall times :: Closes(c, s, times))
  }

  ghost predicate AlwaysHealthy(c: Config) {
    forall start: int, ops: seq<Op> :: HealthyAt(c, start, ops)
  }

  ghost predicate HealthyAt(c: Config, start: int, ops: seq<Op>) {
    var s := RunFrom(c, Fresh(start), ops);
    s.mode == HALF_OPEN ==> Healthy(c, s)
  }

  /** Every reachable HALF_OPEN state is healthy if and only if there are probes, the rate is not
      looked at while probing, and it does not trip early. */
  lemma HalfOpenIsHealthyIff(c: Config)
    ensures AlwaysHealthy(c) <==> 1 <= c.successThreshold < c.minRequests && !RateTripsEarly(c)
  {
    if 1 <= c.successThreshold < c.minRequests && !RateTripsEarly(c) {
      forall start: int, ops: seq<Op> ensures HealthyAt(c, start, ops) { SafeIsHealthy(c, start, ops); }
    } else if c.successThreshold <= 0 {
      var ops := ProbingRun(c, 0);
      assert !HealthyAt(c, 0, ops);
    } else if c.successThreshold < c.minRequests {
      var ops := EarlyTripWedges(c);
      assert !HealthyAt(c, 0, ops);
    } else {
      ManyFailuresBlockRecovery(c);
    }
  }

  lemma SafeIsHealthy(c: Config, start: int, ops: seq<Op>)
    requires 1 <= c.successThreshold < c.minRequests && !RateTripsEarly(c)
    ensures HealthyAt(c, start, ops)
  {
    RunKeepsInv(c, c.failureThreshold - 1, Fresh(start), ops);
    var s := RunFrom(c, Fresh(start), ops);
    hide RunFrom;
    if s.mode == HALF_OPEN {
      forall times ensures Closes(c, s, times) {
        if |times| > 0 && |times| == c.successThreshold - s.succeeded { SuccessesCloseIff(c, s, times); }
      }
    }
  }

  // ------------------------------------------------------------------ explicit runs

  function Repeat(op: Op, n: nat): (ops: seq<Op>)
    ensures |ops| == n && forall i | 0 <= i < n :: ops[i] == op
  {
    seq(n, i => op)
  }

  lemma {:induction false} RunConcat(c: Config, s: State, a: seq<Op>, b: seq<Op>)
    ensures RunFrom(c, s, a + b) == RunFrom(c, RunFrom(c, s, a), b)
    decreases |a|
  {
    if a == [] {
      assert a + b == b;
    } else {
      assert (a + b)[1..] == a[1..] + b;
      RunConcat(c, Next(c, s, a[0]), a[1..], b);
    }
  }

  /** Before the quorum, successes only count up. */
  lemma {:induction false} ManySuccesses(c: Config, s: State, n: nat, now: int)
    requires s.mode != OPEN && s.total + n < Quorum(c)
    requires s.mode == HALF_OPEN && n > 0 ==> s.succeeded + n < s.total + n <= c.successThreshold
    ensures RunFrom(c, s, Repeat(Success(now), n)) == s.(total := s.total + n, succeeded := s.succeeded + n)
    ensures Answerable(c, s, Repeat(Success(now), n))
    decreases n
  {
    if n > 0 {
      assert Repeat(Success(now), n)[1..] == Repeat(Success(now), n - 1);
      ManySuccesses(c, AfterSuccess(c, s, now), n - 1, now);
    }
  }

  /** Before the quorum and below the threshold, failures only count up. */
  lemma {:induction false} ManyFailures(c: Config, s: State, n: nat, now: int)
    requires s.mode == CLOSED && s.total + n < Quorum(c) && (n > 0 ==> s.failed + n < c.failureThreshold)
    ensures RunFrom(c, s, Repeat(Failure(now), n)) == s.(total := s.total + n, failed := s.failed + n)
    ensures Answerable(c, s, Repeat(Failure(now), n))
    decreases n
  {
    if n > 0 {
      assert Repeat(Failure(now), n)[1..] == Repeat(Failure(now), n - 1);
      ManyFailures(c, AfterFailure(c, s, now), n - 1, now);
    }
  }

  /** The least number of failures that trips the rate at the quorum. */
  function TripCount(c: Config): (f: nat)
    ensures c.rateThreshold <= 1.0 ==> f <= Quorum(c)
    ensures Share(c, f, Quorum(c))
    ensures forall k: nat | Share(c, k, Quorum(c)) :: f <= k
  {
    var exact := c.rateThreshold * Quorum(c) as real;
    AllFailedShare(c, Quorum(c));
    var up := 0 - (0.0 - exact).Floor;
    if up <= 0 then 0 else up
  }

  /** A run to OPEN on the rate alone, with at most `k` failures. */
  lemma TripRun(c: Config, k: int) returns (ops: seq<Op>)
    requires TripsWith(c, k) && k < c.failureThreshold
    ensures forall i | 0 <= i < |ops| :: ops[i].at == 0
    ensures var s := RunFrom(c, Fresh(0), ops);
            s.mode == OPEN && s.failed <= k && s.since == 0
    ensures Answerable(c, Fresh(0), ops)
  {
    var f, m := TripCount(c), Quorum(c);
    assert m >= 1;
    hide Share, Quorum, RunFrom, Answerable;
    if f == 0 {
      ManySuccesses(c, Fresh(0), m - 1, 0);
      TripLast(c, Repeat(Success(0), m - 1), Success(0));
      ops := Repeat(Success(0), m - 1) + [Success(0)];
    } else {
      var good, bad := Repeat(Success(0), m - f), Repeat(Failure(0), f - 1);
      ManySuccesses(c, Fresh(0), m - f, 0);
      ManyFailures(c, RunFrom(c, Fresh(0), good), f - 1, 0);
      RunConcat(c, Fresh(0), good, bad);
      AnswerableConcat(c, Fresh(0), good, bad);
      TripLast(c, good + bad, Failure(0));
      ops := good + bad + [Failure(0)];
    }
  }

  /** The report with which the quorum and the share are reached. */
  lemma TripLast(c: Config, ops: seq<Op>, op: Op)
    requires op == Success(0) || op == Failure(0)
    requires var s := RunFrom(c, Fresh(0), ops);
             && Answerable(c, Fresh(0), ops) && s.mode == CLOSED && s.since == 0 && s.total + 1 == Quorum(c)
             && Share(c, if op.Failure? then s.failed + 1 else s.failed, Quorum(c))
    ensures Answerable(c, Fresh(0), ops + [op])
    ensures var s, s' := RunFrom(c, Fresh(0), ops), RunFrom(c, Fresh(0), ops + [op]);
            s'.mode == OPEN && s'.since == 0 && s'.failed == if op.Failure? then s.failed + 1 else s.failed
  {
    hide Rated, Share, Quorum, RunFrom, Answerable;
    var s := RunFrom(c, Fresh(0), ops);
    RatedIsShare(c, if op.Failure? then s.(total := s.total + 1, failed := s.failed + 1)
                    else s.(total := s.total + 1, succeeded := s.succeeded + 1), 0);
    RunOneMore(c, Fresh(0), ops, op);
    OneAnswerable(c, s, op);
    AnswerableConcat(c, Fresh(0), ops, [op]);
  }

  lemma OneAnswerable(c: Config, s: State, op: Op)
    requires s.mode == CLOSED && (op.Success? || op.Failure?)
    ensures Answerable(c, s, [op])
  {
    assert [op][1..] == [];
  }

  lemma RunOneMore(c: Config, s: State, ops: seq<Op>, op: Op)
    ensures RunFrom(c, s, ops + [op]) == Next(c, RunFrom(c, s, ops), op)
  {
    RunConcat(c, s, ops, [op]);
    var t := RunFrom(c, s, ops);
    assert RunFrom(c, t, [op]) == RunFrom(c, Next(c, t, op), []) by { assert [op][1..] == []; }
  }

  /** Enough failures open the breaker, and they all stay on record. */
  lemma {:induction false} FailuresPileUp(c: Config, s: State, n: nat)
    requires s.mode != HALF_OPEN && s.since == 0 && n > 0
    ensures var s' := RunFrom(c, s, Repeat(Failure(0), n));
            && s'.failed == s.failed + n && s'.since == 0 && s'.mode != HALF_OPEN
            && (s.failed + n >= c.failureThreshold ==> s'.mode == OPEN)
    decreases n
  {
    hide Share, Quorum;
    assert Repeat(Failure(0), n)[1..] == Repeat(Failure(0), n - 1);
    RatedIsShare(c, s.(total := s.total + 1, failed := s.failed + 1), 0);
    hide Rated;
    var s1 := AfterFailure(c, s, 0);
    assert RunFrom(c, s, Repeat(Failure(0), n)) == RunFrom(c, s1, Repeat(Failure(0), n - 1));
    if n > 1 { FailuresPileUp(c, s1, n - 1); }
  }

  /** The time at which a breaker opened at time 0 may be probed. */
  function Later(c: Config): int { if c.timeout < 0 then 0 else c.timeout }

  /** A run to a fresh HALF_OPEN state with at least `n` failures on record. */
  lemma ProbingRun(c: Config, n: nat) returns (ops: seq<Op>)
    ensures Timely(ops, 0)
    ensures var s := RunFrom(c, Fresh(0), ops);
            s.mode == HALF_OPEN && s.total == s.succeeded == 0 && s.failed >= n
  {
    var k := 1 + n + (if c.failureThreshold > 0 then c.failureThreshold else 0);
    FailuresPileUp(c, Fresh(0), k);
    ops := Repeat(Failure(0), k) + [Ask(Later(c))];
    RunOneMore(c, Fresh(0), Repeat(Failure(0), k), Ask(Later(c)));
    hide RunFrom;
  }

  /** With the quorum within the probes, a breaker that has seen enough failures reopens although
      every probe succeeds. */
  lemma ManyFailuresBlockRecovery(c: Config)
    requires 1 <= c.successThreshold && c.minRequests <= c.successThreshold
    ensures !AlwaysHealthy(c)
  {
    var ops := ProbingRun(c, TripCount(c));
    var s := RunFrom(c, Fresh(0), ops);
    var times := seq(c.successThreshold, i => 0);
    ShareGrows(c, TripCount(c), s.failed, Quorum(c));
    SuccessesCloseIff(c, s, times);
    assert !Closes(c, s, times);
    assert !HealthyAt(c, 0, ops);
  }

  /** The tripped breaker half-opens and one probe fails without reopening it. */
  lemma ProbeFailsQuietly(c: Config, s: State, now: int)
    requires Needed(c) < Quorum(c)
    requires s.mode == OPEN && s.failed <= c.failureThreshold - 2 && Expired(c, s, now)
    ensures var s' := Next(c, Next(c, s, Ask(now)), Failure(now));
            s'.mode == HALF_OPEN && s'.total == 1 && s'.succeeded == 0
  {
  }

  /** The run that uses up the probes: trip on the rate, half-open, one failed probe, and one success
      too few. */
  lemma EarlyTripRun(c: Config) returns (trip: seq<Op>, later: int, rest: seq<Op>)
    requires Needed(c) < Quorum(c) && RateTripsEarly(c)
    ensures Answerable(c, Fresh(0), trip) && forall i | 0 <= i < |trip| :: trip[i].at == 0
    ensures later >= 0 && forall i | 0 <= i < |rest| :: rest[i].at == later
    ensures var s1 := RunFrom(c, Fresh(0), trip);
            var s2 := Next(c, Next(c, s1, Ask(later)), Failure(later));
            s1.mode == OPEN && Expired(c, s1, later) && Answerable(c, s2, rest) && Wedged(c, RunFrom(c, s2, rest))
  {
    trip := TripRun(c, c.failureThreshold - 2);
    later := Later(c);
    rest := Repeat(Success(later), Needed(c) - 1);
    var s1 := RunFrom(c, Fresh(0), trip);
    ProbeFailsQuietly(c, s1, later);
    ManySuccesses(c, Next(c, Next(c, s1, Ask(later)), Failure(later)), Needed(c) - 1, later);
    hide RunFrom, Answerable;
  }

  lemma EarlyTripWedges(c: Config) returns (ops: seq<Op>)
    requires Needed(c) < Quorum(c) && RateTripsEarly(c)
    ensures Wedged(c, RunFrom(c, Fresh(0), ops))
  {
    var trip, later, rest := EarlyTripRun(c);
    RunOneMore(c, Fresh(0), trip, Ask(later));
    RunOneMore(c, Fresh(0), trip + [Ask(later)], Failure(later));
    RunConcat(c, Fresh(0), trip + [Ask(later)] + [Failure(later)], rest);
    ops := trip + [Ask(later)] + [Failure(later)] + rest;
  }

  /** The same run with each report preceded by its request ends with nothing running. */
  lemma EarlyTripSticks(c: Config)
    requires Needed(c) < Quorum(c) && RateTripsEarly(c)
    ensures CanStick(c)
  {
    var trip, later, rest := EarlyTripRun(c);
    var probe := [Ask(later)] + [Failure(later)];
    var s1 := RunFrom(c, Fresh(0), trip);
    var s2 := Next(c, Next(c, s1, Ask(later)), Failure(later));
    AskedRun(c, Live(Fresh(0), 0), trip);
    ProbeLive(c, s1, later);
    AskedRun(c, Live(s2, 0), rest);
    LiveConcat(c, Live(Fresh(0), 0), Asked(trip), probe);
    LiveConcat(c, Live(Fresh(0), 0), Asked(trip) + probe, Asked(rest));
    AskedTimes(trip, 0);
    AskedTimes(rest, later);
    hide RunFrom, RunLive, Next, NextLive, Asked;
    var ops := Asked(trip) + probe + Asked(rest);
    assert Stuck(c, RunLive(c, Live(Fresh(0), 0), ops));
    assert forall i | 0 <= i < |ops| :: ops[i].at == if i < |Asked(trip)| then 0 else later;
    assert Timely(ops, 0);
  }

  lemma ProbeLive(c: Config, s: State, now: int)
    requires s.mode == OPEN && Expired(c, s, now)
    ensures RunLive(c, Live(s, 0), [Ask(now)] + [Failure(now)]) == Live(Next(c, Next(c, s, Ask(now)), Failure(now)), 0)
  {
    var l1 := NextLive(c, Live(s, 0), Ask(now));
    assert ([Ask(now)] + [Failure(now)])[1..] == [Failure(now)];
    assert RunLive(c, l1, [Failure(now)]) == RunLive(c, NextLive(c, l1, Failure(now)), []);
    hide AfterFailure;
  }

  /** Each report preceded by its request. */
  function Asked(ops: seq<Op>): seq<Op>
    decreases |ops|
  {
    if ops == [] then [] else [Ask(ops[0].at), ops[0]] + Asked(ops[1..])
  }

  lemma {:induction false} AskedTimes(ops: seq<Op>, at: int)
    requires forall i | 0 <= i < |ops| :: ops[i].at == at
    ensures forall i | 0 <= i < |Asked(ops)| :: Asked(ops)[i].at == at
    decreases |ops|
  {
    if ops != [] { AskedTimes(ops[1..], at); }
  }

  /** Each report of the run finds the breaker letting requests in without changing. */
  predicate Answerable(c: Config, s: State, ops: seq<Op>)
    decreases |ops|
  {
    ops == [] ||
    (&& (ops[0].Success? || ops[0].Failure?)
     && s.mode != OPEN && (s.mode == HALF_OPEN ==> s.total < c.successThreshold)
     && Answerable(c, Next(c, s, ops[0]), ops[1..]))
  }

  lemma {:induction false} AskedRun(c: Config, live: Live, ops: seq<Op>)
    requires Answerable(c, live.s, ops)
    ensures RunLive(c, live, Asked(ops)) == Live(RunFrom(c, live.s, ops), live.running)
    decreases |ops|
  {
    if ops != [] {
      var l1 := NextLive(c, live, Ask(ops[0].at));
      assert l1 == Live(live.s, live.running + 1);
      var l2 := NextLive(c, l1, ops[0]);
      assert l2 == Live(Next(c, live.s, ops[0]), live.running);
      assert Asked(ops)[1..] == [ops[0]] + Asked(ops[1..]) && Asked(ops)[1..][1..] == Asked(ops[1..]);
      assert RunLive(c, live, Asked(ops)) == RunLive(c, l1, Asked(ops)[1..]) == RunLive(c, l2, Asked(ops[1..]));
      AskedRun(c, l2, ops[1..]);
    }
  }

  lemma {:induction false} AnswerableConcat(c: Config, s: State, a: seq<Op>, b: seq<Op>)
    requires Answerable(c, s, a) && Answerable(c, RunFrom(c, s, a), b)
    ensures Answerable(c, s, a + b)
    decreases |a|
  {
    if a == [] {
      assert a + b == b;
    } else {
      assert (a + b)[1..] == a[1..] + b;
      AnswerableConcat(c, Next(c, s, a[0]), a[1..], b);
    }
  }

  lemma {:induction false} LiveConcat(c: Config, live: Live, a: seq<Op>, b: seq<Op>)
    ensures RunLive(c, live, a + b) == RunLive(c, RunLive(c, live, a), b)
    decreases |a|
  {
    if a == [] {
      assert a + b == b;
    } else {
      assert (a + b)[1..] == a[1..] + b;
      LiveConcat(c, NextLive(c, live, a[0]), a[1..], b);
    }
  }
}
