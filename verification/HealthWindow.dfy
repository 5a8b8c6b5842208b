/** Live health metrics of agents: `registry/src/service_registry.cpp`.

    A ring of 100 outcomes and an exponential moving average stand in for the call history. The
    theorems say that the ring is the true window of the last 100 calls. Times and rates are reals. */
module HealthWindow {
  import opened Common

  const SLOTS := 100
  const ALPHA: real := 0.1

  datatype Call = Call(success: bool, latency: real)

  datatype HealthStatus = HEALTHY | DEGRADED | UNHEALTHY | UNKNOWN

  // ------------------------------------------------------------------ the history itself

  function Min(a: int, b: int): int { if a < b then a else b }

  /** The last 100 calls, or all of them. */
  function Window(calls: seq<Call>): seq<Call> { calls[|calls| - Min(|calls|, SLOTS)..] }

  function Outcomes(calls: seq<Call>): (r: seq<bool>)
    ensures |r| == |calls|
  {
    seq(|calls|, i requires 0 <= i < |calls| => calls[i].success)
  }

  function Successes(outcomes: seq<bool>): nat {
    if outcomes == [] then 0
    else Successes(outcomes[..|outcomes| - 1]) + (if outcomes[|outcomes| - 1] then 1 else 0)
  }

  /** The moving average; 0 marks one that has not started. */
  function Ema(calls: seq<Call>): real {
    if calls == [] then 0.0
    else NextEma(Ema(calls[..|calls| - 1]), calls[|calls| - 1].latency)
  }

  function NextEma(ema: real, latency: real): real {
    if ema == 0.0 then latency else (1.0 - ALPHA) * ema + ALPHA * latency
  }

  function Classify(rate: real, latency: real): HealthStatus {
    if rate >= 0.95 && latency < 5000.0 then HEALTHY
    else if rate >= 0.80 && latency < 30000.0 then DEGRADED
    else UNHEALTHY
  }

  /** The success rate of the true window. */
  function Rate(calls: seq<Call>): real
    requires calls != []
  {
    Successes(Outcomes(Window(calls))) as real / |Window(calls)| as real
  }

  /** What health means for an agent with this history. */
  function Health(calls: seq<Call>): HealthStatus {
    if calls == [] then UNKNOWN else Classify(Rate(calls), Ema(calls))
  }

  // ------------------------------------------------------------------ the ring

  /** Call number j is in slot j mod 100 while it is among the last 100; other slots are false. */
  ghost predicate RingHolds(ring: seq<bool>, calls: seq<Call>) {
    && |ring| == SLOTS
    && (forall j | 0 <= j < |calls| && |calls| - SLOTS <= j :: ring[j % SLOTS] == calls[j].success)
    && (forall i | |calls| <= i < SLOTS :: !ring[i])
  }

  lemma RecordKeepsRing(ring: seq<bool>, calls: seq<Call>, c: Call)
    requires RingHolds(ring, calls)
    ensures RingHolds(ring[|calls| % SLOTS := c.success], calls + [c])
  {
    var n := |calls|;
    forall j | 0 <= j < n && n + 1 - SLOTS <= j ensures j % SLOTS != n % SLOTS {
      assert 0 < n - j < SLOTS;
    }
  }

  /** The latest call number that went to slot i. */
  function LastInSlot(n: nat, i: nat): (j: nat)
    requires i < SLOTS <= n
    ensures n - SLOTS <= j < n && j % SLOTS == i
  {
    if i < n % SLOTS then
      assert n - n % SLOTS + i == SLOTS * (n / SLOTS) + i;
      n - n % SLOTS + i
    else
      assert n - n % SLOTS - SLOTS + i == SLOTS * (n / SLOTS - 1) + i;
      n - n % SLOTS - SLOTS + i
  }

  /** The ring is the window, rotated. */
  lemma RingIsRotatedWindow(ring: seq<bool>, calls: seq<Call>)
    requires RingHolds(ring, calls)
    ensures |calls| < SLOTS ==> ring[..|calls|] == Outcomes(Window(calls))
    ensures |calls| >= SLOTS ==>
              var w, k := Outcomes(Window(calls)), |calls| % SLOTS;
              ring == w[SLOTS - k..] + w[..SLOTS - k]
  {
    var n := |calls|;
    var w := Outcomes(Window(calls));
    if n < SLOTS {
      forall i | 0 <= i < n ensures ring[..n][i] == w[i] { assert i % SLOTS == i; }
    } else {
      var k := n % SLOTS;
      forall i | 0 <= i < SLOTS ensures ring[i] == (w[SLOTS - k..] + w[..SLOTS - k])[i] {
        var j := LastInSlot(n, i);
        assert w[j - (n - SLOTS)] == calls[j].success == ring[j % SLOTS];
      }
    }
  }

  lemma {:induction false} SuccessesConcat(a: seq<bool>, b: seq<bool>)
    ensures Successes(a + b) == Successes(a) + Successes(b)
    decreases |b|
  {
    if b == [] {
      assert a + b == a;
    } else {
      assert (a + b)[..|a + b| - 1] == a + b[..|b| - 1];
      SuccessesConcat(a, b[..|b| - 1]);
    }
  }

  /** Counting the written slots counts the window. */
  lemma RingCountsWindow(ring: seq<bool>, calls: seq<Call>)
    requires RingHolds(ring, calls)
    ensures Successes(ring[..Min(|calls|, SLOTS)]) == Successes(Outcomes(Window(calls)))
  {
    RingIsRotatedWindow(ring, calls);
    if |calls| >= SLOTS {
      var w, k := Outcomes(Window(calls)), |calls| % SLOTS;
      assert ring[..SLOTS] == ring && w == w[..SLOTS - k] + w[SLOTS - k..];
      SuccessesConcat(w[SLOTS - k..], w[..SLOTS - k]);
      SuccessesConcat(w[..SLOTS - k], w[SLOTS - k..]);
    }
  }

  lemma EmaOfOneMore(calls: seq<Call>, c: Call)
    ensures Ema(calls + [c]) == NextEma(Ema(calls), c.latency)
  {
    assert (calls + [c])[..|calls|] == calls;
  }

  lemma NextSlot(n: nat)
    ensures (n % SLOTS + 1) % SLOTS == (n + 1) % SLOTS
  {
  }

  class LiveMetrics {
    const recent: array<bool>
    var bufferIdx: nat
    var totalWrites: nat
    var ema: real
    ghost var calls: seq<Call>

    ghost predicate Valid()
      reads this, recent
    {
      && recent.Length == SLOTS
      && totalWrites == |calls| && bufferIdx == |calls| % SLOTS
      && RingHolds(recent[..], calls)
      && ema == Ema(calls)
    }

    constructor ()
      ensures Valid() && calls == [] && fresh(recent)
    {
      recent := new bool[SLOTS](_ => false);
      bufferIdx, totalWrites, ema := 0, 0, 0.0;
      calls := [];
    }

    method Record(success: bool, latency: real)
      requires Valid()
      modifies this, recent
      ensures Valid() && calls == old(calls) + [Call(success, latency)]
    {
      RecordKeepsRing(recent[..], calls, Call(success, latency));
      EmaOfOneMore(calls, Call(success, latency));
      NextSlot(|calls|);
      hide RingHolds, Ema, NextEma;
      ghost var ring := recent[..];
      recent[bufferIdx] := success;
      assert recent[..] == ring[|calls| % SLOTS := success];
      bufferIdx := (bufferIdx + 1) % SLOTS;
      totalWrites := totalWrites + 1;
      UpdateEma(latency);
      calls := calls + [Call(success, latency)];
    }

    method UpdateEma(latency: real)
      modifies this`ema
      ensures ema == NextEma(old(ema), latency)
    {
      if ema == 0.0 { ema := latency; } else { ema := (1.0 - ALPHA) * ema + ALPHA * latency; }
    }

    /** The counting loop and the classification. */
    method Evaluate() returns (status: HealthStatus)
      requires Valid()
      ensures calls != [] ==> status == Health(calls)
      ensures calls == [] ==> status == UNHEALTHY
    {
      var valid := if totalWrites >= 100 then 100 else bufferIdx;
      RingCountsWindow(recent[..], calls);
      assert valid == Min(|calls|, SLOTS);
      if valid == 0 { valid := 1; }
      var count := 0;
      for i := 0 to valid
        invariant count == Successes(recent[..i]) && 0 <= count
      {
        assert recent[..i + 1][..i] == recent[..i];
        if recent[i] { count := count + 1; }
      }
      assert recent[..][..valid] == recent[..valid];
      var rate := count as real / valid as real;
      if rate >= 0.95 && ema < 5000.0 {
        status := HEALTHY;
      } else if rate >= 0.80 && ema < 30000.0 {
        status := DEGRADED;
      } else {
        status := UNHEALTHY;
      }
      if calls == [] { assert recent[..1][..0] == []; assert !recent[..][0]; }
    }
  }

  /** The table of all agents' metrics. */
  class Registry {
    var live: map<string, LiveMetrics>

    ghost predicate Valid()
      reads this, live.Values, set m | m in live.Values :: m.recent
    {
      && (forall id | id in live :: live[id].Valid() && live[id].calls != [])
      && (forall a, b | a in live && b in live && a != b :: live[a] != live[b] && live[a].recent != live[b].recent)
    }

    /** The calls recorded for an agent. */
    ghost function History(id: string): seq<Call>
      reads this, live.Values
    {
      if id in live then live[id].calls else []
    }

    constructor ()
      ensures Valid() && live == map[]
    {
      live := map[];
    }

    method RecordAgentCall(id: string, success: bool, latency: real)
      requires Valid()
      modifies this, if id in live then {live[id], live[id].recent} else {}
      ensures Valid()
      ensures History(id) == old(History(id)) + [Call(success, latency)]
      ensures forall other | other != id :: History(other) == old(History(other))
    {
      hide LiveMetrics.Valid;
      if id !in live {
        var m := new LiveMetrics();
        live := live[id := m];
      }
      live[id].Record(success, latency);
    }

    /** Health is the classification of the agent's true window of calls. */
    method EvaluateHealth(id: string) returns (status: HealthStatus)
      requires Valid()
      ensures status == Health(History(id))
    {
      if id !in live { return UNKNOWN; }
      status := live[id].Evaluate();
    }
  }

  // ------------------------------------------------------------------ what health means

  ghost predicate Between(calls: seq<Call>, low: real, high: real) {
    forall i | 0 <= i < |calls| :: low <= calls[i].latency <= high
  }

  /** The average never leaves the range of the recorded latencies. */
  lemma {:induction false} EmaStaysBetween(calls: seq<Call>, low: real, high: real)
    requires calls != [] && Between(calls, low, high)
    ensures low <= Ema(calls) <= high
  {
    var n := |calls| - 1;
    if n > 0 {
      EmaStaysBetween(calls[..n], low, high);
      var e, l := Ema(calls[..n]), calls[n].latency;
      assert (1.0 - ALPHA) * low <= (1.0 - ALPHA) * e <= (1.0 - ALPHA) * high;
    }
  }

  function Power(x: real, n: nat): real { if n == 0 then 1.0 else x * Power(x, n - 1) }

  /** What call i contributes to an average that started with call 0: a tenth of its latency, the first
      call all of it, and nine tenths of that for every call since. */
  function Contribution(calls: seq<Call>, i: nat): real
    requires i < |calls|
  {
    (if i == 0 then 1.0 else 0.1) * calls[i].latency * Power(0.9, |calls| - 1 - i)
  }

  function Contributions(calls: seq<Call>, upTo: nat): real
    requires upTo <= |calls|
  {
    if upTo == 0 then 0.0 else Contributions(calls, upTo - 1) + Contribution(calls, upTo - 1)
  }

  lemma {:induction false} ContributionsFade(calls: seq<Call>, c: Call, upTo: nat)
    requires upTo <= |calls|
    ensures Contributions(calls + [c], upTo) == 0.9 * Contributions(calls, upTo)
  {
    if upTo > 0 {
      ContributionsFade(calls, c, upTo - 1);
      var i := upTo - 1;
      var weight, p := (if i == 0 then 1.0 else 0.1) * calls[i].latency, Power(0.9, |calls| - 1 - i);
      assert Power(0.9, |calls| - i) == 0.9 * p;
      assert weight * (0.9 * p) == 0.9 * (weight * p);
    }
  }

  lemma LastContribution(calls: seq<Call>, n: nat)
    requires |calls| == n + 1
    ensures Contribution(calls, n) == (if n == 0 then calls[n].latency else 0.1 * calls[n].latency)
  {
  }

  /** The average spelled out: each call weighs a tenth at first and fades by a tenth with every later
      call. An average that reaches 0 starts over with the next call, so `before` is then forgotten. */
  lemma {:induction false} EmaIsWeightedSum(before: seq<Call>, calls: seq<Call>)
    requires Ema(before) == 0.0 && (forall n | 0 < n < |calls| :: Ema(before + calls[..n]) != 0.0)
    ensures Ema(before + calls) == Contributions(calls, |calls|)
  {
    if calls == [] {
      assert before + calls == before;
    } else {
      var n := |calls| - 1;
      var front, last := calls[..n], calls[n];
      forall k | 0 < k < n ensures Ema(before + front[..k]) != 0.0 { assert front[..k] == calls[..k]; }
      EmaIsWeightedSum(before, front);
      assert before + calls == (before + front) + [last] && calls == front + [last];
      EmaOfOneMore(before + front, last);
      ContributionsFade(front, last, n);
      LastContribution(calls, n);
      hide Ema, Contribution;
      if n == 0 { assert before + front == before; } else { assert front[..n] == front; }
    }
  }

  /** For positive latencies, so for every call that took time, the average never starts over. */
  lemma EmaOfPositiveLatencies(calls: seq<Call>)
    requires forall i | 0 <= i < |calls| :: calls[i].latency > 0.0
    ensures Ema(calls) == Contributions(calls, |calls|)
  {
    forall n | 0 < n < |calls| ensures Ema([] + calls[..n]) != 0.0 {
      assert [] + calls[..n] == calls[..n];
      EmaIsPositive(calls[..n]);
    }
    EmaIsWeightedSum([], calls);
    assert [] + calls == calls;
  }

  lemma {:induction false} EmaIsPositive(calls: seq<Call>)
    requires calls != [] && forall i | 0 <= i < |calls| :: calls[i].latency > 0.0
    ensures Ema(calls) > 0.0
  {
    if |calls| > 1 { EmaIsPositive(calls[..|calls| - 1]); }
  }

  function Failures(calls: seq<Call>): int { |Window(calls)| - Successes(Outcomes(Window(calls))) }

  /** Healthy means at most one failure in twenty of the last calls and a fast average; usable means
      at most one failure in five and a tolerable average. */
  lemma HealthCountsFailures(calls: seq<Call>)
    requires calls != []
    ensures Health(calls) == HEALTHY <==> 20 * Failures(calls) <= |Window(calls)| && Ema(calls) < 5000.0
    ensures Health(calls) in {HEALTHY, DEGRADED} <==>
            5 * Failures(calls) <= |Window(calls)| && Ema(calls) < 30000.0
  {
    var s, n := Successes(Outcomes(Window(calls))), |Window(calls)|;
    RateAtLeast(s, n);
  }

  lemma RateAtLeast(s: nat, n: nat)
    requires n > 0
    ensures s as real / n as real >= 0.95 <==> 20 * (n - s) <= n
    ensures s as real / n as real >= 0.80 <==> 5 * (n - s) <= n
  {
    QuotientAtLeast(s as real, n as real, 0.95);
    QuotientAtLeast(s as real, n as real, 0.80);
  }

  /** Outcomes older than the last hundred calls are forgotten. */
  lemma OldOutcomesForgotten(a: seq<Call>, b: seq<Call>, recent: seq<Call>)
    requires |recent| >= SLOTS
    ensures Failures(a + recent) == Failures(b + recent)
    ensures Rate(a + recent) == Rate(b + recent)
  {
    assert Window(a + recent) == Window(recent) == Window(b + recent);
  }
}
