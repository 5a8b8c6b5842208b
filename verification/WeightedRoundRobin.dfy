/** The smooth weighted round robin of `common/src/load_balancer.cpp`.

    Each selection adds every healthy endpoint's weight to its running counter, picks the first
    endpoint with the largest counter and takes the total healthy weight off the winner. The file
    proves that this greedy rule is exactly fair. */
module WeightedRoundRobin {
  import opened Common

  const INT_MIN: int := -0x8000_0000
  const INT_MAX: int := 0x7FFF_FFFF

  datatype WeightedEndpoint = WeightedEndpoint(endpoint: Endpoint, weight: int, current: int) {
    predicate Up() { endpoint.healthy }

    function Bump(): WeightedEndpoint {
      if Up() then this.(current := current + weight) else this
    }
  }

  type Pool = seq<WeightedEndpoint>

  /** Total weight of the healthy endpoints among the first `n`. */
  function UpWeight(ws: Pool, n: nat): int
    requires n <= |ws|
  {
    if n == 0 then 0 else UpWeight(ws, n - 1) + if ws[n - 1].Up() then ws[n - 1].weight else 0
  }

  /** Sum of the running counters of the healthy endpoints among the first `n`. */
  function UpCurrent(ws: Pool, n: nat): int
    requires n <= |ws|
  {
    if n == 0 then 0 else UpCurrent(ws, n - 1) + if ws[n - 1].Up() then ws[n - 1].current else 0
  }

  /** Sum of all running counters among the first `n`, healthy or not. */
  function AllCurrent(ws: Pool, n: nat): int
    requires n <= |ws|
  {
    if n == 0 then 0 else AllCurrent(ws, n - 1) + ws[n - 1].current
  }

  /** Number of healthy endpoints among the first `n`. */
  function UpCount(ws: Pool, n: nat): nat
    requires n <= |ws|
  {
    if n == 0 then 0 else UpCount(ws, n - 1) + if ws[n - 1].Up() then 1 else 0
  }

  function Bumped(ws: Pool): (r: Pool)
    ensures |r| == |ws|
  {
    seq(|ws|, i requires 0 <= i < |ws| => ws[i].Bump())
  }

  /** `b` is what the scan returns: the first healthy endpoint of largest counter above INT_MIN. */
  ghost predicate IsBest(ws: Pool, n: nat, b: int)
    requires n <= |ws|
  {
    if b < 0 then
      b == -1 && forall i | 0 <= i < n :: ws[i].Up() ==> ws[i].current <= INT_MIN
    else
      && b < n && ws[b].Up() && ws[b].current > INT_MIN
      && (forall i | 0 <= i < n :: ws[i].Up() ==> ws[i].current <= ws[b].current)
      && (forall i | 0 <= i < b :: ws[i].Up() ==> ws[i].current < ws[b].current)
  }

  function Best(ws: Pool, n: nat): (b: int)
    requires n <= |ws|
    ensures b < n && IsBest(ws, n, b)
  {
    if n == 0 then -1
    else
      var b := Best(ws, n - 1);
      if ws[n - 1].Up() && ws[n - 1].current > (if b < 0 then INT_MIN else ws[b].current) then n - 1 else b
  }

  lemma ScanStart(ws: Pool)
    ensures Best(Bumped(ws), 0) == -1 && UpWeight(ws, 0) == 0
  {
  }

  lemma ScanStep(ws: Pool, vs: Pool, n: nat)
    requires n < |ws| == |vs|
    ensures UpWeight(ws, n + 1) == UpWeight(ws, n) + (if ws[n].Up() then ws[n].weight else 0)
    ensures var b := Best(vs, n);
            Best(vs, n + 1) ==
            if vs[n].Up() && vs[n].current > (if b < 0 then INT_MIN else vs[b].current) then n else b
  {
  }

  function Chosen(ws: Pool): int { Best(Bumped(ws), |ws|) }

  /** The pool after one call of `selectEndpoint`. */
  function Next(ws: Pool): (r: Pool)
    ensures |r| == |ws|
  {
    var b := Chosen(ws);
    if b < 0 then Bumped(ws)
    else Bumped(ws)[b := Bumped(ws)[b].(current := Bumped(ws)[b].current - UpWeight(ws, |ws|))]
  }

  function After(ws: Pool, n: nat): (r: Pool)
    ensures |r| == |ws|
  {
    if n == 0 then ws else Next(After(ws, n - 1))
  }

  /** How often endpoint `i` is chosen by the first `n` selections from `ws`. */
  function Picks(ws: Pool, n: nat, i: nat): nat {
    if n == 0 then 0 else Picks(ws, n - 1, i) + if Chosen(After(ws, n - 1)) == i then 1 else 0
  }

  /** Weights are non-negative and some healthy endpoint has a positive one. */
  ghost predicate Weighted(ws: Pool) {
    && (forall i | 0 <= i < |ws| :: ws[i].Up() ==> ws[i].weight >= 0)
    && UpWeight(ws, |ws|) > 0
  }

  /** The state `updateEndpoints` establishes. */
  ghost predicate Fresh(ws: Pool) {
    forall i | 0 <= i < |ws| :: ws[i].current == 0
  }

  /** Endpoints, weights and health flags agree: only the running counters may differ. */
  ghost predicate SameShape(ws: Pool, vs: Pool) {
    && |ws| == |vs|
    && forall i | 0 <= i < |ws| :: vs[i].endpoint == ws[i].endpoint && vs[i].weight == ws[i].weight
  }

  /** The invariant of a run with fixed health flags. */
  ghost predicate Balanced(ws: Pool) {
    && UpCurrent(ws, |ws|) == 0
    && forall i | 0 <= i < |ws| :: ws[i].Up() ==> -UpWeight(ws, |ws|) < ws[i].current
  }

  lemma {:induction false} ShapeFixesWeights(ws: Pool, vs: Pool, n: nat)
    requires SameShape(ws, vs) && n <= |ws|
    ensures UpWeight(ws, n) == UpWeight(vs, n) && UpCount(ws, n) == UpCount(vs, n)
  {
    if n > 0 { ShapeFixesWeights(ws, vs, n - 1); }
  }

  lemma {:induction false} BumpSums(ws: Pool, n: nat)
    requires n <= |ws|
    ensures UpCurrent(Bumped(ws), n) == UpCurrent(ws, n) + UpWeight(ws, n)
    ensures AllCurrent(Bumped(ws), n) == AllCurrent(ws, n) + UpWeight(ws, n)
  {
    if n > 0 { BumpSums(ws, n - 1); }
  }

  lemma {:induction false} UpdateSums(ws: Pool, b: nat, v: int, n: nat)
    requires n <= |ws| && b < |ws| && ws[b].Up()
    ensures var vs := ws[b := ws[b].(current := v)];
            && UpCurrent(vs, n) == UpCurrent(ws, n) + (if b < n then v - ws[b].current else 0)
            && AllCurrent(vs, n) == AllCurrent(ws, n) + (if b < n then v - ws[b].current else 0)
  {
    if n > 0 { UpdateSums(ws, b, v, n - 1); }
  }

  /** Some healthy endpoint has a counter at least as large as `UpCurrent` says on average. */
  lemma {:induction false} PositiveSumHasPositive(ws: Pool, n: nat) returns (i: nat)
    requires n <= |ws| && UpCurrent(ws, n) > 0
    ensures i < n && ws[i].Up() && ws[i].current > 0
  {
    if ws[n - 1].Up() && ws[n - 1].current > 0 {
      i := n - 1;
    } else {
      i := PositiveSumHasPositive(ws, n - 1);
    }
  }

  /** A selection moves weight between counters but never creates or destroys any, whatever the
      weights, the counters and the health flags are, as soon as it finds an endpoint. */
  lemma SelectionConservesSum(ws: Pool)
    requires Chosen(ws) >= 0
    ensures AllCurrent(Next(ws), |ws|) == AllCurrent(ws, |ws|)
    ensures UpCurrent(Next(ws), |ws|) == UpCurrent(ws, |ws|)
    ensures SameShape(ws, Next(ws)) && forall i | 0 <= i < |ws| && !ws[i].Up() :: Next(ws)[i] == ws[i]
    ensures forall i | 0 <= i < |ws| && ws[i].Up() && i != Chosen(ws) ::
              Next(ws)[i].current == ws[i].current + ws[i].weight
  {
    SelectionShape(ws);
    hide AllCurrent, UpCurrent, UpWeight, Best, IsBest, Bumped;
    BumpSums(ws, |ws|);
    BestIsUp(ws);
    UpdateSums(Bumped(ws), Chosen(ws), Bumped(ws)[Chosen(ws)].current - UpWeight(ws, |ws|), |ws|);
  }

  lemma SelectionShape(ws: Pool)
    ensures SameShape(ws, Next(ws))
    ensures forall i | 0 <= i < |ws| && !ws[i].Up() :: Next(ws)[i] == ws[i]
    ensures forall i | 0 <= i < |ws| && ws[i].Up() && i != Chosen(ws) ::
              Next(ws)[i].current == ws[i].current + ws[i].weight
  {
    if Chosen(ws) >= 0 { BestIsUp(ws); }
    hide Best, IsBest, UpWeight;
  }

  lemma BestIsUp(ws: Pool)
    requires Chosen(ws) >= 0
    ensures Bumped(ws)[Chosen(ws)].Up() && ws[Chosen(ws)].Up()
  {
    hide Best;
  }

  /** In a balanced pool every selection finds an endpoint and keeps the pool balanced. */
  lemma SelectionKeepsBalance(ws: Pool)
    requires Weighted(ws) && Balanced(ws)
    ensures Chosen(ws) >= 0 && SameShape(ws, Next(ws))
    ensures Weighted(Next(ws)) && Balanced(Next(ws))
  {
    var total, vs := UpWeight(ws, |ws|), Bumped(ws);
    BumpSums(ws, |ws|);
    var p := PositiveSumHasPositive(vs, |vs|);
    assert Chosen(ws) >= 0 && vs[Chosen(ws)].current >= vs[p].current > 0;
    SelectionConservesSum(ws);
    ShapeFixesWeights(ws, Next(ws), |ws|);
  }

  lemma {:induction false} RunKeepsBalance(ws: Pool, n: nat)
    requires Weighted(ws) && Balanced(ws)
    ensures SameShape(ws, After(ws, n)) && Weighted(After(ws, n)) && Balanced(After(ws, n))
    ensures UpWeight(After(ws, n), |ws|) == UpWeight(ws, |ws|)
  {
    if n > 0 {
      RunKeepsBalance(ws, n - 1);
      SelectionKeepsBalance(After(ws, n - 1));
    }
    ShapeFixesWeights(ws, After(ws, n), |ws|);
  }

  /** What an endpoint of weight `w` is still owed after `n` selections of which it got `k`, in
      units of one selection times the total weight. */
  function Debt(n: nat, w: int, total: int, k: nat): int { n * w - total * k }

  lemma DebtSteps(n: nat, w: int, total: int, k: nat)
    ensures Debt(0, w, total, 0) == 0
    ensures Debt(n + 1, w, total, k) == Debt(n, w, total, k) + w
    ensures Debt(n, w, total, k + 1) == Debt(n, w, total, k) - total
  {
    assert (n + 1) * w == n * w + w;
    assert total * (k + 1) == total * k + total;
  }

  lemma MulMonotone(a: nat, x: int, y: int)
    requires x <= y
    ensures a * x <= a * y
  {
    assert a * (y - x) >= 0;
    assert a * (y - x) == a * y - a * x;
  }

  lemma DebtOfRound(w: int, total: nat, k: nat)
    requires total > 0
    ensures Debt(total, w, total, k) + total > 0 ==> k <= w
    ensures Debt(total, w, total, k) == 0 ==> k == w
    ensures k == w ==> Debt(total, w, total, k) == 0
  {
    assert Debt(total, w, total, k) == total * (w - k);
    if k > w { MulMonotone(total, w - k, -1); }
    if k < w { MulMonotone(total, 1, w - k); }
  }

  lemma SelectionMovesCounter(ws: Pool, i: nat)
    requires Chosen(ws) >= 0 && i < |ws|
    ensures Next(ws)[i].current == ws[i].current
              + (if ws[i].Up() then ws[i].weight else 0)
              - (if i == Chosen(ws) then UpWeight(ws, |ws|) else 0)
    ensures Next(ws)[i].Up() == ws[i].Up() && (i == Chosen(ws) ==> ws[i].Up())
  {
    hide UpWeight, Best;
  }

  /** The counter of a healthy endpoint is exactly the service it is owed. */
  lemma {:induction false} CounterIsDebt(ws: Pool, n: nat, i: nat)
    requires Weighted(ws) && Balanced(ws) && i < |ws|
    ensures After(ws, n)[i].current == ws[i].current +
              if ws[i].Up() then Debt(n, ws[i].weight, UpWeight(ws, |ws|), Picks(ws, n, i)) else 0
    ensures !ws[i].Up() ==> Picks(ws, n, i) == 0
  {
    hide Debt, UpWeight, UpCurrent, Best, Bumped, Next, Balanced, Weighted;
    if n > 0 {
      var vs := After(ws, n - 1);
      CounterIsDebt(ws, n - 1, i);
      RunKeepsBalance(ws, n - 1);
      SelectionKeepsBalance(vs);
      SelectionMovesCounter(vs, i);
      DebtSteps(n - 1, ws[i].weight, UpWeight(ws, |ws|), Picks(ws, n - 1, i));
      DebtSteps(n, ws[i].weight, UpWeight(ws, |ws|), Picks(ws, n - 1, i));
    } else {
      DebtSteps(0, ws[i].weight, UpWeight(ws, |ws|), 0);
    }
  }

  lemma {:induction false} UpperFromLower(ws: Pool, n: nat, total: int)
    requires n <= |ws|
    requires forall j | 0 <= j < n :: ws[j].Up() ==> -total < ws[j].current
    ensures UpCurrent(ws, n) >= -(total - 1) * UpCount(ws, n)
  {
    if n > 0 {
      UpperFromLower(ws, n - 1, total);
      var c := UpCount(ws, n - 1);
      assert -(total - 1) * (c + 1) == -(total - 1) * c - (total - 1);
    }
  }

  lemma {:induction false} UpperForOne(ws: Pool, n: nat, i: nat, total: int)
    requires i < n <= |ws| && ws[i].Up()
    requires forall j | 0 <= j < n :: ws[j].Up() ==> -total < ws[j].current
    ensures UpCurrent(ws, n) >= ws[i].current - (total - 1) * (UpCount(ws, n) - 1)
  {
    if i == n - 1 {
      UpperFromLower(ws, n - 1, total);
    } else {
      UpperForOne(ws, n - 1, i, total);
      var c: int := UpCount(ws, n - 1);
      assert (total - 1) * ((c + 1) - 1) == (total - 1) * (c - 1) + (total - 1);
    }
  }

  /** Drift bound on every prefix of a run: the service an endpoint is owed stays within a fixed
      window that depends only on the total weight and the number of healthy endpoints. */
  lemma DriftIsBounded(ws: Pool, n: nat, i: nat)
    requires Weighted(ws) && Fresh(ws) && i < |ws| && ws[i].Up()
    ensures var total, m := UpWeight(ws, |ws|), UpCount(ws, |ws|);
            && Debt(n, ws[i].weight, total, Picks(ws, n, i)) > -total
            && Debt(n, ws[i].weight, total, Picks(ws, n, i)) <= (m - 1) * (total - 1)
  {
    hide Debt, UpWeight, UpCurrent, UpCount, Picks;
    var total, vs := UpWeight(ws, |ws|), After(ws, n);
    FreshIsBalanced(ws, |ws|);
    RunKeepsBalance(ws, n);
    CounterIsDebt(ws, n, i);
    UpperForOne(vs, |vs|, i, total);
    ShapeFixesWeights(ws, vs, |ws|);
    var m := UpCount(ws, |ws|);
    assert (total - 1) * (m - 1) == (m - 1) * (total - 1);
  }

  lemma {:induction false} FreshIsBalanced(ws: Pool, n: nat)
    requires Weighted(ws) && Fresh(ws) && n <= |ws|
    ensures UpCurrent(ws, n) == 0 && AllCurrent(ws, n) == 0
  {
    if n > 0 { FreshIsBalanced(ws, n - 1); }
  }

  lemma {:induction false} NonNegativeZeroSum(ws: Pool, n: nat, i: nat)
    requires i < n <= |ws| && UpCurrent(ws, n) <= 0
    requires forall j | 0 <= j < n :: ws[j].Up() ==> ws[j].current >= 0
    ensures ws[i].Up() ==> ws[i].current == 0
  {
    UpCurrentNonNegative(ws, n - 1);
    if i < n - 1 { NonNegativeZeroSum(ws, n - 1, i); }
  }

  lemma {:induction false} UpCurrentNonNegative(ws: Pool, n: nat)
    requires n <= |ws|
    requires forall j | 0 <= j < n :: ws[j].Up() ==> ws[j].current >= 0
    ensures UpCurrent(ws, n) >= 0
  {
    if n > 0 { UpCurrentNonNegative(ws, n - 1); }
  }

  /** After total-weight many selections every counter is back to zero. */
  lemma FreshRunReturns(ws: Pool)
    requires Weighted(ws) && Fresh(ws)
    ensures After(ws, UpWeight(ws, |ws|)) == ws
  {
    hide Debt, UpWeight, UpCurrent, Picks, After;
    var total := UpWeight(ws, |ws|);
    var vs := After(ws, total);
    FreshIsBalanced(ws, |ws|);
    RunKeepsBalance(ws, total);
    forall i | 0 <= i < |ws|
      ensures vs[i].Up() ==> vs[i].current >= 0
      ensures !vs[i].Up() ==> vs[i].current == 0
    {
      CounterIsDebt(ws, total, i);
      DebtOfRound(ws[i].weight, total, Picks(ws, total, i));
      if vs[i].Up() { RoundDebtSign(ws[i].weight, total, Picks(ws, total, i)); }
    }
    forall i | 0 <= i < |ws|
      ensures vs[i] == ws[i]
    {
      NonNegativeZeroSum(vs, |vs|, i);
    }
  }

  lemma RoundDebtSign(w: int, total: nat, k: nat)
    requires k <= w
    ensures Debt(total, w, total, k) >= 0
  {
    MulMonotone(total, k, w);
  }

  lemma {:induction false} RunsCompose(ws: Pool, m: nat, n: nat)
    ensures After(ws, m + n) == After(After(ws, m), n)
  {
    hide Next;
    if n > 0 { RunsCompose(ws, m, n - 1); }
  }

  /** Exact fairness: wherever one starts in the run of a fresh pool, the next total-weight many
      selections choose each healthy endpoint exactly as often as its weight says, choose no
      unhealthy one, and bring the pool back to the state it started from. */
  lemma ExactFairness(ws: Pool, start: nat, i: nat)
    requires Weighted(ws) && Fresh(ws) && i < |ws|
    ensures var total := UpWeight(ws, |ws|);
            && Picks(After(ws, start), total, i) == (if ws[i].Up() then ws[i].weight else 0)
            && After(ws, start + total) == After(ws, start)
  {
    hide Debt, UpWeight, UpCurrent, Picks, After;
    var total, vs := UpWeight(ws, |ws|), After(ws, start);
    FreshIsBalanced(ws, |ws|);
    RunKeepsBalance(ws, start);
    FreshRunReturns(ws);
    RunsCompose(ws, total, start);
    RunsCompose(ws, start, total);
    assert After(vs, total) == vs;
    CounterIsDebt(vs, total, i);
    DebtOfRound(ws[i].weight, total, Picks(vs, total, i));
  }

  /** Every value the C++ `int` fields pass through fits 32 bits when the healthy total times the
      number of healthy endpoints does, so unbounded integers lose nothing. */
  lemma NoIntOverflow(ws: Pool, n: nat, i: nat)
    requires Weighted(ws) && Fresh(ws) && i < |ws| && ws[i].Up()
    requires UpCount(ws, |ws|) * UpWeight(ws, |ws|) <= INT_MAX
    ensures INT_MIN < After(ws, n)[i].current <= INT_MAX
    ensures INT_MIN < Bumped(After(ws, n))[i].current <= INT_MAX
    ensures Chosen(After(ws, n)) >= 0
  {
    hide Debt, UpWeight, UpCurrent, UpCount, Picks, Best, After, IsBest, Next, Chosen;
    var total, m := UpWeight(ws, |ws|), UpCount(ws, |ws|);
    FreshIsBalanced(ws, |ws|);
    RunKeepsBalance(ws, n);
    SelectionKeepsBalance(After(ws, n));
    DriftIsBounded(ws, n, i);
    CounterIsDebt(ws, n, i);
    WeightAtMostTotal(ws, |ws|, i);
    CountPositive(ws, |ws|, i);
    MulMonotone(m - 1, total - 1, total);
    assert m * total == (m - 1) * total + total;
    MulMonotone(total, 1, m);
  }

  lemma {:induction false} WeightAtMostTotal(ws: Pool, n: nat, i: nat)
    requires n <= |ws| && forall j | 0 <= j < |ws| :: ws[j].Up() ==> ws[j].weight >= 0
    ensures UpWeight(ws, n) >= 0
    ensures i < n && ws[i].Up() ==> 0 <= ws[i].weight <= UpWeight(ws, n)
  {
    if n > 0 { WeightAtMostTotal(ws, n - 1, i); }
  }

  lemma {:induction false} CountPositive(ws: Pool, n: nat, i: nat)
    requires i < n <= |ws| && ws[i].Up()
    ensures UpCount(ws, n) >= 1
  {
    if i < n - 1 { CountPositive(ws, n - 1, i); }
  }

  /** Index of the first endpoint with the given id at or after `from`, or the pool's length. */
  function IndexOf(ws: Pool, id: string, from: nat): (k: nat)
    requires from <= |ws|
    ensures from <= k <= |ws|
    decreases |ws| - from
  {
    if from == |ws| || ws[from].endpoint.Id() == id then from else IndexOf(ws, id, from + 1)
  }

  /** `markEndpointStatus`: only the first endpoint with the given id is touched. */
  function Mark(ws: Pool, id: string, healthy: bool): (r: Pool)
    ensures |r| == |ws|
    ensures forall i | 0 <= i < |ws| :: r[i].current == ws[i].current && r[i].weight == ws[i].weight
  {
    var k := IndexOf(ws, id, 0);
    if k == |ws| then ws else ws[k := ws[k].(endpoint := ws[k].endpoint.(healthy := healthy))]
  }

  lemma {:induction false} SameCountersSameSum(ws: Pool, vs: Pool, n: nat)
    requires |ws| == |vs| && n <= |ws|
    requires forall i | 0 <= i < |ws| :: ws[i].current == vs[i].current
    ensures AllCurrent(ws, n) == AllCurrent(vs, n)
  {
    if n > 0 { SameCountersSameSum(ws, vs, n - 1); }
  }

  datatype Operation = Select | MarkStatus(id: string, healthy: bool)

  function Apply(ws: Pool, op: Operation): (r: Pool)
    ensures |r| == |ws|
  {
    match op
    case Select => Next(ws)
    case MarkStatus(id, healthy) => Mark(ws, id, healthy)
  }

  function Run(ws: Pool, ops: seq<Operation>): (r: Pool)
    ensures |r| == |ws|
  {
    if ops == [] then ws else Apply(Run(ws, ops[..|ops| - 1]), ops[|ops| - 1])
  }

  // ------------------------------------------------------------------ conservation through health flips

  /** The guard of `if (!best) throw`, before the call: some healthy counter comes out above INT_MIN,
      or nothing was added in the first place. */
  ghost predicate Charges(ws: Pool) {
    UpWeight(ws, |ws|) == 0 || exists i :: 0 <= i < |ws| && ws[i].Up() && ws[i].current + ws[i].weight > INT_MIN
  }

  /** One selection keeps the sum of all counters if and only if what it adds is charged to somebody. */
  lemma SelectionKeepsSumIff(ws: Pool)
    ensures AllCurrent(Next(ws), |ws|) == AllCurrent(ws, |ws|) <==> Charges(ws)
  {
    hide AllCurrent, UpWeight, UpCount, UpCurrent, Best;
    BumpSums(ws, |ws|);
    if Chosen(ws) >= 0 {
      SelectionConservesSum(ws);
      var b := Chosen(ws);
      assert ws[b].Up() && ws[b].current + ws[b].weight > INT_MIN;
    } else {
      assert forall i | 0 <= i < |ws| && ws[i].Up() :: Bumped(ws)[i].current <= INT_MIN;
    }
  }

  lemma ApplyKeepsSumIff(ws: Pool, op: Operation)
    ensures AllCurrent(Apply(ws, op), |ws|) == AllCurrent(ws, |ws|) <==> (op == Select ==> Charges(ws))
  {
    match op
    case Select => SelectionKeepsSumIff(ws);
    case MarkStatus(id, healthy) => SameCountersSameSum(ws, Mark(ws, id, healthy), |ws|);
  }

  ghost predicate ChargedAt(ws: Pool, ops: seq<Operation>, k: nat)
    requires k < |ops|
  {
    ops[k] == Select ==> Charges(Run(ws, ops[..k]))
  }

  ghost predicate SumKeptAt(ws: Pool, ops: seq<Operation>, n: nat)
    requires n <= |ops|
  {
    AllCurrent(Run(ws, ops[..n]), |ws|) == AllCurrent(ws, |ws|)
  }

  /** Over a run, the sum is what it was at every point if and only if every selection charges. */
  lemma SumKeptIffCharged(ws: Pool, ops: seq<Operation>)
    ensures (forall n: nat | n <= |ops| :: SumKeptAt(ws, ops, n)) <==>
            (forall k: nat | k < |ops| :: ChargedAt(ws, ops, k))
  {
    hide AllCurrent, Charges;
    assert Run(ws, ops[..0]) == ws;
    forall k: nat | k < |ops|
      ensures SumKeptAt(ws, ops, k) ==> (SumKeptAt(ws, ops, k + 1) <==> ChargedAt(ws, ops, k))
    {
      assert ops[..k + 1][..k] == ops[..k];
      ApplyKeepsSumIff(Run(ws, ops[..k]), ops[k]);
    }
    if forall k: nat | k < |ops| :: ChargedAt(ws, ops, k) {
      for n := 0 to |ops|
        invariant forall j: nat | j <= n :: SumKeptAt(ws, ops, j)
      {
        assert SumKeptAt(ws, ops, n) && ChargedAt(ws, ops, n);
        assert SumKeptAt(ws, ops, n + 1);
      }
    }
    if forall n: nat | n <= |ops| :: SumKeptAt(ws, ops, n) {
      forall k: nat | k < |ops| ensures ChargedAt(ws, ops, k) { assert SumKeptAt(ws, ops, k + 1); }
    }
  }

  /** `std::stoi` accepts the smallest int as a weight. A lone healthy endpoint with it is never
      chosen: each selection throws and leaves the weight added. */
  lemma SmallestWeightIsNeverCharged(endpoint: Endpoint)
    requires endpoint.healthy
    ensures var ws := [WeightedEndpoint(endpoint, INT_MIN, 0)];
            Fresh(ws) && Chosen(ws) == -1 && AllCurrent(ws, 1) == 0 && AllCurrent(Run(ws, [Select]), 1) == INT_MIN
  {
    var ws := [WeightedEndpoint(endpoint, INT_MIN, 0)];
    assert [Select][..0] == [];
    assert Best(Bumped(ws), 0) == -1;
    assert Run(ws, [Select]) == Next(ws) == Bumped(ws);
    assert AllCurrent(Bumped(ws), 0) == 0;
  }

  // A set of endpoints is a mask: a sequence of booleans as long as the pool.

  /** Sum of the counters of the masked endpoints among the first `n`. */
  function MaskCurrent(ws: Pool, mask: seq<bool>, n: nat): int
    requires n <= |ws| == |mask|
  {
    if n == 0 then 0 else MaskCurrent(ws, mask, n - 1) + if mask[n - 1] then ws[n - 1].current else 0
  }

  /** Total weight of the masked healthy endpoints among the first `n`. */
  function MaskUpWeight(ws: Pool, mask: seq<bool>, n: nat): int
    requires n <= |ws| == |mask|
  {
    if n == 0 then 0
    else MaskUpWeight(ws, mask, n - 1) + if mask[n - 1] && ws[n - 1].Up() then ws[n - 1].weight else 0
  }

  function MaskSize(mask: seq<bool>, n: nat): nat
    requires n <= |mask|
  {
    if n == 0 then 0 else MaskSize(mask, n - 1) + if mask[n - 1] then 1 else 0
  }

  /** Total weight of the first `n`, healthy or not. */
  function AllWeight(ws: Pool, n: nat): int
    requires n <= |ws|
  {
    if n == 0 then 0 else AllWeight(ws, n - 1) + ws[n - 1].weight
  }

  ghost predicate NonNegative(ws: Pool) {
    forall i | 0 <= i < |ws| :: ws[i].weight >= 0
  }

  /** How far below zero `k` of `n` counters can get together. */
  function Depth(total: int, n: nat, k: int): int { total * (k * (n - k)) }

  lemma DepthIsConcave(total: int, n: nat, k: int)
    ensures 2 * Depth(total, n, k) == Depth(total, n, k - 1) + Depth(total, n, k + 1) + 2 * total
  {
    var a, b, c := k * (n - k), (k - 1) * (n - (k - 1)), (k + 1) * (n - (k + 1));
    assert b == k * n - k * k + 2 * k - n - 1;
    assert c == k * n - k * k - 2 * k + n - 1;
    assert a == k * n - k * k;
    assert 2 * a == b + c + 2;
    assert total * (b + c + 2) == total * b + total * c + 2 * total;
  }

  /** Any set of endpoints, of whatever health, has a bounded joint debt. */
  ghost predicate Contained(ws: Pool) {
    forall mask: seq<bool> | |mask| == |ws| :: MaskContained(ws, mask, AllWeight(ws, |ws|))
  }

  ghost predicate MaskContained(ws: Pool, mask: seq<bool>, total: int)
    requires |mask| == |ws|
  {
    MaskCurrent(ws, mask, |ws|) >= 0 - Depth(total, |ws|, MaskSize(mask, |ws|))
  }

  lemma {:induction false} MaskSizeBound(mask: seq<bool>, n: nat)
    requires n <= |mask|
    ensures MaskSize(mask, n) <= n
  {
    if n > 0 { MaskSizeBound(mask, n - 1); }
  }

  /** Adding one endpoint to a set. */
  lemma {:induction false} MaskAdds(ws: Pool, mask: seq<bool>, j: nat, n: nat)
    requires n <= |ws| == |mask| && j < |ws| && !mask[j]
    ensures MaskSize(mask[j := true], n) == MaskSize(mask, n) + if j < n then 1 else 0
    ensures MaskCurrent(ws, mask[j := true], n) == MaskCurrent(ws, mask, n) + if j < n then ws[j].current else 0
  {
    if n > 0 { MaskAdds(ws, mask, j, n - 1); }
  }

  lemma {:induction false} MaskBumps(ws: Pool, mask: seq<bool>, n: nat)
    requires n <= |ws| == |mask|
    ensures MaskCurrent(Bumped(ws), mask, n) == MaskCurrent(ws, mask, n) + MaskUpWeight(ws, mask, n)
  {
    if n > 0 { MaskBumps(ws, mask, n - 1); }
  }

  lemma {:induction false} MaskUpdates(ws: Pool, b: nat, v: int, mask: seq<bool>, n: nat)
    requires n <= |ws| == |mask| && b < |ws|
    ensures MaskCurrent(ws[b := ws[b].(current := v)], mask, n) ==
            MaskCurrent(ws, mask, n) + if b < n && mask[b] then v - ws[b].current else 0
  {
    if n > 0 { MaskUpdates(ws, b, v, mask, n - 1); }
  }

  /** What a set gains when its member `b` is charged: minus the healthy weight outside the set. */
  lemma {:induction false} MaskWeights(ws: Pool, mask: seq<bool>, b: nat, n: nat)
    requires n <= |ws| == |mask| && NonNegative(ws) && b < |ws| && mask[b]
    ensures 0 <= MaskUpWeight(ws, mask, n) <= UpWeight(ws, n)
    ensures UpWeight(ws, n) - MaskUpWeight(ws, mask, n) + (if b < n then ws[b].weight else 0) <= AllWeight(ws, n)
    ensures (forall i | 0 <= i < n && ws[i].Up() :: mask[i]) ==> UpWeight(ws, n) == MaskUpWeight(ws, mask, n)
  {
    if n > 0 { MaskWeights(ws, mask, b, n - 1); }
  }

  lemma {:induction false} MaskGains(ws: Pool, mask: seq<bool>, n: nat)
    requires n <= |ws| == |mask| && NonNegative(ws)
    ensures MaskUpWeight(ws, mask, n) >= 0 && AllWeight(ws, n) >= 0
  {
    if n > 0 { MaskGains(ws, mask, n - 1); }
  }

  /** The heart of the bound. The winner `b` of the scan is charged inside the set, while a healthy
      `j` outside it has no larger counter. Were the set too deep already, then either the set
      without `b` or the set with `j` would have been. */
  lemma ChargedSetStaysContained(ws: Pool, mask: seq<bool>, b: nat, j: nat)
    requires Contained(ws) && NonNegative(ws) && |mask| == |ws|
    requires b < |ws| && j < |ws| && mask[b] && !mask[j] && ws[b].Up() && ws[j].Up()
    requires ws[j].current + ws[j].weight <= ws[b].current + ws[b].weight
    ensures MaskCurrent(ws, mask, |ws|) + MaskUpWeight(ws, mask, |ws|) - UpWeight(ws, |ws|)
            >= 0 - Depth(AllWeight(ws, |ws|), |ws|, MaskSize(mask, |ws|))
  {
    assert MaskContained(ws, mask[b := false], AllWeight(ws, |ws|));
    assert MaskContained(ws, mask[j := true], AllWeight(ws, |ws|));
    hide Contained, MaskCurrent, MaskUpWeight, UpWeight, AllWeight, MaskSize, Depth;
    var n, total, k := |ws|, AllWeight(ws, |ws|), MaskSize(mask, |ws|);
    var without, more := mask[b := false], mask[j := true];
    assert without[b := true] == mask;
    MaskAdds(ws, without, b, n);
    MaskAdds(ws, mask, j, n);
    MaskWeights(ws, mask, b, n);
    DepthIsConcave(total, n, k);
  }

  /** What a selection does to one set. */
  lemma SelectionMovesMask(ws: Pool, mask: seq<bool>)
    requires |mask| == |ws|
    ensures var b, sum := Chosen(ws), MaskCurrent(ws, mask, |ws|) + MaskUpWeight(ws, mask, |ws|);
            MaskCurrent(Next(ws), mask, |ws|) == if b >= 0 && mask[b] then sum - UpWeight(ws, |ws|) else sum
  {
    hide MaskCurrent, MaskUpWeight, UpWeight, Best, IsBest, Bumped;
    var b, vs := Chosen(ws), Bumped(ws);
    MaskBumps(ws, mask, |ws|);
    if b >= 0 { MaskUpdates(vs, b, vs[b].current - UpWeight(ws, |ws|), mask, |ws|); }
  }

  lemma SelectedMask(ws: Pool, mask: seq<bool>)
    requires Contained(ws) && NonNegative(ws) && |mask| == |ws|
    ensures MaskContained(Next(ws), mask, AllWeight(ws, |ws|))
  {
    var n, b := |ws|, Chosen(ws);
    assert MaskContained(ws, mask, AllWeight(ws, n));
    SelectionMovesMask(ws, mask);
    MaskGains(ws, mask, n);
    hide MaskCurrent, MaskUpWeight, UpWeight, AllWeight, MaskSize, Depth, Best, Next, Contained;
    if b >= 0 && mask[b] {
      MaskWeights(ws, mask, b, n);
      if j :| 0 <= j < n && ws[j].Up() && !mask[j] {
        assert Bumped(ws)[j].Up() && Bumped(ws)[j].current <= Bumped(ws)[b].current;
        ChargedSetStaysContained(ws, mask, b, j);
      }
    }
  }

  lemma NextKeepsWeights(ws: Pool)
    ensures forall i | 0 <= i < |ws| :: Next(ws)[i].weight == ws[i].weight
  {
    hide Best, IsBest, UpWeight;
  }

  /** A selection keeps every set of endpoints contained. */
  lemma SelectionKeepsContained(ws: Pool)
    requires Contained(ws) && NonNegative(ws)
    ensures Contained(Next(ws)) && NonNegative(Next(ws)) && AllWeight(Next(ws), |ws|) == AllWeight(ws, |ws|)
  {
    hide MaskContained, AllWeight, Chosen, Next, UpWeight;
    NextKeepsWeights(ws);
    WeightsStay(ws, Next(ws), |ws|);
    forall mask: seq<bool> | |mask| == |ws|
      ensures MaskContained(Next(ws), mask, AllWeight(ws, |ws|))
    {
      SelectedMask(ws, mask);
    }
  }

  lemma {:induction false} WeightsStay(ws: Pool, vs: Pool, n: nat)
    requires |ws| == |vs| && n <= |ws|
    requires forall i | 0 <= i < |ws| :: ws[i].weight == vs[i].weight
    ensures AllWeight(ws, n) == AllWeight(vs, n)
  {
    if n > 0 { WeightsStay(ws, vs, n - 1); }
  }

  lemma {:induction false} MaskIgnoresHealth(ws: Pool, vs: Pool, mask: seq<bool>, n: nat)
    requires n <= |ws| == |vs| == |mask|
    requires forall i | 0 <= i < |ws| :: ws[i].current == vs[i].current
    ensures MaskCurrent(ws, mask, n) == MaskCurrent(vs, mask, n)
  {
    if n > 0 { MaskIgnoresHealth(ws, vs, mask, n - 1); }
  }

  lemma ApplyKeepsContained(ws: Pool, op: Operation)
    requires Contained(ws) && NonNegative(ws)
    ensures Contained(Apply(ws, op)) && NonNegative(Apply(ws, op))
    ensures AllWeight(Apply(ws, op), |ws|) == AllWeight(ws, |ws|)
  {
    match op
    case Select => SelectionKeepsContained(ws);
    case MarkStatus(id, healthy) =>
      var vs := Mark(ws, id, healthy);
      WeightsStay(ws, vs, |ws|);
      hide MaskCurrent, MaskSize, Depth, AllWeight, Mark;
      forall mask: seq<bool> | |mask| == |ws|
        ensures MaskContained(vs, mask, AllWeight(ws, |ws|))
      {
        assert MaskContained(ws, mask, AllWeight(ws, |ws|));
        MaskIgnoresHealth(ws, vs, mask, |ws|);
      }
  }

  lemma {:induction false} FreshMaskIsZero(ws: Pool, mask: seq<bool>, n: nat)
    requires Fresh(ws) && n <= |ws| == |mask|
    ensures MaskCurrent(ws, mask, n) == 0 && AllCurrent(ws, n) == 0
  {
    if n > 0 { FreshMaskIsZero(ws, mask, n - 1); }
  }

  lemma FreshIsContained(ws: Pool)
    requires Fresh(ws) && NonNegative(ws)
    ensures Contained(ws)
  {
    forall mask: seq<bool> | |mask| == |ws|
      ensures MaskContained(ws, mask, AllWeight(ws, |ws|))
    {
      FreshMaskIsZero(ws, mask, |ws|);
      MaskSizeBound(mask, |ws|);
      MaskGains(ws, mask, |ws|);
      ProductNonNegative(AllWeight(ws, |ws|), MaskSize(mask, |ws|), |ws|);
    }
  }

  lemma ProductNonNegative(total: int, k: nat, n: nat)
    requires total >= 0 && k <= n
    ensures Depth(total, n, k) >= 0
  {
    assert k * (n - k) >= 0;
  }

  lemma {:induction false} RunKeepsContained(ws: Pool, ops: seq<Operation>)
    requires Fresh(ws) && NonNegative(ws)
    ensures Contained(Run(ws, ops)) && NonNegative(Run(ws, ops))
    ensures AllWeight(Run(ws, ops), |ws|) == AllWeight(ws, |ws|)
  {
    if ops == [] {
      FreshIsContained(ws);
    } else {
      hide Contained, AllWeight, Apply;
      RunKeepsContained(ws, ops[..|ops| - 1]);
      ApplyKeepsContained(Run(ws, ops[..|ops| - 1]), ops[|ops| - 1]);
    }
  }

  /** The sets of one endpoint and of all but one. */
  lemma {:induction false} SingleMasks(ws: Pool, one: seq<bool>, rest: seq<bool>, i: nat, n: nat)
    requires n <= |ws| == |one| == |rest| && i < |ws|
    requires forall j | 0 <= j < |ws| :: one[j] == (j == i) && rest[j] == (j != i)
    ensures MaskCurrent(ws, one, n) == (if i < n then ws[i].current else 0)
    ensures MaskCurrent(ws, rest, n) == AllCurrent(ws, n) - (if i < n then ws[i].current else 0)
    ensures MaskSize(one, n) == (if i < n then 1 else 0) && MaskSize(rest, n) == n - (if i < n then 1 else 0)
  {
    if n > 0 { SingleMasks(ws, one, rest, i, n - 1); }
  }

  /** A contained counter is above -W(n-1), and below W(n-1) plus the sum of all counters. */
  lemma ContainedCounter(ws: Pool, i: nat)
    requires Contained(ws) && i < |ws|
    ensures var bound := AllWeight(ws, |ws|) * (|ws| - 1);
            0 - bound <= ws[i].current <= bound + AllCurrent(ws, |ws|)
  {
    hide MaskCurrent, MaskSize, AllWeight, AllCurrent;
    var n := |ws|;
    var one, rest := seq(n, j => j == i), seq(n, j => j != i);
    SingleMasks(ws, one, rest, i, n);
    assert (n - 1) * (n - (n - 1)) == n - 1 && 1 * (n - 1) == n - 1;
    assert MaskContained(ws, one, AllWeight(ws, n)) && MaskContained(ws, rest, AllWeight(ws, n));
  }

  lemma ContainedCharges(ws: Pool)
    requires Contained(ws) && NonNegative(ws) && AllWeight(ws, |ws|) * (|ws| - 1) <= INT_MAX
    ensures Charges(ws)
  {
    hide Contained, AllWeight, UpWeight, UpCount;
    if i :| 0 <= i < |ws| && ws[i].Up() {
      ContainedCounter(ws, i);
    } else {
      NoneUpNothingAdded(ws, |ws|);
    }
  }

  lemma {:induction false} NoneUpNothingAdded(ws: Pool, n: nat)
    requires n <= |ws| && forall i | 0 <= i < |ws| :: !ws[i].Up()
    ensures UpWeight(ws, n) == 0
  {
    if n > 0 { NoneUpNothingAdded(ws, n - 1); }
  }

  /** The same without regard to the width of `int`: counters here are unbounded integers. */
  lemma SumSurvivesOverIntegers(ws: Pool, ops: seq<Operation>)
    requires Fresh(ws) && NonNegative(ws) && AllWeight(ws, |ws|) * (|ws| - 1) <= INT_MAX
    ensures AllCurrent(Run(ws, ops), |ws|) == 0
    ensures var bound := AllWeight(ws, |ws|) * (|ws| - 1);
            forall i | 0 <= i < |ws| :: 0 - bound <= Run(ws, ops)[i].current <= bound
  {
    hide AllCurrent, AllWeight, Contained, Charges, Run, Apply;
    forall k: nat | k < |ops| ensures ChargedAt(ws, ops, k) {
      RunKeepsContained(ws, ops[..k]);
      ContainedCharges(Run(ws, ops[..k]));
    }
    SumKeptIffCharged(ws, ops);
    assert SumKeptAt(ws, ops, |ops|) && ops[..|ops|] == ops;
    FreshMaskIsZero(ws, seq(|ws|, _ => false), |ws|);
    RunKeepsContained(ws, ops);
    forall i | 0 <= i < |ws|
      ensures var bound := AllWeight(ws, |ws|) * (|ws| - 1); 0 - bound <= Run(ws, ops)[i].current <= bound
    {
      ContainedCounter(Run(ws, ops), i);
    }
  }

  lemma {:induction false} WeightInAll(ws: Pool, n: nat, i: nat)
    requires n <= |ws| && NonNegative(ws)
    ensures 0 <= UpWeight(ws, n) <= AllWeight(ws, n)
    ensures i < n ==> ws[i].weight <= AllWeight(ws, n)
  {
    if n > 0 { WeightInAll(ws, n - 1, i); }
  }

  /** Through any sequence of selections and health flips, of any length, the counters of a pool
      with non-negative weights sum to 0 and each stays within W(n-1) of 0, for W the total weight
      and n the number of endpoints. If Wn fits the `int` fields, so does every value that the
      fields and `total_weight` pass through, and the unbounded integers here lose nothing. */
  lemma SumSurvivesHealthFlips(ws: Pool, ops: seq<Operation>)
    requires Fresh(ws) && NonNegative(ws) && AllWeight(ws, |ws|) * |ws| <= INT_MAX
    ensures AllCurrent(Run(ws, ops), |ws|) == 0
    ensures var bound := AllWeight(ws, |ws|) * (|ws| - 1);
            forall i | 0 <= i < |ws| :: 0 - bound <= Run(ws, ops)[i].current <= bound
    ensures forall i | 0 <= i < |ws| :: INT_MIN < Run(ws, ops)[i].current <= INT_MAX
    ensures forall i | 0 <= i < |ws| :: INT_MIN < Bumped(Run(ws, ops))[i].current <= INT_MAX
    ensures 0 <= UpWeight(Run(ws, ops), |ws|) <= INT_MAX
  {
    var total, vs := AllWeight(ws, |ws|), Run(ws, ops);
    assert |ws| == 0 ==> total == 0;
    hide AllCurrent, AllWeight, UpWeight, Contained, Run;
    RunKeepsContained(ws, ops);
    WeightInAll(vs, |ws|, 0);
    MarginSuffices(total, |ws|);
    SumSurvivesOverIntegers(ws, ops);
    forall i | 0 <= i < |ws|
      ensures INT_MIN < vs[i].current <= INT_MAX && INT_MIN < Bumped(vs)[i].current <= INT_MAX
    {
      WeightInAll(vs, |ws|, i);
      assert Bumped(vs)[i].current <= vs[i].current + vs[i].weight;
    }
  }

  lemma MarginSuffices(total: nat, n: nat)
    requires total * n <= INT_MAX && (n == 0 ==> total == 0)
    ensures total <= INT_MAX && total * (n - 1) == total * n - total <= INT_MAX - total
    ensures n > 0 ==> total * (n - 1) >= 0
  {
    if n > 0 {
      MulMonotone(total, 1, n);
      MulMonotone(total, 0, n - 1);
    }
  }

  /** The margin is needed. With weights a and 3a for 4a just below the largest int, W(n-1) fits, but
      the third selection bumps the second counter to 5a: `current_weight` overflows. */
  lemma WithoutMarginCountersOverflow(first: Endpoint, second: Endpoint)
    requires first.healthy && second.healthy
    ensures var a := 536870911;
            var ws := [WeightedEndpoint(first, a, 0), WeightedEndpoint(second, 3 * a, 0)];
            && Fresh(ws) && NonNegative(ws) && AllWeight(ws, 2) * 1 <= INT_MAX < AllWeight(ws, 2) * 2
            && Bumped(Run(ws, [Select, Select]))[1].current == 5 * a > INT_MAX
  {
    var a := 536870911;
    var ws := [WeightedEndpoint(first, a, 0), WeightedEndpoint(second, 3 * a, 0)];
    assert AllWeight(ws, 2) == 4 * a by { assert AllWeight(ws, 1) == a && AllWeight(ws, 0) == 0; }
    TwoStep(ws);
    var ws1 := [WeightedEndpoint(first, a, a), WeightedEndpoint(second, 3 * a, 0 - a)];
    assert Next(ws) == ws1;
    TwoStep(ws1);
    assert Next(ws1) == [WeightedEndpoint(first, a, 0 - 2 * a), WeightedEndpoint(second, 3 * a, 2 * a)];
    assert [Select, Select][..1] == [Select] && [Select][..0] == [];
    assert Run(ws, [Select]) == Next(ws) by { assert Run(ws, []) == ws; }
    assert Run(ws, [Select, Select]) == Next(ws1);
  }

  /** One selection among two healthy endpoints. */
  lemma TwoStep(ws: Pool)
    requires |ws| == 2 && ws[0].Up() && ws[1].Up()
    requires ws[0].current + ws[0].weight > INT_MIN && ws[1].current + ws[1].weight > INT_MIN
    ensures var x, y := ws[0].current + ws[0].weight, ws[1].current + ws[1].weight;
            var total := ws[0].weight + ws[1].weight;
            Next(ws) == if y > x then [ws[0].(current := x), ws[1].(current := y - total)]
                        else [ws[0].(current := x - total), ws[1].(current := y)]
  {
    assert UpWeight(ws, 0) == 0 && UpWeight(ws, 1) == ws[0].weight;
    assert UpWeight(ws, 2) == ws[0].weight + ws[1].weight;
    assert Best(Bumped(ws), 0) == -1;
    assert Best(Bumped(ws), 1) == 0;
  }

  /** `WeightedRoundRobinLoadBalancer`. The mutex makes every method one step. */
  class Balancer {
    var weighted: Pool

    constructor ()
      ensures weighted == []
    {
      weighted := [];
    }

    /** `parse` is `std::stoi`, with None for the exceptions it throws. */
    method UpdateEndpoints(endpoints: seq<Endpoint>, parse: string -> Option<int>)
      modifies this
      ensures |weighted| == |endpoints| && Fresh(weighted)
      ensures forall i | 0 <= i < |endpoints| ::
                && weighted[i].endpoint == endpoints[i]
                && weighted[i].weight == ConfiguredWeight(endpoints[i], parse)
    {
      weighted := [];
      var k := 0;
      while k < |endpoints|
        invariant 0 <= k <= |endpoints| && |weighted| == k && Fresh(weighted)
        invariant forall i | 0 <= i < k ::
                    && weighted[i].endpoint == endpoints[i]
                    && weighted[i].weight == ConfiguredWeight(endpoints[i], parse)
      {
        var weight := 1;
        if "weight" in endpoints[k].metadata {
          match parse(endpoints[k].metadata["weight"]) {
            case Some(w) => weight := w;
            case None => weight := 1;
          }
        }
        weighted := weighted + [WeightedEndpoint(endpoints[k], weight, 0)];
        k := k + 1;
      }
    }

    method MarkEndpointStatus(id: string, healthy: bool)
      modifies this
      ensures weighted == Mark(old(weighted), id, healthy)
      ensures (forall i | 0 <= i < |old(weighted)| :: old(weighted)[i].endpoint.Id() != id) ==>
                weighted == old(weighted)
      ensures forall k | 0 <= k < |old(weighted)| && old(weighted)[k].endpoint.Id() == id
                && (forall i | 0 <= i < k :: old(weighted)[i].endpoint.Id() != id) ::
                var was := old(weighted)[k];
                weighted == old(weighted)[k := was.(endpoint := was.endpoint.(healthy := healthy))]
    {
      var k := 0;
      while k < |weighted|
        invariant 0 <= k <= |weighted| && weighted == old(weighted)
        invariant IndexOf(weighted, id, 0) == IndexOf(weighted, id, k)
        invariant forall i | 0 <= i < k :: weighted[i].endpoint.Id() != id
      {
        if weighted[k].endpoint.Id() == id {
          weighted := weighted[k := weighted[k].(endpoint := weighted[k].endpoint.(healthy := healthy))];
          return;
        }
        k := k + 1;
      }
    }

    /** `offered` is the argument vector, of which the source only tests emptiness. */
    method SelectEndpoint(offered: seq<Endpoint>) returns (r: Result<Endpoint>)
      modifies this
      ensures offered == [] || old(weighted) == [] ==> r.Err? && weighted == old(weighted)
      ensures offered == [] ==> r == Err("No endpoints available")
      ensures offered != [] && old(weighted) == [] ==> r == Err("No weighted endpoints available")
      ensures offered != [] && old(weighted) != [] && r.Err? ==> r == Err("No healthy endpoints available")
      ensures offered != [] && old(weighted) != [] ==>
                && weighted == Next(old(weighted))
                && (r.Ok? <==> Chosen(old(weighted)) >= 0)
                && (r.Ok? ==> r.value == old(weighted)[Chosen(old(weighted))].endpoint)
    {
      if offered == [] { return Err("No endpoints available"); }
      if weighted == [] { return Err("No weighted endpoints available"); }
      hide IsBest, Best, UpWeight;
      var best, totalWeight := BumpAndScan();
      if best < 0 { return Err("No healthy endpoints available"); }
      weighted := weighted[best := weighted[best].(current := weighted[best].current - totalWeight)];
      return Ok(weighted[best].endpoint);
    }

    /** The loop: every healthy counter grows by its weight; the largest, met first, wins. */
    method BumpAndScan() returns (best: int, totalWeight: int)
      modifies this
      ensures weighted == Bumped(old(weighted))
      ensures best == Chosen(old(weighted)) && totalWeight == UpWeight(old(weighted), |old(weighted)|)
    {
      hide IsBest, Best, UpWeight;
      ghost var before := weighted;
      var maxWeight, k := INT_MIN, 0;
      best, totalWeight := -1, 0;
      assert Best(Bumped(before), 0) == -1 && UpWeight(before, 0) == 0 by { ScanStart(before); }
      while k < |weighted|
        invariant 0 <= k <= |weighted| == |before|
        invariant forall j | 0 <= j < k :: weighted[j] == Bumped(before)[j]
        invariant forall j | k <= j < |before| :: weighted[j] == before[j]
        invariant totalWeight == UpWeight(before, k)
        invariant best == Best(Bumped(before), k)
        invariant maxWeight == if best < 0 then INT_MIN else Bumped(before)[best].current
      {
        ScanStep(before, Bumped(before), k);
        if weighted[k].Up() {
          weighted := weighted[k := weighted[k].(current := weighted[k].current + weighted[k].weight)];
          totalWeight := totalWeight + weighted[k].weight;
          if weighted[k].current > maxWeight {
            maxWeight := weighted[k].current;
            best := k;
          }
        }
        k := k + 1;
      }
    }
  }

  function ConfiguredWeight(endpoint: Endpoint, parse: string -> Option<int>): int {
    if "weight" !in endpoint.metadata then 1
    else match parse(endpoint.metadata["weight"]) case Some(w) => w case None => 1
  }
}
