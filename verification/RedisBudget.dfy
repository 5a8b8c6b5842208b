/** The Redis soft budget: `server/src/budget_middleware.cpp`.

    A call increments four counters one after the other, compares each new total with the tier's
    limit, and takes its increments back when a tier is exceeded. No lock is involved. Every INCRBY
    is one atomic step here and any number of calls interleave freely. */
module RedisBudget {
  import opened Common

  datatype Verdict = OK | RequestOver | GlobalOver | UserDailyOver | UserMonthlyOver | SessionOver

  /** Limits of the tiers, in the order global, daily, monthly, session. */
  datatype Limits = Limits(request: int, tiers: seq<int>)

  ghost predicate LimitsOk(limits: Limits) { |limits.tiers| == 4 }

  /** One call of `checkAndDeduct`: who asks, on which day, for how much. */
  datatype Call = Call(user: string, context: string, day: string, month: string, cost: nat)

  function KeyOf(call: Call, tier: nat): string
    requires tier < 4
  {
    if tier == 0 then "budget:global"
    else if tier == 1 then "budget:daily:" + call.user + ":" + call.day
    else if tier == 2 then "budget:monthly:" + call.user + ":" + call.month
    else "budget:session:" + call.user + ":" + call.context
  }

  /** The four counters of a call are four different Redis keys. */
  lemma KeysDiffer(call: Call, i: nat, j: nat)
    requires i < j < 4
    ensures KeyOf(call, i) != KeyOf(call, j)
  {
    if i == 1 && j == 2 {
      assert KeyOf(call, 1)[7] == 'd' && KeyOf(call, 2)[7] == 'm';
    } else if i == 1 {
      assert KeyOf(call, 1)[7] == 'd' && KeyOf(call, 3)[7] == 's';
    } else if i == 2 {
      assert KeyOf(call, 2)[7] == 'm' && KeyOf(call, 3)[7] == 's';
    } else {
      assert KeyOf(call, 0)[7] == 'g';
      assert KeyOf(call, j)[7] != 'g';
    }
  }

  /** The two calls count against the same budget of a tier: one for all, one for each user and day,
      one for each user and month, one for each user and context. */
  predicate SameBudget(a: Call, b: Call, tier: nat)
    requires tier < 4
  {
    tier == 0
    || (tier == 1 && a.user == b.user && a.day == b.day)
    || (tier == 2 && a.user == b.user && a.month == b.month)
    || (tier == 3 && a.user == b.user && a.context == b.context)
  }

  /** Dates are digits and hyphens, so no day or month contains the separator; the model asks the same
      of user ids. */
  predicate Clean(call: Call) { ':' !in call.user && ':' !in call.day && ':' !in call.month }

  lemma KeyParts(call: Call)
    ensures KeyOf(call, 1) == "budget:daily:" + (call.user + ":" + call.day)
    ensures KeyOf(call, 2) == "budget:monthly:" + (call.user + ":" + call.month)
    ensures KeyOf(call, 3) == "budget:session:" + (call.user + ":" + call.context)
  {
  }

  /** Two calls share a counter exactly if they count against the same budget. */
  lemma SameKeyIff(a: Call, i: nat, b: Call, j: nat)
    requires i < 4 && j < 4 && Clean(a) && Clean(b)
    ensures KeyOf(a, i) == KeyOf(b, j) <==> i == j && SameBudget(a, b, i)
  {
    KeyParts(a);
    KeyParts(b);
    if i != j {
      TiersApart(a, i, b, j);
    } else if KeyOf(a, i) == KeyOf(b, j) {
      if i == 1 {
        AfterPrefix("budget:daily:", a.user + ":" + a.day, b.user + ":" + b.day);
        LastColon(a.user, a.day, b.user, b.day);
      } else if i == 2 {
        AfterPrefix("budget:monthly:", a.user + ":" + a.month, b.user + ":" + b.month);
        LastColon(a.user, a.month, b.user, b.month);
      } else if i == 3 {
        AfterPrefix("budget:session:", a.user + ":" + a.context, b.user + ":" + b.context);
        FirstColon(a.user, a.context, b.user, b.context);
      }
    }
  }

  lemma AfterPrefix(p: string, x: string, y: string)
    ensures p + x == p + y <==> x == y
  {
    if p + x == p + y { assert x == (p + x)[|p|..] && y == (p + y)[|p|..]; }
  }

  lemma TierLetter(call: Call, tier: nat)
    requires tier < 4
    ensures |KeyOf(call, tier)| > 7
    ensures KeyOf(call, tier)[7] == if tier == 0 then 'g' else if tier == 1 then 'd' else if tier == 2 then 'm' else 's'
  {
  }

  lemma TiersApart(a: Call, i: nat, b: Call, j: nat)
    requires i < 4 && j < 4 && i != j
    ensures KeyOf(a, i) != KeyOf(b, j)
  {
    TierLetter(a, i);
    TierLetter(b, j);
    hide KeyOf;
  }

  /** For arbitrary ids: two session keys coincide also when one user id is the other's followed by
      the separator and the beginning of its context. */
  lemma SessionKeysIff(a: Call, b: Call)
    ensures KeyOf(a, 3) == KeyOf(b, 3) <==> SameBudget(a, b, 3) || Shifted(a, b) || Shifted(b, a)
  {
    KeyParts(a);
    KeyParts(b);
    AfterPrefix("budget:session:", a.user + ":" + a.context, b.user + ":" + b.context);
    if Shifted(a, b) { ShiftedMeetsUp(a, b); }
    if Shifted(b, a) { ShiftedMeetsUp(b, a); }
    if a.user + ":" + a.context == b.user + ":" + b.context { MeetsUp(a, b); }
    hide Shifted;
  }

  ghost predicate Shifted(a: Call, b: Call) {
    exists mid: string :: b.user == a.user + ":" + mid && a.context == mid + ":" + b.context
  }

  lemma ShiftedMeetsUp(a: Call, b: Call)
    requires Shifted(a, b)
    ensures a.user + ":" + a.context == b.user + ":" + b.context
  {
    var mid: string :| b.user == a.user + ":" + mid && a.context == mid + ":" + b.context;
    assert a.user + ":" + (mid + ":" + b.context) == (a.user + ":" + mid) + ":" + b.context;
  }

  lemma MeetsUp(a: Call, b: Call)
    requires a.user + ":" + a.context == b.user + ":" + b.context
    ensures SameBudget(a, b, 3) || Shifted(a, b) || Shifted(b, a)
  {
    if |a.user| == |b.user| {
      var s := a.user + ":" + a.context;
      assert a.user == s[..|a.user|] && b.user == s[..|b.user|];
      assert a.context == s[|a.user| + 1..] && b.context == s[|b.user| + 1..];
    } else if |a.user| < |b.user| {
      CutsLater(a, b);
    } else {
      CutsLater(b, a);
    }
  }

  lemma CutsLater(a: Call, b: Call)
    requires a.user + ":" + a.context == b.user + ":" + b.context && |a.user| < |b.user|
    ensures Shifted(a, b)
  {
    var s, m, n := a.user + ":" + a.context, |a.user|, |b.user|;
    var mid := s[m + 1..n];
    assert b.user == s[..n] && s[m] == ':' && s[n] == ':';
    assert b.user == s[..m] + [s[m]] + s[m + 1..n] && a.user == s[..m];
    assert a.context == s[m + 1..] && b.context == s[n + 1..];
    assert a.context == s[m + 1..n] + [s[n]] + s[n + 1..];
    assert b.user == a.user + ":" + mid && a.context == mid + ":" + b.context;
  }

  /** `key` is one of the call's four counters. */
  predicate Charges(call: Call, key: string) {
    key == KeyOf(call, 0) || key == KeyOf(call, 1) || key == KeyOf(call, 2) || key == KeyOf(call, 3)
  }

  function OverVerdict(tier: nat): Verdict
    requires tier < 4
  {
    if tier == 0 then GlobalOver else if tier == 1 then UserDailyOver
    else if tier == 2 then UserMonthlyOver else SessionOver
  }

  // ------------------------------------------------------------------ interleaved calls

  datatype Pc =
    | Start
    | Incr(tier: nat)               // about to increment this tier
    | Undo(failed: nat, next: nat)  // tier `failed` was exceeded; rolling back `next`, then the rest
    | Done(verdict: Verdict)

  datatype Caller = Caller(call: Call, pc: Pc)

  datatype State = State(counters: map<string, int>, callers: seq<Caller>)

  datatype Action = Arrive(call: Call) | Step(who: nat)

  predicate PcOk(pc: Pc) { (pc.Incr? ==> pc.tier < 4) && (pc.Undo? ==> pc.next <= pc.failed < 4) }

  function Value(counters: map<string, int>, key: string): int {
    if key in counters then counters[key] else 0
  }

  /** INCRBY. */
  function IncrBy(counters: map<string, int>, key: string, delta: int): map<string, int> {
    counters[key := Value(counters, key) + delta]
  }

  /** One atomic step of a caller: at most one INCRBY and the comparison that follows it. */
  function StepOf(counters: map<string, int>, c: Caller, limits: Limits): (map<string, int>, Caller)
    requires LimitsOk(limits) && PcOk(c.pc)
  {
    match c.pc
    case Start => (counters, c.(pc := if c.call.cost > limits.request then Done(RequestOver) else Incr(0)))
    case Incr(t) =>
      var after := IncrBy(counters, KeyOf(c.call, t), c.call.cost);
      (after, c.(pc := if Value(after, KeyOf(c.call, t)) > limits.tiers[t] then Undo(t, 0)
                       else if t < 3 then Incr(t + 1) else Done(OK)))
    case Undo(f, j) =>
      (IncrBy(counters, KeyOf(c.call, j), 0 - c.call.cost),
       c.(pc := if j < f then Undo(f, j + 1) else Done(OverVerdict(f))))
    case Done(_) => (counters, c)
  }

  function Next(s: State, a: Action, limits: Limits): State
    requires LimitsOk(limits)
  {
    match a
    case Arrive(call) => s.(callers := s.callers + [Caller(call, Start)])
    case Step(w) =>
      if w < |s.callers| && PcOk(s.callers[w].pc) then
        var (counters, c) := StepOf(s.counters, s.callers[w], limits);
        State(counters, s.callers[w := c])
      else s
  }

  function Run(acts: seq<Action>, limits: Limits): State
    requires LimitsOk(limits)
  {
    if acts == [] then State(map[], []) else Next(Run(acts[..|acts| - 1], limits), acts[|acts| - 1], limits)
  }

  /** The calls that arrived, in order. */
  ghost function Arrivals(acts: seq<Action>): seq<Call> {
    if acts == [] then []
    else
      var n := |acts| - 1;
      Arrivals(acts[..n]) + match acts[n] case Arrive(call) => [call] case Step(_) => []
  }

  /** The callers of a run are the calls that arrived, in their order and to the letter. */
  lemma {:induction false} CallersAreArrivals(acts: seq<Action>, limits: Limits)
    requires LimitsOk(limits)
    ensures |Run(acts, limits).callers| == |Arrivals(acts)|
    ensures forall i | 0 <= i < |Arrivals(acts)| :: Run(acts, limits).callers[i].call == Arrivals(acts)[i]
  {
    if acts != [] {
      CallersAreArrivals(acts[..|acts| - 1], limits);
      hide KeyOf, IncrBy, OverVerdict, Value;
    }
  }

  // ------------------------------------------------------------------ what a caller has put in

  /** The caller's increment of this tier stands: made and not taken back. */
  predicate Live(c: Caller, tier: nat) {
    match c.pc
    case Start => false
    case Incr(t) => tier < t
    case Undo(f, j) => j <= tier <= f
    case Done(v) => v == OK
  }

  /** The caller got past this tier's limit and its increment stands. */
  predicate Passed(c: Caller, tier: nat) {
    Live(c, tier) && !(c.pc.Undo? && tier == c.pc.failed)
  }

  function LiveAt(c: Caller, tier: nat, key: string): nat
    requires tier < 4
  {
    if Live(c, tier) && KeyOf(c.call, tier) == key then c.call.cost else 0
  }

  /** What one caller currently contributes to a counter. */
  function Share(c: Caller, key: string): nat {
    LiveAt(c, 0, key) + LiveAt(c, 1, key) + LiveAt(c, 2, key) + LiveAt(c, 3, key)
  }

  function Shares(cs: seq<Caller>, key: string): nat {
    if cs == [] then 0 else Shares(cs[..|cs| - 1], key) + Share(cs[|cs| - 1], key)
  }

  function PassedAt(c: Caller, tier: nat, key: string): nat
    requires tier < 4
  {
    if Passed(c, tier) && KeyOf(c.call, tier) == key then c.call.cost else 0
  }

  /** The cost of the callers that this tier has let through and that have not rolled it back. */
  function Admitted(cs: seq<Caller>, tier: nat, key: string): nat
    requires tier < 4
  {
    if cs == [] then 0 else Admitted(cs[..|cs| - 1], tier, key) + PassedAt(cs[|cs| - 1], tier, key)
  }

  lemma {:induction false} SharesChange(cs: seq<Caller>, w: nat, c: Caller, key: string)
    requires w < |cs|
    ensures Shares(cs[w := c], key) == Shares(cs, key) - Share(cs[w], key) + Share(c, key)
  {
    hide Share;
    var n := |cs| - 1;
    if w == n {
      assert cs[w := c][..n] == cs[..n];
    } else {
      assert cs[w := c][..n] == cs[..n][w := c];
      SharesChange(cs[..n], w, c, key);
    }
  }

  lemma {:induction false} AdmittedChange(cs: seq<Caller>, w: nat, c: Caller, tier: nat, key: string)
    requires w < |cs| && tier < 4
    ensures Admitted(cs[w := c], tier, key) == Admitted(cs, tier, key)
            - PassedAt(cs[w], tier, key) + PassedAt(c, tier, key)
  {
    hide PassedAt;
    var n := |cs| - 1;
    if w == n {
      assert cs[w := c][..n] == cs[..n];
    } else {
      assert cs[w := c][..n] == cs[..n][w := c];
      AdmittedChange(cs[..n], w, c, tier, key);
    }
  }

  /** Since costs are not negative, what is admitted is part of what the counter shows. */
  lemma {:induction false} AdmittedIsShown(cs: seq<Caller>, tier: nat, key: string)
    requires tier < 4
    ensures Admitted(cs, tier, key) <= Shares(cs, key)
  {
    hide KeyOf;
    if cs != [] { AdmittedIsShown(cs[..|cs| - 1], tier, key); }
  }

  // ------------------------------------------------------------------ the invariant

  ghost predicate Inv(s: State, limits: Limits)
    requires LimitsOk(limits)
  {
    && (forall w | 0 <= w < |s.callers| :: PcOk(s.callers[w].pc))
    && (forall key :: Value(s.counters, key) == Shares(s.callers, key))
    && (forall t, key | 0 <= t < 4 && Admitted(s.callers, t, key) > 0 :: Admitted(s.callers, t, key) <= limits.tiers[t])
  }

  /** A step moves the counter by exactly the change of the caller's share. */
  lemma StepMovesShare(counters: map<string, int>, c: Caller, limits: Limits, key: string)
    requires LimitsOk(limits) && PcOk(c.pc)
    ensures var (after, c') := StepOf(counters, c, limits);
            && PcOk(c'.pc) && c'.call == c.call
            && Value(after, key) - Value(counters, key) == Share(c', key) - Share(c, key)
  {
    hide KeyOf;
  }

  /** A step admits only at a tier whose new total is within the limit. */
  lemma StepAdmits(counters: map<string, int>, c: Caller, limits: Limits, tier: nat, key: string)
    requires LimitsOk(limits) && PcOk(c.pc) && tier < 4
    ensures var (after, c') := StepOf(counters, c, limits);
            PassedAt(c', tier, key) > PassedAt(c, tier, key) ==> Value(after, key) <= limits.tiers[tier]
  {
    hide KeyOf;
  }

  lemma NextKeepsInv(s: State, a: Action, limits: Limits)
    requires LimitsOk(limits) && Inv(s, limits)
    ensures Inv(Next(s, a, limits), limits)
  {
    hide StepOf, Share, PassedAt, KeyOf;
    var s' := Next(s, a, limits);
    match a
    case Arrive(call) =>
      assert s'.callers[..|s.callers|] == s.callers;
      forall key ensures Shares(s'.callers, key) == Shares(s.callers, key) { NewcomerHasNothing(call, 0, key); }
      forall t, key | 0 <= t < 4 ensures Admitted(s'.callers, t, key) == Admitted(s.callers, t, key) {
        NewcomerHasNothing(call, t, key);
      }
    case Step(w) =>
      if w < |s.callers| {
        var c' := s'.callers[w];
        StepMovesShare(s.counters, s.callers[w], limits, "");
        forall key
          ensures Value(s'.counters, key) == Shares(s'.callers, key)
        {
          StepMovesShare(s.counters, s.callers[w], limits, key);
          SharesChange(s.callers, w, c', key);
        }
        forall t, key | 0 <= t < 4 && Admitted(s'.callers, t, key) > 0
          ensures Admitted(s'.callers, t, key) <= limits.tiers[t]
        {
          StepAdmits(s.counters, s.callers[w], limits, t, key);
          AdmittedChange(s.callers, w, c', t, key);
          AdmittedIsShown(s'.callers, t, key);
        }
      }
  }

  lemma NewcomerHasNothing(call: Call, tier: nat, key: string)
    requires tier < 4
    ensures Share(Caller(call, Start), key) == 0 && PassedAt(Caller(call, Start), tier, key) == 0
  {
  }

  lemma {:induction false} RunKeepsInv(acts: seq<Action>, limits: Limits)
    requires LimitsOk(limits)
    ensures Inv(Run(acts, limits), limits)
  {
    if acts != [] {
      RunKeepsInv(acts[..|acts| - 1], limits);
      NextKeepsInv(Run(acts[..|acts| - 1], limits), acts[|acts| - 1], limits);
    }
  }

  // ------------------------------------------------------------------ the theorems

  /** In every interleaving each counter shows exactly the increments that stand. */
  lemma CountersShowLiveIncrements(acts: seq<Action>, limits: Limits, key: string)
    requires LimitsOk(limits)
    ensures Value(Run(acts, limits).counters, key) == Shares(Run(acts, limits).callers, key)
  {
    RunKeepsInv(acts, limits);
  }

  /** The race never over-admits: what a tier has let through stays within its limit. */
  lemma NeverOverAdmits(acts: seq<Action>, limits: Limits, tier: nat, key: string)
    requires LimitsOk(limits) && tier < 4
    ensures var admitted := Admitted(Run(acts, limits).callers, tier, key);
            admitted > 0 ==> admitted <= limits.tiers[tier]
  {
    RunKeepsInv(acts, limits);
  }

  /** Everything the steps of one caller have added to a counter so far. */
  function NetEffect(acts: seq<Action>, limits: Limits, w: nat, key: string): int
    requires LimitsOk(limits)
  {
    if acts == [] then 0
    else
      var front := acts[..|acts| - 1];
      NetEffect(front, limits, w, key) +
      if acts[|acts| - 1] == Step(w)
      then Value(Run(acts, limits).counters, key) - Value(Run(front, limits).counters, key)
      else 0
  }

  lemma {:induction false} NetEffectIsShare(acts: seq<Action>, limits: Limits, w: nat, key: string)
    requires LimitsOk(limits)
    ensures NetEffect(acts, limits, w, key) ==
            if w < |Run(acts, limits).callers| then Share(Run(acts, limits).callers[w], key) else 0
  {
    hide Share, StepOf;
    if acts != [] {
      var front, last := acts[..|acts| - 1], acts[|acts| - 1];
      assert NetEffect(acts, limits, w, key) == NetEffect(front, limits, w, key) +
        if last == Step(w) then Value(Run(acts, limits).counters, key) - Value(Run(front, limits).counters, key) else 0;
      NetEffectIsShare(front, limits, w, key);
      RunKeepsInv(front, limits);
      var s := Run(front, limits);
      hide NetEffect, Value;
      assert Run(acts, limits) == Next(s, last, limits);
      match last
      case Arrive(call) => NewcomerHasNothing(call, 0, key);
      case Step(v) =>
        if v < |s.callers| { StepMovesShare(s.counters, s.callers[v], limits, key); }
    }
  }

  /** A rejected call leaves no trace in any counter; an accepted one leaves its cost once in each
      of its four. */
  lemma RejectedCallsNetZero(acts: seq<Action>, limits: Limits, w: nat, key: string)
    requires LimitsOk(limits) && w < |Run(acts, limits).callers| && Run(acts, limits).callers[w].pc.Done?
    ensures var c := Run(acts, limits).callers[w];
            var kept := c.pc.verdict == OK && Charges(c.call, key);
            && NetEffect(acts, limits, w, key) == (if kept then c.call.cost else 0)
            && (c.pc.verdict == RequestOver <==> c.call.cost > limits.request)
  {
    RequestLimitDecides(acts, limits);
    NetEffectIsShare(acts, limits, w, key);
    ShareOfDone(Run(acts, limits).callers[w], key);
  }

  /** The limit on one request is decided before any counter is touched. */
  lemma {:induction false} RequestLimitDecides(acts: seq<Action>, limits: Limits)
    requires LimitsOk(limits)
    ensures forall c | c in Run(acts, limits).callers ::
              (c.pc == Done(RequestOver) ==> c.call.cost > limits.request)
              && (c.call.cost > limits.request ==> c.pc == Start || c.pc == Done(RequestOver))
  {
    hide KeyOf, IncrBy, Value;
    if acts != [] { RequestLimitDecides(acts[..|acts| - 1], limits); }
  }

  lemma ShareOfDone(c: Caller, key: string)
    requires c.pc.Done?
    ensures Share(c, key) ==
            if c.pc.verdict == OK && Charges(c.call, key) then c.call.cost else 0
  {
    hide KeyOf;
    KeysDiffer(c.call, 0, 1);
    KeysDiffer(c.call, 0, 2);
    KeysDiffer(c.call, 0, 3);
    KeysDiffer(c.call, 1, 2);
    KeysDiffer(c.call, 1, 3);
    KeysDiffer(c.call, 2, 3);
  }

  // ------------------------------------------------------------------ the code of one call

  /** Every tier can take the cost without passing its limit. */
  predicate HasRoom(counters: map<string, int>, call: Call, limits: Limits)
    requires |limits.tiers| == 4
  {
    && Value(counters, KeyOf(call, 0)) + call.cost <= limits.tiers[0]
    && Value(counters, KeyOf(call, 1)) + call.cost <= limits.tiers[1]
    && Value(counters, KeyOf(call, 2)) + call.cost <= limits.tiers[2]
    && Value(counters, KeyOf(call, 3)) + call.cost <= limits.tiers[3]
  }

  lemma RunStep(acts: seq<Action>, a: Action, limits: Limits)
    requires LimitsOk(limits)
    ensures Run(acts + [a], limits) == Next(Run(acts, limits), a, limits)
  {
    assert (acts + [a])[..|acts|] == acts;
  }

  /** A tier turns a call away if and only if what currently stands on its counter, increments of
      calls that are themselves on their way out included, leaves no room for the cost. */
  lemma TierRejectsIffFull(acts: seq<Action>, limits: Limits, w: nat)
    requires LimitsOk(limits) && w < |Run(acts, limits).callers| && Run(acts, limits).callers[w].pc.Incr?
    ensures var s, s' := Run(acts, limits), Run(acts + [Step(w)], limits);
            var c := s.callers[w];
            && c.pc.tier < 4 && |s'.callers| == |s.callers|
            && (s'.callers[w].pc.Undo? ==> s'.callers[w].pc == Undo(c.pc.tier, 0))
            && (s'.callers[w].pc.Undo? <==>
                  Shares(s.callers, KeyOf(c.call, c.pc.tier)) + c.call.cost > limits.tiers[c.pc.tier])
  {
    RunKeepsInv(acts, limits);
    RunStep(acts, Step(w), limits);
    hide KeyOf, Run, Shares, Admitted;
    var s := Run(acts, limits);
    assert PcOk(s.callers[w].pc);
    assert Value(s.counters, KeyOf(s.callers[w].call, s.callers[w].pc.tier))
        == Shares(s.callers, KeyOf(s.callers[w].call, s.callers[w].pc.tier));
  }

  // ------------------------------------------------------------------ calls run whole

  /** `n` steps of one caller with no other in between. */
  function Solo(counters: map<string, int>, c: Caller, limits: Limits, n: nat): (map<string, int>, Caller)
    requires LimitsOk(limits) && PcOk(c.pc)
    decreases n
  {
    if n == 0 then (counters, c)
    else
      StepKeepsPc(counters, c, limits);
      var (after, c') := StepOf(counters, c, limits);
      Solo(after, c', limits, n - 1)
  }

  lemma StepKeepsPc(counters: map<string, int>, c: Caller, limits: Limits)
    requires LimitsOk(limits) && PcOk(c.pc)
    ensures PcOk(StepOf(counters, c, limits).1.pc) && StepOf(counters, c, limits).1.call == c.call
  {
    hide KeyOf;
  }

  function StepsOf(w: nat, n: nat): seq<Action> { seq(n, _ => Step(w)) }

  /** At most so many steps are left. */
  function Rank(pc: Pc): nat
    requires PcOk(pc)
  {
    match pc
    case Start => 9
    case Incr(t) => 8 - t
    case Undo(f, j) => f - j + 1
    case Done(_) => 0
  }

  /** What a caller running alone since it found `counters` knows about them. */
  ghost predicate SoloInv(counters: map<string, int>, now: map<string, int>, c: Caller, limits: Limits)
    requires LimitsOk(limits) && PcOk(c.pc)
  {
    && (forall key :: Value(now, key) == Value(counters, key) + Share(c, key))
    && (c.pc.Incr? || c.pc.Undo? ==> c.call.cost <= limits.request)
    && match c.pc
       case Start => true
       case Incr(t) => forall i | 0 <= i < t :: RoomAt(counters, c.call, limits, i)
       case Undo(f, _) =>
         !RoomAt(counters, c.call, limits, f) && forall i | 0 <= i < f :: RoomAt(counters, c.call, limits, i)
       case Done(v) => VerdictFits(counters, c.call, limits, v)
  }

  predicate RoomAt(counters: map<string, int>, call: Call, limits: Limits, tier: nat)
    requires |limits.tiers| == 4 && tier < 4
  {
    Value(counters, KeyOf(call, tier)) + call.cost <= limits.tiers[tier]
  }

  /** The verdict names the first limit, in the order request, global, daily, monthly, session, that the
      cost does not fit. */
  predicate IsVerdict(v: Verdict, call: Call, limits: Limits, g: bool, d: bool, m: bool, s: bool) {
    if call.cost > limits.request then v == RequestOver
    else if !g then v == GlobalOver
    else if !d then v == UserDailyOver
    else if !m then v == UserMonthlyOver
    else if !s then v == SessionOver
    else v == OK
  }

  predicate VerdictFits(counters: map<string, int>, call: Call, limits: Limits, v: Verdict)
    requires |limits.tiers| == 4
  {
    IsVerdict(v, call, limits, RoomAt(counters, call, limits, 0), RoomAt(counters, call, limits, 1),
              RoomAt(counters, call, limits, 2), RoomAt(counters, call, limits, 3))
  }

  lemma RoomIsRoomEverywhere(counters: map<string, int>, call: Call, limits: Limits)
    requires LimitsOk(limits)
    ensures HasRoom(counters, call, limits) <==> forall i | 0 <= i < 4 :: RoomAt(counters, call, limits, i)
  {
    hide KeyOf;
    assert HasRoom(counters, call, limits) <==>
      && RoomAt(counters, call, limits, 0) && RoomAt(counters, call, limits, 1)
      && RoomAt(counters, call, limits, 2) && RoomAt(counters, call, limits, 3);
  }

  lemma AcceptedIffRoom(counters: map<string, int>, call: Call, limits: Limits)
    requires LimitsOk(limits)
    ensures forall v | VerdictFits(counters, call, limits, v) ::
              v == OK <==> call.cost <= limits.request && HasRoom(counters, call, limits)
  {
    RoomIsRoomEverywhere(counters, call, limits);
    hide RoomAt, HasRoom;
  }

  lemma SoloStep(counters: map<string, int>, now: map<string, int>, c: Caller, limits: Limits)
    requires LimitsOk(limits) && PcOk(c.pc) && SoloInv(counters, now, c, limits)
    ensures var (after, c') := StepOf(now, c, limits);
            PcOk(c'.pc) && SoloInv(counters, after, c', limits) && (Rank(c'.pc) < Rank(c.pc) || c'.pc.Done?)
  {
    hide KeyOf, Share, HasRoom, RoomAt, IncrBy, Value;
    var (after, c') := StepOf(now, c, limits);
    StepKeepsPc(now, c, limits);
    forall key ensures Value(after, key) == Value(counters, key) + Share(c', key) {
      StepMovesShare(now, c, limits, key);
    }
    RoomIsRoomEverywhere(counters, c.call, limits);
    if c.pc.Incr? { TierTest(counters, now, c, limits); }
  }

  /** The comparison with a tier's limit tells whether the tier had room at the start. */
  lemma TierTest(counters: map<string, int>, now: map<string, int>, c: Caller, limits: Limits)
    requires LimitsOk(limits) && PcOk(c.pc) && c.pc.Incr?
    requires forall key :: Value(now, key) == Value(counters, key) + Share(c, key)
    ensures var (after, c') := StepOf(now, c, limits);
            && (c'.pc == Undo(c.pc.tier, 0) <==> !RoomAt(counters, c.call, limits, c.pc.tier))
            && (c'.pc != Undo(c.pc.tier, 0) ==> c'.pc == if c.pc.tier < 3 then Incr(c.pc.tier + 1) else Done(OK))
  {
    NothingYet(c);
    hide KeyOf, Share;
  }

  /** Before its increment of a tier a caller has nothing on that tier's counter. */
  lemma NothingYet(c: Caller)
    requires c.pc.Incr? && c.pc.tier < 4
    ensures Share(c, KeyOf(c.call, c.pc.tier)) == 0
  {
    hide KeyOf;
    forall i | 0 <= i < c.pc.tier ensures KeyOf(c.call, i) != KeyOf(c.call, c.pc.tier) {
      KeysDiffer(c.call, i, c.pc.tier);
    }
  }

  lemma {:induction false} SoloRuns(counters: map<string, int>, now: map<string, int>, c: Caller, limits: Limits,
                                    n: nat)
    requires LimitsOk(limits) && PcOk(c.pc) && SoloInv(counters, now, c, limits) && Rank(c.pc) <= n
    ensures var (after, c') := Solo(now, c, limits, n);
            PcOk(c'.pc) && c'.pc.Done? && c'.call == c.call && SoloInv(counters, after, c', limits)
    decreases n
  {
    hide StepOf, SoloInv, LimitsOk;
    if n > 0 {
      SoloStep(counters, now, c, limits);
      StepKeepsPc(now, c, limits);
      var (after, c') := StepOf(now, c, limits);
      SoloRuns(counters, after, c', limits, n - 1);
    }
  }

  /** A caller's steps within a run, with nobody else in between. */
  lemma {:induction false} RunSolo(acts: seq<Action>, limits: Limits, w: nat, n: nat)
    requires LimitsOk(limits) && w < |Run(acts, limits).callers| && PcOk(Run(acts, limits).callers[w].pc)
    ensures var s, s' := Run(acts, limits), Run(acts + StepsOf(w, n), limits);
            var (after, c) := Solo(s.counters, s.callers[w], limits, n);
            s' == State(after, s.callers[w := c])
    decreases n
  {
    hide StepOf;
    var s := Run(acts, limits);
    if n == 0 {
      assert acts + StepsOf(w, 0) == acts && s.callers[w := s.callers[w]] == s.callers;
    } else {
      RunStep(acts, Step(w), limits);
      StepKeepsPc(s.counters, s.callers[w], limits);
      RunSolo(acts + [Step(w)], limits, w, n - 1);
      assert acts + StepsOf(w, n) == acts + [Step(w)] + StepsOf(w, n - 1);
    }
  }

  /** Nine steps in a row run a call whole: it is accepted if and only if its cost is allowed and
      every tier has room, and then charged, or else leaves every counter as it was. */
  lemma WholeCall(acts: seq<Action>, limits: Limits, w: nat)
    requires LimitsOk(limits) && w < |Run(acts, limits).callers| && Run(acts, limits).callers[w].pc == Start
    ensures var s, s' := Run(acts, limits), Run(acts + StepsOf(w, 9), limits);
            var c := s.callers[w].call;
            && |s'.callers| == |s.callers| && s'.callers[w].call == c && s'.callers[w].pc.Done?
            && (forall v | 0 <= v < |s.callers| && v != w :: s'.callers[v] == s.callers[v])
            && (s'.callers[w].pc.verdict == OK <==> c.cost <= limits.request && HasRoom(s.counters, c, limits))
            && VerdictFits(s.counters, c, limits, s'.callers[w].pc.verdict)
            && (forall key :: Value(s'.counters, key) == Value(s.counters, key) + Share(s'.callers[w], key))
  {
    var s := Run(acts, limits);
    forall key ensures Share(s.callers[w], key) == 0 { NewcomerHasNothing(s.callers[w].call, 0, key); }
    RunSolo(acts, limits, w, 9);
    SoloRuns(s.counters, s.counters, s.callers[w], limits, 9);
    AcceptedIffRoom(s.counters, s.callers[w].call, limits);
    hide Run, Solo, HasRoom, VerdictFits, Share, Value;
  }

  // ------------------------------------------------------------------ whose spending counts

  /** What stands on the counter of one of the call's budgets, told by who spent it. */
  function Standing(cs: seq<Caller>, call: Call, tier: nat): nat
    requires tier < 4
  {
    if cs == [] then 0
    else Standing(cs[..|cs| - 1], call, tier) +
         if Live(cs[|cs| - 1], tier) && SameBudget(cs[|cs| - 1].call, call, tier) then cs[|cs| - 1].call.cost else 0
  }

  lemma ShareIsByBudget(c: Caller, call: Call, tier: nat)
    requires tier < 4 && Clean(c.call) && Clean(call)
    ensures Share(c, KeyOf(call, tier)) == if Live(c, tier) && SameBudget(c.call, call, tier) then c.call.cost else 0
  {
    SameKeyIff(c.call, 0, call, tier);
    SameKeyIff(c.call, 1, call, tier);
    SameKeyIff(c.call, 2, call, tier);
    SameKeyIff(c.call, 3, call, tier);
    hide KeyOf, SameBudget, Clean, Live;
  }

  lemma {:induction false} SharesAreByBudget(cs: seq<Caller>, call: Call, tier: nat)
    requires tier < 4 && Clean(call) && forall c | c in cs :: Clean(c.call)
    ensures Shares(cs, KeyOf(call, tier)) == Standing(cs, call, tier)
  {
    hide KeyOf, Share, Live, SameBudget, Clean;
    if cs != [] {
      SharesAreByBudget(cs[..|cs| - 1], call, tier);
      ShareIsByBudget(cs[|cs| - 1], call, tier);
    }
  }

  ghost predicate CleanArrivals(acts: seq<Action>) {
    forall i | 0 <= i < |acts| && acts[i].Arrive? :: Clean(acts[i].call)
  }

  lemma {:induction false} CallersAreClean(acts: seq<Action>, limits: Limits)
    requires LimitsOk(limits) && CleanArrivals(acts)
    ensures forall c | c in Run(acts, limits).callers :: Clean(c.call)
  {
    hide Clean, KeyOf, IncrBy, Value;
    if acts != [] {
      var front := acts[..|acts| - 1];
      assert forall i | 0 <= i < |front| :: front[i] == acts[i];
      CallersAreClean(front, limits);
    }
  }

  /** In every interleaving a counter shows exactly what the calls of the same budget have standing:
      all calls, those of the same user and day, of the same user and month, of the same user and
      context. */
  lemma CountersAreByBudget(acts: seq<Action>, limits: Limits, call: Call, tier: nat)
    requires LimitsOk(limits) && tier < 4 && Clean(call) && CleanArrivals(acts)
    ensures Value(Run(acts, limits).counters, KeyOf(call, tier)) == Standing(Run(acts, limits).callers, call, tier)
  {
    CountersShowLiveIncrements(acts, limits, KeyOf(call, tier));
    CallersAreClean(acts, limits);
    SharesAreByBudget(Run(acts, limits).callers, call, tier);
  }

  /** Calls one after the other, each run whole. */
  function Serial(calls: seq<Call>): seq<Action> {
    if calls == [] then []
    else Serial(calls[..|calls| - 1]) + [Arrive(calls[|calls| - 1])] + StepsOf(|calls| - 1, 9)
  }

  /** What the accepted calls of the same budget have cost. */
  function AcceptedCost(cs: seq<Caller>, call: Call, tier: nat): nat
    requires tier < 4
  {
    if cs == [] then 0
    else AcceptedCost(cs[..|cs| - 1], call, tier) +
         if cs[|cs| - 1].pc == Done(OK) && SameBudget(cs[|cs| - 1].call, call, tier) then cs[|cs| - 1].call.cost else 0
  }

  predicate Fits(cs: seq<Caller>, call: Call, limits: Limits, tier: nat)
    requires |limits.tiers| == 4 && tier < 4
  {
    AcceptedCost(cs, call, tier) + call.cost <= limits.tiers[tier]
  }

  ghost predicate AllDone(cs: seq<Caller>) { forall c | c in cs :: c.pc.Done? }

  lemma {:induction false} StandingIsAccepted(cs: seq<Caller>, call: Call, tier: nat)
    requires tier < 4 && AllDone(cs)
    ensures Standing(cs, call, tier) == AcceptedCost(cs, call, tier)
  {
    if cs != [] { StandingIsAccepted(cs[..|cs| - 1], call, tier); }
  }

  lemma {:induction false} SerialArrivals(calls: seq<Call>)
    requires forall c | c in calls :: Clean(c)
    ensures CleanArrivals(Serial(calls))
  {
    hide Clean;
    if calls != [] { SerialArrivals(calls[..|calls| - 1]); }
  }

  lemma SerialStep(calls: seq<Call>, call: Call)
    ensures Serial(calls + [call]) == Serial(calls) + [Arrive(call)] + StepsOf(|calls|, 9)
  {
    assert (calls + [call])[..|calls|] == calls;
  }

  /** One more call after the others. */
  lemma {:induction false} SerialDone(calls: seq<Call>, limits: Limits)
    requires LimitsOk(limits)
    ensures var cs := Run(Serial(calls), limits).callers;
            |cs| == |calls| && AllDone(cs) && forall i | 0 <= i < |calls| :: cs[i].call == calls[i]
  {
    if calls != [] {
      var n := |calls| - 1;
      SerialDone(calls[..n], limits);
      SerialStep(calls[..n], calls[n]);
      assert calls[..n] + [calls[n]] == calls;
      hide *;
      OneMoreDone(calls[..n], calls[n], limits);
      hide Run, AllDone;
      assert forall i | 0 <= i < n :: calls[..n][i] == calls[i];
    }
  }

  lemma OneMoreDone(calls: seq<Call>, call: Call, limits: Limits)
    requires LimitsOk(limits) && |Run(Serial(calls), limits).callers| == |calls|
    requires AllDone(Run(Serial(calls), limits).callers)
    ensures var cs, after := Run(Serial(calls), limits).callers, Run(Serial(calls + [call]), limits).callers;
            && |after| == |calls| + 1 && after[..|calls|] == cs && AllDone(after) && after[|calls|].call == call
  {
    hide VerdictFits, HasRoom, Value, Share, StepsOf;
    var acts, n := Serial(calls), |calls|;
    var s := Run(acts, limits);
    SerialStep(calls, call);
    RunStep(acts, Arrive(call), limits);
    WholeCall(acts + [Arrive(call)], limits, n);
    hide Run, Serial;
    assert Run(acts + [Arrive(call)], limits) == s.(callers := s.callers + [Caller(call, Start)]);
    var after := Run(acts + [Arrive(call)] + StepsOf(n, 9), limits).callers;
    assert after[..n] == s.callers;
    assert after == after[..n] + [after[n]];
  }

  /** Calls that do not overlap are decided by what was accepted before: all of it against the global
      limit, the same user's of the day, of the month and in the context against the others. */
  lemma SerialVerdicts(calls: seq<Call>, call: Call, limits: Limits)
    requires LimitsOk(limits) && Clean(call) && forall c | c in calls :: Clean(c)
    ensures var cs, after := Run(Serial(calls), limits).callers, Run(Serial(calls + [call]), limits).callers;
            && |cs| == |calls| && |after| == |calls| + 1 && after[..|calls|] == cs
            && after[|calls|].call == call && after[|calls|].pc.Done?
            && IsVerdict(after[|calls|].pc.verdict, call, limits, Fits(cs, call, limits, 0), Fits(cs, call, limits, 1),
                         Fits(cs, call, limits, 2), Fits(cs, call, limits, 3))
  {
    var acts, n := Serial(calls), |calls|;
    var s := Run(acts, limits);
    SerialDone(calls, limits);
    SerialArrivals(calls);
    SerialStep(calls, call);
    RunStep(acts, Arrive(call), limits);
    WholeCall(acts + [Arrive(call)], limits, n);
    RoomIsFit(acts, limits, call, 0);
    RoomIsFit(acts, limits, call, 1);
    RoomIsFit(acts, limits, call, 2);
    RoomIsFit(acts, limits, call, 3);
    hide Run, Serial, RoomAt, Fits, HasRoom, Value, Share, StepsOf, IsVerdict;
    assert Run(acts + [Arrive(call)], limits) == s.(callers := s.callers + [Caller(call, Start)]);
  }

  lemma RoomIsFit(acts: seq<Action>, limits: Limits, call: Call, tier: nat)
    requires LimitsOk(limits) && tier < 4 && Clean(call) && CleanArrivals(acts) && AllDone(Run(acts, limits).callers)
    ensures RoomAt(Run(acts, limits).counters, call, limits, tier) <==>
            Fits(Run(acts, limits).callers, call, limits, tier)
  {
    CountersAreByBudget(acts, limits, call, tier);
    StandingIsAccepted(Run(acts, limits).callers, call, tier);
  }

  lemma RejectedLeavesRoom(s: map<string, int>, s': map<string, int>, gone: Caller, call: Call, limits: Limits)
    requires LimitsOk(limits) && gone.pc.Done? && gone.pc.verdict != OK
    requires forall key :: Value(s', key) == Value(s, key) + Share(gone, key)
    ensures HasRoom(s', call, limits) <==> HasRoom(s, call, limits)
  {
    forall key ensures Share(gone, key) == 0 { ShareOfDone(gone, key); }
    hide KeyOf, Share, Value;
  }

  lemma TwoArrivals(limits: Limits, first: Call, second: Call)
    requires LimitsOk(limits)
    ensures Run([Arrive(first), Arrive(second)], limits) == State(map[], [Caller(first, Start), Caller(second, Start)])
  {
    assert Run([], limits) == State(map[], []);
    assert [] + [Arrive(first)] == [Arrive(first)]
         && [Arrive(first)] + [Arrive(second)] == [Arrive(first), Arrive(second)];
    RunStep([], Arrive(first), limits);
    RunStep([Arrive(first)], Arrive(second), limits);
    hide Run;
  }

  /** So racing calls can reject what no order of whole calls rejects. Of two calls, `doomed` has no
      room at some tier and `fine` has room at all. Run whole, in either order, `fine` is accepted.
      But if both together pass the global limit, it is rejected when it comes while the other's
      increment still stands. */
  lemma RaceRejectsWhatNoOrderRejects(limits: Limits, doomed: Call, fine: Call)
    requires LimitsOk(limits) && doomed.cost <= limits.request && fine.cost <= limits.request
    requires !HasRoom(map[], doomed, limits) && HasRoom(map[], fine, limits)
    requires doomed.cost <= limits.tiers[0] < doomed.cost + fine.cost
    ensures var race := [Arrive(doomed), Arrive(fine)] + [Step(0), Step(0)] + [Step(1), Step(1)];
            |Run(race, limits).callers| == 2 && Run(race, limits).callers[1] == Caller(fine, Undo(0, 0))
    ensures var serial := [Arrive(doomed), Arrive(fine)] + StepsOf(0, 9) + StepsOf(1, 9);
            |Run(serial, limits).callers| == 2 && Run(serial, limits).callers[1] == Caller(fine, Done(OK))
    ensures var serial := [Arrive(doomed), Arrive(fine)] + StepsOf(1, 9) + StepsOf(0, 9);
            |Run(serial, limits).callers| == 2 && Run(serial, limits).callers[1] == Caller(fine, Done(OK))
  {
    hide *;
    DoomedRaces(limits, doomed, fine);
    DoomedThenFine(limits, doomed, fine);
    FineThenDoomed(limits, doomed, fine);
  }

  lemma DoomedThenFine(limits: Limits, doomed: Call, fine: Call)
    requires LimitsOk(limits) && fine.cost <= limits.request
    requires !HasRoom(map[], doomed, limits) && HasRoom(map[], fine, limits)
    ensures var serial := [Arrive(doomed), Arrive(fine)] + StepsOf(0, 9) + StepsOf(1, 9);
            |Run(serial, limits).callers| == 2 && Run(serial, limits).callers[1] == Caller(fine, Done(OK))
  {
    hide Run, HasRoom, Share, Value, StepsOf;
    var acts := [Arrive(doomed), Arrive(fine)];
    TwoArrivals(limits, doomed, fine);
    WholeCall(acts, limits, 0);
    var s1 := Run(acts + StepsOf(0, 9), limits);
    RejectedLeavesRoom(map[], s1.counters, s1.callers[0], fine, limits);
    WholeCall(acts + StepsOf(0, 9), limits, 1);
  }

  lemma FineThenDoomed(limits: Limits, doomed: Call, fine: Call)
    requires LimitsOk(limits) && fine.cost <= limits.request && HasRoom(map[], fine, limits)
    ensures var serial := [Arrive(doomed), Arrive(fine)] + StepsOf(1, 9) + StepsOf(0, 9);
            |Run(serial, limits).callers| == 2 && Run(serial, limits).callers[1] == Caller(fine, Done(OK))
  {
    hide Run, HasRoom, Share, Value, StepsOf;
    var acts := [Arrive(doomed), Arrive(fine)];
    TwoArrivals(limits, doomed, fine);
    WholeCall(acts, limits, 1);
    WholeCall(acts + StepsOf(1, 9), limits, 0);
  }

  lemma DoomedRaces(limits: Limits, doomed: Call, fine: Call)
    requires LimitsOk(limits) && doomed.cost <= limits.request && fine.cost <= limits.request
    requires doomed.cost <= limits.tiers[0] < doomed.cost + fine.cost
    ensures var race := [Arrive(doomed), Arrive(fine)] + [Step(0), Step(0)] + [Step(1), Step(1)];
            |Run(race, limits).callers| == 2 && Run(race, limits).callers[1] == Caller(fine, Undo(0, 0))
  {
    var acts := [Arrive(doomed), Arrive(fine)] + [Step(0), Step(0)];
    DoomedComesFirst(limits, doomed, fine);
    RunStep(acts, Step(1), limits);
    RunStep(acts + [Step(1)], Step(1), limits);
    assert acts + [Step(1)] + [Step(1)] == acts + [Step(1), Step(1)];
    assert KeyOf(doomed, 0) == KeyOf(fine, 0);
    hide Run, KeyOf;
    assert Run(acts + [Step(1)], limits).callers == [Caller(doomed, Incr(1)), Caller(fine, Incr(0))];
  }

  lemma DoomedComesFirst(limits: Limits, doomed: Call, fine: Call)
    requires LimitsOk(limits) && doomed.cost <= limits.request && doomed.cost <= limits.tiers[0]
    ensures var s := Run([Arrive(doomed), Arrive(fine)] + [Step(0), Step(0)], limits);
            s.callers == [Caller(doomed, Incr(1)), Caller(fine, Start)]
            && Value(s.counters, KeyOf(doomed, 0)) == doomed.cost
  {
    var acts := [Arrive(doomed), Arrive(fine)];
    TwoArrivals(limits, doomed, fine);
    RunStep(acts, Step(0), limits);
    RunStep(acts + [Step(0)], Step(0), limits);
    assert acts + [Step(0)] + [Step(0)] == acts + [Step(0), Step(0)];
    hide Run, KeyOf;
  }

  /** The call's increments of the tiers from `lo` to `hi` stand, and nothing else of it. */
  ghost predicate Holds(before: map<string, int>, now: map<string, int>, call: Call, lo: nat, hi: nat)
    requires lo <= hi <= 4
  {
    forall key :: Value(now, key) == Value(before, key) + if InTiers(call, key, lo, hi) then call.cost else 0
  }

  ghost predicate InTiers(call: Call, key: string, lo: nat, hi: nat)
    requires lo <= hi <= 4
  {
    exists j: nat :: lo <= j < hi && KeyOf(call, j) == key
  }

  lemma HoldsMore(before: map<string, int>, now: map<string, int>, call: Call, hi: nat)
    requires hi < 4 && Holds(before, now, call, 0, hi)
    ensures var after := IncrBy(now, KeyOf(call, hi), call.cost);
            && Holds(before, after, call, 0, hi + 1)
            && Value(after, KeyOf(call, hi)) == Value(before, KeyOf(call, hi)) + call.cost
  {
    forall j: nat | j < hi ensures KeyOf(call, j) != KeyOf(call, hi) { KeysDiffer(call, j, hi); }
    hide KeyOf;
    forall key ensures InTiers(call, key, 0, hi + 1) <==> InTiers(call, key, 0, hi) || key == KeyOf(call, hi) {
      if key == KeyOf(call, hi) { assert InTiers(call, key, 0, hi + 1); }
    }
  }

  lemma HoldsLess(before: map<string, int>, now: map<string, int>, call: Call, lo: nat, hi: nat)
    requires lo < hi <= 4 && Holds(before, now, call, lo, hi)
    ensures Holds(before, IncrBy(now, KeyOf(call, lo), 0 - call.cost), call, lo + 1, hi)
  {
    forall j: nat | lo < j < 4 ensures KeyOf(call, j) != KeyOf(call, lo) { KeysDiffer(call, lo, j); }
    hide KeyOf;
    forall key ensures InTiers(call, key, lo, hi) <==> InTiers(call, key, lo + 1, hi) || key == KeyOf(call, lo) {
      if key == KeyOf(call, lo) { assert InTiers(call, key, lo, hi); }
    }
  }

  lemma HoldsMeans(before: map<string, int>, now: map<string, int>, call: Call, lo: nat, hi: nat)
    requires lo <= hi <= 4 && Holds(before, now, call, lo, hi) && (lo == hi || (lo == 0 && hi == 4))
    ensures forall key :: Value(now, key) == Value(before, key) + if lo < hi && Charges(call, key) then call.cost else 0
  {
    hide KeyOf;
    forall key ensures InTiers(call, key, lo, hi) <==> lo < hi && Charges(call, key) {
      if lo < hi && Charges(call, key) {
        var j: nat :| j < 4 && key == KeyOf(call, j) && (j == 0 || j == 1 || j == 2 || j == 3);
        assert InTiers(call, key, 0, 4);
      }
    }
  }

  /** The Redis server, and the call as the source writes it. */
  class Store {
    var counters: map<string, int>

    constructor ()
      ensures counters == map[]
    {
      counters := map[];
    }

    method Incrby(key: string, delta: int) returns (total: int)
      modifies this
      ensures counters == IncrBy(old(counters), key, delta) && total == Value(counters, key)
      ensures forall k :: Value(counters, k) == old(Value(counters, k)) + if k == key then delta else 0
    {
      counters := IncrBy(counters, key, delta);
      total := Value(counters, key);
    }

    /** The rollbacks of one call: the tiers it has incremented, in order. */
    method RollBack(call: Call, tiers: nat, ghost before: map<string, int>)
      requires tiers <= 4 && Holds(before, counters, call, 0, tiers)
      modifies this
      ensures Holds(before, counters, call, tiers, tiers)
    {
      hide IncrBy, Value, Holds, KeyOf;
      for i := 0 to tiers
        invariant Holds(before, counters, call, i, tiers)
      {
        HoldsLess(before, counters, call, i, tiers);
        var undone := Incrby(KeyOf(call, i), 0 - call.cost);
      }
    }

    /** Undisturbed by others, a call succeeds exactly if every tier has room for its cost, charges
        all four counters if it does, and nothing at all if it does not. */
    method CheckAndDeduct(call: Call, limits: Limits) returns (verdict: Verdict)
      requires LimitsOk(limits)
      modifies this
      ensures verdict == OK <==>
                call.cost <= limits.request && HasRoom(old(counters), call, limits)
      ensures VerdictFits(old(counters), call, limits, verdict)
      ensures forall key :: Value(counters, key) == old(Value(counters, key)) +
                if verdict == OK && Charges(call, key) then call.cost else 0
    {
      RoomIsRoomEverywhere(counters, call, limits);
      ghost var before := counters;
      assert Holds(before, counters, call, 0, 0);
      hide KeyOf, IncrBy, Value, HasRoom, Charges, Holds;
      if call.cost > limits.request {
        HoldsMeans(before, counters, call, 0, 0);
        return RequestOver;
      }
      var total := Charge(call, 0, before);
      if total > limits.tiers[0] {
        RollBack(call, 1, before);
        HoldsMeans(before, counters, call, 1, 1);
        return GlobalOver;
      }
      total := Charge(call, 1, before);
      if total > limits.tiers[1] {
        RollBack(call, 2, before);
        HoldsMeans(before, counters, call, 2, 2);
        return UserDailyOver;
      }
      total := Charge(call, 2, before);
      if total > limits.tiers[2] {
        RollBack(call, 3, before);
        HoldsMeans(before, counters, call, 3, 3);
        return UserMonthlyOver;
      }
      total := Charge(call, 3, before);
      if total > limits.tiers[3] {
        RollBack(call, 4, before);
        HoldsMeans(before, counters, call, 4, 4);
        return SessionOver;
      }
      HoldsMeans(before, counters, call, 0, 4);
      return OK;
    }

    /** The increment of one tier. */
    method Charge(call: Call, tier: nat, ghost before: map<string, int>) returns (total: int)
      requires tier < 4 && Holds(before, counters, call, 0, tier)
      modifies this
      ensures Holds(before, counters, call, 0, tier + 1)
      ensures total == Value(before, KeyOf(call, tier)) + call.cost
    {
      hide IncrBy, Value, Holds, KeyOf;
      HoldsMore(before, counters, call, tier);
      total := Incrby(KeyOf(call, tier), call.cost);
    }
  }
}
