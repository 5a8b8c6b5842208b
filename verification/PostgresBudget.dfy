/** Token budgets in PostgreSQL: `common/src/postgres_budget_repository.cpp`, one transaction at a
    time. The concurrent execution of these transactions is in `PostgresConcurrency`. */
module PostgresBudget {
  import opened Common

  const INT64_MAX: int := 0x7FFF_FFFF_FFFF_FFFF

  datatype BucketType = Global | UserDaily | UserMonthly | Session

  /** The primary key of a counter row. */
  datatype Bucket = Bucket(kind: BucketType, owner: string, session: string, start: string)

  datatype Limits = Limits(global: int, userDaily: int, userMonthly: int, session: int)

  /** CURRENT_DATE and the first day of its month, fixed when the transaction starts. */
  datatype Today = Today(day: string, month: string)

  /** A row of `budget_reservations`; `made` stands for its `created_at`. */
  datatype Reservation = Reservation(request: string, owner: string, context: string, tokens: int, made: Today)

  datatype Database = Database(
    reservations: seq<Reservation>,
    counters: map<Bucket, int>,
    policies: map<string, Limits>)

  datatype Call = Call(owner: string, context: string, request: string, tokens: int, limits: Limits)

  datatype Outcome = Outcome(accepted: bool, idempotent: bool, reason: string)

  const ACCEPTED := Outcome(true, false, "accepted")
  const IDEMPOTENT := Outcome(true, true, "idempotent")
  const UNAVAILABLE := Outcome(false, false, "request unavailable")

  function BucketsFor(owner: string, context: string, today: Today): (r: seq<Bucket>)
    ensures |r| == 4
    ensures r[0].kind == Global && r[1].kind == UserDaily && r[2].kind == UserMonthly && r[3].kind == Session
  {
    [Bucket(Global, "__global__", "__global__", "2000-01-01"),
     Bucket(UserDaily, owner, "__owner__", today.day),
     Bucket(UserMonthly, owner, "__owner__", today.month),
     Bucket(Session, owner, context, "2000-01-01")]
  }

  const GLOBAL_BUCKET := Bucket(Global, "__global__", "__global__", "2000-01-01")

  function ReasonFor(kind: BucketType): string {
    match kind
    case Global => "global budget exceeded"
    case UserDaily => "daily budget exceeded"
    case UserMonthly => "monthly budget exceeded"
    case Session => "session budget exceeded"
  }

  function LimitFor(limits: Limits, kind: BucketType): int {
    match kind
    case Global => limits.global
    case UserDaily => limits.userDaily
    case UserMonthly => limits.userMonthly
    case Session => limits.session
  }

  predicate LimitsValid(limits: Limits) {
    limits.global >= 0 && limits.userDaily >= 0 && limits.userMonthly >= 0 && limits.session >= 0
  }

  predicate ValidId(id: string) { id != "" && '\0' !in id }

  /** The arguments that do not make `reserve` throw `std::invalid_argument`. */
  predicate CallValid(call: Call) {
    && ValidId(call.owner) && ValidId(call.context) && ValidId(call.request)
    && call.tokens >= 0 && LimitsValid(call.limits)
  }

  predicate IsInt64(x: int) { -INT64_MAX - 1 <= x <= INT64_MAX }

  /** `wouldExceed`, with the tests in the order of the source. */
  function WouldExceed(used: int, limit: int, requested: int): bool {
    if requested > INT64_MAX - used then true
    else if limit == 0 then false
    else used > limit || requested > limit - used
  }

  /** The test is exactly "the sum would pass the limit or the 64-bit range", and for non-negative
      arguments neither subtraction leaves the 64-bit range. */
  lemma WouldExceedIsExact(used: int, limit: int, requested: int)
    requires 0 <= used <= INT64_MAX && 0 <= limit <= INT64_MAX && 0 <= requested <= INT64_MAX
    ensures WouldExceed(used, limit, requested) <==>
              used + requested > INT64_MAX || (limit != 0 && used + requested > limit)
    ensures IsInt64(INT64_MAX - used)
    ensures requested <= INT64_MAX - used && limit != 0 && used <= limit ==> IsInt64(limit - used)
  {
  }

  function FindReservation(rows: seq<Reservation>, request: string): Option<Reservation> {
    if rows == [] then None
    else if rows[|rows| - 1].request == request then Some(rows[|rows| - 1])
    else FindReservation(rows[..|rows| - 1], request)
  }

  function UsedIn(counters: map<Bucket, int>, bucket: Bucket): int {
    if bucket in counters then counters[bucket] else 0
  }

  function Used(db: Database, bucket: Bucket): int { UsedIn(db.counters, bucket) }

  function Add(counters: map<Bucket, int>, bucket: Bucket, tokens: int): map<Bucket, int> {
    counters[bucket := UsedIn(counters, bucket) + tokens]
  }

  /** The upserts for the first `n` buckets. */
  function AddFirst(counters: map<Bucket, int>, buckets: seq<Bucket>, n: nat, tokens: int): map<Bucket, int>
    requires n <= |buckets|
  {
    if n == 0 then counters else Add(AddFirst(counters, buckets, n - 1, tokens), buckets[n - 1], tokens)
  }

  function EffectiveLimits(db: Database, call: Call): Limits {
    if call.owner in db.policies then db.policies[call.owner] else call.limits
  }

  /** Index of the first bucket that would be exceeded, or the number of buckets. */
  function FirstExceeded(db: Database, buckets: seq<Bucket>, limits: Limits, tokens: int, from: nat): (k: nat)
    requires from <= |buckets|
    ensures from <= k <= |buckets|
    ensures forall j | from <= j < k :: !WouldExceed(Used(db, buckets[j]), LimitFor(limits, buckets[j].kind), tokens)
    ensures k < |buckets| ==> WouldExceed(Used(db, buckets[k]), LimitFor(limits, buckets[k].kind), tokens)
    decreases |buckets| - from
  {
    if from == |buckets| || WouldExceed(Used(db, buckets[from]), LimitFor(limits, buckets[from].kind), tokens)
    then from
    else FirstExceeded(db, buckets, limits, tokens, from + 1)
  }

  function Row(call: Call, today: Today): Reservation {
    Reservation(call.request, call.owner, call.context, call.tokens, today)
  }

  /** The whole transaction of `reserve`, run alone. */
  function Reserve(db: Database, call: Call, today: Today): (Database, Outcome) {
    match FindReservation(db.reservations, call.request)
    case Some(row) => (db, if row.owner == call.owner then IDEMPOTENT else UNAVAILABLE)
    case None =>
      var buckets := BucketsFor(call.owner, call.context, today);
      var k := FirstExceeded(db, buckets, EffectiveLimits(db, call), call.tokens, 0);
      if k < |buckets| then (db, Outcome(false, false, ReasonFor(buckets[k].kind)))
      else (db.(reservations := db.reservations + [Row(call, today)],
                counters := AddFirst(db.counters, buckets, |buckets|, call.tokens)), ACCEPTED)
  }

  function SetPolicy(db: Database, owner: string, limits: Limits): Database {
    db.(policies := db.policies[owner := limits])
  }

  // ------------------------------------------------------------------ conservation

  ghost predicate BelongsTo(row: Reservation, bucket: Bucket) {
    bucket in BucketsFor(row.owner, row.context, row.made)
  }

  /** What the reservations charge to a bucket. */
  ghost function Charged(rows: seq<Reservation>, bucket: Bucket): int {
    if rows == [] then 0
    else Charged(rows[..|rows| - 1], bucket) +
         if BelongsTo(rows[|rows| - 1], bucket) then rows[|rows| - 1].tokens else 0
  }

  /** Request ids are unique, no row is negative, and each counter is what the rows charge to it. */
  ghost predicate Conserved(db: Database) {
    && (forall i, j | 0 <= i < j < |db.reservations| :: db.reservations[i].request != db.reservations[j].request)
    && (forall i | 0 <= i < |db.reservations| :: db.reservations[i].tokens >= 0)
    && (forall b :: Used(db, b) == Charged(db.reservations, b))
    && (forall b :: 0 <= Used(db, b) <= INT64_MAX)
  }

  lemma {:induction false} FindMeansListed(rows: seq<Reservation>, request: string)
    ensures FindReservation(rows, request).None? <==> forall i | 0 <= i < |rows| :: rows[i].request != request
    ensures FindReservation(rows, request).Some? ==>
              FindReservation(rows, request).value in rows && FindReservation(rows, request).value.request == request
  {
    if rows != [] {
      var front := rows[..|rows| - 1];
      FindMeansListed(front, request);
      assert forall i | 0 <= i < |front| :: front[i] == rows[i];
    }
  }

  lemma {:induction false} AddFirstAdds(counters: map<Bucket, int>, buckets: seq<Bucket>, n: nat, tokens: int,
                                        b: Bucket)
    requires n <= |buckets| && NoDuplicates(buckets)
    ensures UsedIn(AddFirst(counters, buckets, n, tokens), b) ==
            UsedIn(counters, b) + if b in buckets[..n] then tokens else 0
  {
    if n > 0 {
      AddFirstAdds(counters, buckets, n - 1, tokens, b);
      assert buckets[..n] == buckets[..n - 1] + [buckets[n - 1]];
    }
  }

  /** What one reservation does to one counter. */
  lemma ReserveMoves(db: Database, call: Call, today: Today, b: Bucket)
    ensures var (after, outcome) := Reserve(db, call, today);
            && after.policies == db.policies
            && (outcome == ACCEPTED ==> after.reservations == db.reservations + [Row(call, today)])
            && (outcome != ACCEPTED ==> after == db)
            && Used(after, b) == Used(db, b) +
                 if outcome == ACCEPTED && b in BucketsFor(call.owner, call.context, today) then call.tokens else 0
  {
    var buckets := BucketsFor(call.owner, call.context, today);
    AddFirstAdds(db.counters, buckets, |buckets|, call.tokens, b);
    assert buckets[..|buckets|] == buckets;
  }

  lemma AcceptedFits(db: Database, call: Call, today: Today, b: Bucket)
    requires Reserve(db, call, today).1 == ACCEPTED && b in BucketsFor(call.owner, call.context, today)
    ensures FindReservation(db.reservations, call.request).None?
    ensures !WouldExceed(Used(db, b), LimitFor(EffectiveLimits(db, call), b.kind), call.tokens)
  {
    hide WouldExceed, EffectiveLimits, Used;
  }

  /** A reservation transaction keeps the books: counters and rows move together. */
  lemma ReserveConserves(db: Database, call: Call, today: Today)
    requires Conserved(db) && call.tokens >= 0
    ensures Conserved(Reserve(db, call, today).0)
  {
    hide Reserve, WouldExceed, Used;
    var (after, outcome) := Reserve(db, call, today);
    FindMeansListed(db.reservations, call.request);
    ReserveMoves(db, call, today, GLOBAL_BUCKET);
    if outcome == ACCEPTED {
      assert after.reservations[..|after.reservations| - 1] == db.reservations;
      AcceptedFits(db, call, today, GLOBAL_BUCKET);
      forall b
        ensures Used(after, b) == Charged(after.reservations, b) && 0 <= Used(after, b) <= INT64_MAX
      {
        ReserveMoves(db, call, today, b);
        if b in BucketsFor(call.owner, call.context, today) {
          AcceptedFits(db, call, today, b);
          FitsInt64(Used(db, b), LimitFor(EffectiveLimits(db, call), b.kind), call.tokens);
        }
      }
    }
  }

  lemma FitsInt64(used: int, limit: int, requested: int)
    requires !WouldExceed(used, limit, requested)
    ensures used + requested <= INT64_MAX
    ensures limit != 0 ==> used + requested <= limit
  {
  }

  /** An accepted reservation leaves each of its four counters within the owner's effective limit and
      within 64 bits. */
  lemma AcceptedStaysWithinLimits(db: Database, call: Call, today: Today, b: Bucket)
    requires Reserve(db, call, today).1 == ACCEPTED && b in BucketsFor(call.owner, call.context, today)
    ensures var limit := LimitFor(EffectiveLimits(db, call), b.kind);
            Used(Reserve(db, call, today).0, b) <= INT64_MAX
            && (limit > 0 ==> Used(Reserve(db, call, today).0, b) <= limit)
  {
    hide Reserve, WouldExceed, Used, EffectiveLimits;
    ReserveMoves(db, call, today, b);
    AcceptedFits(db, call, today, b);
    FitsInt64(Used(db, b), LimitFor(EffectiveLimits(db, call), b.kind), call.tokens);
  }

  // ------------------------------------------------------------------ whose spending counts

  /** The reservations that one of the four budgets is about. */
  datatype Scope =
    | Everybody
    | OwnerDay(owner: string, day: string)
    | OwnerMonth(owner: string, month: string)
    | OwnerContext(owner: string, context: string)

  predicate InScope(row: Reservation, s: Scope) {
    match s
    case Everybody => true
    case OwnerDay(owner, day) => row.owner == owner && row.made.day == day
    case OwnerMonth(owner, month) => row.owner == owner && row.made.month == month
    case OwnerContext(owner, context) => row.owner == owner && row.context == context
  }

  function Spent(rows: seq<Reservation>, s: Scope): int {
    if rows == [] then 0
    else Spent(rows[..|rows| - 1], s) + if InScope(rows[|rows| - 1], s) then rows[|rows| - 1].tokens else 0
  }

  /** The call fits a budget: the sum stays in 64 bits and within the limit, 0 meaning none. */
  predicate Fits(spent: int, tokens: int, limit: int) {
    spent + tokens <= 9223372036854775807 && (limit == 0 || spent + tokens <= limit)
  }

  /** The answer to a new request: the first budget, in the order global, day, month, session, that
      the call does not fit refuses it. */
  predicate IsAnswer(rows: seq<Reservation>, limits: Limits, call: Call, today: Today, outcome: Outcome) {
    if !Fits(Spent(rows, Everybody), call.tokens, limits.global) then
      outcome == Outcome(false, false, "global budget exceeded")
    else if !Fits(Spent(rows, OwnerDay(call.owner, today.day)), call.tokens, limits.userDaily) then
      outcome == Outcome(false, false, "daily budget exceeded")
    else if !Fits(Spent(rows, OwnerMonth(call.owner, today.month)), call.tokens, limits.userMonthly) then
      outcome == Outcome(false, false, "monthly budget exceeded")
    else if !Fits(Spent(rows, OwnerContext(call.owner, call.context)), call.tokens, limits.session) then
      outcome == Outcome(false, false, "session budget exceeded")
    else outcome == Outcome(true, false, "accepted")
  }

  /** What a reservation answers and leaves behind, said of the rows alone. */
  ghost predicate IsReservation(db: Database, call: Call, today: Today, db': Database, outcome: Outcome) {
    var limits := if call.owner in db.policies then db.policies[call.owner] else call.limits;
    && db'.policies == db.policies
    && (forall row | row in db.reservations && row.request == call.request ::
          db' == db && outcome == if row.owner == call.owner then Outcome(true, true, "idempotent")
                                  else Outcome(false, false, "request unavailable"))
    && ((forall row | row in db.reservations :: row.request != call.request) ==>
          && IsAnswer(db.reservations, limits, call, today, outcome)
          && (!outcome.accepted ==> db' == db)
          && (outcome.accepted ==>
                db'.reservations == db.reservations
                                    + [Reservation(call.request, call.owner, call.context, call.tokens, today)]))
  }

  lemma {:induction false} ChargedIsSpent(rows: seq<Reservation>, owner: string, context: string, today: Today)
    ensures var b := BucketsFor(owner, context, today);
            && Charged(rows, b[0]) == Spent(rows, Everybody)
            && Charged(rows, b[1]) == Spent(rows, OwnerDay(owner, today.day))
            && Charged(rows, b[2]) == Spent(rows, OwnerMonth(owner, today.month))
            && Charged(rows, b[3]) == Spent(rows, OwnerContext(owner, context))
  {
    if rows != [] {
      ChargedIsSpent(rows[..|rows| - 1], owner, context, today);
      BelongsIsScope(rows[|rows| - 1], owner, context, today);
      hide BucketsFor, InScope, BelongsTo;
    }
  }

  lemma BelongsIsScope(row: Reservation, owner: string, context: string, today: Today)
    ensures var b := BucketsFor(owner, context, today);
            && (BelongsTo(row, b[0]) <==> InScope(row, Everybody))
            && (BelongsTo(row, b[1]) <==> InScope(row, OwnerDay(owner, today.day)))
            && (BelongsTo(row, b[2]) <==> InScope(row, OwnerMonth(owner, today.month)))
            && (BelongsTo(row, b[3]) <==> InScope(row, OwnerContext(owner, context)))
  {
  }

  lemma ExceedsIsNotFits(used: int, limit: int, tokens: int)
    requires 0 <= used <= INT64_MAX && limit >= 0 && tokens >= 0
    ensures WouldExceed(used, limit, tokens) <==> !Fits(used, tokens, limit)
  {
  }

  lemma {:induction false} FirstOfFour(db: Database, b: seq<Bucket>, limits: Limits, tokens: int)
    requires |b| == 4
    ensures var k := FirstExceeded(db, b, limits, tokens, 0);
            && (k == 0 <==> WouldExceed(Used(db, b[0]), LimitFor(limits, b[0].kind), tokens))
            && (k >= 2 ==> !WouldExceed(Used(db, b[1]), LimitFor(limits, b[1].kind), tokens))
            && (k == 1 ==> WouldExceed(Used(db, b[1]), LimitFor(limits, b[1].kind), tokens))
            && (k >= 3 ==> !WouldExceed(Used(db, b[2]), LimitFor(limits, b[2].kind), tokens))
            && (k == 2 ==> WouldExceed(Used(db, b[2]), LimitFor(limits, b[2].kind), tokens))
            && (k == 4 ==> !WouldExceed(Used(db, b[3]), LimitFor(limits, b[3].kind), tokens))
            && (k == 3 ==> WouldExceed(Used(db, b[3]), LimitFor(limits, b[3].kind), tokens))
            && k <= 4
  {
    hide WouldExceed, Used, LimitFor;
  }

  lemma NewCallIsAnswered(db: Database, call: Call, today: Today, limits: Limits)
    requires Conserved(db) && call.tokens >= 0 && LimitsValid(limits)
    requires limits == EffectiveLimits(db, call) && FindReservation(db.reservations, call.request).None?
    ensures IsAnswer(db.reservations, limits, call, today, Reserve(db, call, today).1)
  {
    var b := BucketsFor(call.owner, call.context, today);
    FirstOfFour(db, b, limits, call.tokens);
    ChargedIsSpent(db.reservations, call.owner, call.context, today);
    assert Used(db, b[0]) == Charged(db.reservations, b[0]) && Used(db, b[1]) == Charged(db.reservations, b[1]);
    assert Used(db, b[2]) == Charged(db.reservations, b[2]) && Used(db, b[3]) == Charged(db.reservations, b[3]);
    ExceedsIsNotFits(Used(db, b[0]), limits.global, call.tokens);
    ExceedsIsNotFits(Used(db, b[1]), limits.userDaily, call.tokens);
    ExceedsIsNotFits(Used(db, b[2]), limits.userMonthly, call.tokens);
    ExceedsIsNotFits(Used(db, b[3]), limits.session, call.tokens);
    hide BucketsFor, WouldExceed, Used, Charged, Spent, Fits, Conserved, EffectiveLimits, FirstExceeded, AddFirst;
  }

  ghost predicate PoliciesValid(db: Database) {
    forall o | o in db.policies :: LimitsValid(db.policies[o])
  }

  /** A reservation is decided by the rows: a new request is accepted exactly if its tokens fit beside
      all reservations, those of its owner today, those of its owner this month, and those of its
      owner in its session. */
  lemma ReserveByRows(db: Database, call: Call, today: Today)
    requires Conserved(db) && CallValid(call) && PoliciesValid(db)
    ensures IsReservation(db, call, today, Reserve(db, call, today).0, Reserve(db, call, today).1)
  {
    FindMeansListed(db.reservations, call.request);
    var found := FindReservation(db.reservations, call.request);
    if found.None? {
      NewCallIsAnswered(db, call, today, EffectiveLimits(db, call));
      hide IsAnswer, BucketsFor, FirstExceeded, AddFirst, Conserved, FindReservation;
    } else {
      assert forall row | row in db.reservations && row.request == call.request :: row == found.value;
      hide IsAnswer, BucketsFor, FirstExceeded, AddFirst, Conserved, FindReservation;
    }
  }

  // ------------------------------------------------------------------ runs

  datatype Request = ReserveRequest(call: Call, today: Today) | PolicyRequest(owner: string, limits: Limits)

  function Apply(db: Database, r: Request): Database {
    match r
    case ReserveRequest(call, today) => Reserve(db, call, today).0
    case PolicyRequest(owner, limits) => SetPolicy(db, owner, limits)
  }

  function Replay(rs: seq<Request>): Database {
    if rs == [] then Database([], map[], map[]) else Apply(Replay(rs[..|rs| - 1]), rs[|rs| - 1])
  }

  /** The limits in force for a call at the end of a run: the last policy set for its owner, or the
      limits that come with the call. */
  function InForce(rs: seq<Request>, call: Call): Limits {
    if rs == [] then call.limits
    else
      match rs[|rs| - 1]
      case PolicyRequest(owner, limits) => if owner == call.owner then limits else InForce(rs[..|rs| - 1], call)
      case ReserveRequest(_, _) => InForce(rs[..|rs| - 1], call)
  }

  lemma {:induction false} LastPolicyIsInForce(rs: seq<Request>, call: Call)
    requires RequestsValid(rs)
    ensures EffectiveLimits(Replay(rs), call) == InForce(rs, call) && PoliciesValid(Replay(rs))
  {
    if rs != [] {
      var front, last := rs[..|rs| - 1], rs[|rs| - 1];
      assert forall i | 0 <= i < |front| :: front[i] == rs[i];
      LastPolicyIsInForce(front, call);
      assert rs[|rs| - 1] == last;
      match last
      case ReserveRequest(c, today) => ReserveMoves(Replay(front), c, today, GLOBAL_BUCKET);
      case PolicyRequest(owner, limits) =>
    }
  }

  /** After every run of reservations and policy changes, each request is answered by the sums over the
      reservation rows, with the limits last set for its owner. */
  lemma RunsAnswerByRows(rs: seq<Request>, call: Call, today: Today)
    requires RequestsValid(rs) && CallValid(call)
    ensures var db := Replay(rs);
            && IsReservation(db, call, today, Reserve(db, call, today).0, Reserve(db, call, today).1)
            && ((forall row | row in db.reservations :: row.request != call.request) ==>
                  IsAnswer(db.reservations, InForce(rs, call), call, today, Reserve(db, call, today).1))
  {
    RunsConserve(rs);
    LastPolicyIsInForce(rs, call);
    ReserveByRows(Replay(rs), call, today);
    hide Reserve, Replay, Conserved, IsAnswer;
  }

  /** A stored reservation is found again whatever comes later. */
  lemma FoundStaysFound(db: Database, r: Request, request: string)
    requires FindReservation(db.reservations, request).Some?
    ensures FindReservation(Apply(db, r).reservations, request) == FindReservation(db.reservations, request)
  {
    if r.ReserveRequest? {
      hide Reserve;
      ReserveMoves(db, r.call, r.today, GLOBAL_BUCKET);
      if Reserve(db, r.call, r.today).1 == ACCEPTED {
        AcceptedFits(db, r.call, r.today, GLOBAL_BUCKET);
        assert (db.reservations + [Row(r.call, r.today)])[..|db.reservations|] == db.reservations;
      }
    }
  }

  lemma AcceptedIsFound(db: Database, call: Call, today: Today)
    requires Reserve(db, call, today).1.accepted
    ensures var found := FindReservation(Reserve(db, call, today).0.reservations, call.request);
            found.Some? && found.value.owner == call.owner
  {
    hide WouldExceed, FirstExceeded, BucketsFor, AddFirst, EffectiveLimits;
    var rows := Reserve(db, call, today).0.reservations;
    if rows != db.reservations { assert rows[|rows| - 1] == Row(call, today); }
  }

  /** An accepted call leaves its reservation to be found, under its owner, at the end of every run
      that goes on from there. */
  lemma {:induction false} AcceptedStaysFound(rs: seq<Request>, call: Call, today: Today, more: seq<Request>)
    requires Reserve(Replay(rs), call, today).1.accepted
    ensures var found := FindReservation(Replay(rs + [ReserveRequest(call, today)] + more).reservations, call.request);
            found.Some? && found.value.owner == call.owner
  {
    var r := ReserveRequest(call, today);
    var first := rs + [r];
    hide Reserve, FindReservation;
    if more == [] {
      AcceptedIsFound(Replay(rs), call, today);
      assert Apply(Replay(rs), r) == Reserve(Replay(rs), call, today).0;
      assert first + more == first && first[..|first| - 1] == rs;
    } else {
      hide Apply;
      var n := |more| - 1;
      AcceptedStaysFound(rs, call, today, more[..n]);
      assert (first + more)[..|first + more| - 1] == first + more[..n];
      FoundStaysFound(Replay(first + more[..n]), more[n], call.request);
    }
  }

  /** However much later it comes, a retry of an accepted reservation by its owner, or an attempt
      to take it over, with whatever amount and limits, changes nothing. */
  lemma RetryIsHarmless(rs: seq<Request>, call: Call, today: Today, more: seq<Request>, again: Call, later: Today)
    requires Reserve(Replay(rs), call, today).1.accepted && again.request == call.request
    ensures var db := Replay(rs + [ReserveRequest(call, today)] + more);
            Reserve(db, again, later) == (db, if again.owner == call.owner then IDEMPOTENT else UNAVAILABLE)
  {
    AcceptedStaysFound(rs, call, today, more);
    hide FindReservation, Replay;
  }

  ghost predicate RequestsValid(rs: seq<Request>) {
    forall i | 0 <= i < |rs| ::
      match rs[i]
      case ReserveRequest(call, _) => CallValid(call)
      case PolicyRequest(_, limits) => LimitsValid(limits)
  }

  lemma {:induction false} RunsConserve(rs: seq<Request>)
    requires RequestsValid(rs)
    ensures Conserved(Replay(rs))
  {
    if rs != [] {
      var front, last := rs[..|rs| - 1], rs[|rs| - 1];
      assert forall i | 0 <= i < |front| :: front[i] == rs[i];
      RunsConserve(front);
      assert rs[|rs| - 1] == last;
      match last
      case ReserveRequest(call, today) => ReserveConserves(Replay(front), call, today);
      case PolicyRequest(owner, limits) =>
        var db := Replay(front);
        assert forall b :: Used(SetPolicy(db, owner, limits), b) == Used(db, b);
    }
  }

  /** Every reservation in the run is made under the limits that `rule` gives its owner. */
  ghost predicate UnderRule(rs: seq<Request>, rule: string -> Limits) {
    forall i | 0 <= i < |rs| && rs[i].ReserveRequest? ::
      EffectiveLimits(Replay(rs[..i]), rs[i].call) == rule(rs[i].call.owner)
  }

  /** While the limits in force do not change, a counter that only one owner can charge never
      passes that owner's non-zero limit. */
  lemma {:induction false} OwnLimitsHold(rs: seq<Request>, rule: string -> Limits, b: Bucket)
    requires RequestsValid(rs) && UnderRule(rs, rule)
    requires b.kind != Global && LimitFor(rule(b.owner), b.kind) > 0
    ensures Used(Replay(rs), b) <= LimitFor(rule(b.owner), b.kind)
  {
    if rs != [] {
      ShorterRun(rs, rule);
      var front := rs[..|rs| - 1];
      OwnLimitsHold(front, rule, b);
      OneMoreRequest(rs, rule, b);
    }
  }

  lemma ShorterRun(rs: seq<Request>, rule: string -> Limits)
    requires rs != [] && RequestsValid(rs) && UnderRule(rs, rule)
    ensures RequestsValid(rs[..|rs| - 1]) && UnderRule(rs[..|rs| - 1], rule)
  {
    var front := rs[..|rs| - 1];
    forall i | 0 <= i < |front| && front[i].ReserveRequest?
      ensures EffectiveLimits(Replay(front[..i]), front[i].call) == rule(front[i].call.owner)
    {
      assert front[i] == rs[i] && front[..i] == rs[..i];
    }
    assert forall i | 0 <= i < |front| :: front[i] == rs[i];
  }

  /** The last request of a run raises a counter only within the limit of the owner who made it. */
  lemma OneMoreRequest(rs: seq<Request>, rule: string -> Limits, b: Bucket)
    requires rs != [] && RequestsValid(rs) && UnderRule(rs, rule)
    ensures var before, after, last := Used(Replay(rs[..|rs| - 1]), b), Used(Replay(rs), b), rs[|rs| - 1];
            after == before ||
            (&& last.ReserveRequest? && b in BucketsFor(last.call.owner, last.call.context, last.today)
             && (LimitFor(rule(last.call.owner), b.kind) > 0 ==> after <= LimitFor(rule(last.call.owner), b.kind)))
  {
    hide Reserve, EffectiveLimits, Conserved, RequestsValid;
    var front, last := rs[..|rs| - 1], rs[|rs| - 1];
    var db := Replay(front);
    assert Replay(rs) == Apply(db, last);
    match last
    case ReserveRequest(call, today) =>
      assert EffectiveLimits(db, call) == rule(call.owner);
      ReserveMoves(db, call, today, b);
      if Reserve(db, call, today).1 == ACCEPTED && b in BucketsFor(call.owner, call.context, today) {
        AcceptedStaysWithinLimits(db, call, today, b);
      }
    case PolicyRequest(_, _) =>
  }

  /** The global counter is shared, so it obeys a bound `g` in every run exactly when every owner's
      own global limit is non-zero and at most `g`. One owner without a limit lifts it for all. */
  lemma GlobalBoundIffEveryOwnerLimited(rule: string -> Limits, g: int)
    requires forall o :: LimitsValid(rule(o))
    requires 0 < g < INT64_MAX
    ensures (forall rs | RequestsValid(rs) && UnderRule(rs, rule) :: Used(Replay(rs), GLOBAL_BUCKET) <= g)
            <==> (forall o | ValidId(o) :: 0 < rule(o).global <= g)
  {
    if forall o | ValidId(o) :: 0 < rule(o).global <= g {
      forall rs | RequestsValid(rs) && UnderRule(rs, rule) ensures Used(Replay(rs), GLOBAL_BUCKET) <= g {
        GlobalBoundHolds(rs, rule, g);
      }
    } else {
      var o :| ValidId(o) && !(0 < rule(o).global <= g);
      Overrun(rule, o, g, g + 1);
    }
  }

  lemma {:induction false} GlobalBoundHolds(rs: seq<Request>, rule: string -> Limits, g: int)
    requires RequestsValid(rs) && UnderRule(rs, rule) && g > 0
    requires forall o | ValidId(o) :: 0 < rule(o).global <= g
    ensures Used(Replay(rs), GLOBAL_BUCKET) <= g
  {
    if rs != [] {
      ShorterRun(rs, rule);
      GlobalBoundHolds(rs[..|rs| - 1], rule, g);
      OneMoreRequest(rs, rule, GLOBAL_BUCKET);
    }
  }

  function Stamp(n: nat): string { Decimal(n) }

  lemma StampsDiffer(m: nat, n: nat)
    requires m != n
    ensures Stamp(m) != Stamp(n)
  {
    DecimalRoundTrip(m);
    DecimalRoundTrip(n);
  }

  /** One token per month, each month in a new session, with a fresh request id. */
  function OneToken(o: string, n: nat, limits: Limits): Request {
    ReserveRequest(Call(o, Stamp(n), Stamp(n), 1, limits), Today(Stamp(n), Stamp(n)))
  }

  lemma StampIsValidId(n: nat)
    ensures ValidId(Stamp(n))
  {
    DecimalRoundTrip(n);
  }

  function TokenRun(o: string, n: nat, limits: Limits): (rs: seq<Request>)
    ensures |rs| == n
  {
    if n == 0 then [] else TokenRun(o, n - 1, limits) + [OneToken(o, n - 1, limits)]
  }

  function TokenRows(o: string, n: nat, limits: Limits): seq<Reservation> {
    if n == 0 then []
    else TokenRows(o, n - 1, limits) + [Row(OneToken(o, n - 1, limits).call, OneToken(o, n - 1, limits).today)]
  }

  lemma {:induction false} TokenRowsCharge(o: string, n: nat, m: nat, limits: Limits)
    requires m >= n
    ensures FindReservation(TokenRows(o, n, limits), Stamp(m)).None?
    ensures Charged(TokenRows(o, n, limits), GLOBAL_BUCKET) == n
    ensures forall b: Bucket | b in BucketsFor(o, Stamp(m), Today(Stamp(m), Stamp(m))) && b.kind != Global ::
              Charged(TokenRows(o, n, limits), b) == 0
  {
    hide BucketsFor, Stamp, BelongsTo;
    if n > 0 {
      var rows, row := TokenRows(o, n - 1, limits),
                       Row(OneToken(o, n - 1, limits).call, OneToken(o, n - 1, limits).today);
      TokenRowsCharge(o, n - 1, m, limits);
      StampsDiffer(n - 1, m);
      assert TokenRows(o, n, limits) == rows + [row];
      OneMoreRow(rows, row, GLOBAL_BUCKET);
      TokenBelongs(o, n - 1, m, row);
      forall b: Bucket | b in BucketsFor(o, Stamp(m), Today(Stamp(m), Stamp(m))) && b.kind != Global
        ensures Charged(rows + [row], b) == 0
      {
        OneMoreRow(rows, row, b);
      }
      assert (rows + [row])[..|rows|] == rows;
    }
  }

  lemma OneMoreRow(rows: seq<Reservation>, row: Reservation, b: Bucket)
    ensures Charged(rows + [row], b) == Charged(rows, b) + if BelongsTo(row, b) then row.tokens else 0
  {
    hide BelongsTo;
    assert (rows + [row])[..|rows + [row]| - 1] == rows;
  }

  lemma TokenBelongs(o: string, n: nat, m: nat, row: Reservation)
    requires n != m && row.owner == o && row.context == Stamp(n) && row.made == Today(Stamp(n), Stamp(n))
    ensures BelongsTo(row, GLOBAL_BUCKET)
    ensures forall b: Bucket | b in BucketsFor(o, Stamp(m), Today(Stamp(m), Stamp(m))) && b.kind != Global ::
              !BelongsTo(row, b)
  {
    hide Stamp;
    StampsDiffer(n, m);
  }

  /** An owner whose global limit does not stop the run at `g` can make `g + 1` reservations of one
      token each, one a month, each in a session of its own. */
  lemma {:induction false} Overrun(rule: string -> Limits, o: string, g: int, n: nat)
    requires ValidId(o) && LimitsValid(rule(o)) && !(0 < rule(o).global <= g)
    requires n <= g + 1 <= INT64_MAX
    ensures var rs := TokenRun(o, n, rule(o));
            && RequestsValid(rs) && UnderRule(rs, rule)
            && Replay(rs).reservations == TokenRows(o, n, rule(o)) && Replay(rs).policies == map[]
            && Used(Replay(rs), GLOBAL_BUCKET) == n
  {
    hide Reserve, EffectiveLimits, Conserved, UnderRule, RequestsValid, Stamp, Used;
    if n > 0 {
      var m, limits := n - 1, rule(o);
      var front, last := TokenRun(o, m, limits), OneToken(o, m, limits);
      Overrun(rule, o, g, m);
      RunsConserve(front);
      StampIsValidId(m);
      var db := Replay(front);
      NoPolicy(db, last.call);
      LongerRun(front, rule, last);
      TokenFits(db, o, m, limits);
      ReserveMoves(db, last.call, last.today, GLOBAL_BUCKET);
    } else {
      EmptyRun(rule);
    }
  }

  lemma EmptyRun(rule: string -> Limits)
    ensures RequestsValid([]) && UnderRule([], rule) && Used(Replay([]), GLOBAL_BUCKET) == 0
  {
  }

  lemma LongerRun(rs: seq<Request>, rule: string -> Limits, last: Request)
    requires RequestsValid(rs) && UnderRule(rs, rule)
    requires last.ReserveRequest? && CallValid(last.call)
    requires EffectiveLimits(Replay(rs), last.call) == rule(last.call.owner)
    ensures RequestsValid(rs + [last]) && UnderRule(rs + [last], rule)
    ensures Replay(rs + [last]) == Apply(Replay(rs), last)
  {
    hide Replay, EffectiveLimits;
    var longer := rs + [last];
    assert longer[..|rs|] == rs && longer[|rs|] == last;
    forall i | 0 <= i < |longer| && longer[i].ReserveRequest?
      ensures EffectiveLimits(Replay(longer[..i]), longer[i].call) == rule(longer[i].call.owner)
    {
      if i < |rs| { assert longer[i] == rs[i] && longer[..i] == rs[..i]; }
    }
    ReplayStep(rs, last);
  }

  lemma ReplayStep(rs: seq<Request>, last: Request)
    ensures Replay(rs + [last]) == Apply(Replay(rs), last)
  {
    var longer := rs + [last];
    assert longer[..|longer| - 1] == rs;
  }

  lemma NoPolicy(db: Database, call: Call)
    requires db.policies == map[]
    ensures EffectiveLimits(db, call) == call.limits
  {
  }

  lemma TokenFits(db: Database, o: string, m: nat, limits: Limits)
    requires Conserved(db) && db.reservations == TokenRows(o, m, limits) && db.policies == map[]
    requires LimitsValid(limits) && (limits.global == 0 || limits.global > m) && m < INT64_MAX
    ensures Reserve(db, OneToken(o, m, limits).call, OneToken(o, m, limits).today).1 == ACCEPTED
  {
    TokenRowsCharge(o, m, m, limits);
    var bs := BucketsFor(o, Stamp(m), Today(Stamp(m), Stamp(m)));
    assert Used(db, bs[0]) == m;
    assert forall j | 1 <= j < 4 :: bs[j] in bs && bs[j].kind != Global;
  }

  // ------------------------------------------------------------------ the repository

  lemma ReservationContract(db: Database, call: Call, today: Today)
    ensures CallValid(call) && Conserved(db) && PoliciesValid(db) ==>
              && IsReservation(db, call, today, Reserve(db, call, today).0, Reserve(db, call, today).1)
              && Conserved(Reserve(db, call, today).0)
  {
    if CallValid(call) && Conserved(db) && PoliciesValid(db) {
      ReserveByRows(db, call, today);
      ReserveConserves(db, call, today);
    }
  }

  /** `PostgresBudgetRepository`, whose transactions run one after the other here. */
  class Repository {
    var reservations: seq<Reservation>
    var counters: map<Bucket, int>
    var policies: map<string, Limits>

    function Tables(): Database
      reads this
    {
      Database(reservations, counters, policies)
    }

    constructor ()
      ensures Tables() == Replay([])
    {
      reservations, counters, policies := [], map[], map[];
    }

    /** An Err stands for the thrown `std::invalid_argument`. */
    method ReserveTokens(call: Call, today: Today) returns (r: Result<Outcome>)
      modifies this
      ensures r.Ok? <==> CallValid(call)
      ensures r.Err? ==> Tables() == old(Tables())
      ensures r.Ok? ==> (Tables(), r.value) == Reserve(old(Tables()), call, today)
      ensures r.Ok? <==>
                && call.owner != "" && '\0' !in call.owner && call.context != "" && '\0' !in call.context
                && call.request != "" && '\0' !in call.request
                && call.tokens >= 0 && call.limits.global >= 0 && call.limits.userDaily >= 0
                && call.limits.userMonthly >= 0 && call.limits.session >= 0
      ensures r.Ok? && Conserved(old(Tables())) && PoliciesValid(old(Tables())) ==>
                IsReservation(old(Tables()), call, today, Tables(), r.value) && Conserved(Tables())
    {
      ReservationContract(Tables(), call, today);
      hide WouldExceed, BucketsFor, IsReservation, Conserved, PoliciesValid;
      if !ValidId(call.owner) || !ValidId(call.context) || !ValidId(call.request) { return Err("invalid id"); }
      if call.tokens < 0 { return Err("estimated_tokens must be non-negative"); }
      if !LimitsValid(call.limits) { return Err("budget limits must be non-negative"); }
      ghost var db := Tables();
      var buckets := BucketsFor(call.owner, call.context, today);
      match FindReservation(reservations, call.request) {
        case Some(row) => return Ok(if row.owner == call.owner then IDEMPOTENT else UNAVAILABLE);
        case None =>
      }
      var effective := call.limits;
      if call.owner in policies { effective := policies[call.owner]; }
      var k := 0;
      while k < |buckets|
        invariant 0 <= k <= |buckets| && Tables() == db
        invariant FirstExceeded(db, buckets, effective, call.tokens, 0)
                  == FirstExceeded(db, buckets, effective, call.tokens, k)
      {
        if WouldExceed(Used(Tables(), buckets[k]), LimitFor(effective, buckets[k].kind), call.tokens) {
          return Ok(Outcome(false, false, ReasonFor(buckets[k].kind)));
        }
        k := k + 1;
      }
      reservations := reservations + [Row(call, today)];
      k := 0;
      while k < |buckets|
        invariant 0 <= k <= |buckets| && reservations == db.reservations + [Row(call, today)] && policies == db.policies
        invariant counters == AddFirst(db.counters, buckets, k, call.tokens)
      {
        counters := Add(counters, buckets[k], call.tokens);
        k := k + 1;
      }
      return Ok(ACCEPTED);
    }

    method SetOwnerPolicy(owner: string, limits: Limits) returns (r: Result<bool>)
      modifies this
      ensures r.Ok? <==> ValidId(owner) && LimitsValid(limits)
      ensures Tables() == if r.Ok? then SetPolicy(old(Tables()), owner, limits) else old(Tables())
      ensures r.Ok? ==> owner in policies && policies[owner] == limits
      ensures policies.Keys == old(policies).Keys + (if r.Ok? then {owner} else {})
      ensures forall o | o in old(policies) && o != owner :: policies[o] == old(policies)[o]
      ensures reservations == old(reservations) && counters == old(counters)
    {
      if !ValidId(owner) { return Err("invalid id"); }
      if !LimitsValid(limits) { return Err("budget limits must be non-negative"); }
      policies := policies[owner := limits];
      return Ok(true);
    }
  }
}
