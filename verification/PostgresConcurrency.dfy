/** Concurrent reservations: `common/src/postgres_budget_repository.cpp` as interleaved statements.

    Every statement of a reservation transaction is one step. A transaction takes four advisory
    locks, the global bucket's first, and holds them until it ends. The lock key is a hash of the
    bucket, and hashes may collide. A transaction may also abort at any point. The file proves that
    every interleaving equals running the transactions that did not abort whole, one after the other,
    in the order in which they got the global lock. */
module PostgresConcurrency {
  import opened Common
  import opened PostgresBudget

  datatype Pc =
    | Lock(n: nat)           // waiting for the lock of bucket n
    | CheckExisting          // SELECT ... FROM budget_reservations ... FOR UPDATE
    | ReadPolicy             // SELECT ... FROM budget_policies ... FOR UPDATE
    | ReadCounter(n: nat)    // SELECT used_tokens ... FOR UPDATE, bucket n
    | Decide                 // the wouldExceed loop
    | Insert                 // INSERT ... ON CONFLICT DO NOTHING
    | Upsert(n: nat)         // addCounter, bucket n
    | Commit
    | Done
    | Aborted                // the connection failed or the statement threw; rolled back

  /** A transaction. `at` is the place of its call in the serial history, once it has one. */
  datatype Tx = Tx(call: Call, today: Today, pc: Pc, limits: Limits, used: seq<int>, outcome: Outcome, at: nat)
  {
    function Buckets(): seq<Bucket> { BucketsFor(call.owner, call.context, today) }
    function AsRequest(): Request { ReserveRequest(call, today) }
    predicate Ended() { pc == Done || pc == Aborted }
    predicate Entered() { pc != Lock(0) && pc != Aborted }
    predicate Holding() { pc != Lock(0) && !Ended() }
    predicate Placed() { Holding() ==> !pc.Lock? && pc != CheckExisting && pc != ReadPolicy }
  }

  /** `db` is what is committed; `history` is the serial history being built and `order` lists
      transactions as they get the global lock. */
  datatype State = State(
    db: Database,
    txs: map<nat, Tx>,
    locks: map<int, nat>,
    history: seq<Request>,
    order: seq<nat>)

  datatype Action =
    | Begin(id: nat, call: Call, today: Today)
    | Step(id: nat)
    | Abort(id: nat)
    | Policy(owner: string, limits: Limits)

  function KeyText(b: Bucket): string {
    (match b.kind case Global => "global" case UserDaily => "user_daily"
                  case UserMonthly => "user_monthly" case Session => "session")
    + "|" + b.owner + "|" + b.session + "|" + b.start
  }

  function KeyOf(b: Bucket, hash: string -> int): int { hash(KeyText(b)) }

  function GlobalKey(hash: string -> int): int { KeyOf(GLOBAL_BUCKET, hash) }

  predicate PcInRange(pc: Pc) {
    && (pc.Lock? ==> pc.n < 4) && (pc.ReadCounter? ==> pc.n < 4) && (pc.Upsert? ==> pc.n < 4)
  }

  /** A step is possible unless it waits for a lock of another transaction. */
  predicate Enabled(s: State, a: Action, hash: string -> int) {
    match a
    case Begin(id, call, _) => id !in s.txs && CallValid(call)
    case Policy(owner, limits) => ValidId(owner) && LimitsValid(limits)
    case Abort(id) => id in s.txs && !s.txs[id].Ended()
    case Step(id) =>
      && id in s.txs && !s.txs[id].Ended() && PcInRange(s.txs[id].pc)
      && (s.txs[id].pc.Lock? ==>
            var key := KeyOf(s.txs[id].Buckets()[s.txs[id].pc.n], hash);
            key !in s.locks || s.locks[key] == id)
  }

  function Release(locks: map<int, nat>, id: nat): map<int, nat> {
    map k | k in locks && locks[k] != id :: locks[k]
  }

  /** The transaction ends: its locks are released. */
  function Finish(s: State, id: nat, tx: Tx, outcome: Outcome, db: Database): State {
    s.(db := db, txs := s.txs[id := tx.(pc := Done, outcome := outcome)], locks := Release(s.locks, id))
  }

  function OwnerVerdict(row: Reservation, call: Call): Outcome {
    if row.owner == call.owner then IDEMPOTENT else UNAVAILABLE
  }

  function FirstExceededOf(tx: Tx, from: nat): (k: nat)
    requires from <= 4 && |tx.used| == 4
    ensures from <= k <= 4
    decreases 4 - from
  {
    if from == 4 || WouldExceed(tx.used[from], LimitFor(tx.limits, tx.Buckets()[from].kind), tx.call.tokens)
    then from
    else FirstExceededOf(tx, from + 1)
  }

  function Written(db: Database, tx: Tx): Database {
    db.(reservations := db.reservations + [Row(tx.call, tx.today)],
        counters := AddFirst(db.counters, tx.Buckets(), 4, tx.call.tokens))
  }

  function StepOf(s: State, id: nat, hash: string -> int): State
    requires Enabled(s, Step(id), hash)
  {
    var tx := s.txs[id];
    match tx.pc
    case Lock(n) =>
      s.(locks := s.locks[KeyOf(tx.Buckets()[n], hash) := id],
         order := if n == 0 then s.order + [id] else s.order,
         txs := s.txs[id := tx.(pc := if n < 3 then Lock(n + 1) else CheckExisting)])
    case CheckExisting =>
      (match FindReservation(s.db.reservations, tx.call.request)
       case Some(row) =>
         Finish(s.(history := s.history + [tx.AsRequest()]), id, tx.(at := |s.history|),
                OwnerVerdict(row, tx.call), s.db)
       case None => s.(txs := s.txs[id := tx.(pc := ReadPolicy)]))
    case ReadPolicy =>
      s.(history := s.history + [tx.AsRequest()],
         txs := s.txs[id := tx.(pc := ReadCounter(0), limits := EffectiveLimits(s.db, tx.call),
                                used := [], at := |s.history|)])
    case ReadCounter(n) =>
      s.(txs := s.txs[id := tx.(used := tx.used + [Used(s.db, tx.Buckets()[n])],
                                pc := if n < 3 then ReadCounter(n + 1) else Decide)])
    case Decide =>
      if |tx.used| != 4 then s
      else
        var k := FirstExceededOf(tx, 0);
        if k < 4 then Finish(s, id, tx, Outcome(false, false, ReasonFor(tx.Buckets()[k].kind)), s.db)
        else s.(txs := s.txs[id := tx.(pc := Insert)])
    case Insert =>
      (match FindReservation(s.db.reservations, tx.call.request)
       case Some(row) => Finish(s, id, tx, OwnerVerdict(row, tx.call), s.db)
       case None => s.(txs := s.txs[id := tx.(pc := Upsert(0))]))
    case Upsert(n) => s.(txs := s.txs[id := tx.(pc := if n < 3 then Upsert(n + 1) else Commit)])
    case Commit => Finish(s, id, tx, ACCEPTED, Written(s.db, tx))
    case Done => s
    case Aborted => s
  }

  /** The history without its `k`-th entry. */
  function Without(history: seq<Request>, k: nat): seq<Request> {
    if k < |history| then history[..k] + history[k + 1..] else history
  }

  /** A rollback: the locks are released and the tables stay as they are. The call loses the place
      in the serial history that it may have had. */
  function AbortOf(s: State, id: nat): State
    requires id in s.txs
  {
    var tx := s.txs[id];
    s.(txs := s.txs[id := tx.(pc := Aborted)],
       locks := Release(s.locks, id),
       order := if tx.Holding() && s.order != [] then s.order[..|s.order| - 1] else s.order,
       history := if tx.Holding() && tx.Placed() then Without(s.history, tx.at) else s.history)
  }

  /** One action. An action that is not possible changes nothing, so every list of actions is a run. */
  function Next(s: State, a: Action, hash: string -> int): State {
    if !Enabled(s, a, hash) then s
    else
      match a
      case Begin(id, call, today) =>
        s.(txs := s.txs[id := Tx(call, today, Lock(0), call.limits, [], UNAVAILABLE, 0)])
      case Policy(owner, limits) =>
        s.(db := SetPolicy(s.db, owner, limits), history := s.history + [PolicyRequest(owner, limits)])
      case Abort(id) => AbortOf(s, id)
      case Step(id) => StepOf(s, id, hash)
  }

  const INITIAL := State(Database([], map[], map[]), map[], map[], [], [])

  function Run(acts: seq<Action>, hash: string -> int): State {
    if acts == [] then INITIAL else Next(Run(acts[..|acts| - 1], hash), acts[|acts| - 1], hash)
  }

  // ------------------------------------------------------------------ the invariant

  /** What the transaction is going to answer, given its limits and the committed counters. */
  function Verdict(db: Database, tx: Tx): Outcome {
    var k := FirstExceeded(db, tx.Buckets(), tx.limits, tx.call.tokens, 0);
    if k < 4 then Outcome(false, false, ReasonFor(tx.Buckets()[k].kind)) else ACCEPTED
  }

  /** The tables as they will be when the transaction commits. */
  function Effect(db: Database, tx: Tx): Database {
    if Verdict(db, tx) == ACCEPTED then Written(db, tx) else db
  }

  /** The transaction's call has its place in the history and `outcome` is what it answers there. */
  ghost predicate Answers(history: seq<Request>, tx: Tx, outcome: Outcome) {
    && tx.at < |history| && history[tx.at] == tx.AsRequest()
    && outcome == Reserve(Replay(history[..tx.at]), tx.call, tx.today).1
  }

  /** What holds of the transaction that holds the global lock. */
  ghost predicate HolderOk(db: Database, history: seq<Request>, tx: Tx) {
    if !tx.Placed() then
      && db == Replay(history)
      && (tx.pc == ReadPolicy ==> FindReservation(db.reservations, tx.call.request).None?)
    else
      && FindReservation(db.reservations, tx.call.request).None?
      && Replay(history) == Effect(db, tx)
      && Replay(Without(history, tx.at)) == db
      && Answers(history, tx, Verdict(db, tx))
      && |tx.used| == (if tx.pc.ReadCounter? then tx.pc.n else 4)
      && (forall j | 0 <= j < |tx.used| && j < 4 :: tx.used[j] == Used(db, tx.Buckets()[j]))
      && (tx.pc == Insert || tx.pc.Upsert? || tx.pc == Commit ==> Verdict(db, tx) == ACCEPTED)
  }

  /** Lock discipline: whoever holds any lock holds the global one, and is past its first step. */
  ghost predicate LocksOk(s: State, hash: string -> int) {
    var g := GlobalKey(hash);
    && (forall id | id in s.txs :: s.txs[id].Holding() <==> g in s.locks && s.locks[g] == id)
    && (forall k | k in s.locks :: g in s.locks && s.locks[k] == s.locks[g])
    && (g in s.locks ==> s.locks[g] in s.txs)
    && (forall id | id in s.txs :: PcInRange(s.txs[id].pc) && CallValid(s.txs[id].call))
  }

  ghost predicate BooksOk(s: State, hash: string -> int) {
    && RequestsValid(s.history) && Conserved(s.db)
    && (GlobalKey(hash) !in s.locks ==> s.db == Replay(s.history))
    && (forall id | id in s.txs && s.txs[id].Holding() :: HolderOk(s.db, s.history, s.txs[id]))
    && (forall id | id in s.txs && s.txs[id].pc == Done :: Answers(s.history, s.txs[id], s.txs[id].outcome))
  }

  /** `order` lists everyone past its first lock who did not abort, once each, and all but the last
      of them are done. */
  ghost predicate Listed(order: seq<nat>, txs: map<nat, Tx>) {
    && NoDuplicates(order)
    && (forall i | 0 <= i < |order| :: order[i] in txs && txs[order[i]].Entered())
    && (forall id | id in txs && txs[id].Entered() :: id in order)
    && (forall i | 0 <= i < |order| - 1 :: txs[order[i]].pc == Done)
  }

  ghost predicate Accounts(order: seq<nat>, txs: map<nat, Tx>, i: int, k: nat) {
    0 <= i < |order| && order[i] in txs && txs[order[i]].Placed() && txs[order[i]].at == k
  }

  /** The `k`-th entry of the history is the call of some transaction in the lock order. */
  ghost predicate Recorded(order: seq<nat>, txs: map<nat, Tx>, k: nat) {
    exists i :: Accounts(order, txs, i, k)
  }

  /** The serial history has the calls in lock order, and no others. */
  ghost predicate Ordered(order: seq<nat>, txs: map<nat, Tx>, history: seq<Request>)
    requires Listed(order, txs)
  {
    && (forall i, j | 0 <= i < j < |order| && txs[order[j]].Placed() :: txs[order[i]].at < txs[order[j]].at)
    && (forall i | 0 <= i < |order| && txs[order[i]].Placed() :: txs[order[i]].at < |history|)
    && (forall k | 0 <= k < |history| && history[k].ReserveRequest? :: Recorded(order, txs, k))
  }

  ghost predicate OrderOk(s: State) {
    Listed(s.order, s.txs) && Ordered(s.order, s.txs, s.history)
  }

  ghost predicate Inv(s: State, hash: string -> int) {
    LocksOk(s, hash) && BooksOk(s, hash) && OrderOk(s)
  }

  // ------------------------------------------------------------------ lock discipline

  lemma GlobalKeyIsFirst(tx: Tx, hash: string -> int)
    ensures KeyOf(tx.Buckets()[0], hash) == GlobalKey(hash)
  {
  }

  /** A transaction moves on while holding its locks. */
  ghost predicate MovesInside(s: State, s': State, id: nat) {
    && id in s.txs && s.txs[id].Holding()
    && id in s'.txs && s' == s.(txs := s.txs[id := s'.txs[id]], history := s'.history)
    && s'.txs[id].Holding() && s'.txs[id].call == s.txs[id].call && s'.txs[id].today == s.txs[id].today
    && PcInRange(s'.txs[id].pc)
  }

  /** A transaction ends. */
  ghost predicate MovesOut(s: State, s': State, id: nat) {
    && id in s.txs && s.txs[id].Holding() && id in s'.txs
    && s' == s.(db := s'.db, history := s'.history, txs := s.txs[id := s'.txs[id]], locks := Release(s.locks, id))
    && s'.txs[id].pc == Done && s'.txs[id].call == s.txs[id].call && s'.txs[id].today == s.txs[id].today
  }

  lemma LocksInside(s: State, s': State, id: nat, hash: string -> int)
    requires LocksOk(s, hash) && MovesInside(s, s', id)
    ensures LocksOk(s', hash)
  {
    hide KeyOf, CallValid;
  }

  lemma LocksOut(s: State, s': State, id: nat, hash: string -> int)
    requires LocksOk(s, hash) && MovesOut(s, s', id)
    ensures LocksOk(s', hash) && s'.locks == map[]
  {
    hide KeyOf, CallValid;
    assert forall k | k in s.locks :: s.locks[k] == id;
  }

  lemma LocksTaken(s: State, id: nat, hash: string -> int)
    requires LocksOk(s, hash) && Enabled(s, Step(id), hash) && s.txs[id].pc.Lock?
    ensures LocksOk(StepOf(s, id, hash), hash)
    ensures s.txs[id].pc.n == 0 ==> GlobalKey(hash) !in s.locks
  {
    hide KeyOf, BucketsFor, CallValid;
    GlobalKeyIsFirst(s.txs[id], hash);
  }

  // ------------------------------------------------------------------ books

  lemma HistoryGrows(history: seq<Request>, r: Request, tx: Tx, outcome: Outcome)
    ensures Replay(history + [r]) == Apply(Replay(history), r)
    ensures Answers(history, tx, outcome) ==> Answers(history + [r], tx, outcome)
  {
    hide Reserve;
    ReplayStep(history, r);
    if tx.at < |history| { assert (history + [r])[..tx.at] == history[..tx.at]; }
  }

  /** The call takes its place at the end of the history, where it answers what it would alone. */
  lemma TakesPlace(db: Database, history: seq<Request>, tx: Tx)
    requires db == Replay(history)
    ensures var h, placed := history + [tx.AsRequest()], tx.(at := |history|);
            && Answers(h, placed, Reserve(db, tx.call, tx.today).1)
            && Replay(h) == Reserve(db, tx.call, tx.today).0
  {
    hide Reserve;
    ReplayStep(history, tx.AsRequest());
    assert (history + [tx.AsRequest()])[..|history|] == history;
  }

  lemma VerdictIsReserve(db: Database, tx: Tx)
    requires FindReservation(db.reservations, tx.call.request).None?
    requires tx.limits == EffectiveLimits(db, tx.call)
    ensures Reserve(db, tx.call, tx.today) == (Effect(db, tx), Verdict(db, tx))
  {
    hide WouldExceed, BucketsFor;
  }

  lemma {:induction false} CapturedVerdict(db: Database, tx: Tx, from: nat)
    requires |tx.used| == 4 && from <= 4
    requires forall j | 0 <= j < 4 :: tx.used[j] == Used(db, tx.Buckets()[j])
    ensures FirstExceededOf(tx, from) == FirstExceeded(db, tx.Buckets(), tx.limits, tx.call.tokens, from)
    decreases 4 - from
  {
    hide WouldExceed, BucketsFor;
    if from < 4 { CapturedVerdict(db, tx, from + 1); }
  }

  lemma PolicyKeepsHolder(db: Database, history: seq<Request>, tx: Tx, owner: string, limits: Limits)
    requires HolderOk(db, history, tx)
    ensures HolderOk(SetPolicy(db, owner, limits), history + [PolicyRequest(owner, limits)], tx)
  {
    hide Reserve, BucketsFor, WouldExceed;
    HistoryGrows(history, PolicyRequest(owner, limits), tx, Verdict(db, tx));
    PolicyKeepsVerdict(db, tx, owner, limits, 0);
    if tx.Placed() {
      WithoutInside(history, PolicyRequest(owner, limits), tx.at);
      ReplayStep(Without(history, tx.at), PolicyRequest(owner, limits));
    }
    assert forall b :: Used(SetPolicy(db, owner, limits), b) == Used(db, b);
  }

  lemma WithoutInside(history: seq<Request>, r: Request, k: nat)
    requires k < |history|
    ensures Without(history + [r], k) == Without(history, k) + [r]
  {
  }

  lemma WithoutLast(history: seq<Request>, r: Request)
    ensures Without(history + [r], |history|) == history
  {
  }

  lemma {:induction false} PolicyKeepsVerdict(db: Database, tx: Tx, owner: string, limits: Limits, from: nat)
    requires from <= 4
    ensures FirstExceeded(SetPolicy(db, owner, limits), tx.Buckets(), tx.limits, tx.call.tokens, from)
         == FirstExceeded(db, tx.Buckets(), tx.limits, tx.call.tokens, from)
    decreases 4 - from
  {
    hide WouldExceed, BucketsFor;
    if from < 4 { PolicyKeepsVerdict(db, tx, owner, limits, from + 1); }
  }

  lemma BooksInside(s: State, s': State, id: nat, hash: string -> int)
    requires LocksOk(s, hash) && BooksOk(s, hash) && MovesInside(s, s', id)
    requires RequestsValid(s'.history) && HolderOk(s'.db, s'.history, s'.txs[id])
    requires s'.history == s.history || s'.history == s.history + [s.txs[id].AsRequest()]
    ensures BooksOk(s', hash)
  {
    hide Answers, HolderOk, CallValid, Conserved, Replay, RequestsValid, KeyOf;
    forall t | t in s'.txs && s'.txs[t].pc == Done
      ensures Answers(s'.history, s'.txs[t], s'.txs[t].outcome)
    {
      HistoryGrows(s.history, s.txs[id].AsRequest(), s.txs[t], s.txs[t].outcome);
    }
  }

  lemma BooksOut(s: State, s': State, id: nat, hash: string -> int)
    requires LocksOk(s, hash) && BooksOk(s, hash) && MovesOut(s, s', id)
    requires RequestsValid(s'.history) && s'.db == Replay(s'.history)
    requires Answers(s'.history, s'.txs[id], s'.txs[id].outcome)
    requires s'.history == s.history || s'.history == s.history + [s.txs[id].AsRequest()]
    ensures BooksOk(s', hash)
  {
    hide Answers, HolderOk, CallValid, Conserved, Replay, RequestsValid, KeyOf;
    LocksOut(s, s', id, hash);
    RunsConserve(s'.history);
    forall t | t in s'.txs && s'.txs[t].pc == Done
      ensures Answers(s'.history, s'.txs[t], s'.txs[t].outcome)
    {
      HistoryGrows(s.history, s.txs[id].AsRequest(), s.txs[t], s.txs[t].outcome);
    }
  }

  lemma CallExtendsHistory(history: seq<Request>, tx: Tx)
    requires RequestsValid(history) && CallValid(tx.call)
    ensures RequestsValid(history + [tx.AsRequest()])
  {
    hide CallValid;
  }

  /** A step behind the global lock, up to and including the one that fixes the call's place. */
  lemma StepBeforePlace(s: State, id: nat, hash: string -> int)
    requires LocksOk(s, hash) && BooksOk(s, hash) && Enabled(s, Step(id), hash)
    requires s.txs[id].pc == CheckExisting || s.txs[id].pc == ReadPolicy
    ensures LocksOk(StepOf(s, id, hash), hash) && BooksOk(StepOf(s, id, hash), hash)
  {
    hide Reserve, BucketsFor, WouldExceed, Conserved, Replay, RequestsValid, CallValid, LocksOk, BooksOk, KeyOf,
         Answers, Effect, Verdict;
    var tx, s' := s.txs[id], StepOf(s, id, hash);
    HolderFacts(s, id, hash);
    CallExtendsHistory(s.history, tx);
    TakesPlace(s.db, s.history, tx);
    if tx.pc == CheckExisting {
      match FindReservation(s.db.reservations, tx.call.request)
      case Some(row) =>
        FoundIsReserve(s.db, tx, row);
        AnswersIgnoresState(s'.history, tx.(at := |s.history|), s'.txs[id], s'.txs[id].outcome);
        LocksOut(s, s', id, hash);
        BooksOut(s, s', id, hash);
      case None =>
        LocksInside(s, s', id, hash);
        BooksInside(s, s', id, hash);
    } else {
      var tx' := s'.txs[id];
      VerdictIsReserve(s.db, tx');
      WithoutLast(s.history, tx.AsRequest());
      AnswersIgnoresState(s'.history, tx.(at := |s.history|), tx', Verdict(s.db, tx'));
      LocksInside(s, s', id, hash);
      BooksInside(s, s', id, hash);
    }
  }

  lemma HolderFacts(s: State, id: nat, hash: string -> int)
    requires LocksOk(s, hash) && BooksOk(s, hash) && id in s.txs && s.txs[id].Holding()
    ensures HolderOk(s.db, s.history, s.txs[id]) && CallValid(s.txs[id].call)
    ensures RequestsValid(s.history) && Conserved(s.db) && PcInRange(s.txs[id].pc)
  {
    hide HolderOk, CallValid, RequestsValid, Conserved, KeyOf;
  }

  lemma FoundIsReserve(db: Database, tx: Tx, row: Reservation)
    requires FindReservation(db.reservations, tx.call.request) == Some(row)
    ensures Reserve(db, tx.call, tx.today) == (db, OwnerVerdict(row, tx.call))
  {
  }

  lemma AnswersIgnoresState(history: seq<Request>, tx: Tx, tx': Tx, outcome: Outcome)
    requires Answers(history, tx, outcome) && tx'.call == tx.call && tx'.today == tx.today && tx'.at == tx.at
    ensures Answers(history, tx', outcome)
  {
  }

  lemma VerdictIgnoresState(db: Database, tx: Tx, tx': Tx)
    requires tx'.call == tx.call && tx'.today == tx.today && tx'.limits == tx.limits
    ensures Verdict(db, tx') == Verdict(db, tx) && Effect(db, tx') == Effect(db, tx)
  {
  }

  /** The steps after that: reading counters, deciding, writing and committing. The insert can not
      hit an existing row. */
  lemma StepAfterPlace(s: State, id: nat, hash: string -> int)
    requires LocksOk(s, hash) && BooksOk(s, hash) && Enabled(s, Step(id), hash)
    requires s.txs[id].Holding() && s.txs[id].Placed()
    ensures LocksOk(StepOf(s, id, hash), hash) && BooksOk(StepOf(s, id, hash), hash)
  {
    hide Reserve, BucketsFor, WouldExceed, Conserved, Replay, RequestsValid, CallValid, LocksOk, BooksOk, KeyOf,
         Answers, Effect, Verdict, Used;
    var tx, s' := s.txs[id], StepOf(s, id, hash);
    var tx' := s'.txs[id];
    HolderFacts(s, id, hash);
    VerdictIgnoresState(s.db, tx, tx');
    AnswersIgnoresState(s.history, tx, tx', Verdict(s.db, tx));
    if tx.pc == Decide { CapturedVerdict(s.db, tx, 0); }
    VerdictUnfolds(s.db, tx);
    if tx'.pc == Done {
      LocksOut(s, s', id, hash);
      BooksOut(s, s', id, hash);
    } else {
      LocksInside(s, s', id, hash);
      BooksInside(s, s', id, hash);
    }
  }

  lemma VerdictUnfolds(db: Database, tx: Tx)
    ensures Verdict(db, tx) == (var k := FirstExceeded(db, tx.Buckets(), tx.limits, tx.call.tokens, 0);
                                if k < 4 then Outcome(false, false, ReasonFor(tx.Buckets()[k].kind)) else ACCEPTED)
    ensures Effect(db, tx) == if Verdict(db, tx) == ACCEPTED then Written(db, tx) else db
  {
  }

  /** Taking a lock changes no table and places no call. */
  lemma StepTakesLock(s: State, id: nat, hash: string -> int)
    requires LocksOk(s, hash) && BooksOk(s, hash) && Enabled(s, Step(id), hash) && s.txs[id].pc.Lock?
    ensures LocksOk(StepOf(s, id, hash), hash) && BooksOk(StepOf(s, id, hash), hash)
  {
    hide Conserved, Replay, RequestsValid, CallValid, KeyOf, Answers;
    LocksTaken(s, id, hash);
    GlobalKeyIsFirst(s.txs[id], hash);
    if s.txs[id].pc.n > 0 { HolderFacts(s, id, hash); }
  }

  lemma PolicyKeepsBooks(s: State, owner: string, limits: Limits, hash: string -> int)
    requires LocksOk(s, hash) && BooksOk(s, hash) && LimitsValid(limits)
    ensures var s' := s.(db := SetPolicy(s.db, owner, limits), history := s.history + [PolicyRequest(owner, limits)]);
            LocksOk(s', hash) && BooksOk(s', hash)
  {
    hide Conserved, Replay, CallValid, KeyOf, Answers, HolderOk, Used, RequestsValid;
    var r := PolicyRequest(owner, limits);
    PolicyKeepsTables(s.db, s.history, owner, limits);
    ReplayStep(s.history, r);
    forall id | id in s.txs && s.txs[id].Holding()
      ensures HolderOk(SetPolicy(s.db, owner, limits), s.history + [r], s.txs[id])
    {
      PolicyKeepsHolder(s.db, s.history, s.txs[id], owner, limits);
    }
    forall id | id in s.txs && s.txs[id].pc == Done
      ensures Answers(s.history + [r], s.txs[id], s.txs[id].outcome)
    {
      HistoryGrows(s.history, r, s.txs[id], s.txs[id].outcome);
    }
  }

  lemma PolicyKeepsTables(db: Database, history: seq<Request>, owner: string, limits: Limits)
    requires Conserved(db) && RequestsValid(history) && LimitsValid(limits)
    ensures Conserved(SetPolicy(db, owner, limits)) && RequestsValid(history + [PolicyRequest(owner, limits)])
  {
    hide CallValid;
    assert forall b :: Used(SetPolicy(db, owner, limits), b) == Used(db, b);
  }

  // ------------------------------------------------------------------ serial order

  lemma HolderIsLast(order: seq<nat>, txs: map<nat, Tx>, id: nat)
    requires Listed(order, txs) && id in txs && txs[id].Holding()
    ensures order != [] && order[|order| - 1] == id
    ensures forall i | 0 <= i < |order| - 1 :: order[i] != id
  {
    assert id in order;
    var i :| 0 <= i < |order| && order[i] == id;
  }

  /** The last transaction of the order changes without being placed. */
  lemma OrderSame(order: seq<nat>, txs: map<nat, Tx>, history: seq<Request>, id: nat, tx: Tx)
    requires Listed(order, txs) && Ordered(order, txs, history) && id in txs && txs[id].Holding()
    requires tx.at == txs[id].at && tx.Placed() == txs[id].Placed() && tx.Entered()
    ensures Listed(order, txs[id := tx]) && Ordered(order, txs[id := tx], history)
  {
    HolderIsLast(order, txs, id);
    forall k | 0 <= k < |history| && history[k].ReserveRequest?
      ensures Recorded(order, txs[id := tx], k)
    {
      assert Recorded(order, txs, k);
      var i :| Accounts(order, txs, i, k);
      assert Accounts(order, txs[id := tx], i, k);
    }
  }

  /** The last transaction of the order takes its place at the end of the history. */
  lemma OrderPlaces(order: seq<nat>, txs: map<nat, Tx>, history: seq<Request>, id: nat, tx: Tx)
    requires Listed(order, txs) && Ordered(order, txs, history) && id in txs && txs[id].Holding()
    requires tx.at == |history| && tx.Placed() && !txs[id].Placed() && tx.Entered()
    ensures Listed(order, txs[id := tx]) && Ordered(order, txs[id := tx], history + [tx.AsRequest()])
  {
    HolderIsLast(order, txs, id);
    var history' := history + [tx.AsRequest()];
    forall k | 0 <= k < |history'| && history'[k].ReserveRequest?
      ensures Recorded(order, txs[id := tx], k)
    {
      if k == |history| {
        assert Accounts(order, txs[id := tx], |order| - 1, k);
      } else {
        assert history'[k] == history[k] && Recorded(order, txs, k);
        var i :| Accounts(order, txs, i, k);
        assert Accounts(order, txs[id := tx], i, k);
      }
    }
  }

  /** A further transaction takes the global lock. */
  lemma OrderEnters(order: seq<nat>, txs: map<nat, Tx>, history: seq<Request>, id: nat, tx: Tx)
    requires Listed(order, txs) && Ordered(order, txs, history) && id in txs && txs[id].pc == Lock(0)
    requires forall t | t in txs :: !txs[t].Holding()
    requires !tx.Placed() && tx.Entered()
    ensures Listed(order + [id], txs[id := tx]) && Ordered(order + [id], txs[id := tx], history)
  {
    assert forall i | 0 <= i < |order| :: order[i] != id;
    forall k | 0 <= k < |history| && history[k].ReserveRequest?
      ensures Recorded(order + [id], txs[id := tx], k)
    {
      assert Recorded(order, txs, k);
      var i :| Accounts(order, txs, i, k);
      assert Accounts(order + [id], txs[id := tx], i, k);
    }
  }

  /** A transaction that holds nothing appears. */
  lemma OrderIgnoresNew(order: seq<nat>, txs: map<nat, Tx>, history: seq<Request>, id: nat, tx: Tx)
    requires Listed(order, txs) && Ordered(order, txs, history) && id !in txs && tx.pc == Lock(0)
    ensures Listed(order, txs[id := tx]) && Ordered(order, txs[id := tx], history)
  {
    forall k | 0 <= k < |history| && history[k].ReserveRequest?
      ensures Recorded(order, txs[id := tx], k)
    {
      assert Recorded(order, txs, k);
      var i :| Accounts(order, txs, i, k);
      assert Accounts(order, txs[id := tx], i, k);
    }
  }

  lemma OrderIgnoresPolicy(order: seq<nat>, txs: map<nat, Tx>, history: seq<Request>, r: Request)
    requires Listed(order, txs) && Ordered(order, txs, history) && r.PolicyRequest?
    ensures Ordered(order, txs, history + [r])
  {
    hide Recorded;
    assert forall k | 0 <= k < |history| :: (history + [r])[k] == history[k];
  }

  lemma StepKeepsOrder(s: State, id: nat, hash: string -> int)
    requires Inv(s, hash) && Enabled(s, Step(id), hash)
    ensures OrderOk(StepOf(s, id, hash))
  {
    hide KeyOf, CallValid, BucketsFor, BooksOk, Listed, Ordered, FindReservation, FirstExceededOf, Written;
    var s', tx := StepOf(s, id, hash), s.txs[id];
    if tx.pc == Lock(0) {
      LocksTaken(s, id, hash);
      OrderEnters(s.order, s.txs, s.history, id, s'.txs[id]);
    } else if s'.history != s.history {
      OrderPlaces(s.order, s.txs, s.history, id, s'.txs[id]);
    } else if s' != s {
      OrderSame(s.order, s.txs, s.history, id, s'.txs[id]);
    }
  }

  // ------------------------------------------------------------------ aborts

  /** Taking the last caller's entry out of the history disturbs no earlier answer. */
  lemma AnswersBefore(history: seq<Request>, k: nat, tx: Tx, outcome: Outcome)
    requires tx.at < k < |history|
    ensures Answers(Without(history, k), tx, outcome) <==> Answers(history, tx, outcome)
  {
    hide Reserve, Replay;
    assert Without(history, k)[..tx.at] == history[..tx.at];
  }

  /** All other transactions in the order come before the holder in the history. */
  lemma HolderIsLatest(s: State, id: nat, t: nat)
    requires OrderOk(s) && id in s.txs && s.txs[id].Holding() && s.txs[id].Placed()
    requires t in s.txs && s.txs[t].pc == Done
    ensures s.txs[t].at < s.txs[id].at < |s.history|
  {
    HolderIsLast(s.order, s.txs, id);
    assert t in s.order;
    var i :| 0 <= i < |s.order| && s.order[i] == t;
  }

  lemma AbortLocks(s: State, id: nat, hash: string -> int)
    requires LocksOk(s, hash) && id in s.txs && !s.txs[id].Ended()
    ensures LocksOk(AbortOf(s, id), hash)
    ensures s.txs[id].Holding() ==> AbortOf(s, id).locks == map[]
    ensures !s.txs[id].Holding() ==> AbortOf(s, id).locks == s.locks
  {
    hide KeyOf, CallValid, Without;
    if s.txs[id].Holding() {
      assert forall k | k in s.locks :: s.locks[k] == id;
    } else {
      assert forall k | k in s.locks :: s.locks[k] != id;
    }
  }

  lemma WithoutStaysValid(history: seq<Request>, k: nat)
    requires RequestsValid(history)
    ensures RequestsValid(Without(history, k))
  {
    hide CallValid, LimitsValid;
    var h := Without(history, k);
    assert k < |history| ==> forall i | 0 <= i < |h| :: h[i] == history[if i < k then i else i + 1];
  }

  lemma AbortBooks(s: State, id: nat, hash: string -> int)
    requires Inv(s, hash) && id in s.txs && !s.txs[id].Ended()
    ensures BooksOk(AbortOf(s, id), hash)
  {
    hide KeyOf, CallValid, Conserved, Replay, RequestsValid, Answers, OrderOk, Effect, Verdict, FindReservation, Used,
         Without;
    var s' := AbortOf(s, id);
    AbortLocks(s, id, hash);
    if s.txs[id].Holding() {
      WithoutStaysValid(s.history, s.txs[id].at);
      forall t | t in s'.txs && s'.txs[t].pc == Done
        ensures Answers(s'.history, s'.txs[t], s'.txs[t].outcome)
      {
        if s.txs[id].Placed() {
          HolderIsLatest(s, id, t);
          AnswersBefore(s.history, s.txs[id].at, s.txs[t], s.txs[t].outcome);
        }
      }
    } else {
      hide HolderOk;
    }
  }

  lemma AbortListed(order: seq<nat>, txs: map<nat, Tx>, id: nat, tx: Tx)
    requires Listed(order, txs) && id in txs && txs[id].Holding() && tx.pc == Aborted
    ensures order != [] && Listed(order[..|order| - 1], txs[id := tx])
  {
    HolderIsLast(order, txs, id);
    var front, txs' := order[..|order| - 1], txs[id := tx];
    forall t | t in txs' && txs'[t].Entered() ensures t in front {
      assert t in order;
      var i :| 0 <= i < |order| && order[i] == t;
      assert front[i] == t;
    }
  }

  /** The one who had the global lock leaves the order, and its entry leaves the history. */
  lemma AbortOrder(s: State, id: nat)
    requires OrderOk(s) && id in s.txs && s.txs[id].Holding()
    ensures OrderOk(AbortOf(s, id))
  {
    HolderIsLast(s.order, s.txs, id);
    AbortListed(s.order, s.txs, id, s.txs[id].(pc := Aborted));
    var s', tx, n := AbortOf(s, id), s.txs[id], |s.order| - 1;
    assert s'.order == s.order[..n] && Listed(s'.order, s'.txs);
    forall i | 0 <= i < n ensures s'.txs[s'.order[i]] == s.txs[s.order[i]] {}
    forall k | 0 <= k < |s'.history| && s'.history[k].ReserveRequest?
      ensures Recorded(s'.order, s'.txs, k)
    {
      RecordedWithout(s, id, k);
    }
    AbortOrdered(s, id);
  }

  lemma AbortOrdered(s: State, id: nat)
    requires OrderOk(s) && id in s.txs && s.txs[id].Holding()
    requires Listed(AbortOf(s, id).order, AbortOf(s, id).txs)
    requires var s' := AbortOf(s, id);
             forall k | 0 <= k < |s'.history| && s'.history[k].ReserveRequest? :: Recorded(s'.order, s'.txs, k)
    ensures Ordered(AbortOf(s, id).order, AbortOf(s, id).txs, AbortOf(s, id).history)
  {
    hide Recorded;
    HolderIsLast(s.order, s.txs, id);
    var s', n := AbortOf(s, id), |s.order| - 1;
    forall i | 0 <= i < n
      ensures s'.order[i] == s.order[i] && s'.txs[s'.order[i]] == s.txs[s.order[i]]
      ensures s'.txs[s'.order[i]].at < |s'.history|
    {
      assert s.txs[s.order[i]].pc == Done;
      if s.txs[id].Placed() { assert s.order[n] == id && s.txs[s.order[i]].at < s.txs[s.order[n]].at; }
    }
  }

  lemma RecordedWithout(s: State, id: nat, k: nat)
    requires OrderOk(s) && id in s.txs && s.txs[id].Holding()
    requires k < |AbortOf(s, id).history| && AbortOf(s, id).history[k].ReserveRequest?
    ensures Recorded(AbortOf(s, id).order, AbortOf(s, id).txs, k)
  {
    HolderIsLast(s.order, s.txs, id);
    var s', tx, n := AbortOf(s, id), s.txs[id], |s.order| - 1;
    var was := if tx.Placed() && k >= tx.at then k + 1 else k;
    assert s'.history[k] == s.history[was];
    assert Recorded(s.order, s.txs, was);
    var i :| Accounts(s.order, s.txs, i, was);
    assert i < n;
    assert Accounts(s'.order, s'.txs, i, k);
  }

  lemma AbortKeepsInv(s: State, id: nat, hash: string -> int)
    requires Inv(s, hash) && id in s.txs && !s.txs[id].Ended()
    ensures Inv(AbortOf(s, id), hash)
  {
    AbortLocks(s, id, hash);
    AbortBooks(s, id, hash);
    hide LocksOk, BooksOk;
    if s.txs[id].Holding() {
      AbortOrder(s, id);
    } else {
      OrderIgnoresWaiter(s.order, s.txs, s.history, id, s.txs[id].(pc := Aborted));
    }
  }

  lemma OrderIgnoresWaiter(order: seq<nat>, txs: map<nat, Tx>, history: seq<Request>, id: nat, tx: Tx)
    requires Listed(order, txs) && Ordered(order, txs, history)
             && id in txs && txs[id].pc == Lock(0) && tx.pc == Aborted
    ensures Listed(order, txs[id := tx]) && Ordered(order, txs[id := tx], history)
  {
    assert forall i | 0 <= i < |order| :: order[i] != id;
    forall k | 0 <= k < |history| && history[k].ReserveRequest?
      ensures Recorded(order, txs[id := tx], k)
    {
      assert Recorded(order, txs, k);
      var i :| Accounts(order, txs, i, k);
      assert Accounts(order, txs[id := tx], i, k);
    }
  }

  lemma BeginKeepsInv(s: State, id: nat, call: Call, today: Today, hash: string -> int)
    requires Inv(s, hash) && id !in s.txs && CallValid(call)
    ensures Inv(Next(s, Begin(id, call, today), hash), hash)
  {
    hide KeyOf, CallValid, HolderOk, Answers, Conserved, Replay, RequestsValid, Listed, Ordered;
    var s' := Next(s, Begin(id, call, today), hash);
    OrderIgnoresNew(s.order, s.txs, s.history, id, s'.txs[id]);
  }

  lemma OrderOfPolicy(s: State, owner: string, limits: Limits)
    requires OrderOk(s)
    ensures OrderOk(s.(db := SetPolicy(s.db, owner, limits), history := s.history + [PolicyRequest(owner, limits)]))
  {
    hide Listed, Ordered;
    OrderIgnoresPolicy(s.order, s.txs, s.history, PolicyRequest(owner, limits));
  }

  lemma NextKeepsInv(s: State, a: Action, hash: string -> int)
    requires Inv(s, hash)
    ensures Inv(Next(s, a, hash), hash)
  {
    hide LocksOk, BooksOk, OrderOk, CallValid, LimitsValid;
    if Enabled(s, a, hash) {
      match a
      case Begin(id, call, today) => BeginKeepsInv(s, id, call, today, hash);
      case Policy(owner, limits) =>
        PolicyKeepsBooks(s, owner, limits, hash);
        OrderOfPolicy(s, owner, limits);
      case Abort(id) => AbortKeepsInv(s, id, hash);
      case Step(id) =>
        StepKeepsOrder(s, id, hash);
        if s.txs[id].pc.Lock? {
          StepTakesLock(s, id, hash);
        } else if s.txs[id].pc == CheckExisting || s.txs[id].pc == ReadPolicy {
          StepBeforePlace(s, id, hash);
        } else {
          StepAfterPlace(s, id, hash);
        }
    }
  }

  lemma {:induction false} RunKeepsInv(acts: seq<Action>, hash: string -> int)
    ensures Inv(Run(acts, hash), hash)
  {
    if acts != [] {
      RunKeepsInv(acts[..|acts| - 1], hash);
      NextKeepsInv(Run(acts[..|acts| - 1], hash), acts[|acts| - 1], hash);
    } else {
      assert forall b :: Used(INITIAL.db, b) == Charged(INITIAL.db.reservations, b);
    }
  }

  // ------------------------------------------------------------------ the theorems

  ghost predicate Begins(a: Action, id: nat) { a.Begin? && a.id == id && CallValid(a.call) }

  /** Action `k` is the first to ask for transaction `id`, with this call on this day. */
  ghost predicate Asked(acts: seq<Action>, k: nat, id: nat, call: Call, today: Today) {
    && k < |acts| && Begins(acts[k], id) && acts[k].call == call && acts[k].today == today
    && forall j | 0 <= j < k :: !Begins(acts[j], id)
  }

  ghost predicate IsAsked(acts: seq<Action>, id: nat, call: Call, today: Today) {
    exists k: nat :: Asked(acts, k, id, call, today)
  }

  lemma NextKeepsCalls(s: State, a: Action, hash: string -> int, id: nat)
    ensures var s' := Next(s, a, hash);
            && (id in s'.txs <==> id in s.txs || Begins(a, id))
            && (id in s.txs ==> s'.txs[id].call == s.txs[id].call && s'.txs[id].today == s.txs[id].today)
            && (id !in s.txs && Begins(a, id) ==> s'.txs[id].call == a.call && s'.txs[id].today == a.today)
  {
    if a.Step? && Enabled(s, a, hash) { StepKeepsCalls(s, a.id, hash); }
    hide StepOf, CallValid, KeyOf, Release, Without, SetPolicy;
  }

  lemma StepKeepsCalls(s: State, id: nat, hash: string -> int)
    requires Enabled(s, Step(id), hash)
    ensures var txs := StepOf(s, id, hash).txs;
            && txs.Keys == s.txs.Keys && (forall i | i in s.txs && i != id :: txs[i] == s.txs[i])
            && txs[id].call == s.txs[id].call && txs[id].today == s.txs[id].today
  {
    assert id in s.txs && PcInRange(s.txs[id].pc);
    hide Enabled, BucketsFor, KeyOf, Release, Written, FirstExceededOf, EffectiveLimits, Used, FindReservation,
         OwnerVerdict, ReasonFor;
  }

  /** The transactions are what was asked for: each carries out, to the letter, the first valid call
      made under its number, and every valid call has its transaction. */
  lemma {:induction false} TransactionsAreCalls(acts: seq<Action>, hash: string -> int, id: nat)
    ensures var txs := Run(acts, hash).txs;
            && (id in txs ==> IsAsked(acts, id, txs[id].call, txs[id].today))
            && (id !in txs ==> forall j | 0 <= j < |acts| :: !Begins(acts[j], id))
  {
    if acts != [] {
      var n := |acts| - 1;
      var before, s := acts[..n], Run(acts[..n], hash);
      TransactionsAreCalls(before, hash, id);
      NextKeepsCalls(s, acts[n], hash, id);
      hide Next, Begins;
      var txs := Run(acts, hash).txs;
      assert forall j | 0 <= j < n :: before[j] == acts[j];
      if id in s.txs {
        var k: nat :| Asked(before, k, id, s.txs[id].call, s.txs[id].today);
        assert Asked(acts, k, id, txs[id].call, txs[id].today);
      } else if id in txs {
        assert Asked(acts, n, id, txs[id].call, txs[id].today);
      }
    }
  }

  /** Nobody is between the first lock and the commit. */
  predicate Quiet(s: State) { forall id | id in s.txs :: !s.txs[id].Holding() }

  /** Serialisability. In every interleaving, aborts included, there is a serial history whose
      reservations are the calls of exactly the transactions that got the global lock and did not
      abort, one entry each, in the order in which they got it. Each finished transaction got the
      answer that it gives when run whole at its place, and whenever no transaction is in flight the
      committed tables are those of the serial history. */
  lemma Serialisable(acts: seq<Action>, hash: string -> int)
    ensures var s := Run(acts, hash);
            && RequestsValid(s.history)
            && Listed(s.order, s.txs) && Ordered(s.order, s.txs, s.history)
            && (Quiet(s) ==> s.db == Replay(s.history))
            && (forall id | id in s.txs && s.txs[id].pc == Done :: Answers(s.history, s.txs[id], s.txs[id].outcome))
  {
    hide KeyOf, CallValid, HolderOk, Conserved, Replay, RequestsValid;
    RunKeepsInv(acts, hash);
  }

  /** A rollback leaves no trace: the tables stay, and the aborted transaction is not among those
      whose calls make up the serial history. */
  lemma AbortLeavesTables(acts: seq<Action>, hash: string -> int, id: nat)
    ensures var s, s' := Run(acts, hash), Run(acts + [Abort(id)], hash);
            && s'.db == s.db
            && (Quiet(s') ==> Replay(s'.history) == s.db)
            && (id in s.txs && !s.txs[id].Ended() ==>
                  id in s'.txs && s'.txs[id].pc == Aborted && id !in s'.order
                  && Listed(s'.order, s'.txs) && Ordered(s'.order, s'.txs, s'.history))
  {
    assert (acts + [Abort(id)])[..|acts|] == acts;
    Serialisable(acts + [Abort(id)], hash);
    hide Replay, Quiet, Answers, Ordered;
  }

  /** The books balance in the committed tables at every moment of every interleaving. */
  lemma AlwaysConserved(acts: seq<Action>, hash: string -> int)
    ensures Conserved(Run(acts, hash).db)
  {
    RunKeepsInv(acts, hash);
  }

  /** The branch behind `ON CONFLICT DO NOTHING` is dead: no insert ever meets an existing row. */
  lemma InsertNeverConflicts(acts: seq<Action>, hash: string -> int, id: nat)
    requires var s := Run(acts, hash); id in s.txs && s.txs[id].pc == Insert
    ensures var s := Run(acts, hash); FindReservation(s.db.reservations, s.txs[id].call.request).None?
  {
    RunKeepsInv(acts, hash);
    HolderFacts(Run(acts, hash), id, hash);
  }

  /** How many more steps a transaction has at most. */
  function Rank(pc: Pc): nat {
    match pc
    case Lock(n) => if n < 4 then 20 - n else 16
    case CheckExisting => 15
    case ReadPolicy => 14
    case ReadCounter(n) => if n < 4 then 13 - n else 9
    case Decide => 8
    case Insert => 7
    case Upsert(n) => if n < 4 then 6 - n else 2
    case Commit => 1
    case Done => 0
    case Aborted => 0
  }

  /** No deadlock: while any reservation is unfinished, some reservation can take a step; a
      transaction that waits for a lock waits for one that is itself free to go on; and every
      step brings its transaction strictly closer to its end. */
  lemma NoDeadlock(acts: seq<Action>, hash: string -> int, id: nat)
    requires id in Run(acts, hash).txs && !Run(acts, hash).txs[id].Ended()
    ensures var s := Run(acts, hash);
            exists w :: Enabled(s, Step(w), hash) && (w == id || !Enabled(s, Step(id), hash))
                        && Rank(StepOf(s, w, hash).txs[w].pc) < Rank(s.txs[w].pc)
  {
    hide CallValid, BucketsFor, KeyOf, BooksOk, OrderOk;
    RunKeepsInv(acts, hash);
    var s, g := Run(acts, hash), GlobalKey(hash);
    GlobalKeyIsFirst(s.txs[id], hash);
    if Enabled(s, Step(id), hash) {
      StepsEnd(s, id, hash);
    } else {
      var w := s.locks[g];
      assert w in s.txs && s.txs[w].Holding();
      assert Enabled(s, Step(w), hash);
      StepsEnd(s, w, hash);
    }
  }

  lemma StepsEnd(s: State, id: nat, hash: string -> int)
    requires Inv(s, hash) && Enabled(s, Step(id), hash)
    ensures id in StepOf(s, id, hash).txs && Rank(StepOf(s, id, hash).txs[id].pc) < Rank(s.txs[id].pc)
  {
    if s.txs[id].pc == Decide { DecidesOnFour(s, id, hash); }
    StepAdvances(s, id, hash);
  }

  lemma StepAdvances(s: State, id: nat, hash: string -> int)
    requires Enabled(s, Step(id), hash) && (s.txs[id].pc == Decide ==> |s.txs[id].used| == 4)
    ensures id in StepOf(s, id, hash).txs && Rank(StepOf(s, id, hash).txs[id].pc) < Rank(s.txs[id].pc)
  {
    hide KeyOf, BucketsFor, FindReservation, FirstExceededOf, EffectiveLimits, OwnerVerdict, Written, Release, Used;
  }

  lemma DecidesOnFour(s: State, id: nat, hash: string -> int)
    requires Inv(s, hash) && id in s.txs && s.txs[id].pc == Decide
    ensures |s.txs[id].used| == 4
  {
    HolderFacts(s, id, hash);
    hide Inv, Answers, Replay, Effect, Verdict, FindReservation;
  }
}
