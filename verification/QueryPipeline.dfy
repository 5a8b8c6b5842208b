/** The durable query pipeline: `server/src/ai_query_service.cpp` on top of the repositories.

    Every run writes its rows under keys derived from the request id, so retries and concurrent
    runs of one request share them. The repositories' transactions are atomic here;
    `PostgresConcurrency` and `MessageConcurrency` prove that they behave as if they were. */
module QueryPipeline {
  import opened Common
  import B = PostgresBudget
  import M = MessageLog

  datatype LogRow = LogRow(owner: string, conversation: string, status: string, response: string)
  datatype TraceRow = TraceRow(owner: string, status: string)
  datatype LedgerRow = LedgerRow(id: string, owner: string, request: string, promptTokens: int, completionTokens: int)

  /** The tables; the key columns of logs and traces are map keys. */
  datatype Database = Database(
    talk: M.Tables,
    logs: map<string, LogRow>,
    traces: map<string, TraceRow>,
    budget: B.Database,
    ledger: seq<LedgerRow>)

  function UserMessageId(request: string): string { "msg-user-" + request }
  function AssistantMessageId(request: string): string { "msg-assistant-" + request }
  function TraceId(request: string): string { "trace-" + request }
  function UsageId(request: string): string { "usage-" + request }

  function EstimateTokens(question: string): nat { 64 + |question| / 4 }

  // ------------------------------------------------------------------ repository calls

  /** `createQueryLog` and, on a duplicate id, the ownership check that follows it. */
  function CreateLog(db: Database, owner: string, conversation: string, request: string): (Database, bool) {
    if request in db.logs then (db, db.logs[request].owner == owner)
    else (db.(logs := db.logs[request := LogRow(owner, conversation, "running", "")]), true)
  }

  function CreateTrace(db: Database, owner: string, request: string): (Database, bool) {
    var id := TraceId(request);
    if id in db.traces then (db, db.traces[id].owner == owner)
    else (db.(traces := db.traces[id := TraceRow(owner, "running")]), true)
  }

  /** `updateQueryLog`: only the owner's row. */
  function UpdateLog(db: Database, owner: string, request: string, status: string, response: string): Database {
    if request in db.logs && db.logs[request].owner == owner
    then db.(logs := db.logs[request := db.logs[request].(status := status, response := response)])
    else db
  }

  function UpdateTrace(db: Database, owner: string, request: string, status: string): Database {
    var id := TraceId(request);
    if id in db.traces && db.traces[id].owner == owner
    then db.(traces := db.traces[id := db.traces[id].(status := status)])
    else db
  }

  function Append(db: Database, id: string, owner: string, conversation: string, role: string,
                  content: string): Database {
    db.(talk := M.AppendMessage(db.talk, M.Append(id, owner, conversation, role, content)).0)
  }

  /** `appendTokenUsageLedger`: a duplicate id is skipped. */
  function AppendLedger(db: Database, row: LedgerRow): Database { db.(ledger := WithRow(db.ledger, row)) }

  function WithRow(ledger: seq<LedgerRow>, row: LedgerRow): seq<LedgerRow> {
    if exists i :: 0 <= i < |ledger| && ledger[i].id == row.id then ledger else ledger + [row]
  }

  // ------------------------------------------------------------------ runs

  datatype Pc =
    | Ensure | MakeLog | MakeTrace       // beginDurableRows
    | Reserve                            // reserveBudgetOrReject
    | RejectLog(reason: string) | RejectTrace | RejectFlag
    | Work                               // the agent is at work
    | Finalize(status: string, response: string, error: string)   // entry of finalizeDurableQuery
    | AddUser(status: string, response: string, error: string)
    | AddAssistant(status: string, response: string, error: string)
    | CloseLog(status: string, response: string, error: string)
    | CloseTrace(status: string, response: string)
    | AddLedger(response: string)
    | Ended

  /** A `DurableQueryRun`. `terminalWrites` counts the terminal states it has written to its log row. */
  datatype Run = Run(owner: string, conversation: string, request: string, question: string,
                     pc: Pc, finalized: bool, terminalWrites: nat)
  {
    function Call(limits: B.Limits): B.Call { B.Call(owner, conversation, request, EstimateTokens(question), limits) }
  }

  datatype State = State(db: Database, runs: seq<Run>)

  /** `Deliver` ends the agent's work with a status and a response; `Crash` is an exception caught by
      the pipeline's guard, which aborts the run. */
  datatype Action =
    | Start(owner: string, conversation: string, request: string, question: string)
    | Step(i: nat, today: B.Today)
    | Deliver(i: nat, status: string, response: string, error: string)
    | Crash(i: nat)

  /** What `abortDurableRun` records; the exception text is left out. */
  const ABORTED := "Pipeline aborted"

  function Usage(run: Run, response: string): LedgerRow {
    LedgerRow(UsageId(run.request), run.owner, run.request, EstimateTokens(run.question), |response| / 4)
  }

  /** One step of one run. `limits` are the configured budget limits; when they are invalid,
      `reserve` throws and the guard finalizes the run as failed. */
  function StepOf(db: Database, run: Run, today: B.Today, limits: B.Limits): (Database, Run) {
    match run.pc
    case Ensure =>
      var (talk, ok) := M.EnsureConversation(db.talk, run.owner, run.conversation);
      (db.(talk := talk), run.(pc := if ok then MakeLog else Ended))
    case MakeLog =>
      var (db', ok) := CreateLog(db, run.owner, run.conversation, run.request);
      (db', run.(pc := if ok then MakeTrace else Ended))
    case MakeTrace =>
      var (db', ok) := CreateTrace(db, run.owner, run.request);
      (db', run.(pc := if ok then Reserve else Ended))
    case Reserve =>
      if !B.CallValid(run.Call(limits)) then (db, run.(pc := Finalize("failed", "", ABORTED)))
      else
        var (budget, outcome) := B.Reserve(db.budget, run.Call(limits), today);
        (db.(budget := budget), run.(pc := if outcome.accepted then Work else RejectLog(outcome.reason)))
    case RejectLog(reason) =>
      (UpdateLog(db, run.owner, run.request, "rejected", reason),
       run.(pc := RejectTrace, terminalWrites := run.terminalWrites + 1))
    case RejectTrace => (UpdateTrace(db, run.owner, run.request, "rejected"), run.(pc := RejectFlag))
    case RejectFlag => (db, run.(pc := Ended, finalized := true))
    case Work => (db, run)
    case Finalize(status, response, error) =>
      (db, if run.finalized then run.(pc := Ended) else run.(pc := AddUser(status, response, error), finalized := true))
    case AddUser(status, response, error) =>
      (Append(db, UserMessageId(run.request), run.owner, run.conversation, "user", run.question),
       run.(pc := if response == "" then CloseLog(status, response, error) else AddAssistant(status, response, error)))
    case AddAssistant(status, response, error) =>
      (Append(db, AssistantMessageId(run.request), run.owner, run.conversation, "assistant", response),
       run.(pc := CloseLog(status, response, error)))
    case CloseLog(status, response, error) =>
      (UpdateLog(db, run.owner, run.request, status, if response == "" then error else response),
       run.(pc := CloseTrace(status, response), terminalWrites := run.terminalWrites + 1))
    case CloseTrace(status, response) =>
      (UpdateTrace(db, run.owner, run.request, status), run.(pc := AddLedger(response)))
    case AddLedger(response) => (AppendLedger(db, Usage(run, response)), run.(pc := Ended))
    case Ended => (db, run)
  }

  /** One action. Ids are non-empty and free of NUL. A crash is possible while the agent works and
      after the run has ended its durable part; store faults are not modelled. */
  function Next(s: State, a: Action, limits: B.Limits): State {
    match a
    case Start(owner, conversation, request, question) =>
      if B.ValidId(owner) && B.ValidId(conversation) && B.ValidId(request)
      then s.(runs := s.runs + [Run(owner, conversation, request, question, Ensure, false, 0)])
      else s
    case Step(i, today) =>
      if i >= |s.runs| then s
      else
        var (db, run) := StepOf(s.db, s.runs[i], today, limits);
        State(db, s.runs[i := run])
    case Deliver(i, status, response, error) =>
      if i < |s.runs| && s.runs[i].pc == Work
      then s.(runs := s.runs[i := s.runs[i].(pc := Finalize(status, response, error))]) else s
    case Crash(i) =>
      if i < |s.runs| && (s.runs[i].pc == Work || (s.runs[i].pc == Ended && s.runs[i].finalized))
      then s.(runs := s.runs[i := s.runs[i].(pc := Finalize("failed", "", ABORTED))]) else s
  }

  const EMPTY := Database(M.Tables(map[], []), map[], map[], B.Database([], map[], map[]), [])

  function Execute(acts: seq<Action>, limits: B.Limits): State {
    if acts == [] then State(EMPTY, []) else Next(Execute(acts[..|acts| - 1], limits), acts[|acts| - 1], limits)
  }

  /** The starts with usable ids, in order. */
  ghost function Starts(acts: seq<Action>): seq<Action> {
    if acts == [] then []
    else
      var a := acts[|acts| - 1];
      Starts(acts[..|acts| - 1]) + if IsStart(a) then [a] else []
  }

  ghost predicate IsStart(a: Action) {
    a.Start? && B.ValidId(a.owner) && B.ValidId(a.conversation) && B.ValidId(a.request)
  }

  lemma NextKeepsQuestions(s: State, a: Action, limits: B.Limits)
    ensures var s' := Next(s, a, limits);
            && |s'.runs| == |s.runs| + (if IsStart(a) then 1 else 0)
            && (IsStart(a) ==>
                  var run := s'.runs[|s.runs|];
                  a == Start(run.owner, run.conversation, run.request, run.question))
            && (forall i | 0 <= i < |s.runs| ::
                  && s'.runs[i].owner == s.runs[i].owner && s'.runs[i].conversation == s.runs[i].conversation
                  && s'.runs[i].request == s.runs[i].request && s'.runs[i].question == s.runs[i].question)
  {
    hide B.ValidId, B.Reserve, B.CallValid, M.EnsureConversation, CreateLog, CreateTrace, UpdateLog, UpdateTrace,
         Append, AppendLedger, Usage;
  }

  /** The runs are the starts, in their order: each keeps its owner, conversation, request and question
      to the end. */
  lemma {:induction false} RunsAreStarts(acts: seq<Action>, limits: B.Limits)
    ensures |Execute(acts, limits).runs| == |Starts(acts)|
    ensures forall i | 0 <= i < |Starts(acts)| ::
              var run := Execute(acts, limits).runs[i];
              Starts(acts)[i] == Start(run.owner, run.conversation, run.request, run.question)
  {
    if acts != [] {
      var n := |acts| - 1;
      RunsAreStarts(acts[..n], limits);
      NextKeepsQuestions(Execute(acts[..n], limits), acts[n], limits);
      hide Next, IsStart;
    }
  }

  // ------------------------------------------------------------------ the invariant

  /** The request's log row exists and belongs to `owner`. */
  ghost predicate LogOwned(db: Database, request: string, owner: string) {
    request in db.logs && db.logs[request].owner == owner
  }

  ghost predicate Reserved(db: Database, request: string, owner: string) {
    B.FindReservation(db.budget.reservations, request).Some?
    && B.FindReservation(db.budget.reservations, request).value.owner == owner
  }

  /** Where every message, ledger row and reservation comes from: a request whose log row belongs to
      the same owner, and (`backed`) one with an accepted reservation. */
  ghost predicate Rooted(db: Database, backed: bool) {
    && (forall m | m in db.talk.messages :: MessageRooted(db, m, backed))
    && (forall l | l in db.ledger ::
          l.id == UsageId(l.request) && LogOwned(db, l.request, l.owner)
          && (backed ==> Reserved(db, l.request, l.owner)))
    && (forall r | r in db.budget.reservations :: LogOwned(db, r.request, r.owner))
    && (forall t | t in db.traces :: exists r :: t == TraceId(r) && LogOwned(db, r, db.traces[t].owner))
  }

  ghost predicate MessageRooted(db: Database, m: M.Message, backed: bool) {
    exists r :: IsMessageOf(m, r) && LogOwned(db, r, m.owner) && (backed ==> Reserved(db, r, m.owner))
  }

  ghost predicate IsMessageOf(m: M.Message, request: string) {
    m.id == (if m.role == "user" then UserMessageId(request) else AssistantMessageId(request))
  }

  ghost predicate AtMostOnce(db: Database) {
    && M.Gapless(db.talk)
    && (forall i, j | 0 <= i < j < |db.ledger| :: db.ledger[i].id != db.ledger[j].id)
    && B.Conserved(db.budget)
  }

  /** The run is about to write messages or the ledger, or is committed to doing so. */
  predicate Writing(run: Run) {
    || run.pc == Work || run.pc.AddUser? || run.pc.AddAssistant? || run.pc.CloseLog? || run.pc.CloseTrace?
    || run.pc.AddLedger? || (run.pc.Finalize? && !run.finalized)
  }

  ghost predicate RunOk(db: Database, run: Run, backed: bool) {
    && B.ValidId(run.owner) && B.ValidId(run.conversation) && B.ValidId(run.request)
    && (run.finalized || (run.pc != Ensure && run.pc != MakeLog && run.pc != Ended) ==>
          LogOwned(db, run.request, run.owner))
    && (backed && Writing(run) ==> Reserved(db, run.request, run.owner))
    && run.terminalWrites <= 1
    && (run.terminalWrites == 1 ==> run.finalized || run.pc == RejectTrace || run.pc == RejectFlag)
    && (run.finalized ==> run.pc.Finalize? || run.pc.AddUser? || run.pc.AddAssistant? || run.pc.CloseLog?
                          || run.pc.CloseTrace? || run.pc.AddLedger? || run.pc == Ended)
    && (run.pc.AddUser? || run.pc.AddAssistant? || run.pc.CloseLog? ==> run.terminalWrites == 0 && run.finalized)
    && (run.pc.CloseTrace? || run.pc.AddLedger? ==> run.finalized)
  }

  ghost predicate Inv(s: State, limits: B.Limits) {
    var backed := B.LimitsValid(limits);
    && Rooted(s.db, backed) && AtMostOnce(s.db)
    && forall i | 0 <= i < |s.runs| :: RunOk(s.db, s.runs[i], backed)
  }

  // ------------------------------------------------------------------ what steps preserve

  /** Log ownership and reservations are never lost. */
  ghost predicate Grows(db: Database, db': Database) {
    && (forall r, o | LogOwned(db, r, o) :: LogOwned(db', r, o))
    && (forall r, o | Reserved(db, r, o) :: Reserved(db', r, o))
  }

  lemma RunOkGrows(db: Database, db': Database, run: Run, backed: bool)
    requires RunOk(db, run, backed) && Grows(db, db')
    ensures RunOk(db', run, backed)
  {
    hide LogOwned, Reserved;
  }

  /** Old rows stay rooted when ownership and reservations only grow. */
  lemma RootedGrows(db: Database, db': Database, backed: bool)
    requires Rooted(db, backed) && Grows(db, db')
    requires db'.talk.messages == db.talk.messages && db'.ledger == db.ledger
    requires forall r | r in db'.budget.reservations :: r in db.budget.reservations || LogOwned(db', r.request, r.owner)
    requires forall t | t in db'.traces ::
               (t in db.traces && db'.traces[t].owner == db.traces[t].owner)
               || exists r :: t == TraceId(r) && LogOwned(db', r, db'.traces[t].owner)
    ensures Rooted(db', backed)
  {
    hide LogOwned, Reserved, IsMessageOf, TraceId, UsageId;
    forall m | m in db'.talk.messages
      ensures MessageRooted(db', m, backed)
    {
      assert MessageRooted(db, m, backed);
      var r :| IsMessageOf(m, r) && LogOwned(db, r, m.owner) && (backed ==> Reserved(db, r, m.owner));
      assert IsMessageOf(m, r) && LogOwned(db', r, m.owner);
    }
    forall t | t in db'.traces
      ensures exists r :: t == TraceId(r) && LogOwned(db', r, db'.traces[t].owner)
    {
      if t in db.traces && db'.traces[t].owner == db.traces[t].owner {
        var r :| t == TraceId(r) && LogOwned(db, r, db.traces[t].owner);
        assert t == TraceId(r) && LogOwned(db', r, db'.traces[t].owner);
      }
    }
  }

  lemma ReservationsStay(budget: B.Database, call: B.Call, today: B.Today, request: string)
    ensures B.FindReservation(budget.reservations, request).Some? ==>
              B.FindReservation(B.Reserve(budget, call, today).0.reservations, request) ==
              B.FindReservation(budget.reservations, request)
    ensures B.Reserve(budget, call, today).1.accepted ==>
              && B.FindReservation(B.Reserve(budget, call, today).0.reservations, call.request).Some?
              && B.FindReservation(B.Reserve(budget, call, today).0.reservations, call.request).value.owner
                   == call.owner
    ensures forall r | r in B.Reserve(budget, call, today).0.reservations ::
              r in budget.reservations || r == B.Row(call, today)
  {
    hide B.BucketsFor, B.WouldExceed;
    var rows := B.Reserve(budget, call, today).0.reservations;
    if rows != budget.reservations {
      assert rows[..|rows| - 1] == budget.reservations;
    }
  }

  /** An append adds at most one message, under the given id and owner. */
  lemma AppendAdds(talk: M.Tables, a: M.Append)
    ensures forall m | m in M.AppendMessage(talk, a).0.messages ::
              m in talk.messages || (m.id == a.id && m.owner == a.owner && m.role == a.role)
  {
    hide M.MaxSequence, M.FindMessage;
  }

  lemma AppendStep(db: Database, run: Run, id: string, role: string, content: string, backed: bool)
    requires Rooted(db, backed) && AtMostOnce(db) && LogOwned(db, run.request, run.owner)
    requires backed ==> Reserved(db, run.request, run.owner)
    requires id == (if role == "user" then UserMessageId(run.request) else AssistantMessageId(run.request))
    ensures var db' := Append(db, id, run.owner, run.conversation, role, content);
            Grows(db, db') && Rooted(db', backed) && AtMostOnce(db')
  {
    hide M.Gapless, M.AppendMessage, B.Conserved, LogOwned, Reserved, UserMessageId, AssistantMessageId, UsageId,
         TraceId;
    var a := M.Append(id, run.owner, run.conversation, role, content);
    var db' := Append(db, id, run.owner, run.conversation, role, content);
    M.AppendKeepsGapless(db.talk, a);
    AppendAdds(db.talk, a);
    SameOwnership(db, db');
    forall m | m in db'.talk.messages
      ensures MessageRooted(db', m, backed)
    {
      if m in db.talk.messages {
        assert MessageRooted(db, m, backed);
        var r :| IsMessageOf(m, r) && LogOwned(db, r, m.owner) && (backed ==> Reserved(db, r, m.owner));
        assert IsMessageOf(m, r) && LogOwned(db', r, m.owner);
      } else {
        assert IsMessageOf(m, run.request) && LogOwned(db', run.request, m.owner);
      }
    }
  }

  lemma SameOwnership(db: Database, db': Database)
    requires db'.logs == db.logs && db'.budget == db.budget
    ensures forall r, o :: LogOwned(db, r, o) <==> LogOwned(db', r, o)
    ensures forall r, o :: Reserved(db, r, o) <==> Reserved(db', r, o)
  {
  }

  lemma LedgerStep(db: Database, run: Run, response: string, backed: bool)
    requires Rooted(db, backed) && AtMostOnce(db) && LogOwned(db, run.request, run.owner)
    requires backed ==> Reserved(db, run.request, run.owner)
    ensures var db' := AppendLedger(db, Usage(run, response));
            Grows(db, db') && Rooted(db', backed) && AtMostOnce(db')
  {
    hide M.Gapless, B.Conserved, LogOwned, Reserved, MessageRooted, UsageId, TraceId;
    var db' := AppendLedger(db, Usage(run, response));
    SameOwnership(db, db');
    forall m | m in db'.talk.messages ensures MessageRooted(db', m, backed) {
      assert MessageRooted(db, m, backed);
      SameMessageRoot(db, db', m, backed);
    }
  }

  lemma SameMessageRoot(db: Database, db': Database, m: M.Message, backed: bool)
    requires db'.logs == db.logs && db'.budget == db.budget && MessageRooted(db, m, backed)
    ensures MessageRooted(db', m, backed)
  {
    var r :| IsMessageOf(m, r) && LogOwned(db, r, m.owner) && (backed ==> Reserved(db, r, m.owner));
    assert IsMessageOf(m, r) && LogOwned(db', r, m.owner);
  }

  lemma ReserveStep(db: Database, run: Run, today: B.Today, limits: B.Limits, backed: bool)
    requires Rooted(db, backed) && AtMostOnce(db) && LogOwned(db, run.request, run.owner)
             && B.CallValid(run.Call(limits))
    ensures var (budget, outcome) := B.Reserve(db.budget, run.Call(limits), today);
            var db' := db.(budget := budget);
            && Grows(db, db') && Rooted(db', backed) && AtMostOnce(db')
            && (outcome.accepted ==> Reserved(db', run.request, run.owner))
  {
    hide B.Reserve, B.Conserved, M.Gapless;
    var call := run.Call(limits);
    B.ReserveConserves(db.budget, call, today);
    forall r, o | Reserved(db, r, o) ensures Reserved(db.(budget := B.Reserve(db.budget, call, today).0), r, o) {
      ReservationsStay(db.budget, call, today, r);
    }
    ReservationsStay(db.budget, call, today, run.request);
    RootedGrows(db, db.(budget := B.Reserve(db.budget, call, today).0), backed);
  }

  lemma BeginStep(db: Database, run: Run, today: B.Today, limits: B.Limits, backed: bool)
    requires Rooted(db, backed) && AtMostOnce(db) && RunOk(db, run, backed)
    requires run.pc == Ensure || run.pc == MakeLog || run.pc == MakeTrace
    ensures var (db', run') := StepOf(db, run, today, limits);
            Grows(db, db') && Rooted(db', backed) && AtMostOnce(db') && RunOk(db', run', backed)
  {
    hide M.Gapless, B.Conserved, B.Reserve, B.ValidId, B.CallValid, B.FindReservation, Rooted, MessageRooted;
    M.EnsureKeepsGapless(db.talk, run.owner, run.conversation);
    var (db', run') := StepOf(db, run, today, limits);
    assert Grows(db, db');
    RootedGrows(db, db', backed);
  }

  /** Log and trace updates change no owner. */
  lemma UpdateStep(db: Database, db': Database, backed: bool)
    requires Rooted(db, backed) && AtMostOnce(db)
    requires db'.talk == db.talk && db'.ledger == db.ledger && db'.budget == db.budget
    requires db'.logs.Keys == db.logs.Keys && forall r | r in db.logs :: db'.logs[r].owner == db.logs[r].owner
    requires db'.traces.Keys == db.traces.Keys && forall t | t in db.traces :: db'.traces[t].owner == db.traces[t].owner
    ensures Grows(db, db') && Rooted(db', backed) && AtMostOnce(db')
  {
    hide M.Gapless, B.Conserved, B.FindReservation;
    assert Grows(db, db');
    RootedGrows(db, db', backed);
  }

  lemma StepKeeps(db: Database, run: Run, today: B.Today, limits: B.Limits)
    requires var backed := B.LimitsValid(limits); Rooted(db, backed) && AtMostOnce(db) && RunOk(db, run, backed)
    ensures var backed := B.LimitsValid(limits);
            var (db', run') := StepOf(db, run, today, limits);
            Grows(db, db') && Rooted(db', backed) && AtMostOnce(db') && RunOk(db', run', backed)
  {
    hide Rooted, AtMostOnce, B.Reserve, B.ValidId, B.LimitsValid, LogOwned, Reserved, Append, AppendLedger, CreateLog,
         CreateTrace, B.CallValid;
    var backed := B.LimitsValid(limits);
    var (db', run') := StepOf(db, run, today, limits);
    if run.pc == Ensure || run.pc == MakeLog || run.pc == MakeTrace {
      BeginStep(db, run, today, limits, backed);
    } else if run.pc == Reserve {
      InvalidCallMeansInvalidLimits(run, limits);
      if B.CallValid(run.Call(limits)) { ReserveStep(db, run, today, limits, backed); }
    } else if run.pc.AddUser? {
      AppendStep(db, run, UserMessageId(run.request), "user", run.question, backed);
      RunOkGrows(db, db', run, backed);
    } else if run.pc.AddAssistant? {
      AppendStep(db, run, AssistantMessageId(run.request), "assistant", run.pc.response, backed);
      RunOkGrows(db, db', run, backed);
    } else if run.pc.AddLedger? {
      LedgerStep(db, run, run.pc.response, backed);
    } else {
      UpdateStep(db, db', backed);
      RunOkGrows(db, db', run, backed);
    }
  }

  lemma InvalidCallMeansInvalidLimits(run: Run, limits: B.Limits)
    requires B.ValidId(run.owner) && B.ValidId(run.conversation) && B.ValidId(run.request)
    ensures B.CallValid(run.Call(limits)) <==> B.LimitsValid(limits)
  {
  }

  lemma NextKeepsInv(s: State, a: Action, limits: B.Limits)
    requires Inv(s, limits)
    ensures Inv(Next(s, a, limits), limits)
  {
    hide Rooted, AtMostOnce, StepOf, B.ValidId, LogOwned, Reserved, B.LimitsValid;
    match a
    case Step(i, today) =>
      if i < |s.runs| {
        hide RunOk;
        StepKeeps(s.db, s.runs[i], today, limits);
        var s' := Next(s, a, limits);
        forall j | 0 <= j < |s'.runs|
          ensures RunOk(s'.db, s'.runs[j], B.LimitsValid(limits))
        {
          if j != i { RunOkGrows(s.db, s'.db, s.runs[j], B.LimitsValid(limits)); }
        }
      }
    case Start(_, _, _, _) =>
    case Deliver(_, _, _, _) =>
    case Crash(_) =>
  }

  lemma {:induction false} ExecuteKeepsInv(acts: seq<Action>, limits: B.Limits)
    ensures Inv(Execute(acts, limits), limits)
  {
    if acts != [] {
      hide Inv;
      ExecuteKeepsInv(acts[..|acts| - 1], limits);
      NextKeepsInv(Execute(acts[..|acts| - 1], limits), acts[|acts| - 1], limits);
    } else {
      assert forall b :: B.Used(EMPTY.budget, b) == B.Charged(EMPTY.budget.reservations, b);
    }
  }

  /** Messages, ledger rows and reservations are never changed or withdrawn, by whatever follows. */
  lemma {:induction false} EffectsAreFinal(acts: seq<Action>, more: seq<Action>, limits: B.Limits)
    ensures var db, db' := Execute(acts, limits).db, Execute(acts + more, limits).db;
            && db.talk.messages <= db'.talk.messages
            && db.ledger <= db'.ledger
            && db.budget.reservations <= db'.budget.reservations
  {
    if more == [] {
      assert acts + more == acts;
    } else {
      hide Next;
      var n := |more| - 1;
      EffectsAreFinal(acts, more[..n], limits);
      assert (acts + more)[..|acts + more| - 1] == acts + more[..n];
      NextOnlyAdds(Execute(acts + more[..n], limits), more[n], limits);
    }
  }

  lemma NextOnlyAdds(s: State, a: Action, limits: B.Limits)
    ensures var db, db' := s.db, Next(s, a, limits).db;
            && db.talk.messages <= db'.talk.messages
            && db.ledger <= db'.ledger
            && db.budget.reservations <= db'.budget.reservations
  {
    hide StepOf, B.ValidId;
    match a
    case Step(i, today) => if i < |s.runs| { StepOnlyAdds(s.db, s.runs[i], today, limits); }
    case _ =>
  }

  lemma StepOnlyAdds(db: Database, run: Run, today: B.Today, limits: B.Limits)
    ensures var db' := StepOf(db, run, today, limits).0;
            && db.talk.messages <= db'.talk.messages
            && db.ledger <= db'.ledger
            && db.budget.reservations <= db'.budget.reservations
  {
    hide B.BucketsFor, B.WouldExceed, B.AddFirst, M.NewMessage, M.FindMessage, B.FindReservation, B.CallValid,
         B.FirstExceeded, B.EffectiveLimits, UserMessageId, AssistantMessageId, UsageId, TraceId;
  }

  // ------------------------------------------------------------------ the theorems

  /** Retries and concurrent runs have each effect at most once: over any interleaving each request
      has at most one reservation, one ledger row, one user message and one assistant message; all
      of them belong to the owner of its log row; the budget counters charge exactly the
      reservations; and conversations stay gapless. */
  lemma EffectsHappenAtMostOnce(acts: seq<Action>, limits: B.Limits, request: string)
    ensures var db := Execute(acts, limits).db;
            && (forall i, j | 0 <= i < |db.ledger| && 0 <= j < |db.ledger|
                  && db.ledger[i].request == request && db.ledger[j].request == request :: i == j)
            && (forall i, j | 0 <= i < |db.budget.reservations| && 0 <= j < |db.budget.reservations|
                  && db.budget.reservations[i].request == request
                  && db.budget.reservations[j].request == request :: i == j)
            && (forall i, j | 0 <= i < |db.talk.messages| && 0 <= j < |db.talk.messages|
                  && db.talk.messages[i].id == db.talk.messages[j].id :: i == j)
            && (forall l | l in db.ledger && l.request == request :: LogOwned(db, request, l.owner))
            && (forall r | r in db.budget.reservations && r.request == request :: LogOwned(db, request, r.owner))
            && (forall m | m in db.talk.messages &&
                  (m.id == UserMessageId(request) || m.id == AssistantMessageId(request)) ::
                  LogOwned(db, request, m.owner))
            && B.Conserved(db.budget) && M.Gapless(db.talk)
  {
    ExecuteKeepsInv(acts, limits);
    var db := Execute(acts, limits).db;
    forall m | m in db.talk.messages && (m.id == UserMessageId(request) || m.id == AssistantMessageId(request))
      ensures LogOwned(db, request, m.owner)
    {
      MessageOwner(db, m, request, B.LimitsValid(limits));
    }
  }

  lemma MessageOwner(db: Database, m: M.Message, request: string, backed: bool)
    requires MessageRooted(db, m, backed) && (m.id == UserMessageId(request) || m.id == AssistantMessageId(request))
    ensures LogOwned(db, request, m.owner) && (backed ==> Reserved(db, request, m.owner))
  {
    hide LogOwned, Reserved;
    var r :| IsMessageOf(m, r) && LogOwned(db, r, m.owner) && (backed ==> Reserved(db, r, m.owner));
    assert m.id[4] == (if m.role == "user" then 'u' else 'a');
    assert r == if m.role == "user" then m.id[9..] else m.id[14..];
    assert request == if m.id == UserMessageId(request) then m.id[9..] else m.id[14..];
    assert UserMessageId(request)[4] == 'u' && AssistantMessageId(request)[4] == 'a';
  }

  /** No run writes a terminal state to its log row twice, and none does after it was rejected. */
  lemma TerminalStateWrittenOnce(acts: seq<Action>, limits: B.Limits, i: nat)
    requires i < |Execute(acts, limits).runs|
    ensures Execute(acts, limits).runs[i].terminalWrites <= 1
  {
    ExecuteKeepsInv(acts, limits);
  }

  ghost predicate LedgerBacked(db: Database) {
    forall l | l in db.ledger :: Reserved(db, l.request, l.owner)
  }

  /** A ledger row always stands for an accepted reservation, in every run, exactly when the
      configured limits are valid. With a negative limit `reserve` throws, and the guard that
      catches the exception finalizes the run all the same, ledger row included. */
  lemma LedgerBackedIffLimitsValid(limits: B.Limits)
    ensures (forall acts :: LedgerBacked(Execute(acts, limits).db)) <==> B.LimitsValid(limits)
  {
    if B.LimitsValid(limits) {
      forall acts ensures LedgerBacked(Execute(acts, limits).db) { ExecuteKeepsInv(acts, limits); }
    } else {
      UnbackedLedgerRow(limits);
    }
  }

  const TODAY := B.Today("2026-01-15", "2026-01-01")

  /** The first `n` actions of a lone run whose limits are invalid. */
  function LoneRun(n: nat): seq<Action> {
    if n == 0 then [] else LoneRun(n - 1) + [if n == 1 then Start("o", "c", "r", "") else Step(0, TODAY)]
  }

  lemma LoneStep(n: nat, limits: B.Limits)
    requires n > 0
    ensures Execute(LoneRun(n), limits) ==
            Next(Execute(LoneRun(n - 1), limits), if n == 1 then Start("o", "c", "r", "") else Step(0, TODAY), limits)
  {
    assert LoneRun(n)[..|LoneRun(n)| - 1] == LoneRun(n - 1);
  }

  /** The lone run stands at `pc`; nothing has been reserved or billed yet. */
  ghost predicate LoneAt(s: State, pc: Pc, finalized: bool, terminalWrites: nat) {
    && s.runs == [Run("o", "c", "r", "", pc, finalized, terminalWrites)]
    && s.db.budget == EMPTY.budget && s.db.ledger == []
  }

  lemma LoneBegins(limits: B.Limits)
    ensures LoneAt(Execute(LoneRun(4), limits), Reserve, false, 0)
  {
    hide LoneRun, Execute, M.AppendMessage, B.Reserve, UpdateLog, UpdateTrace, AppendLedger;
    LoneStart(limits);
    LoneStep(2, limits);
    LoneStep(3, limits);
    LoneStep(4, limits);
  }

  lemma LoneAborts(limits: B.Limits)
    requires !B.LimitsValid(limits)
    ensures LoneAt(Execute(LoneRun(7), limits), CloseLog("failed", "", ABORTED), true, 0)
  {
    hide LoneRun, Execute, M.AppendMessage, B.Reserve;
    LoneBegins(limits);
    LoneStep(5, limits);
    LoneStep(6, limits);
    LoneStep(7, limits);
  }

  lemma UnbackedLedgerRow(limits: B.Limits)
    requires !B.LimitsValid(limits)
    ensures !LedgerBacked(Execute(LoneRun(10), limits).db)
  {
    hide LoneRun, Execute, UsageId;
    LoneAborts(limits);
    LoneStep(8, limits);
    LoneStep(9, limits);
    assert LoneAt(Execute(LoneRun(9), limits), AddLedger(""), true, 1);
    LoneStep(10, limits);
    var row := Usage(Run("o", "c", "r", "", Ensure, false, 0), "");
    assert Execute(LoneRun(10), limits).db.ledger == [row];
    assert row in Execute(LoneRun(10), limits).db.ledger;
    assert B.FindReservation(EMPTY.budget.reservations, "r").None?;
  }

  lemma LoneStart(limits: B.Limits)
    ensures Execute(LoneRun(1), limits) == State(EMPTY, [Run("o", "c", "r", "", Ensure, false, 0)])
  {
    LoneStep(1, limits);
    assert LoneRun(0) == [] && Execute([], limits) == State(EMPTY, []);
  }

  // ------------------------------------------------------------------ the code of one run

  /** `beginDurableRows`: conversation, log row and trace row, stopping at the first refusal. */
  function BeginRows(db: Database, owner: string, conversation: string, request: string): (Database, bool) {
    var (talk, ensured) := M.EnsureConversation(db.talk, owner, conversation);
    if !ensured then (db.(talk := talk), false)
    else
      var (logged, mine) := CreateLog(db.(talk := talk), owner, conversation, request);
      if !mine then (logged, false) else CreateTrace(logged, owner, request)
  }

  /** The conversation, the log row and the trace row of the request, each absent or the owner's. */
  predicate Free(db: Database, owner: string, conversation: string, request: string) {
    && (conversation in db.talk.conversations ==> db.talk.conversations[conversation] == owner)
    && (request in db.logs ==> db.logs[request].owner == owner)
    && (TraceId(request) in db.traces ==> db.traces[TraceId(request)].owner == owner)
  }

  /** All three are there and the owner's. */
  predicate Begun(db: Database, owner: string, conversation: string, request: string) {
    && M.Owns(db.talk, owner, conversation)
    && request in db.logs && db.logs[request].owner == owner
    && TraceId(request) in db.traces && db.traces[TraceId(request)].owner == owner
  }

  /** Nothing of anybody is lost or changed, and only these three keys may be new. */
  ghost predicate OnlyBegins(db: Database, db': Database, conversation: string, request: string) {
    && db'.talk.messages == db.talk.messages && db'.budget == db.budget && db'.ledger == db.ledger
    && (forall c | c in db.talk.conversations ::
          c in db'.talk.conversations && db'.talk.conversations[c] == db.talk.conversations[c])
    && (forall c | c in db'.talk.conversations :: c in db.talk.conversations || c == conversation)
    && (forall r | r in db.logs :: r in db'.logs && db'.logs[r] == db.logs[r])
    && (forall r | r in db'.logs :: r in db.logs || r == request)
    && (forall t | t in db.traces :: t in db'.traces && db'.traces[t] == db.traces[t])
    && (forall t | t in db'.traces :: t in db.traces || t == TraceId(request))
  }

  /** Beginning succeeds if and only if no row is somebody else's; then all three rows are the
      owner's, new ones running. */
  lemma BeginningIsSafe(db: Database, owner: string, conversation: string, request: string)
    ensures var (db', ok) := BeginRows(db, owner, conversation, request);
            && (ok <==> Free(db, owner, conversation, request))
            && (ok ==> Begun(db', owner, conversation, request))
            && (ok && request !in db.logs ==> db'.logs[request] == LogRow(owner, conversation, "running", ""))
            && (ok && TraceId(request) !in db.traces ==> db'.traces[TraceId(request)] == TraceRow(owner, "running"))
            && OnlyBegins(db, db', conversation, request)
  {
    hide TraceId;
  }

  /** Undisturbed, the first steps of a run add up to `beginDurableRows`: three on success, at most
      three on a refusal. */
  lemma BeginInSteps(db: Database, run: Run, today: B.Today, limits: B.Limits)
    requires run.pc == Ensure
    ensures var (db', ok) := BeginRows(db, run.owner, run.conversation, run.request);
            Steps(db, run, today, limits, 3) == (db', run.(pc := if ok then Reserve else Ended))
  {
    hide M.EnsureConversation, CreateLog, CreateTrace, Append, UpdateLog, UpdateTrace, AppendLedger, B.Reserve,
         B.CallValid;
    var r1 := StepOf(db, run, today, limits);
    var r2 := StepOf(r1.0, r1.1, today, limits);
    var r3 := StepOf(r2.0, r2.1, today, limits);
    assert Steps(db, run, today, limits, 3) == Steps(r1.0, r1.1, today, limits, 2);
    assert Steps(r1.0, r1.1, today, limits, 2) == Steps(r2.0, r2.1, today, limits, 1);
    assert Steps(r2.0, r2.1, today, limits, 1) == Steps(r3.0, r3.1, today, limits, 0);
  }

  /** Everything that `finalizeDurableQuery` writes. */
  function Finalized(db: Database, run: Run, status: string, response: string, error: string): Database {
    var db1 := Append(db, UserMessageId(run.request), run.owner, run.conversation, "user", run.question);
    var db2 := if response == "" then db1
               else Append(db1, AssistantMessageId(run.request), run.owner, run.conversation, "assistant", response);
    var db3 := UpdateLog(db2, run.owner, run.request, status, if response == "" then error else response);
    var db4 := UpdateTrace(db3, run.owner, run.request, status);
    AppendLedger(db4, Usage(run, response))
  }

  function Steps(db: Database, run: Run, today: B.Today, limits: B.Limits, n: nat): (Database, Run)
    decreases n
  {
    if n == 0 then (db, run)
    else
      var (db', run') := StepOf(db, run, today, limits);
      Steps(db', run', today, limits, n - 1)
  }

  // ------------------------------------------------------------------ what ended runs leave in the tables

  /** The owner's log and trace rows of the request, where they are, carry the status and the text; they
      keep owner and conversation, and no other row of the two tables changes. */
  ghost predicate IsClosed(db: Database, owner: string, request: string, status: string, text: string, db': Database) {
    var trace := "trace-" + request;
    && db'.logs.Keys == db.logs.Keys && db'.traces.Keys == db.traces.Keys
    && (forall r | r in db.logs && (r != request || db.logs[r].owner != owner) :: db'.logs[r] == db.logs[r])
    && (request in db.logs && db.logs[request].owner == owner ==>
          db'.logs[request] == LogRow(owner, db.logs[request].conversation, status, text))
    && (forall t | t in db.traces && (t != trace || db.traces[t].owner != owner) :: db'.traces[t] == db.traces[t])
    && (trace in db.traces && db.traces[trace].owner == owner ==> db'.traces[trace] == TraceRow(owner, status))
  }

  /** The ledger has gained the request's row, unless it had one. */
  ghost predicate IsBilled(ledger: seq<LedgerRow>, owner: string, request: string, question: string, response: string,
                           ledger': seq<LedgerRow>)
  {
    var id := "usage-" + request;
    && ((exists l :: l in ledger && l.id == id) ==> ledger' == ledger)
    && ((forall l | l in ledger :: l.id != id) ==>
          ledger' == ledger + [LedgerRow(id, owner, request, 64 + |question| / 4, |response| / 4)])
  }

  /** The question and, if there is one, the answer were appended to the conversation. */
  ghost predicate IsTold(talk: M.Tables, owner: string, conversation: string, request: string, question: string,
                         response: string, talk': M.Tables)
  {
    var user := M.Append("msg-user-" + request, owner, conversation, "user", question);
    var assistant := M.Append("msg-assistant-" + request, owner, conversation, "assistant", response);
    exists mid, u, v :: ToldThrough(talk, user, mid, u, assistant, v, talk')
  }

  /** `mid` are the tables between the two appends; an empty answer is not appended. */
  ghost predicate ToldThrough(talk: M.Tables, user: M.Append, mid: M.Tables, u: Option<M.Message>,
                              assistant: M.Append, v: Option<M.Message>, talk': M.Tables)
  {
    M.IsAppend(talk, user, mid, u)
    && if assistant.content == "" then talk' == mid else M.IsAppend(mid, assistant, talk', v)
  }

  /** What a run's finalization leaves behind. */
  ghost predicate IsFinalization(
    db: Database, run: Run, status: string, response: string, error: string, db': Database) {
    && IsClosed(db, run.owner, run.request, status, if response == "" then error else response, db')
    && IsBilled(db.ledger, run.owner, run.request, run.question, response, db'.ledger)
    && IsTold(db.talk, run.owner, run.conversation, run.request, run.question, response, db'.talk)
    && db'.budget == db.budget
  }

  lemma ClosingCloses(db: Database, owner: string, request: string, status: string, text: string)
    ensures var db' := UpdateTrace(UpdateLog(db, owner, request, status, text), owner, request, status);
            && IsClosed(db, owner, request, status, text, db')
            && db'.talk == db.talk && db'.ledger == db.ledger && db'.budget == db.budget
  {
  }

  lemma LedgerIsBilled(ledger: seq<LedgerRow>, run: Run, response: string)
    ensures IsBilled(ledger, run.owner, run.request, run.question, response, WithRow(ledger, Usage(run, response)))
  {
    if l :| l in ledger && l.id == UsageId(run.request) {
      var i :| 0 <= i < |ledger| && ledger[i] == l;
    }
  }

  lemma AppendsAreTold(talk: M.Tables, run: Run, response: string)
    requires M.Gapless(talk)
    ensures var user := M.Append(UserMessageId(run.request), run.owner, run.conversation, "user", run.question);
            var id := AssistantMessageId(run.request);
            var assistant := M.Append(id, run.owner, run.conversation, "assistant", response);
            var mid := M.AppendMessage(talk, user).0;
            IsTold(talk, run.owner, run.conversation, run.request, run.question, response,
                   if response == "" then mid else M.AppendMessage(mid, assistant).0)
  {
    hide M.AppendMessage, M.IsAppend, M.Gapless;
    var user := M.Append(UserMessageId(run.request), run.owner, run.conversation, "user", run.question);
    var assistant := M.Append(AssistantMessageId(run.request), run.owner, run.conversation, "assistant", response);
    var (mid, u) := M.AppendMessage(talk, user);
    M.AppendStoresText(talk, user);
    M.AppendKeepsGapless(talk, user);
    var (end, v) := M.AppendMessage(mid, assistant);
    M.AppendStoresText(mid, assistant);
    assert ToldThrough(talk, user, mid, u, assistant, v, if response == "" then mid else end);
  }

  /** The specified finalization leaves behind what it should. */
  lemma FinalizedIsFinalization(db: Database, run: Run, status: string, response: string, error: string)
    requires M.Gapless(db.talk)
    ensures IsFinalization(db, run, status, response, error, Finalized(db, run, status, response, error))
  {
    var text := if response == "" then error else response;
    var db1 := Append(db, UserMessageId(run.request), run.owner, run.conversation, "user", run.question);
    var db2 := if response == "" then db1
               else Append(db1, AssistantMessageId(run.request), run.owner, run.conversation, "assistant", response);
    ClosingCloses(db2, run.owner, run.request, status, text);
    LedgerIsBilled(db.ledger, run, response);
    AppendsAreTold(db.talk, run, response);
    hide M.AppendMessage, M.Gapless, UserMessageId, AssistantMessageId, UsageId, UpdateLog, UpdateTrace, WithRow, Usage,
         IsBilled, IsTold;
  }

  /** A refusal is recorded as the rejected state with its reason, and nothing else is written. */
  ghost predicate IsRefusal(db: Database, run: Run, reason: string, db': Database) {
    && IsClosed(db, run.owner, run.request, "rejected", reason, db')
    && db'.talk == db.talk && db'.ledger == db.ledger && db'.budget == db.budget
  }

  /** The reservation of a run: its owner and conversation, and 64 tokens and a quarter of the question. */
  function ReservationOf(run: Run, limits: B.Limits): B.Call {
    B.Call(run.owner, run.conversation, run.request, 64 + |run.question| / 4, limits)
  }

  /** Undisturbed, the steps of `reserveBudgetOrReject`: one if the reservation is accepted, else those
      that record the refusal and set the flag. */
  lemma ReserveInSteps(db: Database, run: Run, today: B.Today, limits: B.Limits)
    requires run.pc == Reserve && B.CallValid(ReservationOf(run, limits))
    ensures var (budget, outcome) := B.Reserve(db.budget, ReservationOf(run, limits), today);
            if outcome.accepted then
              Steps(db, run, today, limits, 1) == (db.(budget := budget), run.(pc := Work))
            else
              var (db', run') := Steps(db, run, today, limits, 4);
              IsRefusal(db, run, outcome.reason, db')
              && run' == run.(pc := Ended, finalized := true, terminalWrites := run.terminalWrites + 1)
  {
    assert run.Call(limits) == ReservationOf(run, limits);
    var (budget, outcome) := B.Reserve(db.budget, run.Call(limits), today);
    var r1 := StepOf(db, run, today, limits);
    hide B.Reserve, B.CallValid;
    assert r1 == (db.(budget := budget), run.(pc := if outcome.accepted then Work else RejectLog(outcome.reason)));
    assert Steps(db, run, today, limits, 1) == Steps(r1.0, r1.1, today, limits, 0);
    if !outcome.accepted {
      RefusalChangesNothing(db.budget, run.Call(limits), today);
      RefuseInSteps(db, r1.1, today, limits, outcome.reason);
      assert Steps(db, run, today, limits, 4) == Steps(r1.0, r1.1, today, limits, 3);
      hide StepOf, Steps, IsClosed;
    }
  }

  lemma RefuseInSteps(db: Database, run: Run, today: B.Today, limits: B.Limits, reason: string)
    requires run.pc == RejectLog(reason)
    ensures var (db', run') := Steps(db, run, today, limits, 3);
            IsRefusal(db, run, reason, db')
            && run' == run.(pc := Ended, finalized := true, terminalWrites := run.terminalWrites + 1)
  {
    ClosingCloses(db, run.owner, run.request, "rejected", reason);
    hide UpdateLog, UpdateTrace, IsClosed;
    var r1 := StepOf(db, run, today, limits);
    var r2 := StepOf(r1.0, r1.1, today, limits);
    var r3 := StepOf(r2.0, r2.1, today, limits);
    assert Steps(db, run, today, limits, 3) == Steps(r1.0, r1.1, today, limits, 2);
    assert Steps(r1.0, r1.1, today, limits, 2) == Steps(r2.0, r2.1, today, limits, 1);
    assert Steps(r2.0, r2.1, today, limits, 1) == Steps(r3.0, r3.1, today, limits, 0);
  }

  /** The terminal status and text that a run is carrying to its log row. */
  function Carried(pc: Pc): Option<(string, string)> {
    match pc
    case RejectLog(reason) => Some(("rejected", reason))
    case Finalize(status, response, error) => Some((status, if response == "" then error else response))
    case AddUser(status, response, error) => Some((status, if response == "" then error else response))
    case AddAssistant(status, response, error) => Some((status, if response == "" then error else response))
    case CloseLog(status, response, error) => Some((status, if response == "" then error else response))
    case _ => None
  }

  /** In every interleaving `terminalWrites` counts real writes: whenever a run's count goes up, the
      request's log row is the owner's and now has the status and text that the run carried; and no
      step changes a log row without such a count. */
  lemma TerminalWriteIsReal(acts: seq<Action>, a: Action, limits: B.Limits)
    ensures var s, s' := Execute(acts, limits), Execute(acts + [a], limits);
            && |s.runs| <= |s'.runs|
            && (forall i | 0 <= i < |s.runs| && s'.runs[i].terminalWrites != s.runs[i].terminalWrites ::
                  WritesTerminal(s, s', a, i))
            && (forall q | q in s.db.logs :: q in s'.db.logs
                  && (s'.db.logs[q] != s.db.logs[q] ==>
                        exists i :: WritesTerminal(s, s', a, i) && s.runs[i].request == q))
  {
    ExecuteKeepsInv(acts, limits);
    assert (acts + [a])[..|acts|] == acts;
    var s, s' := Execute(acts, limits), Execute(acts + [a], limits);
    assert s' == Next(s, a, limits);
    hide Execute, Rooted, AtMostOnce;
    match a
    case Step(i, today) =>
      if i < |s.runs| {
        assert RunOk(s.db, s.runs[i], B.LimitsValid(limits));
        StepWritesTerminal(s.db, s.runs[i], today, limits);
        hide StepOf, RunOk;
        assert s'.runs[i].terminalWrites != s.runs[i].terminalWrites ==> WritesTerminal(s, s', a, i);
      }
    case _ =>
  }

  ghost predicate WritesTerminal(s: State, s': State, a: Action, i: int) {
    && 0 <= i < |s.runs| <= |s'.runs| && a.Step? && a.i == i
    && s'.runs[i].terminalWrites == s.runs[i].terminalWrites + 1
    && RowHolds(s'.db, s.runs[i], Carried(s.runs[i].pc))
  }

  ghost predicate RowHolds(db: Database, run: Run, carried: Option<(string, string)>) {
    && run.request in db.logs && db.logs[run.request].owner == run.owner
    && carried == Some((db.logs[run.request].status, db.logs[run.request].response))
  }

  lemma StepWritesTerminal(db: Database, run: Run, today: B.Today, limits: B.Limits)
    requires run.pc.RejectLog? || run.pc.CloseLog? ==> LogOwned(db, run.request, run.owner)
    ensures var (db', run') := StepOf(db, run, today, limits);
            && run'.terminalWrites == run.terminalWrites + (if run.pc.RejectLog? || run.pc.CloseLog? then 1 else 0)
            && (run'.terminalWrites != run.terminalWrites ==> RowHolds(db', run, Carried(run.pc)))
            && (forall q | q in db.logs :: q in db'.logs
                  && (db'.logs[q] != db.logs[q] ==> q == run.request && run'.terminalWrites != run.terminalWrites))
  {
    hide B.Reserve, B.CallValid, M.EnsureConversation, M.AppendMessage, UserMessageId, AssistantMessageId, UsageId,
         TraceId, WithRow;
  }

  /** What a run was ended with stays what it carries until the log row is written. */
  lemma CarriedStays(db: Database, run: Run, today: B.Today, limits: B.Limits)
    requires Carried(run.pc).Some?
    ensures var run' := StepOf(db, run, today, limits).1;
            Carried(run'.pc) == Carried(run.pc) || run'.terminalWrites == run.terminalWrites + 1
            || (run.pc.Finalize? && run.finalized && run'.pc == Ended)
  {
    hide Append, UpdateLog;
  }

  /** A delivered answer, or an abort, is what the run then carries. */
  lemma DeliveredIsCarried(s: State, i: nat, status: string, response: string, error: string, limits: B.Limits)
    requires i < |s.runs| && s.runs[i].pc == Work
    ensures Carried(Next(s, Deliver(i, status, response, error), limits).runs[i].pc)
            == Some((status, if response == "" then error else response))
    ensures Carried(Next(s, Crash(i), limits).runs[i].pc) == Some(("failed", "Pipeline aborted"))
  {
  }

  /** Undisturbed, the steps of a run's finalization add up to the whole of it. */
  lemma FinalizeInSteps(db: Database, run: Run, today: B.Today, limits: B.Limits, status: string, response: string,
                        error: string)
    requires run.pc == Finalize(status, response, error) && !run.finalized
    ensures Steps(db, run, today, limits, if response == "" then 5 else 6) ==
            (Finalized(db, run, status, response, error),
             run.(pc := Ended, finalized := true, terminalWrites := run.terminalWrites + 1))
  {
    hide Append, UpdateLog, UpdateTrace, AppendLedger, UserMessageId, AssistantMessageId, B.Reserve, B.CallValid,
         M.EnsureConversation, CreateLog, CreateTrace, UsageId;
    var r1 := StepOf(db, run, today, limits);
    var r2 := StepOf(r1.0, r1.1, today, limits);
    var r3 := StepOf(r2.0, r2.1, today, limits);
    var r4 := StepOf(r3.0, r3.1, today, limits);
    var r5 := StepOf(r4.0, r4.1, today, limits);
    var n := if response == "" then 5 else 6;
    assert Steps(db, run, today, limits, n) == Steps(r1.0, r1.1, today, limits, n - 1);
    assert Steps(r1.0, r1.1, today, limits, n - 1) == Steps(r2.0, r2.1, today, limits, n - 2);
    assert Steps(r2.0, r2.1, today, limits, n - 2) == Steps(r3.0, r3.1, today, limits, n - 3);
    assert Steps(r3.0, r3.1, today, limits, n - 3) == Steps(r4.0, r4.1, today, limits, n - 4);
    assert Steps(r4.0, r4.1, today, limits, n - 4) == Steps(r5.0, r5.1, today, limits, n - 5);
    if response != "" {
      var r6 := StepOf(r5.0, r5.1, today, limits);
      assert Steps(r5.0, r5.1, today, limits, 1) == Steps(r6.0, r6.1, today, limits, 0);
    }
  }

  /** After a first finalization, a later one of the same request, from whatever owner or
      conversation and with whatever answer, adds no ledger row. It adds a message exactly if it
      brings the first answer: the assistant message of a request that so far ended without one. */
  lemma FirstFinalizationWinsIff(db: Database, run: Run, status: string, response: string, error: string,
                                 again: Run, status': string, response': string, error': string)
    requires M.Owns(db.talk, run.owner, run.conversation) && again.request == run.request
    ensures var once := Finalized(db, run, status, response, error);
            var twice := Finalized(once, again, status', response', error');
            && twice.ledger == once.ledger
            && (twice.talk == once.talk <==>
                  || response != "" || response' == "" || !M.Owns(db.talk, again.owner, again.conversation)
                  || M.FindMessage(db.talk.messages, AssistantMessageId(run.request)).Some?)
  {
    var u, v := UserMessageId(run.request), AssistantMessageId(run.request);
    assert u[4] != v[4];
    hide M.AppendMessage, M.FindMessage, UserMessageId, AssistantMessageId, UsageId, Finalized, M.Owns, WithRow;
    var once := Finalized(db, run, status, response, error);
    FinalizedTables(db, run, status, response, error);
    FinalizedTables(once, again, status', response', error');
    LedgerHasRow(db.ledger, Usage(run, response));
    WithRowTwice(db.ledger, Usage(run, response), Usage(again, response'));
    TalkOfRequest(db.talk, u, v, run.owner, run.conversation, run.question, response);
    var a := M.Append(u, again.owner, again.conversation, "user", again.question);
    DuplicateChangesNothing(once.talk, a);
    AppendMovesIff(once.talk, M.Append(v, again.owner, again.conversation, "assistant", response'));
  }

  /** What the messages of a request look like after its first finalization. */
  lemma TalkOfRequest(talk: M.Tables, u: string, v: string, owner: string, conversation: string, question: string,
                      response: string)
    requires M.Owns(talk, owner, conversation) && u != v
    ensures var t1 := M.AppendMessage(talk, M.Append(u, owner, conversation, "user", question)).0;
            var t2 := if response == "" then t1
                      else M.AppendMessage(t1, M.Append(v, owner, conversation, "assistant", response)).0;
            && t2.conversations == talk.conversations
            && M.FindMessage(t2.messages, u).Some?
            && (M.FindMessage(t2.messages, v).Some? <==> response != "" || M.FindMessage(talk.messages, v).Some?)
  {
    hide M.AppendMessage, M.FindMessage;
    var user := M.Append(u, owner, conversation, "user", question);
    var t1 := M.AppendMessage(talk, user).0;
    AppendedIsFound(talk, user);
    FoundIsStill(talk, user, v);
    if response != "" {
      var assistant := M.Append(v, owner, conversation, "assistant", response);
      AppendedIsFound(t1, assistant);
      FoundIsStill(t1, assistant, u);
    }
  }

  /** An append changes the tables exactly if the conversation is the owner's and the id is new. */
  lemma AppendMovesIff(talk: M.Tables, a: M.Append)
    ensures M.AppendMessage(talk, a).0 == talk <==>
            !M.Owns(talk, a.owner, a.conversation) || M.FindMessage(talk.messages, a.id).Some?
  {
    var after := M.AppendMessage(talk, a).0;
    assert |after.messages| == |talk.messages| || |after.messages| == |talk.messages| + 1;
  }

  /** An append stores no other id than its own. */
  lemma FoundIsStill(talk: M.Tables, a: M.Append, id: string)
    requires id != a.id
    ensures M.FindMessage(M.AppendMessage(talk, a).0.messages, id) == M.FindMessage(talk.messages, id)
  {
    var rows := M.AppendMessage(talk, a).0.messages;
    if rows != talk.messages { assert rows[..|rows| - 1] == talk.messages; }
  }

  lemma WithRowTwice(ledger: seq<LedgerRow>, row: LedgerRow, again: LedgerRow)
    requires again.id == row.id
    ensures WithRow(WithRow(ledger, row), again) == WithRow(ledger, row)
  {
    LedgerHasRow(ledger, row);
  }

  /** The messages and ledger rows that a finalization writes, without the status updates. */
  lemma FinalizedTables(db: Database, run: Run, status: string, response: string, error: string)
    ensures var after := Finalized(db, run, status, response, error);
            var t1 := M.AppendMessage(db.talk,
                        M.Append(UserMessageId(run.request), run.owner, run.conversation, "user", run.question)).0;
            && after.talk == (if response == "" then t1
                              else M.AppendMessage(t1, M.Append(AssistantMessageId(run.request), run.owner,
                                                                run.conversation, "assistant", response)).0)
            && after.ledger == WithRow(db.ledger, Usage(run, response))
  {
    hide M.AppendMessage, UserMessageId, AssistantMessageId, UsageId, TraceId;
  }

  lemma DuplicateChangesNothing(talk: M.Tables, a: M.Append)
    requires M.FindMessage(talk.messages, a.id).Some?
    ensures M.AppendMessage(talk, a).0 == talk
  {
  }

  lemma AppendedIsFound(talk: M.Tables, a: M.Append)
    requires M.Owns(talk, a.owner, a.conversation)
    ensures M.FindMessage(M.AppendMessage(talk, a).0.messages, a.id).Some?
    ensures M.AppendMessage(talk, a).0.conversations == talk.conversations
  {
    var rows := M.AppendMessage(talk, a).0.messages;
    if rows != talk.messages { assert rows[|rows| - 1].id == a.id; }
  }

  lemma LedgerHasRow(ledger: seq<LedgerRow>, row: LedgerRow)
    ensures exists i :: 0 <= i < |WithRow(ledger, row)| && WithRow(ledger, row)[i].id == row.id
  {
    if WithRow(ledger, row) != ledger { assert WithRow(ledger, row)[|ledger|] == row; }
  }

  /** The state of one run that the service keeps in memory, with the `finalized` flag. */
  class DurableQueryRun {
    const data: Run
    var finalized: bool

    constructor (data: Run)
      ensures this.data == data && !finalized
    {
      this.data, finalized := data, false;
    }
  }

  /** The durable helpers of `AIQueryServiceImpl`. */
  class Service {
    const limits: B.Limits
    var db: Database

    constructor (limits: B.Limits)
      ensures this.limits == limits && db == EMPTY
    {
      this.limits, db := limits, EMPTY;
    }

    method BeginDurableRows(run: DurableQueryRun) returns (ok: bool)
      modifies this`db
      ensures var r := run.data;
              && (db, ok) == BeginRows(old(db), r.owner, r.conversation, r.request)
              && (ok <==> Free(old(db), r.owner, r.conversation, r.request))
              && (ok ==> Begun(db, r.owner, r.conversation, r.request))
              && OnlyBegins(old(db), db, r.conversation, r.request)
              && (ok && r.request !in old(db).logs ==>
                    db.logs[r.request] == LogRow(r.owner, r.conversation, "running", ""))
    {
      var r := run.data;
      BeginningIsSafe(db, r.owner, r.conversation, r.request);
      hide Free, Begun, OnlyBegins, CreateLog, CreateTrace;
      var (talk, ensured) := M.EnsureConversation(db.talk, r.owner, r.conversation);
      db := db.(talk := talk);
      if !ensured { return false; }
      var (logged, mine) := CreateLog(db, r.owner, r.conversation, r.request);
      db := logged;
      if !mine { return false; }
      var (traced, owned) := CreateTrace(db, r.owner, r.request);
      db := traced;
      return owned;
    }

    /** None stands for the exception that invalid limits make `reserve` throw. A refusal is
        recorded and closes the run for good. */
    method ReserveBudgetOrReject(run: DurableQueryRun, today: B.Today) returns (status: Option<B.Outcome>)
      modifies this`db, run`finalized
      ensures status.None? <==> !B.CallValid(run.data.Call(limits))
      ensures status.None? ==> db == old(db) && run.finalized == old(run.finalized)
      ensures status.Some? ==>
                var (budget, outcome) := B.Reserve(old(db).budget, run.data.Call(limits), today);
                && status == Some(outcome)
                && (outcome.accepted ==> db == old(db).(budget := budget) && run.finalized == old(run.finalized))
                && (!outcome.accepted ==>
                      && run.finalized && budget == old(db).budget
                      && db == UpdateTrace(UpdateLog(old(db), run.data.owner, run.data.request,
                                                  "rejected", outcome.reason),
                                           run.data.owner, run.data.request, "rejected"))
      ensures status.Some? && !status.value.accepted ==> IsRefusal(old(db), run.data, status.value.reason, db)
      ensures status.Some? && B.Conserved(old(db).budget) && B.PoliciesValid(old(db).budget) ==>
                B.IsReservation(old(db).budget, ReservationOf(run.data, limits), today, db.budget, status.value)
    {
      B.ReservationContract(db.budget, run.data.Call(limits), today);
      assert run.data.Call(limits) == ReservationOf(run.data, limits);
      hide B.IsReservation, B.Conserved, B.PoliciesValid, B.CallValid, B.Reserve;
      if !B.CallValid(run.data.Call(limits)) { return None; }
      var (budget, outcome) := B.Reserve(db.budget, run.data.Call(limits), today);
      if outcome.accepted {
        db := db.(budget := budget);
        return Some(outcome);
      }
      RefusalChangesNothing(db.budget, run.data.Call(limits), today);
      ClosingCloses(db, run.data.owner, run.data.request, "rejected", outcome.reason);
      db := UpdateLog(db, run.data.owner, run.data.request, "rejected", outcome.reason);
      db := UpdateTrace(db, run.data.owner, run.data.request, "rejected");
      run.finalized := true;
      return Some(outcome);
    }

    /** The compare-and-exchange lets only the first finalization of a run through. */
    method FinalizeDurableQuery(run: DurableQueryRun, status: string, response: string, error: string)
      modifies this`db, run`finalized
      ensures run.finalized
      ensures db == if old(run.finalized) then old(db) else Finalized(old(db), run.data, status, response, error)
      ensures !old(run.finalized) && M.Gapless(old(db).talk) ==>
                IsFinalization(old(db), run.data, status, response, error, db)
    {
      var r := run.data;
      if run.finalized { return; }
      if M.Gapless(db.talk) { FinalizedIsFinalization(db, r, status, response, error); }
      hide M.Gapless, IsFinalization, M.AppendMessage, UpdateLog, UpdateTrace, WithRow;
      run.finalized := true;
      db := Append(db, UserMessageId(r.request), r.owner, r.conversation, "user", r.question);
      if response != "" {
        db := Append(db, AssistantMessageId(r.request), r.owner, r.conversation, "assistant", response);
      }
      db := UpdateLog(db, r.owner, r.request, status, if response == "" then error else response);
      db := UpdateTrace(db, r.owner, r.request, status);
      db := AppendLedger(db, Usage(r, response));
    }
  }

  lemma RefusalChangesNothing(budget: B.Database, call: B.Call, today: B.Today)
    requires !B.Reserve(budget, call, today).1.accepted
    ensures B.Reserve(budget, call, today).0 == budget
  {
    hide B.BucketsFor, B.WouldExceed;
  }
}
