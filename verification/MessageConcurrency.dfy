/** Concurrent appends: `common/src/query_domain_repository.cpp`, `appendMessageAutoSequence`, as
    interleaved statements at PostgreSQL's READ COMMITTED level.

    An append locks its conversation row, looks for its message id, inserts with the next sequence
    number, and commits. Appends to different conversations run in parallel and may race for one
    message id; the primary key then blocks the second insert until the first commits or aborts. */
module MessageConcurrency {
  import opened Common
  import opened MessageLog

  datatype Pc =
    | LockRow       // SELECT id FROM conversations ... FOR UPDATE
    | LookUp        // SELECT ... FROM conversation_messages WHERE id AND owner_id
    | Insert        // INSERT ... in a subtransaction
    | ReadWinner    // after a unique violation
    | Commit
    | Done
    | Aborted       // rolled back

  /** `pending` is the inserted but uncommitted row; `at` the place in the serial history. */
  datatype Tx = Tx(a: Append, pc: Pc, pending: Option<Message>, outcome: Option<Message>, at: nat) {
    predicate Ended() { pc == Done || pc == Aborted }
  }

  /** `db` is what is committed; `rowLocks` maps conversations to the transaction that locked them. */
  datatype State = State(db: Tables, txs: map<nat, Tx>, rowLocks: map<string, nat>, history: seq<Operation>)

  datatype Action = Begin(id: nat, a: Append) | Step(id: nat) | Abort(id: nat)
                  | Ensure(owner: string, conversation: string)

  /** Another transaction has inserted this message id, or this sequence number of the
      conversation, and has not committed: a unique index makes the insert wait for it. */
  predicate Contended(s: State, id: nat)
    requires id in s.txs
  {
    var m := NewMessage(s.db, s.txs[id].a);
    exists t :: t in s.txs && t != id && s.txs[t].pc == Commit && s.txs[t].pending.Some? &&
      var p := s.txs[t].pending.value;
      p.id == m.id || (p.owner == m.owner && p.conversation == m.conversation && p.sequenceNo == m.sequenceNo)
  }

  /** A committed row already has this message id or this sequence number. */
  predicate Violates(db: Tables, a: Append) {
    var m := NewMessage(db, a);
    || FindMessage(db.messages, a.id).Some?
    || exists i :: 0 <= i < |db.messages| && db.messages[i].owner == m.owner
                   && db.messages[i].conversation == m.conversation && db.messages[i].sequenceNo == m.sequenceNo
  }

  predicate Enabled(s: State, a: Action) {
    match a
    case Begin(id, _) => id !in s.txs
    case Ensure(_, _) => true
    case Abort(id) => id in s.txs && !s.txs[id].Ended()
    case Step(id) =>
      && id in s.txs && !s.txs[id].Ended()
      && (s.txs[id].pc == LockRow && Owns(s.db, s.txs[id].a.owner, s.txs[id].a.conversation) ==>
            s.txs[id].a.conversation !in s.rowLocks || s.rowLocks[s.txs[id].a.conversation] == id)
      && (s.txs[id].pc == Insert ==> !Contended(s, id))
  }

  function Release(locks: map<string, nat>, id: nat): map<string, nat> {
    map c | c in locks && locks[c] != id :: locks[c]
  }

  /** The transaction ends: what it inserted becomes visible and its row lock is released. */
  function Finish(s: State, id: nat, outcome: Option<Message>, rows: seq<Message>): State
    requires id in s.txs
  {
    State(s.db.(messages := s.db.messages + rows),
          s.txs[id := s.txs[id].(pc := Done, pending := None, outcome := outcome, at := |s.history|)],
          Release(s.rowLocks, id),
          s.history + [DoAppend(s.txs[id].a)])
  }

  function StepOf(s: State, id: nat): State
    requires Enabled(s, Step(id))
  {
    var tx := s.txs[id];
    match tx.pc
    case LockRow =>
      if !Owns(s.db, tx.a.owner, tx.a.conversation) then Finish(s, id, None, [])
      else s.(rowLocks := s.rowLocks[tx.a.conversation := id], txs := s.txs[id := tx.(pc := LookUp)])
    case LookUp =>
      (match FindOwn(s.db.messages, tx.a.id, tx.a.owner)
       case Some(m) => Finish(s, id, Some(m), [])
       case None => s.(txs := s.txs[id := tx.(pc := Insert)]))
    case Insert =>
      if Violates(s.db, tx.a) then s.(txs := s.txs[id := tx.(pc := ReadWinner)])
      else s.(txs := s.txs[id := tx.(pc := Commit, pending := Some(NewMessage(s.db, tx.a)))])
    case ReadWinner => Finish(s, id, FindOwn(s.db.messages, tx.a.id, tx.a.owner), [])
    case Commit =>
      (match tx.pending
       case Some(m) => Finish(s, id, Some(m), [m])
       case None => Finish(s, id, None, []))
    case Done => s
    case Aborted => s
  }

  /** A rollback: what was inserted vanishes and the row lock is released. */
  function AbortOf(s: State, id: nat): State
    requires id in s.txs
  {
    s.(txs := s.txs[id := s.txs[id].(pc := Aborted, pending := None)], rowLocks := Release(s.rowLocks, id))
  }

  /** One action. An action that has to wait changes nothing, so every list of actions is a run. */
  function Next(s: State, a: Action): State {
    if !Enabled(s, a) then s
    else
      match a
      case Begin(id, append) => s.(txs := s.txs[id := Tx(append, LockRow, None, None, 0)])
      case Ensure(owner, conversation) =>
        s.(db := EnsureConversation(s.db, owner, conversation).0,
           history := s.history + [DoEnsure(owner, conversation)])
      case Abort(id) => AbortOf(s, id)
      case Step(id) => StepOf(s, id)
  }

  const INITIAL := State(Tables(map[], []), map[], map[], [])

  function Run(acts: seq<Action>): State {
    if acts == [] then INITIAL else Next(Run(acts[..|acts| - 1]), acts[|acts| - 1])
  }

  // ------------------------------------------------------------------ the invariant

  predicate HasLock(pc: Pc) { pc == LookUp || pc == Insert || pc == ReadWinner || pc == Commit }

  /** A transaction past its first statement holds its own conversation's row. */
  ghost predicate LocksOk(s: State) {
    forall id | id in s.txs && HasLock(s.txs[id].pc) ::
      && Owns(s.db, s.txs[id].a.owner, s.txs[id].a.conversation)
      && s.txs[id].a.conversation in s.rowLocks && s.rowLocks[s.txs[id].a.conversation] == id
  }

  /** A pending row is the row that the transaction would still insert now, its id is not taken,
      and no other pending row has it. */
  ghost predicate PendingOk(s: State) {
    && (forall id | id in s.txs && s.txs[id].pc == Commit ::
          && s.txs[id].pending == Some(NewMessage(s.db, s.txs[id].a))
          && FindMessage(s.db.messages, s.txs[id].a.id).None?)
    && (forall i, j | i in s.txs && j in s.txs && i != j && s.txs[i].pc == Commit && s.txs[j].pc == Commit ::
          s.txs[i].a.id != s.txs[j].a.id)
    && (forall id | id in s.txs && s.txs[id].pc == ReadWinner :: FindMessage(s.db.messages, s.txs[id].a.id).Some?)
  }

  ghost predicate Answers(history: seq<Operation>, tx: Tx) {
    && tx.at < |history| && history[tx.at] == DoAppend(tx.a)
    && tx.outcome == AppendMessage(Replay(history[..tx.at]), tx.a).1
  }

  ghost predicate AnsweredOk(history: seq<Operation>, txs: map<nat, Tx>) {
    forall id | id in txs && txs[id].pc == Done :: Answers(history, txs[id])
  }

  ghost predicate IsCaller(txs: map<nat, Tx>, id: nat, k: nat) {
    id in txs && txs[id].pc == Done && txs[id].at == k
  }

  /** The append at place `k` of the history is the call of a finished transaction. */
  ghost predicate HasCaller(txs: map<nat, Tx>, k: nat) {
    exists id :: IsCaller(txs, id, k)
  }

  /** The appends of the history are the calls of the finished transactions, one entry each. */
  ghost predicate Matched(history: seq<Operation>, txs: map<nat, Tx>) {
    && (forall k | 0 <= k < |history| && history[k].DoAppend? :: HasCaller(txs, k))
    && (forall i | i in txs && txs[i].pc == Done :: txs[i].at < |history| && history[txs[i].at] == DoAppend(txs[i].a))
    && (forall i, j | i in txs && j in txs && i != j && txs[i].pc == Done && txs[j].pc == Done ::
          txs[i].at != txs[j].at)
  }

  ghost predicate Core(s: State) {
    LocksOk(s) && PendingOk(s) && AnsweredOk(s.history, s.txs) && s.db == Replay(s.history) && Gapless(s.db)
  }

  ghost predicate Inv(s: State) { Core(s) && Matched(s.history, s.txs) }

  // ------------------------------------------------------------------ preservation

  lemma AnswersSurvive(history: seq<Operation>, txs: map<nat, Tx>, op: Operation)
    requires AnsweredOk(history, txs)
    ensures AnsweredOk(history + [op], txs)
  {
    hide AppendMessage, Replay;
    forall id | id in txs && txs[id].pc == Done
      ensures Answers(history + [op], txs[id])
    {
      assert Answers(history, txs[id]);
      assert (history + [op])[..txs[id].at] == history[..txs[id].at];
    }
  }

  /** A transaction may end wherever the whole transaction, run at that moment, gives the same
      answer and the same rows. */
  lemma FinishKeepsBooks(s: State, id: nat, outcome: Option<Message>, rows: seq<Message>)
    requires AnsweredOk(s.history, s.txs) && s.db == Replay(s.history) && Gapless(s.db) && id in s.txs
    requires AppendMessage(s.db, s.txs[id].a) == (s.db.(messages := s.db.messages + rows), outcome)
    ensures var s' := Finish(s, id, outcome, rows);
            AnsweredOk(s'.history, s'.txs) && s'.db == Replay(s'.history) && Gapless(s'.db)
  {
    hide AppendMessage, Replay, Gapless, Answers;
    var s', op := Finish(s, id, outcome, rows), DoAppend(s.txs[id].a);
    ReplayStep(s.history, op);
    AppendKeepsGapless(s.db, s.txs[id].a);
    AnswersSurvive(s.history, s.txs, op);
    NewAnswer(s.history, s'.txs[id]);
    forall t | t in s'.txs && s'.txs[t].pc == Done ensures Answers(s'.history, s'.txs[t]) {
      if t != id { assert s'.txs[t] == s.txs[t]; }
    }
  }

  lemma NewAnswer(history: seq<Operation>, tx: Tx)
    requires tx.at == |history| && tx.outcome == AppendMessage(Replay(history), tx.a).1
    ensures Answers(history + [DoAppend(tx.a)], tx)
  {
    hide AppendMessage, Replay;
    assert (history + [DoAppend(tx.a)])[..tx.at] == history;
  }

  // ------------------------------------------------------------------ callers

  /** A transaction that has not ended moves on without ending in success. */
  lemma MatchedKeeps(history: seq<Operation>, txs: map<nat, Tx>, id: nat, tx: Tx)
    requires Matched(history, txs) && (id in txs ==> txs[id].pc != Done) && tx.pc != Done
    ensures Matched(history, txs[id := tx])
  {
    forall k | 0 <= k < |history| && history[k].DoAppend? ensures HasCaller(txs[id := tx], k) {
      assert HasCaller(txs, k);
      var i :| IsCaller(txs, i, k);
      assert IsCaller(txs[id := tx], i, k);
    }
  }

  /** A transaction finishes at the end of the history. */
  lemma MatchedFinishes(history: seq<Operation>, txs: map<nat, Tx>, id: nat, tx: Tx)
    requires Matched(history, txs) && id in txs && txs[id].pc != Done
    requires tx.pc == Done && tx.at == |history|
    ensures Matched(history + [DoAppend(tx.a)], txs[id := tx])
  {
    var history' := history + [DoAppend(tx.a)];
    forall k | 0 <= k < |history'| && history'[k].DoAppend? ensures HasCaller(txs[id := tx], k) {
      if k == |history| {
        assert IsCaller(txs[id := tx], id, k);
      } else {
        assert history'[k] == history[k] && HasCaller(txs, k);
        var i :| IsCaller(txs, i, k);
        assert IsCaller(txs[id := tx], i, k);
      }
    }
  }

  lemma MatchedEnsure(history: seq<Operation>, txs: map<nat, Tx>, op: Operation)
    requires Matched(history, txs) && op.DoEnsure?
    ensures Matched(history + [op], txs)
  {
    hide HasCaller;
    assert forall k | 0 <= k < |history| :: (history + [op])[k] == history[k];
  }

  /** Every step keeps histories and transactions matched. */
  lemma NextKeepsMatched(s: State, a: Action)
    requires Matched(s.history, s.txs)
    ensures Matched(Next(s, a).history, Next(s, a).txs)
  {
    hide Matched, NewMessage, FindMessage, FindOwn, Violates, Contended, Owns, Release;
    if Enabled(s, a) {
      match a
      case Begin(id, append) => MatchedKeeps(s.history, s.txs, id, Next(s, a).txs[id]);
      case Ensure(owner, conversation) => MatchedEnsure(s.history, s.txs, DoEnsure(owner, conversation));
      case Abort(id) => MatchedKeeps(s.history, s.txs, id, Next(s, a).txs[id]);
      case Step(id) =>
        var s' := StepOf(s, id);
        if s'.txs[id].pc == Done {
          MatchedFinishes(s.history, s.txs, id, s'.txs[id]);
        } else {
          MatchedKeeps(s.history, s.txs, id, s'.txs[id]);
        }
    }
  }

  /** Only one transaction works on a conversation at a time. */
  lemma LockExcludes(s: State, i: nat, j: nat)
    requires LocksOk(s) && i in s.txs && j in s.txs && i != j && HasLock(s.txs[i].pc) && HasLock(s.txs[j].pc)
    ensures s.txs[i].a.conversation != s.txs[j].a.conversation
  {
  }

  /** Ending without inserting disturbs nobody. */
  lemma FinishEmpty(s: State, id: nat, outcome: Option<Message>)
    requires LocksOk(s) && PendingOk(s) && id in s.txs && s.txs[id].pc != Commit
    ensures LocksOk(Finish(s, id, outcome, [])) && PendingOk(Finish(s, id, outcome, []))
  {
    hide NewMessage, FindMessage;
    assert s.db.messages + [] == s.db.messages;
  }

  lemma FindAfterAppend(rows: seq<Message>, m: Message, id: string)
    ensures FindMessage(rows + [m], id) == if m.id == id then Some(m) else FindMessage(rows, id)
  {
    assert (rows + [m])[..|rows + [m]| - 1] == rows;
  }

  lemma NewMessageElsewhere(db: Tables, m: Message, a: Append)
    requires m.conversation != a.conversation
    ensures NewMessage(db.(messages := db.messages + [m]), a) == NewMessage(db, a)
  {
    assert (db.messages + [m])[..|db.messages + [m]| - 1] == db.messages;
  }

  /** Committing an insert disturbs no other pending insert: those are in other conversations. */
  lemma FinishInsert(s: State, id: nat)
    requires LocksOk(s) && PendingOk(s) && id in s.txs && s.txs[id].pc == Commit
    ensures var m := NewMessage(s.db, s.txs[id].a);
            LocksOk(Finish(s, id, Some(m), [m])) && PendingOk(Finish(s, id, Some(m), [m]))
  {
    hide NewMessage, FindMessage;
    var m := NewMessage(s.db, s.txs[id].a);
    NewMessageFields(s.db, s.txs[id].a);
    var s' := Finish(s, id, Some(m), [m]);
    forall t | t in s.txs
      ensures FindMessage(s'.db.messages, s.txs[t].a.id) ==
              if m.id == s.txs[t].a.id then Some(m) else FindMessage(s.db.messages, s.txs[t].a.id)
    {
      FindAfterAppend(s.db.messages, m, s.txs[t].a.id);
    }
    forall t | t in s.txs && t != id && HasLock(s.txs[t].pc)
      ensures NewMessage(s'.db, s.txs[t].a) == NewMessage(s.db, s.txs[t].a)
    {
      LockExcludes(s, id, t);
      NewMessageElsewhere(s.db, m, s.txs[t].a);
    }
  }

  /** The insert gets a fresh number, so only the message id can violate uniqueness. */
  lemma OnlyIdsViolate(db: Tables, a: Append)
    requires Gapless(db) && Owns(db, a.owner, a.conversation)
    ensures Violates(db, a) <==> FindMessage(db.messages, a.id).Some?
  {
    hide FindMessage, Gapless;
    NewMessageFields(db, a);
    forall i | 0 <= i < |db.messages| && db.messages[i].owner == a.owner
             && db.messages[i].conversation == a.conversation
      ensures db.messages[i].sequenceNo != NewMessage(db, a).sequenceNo
    {
      BelowMax(db.messages, a.owner, a.conversation, i);
    }
  }

  lemma {:induction false} BelowMax(rows: seq<Message>, owner: string, conversation: string, i: nat)
    requires i < |rows| && rows[i].owner == owner && rows[i].conversation == conversation
    ensures rows[i].sequenceNo <= MaxSequence(rows, owner, conversation)
  {
    if i < |rows| - 1 { BelowMax(rows[..|rows| - 1], owner, conversation, i); }
  }

  lemma StepInside(s: State, id: nat, tx: Tx)
    requires LocksOk(s) && PendingOk(s) && id in s.txs && HasLock(s.txs[id].pc) && HasLock(tx.pc) && tx.a == s.txs[id].a
    requires tx.pc == ReadWinner ==> FindMessage(s.db.messages, tx.a.id).Some?
    requires tx.pc == Commit ==>
               && tx.pending == Some(NewMessage(s.db, tx.a)) && FindMessage(s.db.messages, tx.a.id).None?
               && forall t | t in s.txs && t != id && s.txs[t].pc == Commit :: s.txs[t].a.id != tx.a.id
    ensures LocksOk(s.(txs := s.txs[id := tx])) && PendingOk(s.(txs := s.txs[id := tx]))
  {
    hide NewMessage, FindMessage;
  }

  lemma InsertIsUncontended(s: State, id: nat)
    requires PendingOk(s) && id in s.txs && s.txs[id].pc == Insert && !Contended(s, id)
    ensures forall t | t in s.txs && t != id && s.txs[t].pc == Commit :: s.txs[t].a.id != s.txs[id].a.id
  {
    NewMessageFields(s.db, s.txs[id].a);
    forall t | t in s.txs && t != id && s.txs[t].pc == Commit
      ensures s.txs[t].a.id != s.txs[id].a.id
    {
      NewMessageFields(s.db, s.txs[t].a);
    }
  }

  lemma LockRowStep(s: State, id: nat)
    requires Core(s) && Enabled(s, Step(id)) && s.txs[id].pc == LockRow
    ensures Core(StepOf(s, id))
  {
    hide NewMessage, FindMessage, Gapless, Replay, Answers;
    var tx := s.txs[id];
    if Owns(s.db, tx.a.owner, tx.a.conversation) {
      assert forall t | t in s.txs && HasLock(s.txs[t].pc) :: s.txs[t].a.conversation != tx.a.conversation;
    } else {
      FinishEmpty(s, id, None);
      assert s.db.messages + [] == s.db.messages;
      FinishKeepsBooks(s, id, None, []);
    }
  }

  lemma HeldStep(s: State, id: nat)
    requires Core(s) && Enabled(s, Step(id)) && HasLock(s.txs[id].pc)
    ensures Core(StepOf(s, id))
  {
    hide NewMessage, FindMessage, Gapless, Replay, Answers, LocksOk, PendingOk, AnsweredOk, Contended, Violates;
    var tx := s.txs[id];
    HolderOwns(s, id);
    assert s.db.messages + [] == s.db.messages;
    match tx.pc
    case LookUp =>
      if FindOwn(s.db.messages, tx.a.id, tx.a.owner).Some? {
        FinishEmpty(s, id, FindOwn(s.db.messages, tx.a.id, tx.a.owner));
        FinishKeepsBooks(s, id, FindOwn(s.db.messages, tx.a.id, tx.a.owner), []);
      } else {
        StepInside(s, id, tx.(pc := Insert));
        KeepsAnswers(s, id, tx.(pc := Insert));
      }
    case Insert =>
      OnlyIdsViolate(s.db, tx.a);
      InsertIsUncontended(s, id);
      StepInside(s, id, StepOf(s, id).txs[id]);
      KeepsAnswers(s, id, StepOf(s, id).txs[id]);
    case ReadWinner =>
      WinnerExists(s, id);
      FinishEmpty(s, id, FindOwn(s.db.messages, tx.a.id, tx.a.owner));
      FinishKeepsBooks(s, id, FindOwn(s.db.messages, tx.a.id, tx.a.owner), []);
    case Commit =>
      PendingIsNext(s, id);
      FinishInsert(s, id);
      FinishKeepsBooks(s, id, tx.pending, [tx.pending.value]);
  }

  lemma HolderOwns(s: State, id: nat)
    requires LocksOk(s) && id in s.txs && HasLock(s.txs[id].pc)
    ensures Owns(s.db, s.txs[id].a.owner, s.txs[id].a.conversation)
  {
  }

  lemma WinnerExists(s: State, id: nat)
    requires PendingOk(s) && id in s.txs && s.txs[id].pc == ReadWinner
    ensures FindMessage(s.db.messages, s.txs[id].a.id).Some?
  {
  }

  lemma PendingIsNext(s: State, id: nat)
    requires PendingOk(s) && id in s.txs && s.txs[id].pc == Commit
    ensures s.txs[id].pending == Some(NewMessage(s.db, s.txs[id].a))
    ensures FindMessage(s.db.messages, s.txs[id].a.id).None?
  {
  }

  lemma KeepsAnswers(s: State, id: nat, tx: Tx)
    requires AnsweredOk(s.history, s.txs) && tx.pc != Done
    ensures AnsweredOk(s.history, s.txs[id := tx])
  {
    hide Answers;
  }

  lemma EnsureStep(s: State, owner: string, conversation: string)
    requires Core(s)
    ensures Core(Next(s, Ensure(owner, conversation)))
  {
    hide FindMessage, Gapless, Replay, Answers, AnsweredOk, MaxSequence;
    ReplayStep(s.history, DoEnsure(owner, conversation));
    AnswersSurvive(s.history, s.txs, DoEnsure(owner, conversation));
    EnsureKeepsGapless(s.db, owner, conversation);
  }

  lemma AbortStep(s: State, id: nat)
    requires Core(s) && id in s.txs && !s.txs[id].Ended()
    ensures Core(AbortOf(s, id))
  {
    hide NewMessage, FindMessage, Gapless, Replay, Answers;
  }

  lemma BeginStep(s: State, id: nat, a: Append)
    requires Core(s) && id !in s.txs
    ensures Core(Next(s, Begin(id, a)))
  {
    hide NewMessage, FindMessage, Gapless, Replay, Answers;
  }

  lemma NextKeepsInv(s: State, a: Action)
    requires Inv(s)
    ensures Inv(Next(s, a))
  {
    NextKeepsMatched(s, a);
    hide Core, Matched;
    if Enabled(s, a) {
      match a
      case Begin(id, append) => BeginStep(s, id, append);
      case Ensure(owner, conversation) => EnsureStep(s, owner, conversation);
      case Abort(id) => AbortStep(s, id);
      case Step(id) => if s.txs[id].pc == LockRow { LockRowStep(s, id); } else { HeldStep(s, id); }
    }
  }

  lemma {:induction false} RunKeepsInv(acts: seq<Action>)
    ensures Inv(Run(acts))
  {
    if acts != [] {
      hide Inv, Next;
      RunKeepsInv(acts[..|acts| - 1]);
      NextKeepsInv(Run(acts[..|acts| - 1]), acts[|acts| - 1]);
    }
  }

  // ------------------------------------------------------------------ the theorems

  ghost predicate Begins(a: Action, id: nat) { a.Begin? && a.id == id }

  /** Action `k` is the first to ask for transaction `id`, with this append. */
  ghost predicate Asked(acts: seq<Action>, k: nat, id: nat, append: Append) {
    && k < |acts| && acts[k] == Begin(id, append)
    && forall j | 0 <= j < k :: !Begins(acts[j], id)
  }

  ghost predicate IsAsked(acts: seq<Action>, id: nat, append: Append) {
    exists k: nat :: Asked(acts, k, id, append)
  }

  lemma NextKeepsAppends(s: State, a: Action, id: nat)
    ensures var s' := Next(s, a);
            && (id in s'.txs <==> id in s.txs || Begins(a, id))
            && (id in s.txs ==> s'.txs[id].a == s.txs[id].a)
            && (id !in s.txs && Begins(a, id) ==> a == Begin(id, s'.txs[id].a))
  {
    hide Release, FindOwn, NewMessage, Violates, Owns, EnsureConversation;
  }

  /** The transactions are what was asked for: each carries out the first append begun under its number,
      and every number begun has its transaction. */
  lemma {:induction false} TransactionsAreAppends(acts: seq<Action>, id: nat)
    ensures var txs := Run(acts).txs;
            && (id in txs ==> IsAsked(acts, id, txs[id].a))
            && (id !in txs ==> forall j | 0 <= j < |acts| :: !Begins(acts[j], id))
  {
    if acts != [] {
      var n := |acts| - 1;
      var before, s := acts[..n], Run(acts[..n]);
      TransactionsAreAppends(before, id);
      NextKeepsAppends(s, acts[n], id);
      hide Next, Begins;
      var txs := Run(acts).txs;
      assert forall j | 0 <= j < n :: before[j] == acts[j];
      if id in s.txs {
        var k: nat :| Asked(before, k, id, s.txs[id].a);
        assert Asked(acts, k, id, txs[id].a);
      } else if id in txs {
        assert Asked(acts, n, id, txs[id].a);
      }
    }
  }

  /** In every reachable state of concurrent appends each conversation's committed messages are
      numbered 1, 2, ..., n in commit order. */
  lemma AlwaysGapless(acts: seq<Action>, conversation: string)
    ensures CountsFromOne(Numbers(Run(acts).db.messages, conversation))
  {
    RunKeepsInv(acts);
  }

  /** Whatever is committed stays: a step only ever adds rows at the end. */
  lemma RowsNeverChange(acts: seq<Action>, more: seq<Action>)
    ensures Run(acts).db.messages <= Run(acts + more).db.messages
  {
    if more == [] {
      assert acts + more == acts;
    } else {
      var n := |more| - 1;
      RowsNeverChange(acts, more[..n]);
      assert (acts + more)[..|acts + more| - 1] == acts + more[..n];
      StepAddsRows(Run(acts + more[..n]), more[n]);
    }
  }

  lemma StepAddsRows(s: State, a: Action)
    ensures s.db.messages <= Next(s, a).db.messages
  {
  }

  /** The committed tables are those of a serial history whose appends are the calls of exactly the
      finished transactions, one entry each, in the order in which they committed; and every
      finished append got the answer that it gets at its place in that history. Aborted transactions
      are nowhere in it. */
  lemma Serialisable(acts: seq<Action>)
    ensures var s := Run(acts);
            s.db == Replay(s.history) && AnsweredOk(s.history, s.txs) && Matched(s.history, s.txs)
  {
    RunKeepsInv(acts);
  }

  /** Whichever sessions raced: of two finished appends with one message id and owner, the later
      returns the row that the earlier stored, if it names a conversation of the owner, and changes
      nothing. In particular it uses up no number. */
  lemma RepeatReturnsStoredRow(acts: seq<Action>, i: nat, j: nat)
    requires var s := Run(acts);
             && i in s.txs && j in s.txs && s.txs[i].pc == Done && s.txs[j].pc == Done
             && s.txs[i].a.id == s.txs[j].a.id && s.txs[i].a.owner == s.txs[j].a.owner
             && s.txs[i].at < s.txs[j].at && s.txs[i].outcome.Some?
    ensures var s := Run(acts);
            && s.txs[j].at < |s.history|
            && var before := Replay(s.history[..s.txs[j].at]);
            && s.txs[j].outcome == (if Owns(before, s.txs[j].a.owner, s.txs[j].a.conversation)
                                    then s.txs[i].outcome else None)
            && Replay(s.history[..s.txs[j].at + 1]) == before
  {
    hide *;
    FinishedAnswers(acts, i);
    FinishedAnswers(acts, j);
    AnsweredRepeat(Run(acts).history, Run(acts).txs[i], Run(acts).txs[j]);
  }

  /** Whichever sessions raced: each finished append did, at its place in the serial history, what an
      append does, and what it stored is among the committed rows for good. So the text of every
      append whose id was new is in its row. */
  lemma FinishedAppendIsStored(acts: seq<Action>, id: nat)
    requires id in Run(acts).txs && Run(acts).txs[id].pc == Done
    ensures var s, tx := Run(acts), Run(acts).txs[id];
            && tx.at < |s.history|
            && IsAppend(Replay(s.history[..tx.at]), tx.a, Replay(s.history[..tx.at + 1]), tx.outcome)
            && Replay(s.history[..tx.at + 1]).messages <= s.db.messages
  {
    FinishedAnswers(acts, id);
    Serialisable(acts);
    hide Run;
    PlaceAnswers(Run(acts).history, Run(acts).txs[id]);
  }

  lemma PlaceAnswers(history: seq<Operation>, tx: Tx)
    requires Answers(history, tx)
    ensures tx.at < |history|
    ensures IsAppend(Replay(history[..tx.at]), tx.a, Replay(history[..tx.at + 1]), tx.outcome)
    ensures Replay(history[..tx.at + 1]).messages <= Replay(history).messages
  {
    hide Replay, AppendMessage, IsAppend, Gapless;
    PlaceInHistory(history, tx.at);
    RunsStayGapless(history[..tx.at]);
    AppendStoresText(Replay(history[..tx.at]), tx.a);
    ReplayGrows(history[..tx.at + 1], history[tx.at + 1..]);
    assert history[..tx.at + 1] + history[tx.at + 1..] == history;
  }

  lemma FinishedAnswers(acts: seq<Action>, id: nat)
    requires id in Run(acts).txs && Run(acts).txs[id].pc == Done
    ensures Answers(Run(acts).history, Run(acts).txs[id]) && Run(acts).txs[id].at < |Run(acts).history|
  {
    RunKeepsInv(acts);
    assert Answers(Run(acts).history, Run(acts).txs[id]);
    hide Run, Replay;
  }

  lemma AnsweredRepeat(history: seq<Operation>, first: Tx, again: Tx)
    requires Answers(history, first) && Answers(history, again) && first.at < again.at && first.outcome.Some?
    requires first.a.id == again.a.id && first.a.owner == again.a.owner
    ensures again.at < |history|
    ensures var before := Replay(history[..again.at]);
            && again.outcome == (if Owns(before, again.a.owner, again.a.conversation) then first.outcome else None)
            && Replay(history[..again.at + 1]) == before
  {
    hide AppendMessage, Replay, Owns;
    LaterRepeat(history, first.at, again.at);
  }

  lemma LaterRepeat(history: seq<Operation>, k: nat, n: nat)
    requires k < n < |history| && history[k].DoAppend? && history[n].DoAppend?
    requires history[k].a.id == history[n].a.id && history[k].a.owner == history[n].a.owner
    requires AppendMessage(Replay(history[..k]), history[k].a).1.Some?
    ensures var early, late, b := Replay(history[..k]), Replay(history[..n]), history[n].a;
            && AppendMessage(late, b).1 == (if Owns(late, b.owner, b.conversation)
                                          then AppendMessage(early, history[k].a).1 else None)
            && Replay(history[..n + 1]) == late
  {
    hide AppendMessage, Gapless, Replay;
    var early, late, b := Replay(history[..k]), Replay(history[..n]), history[n].a;
    PlaceInHistory(history, k);
    PlaceInHistory(history, n);
    RunsStayGapless(history[..k]);
    RunsStayGapless(history[..n]);
    assert history[..n] == history[..k + 1] + history[k + 1..n];
    ReplayGrows(history[..k + 1], history[k + 1..n]);
    if Owns(late, b.owner, b.conversation) {
      RepeatReturnsStored(early, history[k].a, late, b);
    } else {
      AppendRefused(late, b);
    }
  }

  lemma PlaceInHistory(history: seq<Operation>, k: nat)
    requires k < |history|
    ensures Replay(history[..k + 1]) == Apply(Replay(history[..k]), history[k])
    ensures history[k].DoAppend? ==>
              Apply(Replay(history[..k]), history[k]) == AppendMessage(Replay(history[..k]), history[k].a).0
  {
    assert history[..k + 1][..k] == history[..k];
  }

  lemma AppendRefused(db: Tables, a: Append)
    requires !Owns(db, a.owner, a.conversation)
    ensures AppendMessage(db, a) == (db, None)
  {
  }

  lemma {:induction false} ReplayGrows(ops: seq<Operation>, more: seq<Operation>)
    ensures Replay(ops).messages <= Replay(ops + more).messages
  {
    if more == [] {
      assert ops + more == ops;
    } else {
      var n := |more| - 1;
      ReplayGrows(ops, more[..n]);
      assert ops + more == (ops + more[..n]) + [more[n]];
      ReplayStep(ops + more[..n], more[n]);
    }
  }

  /** How many more steps a transaction has at most. */
  function Rank(pc: Pc): nat {
    match pc
    case LockRow => 4
    case LookUp => 3
    case Insert => 2
    case ReadWinner => 1
    case Commit => 1
    case Done => 0
    case Aborted => 0
  }

  /** No deadlock: while any append is unfinished, some append can take a step, and each step brings
      its transaction strictly closer to its end. A lock waiter waits for a transaction inside its
      conversation, and an insert waits only for one that is about to commit. */
  lemma NoDeadlock(acts: seq<Action>, id: nat)
    requires id in Run(acts).txs && !Run(acts).txs[id].Ended()
    ensures var s := Run(acts);
            exists w :: w in s.txs && Enabled(s, Step(w)) && w in StepOf(s, w).txs
                        && Rank(StepOf(s, w).txs[w].pc) < Rank(s.txs[w].pc)
  {
    RunKeepsInv(acts);
    LocksHaveHolders(acts);
    hide Inv, NewMessage, StepOf, Rank;
    var s := Run(acts);
    var w := id;
    if !Enabled(s, Step(id)) {
      var h := if s.txs[id].pc == LockRow then s.rowLocks[s.txs[id].a.conversation] else id;
      assert h in s.txs && s.txs[h].pc != LockRow && !s.txs[h].Ended();
      w := h;
      if !Enabled(s, Step(h)) {
        var t :| t in s.txs && s.txs[t].pc == Commit;
        w := t;
      }
    }
    StepAdvances(s, w);
  }

  lemma StepAdvances(s: State, id: nat)
    requires Enabled(s, Step(id))
    ensures id in StepOf(s, id).txs && Rank(StepOf(s, id).txs[id].pc) < Rank(s.txs[id].pc)
  {
    hide NewMessage, FindMessage, FindOwn, Violates, Contended, Owns, Release;
  }

  lemma {:induction false} LocksHaveHolders(acts: seq<Action>)
    ensures forall c | c in Run(acts).rowLocks ::
              Run(acts).rowLocks[c] in Run(acts).txs && HasLock(Run(acts).txs[Run(acts).rowLocks[c]].pc)
  {
    if acts != [] {
      LocksHaveHolders(acts[..|acts| - 1]);
      RunKeepsInv(acts[..|acts| - 1]);
      HoldersStay(Run(acts[..|acts| - 1]), acts[|acts| - 1]);
    }
  }

  lemma HoldersStay(s: State, a: Action)
    requires forall c | c in s.rowLocks :: s.rowLocks[c] in s.txs && HasLock(s.txs[s.rowLocks[c]].pc)
    ensures var s' := Next(s, a);
            forall c | c in s'.rowLocks :: s'.rowLocks[c] in s'.txs && HasLock(s'.txs[s'.rowLocks[c]].pc)
  {
    hide NewMessage, FindMessage, Contended, Violates, Owns, FindOwn;
  }
}
