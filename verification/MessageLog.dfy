/** Conversations and their messages: `common/src/query_domain_repository.cpp`,
    `ensureConversation` and `appendMessageAutoSequence`, one transaction at a time. */
module MessageLog {
  import opened Common

  /** A row of `conversation_messages`, in the order in which the rows were committed. */
  datatype Message = Message(id: string, owner: string, conversation: string, role: string, content: string,
                             sequenceNo: nat)

  /** The conversation rows, as id to owner, and the message rows. */
  datatype Tables = Tables(conversations: map<string, string>, messages: seq<Message>)

  datatype Append = Append(id: string, owner: string, conversation: string, role: string, content: string)

  function FindMessage(rows: seq<Message>, id: string): Option<Message> {
    if rows == [] then None
    else if rows[|rows| - 1].id == id then Some(rows[|rows| - 1])
    else FindMessage(rows[..|rows| - 1], id)
  }

  /** SELECT ... WHERE id = $1 AND owner_id = $2. */
  function FindOwn(rows: seq<Message>, id: string, owner: string): Option<Message> {
    match FindMessage(rows, id)
    case Some(m) => if m.owner == owner then Some(m) else None
    case None => None
  }

  /** COALESCE(MAX(sequence_no), 0) of one owner's conversation. */
  function MaxSequence(rows: seq<Message>, owner: string, conversation: string): nat {
    if rows == [] then 0
    else
      var m, rest := rows[|rows| - 1], MaxSequence(rows[..|rows| - 1], owner, conversation);
      if m.owner == owner && m.conversation == conversation && m.sequenceNo > rest then m.sequenceNo else rest
  }

  predicate Owns(db: Tables, owner: string, conversation: string) {
    conversation in db.conversations && db.conversations[conversation] == owner
  }

  function NewMessage(db: Tables, a: Append): Message {
    Message(a.id, a.owner, a.conversation, a.role, a.content, MaxSequence(db.messages, a.owner, a.conversation) + 1)
  }

  /** The whole append transaction, run alone. */
  function AppendMessage(db: Tables, a: Append): (Tables, Option<Message>) {
    if !Owns(db, a.owner, a.conversation) then (db, None)
    else if FindMessage(db.messages, a.id).Some? then (db, FindOwn(db.messages, a.id, a.owner))
    else (db.(messages := db.messages + [NewMessage(db, a)]), Some(NewMessage(db, a)))
  }

  /** `ensureConversation`: insert if absent, then accept only the owner. */
  function EnsureConversation(db: Tables, owner: string, conversation: string): (Tables, bool) {
    if conversation in db.conversations then (db, db.conversations[conversation] == owner)
    else (db.(conversations := db.conversations[conversation := owner]), true)
  }

  // ------------------------------------------------------------------ gapless numbering

  /** The sequence numbers of one conversation, in commit order. */
  function Numbers(rows: seq<Message>, conversation: string): seq<nat> {
    if rows == [] then []
    else
      var m := rows[|rows| - 1];
      Numbers(rows[..|rows| - 1], conversation) + if m.conversation == conversation then [m.sequenceNo] else []
  }

  ghost predicate CountsFromOne(s: seq<nat>) {
    forall i | 0 <= i < |s| :: s[i] == i + 1
  }

  /** Ids are unique, every message belongs to its conversation's owner, and each conversation is
      numbered 1, 2, 3, ... in commit order. */
  ghost predicate Gapless(db: Tables) {
    && (forall i, j | 0 <= i < j < |db.messages| :: db.messages[i].id != db.messages[j].id)
    && (forall i | 0 <= i < |db.messages| :: Owns(db, db.messages[i].owner, db.messages[i].conversation))
    && (forall c :: CountsFromOne(Numbers(db.messages, c)))
  }

  lemma {:induction false} FindMeansListed(rows: seq<Message>, id: string)
    ensures FindMessage(rows, id).None? <==> forall i | 0 <= i < |rows| :: rows[i].id != id
    ensures FindMessage(rows, id).Some? ==> FindMessage(rows, id).value in rows && FindMessage(rows, id).value.id == id
  {
    if rows != [] {
      var front := rows[..|rows| - 1];
      FindMeansListed(front, id);
      assert forall i | 0 <= i < |front| :: front[i] == rows[i];
    }
  }

  lemma {:induction false} MaxIsCount(rows: seq<Message>, owner: string, conversation: string)
    requires forall i | 0 <= i < |rows| && rows[i].conversation == conversation :: rows[i].owner == owner
    requires CountsFromOne(Numbers(rows, conversation))
    ensures MaxSequence(rows, owner, conversation) == |Numbers(rows, conversation)|
  {
    if rows != [] {
      var front := rows[..|rows| - 1];
      assert forall i | 0 <= i < |front| :: front[i] == rows[i];
      NumbersGrow(front, rows[|rows| - 1], conversation);
      assert rows == front + [rows[|rows| - 1]];
      var few, all := Numbers(front, conversation), Numbers(rows, conversation);
      assert few <= all;
      assert forall i | 0 <= i < |few| :: few[i] == all[i];
      MaxIsCount(front, owner, conversation);
      if rows[|rows| - 1].conversation == conversation { assert all[|few|] == |few| + 1; }
    }
  }

  lemma NumbersGrow(rows: seq<Message>, m: Message, conversation: string)
    ensures Numbers(rows + [m], conversation) ==
            Numbers(rows, conversation) + if m.conversation == conversation then [m.sequenceNo] else []
  {
    assert (rows + [m])[..|rows + [m]| - 1] == rows;
  }

  /** An append takes exactly the next number of its conversation. */
  lemma NextNumber(db: Tables, a: Append)
    requires Gapless(db) && Owns(db, a.owner, a.conversation)
    ensures NewMessage(db, a).sequenceNo == |Numbers(db.messages, a.conversation)| + 1
  {
    hide Numbers;
    MaxIsCount(db.messages, a.owner, a.conversation);
  }

  lemma AppendKeepsGapless(db: Tables, a: Append)
    requires Gapless(db)
    ensures Gapless(AppendMessage(db, a).0)
    ensures db.messages <= AppendMessage(db, a).0.messages
  {
    hide Numbers, FindMessage, NewMessage;
    FindMeansListed(db.messages, a.id);
    var db' := AppendMessage(db, a).0;
    if db' != db {
      var m := NewMessage(db, a);
      NextNumber(db, a);
      NewMessageFields(db, a);
      assert db'.messages == db.messages + [m];
      forall c ensures CountsFromOne(Numbers(db'.messages, c)) {
        NumbersGrow(db.messages, m, c);
      }
    }
  }

  lemma NewMessageFields(db: Tables, a: Append)
    ensures var m := NewMessage(db, a); m.id == a.id && m.owner == a.owner && m.conversation == a.conversation
  {
  }

  lemma EnsureKeepsGapless(db: Tables, owner: string, conversation: string)
    requires Gapless(db)
    ensures Gapless(EnsureConversation(db, owner, conversation).0)
    ensures EnsureConversation(db, owner, conversation).0.messages == db.messages
    ensures forall c, o | Owns(db, o, c) :: Owns(EnsureConversation(db, owner, conversation).0, o, c)
  {
    hide Numbers;
  }

  /** What an append does, said of the rows: nothing without the owner's conversation; nothing for a
      stored id, which is answered with its row if it is the owner's; else one row with the caller's
      text and the next number of the conversation. */
  ghost predicate IsAppend(db: Tables, a: Append, db': Tables, stored: Option<Message>) {
    var owned := a.conversation in db.conversations && db.conversations[a.conversation] == a.owner;
    && db'.conversations == db.conversations
    && (!owned ==> db' == db && stored == None)
    && (forall m | owned && m in db.messages && m.id == a.id ::
          db' == db && stored == if m.owner == a.owner then Some(m) else None)
    && (owned && (forall m | m in db.messages :: m.id != a.id) ==>
          var next := |Numbers(db.messages, a.conversation)| + 1;
          var row := Message(a.id, a.owner, a.conversation, a.role, a.content, next);
          db'.messages == db.messages + [row] && stored == Some(row))
  }

  lemma AppendStoresText(db: Tables, a: Append)
    requires Gapless(db)
    ensures IsAppend(db, a, AppendMessage(db, a).0, AppendMessage(db, a).1)
  {
    FindMeansListed(db.messages, a.id);
    if Owns(db, a.owner, a.conversation) {
      NextNumber(db, a);
      var found := FindMessage(db.messages, a.id);
      if found.Some? {
        forall m | m in db.messages && m.id == a.id ensures m == found.value {
          var i :| 0 <= i < |db.messages| && db.messages[i] == m;
          var j :| 0 <= j < |db.messages| && db.messages[j] == found.value;
        }
      }
    }
    hide Numbers, FindMessage, MaxSequence;
  }

  /** Repeating a message id later, from whatever conversation of the same owner and with whatever
      text, returns the stored row and uses up no number. */
  lemma RepeatReturnsStored(db: Tables, a: Append, later: Tables, again: Append)
    requires Gapless(later) && AppendMessage(db, a).1.Some?
    requires AppendMessage(db, a).0.messages <= later.messages
    requires again.id == a.id && again.owner == a.owner && Owns(later, again.owner, again.conversation)
    requires Gapless(db)
    ensures AppendMessage(later, again) == (later, AppendMessage(db, a).1)
  {
    hide Numbers, NewMessage;
    var (db', stored) := AppendMessage(db, a);
    FindMeansListed(db.messages, a.id);
    NewMessageFields(db, a);
    AppendKeepsGapless(db, a);
    assert stored.value in db'.messages && stored.value.id == a.id && stored.value.owner == a.owner;
    var i :| 0 <= i < |db'.messages| && db'.messages[i] == stored.value;
    assert later.messages[i] == stored.value;
    FindMeansListed(later.messages, a.id);
    var found := FindMessage(later.messages, a.id);
    var j :| 0 <= j < |later.messages| && later.messages[j] == found.value;
    assert i == j;
  }

  // ------------------------------------------------------------------ runs

  datatype Operation = DoAppend(a: Append) | DoEnsure(owner: string, conversation: string)

  function Apply(db: Tables, op: Operation): Tables {
    match op
    case DoAppend(a) => AppendMessage(db, a).0
    case DoEnsure(owner, conversation) => EnsureConversation(db, owner, conversation).0
  }

  function Replay(ops: seq<Operation>): Tables {
    if ops == [] then Tables(map[], []) else Apply(Replay(ops[..|ops| - 1]), ops[|ops| - 1])
  }

  lemma ReplayStep(ops: seq<Operation>, op: Operation)
    ensures Replay(ops + [op]) == Apply(Replay(ops), op)
  {
    assert (ops + [op])[..|ops + [op]| - 1] == ops;
  }

  lemma {:induction false} RunsStayGapless(ops: seq<Operation>)
    ensures Gapless(Replay(ops))
  {
    if ops != [] {
      hide Gapless, AppendMessage, EnsureConversation;
      var front := ops[..|ops| - 1];
      RunsStayGapless(front);
      match ops[|ops| - 1]
      case DoAppend(a) => AppendKeepsGapless(Replay(front), a);
      case DoEnsure(owner, conversation) => EnsureKeepsGapless(Replay(front), owner, conversation);
    }
  }

  // ------------------------------------------------------------------ the repository

  /** The two methods of `QueryDomainRepository`, with the tables they change. */
  class Repository {
    var conversations: map<string, string>
    var messages: seq<Message>

    function Contents(): Tables
      reads this
    {
      Tables(conversations, messages)
    }

    constructor ()
      ensures Contents() == Replay([])
    {
      conversations, messages := map[], [];
    }

    method Ensure(owner: string, conversation: string) returns (ensured: bool)
      modifies this
      ensures (Contents(), ensured) == EnsureConversation(old(Contents()), owner, conversation)
      ensures conversations == if conversation in old(conversations) then old(conversations)
                               else old(conversations)[conversation := owner]
      ensures messages == old(messages) && (ensured <==> conversations[conversation] == owner)
    {
      if conversation in conversations {
        ensured := conversations[conversation] == owner;
        return;
      }
      conversations := conversations[conversation := owner];
      ensured := true;
    }

    method AppendAutoSequence(a: Append) returns (stored: Option<Message>)
      modifies this
      ensures (Contents(), stored) == AppendMessage(old(Contents()), a)
      ensures Gapless(old(Contents())) ==> IsAppend(old(Contents()), a, Contents(), stored) && Gapless(Contents())
    {
      if Gapless(Contents()) {
        AppendStoresText(Contents(), a);
        AppendKeepsGapless(Contents(), a);
      }
      hide Gapless, IsAppend;
      stored := None;
      if !Owns(Contents(), a.owner, a.conversation) { return; }
      stored := FindOwn(messages, a.id, a.owner);
      if stored.Some? { return; }
      if FindMessage(messages, a.id).None? {
        var next := MaxSequence(messages, a.owner, a.conversation) + 1;
        stored := Some(Message(a.id, a.owner, a.conversation, a.role, a.content, next));
        messages := messages + [stored.value];
        return;
      }
      stored := FindOwn(messages, a.id, a.owner);
    }
  }
}
