/** The in-memory agent directory with its tag and skill indexes: `server/src/agent_service.cpp`.

    Registration adds an agent to the indexes but never takes an earlier registration of the same id
    out. The theorems say what that means for `FindAgents`. */
module AgentIndex {
  import opened Common
  import opened Sorting

  type Index = map<string, set<string>>

  datatype Agent = Agent(info: Endpoint, heartbeat: int)

  datatype State = State(agents: map<string, Agent>, tags: Index, skills: Index)

  /** 300 seconds, in nanoseconds. */
  const GRACE_PERIOD := 300_000_000_000

  predicate Has(ix: Index, key: string, id: string) { key in ix && id in ix[key] }

  predicate NoEmpty(ix: Index) { forall key | key in ix :: ix[key] != {} }

  // ------------------------------------------------------------------ index updates

  function Put(ix: Index, key: string, id: string): Index {
    ix[key := (if key in ix then ix[key] else {}) + {id}]
  }

  function Drop(ix: Index, key: string, id: string): Index {
    if key !in ix then ix
    else if ix[key] - {id} == {} then ix - {key}
    else ix[key := ix[key] - {id}]
  }

  function PutAll(ix: Index, keys: seq<string>, id: string): Index {
    if keys == [] then ix else Put(PutAll(ix, keys[..|keys| - 1], id), keys[|keys| - 1], id)
  }

  function DropAll(ix: Index, keys: seq<string>, id: string): Index {
    if keys == [] then ix else Drop(DropAll(ix, keys[..|keys| - 1], id), keys[|keys| - 1], id)
  }

  lemma PutAdds(ix: Index, key: string, id: string)
    ensures forall k, x :: Has(Put(ix, key, id), k, x) <==> Has(ix, k, x) || (x == id && k == key)
    ensures NoEmpty(ix) ==> NoEmpty(Put(ix, key, id))
  {
    assert Has(Put(ix, key, id), key, id);
  }

  lemma {:induction false} PutAllAdds(ix: Index, keys: seq<string>, id: string)
    ensures forall k, x :: Has(PutAll(ix, keys, id), k, x) <==> Has(ix, k, x) || (x == id && k in keys)
    ensures NoEmpty(ix) ==> NoEmpty(PutAll(ix, keys, id))
  {
    if keys != [] {
      var front, last := keys[..|keys| - 1], keys[|keys| - 1];
      PutAllAdds(ix, front, id);
      PutAdds(PutAll(ix, front, id), last, id);
      assert keys == front + [last];
    }
  }

  lemma DropRemoves(ix: Index, key: string, id: string)
    ensures forall k, x :: Has(Drop(ix, key, id), k, x) <==> Has(ix, k, x) && !(x == id && k == key)
    ensures NoEmpty(ix) ==> NoEmpty(Drop(ix, key, id))
  {
    if key in ix && ix[key] - {id} == {} {
      assert forall x | x in ix[key] :: x == id || x in ix[key] - {id};
    }
  }

  lemma {:induction false} DropAllRemoves(ix: Index, keys: seq<string>, id: string)
    ensures forall k, x :: Has(DropAll(ix, keys, id), k, x) <==> Has(ix, k, x) && !(x == id && k in keys)
    ensures NoEmpty(ix) ==> NoEmpty(DropAll(ix, keys, id))
  {
    if keys != [] {
      var front, last := keys[..|keys| - 1], keys[|keys| - 1];
      DropAllRemoves(ix, front, id);
      DropRemoves(DropAll(ix, front, id), last, id);
      assert keys == front + [last];
    }
  }

  // ------------------------------------------------------------------ the operations

  datatype Op = Register(id: string, agent: Agent) | Remove(id: string) | Heartbeat(id: string, now: int)

  function Registered(s: State, id: string, a: Agent): State {
    State(s.agents[id := a], PutAll(s.tags, a.info.tags, id), PutAll(s.skills, a.info.skills, id))
  }

  function Removed(s: State, id: string): State {
    if id !in s.agents then s
    else
      var info := s.agents[id].info;
      State(s.agents - {id}, DropAll(s.tags, info.tags, id), DropAll(s.skills, info.skills, id))
  }

  function Next(s: State, op: Op): State {
    match op
    case Register(id, a) => Registered(s, id, a)
    case Remove(id) => Removed(s, id)
    case Heartbeat(id, now) =>
      if id in s.agents then s.(agents := s.agents[id := s.agents[id].(heartbeat := now)]) else s
  }

  const EMPTY := State(map[], map[], map[])

  function Run(ops: seq<Op>): State {
    if ops == [] then EMPTY else Next(Run(ops[..|ops| - 1]), ops[|ops| - 1])
  }

  function RemoveAll(s: State, ids: seq<string>): State {
    if ids == [] then s else Removed(RemoveAll(s, ids[..|ids| - 1]), ids[|ids| - 1])
  }

  predicate Offline(a: Agent, now: int) { now - a.heartbeat > GRACE_PERIOD }

  ghost function OfflineAmong(agents: map<string, Agent>, ids: seq<string>, now: int): set<string> {
    set id | id in ids && id in agents && Offline(agents[id], now)
  }

  lemma OfflineIsSilent(agents: map<string, Agent>, order: seq<string>, now: int)
    requires Elements(order) == agents.Keys
    ensures OfflineAmong(agents, order, now)
            == set id | id in agents && now - agents[id].heartbeat > 300 * 1_000_000_000
  {
    assert forall id :: id in agents <==> id in Elements(order);
  }

  lemma OfflineOneMore(agents: map<string, Agent>, order: seq<string>, i: nat, now: int)
    requires i < |order| && NoDuplicates(order) && Elements(order) == agents.Keys
    ensures order[i] in agents && order[i] !in OfflineAmong(agents, order[..i], now)
    ensures OfflineAmong(agents, order[..i + 1], now)
            == OfflineAmong(agents, order[..i], now) + (if Offline(agents[order[i]], now) then {order[i]} else {})
  {
    hide Offline;
    assert order[i] in Elements(order);
    assert order[..i + 1] == order[..i] + [order[i]];
  }

  lemma RemoveOneMore(s: State, ids: seq<string>, id: string)
    ensures RemoveAll(s, ids + [id]) == Removed(RemoveAll(s, ids), id)
    ensures Elements(ids + [id]) == Elements(ids) + {id}
  {
    assert (ids + [id])[..|ids|] == ids;
  }

  // ------------------------------------------------------------------ searching

  datatype Request = Request(tag: string, skill: string, keyword: string, limit: int)

  /** `std::string::find(...) != npos`. */
  predicate Contains(s: string, part: string) {
    |part| <= |s| && (s[..|part|] == part || (s != [] && Contains(s[1..], part)))
  }

  /** What the indexes say about an id. */
  predicate IndexSelects(s: State, q: Request, id: string) {
    && (q.tag == "" || Has(s.tags, q.tag, id))
    && (q.skill == "" || Has(s.skills, q.skill, id))
  }

  predicate KeywordSelects(q: Request, a: Agent) { q.keyword == "" || Contains(a.info.serviceName, q.keyword) }

  predicate IndexAnswer(s: State, q: Request, id: string)
    requires id in s.agents
  {
    IndexSelects(s, q, id) && KeywordSelects(q, s.agents[id])
  }

  /** What the request asks for, read off the agent itself. */
  predicate Wanted(s: State, q: Request, id: string)
    requires id in s.agents
  {
    && (q.tag == "" || q.tag in s.agents[id].info.tags)
    && (q.skill == "" || q.skill in s.agents[id].info.skills)
    && KeywordSelects(q, s.agents[id])
  }

  function Limit(q: Request): int { if q.limit <= 0 then 100 else q.limit }

  ghost predicate Known(s: State, order: seq<string>) { forall id | id in order :: id in s.agents }

  function FromIndex(s: State, q: Request, order: seq<string>): seq<string>
    requires Known(s, order)
  {
    if order == [] then []
    else
      var n := |order| - 1;
      FromIndex(s, q, order[..n]) + (if IndexAnswer(s, q, order[n]) then [order[n]] else [])
  }

  function FromScan(s: State, q: Request, order: seq<string>): seq<string>
    requires Known(s, order)
  {
    if order == [] then []
    else
      var n := |order| - 1;
      FromScan(s, q, order[..n]) + (if Wanted(s, q, order[n]) then [order[n]] else [])
  }

  function Cut(ids: seq<string>, q: Request): seq<string> {
    if |ids| <= Limit(q) then ids else ids[..Limit(q)]
  }

  /** The agents a linear scan over `order` returns, cut at the limit. */
  function NaiveAnswer(s: State, q: Request, order: seq<string>): seq<string>
    requires Known(s, order)
  {
    Cut(FromScan(s, q, order), q)
  }

  function SearchAnswer(s: State, q: Request, order: seq<string>): seq<string>
    requires Known(s, order)
  {
    Cut(FromIndex(s, q, order), q)
  }

  class Directory {
    var agents: map<string, Agent>
    var tags: Index
    var skills: Index

    ghost function Now(): State
      reads this
    {
      State(agents, tags, skills)
    }

    constructor ()
      ensures Now() == EMPTY
    {
      agents, tags, skills := map[], map[], map[];
    }

    method AddToIndexes(id: string, info: Endpoint)
      modifies this
      ensures agents == old(agents)
      ensures tags == PutAll(old(tags), info.tags, id) && skills == PutAll(old(skills), info.skills, id)
    {
      for i := 0 to |info.tags|
        invariant agents == old(agents) && skills == old(skills)
        invariant tags == PutAll(old(tags), info.tags[..i], id)
      {
        assert info.tags[..i + 1][..i] == info.tags[..i];
        tags := Put(tags, info.tags[i], id);
      }
      assert info.tags[..|info.tags|] == info.tags;
      for i := 0 to |info.skills|
        invariant agents == old(agents) && tags == PutAll(old(tags), info.tags, id)
        invariant skills == PutAll(old(skills), info.skills[..i], id)
      {
        assert info.skills[..i + 1][..i] == info.skills[..i];
        skills := Put(skills, info.skills[i], id);
      }
      assert info.skills[..|info.skills|] == info.skills;
    }

    method RemoveFromIndexes(id: string)
      modifies this
      ensures agents == old(agents)
      ensures id !in agents ==> Now() == old(Now())
      ensures id in agents ==>
                var info := agents[id].info;
                tags == DropAll(old(tags), info.tags, id) && skills == DropAll(old(skills), info.skills, id)
    {
      if id !in agents { return; }
      var info := agents[id].info;
      for i := 0 to |info.tags|
        invariant agents == old(agents) && skills == old(skills)
        invariant tags == DropAll(old(tags), info.tags[..i], id)
      {
        assert info.tags[..i + 1][..i] == info.tags[..i];
        tags := Drop(tags, info.tags[i], id);
      }
      assert info.tags[..|info.tags|] == info.tags;
      for i := 0 to |info.skills|
        invariant agents == old(agents) && tags == DropAll(old(tags), info.tags, id)
        invariant skills == DropAll(old(skills), info.skills[..i], id)
      {
        assert info.skills[..i + 1][..i] == info.skills[..i];
        skills := Drop(skills, info.skills[i], id);
      }
      assert info.skills[..|info.skills|] == info.skills;
    }

    method RegisterAgent(id: string, info: Endpoint, now: int)
      modifies this
      ensures Now() == Registered(old(Now()), id, Agent(info, now))
      ensures agents == old(agents)[id := Agent(info, now)]
      ensures forall t, x :: Has(tags, t, x) <==> Has(old(tags), t, x) || (x == id && t in info.tags)
      ensures forall k, x :: Has(skills, k, x) <==> Has(old(skills), k, x) || (x == id && k in info.skills)
    {
      agents := agents[id := Agent(info, now)];
      AddToIndexes(id, info);
      PutAllAdds(old(tags), info.tags, id);
      PutAllAdds(old(skills), info.skills, id);
      hide PutAll, Has;
    }

    method UnregisterAgent(id: string)
      modifies this
      ensures Now() == Removed(old(Now()), id) && agents == old(agents) - {id}
      ensures id in old(agents) ==>
                var info := old(agents)[id].info;
                && (forall t, x :: Has(tags, t, x) <==> Has(old(tags), t, x) && !(x == id && t in info.tags))
                && (forall k, x :: Has(skills, k, x) <==> Has(old(skills), k, x) && !(x == id && k in info.skills))
    {
      RemoveFromIndexes(id);
      if id in agents {
        DropAllRemoves(old(tags), agents[id].info.tags, id);
        DropAllRemoves(old(skills), agents[id].info.skills, id);
      }
      hide DropAll, Has;
      agents := agents - {id};
    }

    method UpdateHeartbeat(id: string, now: int)
      modifies this
      ensures Now() == Next(old(Now()), Heartbeat(id, now))
      ensures tags == old(tags) && skills == old(skills) && agents.Keys == old(agents).Keys
      ensures id in agents ==> agents == old(agents)[id := Agent(old(agents)[id].info, now)]
    {
      if id in agents { agents := agents[id := agents[id].(heartbeat := now)]; }
    }

    /** Walks the agents in key order and removes those whose heartbeat is too old; returns them. */
    method CleanupOfflineAgents(now: int) returns (gone: seq<string>)
      modifies this
      ensures Now() == RemoveAll(old(Now()), gone)
      ensures Elements(gone) == set id | id in old(agents) && now - old(agents)[id].heartbeat > 300 * 1_000_000_000
      ensures agents == old(agents) - Elements(gone)
    {
      var order := KeysInOrder(agents.Keys);
      ghost var all := agents;
      assert Elements(order) == all.Keys && NoDuplicates(order);
      assert RemoveAll(old(Now()), []) == old(Now());
      gone := [];
      hide RemoveAll, Removed, InKeyOrder, Offline;
      for i := 0 to |order|
        invariant Now() == RemoveAll(old(Now()), gone)
        invariant Elements(gone) == OfflineAmong(all, order[..i], now)
        invariant agents == all - Elements(gone)
      {
        var id := order[i];
        OfflineOneMore(all, order, i, now);
        if Offline(agents[id], now) {
          UnregisterAgent(id);
          RemoveOneMore(old(Now()), gone, id);
          gone := gone + [id];
        }
      }
      assert order[..|order|] == order;
      assert forall id :: id in all <==> id in Elements(order);
      OfflineIsSilent(all, order, now);
    }

    /** `FindAgents`: candidates from the indexes, then a walk over the agents in key order. */
    method FindAgents(q: Request) returns (found: seq<string>)
      ensures forall order | InKeyOrder(order, agents.Keys) ::
                Known(Now(), order) && found == SearchAnswer(Now(), q, order)
      ensures IsFound(Now(), q, found)
    {
      var limit := Limit(q);
      var candidates, hasFilter := Candidates(q);
      var order := KeysInOrder(agents.Keys);
      assert forall id :: id in order <==> id in Elements(order);
      found := [];
      for i := 0 to |order|
        invariant found == FromIndex(Now(), q, order[..i]) && |found| <= limit
      {
        assert order[..i + 1][..i] == order[..i];
        if |found| >= limit {
          PrefixIsCut(Now(), q, order, i);
          ForAnyOrder(q, order, found);
          return;
        }
        if !(hasFilter && order[i] !in candidates) && KeywordSelects(q, agents[order[i]]) {
          found := found + [order[i]];
        }
      }
      assert order[..|order|] == order;
      ForAnyOrder(q, order, found);
    }

    lemma ForAnyOrder(q: Request, order: seq<string>, found: seq<string>)
      requires InKeyOrder(order, agents.Keys)
      requires Known(Now(), order) && found == SearchAnswer(Now(), q, order)
      ensures forall order | InKeyOrder(order, agents.Keys) ::
                Known(Now(), order) && found == SearchAnswer(Now(), q, order)
      ensures IsFound(Now(), q, found)
    {
      SearchAnswerIsFound(Now(), q, order);
      hide IsFound, SearchAnswer, Known;
      forall other | InKeyOrder(other, agents.Keys)
        ensures Known(Now(), other) && found == SearchAnswer(Now(), q, other)
      {
        KeyOrderIsUnique(order, other, agents.Keys);
      }
    }

    /** The branches that combine the two index look-ups. */
    method Candidates(q: Request) returns (candidates: set<string>, hasFilter: bool)
      ensures forall id :: !(hasFilter && id !in candidates) <==> IndexSelects(Now(), q, id)
    {
      candidates, hasFilter := {}, false;
      if q.tag != "" {
        hasFilter := true;
        if q.tag in tags { candidates := tags[q.tag]; }
      }
      if q.skill != "" {
        hasFilter := true;
        if q.skill in skills {
          if candidates == {} && q.tag != "" {
          } else if candidates != {} {
            candidates := set id | id in skills[q.skill] && id in candidates;
          } else {
            candidates := skills[q.skill];
          }
        } else if candidates != {} {
          candidates := {};
        }
      }
    }
  }

  /** Stopping at the limit returns what cutting the full answer does. */
  lemma PrefixIsCut(s: State, q: Request, order: seq<string>, i: nat)
    requires Known(s, order) && i <= |order| && |FromIndex(s, q, order[..i])| == Limit(q)
    ensures FromIndex(s, q, order[..i]) == SearchAnswer(s, q, order)
  {
    FoundGrows(s, q, order, i);
  }

  lemma {:induction false} FoundGrows(s: State, q: Request, order: seq<string>, i: nat)
    requires Known(s, order) && i <= |order|
    ensures FromIndex(s, q, order[..i]) <= FromIndex(s, q, order)
    decreases |order|
  {
    if i < |order| {
      var n := |order| - 1;
      FoundGrows(s, q, order[..n], i);
      assert order[..n][..i] == order[..i];
    } else {
      assert order[..i] == order;
    }
  }

  // ------------------------------------------------------------------ what an answer is

  ghost predicate OccursAt(s: string, part: string, p: nat) { p + |part| <= |s| && s[p..p + |part|] == part }

  lemma OccursInTail(s: string, part: string, p: nat)
    requires s != []
    ensures OccursAt(s, part, p + 1) <==> OccursAt(s[1..], part, p)
  {
    if p + 1 + |part| <= |s| {
      assert s[p + 1..p + 1 + |part|] == s[1..][p..p + |part|];
    }
  }

  lemma {:induction false} ContainsIff(s: string, part: string)
    ensures Contains(s, part) <==> exists p: nat :: OccursAt(s, part, p)
  {
    if Contains(s, part) {
      if s[..|part|] == part {
        assert OccursAt(s, part, 0);
      } else {
        ContainsIff(s[1..], part);
        var p: nat :| OccursAt(s[1..], part, p);
        OccursInTail(s, part, p);
      }
    }
    if p: nat :| OccursAt(s, part, p) {
      if p > 0 {
        OccursInTail(s, part, p - 1);
        ContainsIff(s[1..], part);
      }
    }
  }

  /** A live agent under the requested tag and skill of the indexes, with the keyword somewhere in its
      service name; an empty filter asks for nothing. */
  ghost predicate Listed(s: State, q: Request, id: string) {
    && id in s.agents
    && (q.tag == "" || (q.tag in s.tags && id in s.tags[q.tag]))
    && (q.skill == "" || (q.skill in s.skills && id in s.skills[q.skill]))
    && (q.keyword == "" || exists p: nat :: OccursAt(s.agents[id].info.serviceName, q.keyword, p))
  }

  /** The first listed agents in key order: all of them, unless the limit leaves the largest ids out. */
  ghost predicate IsFound(s: State, q: Request, found: seq<string>) {
    var most := if q.limit <= 0 then 100 else q.limit;
    && SortedBy(found, LexLeq) && NoDuplicates(found) && |found| <= most
    && (forall id | id in found :: Listed(s, q, id))
    && (forall id | Listed(s, q, id) && id !in found :: |found| == most)
    && (forall id, f | Listed(s, q, id) && id !in found && f in found :: LexLeq(f, id))
  }

  lemma ListedIsAnswer(s: State, q: Request, id: string)
    ensures Listed(s, q, id) <==> id in s.agents && IndexAnswer(s, q, id)
  {
    if id in s.agents { ContainsIff(s.agents[id].info.serviceName, q.keyword); }
    hide Contains, OccursAt;
  }

  lemma {:induction false} FoundInOrder(s: State, q: Request, order: seq<string>)
    requires Known(s, order) && SortedBy(order, LexLeq) && NoDuplicates(order)
    ensures SortedBy(FromIndex(s, q, order), LexLeq) && NoDuplicates(FromIndex(s, q, order))
    ensures forall id :: id in FromIndex(s, q, order) <==> id in order && IndexAnswer(s, q, id)
  {
    if order != [] {
      FoundInOrder(s, q, order[..|order| - 1]);
      hide IndexAnswer, LexLeq, FromScan;
      var front, last := order[..|order| - 1], order[|order| - 1];
      assert forall i | 0 <= i < |front| :: front[i] == order[i] && LexLeq(front[i], last);
      assert forall id | id in front :: LexLeq(id, last) && id != last;
      var found := FromIndex(s, q, front);
      assert forall id | id in found :: id in front;
      LargestGoesLast(found, last);
    }
  }

  lemma LargestGoesLast(found: seq<string>, last: string)
    requires SortedBy(found, LexLeq) && NoDuplicates(found) && forall id | id in found :: LexLeq(id, last) && id != last
    ensures SortedBy(found + [last], LexLeq) && NoDuplicates(found + [last])
  {
    hide LexLeq;
    assert forall i | 0 <= i < |found| :: found[i] in found;
  }

  /** The walk returns what the request asks of the indexes. */
  lemma SearchAnswerIsFound(s: State, q: Request, order: seq<string>)
    requires InKeyOrder(order, s.agents.Keys) && Known(s, order)
    ensures IsFound(s, q, SearchAnswer(s, q, order))
  {
    FoundInOrder(s, q, order);
    var all, found := FromIndex(s, q, order), SearchAnswer(s, q, order);
    forall id ensures Listed(s, q, id) <==> id in all {
      ListedIsAnswer(s, q, id);
      assert id in order <==> id in Elements(order);
    }
    hide FromIndex, Listed, LexLeq;
    if |found| < |all| {
      forall id | id in all && id !in found
        ensures forall f | f in found :: LexLeq(f, id)
      {
        var k :| 0 <= k < |all| && all[k] == id;
        assert k >= |found|;
      }
    }
  }

  // ------------------------------------------------------------------ who is in the directory

  /** The last registration of the id, with no removal since. */
  ghost predicate RegisteredBy(ops: seq<Op>, id: string, i: nat, info: Endpoint) {
    && i < |ops| && ops[i].Register? && ops[i].id == id && ops[i].agent.info == info
    && forall j | i < j < |ops| && ops[j].id == id :: ops[j].Heartbeat?
  }

  /** The last operation about the id, a registration or a heartbeat at that time. */
  ghost predicate LastSign(ops: seq<Op>, id: string, i: nat, at: int) {
    && i < |ops| && ops[i].id == id
    && ((ops[i].Register? && ops[i].agent.heartbeat == at) || (ops[i].Heartbeat? && ops[i].now == at))
    && forall j | i < j < |ops| :: ops[j].id != id
  }

  ghost predicate Stands(ops: seq<Op>, id: string, info: Endpoint) {
    exists i: nat :: RegisteredBy(ops, id, i, info)
  }

  ghost predicate LastSeen(ops: seq<Op>, id: string, at: int) { exists i: nat :: LastSign(ops, id, i, at) }

  lemma StandsOneMore(ops: seq<Op>, op: Op, id: string, info: Endpoint)
    ensures Stands(ops + [op], id, info) <==>
            if op.id != id || op.Heartbeat? then Stands(ops, id, info) else op.Register? && op.agent.info == info
  {
    var all := ops + [op];
    if i: nat :| RegisteredBy(all, id, i, info) {
      assert all[|ops|] == op;
      if i < |ops| {
        assert forall j | i <= j < |ops| :: ops[j] == all[j];
        assert RegisteredBy(ops, id, i, info);
      }
    }
    if i: nat :| RegisteredBy(ops, id, i, info) && (op.id != id || op.Heartbeat?) {
      assert RegisteredBy(all, id, i, info);
    }
    if op.Register? && op.id == id && op.agent.info == info { assert RegisteredBy(all, id, |ops|, info); }
  }

  lemma SeenOneMore(ops: seq<Op>, op: Op, id: string, at: int)
    ensures LastSeen(ops + [op], id, at) <==>
            if op.id != id then LastSeen(ops, id, at)
            else (op.Register? && op.agent.heartbeat == at) || (op.Heartbeat? && op.now == at)
  {
    var all := ops + [op];
    if i: nat :| LastSign(all, id, i, at) {
      assert all[|ops|] == op;
      if i < |ops| {
        assert forall j | i <= j < |ops| :: ops[j] == all[j];
        assert LastSign(ops, id, i, at);
      }
    }
    if i: nat :| LastSign(ops, id, i, at) && op.id != id { assert LastSign(all, id, i, at); }
    if op.id == id && ((op.Register? && op.agent.heartbeat == at) || (op.Heartbeat? && op.now == at)) {
      assert LastSign(all, id, |ops|, at);
    }
  }

  /** Over every run an agent is in the directory exactly when a registration of its id has not been
      followed by a removal; it then has the data of the last registration and the time of the last
      sign of life, which is what the clean-up judges it by. */
  lemma {:induction false} DirectoryTellsRun(ops: seq<Op>, id: string)
    ensures id in Run(ops).agents <==> exists info :: Stands(ops, id, info)
    ensures id in Run(ops).agents ==>
              Stands(ops, id, Run(ops).agents[id].info) && LastSeen(ops, id, Run(ops).agents[id].heartbeat)
  {
    if ops != [] {
      var n := |ops| - 1;
      var before, op := ops[..n], ops[n];
      DirectoryTellsRun(before, id);
      assert Run(ops) == Next(Run(before), op) && ops == before + [op];
      var after := Run(ops).agents;
      hide Run, Stands, LastSeen;
      forall info ensures Stands(ops, id, info) <==>
            if op.id != id || op.Heartbeat? then Stands(before, id, info) else op.Register? && op.agent.info == info
      {
        StandsOneMore(before, op, id, info);
      }
      if id in after { SeenOneMore(before, op, id, after[id].heartbeat); }
      if op.Register? && op.id == id { assert Stands(ops, id, op.agent.info); }
    }
  }

  // ------------------------------------------------------------------ what the indexes promise

  /** Every live agent is found under its current tags and skills. */
  ghost predicate Complete(s: State) {
    forall id | id in s.agents ::
      && (forall t | t in s.agents[id].info.tags :: Has(s.tags, t, id))
      && (forall k | k in s.agents[id].info.skills :: Has(s.skills, k, id))
  }

  /** The indexes are the inverse of the agents' tags and skills, with no empty entries. */
  ghost predicate Exact(s: State) {
    && NoEmpty(s.tags) && NoEmpty(s.skills)
    && (forall t, id :: Has(s.tags, t, id) <==> id in s.agents && t in s.agents[id].info.tags)
    && (forall k, id :: Has(s.skills, k, id) <==> id in s.agents && k in s.agents[id].info.skills)
  }

  lemma NextKeepsComplete(s: State, op: Op)
    requires Complete(s)
    ensures Complete(Next(s, op))
  {
    match op
    case Register(id, a) =>
      PutAllAdds(s.tags, a.info.tags, id);
      PutAllAdds(s.skills, a.info.skills, id);
    case Remove(id) =>
      if id in s.agents {
        DropAllRemoves(s.tags, s.agents[id].info.tags, id);
        DropAllRemoves(s.skills, s.agents[id].info.skills, id);
      }
    case Heartbeat(id, now) =>
  }

  /** No false negatives: in every run the indexes list each live agent under all it has. */
  lemma {:induction false} AlwaysComplete(ops: seq<Op>)
    ensures Complete(Run(ops))
  {
    if ops != [] {
      AlwaysComplete(ops[..|ops| - 1]);
      NextKeepsComplete(Run(ops[..|ops| - 1]), ops[|ops| - 1]);
    }
  }

  /** The id is new, or the new registration keeps every tag and skill of the one it replaces. */
  ghost predicate Grows(s: State, id: string, a: Agent) {
    id in s.agents ==>
      && (forall t | t in s.agents[id].info.tags :: t in a.info.tags)
      && (forall k | k in s.agents[id].info.skills :: k in a.info.skills)
  }

  /** Registering keeps exact indexes exact if and only if nothing live is taken away. */
  lemma RegisterKeepsExactIff(s: State, id: string, a: Agent)
    requires Exact(s)
    ensures Exact(Registered(s, id, a)) <==> Grows(s, id, a)
  {
    PutAllAdds(s.tags, a.info.tags, id);
    PutAllAdds(s.skills, a.info.skills, id);
    var s' := Registered(s, id, a);
    hide PutAll;
    if Exact(s') && id in s.agents {
      forall t | t in s.agents[id].info.tags ensures t in a.info.tags { assert Has(s'.tags, t, id); }
      forall k | k in s.agents[id].info.skills ensures k in a.info.skills { assert Has(s'.skills, k, id); }
    }
  }

  lemma RemoveKeepsExact(s: State, id: string)
    requires Exact(s)
    ensures Exact(Removed(s, id))
  {
    if id in s.agents {
      DropAllRemoves(s.tags, s.agents[id].info.tags, id);
      DropAllRemoves(s.skills, s.agents[id].info.skills, id);
    }
  }

  /** Every registration of the run keeps what the live one under its id had. */
  ghost predicate OnlyGrows(ops: seq<Op>) {
    forall i | 0 <= i < |ops| && ops[i].Register? :: Grows(Run(ops[..i]), ops[i].id, ops[i].agent)
  }

  lemma {:induction false} GrowingRunsAreExact(ops: seq<Op>)
    requires OnlyGrows(ops)
    ensures Exact(Run(ops))
  {
    if ops != [] {
      var n := |ops| - 1;
      var before, op := ops[..n], ops[n];
      forall i | 0 <= i < n && before[i].Register? ensures Grows(Run(before[..i]), before[i].id, before[i].agent) {
        assert before[..i] == ops[..i];
      }
      GrowingRunsAreExact(before);
      match op
      case Register(id, a) => RegisterKeepsExactIff(Run(before), id, a);
      case Remove(id) => RemoveKeepsExact(Run(before), id);
      case Heartbeat(id, now) =>
    }
  }

  // ------------------------------------------------------------------ what FindAgents promises

  ghost predicate SearchIsCorrect(s: State) {
    forall q: Request, order | InKeyOrder(order, s.agents.Keys) && Known(s, order) ::
      SearchAnswer(s, q, order) == NaiveAnswer(s, q, order)
  }

  /** No live agent is listed under a searchable tag or skill that it does not have. */
  ghost predicate NoStale(s: State) {
    forall id | id in s.agents ::
      && (forall t | t != "" && Has(s.tags, t, id) :: t in s.agents[id].info.tags)
      && (forall k | k != "" && Has(s.skills, k, id) :: k in s.agents[id].info.skills)
  }

  lemma {:induction false} SameAnswers(s: State, q: Request, order: seq<string>)
    requires Complete(s) && NoStale(s) && Known(s, order)
    ensures FromIndex(s, q, order) == FromScan(s, q, order)
  {
    if order != [] {
      var n := |order| - 1;
      SameAnswers(s, q, order[..n]);
      assert order[n] in order;
      assert IndexAnswer(s, q, order[n]) <==> Wanted(s, q, order[n]);
    }
  }

  lemma {:induction false} AnswersContain(s: State, q: Request, order: seq<string>, id: string)
    requires Known(s, order) && id in order
    ensures id in FromIndex(s, q, order) <==> IndexAnswer(s, q, id)
    ensures id in FromScan(s, q, order) <==> Wanted(s, q, id)
  {
    var n := |order| - 1;
    OnlyFromOrder(s, q, order[..n], id);
    if id in order[..n] { AnswersContain(s, q, order[..n], id); }
  }

  lemma {:induction false} OnlyFromOrder(s: State, q: Request, order: seq<string>, id: string)
    requires Known(s, order)
    ensures |FromIndex(s, q, order)| <= |order| && |FromScan(s, q, order)| <= |order|
    ensures id !in order ==> id !in FromIndex(s, q, order) && id !in FromScan(s, q, order)
  {
    if order != [] { OnlyFromOrder(s, q, order[..|order| - 1], id); }
  }

  /** A search that must list `id` exactly when a scan does. */
  lemma StaleEntryShows(s: State, q: Request, order: seq<string>, id: string)
    requires Known(s, order) && id in order && q.limit == |order| + 1
    requires IndexAnswer(s, q, id) && !Wanted(s, q, id)
    ensures SearchAnswer(s, q, order) != NaiveAnswer(s, q, order)
  {
    AnswersContain(s, q, order, id);
    OnlyFromOrder(s, q, order, id);
  }

  /** The indexed search agrees with a linear scan on every request if and only if no live agent
      has a stale entry. */
  lemma SearchCorrectIffNoStale(s: State)
    requires Complete(s)
    ensures SearchIsCorrect(s) <==> NoStale(s)
  {
    var order := KeyOrderExists(s.agents.Keys);
    if NoStale(s) {
      forall q: Request, other | InKeyOrder(other, s.agents.Keys) && Known(s, other)
        ensures SearchAnswer(s, q, other) == NaiveAnswer(s, q, other)
      {
        SameAnswers(s, q, other);
      }
    }
    assert forall id :: id in order <==> id in Elements(order);
    if SearchIsCorrect(s) {
      forall id | id in s.agents
        ensures forall t | t != "" && Has(s.tags, t, id) :: t in s.agents[id].info.tags
        ensures forall k | k != "" && Has(s.skills, k, id) :: k in s.agents[id].info.skills
      {
        forall t | t != "" && Has(s.tags, t, id) ensures t in s.agents[id].info.tags {
          var q := Request(t, "", "", |order| + 1);
          if !Wanted(s, q, id) { StaleEntryShows(s, q, order, id); }
        }
        forall k | k != "" && Has(s.skills, k, id) ensures k in s.agents[id].info.skills {
          var q := Request("", k, "", |order| + 1);
          if !Wanted(s, q, id) { StaleEntryShows(s, q, order, id); }
        }
      }
    }
  }

  /** The registration takes no searchable tag or skill away from a live agent. */
  ghost predicate KeepsSearchable(s: State, id: string, a: Agent) {
    id in s.agents ==>
      && (forall t | t != "" && t in s.agents[id].info.tags :: t in a.info.tags)
      && (forall k | k != "" && k in s.agents[id].info.skills :: k in a.info.skills)
  }

  /** The indexes are exact on everything that can be searched for. EMPTY tags can not. */
  ghost predicate Searchable(s: State) {
    && (forall t, id | t != "" :: Has(s.tags, t, id) <==> id in s.agents && t in s.agents[id].info.tags)
    && (forall k, id | k != "" :: Has(s.skills, k, id) <==> id in s.agents && k in s.agents[id].info.skills)
  }

  /** After a registration on indexes that were exact so far, search is right if and only if the
      registration kept the searchable tags and skills of the agent it replaced, and then the
      indexes are exact again. */
  lemma RegisterKeepsSearchIff(s: State, id: string, a: Agent)
    requires Complete(s) && Searchable(s)
    ensures SearchIsCorrect(Registered(s, id, a)) <==> KeepsSearchable(s, id, a)
    ensures Searchable(Registered(s, id, a)) <==> KeepsSearchable(s, id, a)
  {
    var s' := Registered(s, id, a);
    NextKeepsComplete(s, Register(id, a));
    SearchCorrectIffNoStale(s');
    PutAllAdds(s.tags, a.info.tags, id);
    PutAllAdds(s.skills, a.info.skills, id);
    hide SearchIsCorrect, PutAll;
    assert s'.agents[id] == a;
    if NoStale(s') && id in s.agents {
      forall t | t != "" && t in s.agents[id].info.tags ensures t in a.info.tags { assert Has(s'.tags, t, id); }
      forall k | k != "" && k in s.agents[id].info.skills ensures k in a.info.skills { assert Has(s'.skills, k, id); }
    }
  }

  lemma OthersKeepSearchable(s: State, op: Op)
    requires Complete(s) && Searchable(s) && !op.Register?
    ensures Searchable(Next(s, op))
  {
    match op
    case Remove(id) =>
      if id in s.agents {
        DropAllRemoves(s.tags, s.agents[id].info.tags, id);
        DropAllRemoves(s.skills, s.agents[id].info.skills, id);
      }
    case Heartbeat(id, now) =>
  }

  ghost predicate CorrectAt(ops: seq<Op>, n: nat)
    requires n <= |ops|
  {
    SearchIsCorrect(Run(ops[..n]))
  }

  ghost predicate KeptAt(ops: seq<Op>, i: nat)
    requires i < |ops|
  {
    ops[i].Register? ==> KeepsSearchable(Run(ops[..i]), ops[i].id, ops[i].agent)
  }

  /** One operation of a run on indexes that were exact so far. */
  lemma CorrectNextIffKept(ops: seq<Op>, i: nat)
    requires i < |ops| && Searchable(Run(ops[..i]))
    ensures CorrectAt(ops, i) && (CorrectAt(ops, i + 1) <==> KeptAt(ops, i))
    ensures KeptAt(ops, i) <==> Searchable(Run(ops[..i + 1]))
  {
    var s, op := Run(ops[..i]), ops[i];
    assert ops[..i + 1][..i] == ops[..i];
    assert Run(ops[..i + 1]) == Next(s, op);
    AlwaysComplete(ops[..i]);
    AlwaysComplete(ops[..i + 1]);
    hide Run, Complete, SearchIsCorrect, KeepsSearchable;
    SearchCorrectIffNoStale(s);
    assert NoStale(s);
    match op
    case Register(id, a) => RegisterKeepsSearchIff(s, id, a);
    case _ =>
      OthersKeepSearchable(s, op);
      SearchCorrectIffNoStale(Next(s, op));
      assert NoStale(Next(s, op));
  }

  /** In which runs is every search, at every moment, the answer of a linear scan? Exactly in those
      in which no registration takes a searchable tag or skill from the live agent it replaces. */
  lemma SearchCorrectThroughoutIff(ops: seq<Op>)
    ensures (forall n: nat | n <= |ops| :: CorrectAt(ops, n)) <==> (forall i: nat | i < |ops| :: KeptAt(ops, i))
  {
    hide CorrectAt, KeptAt, Searchable, Run;
    StartsSearchable(ops);
    var n := 0;
    while n < |ops| && KeptAt(ops, n)
      invariant n <= |ops| && Searchable(Run(ops[..n]))
      invariant forall j: nat | j < n :: CorrectAt(ops, j) && KeptAt(ops, j)
    {
      CorrectNextIffKept(ops, n);
      n := n + 1;
    }
    if n < |ops| {
      CorrectNextIffKept(ops, n);
      assert !CorrectAt(ops, n + 1) && !KeptAt(ops, n);
    } else {
      CorrectAtEnd(ops);
    }
  }

  lemma StartsSearchable(ops: seq<Op>)
    ensures Searchable(Run(ops[..0]))
  {
    assert ops[..0] == [];
  }

  lemma CorrectAtEnd(ops: seq<Op>)
    requires Searchable(Run(ops[..|ops|]))
    ensures CorrectAt(ops, |ops|)
  {
    AlwaysComplete(ops[..|ops|]);
    SearchCorrectIffNoStale(Run(ops[..|ops|]));
    hide Run, Complete, SearchIsCorrect;
  }
}
