/** The plan validation of `orchestrator/src/task_planner.cpp`, `parsePlanResponse`, on the array
    of task objects that the JSON parser delivers. */
module TaskPlanner {
  import opened Common
  import opened TaskGraph

  /** One task object. A dependency entry that is not a string is None; a missing or ill-typed
      `depends_on` is the empty list. */
  datatype RawTask = RawTask(id: string, description: string, skill: string, dependsOn: seq<Option<string>>)

  function Strings(entries: seq<Option<string>>): seq<string> {
    if entries == [] then []
    else Strings(entries[..|entries| - 1]) +
         match entries[|entries| - 1] case Some(s) => [s] case None => []
  }

  /** The tasks that have both an id and a description, with their string dependencies. */
  function Complete(raw: seq<RawTask>): Plan {
    if raw == [] then []
    else
      var t := raw[|raw| - 1];
      Complete(raw[..|raw| - 1]) +
      if t.id == "" || t.description == "" then []
      else [SubTask(t.id, t.description, t.skill, Strings(t.dependsOn), "")]
  }

  function Restrict(deps: seq<string>, valid: set<string>): (r: seq<string>)
    ensures forall d :: d in r <==> d in deps && d in valid
  {
    if deps == [] then []
    else
      var d := deps[|deps| - 1];
      assert deps == deps[..|deps| - 1] + [d];
      Restrict(deps[..|deps| - 1], valid) + if d in valid then [d] else []
  }

  ghost function Pruned(plan: Plan): (r: Plan)
    ensures |r| == |plan|
  {
    seq(|plan|, i requires 0 <= i < |plan| => plan[i].(dependsOn := Restrict(plan[i].dependsOn, Ids(plan))))
  }

  // ------------------------------------------------------------------ what a parsed plan holds

  /** Places in a list of length `n`, in order. */
  ghost predicate Ascending(picks: seq<nat>, n: nat) {
    && (forall k | 0 <= k < |picks| :: picks[k] < n)
    && (forall j, k | 0 <= j < k < |picks| :: picks[j] < picks[k])
  }

  /** `deps` are the string entries that name one of `ids`, in order, repeated ones included. */
  ghost predicate TakesNamed(entries: seq<Option<string>>, ids: set<string>, picks: seq<nat>, deps: seq<string>) {
    && Ascending(picks, |entries|) && |deps| == |picks|
    && (forall k | 0 <= k < |picks| :: entries[picks[k]] == Some(deps[k]) && deps[k] in ids)
    && (forall i | 0 <= i < |entries| && entries[i].Some? && entries[i].value in ids :: i in picks)
  }

  ghost predicate HasTexts(t: RawTask) { t.id != "" && t.description != "" }

  ghost predicate ParsedFrom(t: RawTask, ids: set<string>, task: SubTask) {
    && HasTexts(t) && task.id == t.id && task.description == t.description
    && task.requiredSkill == t.skill && task.preferredAgentId == ""
    && exists picks :: TakesNamed(t.dependsOn, ids, picks, task.dependsOn)
  }

  /** The plan holds exactly the entries that have an id and a description, in order, each with the
      dependencies that name a task of the plan. */
  ghost predicate IsParsed(raw: seq<RawTask>, picks: seq<nat>, plan: Plan) {
    && Ascending(picks, |raw|) && |plan| == |picks|
    && (forall k | 0 <= k < |picks| :: ParsedFrom(raw[picks[k]], Ids(plan), plan[k]))
    && (forall i | 0 <= i < |raw| && HasTexts(raw[i]) :: i in picks)
  }

  lemma TakeOne(front: seq<Option<string>>, d: string, ids: set<string>, picks: seq<nat>, deps: seq<string>)
    requires TakesNamed(front, ids, picks, deps) && d in ids
    ensures TakesNamed(front + [Some(d)], ids, picks + [|front|], deps + [d])
  {
    var entries, more := front + [Some(d)], picks + [|front|];
    forall i | 0 <= i < |entries| && entries[i].Some? && entries[i].value in ids ensures i in more {
      if i < |front| { assert front[i] == entries[i] && i in picks; }
    }
  }

  lemma TakeNone(front: seq<Option<string>>, e: Option<string>, ids: set<string>, picks: seq<nat>, deps: seq<string>)
    requires TakesNamed(front, ids, picks, deps) && (e.Some? ==> e.value !in ids)
    ensures TakesNamed(front + [e], ids, picks, deps)
  {
    var entries := front + [e];
    forall i | 0 <= i < |entries| && entries[i].Some? && entries[i].value in ids ensures i in picks {
      assert i < |front| && front[i] == entries[i];
    }
  }

  lemma {:induction false} RestrictedStrings(entries: seq<Option<string>>, ids: set<string>) returns (picks: seq<nat>)
    ensures TakesNamed(entries, ids, picks, Restrict(Strings(entries), ids))
  {
    if entries == [] {
      picks := [];
    } else {
      var n := |entries| - 1;
      var front, last := entries[..n], entries[n];
      picks := RestrictedStrings(front, ids);
      var deps := Restrict(Strings(front), ids);
      assert entries == front + [last];
      OneMoreEntry(front, last, ids);
      hide TakesNamed, Restrict, Strings;
      if last.Some? && last.value in ids {
        TakeOne(front, last.value, ids, picks, deps);
        picks := picks + [n];
      } else {
        TakeNone(front, last, ids, picks, deps);
      }
    }
  }

  lemma OneMoreEntry(front: seq<Option<string>>, e: Option<string>, ids: set<string>)
    ensures Restrict(Strings(front + [e]), ids)
            == Restrict(Strings(front), ids) + (if e.Some? && e.value in ids then [e.value] else [])
  {
    StringsStep(front, e);
    if e.Some? { RestrictStep(Strings(front), e.value, ids); }
    hide Strings, Restrict;
  }

  lemma StringsStep(front: seq<Option<string>>, e: Option<string>)
    ensures Strings(front + [e]) == if e.Some? then Strings(front) + [e.value] else Strings(front)
  {
    assert (front + [e])[..|front|] == front;
    assert Strings(front) + [] == Strings(front);
  }

  lemma RestrictStep(deps: seq<string>, d: string, ids: set<string>)
    ensures Restrict(deps + [d], ids) == if d in ids then Restrict(deps, ids) + [d] else Restrict(deps, ids)
  {
    assert (deps + [d])[..|deps|] == deps;
    assert Restrict(deps, ids) + [] == Restrict(deps, ids);
  }

  /** Before pruning: the tasks with their string dependencies. */
  ghost predicate CompleteFrom(t: RawTask, task: SubTask) {
    HasTexts(t) && task == SubTask(t.id, t.description, t.skill, Strings(t.dependsOn), "")
  }

  ghost predicate AreComplete(raw: seq<RawTask>, picks: seq<nat>, plan: Plan) {
    && Ascending(picks, |raw|) && |plan| == |picks|
    && (forall k | 0 <= k < |picks| :: CompleteFrom(raw[picks[k]], plan[k]))
    && (forall i | 0 <= i < |raw| && HasTexts(raw[i]) :: i in picks)
  }

  lemma OneMoreComplete(front: seq<RawTask>, t: RawTask, picks: seq<nat>, plan: Plan, task: SubTask)
    requires AreComplete(front, picks, plan) && CompleteFrom(t, task)
    ensures AreComplete(front + [t], picks + [|front|], plan + [task])
  {
    hide CompleteFrom;
    var raw, more := front + [t], picks + [|front|];
    forall i | 0 <= i < |raw| && HasTexts(raw[i]) ensures i in more {
      if i < |front| { assert front[i] == raw[i] && i in picks; }
    }
  }

  lemma OneIncomplete(front: seq<RawTask>, t: RawTask, picks: seq<nat>, plan: Plan)
    requires AreComplete(front, picks, plan) && !HasTexts(t)
    ensures AreComplete(front + [t], picks, plan)
  {
    hide CompleteFrom;
    var raw := front + [t];
    forall i | 0 <= i < |raw| && HasTexts(raw[i]) ensures i in picks {
      assert i < |front| && front[i] == raw[i];
    }
  }

  lemma {:induction false} CompleteTasks(raw: seq<RawTask>) returns (picks: seq<nat>)
    ensures AreComplete(raw, picks, Complete(raw))
  {
    if raw == [] {
      picks := [];
    } else {
      hide Strings, AreComplete;
      var n := |raw| - 1;
      var front, t := raw[..n], raw[n];
      picks := CompleteTasks(front);
      assert raw == front + [t];
      if HasTexts(t) {
        var task := SubTask(t.id, t.description, t.skill, Strings(t.dependsOn), "");
        OneMoreComplete(front, t, picks, Complete(front), task);
        picks := picks + [n];
      } else {
        OneIncomplete(front, t, picks, Complete(front));
      }
    }
  }

  /** The specified plan holds what it should. */
  lemma PrunedIsParsed(raw: seq<RawTask>) returns (picks: seq<nat>)
    ensures IsParsed(raw, picks, Pruned(Complete(raw)))
  {
    picks := CompleteTasks(raw);
    var complete := Complete(raw);
    var plan := Pruned(complete);
    PruningKeepsInnerEdges(complete, "", "");
    hide Complete, Strings, Restrict, Ids;
    forall k | 0 <= k < |picks| ensures ParsedFrom(raw[picks[k]], Ids(plan), plan[k]) {
      assert CompleteFrom(raw[picks[k]], complete[k]);
      var dp := RestrictedStrings(raw[picks[k]].dependsOn, Ids(complete));
      assert TakesNamed(raw[picks[k]].dependsOn, Ids(plan), dp, plan[k].dependsOn);
    }
  }

  /** `remove_if` followed by `erase` on one dependency list. */
  method EraseInvalid(deps: seq<string>, valid: set<string>) returns (r: seq<string>)
    ensures r == Restrict(deps, valid)
  {
    r := [];
    var i := 0;
    while i < |deps|
      invariant 0 <= i <= |deps| && r == Restrict(deps[..i], valid)
    {
      assert deps[..i + 1][..i] == deps[..i];
      if deps[i] in valid { r := r + [deps[i]]; }
      i := i + 1;
    }
    assert deps[..i] == deps;
  }

  method ParseTasks(raw: seq<RawTask>) returns (plan: Plan, isSingleAgent: bool)
    ensures exists picks :: IsParsed(raw, picks, plan)
    ensures plan == Pruned(Complete(raw))
    ensures isSingleAgent <==> plan == []
  {
    plan := [];
    var i := 0;
    while i < |raw|
      invariant 0 <= i <= |raw| && plan == Complete(raw[..i])
    {
      assert raw[..i + 1][..i] == raw[..i];
      var deps: seq<string> := [];
      var j := 0;
      while j < |raw[i].dependsOn|
        invariant 0 <= j <= |raw[i].dependsOn| && deps == Strings(raw[i].dependsOn[..j])
      {
        assert raw[i].dependsOn[..j + 1][..j] == raw[i].dependsOn[..j];
        match raw[i].dependsOn[j] {
          case Some(dep) => deps := deps + [dep];
          case None =>
        }
        j := j + 1;
      }
      assert raw[i].dependsOn[..j] == raw[i].dependsOn;
      if raw[i].id != "" && raw[i].description != "" {
        plan := plan + [SubTask(raw[i].id, raw[i].description, raw[i].skill, deps, "")];
      }
      i := i + 1;
    }
    assert raw[..i] == raw;
    ghost var complete := plan;

    var validIds := {};
    i := 0;
    while i < |plan|
      invariant 0 <= i <= |plan| && validIds == set j | 0 <= j < i :: plan[j].id
    {
      validIds := validIds + {plan[i].id};
      i := i + 1;
    }
    i := 0;
    while i < |plan|
      invariant 0 <= i <= |plan| == |complete| && validIds == Ids(complete)
      invariant forall j | 0 <= j < i :: plan[j] == complete[j].(dependsOn := Restrict(complete[j].dependsOn, validIds))
      invariant forall j | i <= j < |plan| :: plan[j] == complete[j]
    {
      var kept := EraseInvalid(plan[i].dependsOn, validIds);
      plan := plan[i := plan[i].(dependsOn := kept)];
      i := i + 1;
    }
    assert plan == Pruned(complete);
    ghost var picks := PrunedIsParsed(raw);
    isSingleAgent := plan == [];
  }

  /** Pruning drops exactly the references to tasks that do not exist. */
  lemma PruningKeepsInnerEdges(plan: Plan, t: string, d: string)
    ensures Ids(Pruned(plan)) == Ids(plan)
    ensures DependsOn(Pruned(plan), t, d) <==> DependsOn(plan, t, d) && d in Ids(plan)
  {
    var r := Pruned(plan);
    assert forall i | 0 <= i < |plan| :: r[i].id == plan[i].id;
    assert Ids(r) == Ids(plan);
    if DependsOn(plan, t, d) && d in Ids(plan) {
      var i :| 0 <= i < |plan| && plan[i].id == t && d in plan[i].dependsOn;
      assert r[i].id == t && d in r[i].dependsOn;
    }
    if DependsOn(r, t, d) {
      var i :| 0 <= i < |r| && r[i].id == t && d in r[i].dependsOn;
      assert plan[i].id == t && d in plan[i].dependsOn;
    }
  }

  lemma PruningKeepsCycles(plan: Plan, p: seq<string>)
    ensures IsCycle(Pruned(plan), p) <==> IsCycle(plan, p)
  {
    hide Pruned, Ids, DependsOn;
    PruningKeepsInnerEdges(plan, "", "");
    forall k: nat | k + 1 < |p| && p[k] in Ids(plan)
      ensures Linked(Pruned(plan), p, k) <==> Linked(plan, p, k)
    {
      PruningKeepsInnerEdges(plan, p[k + 1], p[k]);
    }
  }

  /** A parsed plan is always closed, so the executor turns it down exactly when the model repeated
      a task id or made tasks wait for each other in a circle. Unknown references are harmless. */
  lemma ParsedPlanIsClosed(plan: Plan)
    ensures Closed(Pruned(plan))
    ensures UniqueIds(Pruned(plan)) <==> UniqueIds(plan)
    ensures Acyclic(Pruned(plan)) <==> Acyclic(plan)
  {
    forall t, d | DependsOn(Pruned(plan), t, d)
      ensures d in Ids(Pruned(plan))
    {
      PruningKeepsInnerEdges(plan, t, d);
    }
    assert forall i | 0 <= i < |plan| :: Pruned(plan)[i].id == plan[i].id;
    forall p ensures IsCycle(Pruned(plan), p) <==> IsCycle(plan, p) { PruningKeepsCycles(plan, p); }
  }

  /** The planner's output handed to the executor's layering. */
  method PlanAndLayer(raw: seq<RawTask>) returns (r: Result<Layers>)
    ensures r.Ok? <==> UniqueIds(Complete(raw)) && Acyclic(Complete(raw))
    ensures r.Ok? ==> exists plan, picks :: IsParsed(raw, picks, plan) && IsLayering(plan, r.value)
  {
    var plan, isSingleAgent := ParseTasks(raw);
    ParsedPlanIsClosed(Complete(raw));
    r := TopologicalLayers(plan);
  }
}
