/** Layer-parallel execution of a plan: `orchestrator/src/task_executor.cpp`, `execute`.

    Agents are deterministic functions of the prompt. The clock, the moment each asynchronous task
    finishes and the order in which the tasks of a layer finish are left open, so what is proved
    holds for every timing. */
module TaskExecutor {
  import opened Common
  import opened TaskGraph

  datatype AgentInfo = AgentInfo(url: string, healthy: bool)

  datatype SubTaskResult = SubTaskResult(
    subtaskId: string,
    description: string,
    result: string,
    success: bool,
    errorMessage: string)

  /** The agent router and the agents behind it. An Err of `callAgent` is a thrown exception. */
  datatype Environment = Environment(
    getAgent: string -> Option<AgentInfo>,
    selectAgent: (string, seq<string>) -> Option<AgentInfo>,
    callAgent: (string, string) -> Result<string>)

  type Results = map<string, SubTaskResult>

  // ------------------------------------------------------------------ one task

  /** Agent resolution: the preferred agent when it is known and healthy, else routing by skill. */
  function ResolveAgent(task: SubTask, env: Environment): Result<string> {
    var preferred := if task.preferredAgentId == "" then None else env.getAgent(task.preferredAgentId);
    var url := match preferred case Some(agent) => if agent.healthy then agent.url else "" case None => "";
    if url != "" then Ok(url)
    else
      match env.selectAgent(task.description, if task.requiredSkill == "" then [] else [task.requiredSkill])
      case Some(agent) => Ok(agent.url)
      case None => Err("No agent available for subtask: " + task.id + " (skill: " + task.requiredSkill + ")")
  }

  function ExecuteSubtask(task: SubTask, prompt: string, env: Environment): SubTaskResult {
    match ResolveAgent(task, env)
    case Err(e) => SubTaskResult(task.id, task.description, "", false, e)
    case Ok(url) =>
      match env.callAgent(url, prompt)
      case Ok(response) => SubTaskResult(task.id, task.description, response, true, "")
      case Err(e) => SubTaskResult(task.id, task.description, "", false, e)
  }

  /** `url` is where the task goes: to the preferred agent if that is named, known, healthy and has an
      address, else to whatever the router selects for the description and the required skill. */
  ghost predicate GoesTo(task: SubTask, env: Environment, url: string) {
    var skills := if task.requiredSkill == "" then [] else [task.requiredSkill];
    if Preferred(task, env) then url == env.getAgent(task.preferredAgentId).value.url
    else env.selectAgent(task.description, skills).Some? && url == env.selectAgent(task.description, skills).value.url
  }

  ghost predicate Preferred(task: SubTask, env: Environment) {
    && task.preferredAgentId != "" && env.getAgent(task.preferredAgentId).Some?
    && env.getAgent(task.preferredAgentId).value.healthy && env.getAgent(task.preferredAgentId).value.url != ""
  }

  /** `r` reports what came of handing the prompt to the task's agent. */
  ghost predicate IsAnswer(task: SubTask, prompt: string, env: Environment, r: SubTaskResult) {
    && r.subtaskId == task.id && r.description == task.description
    && (forall url | GoesTo(task, env, url) && env.callAgent(url, prompt).Ok? ::
          r.success && r.result == env.callAgent(url, prompt).value && r.errorMessage == "")
    && (forall url | GoesTo(task, env, url) && env.callAgent(url, prompt).Err? ::
          !r.success && r.result == "" && r.errorMessage == env.callAgent(url, prompt).error)
    && ((forall url :: !GoesTo(task, env, url)) ==>
          !r.success && r.result == ""
          && r.errorMessage == "No agent available for subtask: " + task.id + " (skill: " + task.requiredSkill + ")")
  }

  lemma ExecuteSubtaskAnswers(task: SubTask, prompt: string, env: Environment)
    ensures IsAnswer(task, prompt, env, ExecuteSubtask(task, prompt, env))
  {
    if ResolveAgent(task, env).Ok? { assert GoesTo(task, env, ResolveAgent(task, env).value); }
  }

  function ContextHeader(): string { "\n\n--- 前置任务结果 ---\n" }

  function ContextFooter(): string { "\n请基于以上前置任务的结果完成你的任务。" }

  /** What one dependency contributes to the prompt. */
  function Contribution(dep: string, results: Results): string {
    if dep !in results then ""
    else if results[dep].success then
      "\n[" + dep + "] " + results[dep].description + ":\n" + results[dep].result + "\n"
    else
      "\n[" + dep + "] 执行失败: " + results[dep].errorMessage + "\n"
  }

  function Contributions(deps: seq<string>, results: Results): string {
    if deps == [] then ""
    else Contributions(deps[..|deps| - 1], results) + Contribution(deps[|deps| - 1], results)
  }

  /** The prompt of a task: its description, then the results of its dependencies. */
  function Prompt(task: SubTask, results: Results): string {
    if exists d :: d in task.dependsOn && d in results then
      task.description + (ContextHeader() + Contributions(task.dependsOn, results)) + ContextFooter()
    else task.description
  }

  /** What a prompt says about one dependency: its description and result if it succeeded, its error
      if it failed, nothing if it has no result. */
  ghost predicate ReportsOn(dep: string, results: Results, text: string) {
    && (dep !in results ==> text == "")
    && (dep in results && results[dep].success ==>
          text == "\n[" + dep + "] " + results[dep].description + ":\n" + results[dep].result + "\n")
    && (dep in results && !results[dep].success ==>
          text == "\n[" + dep + "] 执行失败: " + results[dep].errorMessage + "\n")
  }

  function Joined(texts: seq<string>): string {
    if texts == [] then "" else Joined(texts[..|texts| - 1]) + texts[|texts| - 1]
  }

  ghost predicate AreReports(deps: seq<string>, results: Results, texts: seq<string>) {
    |texts| == |deps| && forall i | 0 <= i < |deps| :: ReportsOn(deps[i], results, texts[i])
  }

  /** The description, followed by a report on every dependency in order if any has a result. */
  ghost predicate IsPromptFor(task: SubTask, results: Results, prompt: string) {
    if forall d | d in task.dependsOn :: d !in results then prompt == task.description
    else exists texts :: AreReports(task.dependsOn, results, texts) && IsFramed(task.description, texts, prompt)
  }

  ghost predicate IsFramed(description: string, texts: seq<string>, prompt: string) {
    prompt == description + "\n\n--- 前置任务结果 ---\n" + Joined(texts) + "\n请基于以上前置任务的结果完成你的任务。"
  }

  lemma {:induction false} ContributionsAreReports(deps: seq<string>, results: Results) returns (texts: seq<string>)
    ensures AreReports(deps, results, texts) && Joined(texts) == Contributions(deps, results)
  {
    if deps == [] {
      texts := [];
    } else {
      var n := |deps| - 1;
      var front := ContributionsAreReports(deps[..n], results);
      texts := front + [Contribution(deps[n], results)];
      assert texts[..n] == front;
      forall i | 0 <= i < |deps| ensures ReportsOn(deps[i], results, texts[i]) {
        if i < n { assert ReportsOn(deps[..n][i], results, front[i]); }
      }
    }
  }

  lemma PromptCarriesReports(task: SubTask, results: Results)
    ensures IsPromptFor(task, results, Prompt(task, results))
  {
    var texts := ContributionsAreReports(task.dependsOn, results);
    var prompt := Prompt(task, results);
    hide Contributions, AreReports, Joined;
    if exists d :: d in task.dependsOn && d in results {
      assert prompt == task.description + "\n\n--- 前置任务结果 ---\n" + Joined(texts)
                       + "\n请基于以上前置任务的结果完成你的任务。";
      assert IsFramed(task.description, texts, prompt);
    }
  }

  ghost predicate AnyResult(deps: seq<string>, results: Results) { exists d :: d in deps && d in results }

  method BuildSubtaskPrompt(task: SubTask, results: Results) returns (prompt: string)
    ensures IsPromptFor(task, results, prompt)
    ensures prompt == Prompt(task, results)
  {
    PromptCarriesReports(task, results);
    PromptParts(task, results);
    hide *;
    prompt := task.description;
    if task.dependsOn != [] {
      var context, hasContext := CollectContext(task.dependsOn, results);
      if hasContext {
        prompt := prompt + context;
        prompt := prompt + ContextFooter();
      }
    }
  }

  lemma PromptParts(task: SubTask, results: Results)
    ensures AnyResult(task.dependsOn, results) ==>
              Prompt(task, results)
              == task.description + (ContextHeader() + Contributions(task.dependsOn, results)) + ContextFooter()
    ensures !AnyResult(task.dependsOn, results) || task.dependsOn == [] ==> Prompt(task, results) == task.description
  {
    hide Contributions, ContextHeader, ContextFooter;
  }

  /** What the loop has put together after the first `i` dependencies. */
  ghost predicate IsContext(deps: seq<string>, results: Results, i: nat, context: string, hasContext: bool)
    requires i <= |deps|
  {
    context == ContextHeader() + Contributions(deps[..i], results) && (hasContext <==> AnyResult(deps[..i], results))
  }

  lemma ContextStarts(deps: seq<string>, results: Results)
    ensures IsContext(deps, results, 0, ContextHeader(), false)
  {
    assert deps[..0] == [] && ContextHeader() + "" == ContextHeader();
  }

  lemma ContextGrows(deps: seq<string>, results: Results, i: nat, context: string, hasContext: bool, text: string)
    requires i < |deps| && IsContext(deps, results, i, context, hasContext) && text == Contribution(deps[i], results)
    ensures IsContext(deps, results, i + 1, context + text, hasContext || deps[i] in results)
  {
    assert deps[..i + 1][..i] == deps[..i] && deps[..i + 1] == deps[..i] + [deps[i]];
    hide ContextHeader, Contribution;
  }

  lemma ContextEnds(deps: seq<string>, results: Results, context: string, hasContext: bool)
    requires IsContext(deps, results, |deps|, context, hasContext)
    ensures context == ContextHeader() + Contributions(deps, results) && (hasContext <==> AnyResult(deps, results))
  {
    assert deps[..|deps|] == deps;
    hide ContextHeader, Contributions, AnyResult;
  }

  /** The loop over the dependencies. */
  method CollectContext(deps: seq<string>, results: Results) returns (context: string, hasContext: bool)
    ensures context == ContextHeader() + Contributions(deps, results)
    ensures hasContext <==> AnyResult(deps, results)
  {
    hide *;
    context, hasContext := ContextHeader(), false;
    ContextStarts(deps, results);
    var i := 0;
    while i < |deps|
      invariant 0 <= i <= |deps| && IsContext(deps, results, i, context, hasContext)
    {
      var text, present := DependencyText(deps[i], results);
      ContextGrows(deps, results, i, context, hasContext, text);
      context := context + text;
      hasContext := hasContext || present;
      i := i + 1;
    }
    ContextEnds(deps, results, context, hasContext);
  }

  /** What the loop appends for one dependency. */
  method DependencyText(dep: string, results: Results) returns (text: string, present: bool)
    ensures text == Contribution(dep, results) && (present <==> dep in results)
  {
    text, present := "", false;
    if dep in results && results[dep].success {
      text := "\n[" + dep + "] " + results[dep].description + ":\n";
      text := text + (results[dep].result + "\n");
      present := true;
      assert text == Contribution(dep, results);
    } else if dep in results {
      text := "\n[" + dep + "] 执行失败: " + results[dep].errorMessage + "\n";
      present := true;
    }
  }

  /** A prompt depends on nothing but the results of the task's dependencies. */
  lemma PromptReadsDependencies(task: SubTask, a: Results, b: Results)
    requires forall d | d in task.dependsOn :: d in a && d in b && a[d] == b[d]
    ensures Prompt(task, a) == Prompt(task, b)
  {
    SameContributions(task.dependsOn, a, b);
  }

  lemma {:induction false} SameContributions(deps: seq<string>, a: Results, b: Results)
    requires forall d | d in deps :: d in a && d in b && a[d] == b[d]
    ensures Contributions(deps, a) == Contributions(deps, b)
  {
    if deps != [] { SameContributions(deps[..|deps| - 1], a, b); }
  }

  // ------------------------------------------------------------------ what a plan means

  function GlobalTimeout(id: string): SubTaskResult {
    SubTaskResult(id, "", "", false, "Global timeout exceeded")
  }

  function WaitTimeout(id: string): SubTaskResult {
    SubTaskResult(id, "", "", false, "Global timeout exceeded (task did not complete in time)")
  }

  /** Task ids to tasks, as `execute` looks them up. */
  ghost predicate IsTaskMap(plan: Plan, tasks: map<string, SubTask>) {
    && tasks.Keys == Ids(plan)
    && forall id | id in tasks :: tasks[id] in plan && tasks[id].id == id
  }

  ghost predicate Known(task: SubTask, results: Results) {
    forall d | d in task.dependsOn :: d in results
  }

  ghost predicate Computed(task: SubTask, results: Results, env: Environment)
    requires task.id in results
  {
    results[task.id] == ExecuteSubtask(task, Prompt(task, results), env)
  }

  /** The result of a task is what its agent says about its dependencies' results, or a timeout. */
  ghost predicate Settled(task: SubTask, results: Results, env: Environment)
    requires task.id in results
  {
    || Computed(task, results, env)
    || results[task.id] == GlobalTimeout(task.id)
    || results[task.id] == WaitTimeout(task.id)
  }

  ghost predicate AllSettled(tasks: map<string, SubTask>, results: Results, env: Environment) {
    && results.Keys <= tasks.Keys
    && forall id | id in results :: tasks[id].id == id && Known(tasks[id], results) && Settled(tasks[id], results, env)
  }

  ghost predicate AllComputed(tasks: map<string, SubTask>, results: Results, env: Environment) {
    && results.Keys <= tasks.Keys
    && forall id | id in results :: tasks[id].id == id && Computed(tasks[id], results, env)
  }

  ghost predicate IsTimeout(r: SubTaskResult, id: string) {
    && r.subtaskId == id && !r.success && r.result == ""
    && (r.errorMessage == "Global timeout exceeded"
        || r.errorMessage == "Global timeout exceeded (task did not complete in time)")
  }

  /** The result is a timeout, or the agent's answer to a prompt that reports on the final results of
      the dependencies. */
  ghost predicate Accounted(task: SubTask, results: Results, env: Environment)
    requires task.id in results
  {
    || IsTimeout(results[task.id], task.id)
    || exists prompt :: IsPromptFor(task, results, prompt) && IsAnswer(task, prompt, env, results[task.id])
  }

  ghost predicate AllAccounted(tasks: map<string, SubTask>, results: Results, env: Environment) {
    forall id | id in results :: id in tasks && tasks[id].id == id && Accounted(tasks[id], results, env)
  }

  lemma SettledIsAccounted(tasks: map<string, SubTask>, results: Results, env: Environment)
    requires AllSettled(tasks, results, env)
    ensures AllAccounted(tasks, results, env)
  {
    hide Prompt, ExecuteSubtask, IsPromptFor, IsAnswer;
    forall id | id in results ensures id in tasks && tasks[id].id == id && Accounted(tasks[id], results, env) {
      PromptCarriesReports(tasks[id], results);
      ExecuteSubtaskAnswers(tasks[id], Prompt(tasks[id], results), env);
    }
  }

  /** The plain recursive meaning of a task: run it on its dependencies' meanings. */
  ghost function Meaning(plan: Plan, tasks: map<string, SubTask>, layers: Layers, env: Environment,
                         id: string, k: nat): SubTaskResult
    requires IsLayering(plan, layers) && IsTaskMap(plan, tasks) && k < |layers| && id in layers[k]
    decreases k
  {
    InPlaced(layers, k, id);
    var inputs: Results :=
      map d | d in tasks[id].dependsOn ::
        (var j := DependencyLayer(plan, tasks, layers, id, k, d); Meaning(plan, tasks, layers, env, d, j));
    ExecuteSubtask(tasks[id], Prompt(tasks[id], inputs), env)
  }

  ghost function DependencyLayer(plan: Plan, tasks: map<string, SubTask>, layers: Layers,
                                 id: string, k: nat, d: string): (j: nat)
    requires IsLayering(plan, layers) && IsTaskMap(plan, tasks) && k < |layers| && id in layers[k]
    requires id in tasks && d in tasks[id].dependsOn
    ensures j < k && d in layers[j]
  {
    assert DependsOn(plan, id, d);
    DependencyIsEarlier(plan, layers, k, id, d);
    var j :| 0 <= j < k && j < |layers| && d in layers[j];
    j
  }

  /** Results that satisfy every task's equation are the recursive meaning. */
  lemma {:induction false} ComputedIsMeaning(plan: Plan, tasks: map<string, SubTask>, layers: Layers, env: Environment,
                                             results: Results, id: string, k: nat)
    requires IsLayering(plan, layers) && IsTaskMap(plan, tasks) && k < |layers| && id in layers[k]
    requires results.Keys == Ids(plan) && AllComputed(tasks, results, env)
    ensures id in results && results[id] == Meaning(plan, tasks, layers, env, id, k)
    decreases k
  {
    hide IsLayering, Prompt, ExecuteSubtask;
    LayerMembersAreTasks(plan, layers, k, id);
    var task := tasks[id];
    var inputs: Results :=
      map d | d in task.dependsOn ::
        (var j := DependencyLayer(plan, tasks, layers, id, k, d); Meaning(plan, tasks, layers, env, d, j));
    forall d | d in task.dependsOn
      ensures d in results && results[d] == inputs[d]
    {
      var j := DependencyLayer(plan, tasks, layers, id, k, d);
      ComputedIsMeaning(plan, tasks, layers, env, results, d, j);
    }
    PromptReadsDependencies(task, results, inputs);
    assert Computed(task, results, env);
  }

  lemma LayerMembersAreTasks(plan: Plan, layers: Layers, k: nat, id: string)
    requires IsLayering(plan, layers) && k < |layers| && id in layers[k]
    ensures id in Ids(plan)
  {
    InPlaced(layers, k, id);
  }

  // ------------------------------------------------------------------ recording results

  /** Recording the outcome of one more task disturbs none of the recorded ones. */
  lemma Record(tasks: map<string, SubTask>, results: Results, id: string, v: SubTaskResult, env: Environment)
    requires AllSettled(tasks, results, env) && id in tasks && tasks[id].id == id && id !in results
    requires Known(tasks[id], results)
    requires v == ExecuteSubtask(tasks[id], Prompt(tasks[id], results), env)
             || v == GlobalTimeout(id) || v == WaitTimeout(id)
    ensures AllSettled(tasks, results[id := v], env)
    ensures AllComputed(tasks, results, env) && v == ExecuteSubtask(tasks[id], Prompt(tasks[id], results), env)
            ==> AllComputed(tasks, results[id := v], env)
  {
    hide Prompt, ExecuteSubtask;
    var more := results[id := v];
    forall t | t in more
      ensures Known(tasks[t], results) && Prompt(tasks[t], more) == Prompt(tasks[t], results)
    {
      PromptReadsDependencies(tasks[t], more, results);
    }
  }

  // ------------------------------------------------------------------ progress events

  datatype EventKind = Start | Complete | Failed
  datatype Event = Event(kind: EventKind, id: string, detail: string)

  function Terminal(r: SubTaskResult, id: string): Event {
    Event(if r.success then Complete else Failed, id, if r.success then r.result else r.errorMessage)
  }

  ghost predicate Reported(events: seq<Event>, upto: nat, id: string)
    requires upto <= |events|
  {
    exists j | 0 <= j < upto :: events[j].id == id && events[j].kind != Start
  }

  /** No task is announced as started before the outcome of every dependency has been announced. */
  ghost predicate StartsAreFed(tasks: map<string, SubTask>, events: seq<Event>) {
    forall i | 0 <= i < |events| && events[i].kind == Start ::
      && events[i].id in tasks
      && forall d | d in tasks[events[i].id].dependsOn :: Reported(events, i, d)
  }

  lemma ReportedLater(events: seq<Event>, more: seq<Event>, upto: nat, later: nat, id: string)
    requires upto <= later && upto <= |events| && later <= |events + more| && Reported(events, upto, id)
    ensures Reported(events + more, later, id)
  {
    var j :| 0 <= j < upto && events[j].id == id && events[j].kind != Start;
    assert (events + more)[j] == events[j];
  }

  /** All tasks of the given set have had their outcome announced. */
  ghost predicate AllReported(events: seq<Event>, ids: set<string>) {
    forall id | id in ids :: Reported(events, |events|, id)
  }

  lemma Announce(tasks: map<string, SubTask>, events: seq<Event>, ids: set<string>, e: Event)
    requires StartsAreFed(tasks, events) && AllReported(events, ids)
    requires e.kind == Start ==> e.id in tasks && forall d | d in tasks[e.id].dependsOn :: d in ids
    ensures StartsAreFed(tasks, events + [e])
    ensures AllReported(events + [e], if e.kind == Start then ids else ids + {e.id})
  {
    hide Reported;
    var more := events + [e];
    forall i | 0 <= i < |more| && more[i].kind == Start
      ensures more[i].id in tasks
      ensures forall d | d in tasks[more[i].id].dependsOn :: Reported(more, i, d)
    {
      if i < |events| {
        assert more[i] == events[i];
        forall d | d in tasks[more[i].id].dependsOn ensures Reported(more, i, d) {
          ReportedLater(events, [e], i, i, d);
        }
      } else {
        forall d | d in tasks[e.id].dependsOn ensures Reported(more, i, d) {
          ReportedLater(events, [e], |events|, i, d);
        }
      }
    }
    forall id | id in ids ensures Reported(more, |more|, id) {
      ReportedLater(events, [e], |events|, |more|, id);
    }
    if e.kind != Start { JustReported(events, e); }
  }

  lemma JustReported(events: seq<Event>, e: Event)
    requires e.kind != Start
    ensures Reported(events + [e], |events| + 1, e.id)
  {
    assert (events + [e])[|events|] == e;
  }

  ghost predicate TimedOut(results: Results, id: string) {
    id in results && (results[id] == GlobalTimeout(id) || results[id] == WaitTimeout(id))
  }

  /** Neither the task nor anything it depends on, directly or not, was timed out. */
  ghost predicate Undisturbed(plan: Plan, results: Results, id: string) {
    forall p | IsChain(plan, p) && p[|p| - 1] == id :: forall i | 0 <= i < |p| :: !TimedOut(results, p[i])
  }

  lemma UndisturbedDependency(plan: Plan, results: Results, id: string, d: string)
    requires Undisturbed(plan, results, id) && DependsOn(plan, id, d) && id in Ids(plan)
    ensures Undisturbed(plan, results, d) && !TimedOut(results, id)
  {
    hide DependsOn, Ids, TimedOut;
    SingleIsChain(plan, id);
    assert [id][|[id]| - 1] == id;
    assert !TimedOut(results, [id][0]);
    forall p | IsChain(plan, p) && p[|p| - 1] == d
      ensures forall i | 0 <= i < |p| :: !TimedOut(results, p[i])
    {
      LongerIsChain(plan, p, [id]);
      var q := p + [id];
      assert IsChain(plan, q) && q[|q| - 1] == id;
      forall i | 0 <= i < |p| ensures !TimedOut(results, p[i]) { assert !TimedOut(results, q[i]); }
    }
  }

  lemma UndisturbedItself(plan: Plan, results: Results, id: string)
    requires Undisturbed(plan, results, id) && id in Ids(plan)
    ensures !TimedOut(results, id)
  {
    hide Ids, TimedOut;
    SingleIsChain(plan, id);
    assert [id][|[id]| - 1] == id;
    assert !TimedOut(results, [id][0]);
  }

  /** Timeouts spread only to dependents: whatever the deadline cut off, a task that was not reached
      by it has its plain recursive meaning. */
  lemma {:induction false} UndisturbedIsMeaning(plan: Plan, tasks: map<string, SubTask>, layers: Layers,
                                                env: Environment, results: Results, id: string, k: nat)
    requires IsLayering(plan, layers) && IsTaskMap(plan, tasks) && k < |layers| && id in layers[k]
    requires results.Keys == Ids(plan) && AllSettled(tasks, results, env) && Undisturbed(plan, results, id)
    ensures id in results && results[id] == Meaning(plan, tasks, layers, env, id, k)
    decreases k
  {
    LayerMembersAreTasks(plan, layers, k, id);
    UndisturbedItself(plan, results, id);
    SettledInTime(tasks, results, env, id);
    hide IsLayering, Prompt, ExecuteSubtask, Undisturbed, TimedOut, AllSettled;
    var task := tasks[id];
    var inputs: Results :=
      map d | d in task.dependsOn ::
        (var j := DependencyLayer(plan, tasks, layers, id, k, d); Meaning(plan, tasks, layers, env, d, j));
    forall d | d in task.dependsOn
      ensures d in results && results[d] == inputs[d]
    {
      assert DependsOn(plan, id, d);
      UndisturbedDependency(plan, results, id, d);
      var j := DependencyLayer(plan, tasks, layers, id, k, d);
      UndisturbedIsMeaning(plan, tasks, layers, env, results, d, j);
    }
    PromptReadsDependencies(task, results, inputs);
  }

  lemma SettledInTime(tasks: map<string, SubTask>, results: Results, env: Environment, id: string)
    requires AllSettled(tasks, results, env) && id in results && !TimedOut(results, id)
    ensures id in tasks && tasks[id].id == id && Computed(tasks[id], results, env)
  {
    hide ExecuteSubtask, Prompt, GlobalTimeout, WaitTimeout;
  }

  lemma AllUndisturbed(plan: Plan, tasks: map<string, SubTask>, layers: Layers, env: Environment, results: Results)
    requires IsLayering(plan, layers) && IsTaskMap(plan, tasks)
    requires results.Keys == Ids(plan) && AllSettled(tasks, results, env)
    ensures forall k, id | 0 <= k < |layers| && id in layers[k] && Undisturbed(plan, results, id) ::
              id in results && results[id] == Meaning(plan, tasks, layers, env, id, k)
  {
    hide *;
    forall k, id | 0 <= k < |layers| && id in layers[k] && Undisturbed(plan, results, id)
      ensures id in results && results[id] == Meaning(plan, tasks, layers, env, id, k)
    {
      UndisturbedIsMeaning(plan, tasks, layers, env, results, id, k);
    }
  }

  // ------------------------------------------------------------------ what stands behind a result

  /** One entry per prompt built: the task, the tasks with a result at that moment, and the reading of
      the clock that let its layer begin. */
  datatype Built = Built(id: string, known: set<string>, at: nat)

  /** The event that announces a result. */
  ghost predicate Tells(e: Event, r: SubTaskResult, id: string) {
    e == if r.success then Event(Complete, id, r.result) else Event(Failed, id, r.errorMessage)
  }

  /** Every outcome that is announced is the recorded result. */
  ghost predicate Truthful(events: seq<Event>, results: Results) {
    forall j | 0 <= j < |events| && events[j].kind != Start ::
      events[j].id in results && Tells(events[j], results[events[j].id], events[j].id)
  }

  ghost predicate Announced(events: seq<Event>, r: SubTaskResult, id: string) {
    exists i, j | 0 <= i < j < |events| :: events[i] == Event(Start, id, "") && Tells(events[j], r, id)
  }

  ghost predicate Begun(events: seq<Event>, id: string) {
    exists i | 0 <= i < |events| :: events[i] == Event(Start, id, "")
  }

  ghost predicate HasPrompt(built: seq<Built>, id: string) {
    exists i | 0 <= i < |built| :: built[i].id == id
  }

  /** The task's prompt was built, its start and its result were announced in this order, and when it
      was run or waited for at least a millisecond was left. */
  ghost predicate Backed(r: SubTaskResult, id: string, events: seq<Event>, built: seq<Built>,
                         accepted: map<string, nat>, deadline: nat)
  {
    && Announced(events, r, id) && HasPrompt(built, id)
    && id in accepted && accepted[id] + 1_000_000 <= deadline
  }

  ghost predicate AllBacked(results: Results, events: seq<Event>, built: seq<Built>, accepted: map<string, nat>,
                            deadline: nat)
  {
    forall id | id in results && !TimedOut(results, id) :: Backed(results[id], id, events, built, accepted, deadline)
  }

  ghost predicate BuiltInTime(built: seq<Built>, deadline: nat) {
    forall i | 0 <= i < |built| :: built[i].at < deadline
  }

  /** Events, prompts and results are in order. */
  ghost predicate InOrder(results: Results, events: seq<Event>, built: seq<Built>, accepted: map<string, nat>,
                          deadline: nat)
  {
    Truthful(events, results) && AllBacked(results, events, built, accepted, deadline) && BuiltInTime(built, deadline)
  }

  lemma AnnouncedLater(events: seq<Event>, e: Event, r: SubTaskResult, id: string)
    requires Announced(events, r, id)
    ensures Announced(events + [e], r, id)
  {
    var i, j :| 0 <= i < j < |events| && events[i] == Event(Start, id, "") && Tells(events[j], r, id);
    assert (events + [e])[i] == events[i] && (events + [e])[j] == events[j];
  }

  lemma BegunLater(events: seq<Event>, e: Event, id: string)
    requires Begun(events, id) || e == Event(Start, id, "")
    ensures Begun(events + [e], id)
  {
    if Begun(events, id) {
      var i :| 0 <= i < |events| && events[i] == Event(Start, id, "");
      assert (events + [e])[i] == events[i];
    } else {
      assert (events + [e])[|events|] == e;
    }
  }

  lemma HasPromptLater(built: seq<Built>, b: Built, id: string)
    requires HasPrompt(built, id) || b.id == id
    ensures HasPrompt(built + [b], id)
  {
    if HasPrompt(built, id) {
      var i :| 0 <= i < |built| && built[i].id == id;
      assert (built + [b])[i] == built[i];
    } else {
      assert (built + [b])[|built|] == b;
    }
  }

  /** Building a prompt and announcing the start. */
  lemma OrderAtStart(results: Results, events: seq<Event>, built: seq<Built>, accepted: map<string, nat>,
                     deadline: nat, id: string, b: Built)
    requires InOrder(results, events, built, accepted, deadline) && b.id == id && b.at < deadline
    ensures InOrder(results, events + [Event(Start, id, "")], built + [b], accepted, deadline)
    ensures Begun(events + [Event(Start, id, "")], id) && HasPrompt(built + [b], id)
  {
    hide Announced, HasPrompt, Begun, TimedOut, Tells;
    var e := Event(Start, id, "");
    BegunLater(events, e, id);
    HasPromptLater(built, b, id);
    forall t | t in results && !TimedOut(results, t)
      ensures Backed(results[t], t, events + [e], built + [b], accepted, deadline)
    {
      AnnouncedLater(events, e, results[t], t);
      HasPromptLater(built, b, t);
    }
  }

  /** Recording a result and announcing it. A result that is no timeout was accepted at `at`. */
  lemma OrderAtEnd(results: Results, events: seq<Event>, built: seq<Built>, accepted: map<string, nat>,
                   deadline: nat, id: string, v: SubTaskResult, accepted': map<string, nat>)
    requires InOrder(results, events, built, accepted, deadline) && id !in results
    requires Begun(events, id) && HasPrompt(built, id)
    requires forall t | t in accepted && t != id :: t in accepted' && accepted'[t] == accepted[t]
    requires v == GlobalTimeout(id) || v == WaitTimeout(id)
             || (id in accepted' && accepted'[id] + 1_000_000 <= deadline)
    ensures InOrder(results[id := v], events + [Terminal(v, id)], built, accepted', deadline)
  {
    var e, more := Terminal(v, id), results[id := v];
    assert Tells(e, v, id);
    forall t | t in more && !TimedOut(more, t)
      ensures Backed(more[t], t, events + [e], built, accepted', deadline)
    {
      if t == id {
        NowAnnounced(events, e, v, id);
      } else {
        assert !TimedOut(results, t);
        AnnouncedLater(events, e, results[t], t);
      }
    }
    hide Announced, HasPrompt, Begun, TimedOut, Tells, GlobalTimeout, WaitTimeout;
    assert Truthful(events + [e], more);
  }

  lemma NowAnnounced(events: seq<Event>, e: Event, v: SubTaskResult, id: string)
    requires Begun(events, id) && Tells(e, v, id)
    ensures Announced(events + [e], v, id)
  {
    var i :| 0 <= i < |events| && events[i] == Event(Start, id, "");
    assert (events + [e])[i] == events[i] && (events + [e])[|events|] == e;
  }

  /** Recording timeouts without an event. */
  lemma OrderOfTimeouts(results: Results, more: Results, events: seq<Event>, built: seq<Built>,
                        accepted: map<string, nat>, deadline: nat)
    requires InOrder(results, events, built, accepted, deadline)
    requires forall id | id in results :: id in more && more[id] == results[id]
    requires forall id | id in more && id !in results :: more[id] == GlobalTimeout(id)
    ensures InOrder(more, events, built, accepted, deadline)
  {
    hide Announced, HasPrompt, Tells, GlobalTimeout, WaitTimeout;
  }

  // ------------------------------------------------------------------ execution

  /** The steady clock, in nanoseconds: any later reading is possible. */
  method ReadClock(after: nat) returns (now: nat)
    ensures now >= after
  {
    var elapsed: int := *;
    now := if elapsed > 0 then after + elapsed else after;
  }

  /** Whole milliseconds left, as `duration_cast` truncates them; zero once the deadline passed. */
  function RemainingMs(deadline: nat, now: nat): nat {
    if now >= deadline then 0 else (deadline - now) / 1_000_000
  }

  method BuildTaskMap(plan: Plan) returns (tasks: map<string, SubTask>)
    ensures IsTaskMap(plan, tasks)
  {
    tasks := map[];
    var i := 0;
    while i < |plan|
      invariant 0 <= i <= |plan|
      invariant tasks.Keys == set j | 0 <= j < i :: plan[j].id
      invariant forall id | id in tasks :: tasks[id] in plan && tasks[id].id == id
    {
      tasks := tasks[plan[i].id := plan[i]];
      i := i + 1;
    }
  }

  /** The state that the layer loop of `execute` carries, in front of layer `k`. */
  ghost predicate InFrontOf(plan: Plan, tasks: map<string, SubTask>, layers: Layers, k: nat, results: Results,
                            events: seq<Event>, expired: bool, env: Environment)
    requires k <= |layers|
  {
    && IsLayering(plan, layers) && IsTaskMap(plan, tasks)
    && results.Keys == Placed(layers[..k])
    && AllSettled(tasks, results, env)
    && (!expired ==> AllComputed(tasks, results, env))
    && StartsAreFed(tasks, events) && AllReported(events, results.Keys)
  }

  lemma MemberIsRunnable(plan: Plan, tasks: map<string, SubTask>, layers: Layers, k: nat, id: string,
                         known: set<string>)
    requires IsLayering(plan, layers) && IsTaskMap(plan, tasks) && k < |layers| && id in layers[k]
    requires known == Placed(layers[..k])
    ensures id in tasks && tasks[id].id == id && id !in known
    ensures forall d | d in tasks[id].dependsOn :: d in known
  {
    hide WellFormed, Leveled, Placed;
    LayerMembersAreTasks(plan, layers, k, id);
    PlacedOnce(layers, k, id);
    PlacedBefore(layers, k, id);
    forall d | d in tasks[id].dependsOn
      ensures d in known
    {
      assert DependsOn(plan, id, d);
      DependencyIsEarlier(plan, layers, k, id, d);
      PlacedBefore(layers, k, d);
    }
  }

  lemma PlacedBefore(layers: Layers, k: nat, id: string)
    requires k <= |layers|
    ensures id in Placed(layers[..k]) <==> InLayerBefore(layers, k, id)
  {
    if id in Placed(layers[..k]) {
      var j := LayerOf(layers[..k], id);
      assert id in layers[j];
    }
    if InLayerBefore(layers, k, id) {
      var j :| 0 <= j < k && j < |layers| && id in layers[j];
      InPlaced(layers[..k], j, id);
    }
  }

  lemma NextLayer(layers: Layers, k: nat)
    requires k < |layers|
    ensures Placed(layers[..k + 1]) == Placed(layers[..k]) + Elements(layers[k])
  {
    PlacedGrows(layers[..k], layers[k]);
    assert layers[..k + 1] == layers[..k] + [layers[k]];
  }

  /** "Mark ALL remaining subtasks as timed out", from layer `k` on. */
  method MarkRemaining(ghost plan: Plan, ghost tasks: map<string, SubTask>, layers: Layers, k0: nat,
                       results0: Results, ghost events: seq<Event>, ghost env: Environment)
    returns (results: Results)
    requires k0 <= |layers| && IsLayering(plan, layers) && IsTaskMap(plan, tasks)
    requires results0.Keys == Placed(layers[..k0]) && AllSettled(tasks, results0, env)
    ensures results.Keys == Placed(layers) && AllSettled(tasks, results, env)
    ensures forall id | id in results0 :: id in results && results[id] == results0[id]
    ensures forall id | id in results && id !in results0 :: results[id] == GlobalTimeout(id)
  {
    hide IsLayering, AllSettled, IsTaskMap, Placed, GlobalTimeout;
    results := results0;
    var k := k0;
    while k < |layers|
      invariant k0 <= k <= |layers|
      invariant results.Keys == Placed(layers[..k]) && AllSettled(tasks, results, env)
      invariant forall id | id in results0 :: id in results && results[id] == results0[id]
      invariant forall id | id in results && id !in results0 :: results[id] == GlobalTimeout(id)
    {
      ghost var base := results.Keys;
      var i := 0;
      while i < |layers[k]|
        invariant 0 <= i <= |layers[k]|
        invariant results.Keys == base + Elements(layers[k][..i]) && AllSettled(tasks, results, env)
        invariant forall id | id in results0 :: id in results && results[id] == results0[id]
        invariant forall id | id in results && id !in results0 :: results[id] == GlobalTimeout(id)
      {
        var id := layers[k][i];
        assert layers[k][..i + 1] == layers[k][..i] + [id];
        assert Elements(layers[k][..i + 1]) == Elements(layers[k][..i]) + {id};
        if id !in results {
          MemberIsRunnable(plan, tasks, layers, k, id, base);
          Record(tasks, results, id, GlobalTimeout(id), env);
          results := results[id := GlobalTimeout(id)];
        }
        i := i + 1;
      }
      assert layers[k][..i] == layers[k];
      NextLayer(layers, k);
      k := k + 1;
    }
    assert layers[..k] == layers;
  }

  /** A launched asynchronous task: `std::async` captured the task and its prompt. */
  datatype Future = Future(id: string, task: SubTask, prompt: string)

  /** Time passes: any of the running tasks finish, in any order. */
  method LetTasksFinish(futures: seq<Future>, finished0: map<nat, SubTaskResult>, env: Environment)
    returns (finished: map<nat, SubTaskResult>)
    requires forall j | j in finished0 ::
               j < |futures| && finished0[j] == ExecuteSubtask(futures[j].task, futures[j].prompt, env)
    ensures forall j | j in finished :: j < |futures|
              && finished[j] == ExecuteSubtask(futures[j].task, futures[j].prompt, env)
    ensures finished0.Keys <= finished.Keys
  {
    finished := finished0;
    var running := set j | 0 <= j < |futures| && j !in finished0;
    var goOn := *;
    while goOn && running != {}
      invariant forall j | j in running :: 0 <= j < |futures|
      invariant forall j | j in finished ::
                  j < |futures| && finished[j] == ExecuteSubtask(futures[j].task, futures[j].prompt, env)
      invariant finished0.Keys <= finished.Keys
      decreases running
    {
      var j :| j in running;
      finished := finished[j := ExecuteSubtask(futures[j].task, futures[j].prompt, env)];
      running := running - {j};
      goOn := *;
    }
  }

  /** The futures of a layer carry the prompts that the results before the layer determine. */
  ghost predicate Launched(tasks: map<string, SubTask>, layer: seq<string>, futures: seq<Future>, base: Results) {
    && |futures| <= |layer|
    && forall i | 0 <= i < |futures| ::
         && layer[i] in tasks
         && futures[i] == Future(layer[i], tasks[layer[i]], Prompt(tasks[layer[i]], base))
  }

  ghost predicate PromptsComplete(tasks: map<string, SubTask>, built: seq<Built>) {
    forall i | 0 <= i < |built| ::
      built[i].id in tasks && forall d | d in tasks[built[i].id].dependsOn :: d in built[i].known
  }

  /** The first half of a layer of several tasks: build every prompt and launch every task. */
  method LaunchLayer(ghost plan: Plan, tasks: map<string, SubTask>, ghost layers: Layers, ghost k: nat,
                     layer: seq<string>,
                     results: Results, events0: seq<Event>, ghost built0: seq<Built>,
                     ghost accepted: map<string, nat>, ghost now: nat, ghost deadline: nat)
    returns (futures: seq<Future>, events: seq<Event>, ghost built: seq<Built>)
    requires k < |layers| && layer == layers[k] && IsLayering(plan, layers) && IsTaskMap(plan, tasks)
    requires results.Keys == Placed(layers[..k])
    requires StartsAreFed(tasks, events0) && AllReported(events0, results.Keys) && PromptsComplete(tasks, built0)
    requires InOrder(results, events0, built0, accepted, deadline) && now < deadline
    ensures |futures| == |layer| && Launched(tasks, layer, futures, results)
    ensures InOrder(results, events, built, accepted, deadline)
    ensures forall i | 0 <= i < |layer| :: Begun(events, layer[i]) && HasPrompt(built, layer[i])
    ensures StartsAreFed(tasks, events) && AllReported(events, results.Keys) && PromptsComplete(tasks, built)
  {
    hide IsLayering, AllReported, StartsAreFed, IsTaskMap, Placed, Prompt, InOrder, Begun, HasPrompt;
    futures, events, built := [], events0, built0;
    var i := 0;
    while i < |layer|
      invariant 0 <= i <= |layer| && |futures| == i && Launched(tasks, layer, futures, results)
      invariant StartsAreFed(tasks, events) && AllReported(events, results.Keys)
      invariant PromptsComplete(tasks, built) && InOrder(results, events, built, accepted, deadline)
      invariant forall j | 0 <= j < i :: Begun(events, layer[j]) && HasPrompt(built, layer[j])
    {
      var id := layer[i];
      MemberIsRunnable(plan, tasks, layers, k, id, results.Keys);
      var prompt := BuildSubtaskPrompt(tasks[id], results);
      ghost var b := Built(id, results.Keys, now);
      OrderAtStart(results, events, built, accepted, deadline, id, b);
      forall j | 0 <= j < i
        ensures Begun(events + [Event(Start, id, "")], layer[j]) && HasPrompt(built + [b], layer[j])
      {
        BegunLater(events, Event(Start, id, ""), layer[j]);
        HasPromptLater(built, b, layer[j]);
      }
      built := built + [b];
      Announce(tasks, events, results.Keys, Event(Start, id, ""));
      events := events + [Event(Start, id, "")];
      futures := futures + [Future(id, tasks[id], prompt)];
      i := i + 1;
    }
  }

  /** What collecting has achieved once the results of `done` are in. */
  ghost predicate Collecting(tasks: map<string, SubTask>, base: Results, done: set<string>, results: Results,
                             events: seq<Event>, expired: bool, env: Environment)
  {
    && results.Keys == base.Keys + done
    && (forall d | d in base :: results[d] == base[d])
    && AllSettled(tasks, results, env) && (!expired ==> AllComputed(tasks, results, env))
    && StartsAreFed(tasks, events) && AllReported(events, results.Keys)
  }

  lemma CollectOne(tasks: map<string, SubTask>, base: Results, done: set<string>, results: Results, events: seq<Event>,
                   expired: bool, env: Environment, id: string, v: SubTaskResult, late: bool)
    requires Collecting(tasks, base, done, results, events, expired, env)
    requires id in tasks && tasks[id].id == id && id !in base.Keys + done && Known(tasks[id], base)
    requires if late then v == GlobalTimeout(id) || v == WaitTimeout(id)
             else v == ExecuteSubtask(tasks[id], Prompt(tasks[id], base), env)
    ensures Collecting(tasks, base, done + {id}, results[id := v], events + [Terminal(v, id)], expired || late, env)
  {
    hide AllSettled, AllComputed, AllReported, StartsAreFed, Prompt, ExecuteSubtask, GlobalTimeout, WaitTimeout;
    PromptReadsDependencies(tasks[id], base, results);
    Announce(tasks, events, results.Keys, Terminal(v, id));
    assert results[id := v].Keys == results.Keys + {id};
    Record(tasks, results, id, v, env);
  }

  /** Wait for one future until the deadline at most. `at` is when the time left was looked at. */
  method Await(futures: seq<Future>, i: nat, finished0: map<nat, SubTaskResult>, deadline: nat, now0: nat,
               env: Environment)
    returns (result: SubTaskResult, finished: map<nat, SubTaskResult>, now: nat, ghost late: bool, ghost at: nat)
    requires i < |futures|
    requires forall j | j in finished0 ::
               j < |futures| && finished0[j] == ExecuteSubtask(futures[j].task, futures[j].prompt, env)
    ensures forall j | j in finished ::
              j < |futures| && finished[j] == ExecuteSubtask(futures[j].task, futures[j].prompt, env)
    ensures now0 <= at <= now
    ensures !late ==> result == ExecuteSubtask(futures[i].task, futures[i].prompt, env) && at + 1_000_000 <= deadline
    ensures late ==> result == GlobalTimeout(futures[i].id) || result == WaitTimeout(futures[i].id)
    ensures late ==> RemainingMs(deadline, now) == 0
  {
    hide ExecuteSubtask, GlobalTimeout, WaitTimeout;
    finished, late := finished0, true;
    now := ReadClock(now0);
    at := now;
    if RemainingMs(deadline, now) == 0 {
      result := GlobalTimeout(futures[i].id);
    } else {
      finished := LetTasksFinish(futures, finished, env);
      if i in finished {
        result := finished[i];
        late := false;
        now := ReadClock(now);
      } else {
        result := WaitTimeout(futures[i].id);
        now := ReadClock(now + RemainingMs(deadline, now) * 1_000_000);
      }
    }
  }

  /** A layer of several tasks: launch them all, then collect them in order against the deadline. */
  method RunParallel(ghost plan: Plan, tasks: map<string, SubTask>, ghost layers: Layers, ghost k: nat,
                     layer: seq<string>,
                     results0: Results, events0: seq<Event>, ghost built0: seq<Built>, deadline: nat, now0: nat,
                     ghost expired0: bool, env: Environment, ghost accepted0: map<string, nat>)
    returns (results: Results, events: seq<Event>, ghost built: seq<Built>, now: nat, ghost expired: bool,
             ghost accepted: map<string, nat>)
    requires InOrder(results0, events0, built0, accepted0, deadline) && now0 < deadline
    ensures InOrder(results, events, built, accepted, deadline)
    requires k < |layers| && layer == layers[k]
    requires InFrontOf(plan, tasks, layers, k, results0, events0, expired0, env) && PromptsComplete(tasks, built0)
    ensures InFrontOf(plan, tasks, layers, k + 1, results, events, expired, env) && PromptsComplete(tasks, built)
    ensures now >= now0 && (expired0 ==> expired)
    ensures expired ==> expired0 || RemainingMs(deadline, now) == 0
  {
    hide IsLayering, AllSettled, AllComputed, AllReported, StartsAreFed, IsTaskMap, Placed, Prompt, ExecuteSubtask,
         GlobalTimeout, WaitTimeout, Known, Terminal, InOrder, Begun, HasPrompt;
    results, now, expired, accepted := results0, now0, expired0, accepted0;
    var futures;
    futures, events, built :=
      LaunchLayer(plan, tasks, layers, k, layer, results, events0, built0, accepted, now0, deadline);
    var finished: map<nat, SubTaskResult> := map[];
    var i := 0;
    assert Elements(layer[..0]) == {};
    assert results.Keys == results0.Keys + Elements(layer[..0]);
    while i < |futures|
      invariant 0 <= i <= |futures| == |layer|
      invariant forall j | j in finished ::
                  j < |futures| && finished[j] == ExecuteSubtask(futures[j].task, futures[j].prompt, env)
      invariant Collecting(tasks, results0, Elements(layer[..i]), results, events, expired, env)
      invariant now >= now0 && (expired0 ==> expired)
      invariant expired ==> expired0 || RemainingMs(deadline, now) == 0
      invariant InOrder(results, events, built, accepted, deadline)
      invariant forall j | i <= j < |layer| :: Begun(events, layer[j]) && HasPrompt(built, layer[j])
    {
      var id := futures[i].id;
      MemberIsRunnable(plan, tasks, layers, k, id, results0.Keys);
      NextMember(plan, layers, k, i);
      var result;
      ghost var late, at;
      result, finished, now, late, at := Await(futures, i, finished, deadline, now, env);
      ghost var accepting := accepted[id := at];
      DependenciesKnown(tasks[id], results0);
      CollectOne(tasks, results0, Elements(layer[..i]), results, events, expired, env, id, result, late);
      OrderAtEnd(results, events, built, accepted, deadline, id, result, accepting);
      forall j | i < j < |layer| ensures Begun(events + [Terminal(result, id)], layer[j]) {
        BegunLater(events, Terminal(result, id), layer[j]);
      }
      accepted := accepting;
      events := events + [Terminal(result, id)];
      results := results[id := result];
      expired := expired || late;
      i := i + 1;
    }
    assert layer[..i] == layer;
    NextLayer(layers, k);
  }

  lemma DependenciesKnown(task: SubTask, results: Results)
    requires forall d | d in task.dependsOn :: d in results.Keys
    ensures Known(task, results)
  {
  }

  lemma NextMember(plan: Plan, layers: Layers, k: nat, i: nat)
    requires IsLayering(plan, layers) && k < |layers| && i < |layers[k]|
    ensures Elements(layers[k][..i + 1]) == Elements(layers[k][..i]) + {layers[k][i]}
    ensures layers[k][i] !in Elements(layers[k][..i])
  {
    var layer := layers[k];
    assert layer[..i + 1] == layer[..i] + [layer[i]];
  }

  /** A layer of one task: run it directly, unless the deadline has passed meanwhile. */
  method RunSingle(ghost plan: Plan, tasks: map<string, SubTask>, ghost layers: Layers, ghost k: nat, id: string,
                   results0: Results, events0: seq<Event>, ghost built0: seq<Built>, deadline: nat, now0: nat,
                   ghost expired0: bool, env: Environment, ghost accepted0: map<string, nat>)
    returns (results: Results, events: seq<Event>, ghost built: seq<Built>, now: nat, timedOut: bool,
             ghost accepted: map<string, nat>)
    requires InOrder(results0, events0, built0, accepted0, deadline) && now0 < deadline
    ensures InOrder(results, events, built, accepted, deadline)
    requires k < |layers| && layers[k] == [id]
    requires InFrontOf(plan, tasks, layers, k, results0, events0, expired0, env) && PromptsComplete(tasks, built0)
    ensures !timedOut ==> InFrontOf(plan, tasks, layers, k + 1, results, events, expired0, env)
    ensures timedOut ==> AllSettled(tasks, results, env) && results.Keys == Placed(layers[..k + 1])
    ensures StartsAreFed(tasks, events) && PromptsComplete(tasks, built)
    ensures timedOut ==> results == results0[id := GlobalTimeout(id)] && events == events0 + [Event(Start, id, "")]
    ensures now >= now0 && (timedOut ==> RemainingMs(deadline, now) == 0)
  {
    hide IsLayering, AllSettled, AllComputed, AllReported, StartsAreFed, IsTaskMap, Placed, Prompt, ExecuteSubtask,
         InOrder, Begun, HasPrompt;
    results, events, built, now, accepted := results0, events0, built0, now0, accepted0;
    MemberIsRunnable(plan, tasks, layers, k, id, results.Keys);
    NextLayer(layers, k);
    assert Elements([id]) == {id};
    var prompt := BuildSubtaskPrompt(tasks[id], results);
    OrderAtStart(results, events, built, accepted, deadline, id, Built(id, results.Keys, now));
    built := built + [Built(id, results.Keys, now)];
    Announce(tasks, events, results.Keys, Event(Start, id, ""));
    events := events + [Event(Start, id, "")];
    now := ReadClock(now);
    timedOut := RemainingMs(deadline, now) == 0;
    if timedOut {
      Record(tasks, results, id, GlobalTimeout(id), env);
      OrderOfTimeouts(results, results[id := GlobalTimeout(id)], events, built, accepted, deadline);
      results := results[id := GlobalTimeout(id)];
    } else {
      ghost var accepting := accepted[id := now];
      var result := ExecuteSubtask(tasks[id], prompt, env);
      now := ReadClock(now);
      Announce(tasks, events, results.Keys, Terminal(result, id));
      events := events + [Terminal(result, id)];
      assert results[id := result].Keys == results.Keys + {id};
      Record(tasks, results, id, result, env);
      OrderAtEnd(results, events[..|events| - 1], built, accepted, deadline, id, result, accepting);
      assert events == events[..|events| - 1] + [Terminal(result, id)];
      accepted := accepting;
      results := results[id := result];
    }
  }

  /** `execute`. `expired` records whether any deadline test or wait failed; `started` and `ended` are
      the clock's first and last readings.

      Whatever the timing, there is exactly one result per task; each result is a timeout or the
      agent's answer to the prompt that the final results of the dependencies determine; every
      prompt is built when all dependencies have results; and outcomes are announced before the
      tasks that need them start. If no deadline struck, the results are the plan's meaning, and if
      one did, that still holds of every task of which no ancestor was timed out. A deadline strikes
      only when less than a millisecond of the global timeout is left, and when no more is left,
      nothing is started or accepted any longer. Every announced outcome is the recorded result, and
      every result but a timeout was announced after its start. */
  method Execute(plan: Plan, env: Environment, timeoutSeconds: nat)
    returns (r: Result<Results>, events: seq<Event>, ghost built: seq<Built>, ghost expired: bool,
             ghost tasks: map<string, SubTask>, ghost layers: Layers, ghost started: nat, ghost ended: nat,
             ghost accepted: map<string, nat>)
    ensures r.Ok? <==> UniqueIds(plan) && Closed(plan) && Acyclic(plan)
    ensures r.Ok? ==> IsLayering(plan, layers) && IsTaskMap(plan, tasks)
    ensures r.Ok? ==> r.value.Keys == Ids(plan) && AllSettled(tasks, r.value, env)
    ensures r.Ok? ==> StartsAreFed(tasks, events) && PromptsComplete(tasks, built)
    ensures r.Ok? && !expired ==>
              forall k, id | 0 <= k < |layers| && id in layers[k] ::
                id in r.value && r.value[id] == Meaning(plan, tasks, layers, env, id, k)
    ensures r.Ok? ==>
              forall k, id | 0 <= k < |layers| && id in layers[k] && Undisturbed(plan, r.value, id) ::
                id in r.value && r.value[id] == Meaning(plan, tasks, layers, env, id, k)
    ensures ended >= started && (expired ==> started + timeoutSeconds * 1_000_000_000 < ended + 1_000_000)
    ensures r.Ok? ==> AllAccounted(tasks, r.value, env)
    ensures r.Ok? ==> InOrder(r.value, events, built, accepted, started + timeoutSeconds * 1_000_000_000)
  {
    hide UniqueIds, Closed, Acyclic, IsTaskMap, AllSettled, AllComputed, AllReported, StartsAreFed, Ids, Placed,
         Meaning, IsLayering, InFrontOf, Undisturbed, AllAccounted;
    events, built, expired, tasks, layers, accepted := [], [], false, map[], [], map[];

    var now := ReadClock(0);
    started, ended := now, now;
    var deadline := now + timeoutSeconds * 1_000_000_000;
    var layering := TopologicalLayers(plan);
    if layering.Err? { return Err(layering.error), events, built, expired, tasks, layers, started, ended, accepted; }
    layers := layering.value;
    var order := layering.value;
    var taskMap := BuildTaskMap(plan);
    tasks := taskMap;
    var results: Results := map[];
    InFrontOfFirst(plan, taskMap, order, env);
    assert InOrder(results, events, built, accepted, deadline);
    hide InOrder;
    var k := 0;
    while k < |order|
      invariant 0 <= k <= |order|
      invariant InFrontOf(plan, taskMap, order, k, results, events, expired, env) && PromptsComplete(taskMap, built)
      invariant now >= started && (expired ==> RemainingMs(deadline, now) == 0)
      invariant InOrder(results, events, built, accepted, deadline)
    {
      OpenState(plan, taskMap, order, k, results, events, expired, env);
      now := ReadClock(now);
      if now >= deadline {
        expired := true;
        ghost var before := results;
        results := MarkRemaining(plan, taskMap, order, k, results, events, env);
        OrderOfTimeouts(before, results, events, built, accepted, deadline);
        SettledIsAccounted(taskMap, results, env);
        AllUndisturbed(plan, taskMap, order, env, results);
        return Ok(results), events, built, expired, tasks, layers, started, now, accepted;
      }
      if |order[k]| == 1 {
        var timedOut;
        var id := order[k][0];
        results, events, built, now, timedOut, accepted :=
          RunSingle(plan, taskMap, order, k, id, results, events, built, deadline, now, expired, env, accepted);
        if timedOut {
          expired := true;
          ghost var before := results;
          results := MarkRemaining(plan, taskMap, order, k + 1, results, events, env);
          OrderOfTimeouts(before, results, events, built, accepted, deadline);
          SettledIsAccounted(taskMap, results, env);
          AllUndisturbed(plan, taskMap, order, env, results);
          return Ok(results), events, built, expired, tasks, layers, started, now, accepted;
        }
      } else {
        results, events, built, now, expired, accepted :=
          RunParallel(plan, taskMap, order, k, order[k], results, events, built, deadline, now, expired, env, accepted);
      }
      k := k + 1;
    }
    AfterLast(plan, taskMap, order, results, events, expired, env);
    SettledIsAccounted(taskMap, results, env);
    AllUndisturbed(plan, taskMap, order, env, results);
    return Ok(results), events, built, expired, tasks, layers, started, now, accepted;
  }

  lemma InFrontOfFirst(plan: Plan, tasks: map<string, SubTask>, layers: Layers, env: Environment)
    requires IsLayering(plan, layers) && IsTaskMap(plan, tasks)
    ensures InFrontOf(plan, tasks, layers, 0, map[], [], false, env)
  {
    assert layers[..0] == [];
    NothingPlaced();
  }

  lemma OpenState(plan: Plan, tasks: map<string, SubTask>, layers: Layers, k: nat, results: Results,
                  events: seq<Event>, expired: bool, env: Environment)
    requires k < |layers| && InFrontOf(plan, tasks, layers, k, results, events, expired, env)
    ensures IsLayering(plan, layers) && IsTaskMap(plan, tasks) && Placed(layers) == Ids(plan)
    ensures results.Keys == Placed(layers[..k]) && AllSettled(tasks, results, env) && StartsAreFed(tasks, events)
  {
  }

  lemma AfterLast(plan: Plan, tasks: map<string, SubTask>, layers: Layers, results: Results,
                  events: seq<Event>, expired: bool, env: Environment)
    requires InFrontOf(plan, tasks, layers, |layers|, results, events, expired, env)
    ensures results.Keys == Ids(plan) && AllSettled(tasks, results, env) && StartsAreFed(tasks, events)
    ensures !expired ==>
              forall k, id | 0 <= k < |layers| && id in layers[k] ::
                id in results && results[id] == Meaning(plan, tasks, layers, env, id, k)
  {
    assert layers[..|layers|] == layers;
    if !expired {
      forall k, id | 0 <= k < |layers| && id in layers[k]
        ensures id in results && results[id] == Meaning(plan, tasks, layers, env, id, k)
      {
        ComputedIsMeaning(plan, tasks, layers, env, results, id, k);
      }
    }
  }
}
