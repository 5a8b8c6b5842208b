/** Plans as dependency graphs: `orchestrator/src/task_executor.cpp`, `topologicalLayers`.

    The layering is Kahn's algorithm run layer by layer. The file proves, with no hypothesis on the
    plan, exactly when it succeeds, that a failure on a well-formed plan exhibits a cycle, and that
    a task's layer is the length of its longest dependency chain. */
module TaskGraph {
  import opened Common
  import opened Sorting

  datatype SubTask = SubTask(
    id: string,
    description: string,
    requiredSkill: string,
    dependsOn: seq<string>,
    preferredAgentId: string)

  type Plan = seq<SubTask>
  type Layers = seq<seq<string>>

  ghost function Ids(plan: Plan): set<string> { set i | 0 <= i < |plan| :: plan[i].id }

  ghost predicate UniqueIds(plan: Plan) {
    forall i, j | 0 <= i < j < |plan| :: plan[i].id != plan[j].id
  }

  /** Task `t` lists `d` among its dependencies. */
  ghost predicate DependsOn(plan: Plan, t: string, d: string) {
    exists i | 0 <= i < |plan| :: plan[i].id == t && d in plan[i].dependsOn
  }

  /** Every dependency is itself a task. */
  ghost predicate Closed(plan: Plan) {
    forall t, d | DependsOn(plan, t, d) :: d in Ids(plan)
  }

  ghost predicate Linked(plan: Plan, p: seq<string>, k: nat)
    requires k + 1 < |p|
  {
    DependsOn(plan, p[k + 1], p[k])
  }

  /** A dependency chain: each task depends on the one before it. */
  ghost predicate IsChain(plan: Plan, p: seq<string>) {
    && p != []
    && (forall k | 0 <= k < |p| :: p[k] in Ids(plan))
    && forall k | 0 <= k < |p| - 1 :: Linked(plan, p, k)
  }

  ghost predicate IsCycle(plan: Plan, p: seq<string>) {
    IsChain(plan, p) && |p| >= 2 && p[0] == p[|p| - 1]
  }

  ghost predicate Acyclic(plan: Plan) {
    forall p :: !IsCycle(plan, p)
  }

  ghost function Placed(layers: Layers): set<string> {
    set k, i | 0 <= k < |layers| && 0 <= i < |layers[k]| :: layers[k][i]
  }

  ghost predicate InLayerBefore(layers: Layers, k: nat, t: string) {
    exists j | 0 <= j < k && j < |layers| :: t in layers[j]
  }

  /** All of a task's dependencies sit in earlier layers, and one of them in the layer just before. */
  ghost predicate TaskLeveled(plan: Plan, layers: Layers, k: nat, t: string)
    requires k <= |layers|
  {
    && (forall d | DependsOn(plan, t, d) :: InLayerBefore(layers, k, d))
    && (k > 0 ==> exists d :: DependsOn(plan, t, d) && d in layers[k - 1])
  }

  ghost predicate Leveled(plan: Plan, layers: Layers) {
    forall k, t | 0 <= k < |layers| && t in layers[k] :: TaskLeveled(plan, layers, k, t)
  }

  /** The layers are non-empty, in ascending order inside, and no task is placed twice. */
  ghost predicate WellFormed(layers: Layers) {
    && (forall k | 0 <= k < |layers| :: layers[k] != [] && NoDuplicates(layers[k]) && SortedBy(layers[k], LexLeq))
    && (forall j, k, t | 0 <= j < k < |layers| && t in layers[j] :: t !in layers[k])
  }

  /** What a successful layering promises. */
  ghost predicate IsLayering(plan: Plan, layers: Layers) {
    WellFormed(layers) && Leveled(plan, layers) && Placed(layers) == Ids(plan)
  }

  // ------------------------------------------------------------------ layers and chains

  lemma FrontIsChain(plan: Plan, p: seq<string>)
    requires IsChain(plan, p) && |p| >= 2
    ensures IsChain(plan, p[..|p| - 1]) && DependsOn(plan, p[|p| - 1], p[|p| - 2])
  {
    hide DependsOn, Ids;
    var q := p[..|p| - 1];
    assert Linked(plan, p, |p| - 2);
    forall k | 0 <= k < |q| - 1 ensures Linked(plan, q, k) { assert Linked(plan, p, k); }
  }

  lemma SliceIsChain(plan: Plan, p: seq<string>, i: nat, j: nat)
    requires IsChain(plan, p) && i < j <= |p|
    ensures IsChain(plan, p[i..j])
  {
    hide DependsOn, Ids;
    var q := p[i..j];
    forall k | 0 <= k < |q| - 1 ensures Linked(plan, q, k) { assert Linked(plan, p, i + k); }
  }

  lemma SingleIsChain(plan: Plan, t: string)
    requires t in Ids(plan)
    ensures IsChain(plan, [t])
  {
  }

  lemma LongerIsChain(plan: Plan, p: seq<string>, q: seq<string>)
    requires IsChain(plan, p) && IsChain(plan, q) && DependsOn(plan, q[0], p[|p| - 1])
    ensures IsChain(plan, p + q)
  {
    hide DependsOn, Ids;
    var r := p + q;
    forall k | 0 <= k < |r| - 1
      ensures Linked(plan, r, k)
    {
      if k < |p| - 1 {
        assert Linked(plan, p, k);
      } else if k >= |p| {
        assert Linked(plan, q, k - |p|);
      }
    }
  }

  lemma DependencyIsEarlier(plan: Plan, layers: Layers, k: nat, t: string, d: string)
    requires Leveled(plan, layers) && k < |layers| && t in layers[k] && DependsOn(plan, t, d)
    ensures InLayerBefore(layers, k, d)
  {
    assert TaskLeveled(plan, layers, k, t);
  }

  /** No dependency chain that ends in layer `k` has more than `k + 1` tasks. */
  lemma {:induction false} ChainFitsLayer(plan: Plan, layers: Layers, p: seq<string>, k: nat)
    requires Leveled(plan, layers) && IsChain(plan, p)
    requires k < |layers| && p[|p| - 1] in layers[k]
    ensures |p| <= k + 1
  {
    hide DependsOn, Ids, Leveled;
    if |p| > 1 {
      var q := p[..|p| - 1];
      FrontIsChain(plan, p);
      DependencyIsEarlier(plan, layers, k, p[|p| - 1], p[|p| - 2]);
      hide IsChain;
      var j :| 0 <= j < k && j < |layers| && q[|q| - 1] in layers[j];
      ChainFitsLayer(plan, layers, q, j);
    }
  }

  lemma {:induction false} ChainFillsLayer(plan: Plan, layers: Layers, t: string, k: nat) returns (p: seq<string>)
    requires Leveled(plan, layers) && Placed(layers) <= Ids(plan)
    requires k < |layers| && t in layers[k]
    ensures IsChain(plan, p) && p[|p| - 1] == t && |p| == k + 1
    decreases k
  {
    hide DependsOn, Ids, IsChain;
    assert t in Placed(layers);
    assert TaskLeveled(plan, layers, k, t);
    SingleIsChain(plan, t);
    if k == 0 {
      p := [t];
    } else {
      var d :| DependsOn(plan, t, d) && d in layers[k - 1];
      var q := ChainFillsLayer(plan, layers, d, k - 1);
      LongerIsChain(plan, q, [t]);
      p := q + [t];
    }
  }

  /** A task's layer index is the number of steps in its longest dependency chain. */
  lemma LayerIsLongestChain(plan: Plan, layers: Layers, t: string, k: nat)
    requires IsLayering(plan, layers) && k < |layers| && t in layers[k]
    ensures exists p :: IsChain(plan, p) && p[|p| - 1] == t && |p| == k + 1
    ensures forall p | IsChain(plan, p) && p[|p| - 1] == t :: |p| <= k + 1
  {
    var q := ChainFillsLayer(plan, layers, t, k);
    forall p | IsChain(plan, p) && p[|p| - 1] == t ensures |p| <= k + 1 {
      ChainFitsLayer(plan, layers, p, k);
    }
  }

  lemma {:induction false} ChainStartsBelow(plan: Plan, layers: Layers, p: seq<string>, k: nat)
    requires Leveled(plan, layers) && IsChain(plan, p)
    requires k < |layers| && p[|p| - 1] in layers[k]
    ensures |p| >= 2 ==> InLayerBefore(layers, k, p[0])
  {
    hide DependsOn, Ids, Leveled;
    if |p| > 1 {
      var q := p[..|p| - 1];
      FrontIsChain(plan, p);
      DependencyIsEarlier(plan, layers, k, p[|p| - 1], p[|p| - 2]);
      hide IsChain;
      var j :| 0 <= j < k && j < |layers| && q[|q| - 1] in layers[j];
      ChainStartsBelow(plan, layers, q, j);
      if |q| >= 2 { StillEarlier(layers, j, k, p[0]); }
    }
  }

  lemma StillEarlier(layers: Layers, j: nat, k: nat, t: string)
    requires InLayerBefore(layers, j, t) && j <= k
    ensures InLayerBefore(layers, k, t)
  {
  }

  lemma PlacedOnce(layers: Layers, k: nat, t: string)
    requires WellFormed(layers) && k < |layers| && t in layers[k]
    ensures !InLayerBefore(layers, k, t)
  {
  }

  /** A plan that can be layered is closed and has no cycle. */
  lemma LayeringRulesOutCycles(plan: Plan, layers: Layers)
    requires IsLayering(plan, layers)
    ensures Closed(plan) && Acyclic(plan)
  {
    forall t, d | DependsOn(plan, t, d)
      ensures d in Ids(plan)
    {
      assert t in Placed(layers);
      var k :| 0 <= k < |layers| && t in layers[k];
      DependencyIsEarlier(plan, layers, k, t, d);
      assert d in Placed(layers);
    }
    forall p
      ensures !IsCycle(plan, p)
    {
      hide DependsOn, Ids;
      if IsCycle(plan, p) {
        assert p[0] in Placed(layers);
        var k :| 0 <= k < |layers| && p[0] in layers[k];
        PlacedOnce(layers, k, p[0]);
        ChainStartsBelow(plan, layers, p, k);
      }
    }
  }

  /** Sorting inside the layers makes the layering a function of the plan: the order in which the
      unordered map was walked cannot be seen in it. */
  lemma LayeringIsUnique(plan: Plan, a: Layers, b: Layers)
    requires IsLayering(plan, a) && IsLayering(plan, b)
    ensures a == b
  {
    hide Leveled, Ids, IsChain, Placed, SortedBy;
    forall k | 0 <= k < |a| && k < |b|
      ensures a[k] == b[k]
    {
      SameLayerMembers(plan, a, b, k);
      forall x, y | x in a[k] && y in a[k] && LexLeq(x, y) && LexLeq(y, x) ensures x == y { LexLeqIsTotal(x, y); }
      SortedIsUnique(a[k], b[k], LexLeq);
    }
    if |a| > |b| { NoSurplusLayer(plan, a, b); }
    if |b| > |a| { NoSurplusLayer(plan, b, a); }
  }

  lemma SameLayer(plan: Plan, a: Layers, b: Layers, k: nat, t: string)
    requires IsLayering(plan, a) && IsLayering(plan, b) && k < |a| && t in a[k]
    ensures k < |b| && t in b[k]
  {
    hide Leveled, Ids, IsChain, WellFormed;
    InPlaced(a, k, t);
    var j := LayerOf(b, t);
    LayerIsLongestChain(plan, a, t, k);
    LayerIsLongestChain(plan, b, t, j);
    var p :| |p| == k + 1 && IsChain(plan, p) && p[|p| - 1] == t;
    var q :| |q| == j + 1 && IsChain(plan, q) && q[|q| - 1] == t;
    assert |p| <= j + 1 && |q| <= k + 1;
  }

  lemma SameLayerMembers(plan: Plan, a: Layers, b: Layers, k: nat)
    requires IsLayering(plan, a) && IsLayering(plan, b) && k < |a| && k < |b|
    ensures Elements(a[k]) == Elements(b[k])
  {
    hide IsLayering;
    forall t ensures t in a[k] <==> t in b[k] {
      if t in a[k] { SameLayer(plan, a, b, k, t); }
      if t in b[k] { SameLayer(plan, b, a, k, t); }
    }
  }

  lemma NoSurplusLayer(plan: Plan, a: Layers, b: Layers)
    requires IsLayering(plan, a) && IsLayering(plan, b)
    ensures |a| <= |b|
  {
    hide Leveled, Placed;
    if |a| > |b| { SameLayer(plan, a, b, |b|, a[|b|][0]); }
  }

  // ------------------------------------------------------------------ cycles from what is left

  /** Everything left over waits for something left over. */
  ghost predicate Stuck(plan: Plan, left: set<string>) {
    left <= Ids(plan) && forall t {:trigger WaitsInside(plan, left, t)} | t in left :: WaitsInside(plan, left, t)
  }

  ghost predicate WaitsInside(plan: Plan, left: set<string>, t: string) {
    exists d :: d in left && DependsOn(plan, t, d)
  }

  lemma WaitsFor(plan: Plan, left: set<string>, t: string) returns (d: string)
    requires Stuck(plan, left) && t in left
    ensures d in left && DependsOn(plan, t, d) && t in Ids(plan) && d in Ids(plan)
  {
    hide DependsOn, Ids;
    assert WaitsInside(plan, left, t);
    d :| d in left && DependsOn(plan, t, d);
  }

  /** A chain of any length that lives in a stuck set, built backwards. */
  lemma {:induction false} ChainInside(plan: Plan, left: set<string>, n: nat) returns (p: seq<string>)
    requires Stuck(plan, left) && left != {}
    ensures IsChain(plan, p) && |p| == n + 1 && forall k | 0 <= k < |p| :: p[k] in left
  {
    hide DependsOn, Ids, IsChain, Stuck;
    if n == 0 {
      var t :| t in left;
      var d := WaitsFor(plan, left, t);
      SingleIsChain(plan, t);
      p := [t];
    } else {
      var q := ChainInside(plan, left, n - 1);
      var d := WaitsFor(plan, left, q[0]);
      SingleIsChain(plan, d);
      LongerIsChain(plan, [d], q);
      p := [d] + q;
    }
  }

  lemma Repetition(p: seq<string>, s: set<string>) returns (i: nat, j: nat)
    requires |p| > |s| && forall k | 0 <= k < |p| :: p[k] in s
    ensures i < j < |p| && p[i] == p[j]
  {
    assert Elements(p) <= s;
    SubsetSize(Elements(p), s);
    ElementsSize(p);
    i, j :| 0 <= i < j < |p| && p[i] == p[j];
  }

  /** Pigeonhole: a stuck set contains a cycle, and here it is. */
  lemma StuckSetHasCycle(plan: Plan, left: set<string>) returns (cycle: seq<string>)
    requires Stuck(plan, left) && left != {}
    ensures IsCycle(plan, cycle) && Elements(cycle) <= left
  {
    hide DependsOn, Ids, IsChain, Stuck;
    var p := ChainInside(plan, left, |left|);
    var i, j := Repetition(p, left);
    SliceIsChain(plan, p, i, j + 1);
    cycle := p[i..j + 1];
  }

  lemma {:induction false} SubsetSize<T>(a: set<T>, b: set<T>)
    requires a <= b
    ensures |a| <= |b|
    ensures |a| == |b| ==> a == b
  {
    if a != {} {
      var x :| x in a;
      SubsetSize(a - {x}, b - {x});
    }
  }

  // ------------------------------------------------------------------ dependency counts

  /** One entry per listed dependency: `to` waits for `from`. */
  datatype Edge = Edge(from: string, to: string)

  /** The edges of the first `n` dependencies of task `i`, after those of the tasks before it. */
  function EdgesUpTo(plan: Plan, i: nat, n: nat): seq<Edge>
    requires i < |plan| && n <= |plan[i].dependsOn|
    decreases i, n
  {
    if n > 0 then EdgesUpTo(plan, i, n - 1) + [Edge(plan[i].dependsOn[n - 1], plan[i].id)]
    else if i > 0 then EdgesUpTo(plan, i - 1, |plan[i - 1].dependsOn|)
    else []
  }

  function Edges(plan: Plan): seq<Edge> {
    if plan == [] then [] else EdgesUpTo(plan, |plan| - 1, |plan[|plan| - 1].dependsOn|)
  }

  lemma {:induction false} EdgesAreDependencies(plan: Plan, i: nat, n: nat, t: string, d: string)
    requires i < |plan| && n <= |plan[i].dependsOn|
    ensures Edge(d, t) in EdgesUpTo(plan, i, n) <==>
              || (plan[i].id == t && d in plan[i].dependsOn[..n])
              || exists j | 0 <= j < i :: plan[j].id == t && d in plan[j].dependsOn
    decreases i, n
  {
    if n > 0 {
      EdgesAreDependencies(plan, i, n - 1, t, d);
      assert plan[i].dependsOn[..n] == plan[i].dependsOn[..n - 1] + [plan[i].dependsOn[n - 1]];
    } else if i > 0 {
      EdgesAreDependencies(plan, i - 1, |plan[i - 1].dependsOn|, t, d);
      assert plan[i - 1].dependsOn[..|plan[i - 1].dependsOn|] == plan[i - 1].dependsOn;
    }
  }

  lemma EdgeIffDependsOn(plan: Plan, t: string, d: string)
    ensures Edge(d, t) in Edges(plan) <==> DependsOn(plan, t, d)
  {
    if plan != [] {
      var i := |plan| - 1;
      EdgesAreDependencies(plan, i, |plan[i].dependsOn|, t, d);
      assert plan[i].dependsOn[..|plan[i].dependsOn|] == plan[i].dependsOn;
    }
  }

  /** How many edges into `t` come from tasks outside `done`. */
  function Pending(edges: seq<Edge>, t: string, done: set<string>): nat {
    if edges == [] then 0
    else
      var e := edges[|edges| - 1];
      Pending(edges[..|edges| - 1], t, done) + if e.to == t && e.from !in done then 1 else 0
  }

  /** The targets of the edges out of `d`, in order. */
  function Targets(edges: seq<Edge>, d: string): seq<string> {
    if edges == [] then []
    else
      var e := edges[|edges| - 1];
      Targets(edges[..|edges| - 1], d) + if e.from == d then [e.to] else []
  }

  lemma {:induction false} PendingZero(edges: seq<Edge>, t: string, done: set<string>)
    ensures Pending(edges, t, done) == 0 <==> forall d | Edge(d, t) in edges :: d in done
  {
    if edges != [] {
      var n := |edges| - 1;
      var front, e := edges[..n], edges[n];
      PendingZero(front, t, done);
      assert edges == front + [e];
      assert forall d :: Edge(d, t) in edges <==> Edge(d, t) in front || Edge(d, t) == e;
    }
  }

  lemma {:induction false} PendingDrops(edges: seq<Edge>, t: string, done: set<string>, d: string)
    requires d !in done
    ensures Pending(edges, t, done) == Pending(edges, t, done + {d}) + multiset(Targets(edges, d))[t]
  {
    if edges != [] {
      PendingDrops(edges[..|edges| - 1], t, done, d);
    }
  }

  lemma {:induction false} TargetsAreEdges(edges: seq<Edge>, d: string, t: string)
    ensures t in Targets(edges, d) <==> Edge(d, t) in edges
  {
    if edges != [] {
      var n := |edges| - 1;
      TargetsAreEdges(edges[..n], d, t);
      assert edges == edges[..n] + [edges[n]];
    }
  }

  lemma PendingMonotone(edges: seq<Edge>, t: string, less: set<string>, more: set<string>)
    requires less <= more
    ensures Pending(edges, t, less) == 0 ==> Pending(edges, t, more) == 0
  {
    PendingZero(edges, t, less);
    PendingZero(edges, t, more);
  }

  // ------------------------------------------------------------------ the algorithm

  /** The two maps that `topologicalLayers` builds first. */
  ghost predicate CountsEdges(inDegree: map<string, int>, dependents: map<string, seq<string>>,
                              ids: set<string>, edges: seq<Edge>) {
    && inDegree.Keys == ids
    && (forall t | t in ids :: inDegree[t] == Pending(edges, t, {}))
    && (forall d :: Targets(edges, d) == if d in dependents then dependents[d] else [])
  }

  method BuildMaps(plan: Plan) returns (inDegree: map<string, int>, dependents: map<string, seq<string>>)
    ensures CountsEdges(inDegree, dependents, Ids(plan), Edges(plan))
  {
    hide Ids, Edges, EdgesUpTo, CountsEdges;
    inDegree, dependents := map[], map[];
    NothingToCount();
    var i := 0;
    assert plan[..0] == [];
    while i < |plan|
      invariant 0 <= i <= |plan|
      invariant CountsEdges(inDegree, dependents, Ids(plan[..i]), Edges(plan[..i]))
    {
      var t := plan[i];
      ghost var upto := plan[..i + 1];
      assert upto == plan[..i] + [t];
      CountTask(inDegree, dependents, plan[..i], t);
      if t.id !in inDegree { inDegree := inDegree[t.id := 0]; }
      var n := 0;
      while n < |t.dependsOn|
        invariant 0 <= n <= |t.dependsOn| && t.id in inDegree
        invariant CountsEdges(inDegree, dependents, Ids(upto), EdgesUpTo(upto, i, n))
      {
        var dep := t.dependsOn[n];
        EdgesStep(upto, i, n);
        CountEdge(inDegree, dependents, Ids(upto), EdgesUpTo(upto, i, n), dep, t.id);
        dependents := dependents[dep := (if dep in dependents then dependents[dep] else []) + [t.id]];
        inDegree := inDegree[t.id := inDegree[t.id] + 1];
        n := n + 1;
      }
      EdgesOfLast(upto);
      i := i + 1;
    }
    assert plan[..|plan|] == plan;
  }

  lemma NothingToCount()
    ensures CountsEdges(map[], map[], Ids([]), Edges([]))
  {
  }

  lemma EdgesStep(plan: Plan, i: nat, n: nat)
    requires i < |plan| && n < |plan[i].dependsOn|
    ensures EdgesUpTo(plan, i, n + 1) == EdgesUpTo(plan, i, n) + [Edge(plan[i].dependsOn[n], plan[i].id)]
    ensures plan[i].id in Ids(plan)
  {
  }

  lemma EdgesOfLast(plan: Plan)
    requires plan != []
    ensures Edges(plan) == EdgesUpTo(plan, |plan| - 1, |plan[|plan| - 1].dependsOn|)
  {
  }

  /** Counting one more listed dependency. */
  lemma CountEdge(inDegree: map<string, int>, dependents: map<string, seq<string>>, ids: set<string>,
                  edges: seq<Edge>, dep: string, id: string)
    requires CountsEdges(inDegree, dependents, ids, edges) && id in ids && id in inDegree
    ensures CountsEdges(inDegree[id := inDegree[id] + 1],
                        dependents[dep := (if dep in dependents then dependents[dep] else []) + [id]],
                        ids, edges + [Edge(dep, id)])
  {
    hide Pending, Targets;
    var e := Edge(dep, id);
    forall t ensures Pending(edges + [e], t, {}) == Pending(edges, t, {}) + if t == id then 1 else 0 {
      OneMoreEdge(edges, e, t, "");
    }
    forall d ensures Targets(edges + [e], d) == Targets(edges, d) + if d == dep then [id] else [] {
      OneMoreEdge(edges, e, "", d);
    }
  }

  lemma OneMoreEdge(edges: seq<Edge>, e: Edge, t: string, d: string)
    ensures Pending(edges + [e], t, {}) == Pending(edges, t, {}) + if t == e.to then 1 else 0
    ensures Targets(edges + [e], d) == Targets(edges, d) + if d == e.from then [e.to] else []
  {
    assert (edges + [e])[..|edges|] == edges;
  }

  /** Entering one more task, before any of its dependencies is counted. */
  lemma CountTask(inDegree: map<string, int>, dependents: map<string, seq<string>>, before: Plan, t: SubTask)
    requires CountsEdges(inDegree, dependents, Ids(before), Edges(before))
    ensures t.id in Ids(before + [t])
    ensures CountsEdges(if t.id !in inDegree then inDegree[t.id := 0] else inDegree, dependents,
                        Ids(before + [t]), EdgesUpTo(before + [t], |before|, 0))
  {
    hide Ids, Edges, EdgesUpTo, Pending, Targets;
    IdsGrow(before, t);
    EdgesOfPrefix(before, t);
    NoEdgesIntoUnknown(before, t.id);
  }

  lemma IdsGrow(before: Plan, t: SubTask)
    ensures Ids(before + [t]) == Ids(before) + {t.id}
  {
    var upto := before + [t];
    assert upto[|before|] == t;
    forall x
      ensures x in Ids(upto) <==> x in Ids(before) + {t.id}
    {
      if x in Ids(before) {
        var i :| 0 <= i < |before| && before[i].id == x;
        assert upto[i].id == x;
      }
    }
  }

  lemma {:induction false} EdgesIgnoreSuffix(before: Plan, t: SubTask, i: nat, n: nat)
    requires i < |before| && n <= |before[i].dependsOn|
    ensures EdgesUpTo(before + [t], i, n) == EdgesUpTo(before, i, n)
    decreases i, n
  {
    if n > 0 {
      EdgesIgnoreSuffix(before, t, i, n - 1);
    } else if i > 0 {
      EdgesIgnoreSuffix(before, t, i - 1, |before[i - 1].dependsOn|);
    }
  }

  lemma EdgesAtTaskStart(plan: Plan, i: nat)
    requires i < |plan|
    ensures EdgesUpTo(plan, i, 0) == if i == 0 then [] else EdgesUpTo(plan, i - 1, |plan[i - 1].dependsOn|)
  {
  }

  lemma EdgesOfPrefix(before: Plan, t: SubTask)
    ensures EdgesUpTo(before + [t], |before|, 0) == Edges(before)
  {
    hide EdgesUpTo;
    EdgesAtTaskStart(before + [t], |before|);
    if before != [] {
      assert (before + [t])[|before| - 1] == before[|before| - 1];
      EdgesIgnoreSuffix(before, t, |before| - 1, |before[|before| - 1].dependsOn|);
    }
  }

  lemma NoEdgesIntoUnknown(plan: Plan, t: string)
    ensures t !in Ids(plan) ==> Pending(Edges(plan), t, {}) == 0
  {
    PendingZero(Edges(plan), t, {});
    forall d | Edge(d, t) in Edges(plan)
      ensures t in Ids(plan)
    {
      EdgeIffDependsOn(plan, t, d);
    }
  }

  /** The state at the head of the layering loop, with `done` the tasks placed before the last
      layer was. */
  ghost predicate LoopState(ids: set<string>, edges: seq<Edge>, inDegree: map<string, int>,
                            ready: seq<string>, placed: set<string>)
  {
    && inDegree.Keys == ids && placed <= ids
    && (forall t | t in ids :: inDegree[t] == Pending(edges, t, placed))
    && NoDuplicates(ready)
    && (forall t :: t in ready <==> t in ids && t !in placed && inDegree[t] == 0)
    && (forall t | t in placed :: Pending(edges, t, placed) == 0)
  }

  /** `added` are the tasks that the current layer has released so far. */
  ghost predicate Released(ids: set<string>, edges: seq<Edge>, inDegree: map<string, int>,
                           placed: set<string>, added: seq<string>)
  {
    && inDegree.Keys == ids && NoDuplicates(added)
    && forall t :: t in added <==> t in ids && inDegree[t] == 0 && Pending(edges, t, placed) > 0
  }

  lemma ReleaseOne(ids: set<string>, edges: seq<Edge>, inDegree: map<string, int>, placed: set<string>,
                   added: seq<string>, t: string)
    requires Released(ids, edges, inDegree, placed, added)
    requires t in ids && inDegree[t] > 0 && Pending(edges, t, placed) > 0
    ensures Released(ids, edges, inDegree[t := inDegree[t] - 1], placed,
                     if inDegree[t] == 1 then added + [t] else added)
  {
    hide Pending;
  }

  /** The innermost loop: task `id` has been taken off the queue, so every task that waits for it
      waits for one dependency less. `done` holds the tasks taken off before. */
  method ReleaseDependents(id: string, targets: seq<string>, inDegree0: map<string, int>, ready0: seq<string>,
                           ghost ids: set<string>, ghost edges: seq<Edge>, ghost placed: set<string>,
                           ghost done: set<string>, ghost added0: seq<string>)
    returns (inDegree: map<string, int>, ready: seq<string>, ghost added: seq<string>)
    requires targets == Targets(edges, id) && id !in done && placed <= done
    requires forall t | t in targets :: t in ids
    requires inDegree0.Keys == ids && Released(ids, edges, inDegree0, placed, added0)
    requires forall t | t in ids :: inDegree0[t] == Pending(edges, t, done)
    ensures Released(ids, edges, inDegree, placed, added)
    ensures forall t | t in ids :: inDegree[t] == Pending(edges, t, done + {id})
    ensures added0 <= added && ready == ready0 + added[|added0|..]
  {
    hide Pending, Targets, Released, Times;
    inDegree, ready, added := inDegree0, ready0, added0;
    var j := 0;
    forall t | t in ids
      ensures inDegree[t] == Pending(edges, t, done + {id}) + Times(targets[0..], t)
    {
      PendingDrops(edges, t, done, id);
      TimesFromStart(targets, t);
    }
    while j < |targets|
      invariant 0 <= j <= |targets|
      invariant inDegree.Keys == ids && Released(ids, edges, inDegree, placed, added)
      invariant forall t | t in ids :: inDegree[t] == Pending(edges, t, done + {id}) + Times(targets[j..], t)
      invariant added0 <= added && ready == ready0 + added[|added0|..]
    {
      var t := targets[j];
      TimesStep(targets, j);
      ReleasedWasWaiting(edges, placed, id, t, targets);
      ReleaseOne(ids, edges, inDegree, placed, added, t);
      inDegree := inDegree[t := inDegree[t] - 1];
      if inDegree[t] == 0 {
        ready := ready + [t];
        added := added + [t];
      }
      j := j + 1;
    }
    TimesAtEnd(targets);
  }

  /** How often `t` is still to be decremented. */
  ghost function Times(targets: seq<string>, t: string): nat { multiset(targets)[t] }

  lemma TimesFromStart(targets: seq<string>, t: string)
    ensures Times(targets[0..], t) == multiset(targets)[t]
  {
    assert targets[0..] == targets;
  }

  lemma TimesStep(targets: seq<string>, j: nat)
    requires j < |targets|
    ensures forall t :: Times(targets[j..], t) == Times(targets[j + 1..], t) + if t == targets[j] then 1 else 0
  {
    assert targets[j..] == [targets[j]] + targets[j + 1..];
  }

  lemma TimesAtEnd(targets: seq<string>)
    ensures forall t :: Times(targets[|targets|..], t) == 0
  {
    assert targets[|targets|..] == [];
  }

  /** The inner loops: empty the queue of one layer, collecting the tasks it releases. */
  method PopLayer(ids: set<string>, ghost edges: seq<Edge>, dependents: map<string, seq<string>>,
                  inDegree0: map<string, int>, ready0: seq<string>, ghost placed: set<string>)
    returns (layer: seq<string>, inDegree: map<string, int>, ready: seq<string>)
    requires LoopState(ids, edges, inDegree0, ready0, placed)
    requires forall d :: Targets(edges, d) == if d in dependents then dependents[d] else []
    requires forall e | e in edges :: e.to in ids
    ensures layer == ready0
    ensures LoopState(ids, edges, inDegree, ready, placed + Elements(ready0))
    ensures forall t | t in ready :: Pending(edges, t, placed) > 0
  {
    hide Pending, Targets, Released;
    layer, inDegree, ready := [], inDegree0, ready0;
    ghost var added: seq<string> := [];
    assert placed + Elements(ready0[..0]) == placed;
    NothingReleased(ids, edges, inDegree, ready0, placed);
    var layerSize, i := |ready|, 0;
    while i < layerSize
      invariant 0 <= i <= layerSize == |ready0|
      invariant layer == ready0[..i] && ready == ready0[i..] + added
      invariant inDegree.Keys == ids && Released(ids, edges, inDegree, placed, added)
      invariant forall t | t in ids :: inDegree[t] == Pending(edges, t, placed + Elements(ready0[..i]))
    {
      var id := ready[0];
      ghost var done, added0 := placed + Elements(ready0[..i]), added;
      assert id == ready0[i] && id !in done;
      assert ready0[..i + 1] == ready0[..i] + [id];
      assert done + {id} == placed + Elements(ready0[..i + 1]);
      ready := ready[1..];
      layer := layer + [id];
      assert Targets(edges, id) == if id in dependents then dependents[id] else [];
      TargetsInside(edges, id, ids);
      inDegree, ready, added := ReleaseDependents(id, if id in dependents then dependents[id] else [],
                                                  inDegree, ready, ids, edges, placed, done, added);
      ReleasedKeys(ids, edges, inDegree, placed, added);
      assert ready0[i..][1..] == ready0[i + 1..];
      assert added == added0 + added[|added0|..];
      i := i + 1;
    }
    assert ready0[..i] == ready0;
    assert ready == added;
    AfterLayer(ids, edges, inDegree0, inDegree, ready0, ready, placed);
  }

  lemma NothingReleased(ids: set<string>, edges: seq<Edge>, inDegree: map<string, int>, ready: seq<string>,
                        placed: set<string>)
    requires LoopState(ids, edges, inDegree, ready, placed)
    ensures Released(ids, edges, inDegree, placed, [])
  {
  }

  lemma ReleasedKeys(ids: set<string>, edges: seq<Edge>, inDegree: map<string, int>, placed: set<string>,
                     added: seq<string>)
    requires Released(ids, edges, inDegree, placed, added)
    ensures inDegree.Keys == ids
  {
  }

  lemma TargetsInside(edges: seq<Edge>, id: string, ids: set<string>)
    requires forall e | e in edges :: e.to in ids
    ensures forall t | t in Targets(edges, id) :: t in ids
  {
    forall t | t in Targets(edges, id)
      ensures t in ids
    {
      TargetsAreEdges(edges, id, t);
    }
  }

  lemma ReleasedWasWaiting(edges: seq<Edge>, placed: set<string>, id: string, t: string, targets: seq<string>)
    requires targets == Targets(edges, id) && t in targets && id !in placed
    ensures Edge(id, t) in edges && Pending(edges, t, placed) > 0
  {
    TargetsAreEdges(edges, id, t);
    PendingZero(edges, t, placed);
  }

  lemma AfterLayer(ids: set<string>, edges: seq<Edge>, inDegree0: map<string, int>, inDegree: map<string, int>,
                   ready0: seq<string>, ready: seq<string>, placed: set<string>)
    requires LoopState(ids, edges, inDegree0, ready0, placed)
    requires Released(ids, edges, inDegree, placed, ready)
    requires forall t | t in ids :: inDegree[t] == Pending(edges, t, placed + Elements(ready0))
    ensures LoopState(ids, edges, inDegree, ready, placed + Elements(ready0))
    ensures forall t | t in ready :: Pending(edges, t, placed) > 0
  {
    hide Pending;
    var done := placed + Elements(ready0);
    forall t | t in done
      ensures Pending(edges, t, done) == 0
    {
      PendingMonotone(edges, t, placed, done);
    }
  }

  /** The tasks with no dependency, in whatever order the unordered map yields them. */
  method FirstReady(inDegree: map<string, int>) returns (ready: seq<string>)
    ensures NoDuplicates(ready) && forall t :: t in ready <==> t in inDegree.Keys && inDegree[t] == 0
  {
    ready := [];
    var todo := inDegree.Keys;
    while todo != {}
      invariant todo <= inDegree.Keys && NoDuplicates(ready)
      invariant forall t :: t in ready <==> t in inDegree.Keys - todo && inDegree[t] == 0
      decreases todo
    {
      var id :| id in todo;
      if inDegree[id] == 0 { ready := ready + [id]; }
      todo := todo - {id};
    }
  }

  /** What the layering loop has established about the layers built so far. */
  ghost predicate LayersState(plan: Plan, layers: Layers, ready: seq<string>, placed: set<string>,
                              earlier: set<string>) {
    && WellFormed(layers) && Leveled(plan, layers) && placed == Placed(layers)
    && (layers != [] ==> earlier <= placed && placed == earlier + Elements(layers[|layers| - 1]))
    && (forall t | layers != [] && t in ready :: Pending(Edges(plan), t, earlier) > 0)
  }

  /** `topologicalLayers`. An error stands for the thrown "Circular dependency detected". The order
      in which the unordered map yields the first ready tasks is left open. */
  method TopologicalLayers(plan: Plan) returns (r: Result<Layers>)
    ensures r.Ok? <==> UniqueIds(plan) && Closed(plan) && Acyclic(plan)
    ensures r.Ok? ==> IsLayering(plan, r.value)
  {
    hide Ids, Edges, Pending, Targets, LoopState, LayersState, UniqueIds, Closed, Acyclic, IsLayering, Placed;
    ghost var ids, edges := Ids(plan), Edges(plan);
    var inDegree, dependents := BuildMaps(plan);
    EdgesStayInside(plan);
    var ready := FirstReady(inDegree);
    var layers: Layers := [];
    ghost var placed, earlier := {}, {};
    LoopStarts(plan, inDegree, ready);
    while ready != []
      invariant inDegree.Keys == ids
      invariant LoopState(ids, edges, inDegree, ready, placed)
      invariant LayersState(plan, layers, ready, placed, earlier)
      decreases |ids| - |placed|
    {
      var layer;
      ghost var ready0, degree0, layers0 := ready, inDegree, layers;
      LoopKeys(ids, edges, inDegree, ready, placed);
      layer, inDegree, ready := PopLayer(inDegree.Keys, edges, dependents, inDegree, ready, placed);
      layers := layers + [Sort(layer, LexLeq)];
      LoopAdvances(plan, layers0, degree0, ready0, inDegree, ready, placed, earlier);
      earlier, placed := placed, placed + Elements(ready0);
      LoopKeys(ids, edges, inDegree, ready, placed);
    }
    var totalEmitted := TotalSize(layers);
    LoopEnds(plan, layers, inDegree, placed, earlier);
    if totalEmitted < |plan| {
      return Err("Circular dependency detected in execution plan: "
                 + Decimal(|plan| - totalEmitted) + " task(s) in cycle");
    }
    return Ok(layers);
  }

  lemma LoopKeys(ids: set<string>, edges: seq<Edge>, inDegree: map<string, int>, ready: seq<string>,
                 placed: set<string>)
    requires LoopState(ids, edges, inDegree, ready, placed)
    ensures inDegree.Keys == ids
  {
  }

  lemma LoopStarts(plan: Plan, inDegree: map<string, int>, ready: seq<string>)
    requires inDegree.Keys == Ids(plan)
    requires forall t | t in Ids(plan) :: inDegree[t] == Pending(Edges(plan), t, {})
    requires NoDuplicates(ready) && forall t :: t in ready <==> t in inDegree.Keys && inDegree[t] == 0
    ensures LoopState(Ids(plan), Edges(plan), inDegree, ready, {})
    ensures LayersState(plan, [], ready, {}, {})
  {
    hide Ids, Edges, Pending;
    assert Placed([]) == {};
  }

  lemma LoopAdvances(plan: Plan, layers: Layers, inDegree0: map<string, int>, ready0: seq<string>,
                     inDegree: map<string, int>, ready: seq<string>, placed: set<string>, earlier: set<string>)
    requires ready0 != [] && LoopState(Ids(plan), Edges(plan), inDegree0, ready0, placed)
    requires LayersState(plan, layers, ready0, placed, earlier)
    requires LoopState(Ids(plan), Edges(plan), inDegree, ready, placed + Elements(ready0))
    requires forall t | t in ready :: Pending(Edges(plan), t, placed) > 0
    ensures LayersState(plan, layers + [Sort(ready0, LexLeq)], ready, placed + Elements(ready0), placed)
    ensures |placed| < |placed + Elements(ready0)| <= |Ids(plan)|
  {
    hide Ids, Edges, Pending, WellFormed, Leveled, Placed;
    LexOrder();
    SortSorts(ready0, LexLeq);
    ExtendLayers(plan, layers, ready0, Sort(ready0, LexLeq), placed, earlier);
    assert ready0[0] in Elements(ready0) && ready0[0] !in placed;
    SubsetSize(placed, placed + Elements(ready0));
    SubsetSize(placed + Elements(ready0), Ids(plan));
  }

  /** When the queue runs dry, everything is placed exactly if nothing was wrong with the plan. */
  lemma LoopEnds(plan: Plan, layers: Layers, inDegree: map<string, int>, placed: set<string>, earlier: set<string>)
    requires LoopState(Ids(plan), Edges(plan), inDegree, [], placed)
    requires LayersState(plan, layers, [], placed, earlier)
    ensures TotalSize(layers) < |plan| <==> !(UniqueIds(plan) && Closed(plan) && Acyclic(plan))
    ensures TotalSize(layers) >= |plan| ==> IsLayering(plan, layers)
    ensures TotalSize(layers) <= |plan|
  {
    hide Ids, Edges, Pending, WellFormed, Leveled, Placed, Closed;
    TotalIsPlaced(layers);
    SubsetSize(placed, Ids(plan));
    IdsAreFewer(plan);
    if |placed| == |plan| {
      LayeringRulesOutCycles(plan, layers);
    } else if UniqueIds(plan) && Closed(plan) {
      LeftoversAreStuck(plan, inDegree, placed);
      SomethingLeft(placed, Ids(plan));
      var cycle := StuckSetHasCycle(plan, Ids(plan) - placed);
    }
  }

  lemma SomethingLeft<T>(a: set<T>, b: set<T>)
    requires a <= b && |a| != |b|
    ensures b - a != {}
  {
    SubsetSize(a, b);
    assert !(b <= a) by {
      if b <= a { SubsetSize(b, a); }
    }
    var x :| x in b && x !in a;
    assert x in b - a;
  }

  lemma EdgesStayInside(plan: Plan)
    ensures forall e | e in Edges(plan) :: e.to in Ids(plan)
  {
    forall e | e in Edges(plan)
      ensures e.to in Ids(plan)
    {
      EdgeIffDependsOn(plan, e.to, e.from);
      assert e == Edge(e.from, e.to);
    }
  }

  /** Placing the queue's content as the next layer keeps the layers leveled. */
  lemma ExtendLayers(plan: Plan, layers: Layers, ready: seq<string>, sorted: seq<string>,
                     placed: set<string>, earlier: set<string>)
    requires WellFormed(layers) && Leveled(plan, layers) && placed == Placed(layers)
    requires layers != [] ==> earlier <= placed && placed == earlier + Elements(layers[|layers| - 1])
    requires ready != [] && |sorted| == |ready| && Elements(sorted) == Elements(ready)
    requires NoDuplicates(sorted) && SortedBy(sorted, LexLeq)
    requires forall t | t in ready :: t !in placed && Pending(Edges(plan), t, placed) == 0
    requires forall t | layers != [] && t in ready :: Pending(Edges(plan), t, earlier) > 0
    ensures WellFormed(layers + [sorted]) && Leveled(plan, layers + [sorted])
    ensures Placed(layers + [sorted]) == placed + Elements(ready)
  {
    hide DependsOn, Edges, Pending, Placed, TaskLeveled;
    var longer, n := layers + [sorted], |layers|;
    forall t ensures t in sorted <==> t in ready { assert t in Elements(sorted) <==> t in Elements(ready); }
    forall k, t | 0 <= k < |longer| && t in longer[k]
      ensures TaskLeveled(plan, longer, k, t)
    {
      if k < n {
        assert t in layers[k];
      } else {
        NewLayerIsLeveled(plan, layers, t, placed, earlier);
      }
      StaysLeveled(plan, layers, sorted, k, t);
    }
    PlacedGrows(layers, sorted);
    NewLayerIsDisjoint(layers, sorted);
  }

  lemma StaysLeveled(plan: Plan, layers: Layers, layer: seq<string>, k: nat, t: string)
    requires k <= |layers| && TaskLeveled(plan, layers, k, t)
    ensures TaskLeveled(plan, layers + [layer], k, t)
  {
    hide DependsOn;
    var longer := layers + [layer];
    forall d | DependsOn(plan, t, d)
      ensures InLayerBefore(longer, k, d)
    {
      assert InLayerBefore(layers, k, d);
      var j :| 0 <= j < k && j < |layers| && d in layers[j];
      assert d in longer[j];
    }
  }

  lemma NewLayerIsDisjoint(layers: Layers, layer: seq<string>)
    requires WellFormed(layers) && layer != [] && NoDuplicates(layer) && SortedBy(layer, LexLeq)
    requires forall t | t in layer :: t !in Placed(layers)
    ensures WellFormed(layers + [layer])
  {
    hide SortedBy, NoDuplicates;
    var longer, n := layers + [layer], |layers|;
    forall j, k, t | 0 <= j < k < |longer| && t in longer[j]
      ensures t !in longer[k]
    {
      assert t in layers[j];
      if k == n { InPlaced(layers, j, t); }
    }
  }

  lemma NewLayerIsLeveled(plan: Plan, layers: Layers, t: string, placed: set<string>, earlier: set<string>)
    requires placed == Placed(layers) && Pending(Edges(plan), t, placed) == 0
    requires layers != [] ==> placed == earlier + Elements(layers[|layers| - 1]) && Pending(Edges(plan), t, earlier) > 0
    ensures TaskLeveled(plan, layers, |layers|, t)
  {
    hide DependsOn, Edges, Pending;
    PendingZero(Edges(plan), t, placed);
    PendingZero(Edges(plan), t, earlier);
    forall d | DependsOn(plan, t, d)
      ensures InLayerBefore(layers, |layers|, d)
    {
      EdgeIffDependsOn(plan, t, d);
      assert d in Placed(layers);
    }
    if layers != [] {
      var d :| Edge(d, t) in Edges(plan) && d !in earlier;
      EdgeIffDependsOn(plan, t, d);
      assert d in placed;
    }
  }

  lemma InPlaced(layers: Layers, k: nat, t: string)
    requires k < |layers| && t in layers[k]
    ensures t in Placed(layers)
  {
  }

  lemma PlacedGrows(layers: Layers, layer: seq<string>)
    ensures Placed(layers + [layer]) == Placed(layers) + Elements(layer)
  {
    var longer := layers + [layer];
    forall t
      ensures t in Placed(longer) <==> t in Placed(layers) + Elements(layer)
    {
      if t in Placed(layers) {
        var k, i :| 0 <= k < |layers| && 0 <= i < |layers[k]| && layers[k][i] == t;
        assert longer[k][i] == t;
      }
      if t in layer {
        var i :| 0 <= i < |layer| && layer[i] == t;
        assert longer[|layers|][i] == t;
      }
    }
  }

  function TotalSize(layers: Layers): nat {
    if layers == [] then 0 else TotalSize(layers[..|layers| - 1]) + |layers[|layers| - 1]|
  }

  lemma {:induction false} TotalIsPlaced(layers: Layers)
    requires WellFormed(layers)
    ensures TotalSize(layers) == |Placed(layers)|
  {
    hide Placed, SortedBy;
    if layers != [] {
      var front, last := layers[..|layers| - 1], layers[|layers| - 1];
      assert forall k | 0 <= k < |front| :: front[k] == layers[k];
      TotalIsPlaced(front);
      PlacedGrows(front, last);
      assert layers == front + [last];
      ElementsSize(last);
      forall t | t in Placed(front)
        ensures t !in Elements(last)
      {
        var k := LayerOf(front, t);
        assert t in layers[k];
      }
      assert Placed(front) !! Elements(last);
    } else {
      NothingPlaced();
    }
  }

  lemma NothingPlaced()
    ensures Placed([]) == {}
  {
  }

  lemma LayerOf(layers: Layers, t: string) returns (k: nat)
    requires t in Placed(layers)
    ensures k < |layers| && t in layers[k]
  {
    k :| 0 <= k < |layers| && exists i :: 0 <= i < |layers[k]| && layers[k][i] == t;
  }

  lemma IdsAreFewer(plan: Plan)
    ensures |Ids(plan)| <= |plan|
    ensures |Ids(plan)| == |plan| <==> UniqueIds(plan)
  {
    var names := seq(|plan|, i requires 0 <= i < |plan| => plan[i].id);
    ElementsSize(names);
    assert forall i | 0 <= i < |plan| :: names[i] == plan[i].id;
    assert Elements(names) == Ids(plan) by {
      forall t ensures t in Elements(names) <==> t in Ids(plan) {
        if t in Ids(plan) {
          var i :| 0 <= i < |plan| && plan[i].id == t;
          assert names[i] == t;
        }
      }
    }
  }

  lemma LeftoversAreStuck(plan: Plan, inDegree: map<string, int>, placed: set<string>)
    requires Closed(plan) && LoopState(Ids(plan), Edges(plan), inDegree, [], placed)
    ensures Stuck(plan, Ids(plan) - placed)
  {
    hide DependsOn, Ids, Edges, Pending;
    forall t | t in Ids(plan) - placed
      ensures WaitsInside(plan, Ids(plan) - placed, t)
    {
      assert t in inDegree && inDegree[t] == Pending(Edges(plan), t, placed);
      PendingZero(Edges(plan), t, placed);
      var d :| Edge(d, t) in Edges(plan) && d !in placed;
      EdgeIffDependsOn(plan, t, d);
    }
  }
}
