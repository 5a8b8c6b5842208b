/** The consistent-hash ring of `common/src/load_balancer.cpp`.

    The FNV hash is a parameter. The theorems ask that it does not collide on the virtual-node
    keys; those keys themselves are proved to be distinct. */
module ConsistentHash {
  import opened Common
  import opened Sorting

  const RING_SIZE: nat := 0x1_0000_0000_0000_0000

  datatype HashNode = HashNode(key: string, endpoint: Endpoint, hash: nat)

  type Endpoints = map<string, Endpoint>

  function VirtualKey(i: nat, id: string): string { Decimal(i) + ":" + id }

  /** The replica number is written in digits only, so the first colon ends it and distinct
      virtual nodes have distinct keys. */
  lemma VirtualKeysAreDistinct(i: nat, a: string, j: nat, b: string)
    requires VirtualKey(i, a) == VirtualKey(j, b)
    ensures i == j && a == b
  {
    DecimalRoundTrip(i);
    DecimalRoundTrip(j);
    var s, m, n := VirtualKey(i, a), |Decimal(i)|, |Decimal(j)|;
    assert s[m] == ':' && s[n] == ':';
    assert m == n;
    assert Decimal(i) == s[..m] && Decimal(j) == s[..n];
    assert a == s[m + 1..] && b == s[n + 1..];
  }

  ghost predicate IsHash(hash: string -> nat) {
    forall s :: hash(s) < RING_SIZE
  }

  /** Where the ring places a virtual node. */
  function Position(i: nat, id: string, hash: string -> nat): nat { hash(VirtualKey(i, id)) }

  /** No two virtual nodes of these endpoints share a position. */
  ghost predicate CollisionFree(hash: string -> nat, ids: set<string>, replicas: int) {
    forall i: nat, j: nat, a, b | i < replicas && j < replicas && a in ids && b in ids
      && Position(i, a, hash) == Position(j, b, hash) :: VirtualKey(i, a) == VirtualKey(j, b)
  }

  function NodeOf(i: nat, id: string, endpoint: Endpoint, hash: string -> nat): HashNode {
    HashNode(VirtualKey(i, id), endpoint, Position(i, id, hash))
  }

  /** The first `count` virtual nodes of one endpoint. */
  ghost function Replicas(id: string, endpoint: Endpoint, count: int, hash: string -> nat): set<HashNode> {
    set i: nat | i < count :: NodeOf(i, id, endpoint, hash)
  }

  /** The virtual nodes of the healthy endpoints. */
  ghost function Nodes(eps: Endpoints, replicas: int, hash: string -> nat): set<HashNode> {
    NodesAmong(eps.Keys, eps, replicas, hash)
  }

  ghost function NodesAmong(ids: set<string>, eps: Endpoints, replicas: int, hash: string -> nat): set<HashNode>
    requires ids <= eps.Keys
  {
    set id, i: nat | id in ids && eps[id].healthy && i < replicas :: NodeOf(i, id, eps[id], hash)
  }

  predicate HashLeq(a: HashNode, b: HashNode) { a.hash <= b.hash }

  /** The ring: every virtual node of every healthy endpoint once, ascending by position. */
  ghost predicate IsRing(ring: seq<HashNode>, eps: Endpoints, replicas: int, hash: string -> nat) {
    && Elements(ring) == Nodes(eps, replicas, hash)
    && NoDuplicates(ring)
    && SortedBy(ring, HashLeq)
  }

  ghost predicate Keyed(eps: Endpoints) {
    forall id | id in eps :: eps[id].Id() == id
  }

  lemma EqualHashEqualNode(eps: Endpoints, replicas: int, hash: string -> nat, x: HashNode, y: HashNode)
    requires CollisionFree(hash, eps.Keys, replicas)
    requires x in Nodes(eps, replicas, hash) && y in Nodes(eps, replicas, hash) && x.hash == y.hash
    ensures x == y
  {
    var a, i: nat :| a in eps && i < replicas && x == NodeOf(i, a, eps[a], hash);
    var b, j: nat :| b in eps && j < replicas && y == NodeOf(j, b, eps[b], hash);
    assert x == NodeOf(i, a, eps[a], hash) && y == NodeOf(j, b, eps[b], hash);
    assert a in eps.Keys && b in eps.Keys && Position(i, a, hash) == Position(j, b, hash);
    VirtualKeysAreDistinct(i, a, j, b);
  }

  /** The ring is a function of the healthy endpoints alone: any two balancers whose healthy
      endpoints agree hold the same ring, whatever updates and flips led there. */
  lemma RingForgetsHistory(r1: seq<HashNode>, e1: Endpoints, r2: seq<HashNode>, e2: Endpoints,
                           replicas: int, hash: string -> nat)
    requires IsRing(r1, e1, replicas, hash) && IsRing(r2, e2, replicas, hash)
    requires CollisionFree(hash, e1.Keys, replicas)
    requires forall id :: (id in e1 && e1[id].healthy) <==> (id in e2 && e2[id].healthy)
    requires forall id | id in e1 && e1[id].healthy :: e1[id] == e2[id]
    ensures r1 == r2
  {
    assert Nodes(e1, replicas, hash) == Nodes(e2, replicas, hash);
    forall x, y | x in r1 && y in r1 && HashLeq(x, y) && HashLeq(y, x)
      ensures x == y
    {
      assert x in Elements(r1) && y in Elements(r1);
      EqualHashEqualNode(e1, replicas, hash, x, y);
    }
    SortedIsUnique(r1, r2, HashLeq);
  }

  /** How far one travels clockwise from `from` to reach `to`. */
  function Clockwise(from: nat, to: nat): (d: nat)
    requires from < RING_SIZE && to < RING_SIZE
    ensures d < RING_SIZE && (from + d) % RING_SIZE == to
  {
    if from <= to then to - from else to + RING_SIZE - from
  }

  /** `n` is the first of the nodes that a clockwise walk from position `h` meets. */
  ghost predicate IsOwner(nodes: set<HashNode>, h: nat, n: HashNode)
    requires h < RING_SIZE && forall m | m in nodes :: m.hash < RING_SIZE
  {
    n in nodes && forall m | m in nodes :: Clockwise(h, n.hash) <= Clockwise(h, m.hash)
  }

  lemma NodesInRange(eps: Endpoints, replicas: int, hash: string -> nat)
    requires IsHash(hash)
    ensures forall m | m in Nodes(eps, replicas, hash) :: m.hash < RING_SIZE
  {
  }

  ghost predicate IsLowerBound(ring: seq<HashNode>, h: nat, k: nat) {
    && k <= |ring|
    && (forall j | 0 <= j < k :: ring[j].hash < h)
    && (forall j | k <= j < |ring| :: h <= ring[j].hash)
  }

  /** `lower_bound` with wrap-around finds the clockwise-first node. */
  lemma LowerBoundIsOwner(ring: seq<HashNode>, h: nat, k: nat)
    requires ring != [] && h < RING_SIZE && SortedBy(ring, HashLeq)
    requires forall m | m in Elements(ring) :: m.hash < RING_SIZE
    requires IsLowerBound(ring, h, k)
    ensures IsOwner(Elements(ring), h, ring[if k == |ring| then 0 else k])
  {
    var w := if k == |ring| then 0 else k;
    assert ring[w] in Elements(ring);
    forall m | m in Elements(ring)
      ensures Clockwise(h, ring[w].hash) <= Clockwise(h, m.hash)
    {
      var j :| 0 <= j < |ring| && ring[j] == m;
      assert j < w ==> HashLeq(ring[j], ring[w]);
      assert w < j ==> HashLeq(ring[w], ring[j]);
      assert ring[j] in Elements(ring);
    }
  }

  lemma OwnerIsUnique(eps: Endpoints, replicas: int, hash: string -> nat, h: nat, x: HashNode, y: HashNode)
    requires IsHash(hash) && h < RING_SIZE && CollisionFree(hash, eps.Keys, replicas)
    requires (NodesInRange(eps, replicas, hash); IsOwner(Nodes(eps, replicas, hash), h, x))
    requires (NodesInRange(eps, replicas, hash); IsOwner(Nodes(eps, replicas, hash), h, y))
    ensures x == y
  {
    NodesInRange(eps, replicas, hash);
    EqualHashEqualNode(eps, replicas, hash, x, y);
  }

  /** The endpoint that a healthy pool assigns to position `h`. */
  ghost predicate Serves(eps: Endpoints, replicas: int, hash: string -> nat, h: nat, endpoint: Endpoint)
    requires IsHash(hash) && h < RING_SIZE
  {
    NodesInRange(eps, replicas, hash);
    exists n :: IsOwner(Nodes(eps, replicas, hash), h, n) && n.endpoint == endpoint
  }

  lemma CommonOwnersCoincide(before: set<HashNode>, after: set<HashNode>, h: nat, n: HashNode, n': HashNode)
    requires h < RING_SIZE && forall m | m in before + after :: m.hash < RING_SIZE
    requires IsOwner(before, h, n) && IsOwner(after, h, n') && n in after && n' in before
    ensures n.hash == n'.hash
  {
  }

  lemma NodeHasOrigin(eps: Endpoints, replicas: int, hash: string -> nat, n: HashNode)
      returns (id: string, i: nat)
    requires n in Nodes(eps, replicas, hash)
    ensures id in eps && eps[id].healthy && i < replicas && n == NodeOf(i, id, eps[id], hash)
    ensures n.endpoint == eps[id]
  {
    id, i :| id in eps && eps[id].healthy && i < replicas && n == NodeOf(i, id, eps[id], hash);
    assert n == NodeOf(i, id, eps[id], hash);
  }

  /** Minimal disruption: flipping one endpoint's health moves only positions that this endpoint
      served before or serves afterwards. Everything else keeps its endpoint. */
  lemma FlipMovesOnlyItsOwnKeys(eps: Endpoints, id: string, healthy: bool, replicas: int,
                                hash: string -> nat, h: nat, before: Endpoint, after: Endpoint)
    requires IsHash(hash) && h < RING_SIZE && Keyed(eps) && id in eps
    requires CollisionFree(hash, eps.Keys, replicas)
    requires Serves(eps, replicas, hash, h, before)
    requires Serves(eps[id := eps[id].(healthy := healthy)], replicas, hash, h, after)
    ensures before == after || before.Id() == id || after.Id() == id
  {
    hide CollisionFree, Clockwise, IsOwner;
    var eps' := eps[id := eps[id].(healthy := healthy)];
    assert eps'.Keys == eps.Keys;
    NodesInRange(eps, replicas, hash);
    NodesInRange(eps', replicas, hash);
    var n :| IsOwner(Nodes(eps, replicas, hash), h, n) && n.endpoint == before;
    var n' :| IsOwner(Nodes(eps', replicas, hash), h, n') && n'.endpoint == after;
    OwnersAreNodes(eps, eps', replicas, hash, h, n, n');
    var a, i := NodeHasOrigin(eps, replicas, hash, n);
    var b, j := NodeHasOrigin(eps', replicas, hash, n');
    if a != id && b != id {
      assert n in Nodes(eps', replicas, hash) by { assert eps'[a] == eps[a]; }
      assert n' in Nodes(eps, replicas, hash) by { assert eps'[b] == eps[b]; }
      CommonOwnersCoincide(Nodes(eps, replicas, hash), Nodes(eps', replicas, hash), h, n, n');
      EqualHashEqualNode(eps, replicas, hash, n, n');
    }
  }

  /** Minimal disruption for any update: a position goes to another endpoint only if the endpoint that
      served it is gone or unhealthy, or the one that serves it now was not there or not healthy. What
      else was added, removed, marked or changed in the same update makes no difference. */
  lemma UpdateMovesOnlyLostAndNewKeys(eps: Endpoints, eps': Endpoints, replicas: int, hash: string -> nat, h: nat,
                                      before: Endpoint, after: Endpoint)
    requires IsHash(hash) && h < RING_SIZE && Keyed(eps) && Keyed(eps')
    requires CollisionFree(hash, eps.Keys, replicas)
    requires Serves(eps, replicas, hash, h, before) && Serves(eps', replicas, hash, h, after)
    ensures before.Id() == after.Id()
            || !(before.Id() in eps' && eps'[before.Id()].healthy)
            || !(after.Id() in eps && eps[after.Id()].healthy)
  {
    hide CollisionFree, Clockwise;
    NodesInRange(eps, replicas, hash);
    NodesInRange(eps', replicas, hash);
    var n :| IsOwner(Nodes(eps, replicas, hash), h, n) && n.endpoint == before;
    var n' :| IsOwner(Nodes(eps', replicas, hash), h, n') && n'.endpoint == after;
    OwnersAreNodes(eps, eps', replicas, hash, h, n, n');
    var a, i := NodeHasOrigin(eps, replicas, hash, n);
    var b, j := NodeHasOrigin(eps', replicas, hash, n');
    if a in eps' && eps'[a].healthy && b in eps && eps[b].healthy {
      var m, m' := NodeOf(j, b, eps[b], hash), NodeOf(i, a, eps'[a], hash);
      assert m in Nodes(eps, replicas, hash) && m' in Nodes(eps', replicas, hash);
      assert Clockwise(h, n.hash) <= Clockwise(h, m.hash) && Clockwise(h, n'.hash) <= Clockwise(h, m'.hash);
      SamePlace(h, n.hash, n'.hash);
      EqualHashEqualNode(eps, replicas, hash, n, m);
      assert eps[a].Id() == a && eps[b].Id() == b;
    }
  }

  lemma SamePlace(h: nat, x: nat, y: nat)
    requires h < RING_SIZE && x < RING_SIZE && y < RING_SIZE && Clockwise(h, x) == Clockwise(h, y)
    ensures x == y
  {
  }

  lemma OwnersAreNodes(eps: Endpoints, eps': Endpoints, replicas: int, hash: string -> nat, h: nat,
                       n: HashNode, n': HashNode)
    requires IsHash(hash) && h < RING_SIZE
    requires (NodesInRange(eps, replicas, hash); IsOwner(Nodes(eps, replicas, hash), h, n))
    requires (NodesInRange(eps', replicas, hash); IsOwner(Nodes(eps', replicas, hash), h, n'))
    ensures n in Nodes(eps, replicas, hash) && n' in Nodes(eps', replicas, hash)
  {
  }

  /** Only endpoints that are registered and currently marked healthy ever serve a position. */
  lemma ServingEndpointIsHealthy(eps: Endpoints, replicas: int, hash: string -> nat, h: nat, endpoint: Endpoint)
    requires IsHash(hash) && h < RING_SIZE && Keyed(eps)
    requires Serves(eps, replicas, hash, h, endpoint)
    ensures endpoint.healthy && endpoint.Id() in eps && eps[endpoint.Id()] == endpoint
  {
    NodesInRange(eps, replicas, hash);
    var n :| IsOwner(Nodes(eps, replicas, hash), h, n) && n.endpoint == endpoint;
    var id, i := NodeHasOrigin(eps, replicas, hash, n);
  }

  /** Node `i` of endpoint `id`: the decimal replica number, a colon and the id, hashed. */
  ghost predicate IsReplica(n: HashNode, i: nat, id: string, endpoint: Endpoint, hash: string -> nat) {
    n.key == Decimal(i) + ":" + id && n.endpoint == endpoint && n.hash == hash(Decimal(i) + ":" + id)
  }

  ghost predicate IsReplicaOfSome(n: HashNode, eps: Endpoints, replicas: int, hash: string -> nat) {
    exists id, i: nat :: id in eps && eps[id].healthy && i < replicas && IsReplica(n, i, id, eps[id], hash)
  }

  lemma NodesAreReplicas(eps: Endpoints, replicas: int, hash: string -> nat)
    ensures forall n :: n in Nodes(eps, replicas, hash) <==> IsReplicaOfSome(n, eps, replicas, hash)
  {
    forall n ensures n in Nodes(eps, replicas, hash) <==> IsReplicaOfSome(n, eps, replicas, hash) {
      if n in Nodes(eps, replicas, hash) {
        var id, i := NodeHasOrigin(eps, replicas, hash, n);
        assert IsReplica(n, i, id, eps[id], hash);
      }
      if IsReplicaOfSome(n, eps, replicas, hash) {
        var id, i: nat :| id in eps && eps[id].healthy && i < replicas && IsReplica(n, i, id, eps[id], hash);
        assert n == NodeOf(i, id, eps[id], hash);
      }
    }
  }

  lemma HashOrder()
    ensures TotalPreorder(HashLeq)
  {
  }

  lemma NewReplicaIsNew(i: nat, id: string, done: set<string>, eps: Endpoints, replicas: int, hash: string -> nat)
    requires done <= eps.Keys && id !in done && id in eps
    ensures NodeOf(i, id, eps[id], hash) !in NodesAmong(done, eps, replicas, hash)
    ensures NodeOf(i, id, eps[id], hash) !in Replicas(id, eps[id], i, hash)
  {
    var node := NodeOf(i, id, eps[id], hash);
    forall a, j: nat | node.key == VirtualKey(j, a)
      ensures a == id && j == i
    {
      VirtualKeysAreDistinct(i, id, j, a);
    }
  }

  lemma NodesOneMore(ids: set<string>, id: string, eps: Endpoints, replicas: int, hash: string -> nat)
    requires ids <= eps.Keys && id in eps
    ensures NodesAmong(ids + {id}, eps, replicas, hash)
            == NodesAmong(ids, eps, replicas, hash)
               + (if eps[id].healthy then Replicas(id, eps[id], replicas, hash) else {})
  {
    hide NodeOf;
  }

  lemma SortedNodesAreRing(nodes: seq<HashNode>, eps: Endpoints, replicas: int, hash: string -> nat)
    requires NoDuplicates(nodes) && Elements(nodes) == NodesAmong(eps.Keys, eps, replicas, hash)
    ensures var ring := Sort(nodes, HashLeq);
            && IsRing(ring, eps, replicas, hash)
            && (forall n :: n in ring <==> IsReplicaOfSome(n, eps, replicas, hash))
            && (forall i, j | 0 <= i < j < |ring| :: ring[i].hash <= ring[j].hash)
  {
    HashOrder();
    SortSorts(nodes, HashLeq);
    NodesAreReplicas(eps, replicas, hash);
    hide IsReplicaOfSome, NodesAmong, Sort;
    var ring := Sort(nodes, HashLeq);
    assert forall n :: n in ring <==> n in Elements(ring);
    assert forall i, j | 0 <= i < j < |ring| :: HashLeq(ring[i], ring[j]);
  }

  /** `ConsistentHashLoadBalancer`. */
  class Balancer {
    const replicas: int
    const hash: string -> nat
    var endpoints: Endpoints
    var ring: seq<HashNode>

    ghost predicate Valid()
      reads this
    {
      Keyed(endpoints) && IsRing(ring, endpoints, replicas, hash)
    }

    constructor (virtualNodes: int, hash: string -> nat)
      ensures Valid() && endpoints == map[] && replicas == virtualNodes && this.hash == hash
    {
      this.replicas, this.hash := virtualNodes, hash;
      endpoints, ring := map[], [];
    }

    method BuildHashRing()
      requires Keyed(endpoints)
      modifies this`ring
      ensures Valid()
      ensures forall n :: n in ring <==> IsReplicaOfSome(n, endpoints, replicas, hash)
      ensures forall i, j | 0 <= i < j < |ring| :: ring[i].hash <= ring[j].hash
    {
      hide IsReplicaOfSome, Replicas, Nodes;
      ring := [];
      var todo := endpoints.Keys;
      assert endpoints.Keys - todo == {} && NodesAmong({}, endpoints, replicas, hash) == {};
      hide NodesAmong;
      while todo != {}
        invariant todo <= endpoints.Keys
        invariant NoDuplicates(ring) && Elements(ring) == NodesAmong(endpoints.Keys - todo, endpoints, replicas, hash)
        decreases todo
      {
        var id :| id in todo;
        NodesOneMore(endpoints.Keys - todo, id, endpoints, replicas, hash);
        assert endpoints.Keys - (todo - {id}) == (endpoints.Keys - todo) + {id};
        if endpoints[id].healthy {
          AddReplicas(id, todo);
        }
        todo := todo - {id};
      }
      assert endpoints.Keys - {} == endpoints.Keys;
      SortedNodesAreRing(ring, endpoints, replicas, hash);
      hide *;
      ring := Sort(ring, HashLeq);
    }

    /** The inner loop of `buildHashRing`: the virtual nodes of one endpoint. */
    method AddReplicas(id: string, ghost todo: set<string>)
      requires id in todo && todo <= endpoints.Keys && endpoints[id].healthy
      requires NoDuplicates(ring) && Elements(ring) == NodesAmong(endpoints.Keys - todo, endpoints, replicas, hash)
      modifies this`ring
      ensures NoDuplicates(ring)
      ensures Elements(ring) == old(Elements(ring)) + Replicas(id, endpoints[id], replicas, hash)
    {
      ghost var before := Elements(ring);
      var i := 0;
      while i < replicas
        invariant 0 <= i && (i <= replicas || i == 0)
        invariant NoDuplicates(ring)
        invariant Elements(ring) == before + Replicas(id, endpoints[id], i, hash)
      {
        var node := NodeOf(i, id, endpoints[id], hash);
        NewReplicaIsNew(i, id, endpoints.Keys - todo, endpoints, replicas, hash);
        assert node !in Elements(ring);
        assert Elements(ring + [node]) == Elements(ring) + {node};
        assert Replicas(id, endpoints[id], i + 1, hash) == Replicas(id, endpoints[id], i, hash) + {node};
        ring := ring + [node];
        i := i + 1;
      }
    }

    method UpdateEndpoints(offered: seq<Endpoint>)
      requires Valid()
      modifies this
      ensures Valid()
      ensures endpoints.Keys == set i | 0 <= i < |offered| :: offered[i].Id()
      ensures forall i | 0 <= i < |offered| ::
                (forall j | i < j < |offered| :: offered[j].Id() != offered[i].Id())
                ==> endpoints[offered[i].Id()] == offered[i]
    {
      endpoints := map[];
      var k := 0;
      while k < |offered|
        invariant 0 <= k <= |offered| && Keyed(endpoints)
        invariant endpoints.Keys == set i | 0 <= i < k :: offered[i].Id()
        invariant forall i | 0 <= i < k ::
                    (forall j | i < j < k :: offered[j].Id() != offered[i].Id())
                    ==> endpoints[offered[i].Id()] == offered[i]
      {
        endpoints := endpoints[offered[k].Id() := offered[k]];
        k := k + 1;
      }
      BuildHashRing();
    }

    method MarkEndpointStatus(id: string, healthy: bool)
      requires Valid()
      modifies this
      ensures Valid()
      ensures endpoints == if id in old(endpoints)
                           then old(endpoints)[id := old(endpoints)[id].(healthy := healthy)]
                           else old(endpoints)
    {
      if id in endpoints {
        endpoints := endpoints[id := endpoints[id].(healthy := healthy)];
        BuildHashRing();
      }
    }

    /** `std::lower_bound`. */
    method LowerBound(h: nat) returns (k: nat)
      requires Valid()
      ensures IsLowerBound(ring, h, k)
    {
      var lo, hi := 0, |ring|;
      while lo < hi
        invariant 0 <= lo <= hi <= |ring|
        invariant forall j | 0 <= j < lo :: ring[j].hash < h
        invariant forall j | hi <= j < |ring| :: h <= ring[j].hash
      {
        var mid := (lo + hi) / 2;
        if ring[mid].hash < h {
          assert forall j | 0 <= j < mid :: HashLeq(ring[j], ring[mid]);
          lo := mid + 1;
        } else {
          assert forall j | mid < j < |ring| :: HashLeq(ring[mid], ring[j]);
          hi := mid;
        }
      }
      k := lo;
    }

    method FindEndpoint(h: nat) returns (r: Result<Endpoint>)
      requires Valid() && IsHash(hash) && h < RING_SIZE
      ensures r.Err? <==> Nodes(endpoints, replicas, hash) == {}
      ensures r.Ok? ==> Serves(endpoints, replicas, hash, h, r.value)
    {
      NodesInRange(endpoints, replicas, hash);
      if ring == [] { return Err("Hash ring is empty"); }
      assert ring[0] in Elements(ring);
      var k := LowerBound(h);
      LowerBoundIsOwner(ring, h, k);
      if k == |ring| { k := 0; }
      return Ok(ring[k].endpoint);
    }

    method SelectEndpointByKey(key: string, offered: seq<Endpoint>) returns (r: Result<Endpoint>)
      requires Valid() && IsHash(hash)
      ensures r.Err? <==> offered == [] || Nodes(endpoints, replicas, hash) == {}
      ensures r.Ok? ==> Serves(endpoints, replicas, hash, hash(key), r.value)
    {
      if offered == [] { return Err("No endpoints available"); }
      if ring == [] {
        assert Elements(ring) == {};
        return Err("Hash ring is empty");
      }
      assert ring[0] in Elements(ring);
      r := FindEndpoint(hash(key));
    }
  }
}
