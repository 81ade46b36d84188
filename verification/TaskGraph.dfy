/** The two layer-peeling cycle checks (autoresearch/contracts/session_plan.py and
    autoresearch/contracts/replay.py) and what they decide. */
module TaskGraph {
  import opened Wrappers

  /** A node with the ids it depends on. Frozen tasks and replay units both have this shape. */
  datatype Node = Node(id: string, deps: set<string>)

  datatype DagError = DuplicateId | MissingDependency | Cycle

  function Ids(nodes: seq<Node>): set<string> { set i | 0 <= i < |nodes| :: nodes[i].id }

  predicate UniqueIds(nodes: seq<Node>) {
    forall i, j | 0 <= i < j < |nodes| :: nodes[i].id != nodes[j].id
  }

  /** Every dependency is one of the nodes. */
  predicate Closed(nodes: seq<Node>) {
    forall i | 0 <= i < |nodes| :: nodes[i].deps <= Ids(nodes)
  }

  /** A numbering in which every node comes after the nodes it depends on. */
  ghost predicate Ranks(nodes: seq<Node>, rank: map<string, nat>) {
    forall i | 0 <= i < |nodes| ::
      && nodes[i].id in rank
      && forall d | d in nodes[i].deps && d in Ids(nodes) :: d in rank && rank[d] < rank[nodes[i].id]
  }

  ghost predicate Acyclic(nodes: seq<Node>) { exists rank :: Ranks(nodes, rank) }

  /** Some node with id `a` depends on `b`. */
  predicate DependsOn(nodes: seq<Node>, a: string, b: string) {
    exists i :: 0 <= i < |nodes| && nodes[i].id == a && b in nodes[i].deps
  }

  /** A walk along dependencies that ends where it started. */
  predicate IsCycle(nodes: seq<Node>, walk: seq<string>) {
    && |walk| >= 2 && walk[0] == walk[|walk| - 1]
    && (forall i | 0 <= i < |walk| :: walk[i] in Ids(nodes))
    && (forall i | 0 <= i < |walk| - 1 :: DependsOn(nodes, walk[i], walk[i + 1]))
  }

  // ---------- ranks exclude cycles ----------

  lemma {:induction false} RankDrops(nodes: seq<Node>, rank: map<string, nat>, walk: seq<string>, i: nat)
    requires Ranks(nodes, rank) && |walk| > 0 && i < |walk|
    requires forall k | 0 <= k < |walk| :: walk[k] in Ids(nodes)
    requires forall k | 0 <= k < |walk| - 1 :: DependsOn(nodes, walk[k], walk[k + 1])
    ensures walk[0] in rank && walk[i] in rank && (i > 0 ==> rank[walk[i]] < rank[walk[0]])
    decreases i
  {
    if i == 0 {
      var k :| 0 <= k < |nodes| && nodes[k].id == walk[0];
    } else {
      RankDrops(nodes, rank, walk, i - 1);
      assert DependsOn(nodes, walk[i - 1], walk[i - 1 + 1]);
    }
  }

  lemma RanksExcludeCycles(nodes: seq<Node>, walk: seq<string>)
    requires Acyclic(nodes)
    ensures !IsCycle(nodes, walk)
  {
    if IsCycle(nodes, walk) {
      var rank :| Ranks(nodes, rank);
      RankDrops(nodes, rank, walk, |walk| - 1);
    }
  }

  // ---------- a stuck remainder contains a cycle ----------

  predicate DependsInto(nodes: seq<Node>, a: string, rest: set<string>) {
    exists b :: b in rest && DependsOn(nodes, a, b)
  }

  /** Every node of the remainder depends on a node of the remainder. */
  predicate Stuck(nodes: seq<Node>, rest: set<string>) {
    && rest != {} && rest <= Ids(nodes)
    && forall a {:trigger DependsInto(nodes, a, rest)} | a in rest :: DependsInto(nodes, a, rest)
  }

  lemma {:induction false} StuckWalk(nodes: seq<Node>, rest: set<string>, length: nat) returns (walk: seq<string>)
    requires Stuck(nodes, rest)
    ensures |walk| == length + 1
    ensures forall i | 0 <= i < |walk| :: walk[i] in rest
    ensures forall i | 0 <= i < |walk| - 1 :: DependsOn(nodes, walk[i], walk[i + 1])
    decreases length
  {
    if length == 0 {
      var a :| a in rest;
      walk := [a];
    } else {
      var before := StuckWalk(nodes, rest, length - 1);
      assert DependsInto(nodes, before[length - 1], rest);
      var b :| b in rest && DependsOn(nodes, before[length - 1], b);
      walk := before + [b];
    }
  }

  /** A walk longer than the set it stays in repeats an element. */
  lemma {:induction false} Pigeonhole(walk: seq<string>, rest: set<string>) returns (i: nat, j: nat)
    requires forall k | 0 <= k < |walk| :: walk[k] in rest
    requires |walk| > |rest|
    ensures i < j < |walk| && walk[i] == walk[j]
    decreases |rest|
  {
    var last := walk[|walk| - 1];
    if k :| 0 <= k < |walk| - 1 && walk[k] == last {
      i, j := k, |walk| - 1;
    } else {
      i, j := Pigeonhole(walk[..|walk| - 1], rest - {last});
    }
  }

  lemma StuckHasCycle(nodes: seq<Node>, rest: set<string>) returns (cycle: seq<string>)
    requires Stuck(nodes, rest)
    ensures IsCycle(nodes, cycle)
    ensures forall i | 0 <= i < |cycle| :: cycle[i] in rest
  {
    var walk := StuckWalk(nodes, rest, |rest|);
    var i, j := Pigeonhole(walk, rest);
    cycle := walk[i..j + 1];
    forall k | 0 <= k < |cycle| - 1 ensures DependsOn(nodes, cycle[k], cycle[k + 1]) {
      assert DependsOn(nodes, walk[i + k], walk[i + k + 1]);
    }
  }

  // ---------- peeling ----------

  function Ready(pending: map<string, set<string>>): set<string> {
    set a | a in pending && pending[a] == {}
  }

  function Peel(pending: map<string, set<string>>, ready: set<string>): map<string, set<string>> {
    map a | a in pending && a !in ready :: pending[a] - ready
  }

  /** The peeled nodes with the next layer added. */
  function Layered(rank: map<string, nat>, ready: set<string>, layer: nat): map<string, nat> {
    map a | a in rank.Keys + ready :: if a in rank then rank[a] else layer
  }

  predicate OpenOk(nodes: seq<Node>, pending: map<string, set<string>>, done: set<string>, i: nat)
    requires i < |nodes|
  {
    nodes[i].id in pending ==> pending[nodes[i].id] == nodes[i].deps * Ids(nodes) - done
  }

  predicate DoneOk(nodes: seq<Node>, rank: map<string, nat>, i: nat)
    requires i < |nodes|
  {
    nodes[i].id in rank ==> forall d | d in nodes[i].deps && d in Ids(nodes) :: d in rank && rank[d] < rank[nodes[i].id]
  }

  /** `rank` orders what has been peeled, and `pending` is what is left with its open dependencies. */
  ghost predicate PeeledSoFar(nodes: seq<Node>, pending: map<string, set<string>>, rank: map<string, nat>, layer: nat) {
    && pending.Keys + rank.Keys == Ids(nodes) && pending.Keys !! rank.Keys
    && (forall a | a in rank :: rank[a] < layer)
    && (forall i | 0 <= i < |nodes| :: OpenOk(nodes, pending, rank.Keys, i))
    && (forall i | 0 <= i < |nodes| :: DoneOk(nodes, rank, i))
  }

  lemma EmptyDifference(a: set<string>, b: set<string>)
    requires a - b == {}
    ensures a <= b
  {
    forall x | x in a ensures x in b {
      assert x !in a - b;
    }
  }

  lemma PeelStep(nodes: seq<Node>, pending: map<string, set<string>>, rank: map<string, nat>, layer: nat)
    requires PeeledSoFar(nodes, pending, rank, layer)
    ensures var ready := Ready(pending);
            PeeledSoFar(nodes, Peel(pending, ready), Layered(rank, ready, layer),
                        layer + 1)
  {
    var ready := Ready(pending);
    var rank' := Layered(rank, ready, layer);
    var pending' := Peel(pending, ready);
    forall i | 0 <= i < |nodes| ensures OpenOk(nodes, pending', rank'.Keys, i) && DoneOk(nodes, rank', i) {
      assert OpenOk(nodes, pending, rank.Keys, i) && DoneOk(nodes, rank, i);
      if nodes[i].id in ready {
        EmptyDifference(nodes[i].deps * Ids(nodes), rank.Keys);
      }
    }
  }

  lemma AllPeeledIsRanked(nodes: seq<Node>, pending: map<string, set<string>>, rank: map<string, nat>, layer: nat)
    requires PeeledSoFar(nodes, pending, rank, layer) && pending.Keys == {}
    ensures Ranks(nodes, rank)
  {
    forall i | 0 <= i < |nodes|
      ensures nodes[i].id in rank
      ensures forall d | d in nodes[i].deps && d in Ids(nodes) :: d in rank && rank[d] < rank[nodes[i].id]
    {
      assert nodes[i].id in Ids(nodes) && DoneOk(nodes, rank, i);
    }
  }

  lemma NothingReadyIsStuck(nodes: seq<Node>, pending: map<string, set<string>>, rank: map<string, nat>, layer: nat)
    requires PeeledSoFar(nodes, pending, rank, layer) && pending.Keys != {} && Ready(pending) == {}
    ensures Stuck(nodes, pending.Keys)
  {
    forall a | a in pending.Keys ensures DependsInto(nodes, a, pending.Keys) {
      NotReady(pending, a);
      BlockedDependsInto(nodes, pending, rank, layer, a);
    }
  }

  lemma NotReady(pending: map<string, set<string>>, a: string)
    requires a in pending && Ready(pending) == {}
    ensures pending[a] != {}
  {
    assert a !in Ready(pending);
  }

  lemma BlockedDependsInto(nodes: seq<Node>, pending: map<string, set<string>>, rank: map<string, nat>, layer: nat,
                           a: string)
    requires PeeledSoFar(nodes, pending, rank, layer) && a in pending && pending[a] != {}
    ensures DependsInto(nodes, a, pending.Keys)
  {
    assert a in Ids(nodes);
    var i :| 0 <= i < |nodes| && nodes[i].id == a;
    assert OpenOk(nodes, pending, rank.Keys, i);
    OpenDependency(nodes, pending.Keys, rank.Keys, i);
  }

  lemma OpenDependency(nodes: seq<Node>, open: set<string>, done: set<string>, i: nat)
    requires i < |nodes| && open + done == Ids(nodes)
    requires nodes[i].deps * Ids(nodes) - done != {}
    ensures DependsInto(nodes, nodes[i].id, open)
  {
    var b :| b in nodes[i].deps * Ids(nodes) - done;
    assert DependsOn(nodes, nodes[i].id, b);
  }

  /** The loop of both checks: remove the nodes without open dependencies until none is left, or
      none can be removed. */
  method PeelAll(nodes: seq<Node>) returns (rest: set<string>)
    requires UniqueIds(nodes)
    ensures rest == {} <==> Acyclic(nodes)
    ensures rest != {} ==> Stuck(nodes, rest)
  {
    var pending := PendingOf(nodes);
    ghost var rank: map<string, nat> := map[];
    ghost var layer := 0;
    while pending.Keys != {}
      invariant PeeledSoFar(nodes, pending, rank, layer)
      decreases pending.Keys
    {
      var ready := Ready(pending);
      if ready == {} {
        NothingReadyIsStuck(nodes, pending, rank, layer);
        ghost var cycle := StuckHasCycle(nodes, pending.Keys);
        RanksExcludeCyclesAll(nodes);
        assert exists a :: a in pending.Keys;
        return pending.Keys;
      }
      PeelStep(nodes, pending, rank, layer);
      rank := Layered(rank, ready, layer);
      layer := layer + 1;
      var a :| a in ready;
      assert a in pending && a !in Peel(pending, ready);
      pending := Peel(pending, ready);
    }
    AllPeeledIsRanked(nodes, pending, rank, layer);
    return {};
  }

  method PendingOf(nodes: seq<Node>) returns (pending: map<string, set<string>>)
    requires UniqueIds(nodes)
    ensures PeeledSoFar(nodes, pending, map[], 0)
  {
    pending := map[];
    var known := Ids(nodes);
    var i := 0;
    while i < |nodes|
      invariant 0 <= i <= |nodes|
      invariant forall a :: a in pending <==> exists j :: 0 <= j < i && nodes[j].id == a
      invariant forall j | 0 <= j < i :: pending[nodes[j].id] == nodes[j].deps * known
    {
      pending := pending[nodes[i].id := nodes[i].deps * known];
      i := i + 1;
    }
    assert pending.Keys == Ids(nodes);
  }

  /** The first node that depends on an unknown id, and none before it depends on itself. */
  predicate MissesFirst(nodes: seq<Node>, i: nat) {
    && i < |nodes| && !(nodes[i].deps <= Ids(nodes))
    && forall j | 0 <= j < i :: nodes[j].deps <= Ids(nodes) && nodes[j].id !in nodes[j].deps
  }

  /** `session_plan._validate_dag`: accepts exactly the graphs with unique ids, no self-dependency
      and a rank, whose dependencies are all known unless unknown ones are allowed. */
  method ValidateDag(nodes: seq<Node>, allowExternal: bool) returns (error: Option<DagError>, rest: set<string>)
    ensures error.None? <==> UniqueIds(nodes) && (allowExternal || Closed(nodes)) && Acyclic(nodes)
    ensures error == Some(DuplicateId) <==> !UniqueIds(nodes)
    ensures error == Some(MissingDependency)
            <==> UniqueIds(nodes) && !allowExternal && exists i: nat :: MissesFirst(nodes, i)
    ensures error == Some(Cycle) && rest != {} ==> UniqueIds(nodes) && Stuck(nodes, rest)
    ensures error == Some(Cycle) ==> exists cycle :: IsCycle(nodes, cycle)
  {
    rest := {};
    var unique := AllUnique(nodes);
    if !unique {
      return Some(DuplicateId), {};
    }
    var known := Ids(nodes);
    var i := 0;
    while i < |nodes|
      invariant 0 <= i <= |nodes|
      invariant forall j | 0 <= j < i :: (allowExternal || nodes[j].deps <= known) && nodes[j].id !in nodes[j].deps
    {
      if nodes[i].deps - known != {} && !allowExternal {
        assert MissesFirst(nodes, i);
        return Some(MissingDependency), {};
      }
      if !allowExternal {
        assert nodes[i].deps <= known by {
          forall d | d in nodes[i].deps ensures d in known {
            assert d !in nodes[i].deps - known;
          }
        }
      }
      if nodes[i].id in nodes[i].deps {
        assert !allowExternal ==> forall k: nat :: !MissesFirst(nodes, k);
        assert DependsOn(nodes, nodes[i].id, nodes[i].id);
        assert IsCycle(nodes, [nodes[i].id, nodes[i].id]);
        RanksExcludeCyclesAll(nodes);
        return Some(Cycle), {};
      }
      i := i + 1;
    }
    rest := PeelAll(nodes);
    if rest != {} {
      var cycle := StuckHasCycle(nodes, rest);
      RanksExcludeCyclesAll(nodes);
      return Some(Cycle), rest;
    }
    return None, {};
  }

  lemma RanksExcludeCyclesAll(nodes: seq<Node>)
    ensures Acyclic(nodes) ==> forall walk :: !IsCycle(nodes, walk)
  {
    if Acyclic(nodes) {
      forall walk ensures !IsCycle(nodes, walk) {
        RanksExcludeCycles(nodes, walk);
      }
    }
  }

  method AllUnique(nodes: seq<Node>) returns (unique: bool)
    ensures unique <==> UniqueIds(nodes)
  {
    var seen: set<string> := {};
    var i := 0;
    while i < |nodes|
      invariant 0 <= i <= |nodes|
      invariant forall id :: id in seen <==> exists j :: 0 <= j < i && nodes[j].id == id
      invariant forall j, k | 0 <= j < k < i :: nodes[j].id != nodes[k].id
    {
      if nodes[i].id in seen {
        return false;
      }
      seen := seen + {nodes[i].id};
      i := i + 1;
    }
    return true;
  }

  /** `replay._validate_dag`: every dependency must be known, and self-dependencies are left to the
      peeling. */
  method ValidateReplayDag(units: seq<Node>) returns (error: Option<DagError>, rest: set<string>)
    ensures error.None? <==> UniqueIds(units) && Closed(units) && Acyclic(units)
    ensures error == Some(DuplicateId) <==> !UniqueIds(units)
    ensures error == Some(MissingDependency) <==> UniqueIds(units) && !Closed(units)
    ensures error == Some(Cycle) ==> Stuck(units, rest)
  {
    var unique := AllUnique(units);
    if !unique {
      return Some(DuplicateId), {};
    }
    var known := Ids(units);
    var i := 0;
    while i < |units|
      invariant 0 <= i <= |units|
      invariant forall j | 0 <= j < i :: units[j].deps <= known
    {
      if !(units[i].deps <= known) {
        return Some(MissingDependency), {};
      }
      i := i + 1;
    }
    rest := PeelAll(units);
    return if rest == {} then None else Some(Cycle), rest;
  }

  // ---------- ranks and cycles ----------

  lemma {:induction false} RankOrStuck(nodes: seq<Node>, pending: map<string, set<string>>, rank: map<string, nat>,
                                       layer: nat)
    requires PeeledSoFar(nodes, pending, rank, layer)
    ensures Acyclic(nodes) || exists rest :: Stuck(nodes, rest)
    decreases pending.Keys
  {
    var ready := Ready(pending);
    if pending.Keys == {} {
      AllPeeledIsRanked(nodes, pending, rank, layer);
    } else if ready == {} {
      NothingReadyIsStuck(nodes, pending, rank, layer);
    } else {
      PeelStep(nodes, pending, rank, layer);
      var a :| a in ready;
      assert a in pending && a !in Peel(pending, ready);
      RankOrStuck(nodes, Peel(pending, ready), Layered(rank, ready, layer),
                  layer + 1);
    }
  }

  /** A rank exists exactly when no walk along dependencies returns to its start. */
  lemma AcyclicExactlyWithoutCycles(nodes: seq<Node>)
    requires UniqueIds(nodes)
    ensures Acyclic(nodes) <==> !exists walk :: IsCycle(nodes, walk)
  {
    RanksExcludeCyclesAll(nodes);
    var pending := map i | 0 <= i < |nodes| :: nodes[i].id := nodes[i].deps * Ids(nodes);
    RankOrStuck(nodes, pending, map[], 0);
    if rest :| Stuck(nodes, rest) {
      var cycle := StuckHasCycle(nodes, rest);
    }
  }
}
