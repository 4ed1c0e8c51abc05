/**
 `generate_scm_layers`: round-based topological layering of a causal DAG.
 Round 0 holds the nodes without predecessors; each later round takes every
 unvisited node whose predecessors have all been visited. On a DAG every round
 takes at least one node, so the loop ends, and each node's layer is the length
 of the longest path reaching it.
 */
module ScmLayers {
  import opened Wrappers
  import opened Graphs

  /** The node layers and the predecessor lists the effect model reads. */
  datatype Layering = Layering(layers: map<string, nat>, predecessors: map<string, seq<string>>)

  /** Some predecessor of `v` sits exactly one layer below `k`. */
  ghost predicate HasPredecessorBelow(g: Graph, layers: map<string, nat>, v: string, k: int) {
    exists u | u in Predecessors(g.edges, v) :: u in layers && layers[u] + 1 == k
  }

  /** Layer 0 exactly for the nodes without predecessors; every other node one above its
      highest predecessor. */
  ghost predicate LongestPathLayers(g: Graph, layers: map<string, nat>) {
    && (forall v :: v in layers <==> v in g.nodes)
    && (forall v | v in layers :: layers[v] == 0 <==> Predecessors(g.edges, v) == [])
    && (forall u, v | Edge(u, v) in g.edges :: u in layers && v in layers && layers[u] < layers[v])
    && (forall v | v in layers && layers[v] > 0 :: HasPredecessorBelow(g, layers, v, layers[v]))
  }

  /** On a DAG a non-empty set of nodes has a member none of whose predecessors is in the set. */
  lemma AcyclicHasSource(es: seq<Edge>, r: set<string>)
    requires r != {} && !HasCycle(es)
    ensures Sources(es, r) != {}
  {
    if Sources(es, r) == {} {
      NoSourceGivesCycle(es, r);
    }
  }

  /** What holds between rounds: the visited nodes carry their final layers, all below
      `current`, and every unvisited node still waits on a predecessor that is unvisited or
      sits in the latest round. */
  ghost predicate RoundInvariant(g: Graph, visited: set<string>, layers: map<string, nat>, current: nat) {
    && visited <= NodeSet(g)
    && layers.Keys == NodeSet(g)
    && current >= 1
    && (forall v | v in visited :: layers[v] < current)
    && (forall v | v in visited :: layers[v] == 0 <==> Predecessors(g.edges, v) == [])
    && (forall u, v | Edge(u, v) in g.edges && v in visited :: u in visited && layers[u] < layers[v])
    && (forall v | v in visited && layers[v] > 0 :: HasPredecessorBelow(g, layers, v, layers[v]))
    && (forall v | v in NodeSet(g) - visited ::
          exists u | u in Predecessors(g.edges, v) :: u !in visited || layers[u] + 1 == current)
  }

  /** The nodes of one round: unvisited, with every predecessor visited. */
  ghost predicate IsRound(g: Graph, visited: set<string>, next: set<string>) {
    forall v :: v in next <==> v in NodeSet(g) - visited && forall u | u in Predecessors(g.edges, v) :: u in visited
  }

  /** The next round, read off the predecessor lists. */
  function RoundOf(g: Graph, preds: map<string, seq<string>>, visited: set<string>): (next: set<string>)
    requires forall v | v in NodeSet(g) :: v in preds && preds[v] == Predecessors(g.edges, v)
    ensures IsRound(g, visited, next)
  {
    set v | v in NodeSet(g) - visited && forall u | u in preds[v] :: u in visited
  }

  /** The layers after a round: the round's nodes get layer `current`. */
  function AssignRound(layers: map<string, nat>, next: set<string>, current: nat): (r: map<string, nat>)
    ensures r.Keys == layers.Keys
    ensures forall v | v in r :: r[v] == if v in next then current else layers[v]
  {
    map v | v in layers :: if v in next then current else layers[v]
  }

  lemma {:induction false} SubsetNoLarger<T>(a: set<T>, b: set<T>)
    requires a <= b
    ensures |a| <= |b|
  {
    if a != {} {
      var x :| x in a;
      SubsetNoLarger(a - {x}, b - {x});
    }
  }

  lemma ProperSubsetSmaller<T>(a: set<T>, b: set<T>)
    requires a <= b && a != b
    ensures |a| < |b|
  {
    var x :| x in b && x !in a;
    SubsetNoLarger(a, b - {x});
  }

  /** On a DAG a round is never empty while nodes remain. */
  lemma RoundProgress(g: Graph, visited: set<string>, next: set<string>)
    requires WellFormed(g) && !HasCycle(g.edges)
    requires visited <= NodeSet(g) && visited != NodeSet(g)
    requires IsRound(g, visited, next)
    ensures next != {}
  {
    var unprocessed := NodeSet(g) - visited;
    var x :| x in NodeSet(g) && x !in visited;
    assert x in unprocessed;
    AcyclicHasSource(g.edges, unprocessed);
    var v :| v in Sources(g.edges, unprocessed);
    forall u | u in Predecessors(g.edges, v) ensures u in visited {
      assert Edge(u, v) in g.edges;
    }
  }

  /** A predecessor one layer below survives a round that does not touch it. */
  lemma KeptPredecessorBelow(g: Graph, layers: map<string, nat>, layers': map<string, nat>, v: string, k: int,
                             visited: set<string>)
    requires HasPredecessorBelow(g, layers, v, k)
    requires forall u | u in Predecessors(g.edges, v) :: u in visited
    requires forall u | u in visited && u in layers :: u in layers' && layers'[u] == layers[u]
    ensures HasPredecessorBelow(g, layers', v, k)
  {
    var u :| u in Predecessors(g.edges, v) && u in layers && layers[u] + 1 == k;
    assert u in layers' && layers'[u] + 1 == k;
  }

  /** A round keeps the layer facts of the visited nodes and gives each new node a layer
      one above a predecessor. */
  lemma RoundKeepsLayers(g: Graph, visited: set<string>, layers: map<string, nat>, current: nat, next: set<string>)
    requires WellFormed(g)
    requires RoundInvariant(g, visited, layers, current)
    requires IsRound(g, visited, next)
    ensures var layers' := AssignRound(layers, next, current);
      forall v | v in visited + next && layers'[v] > 0 :: HasPredecessorBelow(g, layers', v, layers'[v])
  {
    var layers' := AssignRound(layers, next, current);
    assert forall u | u in visited && u in layers :: u in layers' && layers'[u] == layers[u];
    forall v | v in visited + next && layers'[v] > 0 ensures HasPredecessorBelow(g, layers', v, layers'[v]) {
      if v in next {
        var u :| u in Predecessors(g.edges, v) && (u !in visited || layers[u] + 1 == current);
        assert u in visited;
        assert HasPredecessorBelow(g, layers, v, current);
        KeptPredecessorBelow(g, layers, layers', v, current, visited);
      } else {
        forall u | u in Predecessors(g.edges, v) ensures u in visited {
          assert Edge(u, v) in g.edges;
        }
        KeptPredecessorBelow(g, layers, layers', v, layers[v], visited);
      }
    }
  }

  /** The unvisited nodes after a round still wait on the latest round or beyond. */
  lemma RoundKeepsWaiting(g: Graph, visited: set<string>, layers: map<string, nat>, current: nat, next: set<string>)
    requires WellFormed(g)
    requires RoundInvariant(g, visited, layers, current)
    requires IsRound(g, visited, next)
    ensures var layers' := AssignRound(layers, next, current);
      forall v | v in NodeSet(g) - (visited + next) ::
        exists u | u in Predecessors(g.edges, v) :: u !in visited + next || layers'[u] + 1 == current + 1
  {
    var layers' := AssignRound(layers, next, current);
    forall v | v in NodeSet(g) - (visited + next)
      ensures exists u | u in Predecessors(g.edges, v) :: u !in visited + next || layers'[u] + 1 == current + 1
    {
      var u :| u in Predecessors(g.edges, v) && u !in visited;
      assert Edge(u, v) in g.edges;
    }
  }

  /** After a round the visited nodes still sit below the next round, only the roots at layer 0,
      and every edge into them climbs. */
  lemma RoundKeepsOrder(g: Graph, visited: set<string>, layers: map<string, nat>, current: nat, next: set<string>)
    requires WellFormed(g)
    requires RoundInvariant(g, visited, layers, current)
    requires IsRound(g, visited, next)
    ensures var layers' := AssignRound(layers, next, current);
      && (forall v | v in visited + next :: layers'[v] < current + 1)
      && (forall v | v in visited + next :: layers'[v] == 0 <==> Predecessors(g.edges, v) == [])
      && (forall u, v | Edge(u, v) in g.edges && v in visited + next :: u in visited + next && layers'[u] < layers'[v])
  {
    forall v | v in next ensures Predecessors(g.edges, v) != [] {
      var u :| u in Predecessors(g.edges, v) && (u !in visited || layers[u] + 1 == current);
    }
  }

  /** One round preserves the invariant. */
  lemma RoundStep(g: Graph, visited: set<string>, layers: map<string, nat>, current: nat, next: set<string>)
    requires WellFormed(g)
    requires RoundInvariant(g, visited, layers, current)
    requires IsRound(g, visited, next)
    ensures RoundInvariant(g, visited + next, AssignRound(layers, next, current), current + 1)
  {
    RoundKeepsOrder(g, visited, layers, current, next);
    RoundKeepsLayers(g, visited, layers, current, next);
    RoundKeepsWaiting(g, visited, layers, current, next);
  }

  /** One round of the loop: it takes some node and keeps the invariant. */
  lemma RoundAdvances(g: Graph, preds: map<string, seq<string>>, visited: set<string>, layers: map<string, nat>,
                      current: nat)
    requires WellFormed(g) && !HasCycle(g.edges)
    requires forall v | v in NodeSet(g) :: v in preds && preds[v] == Predecessors(g.edges, v)
    requires RoundInvariant(g, visited, layers, current) && |visited| < |NodeSet(g)|
    ensures var next := RoundOf(g, preds, visited);
      && RoundInvariant(g, visited + next, AssignRound(layers, next, current), current + 1)
      && |visited| < |visited + next|
  {
    var next := RoundOf(g, preds, visited);
    RoundProgress(g, visited, next);
    RoundStep(g, visited, layers, current, next);
    ProperSubsetSmaller(visited, visited + next);
  }

  /** The start: the nodes without predecessors, all at layer 0. */
  lemma RoundStart(g: Graph, visited: set<string>, layers: map<string, nat>)
    requires WellFormed(g)
    requires layers == map v | v in NodeSet(g) :: 0
    requires visited == set v | v in NodeSet(g) && |Predecessors(g.edges, v)| == 0
    ensures RoundInvariant(g, visited, layers, 1)
  {
    forall v | v in NodeSet(g) - visited
      ensures exists u | u in Predecessors(g.edges, v) :: u !in visited || layers[u] + 1 == 1
    {
      var u := Predecessors(g.edges, v)[0];
      assert u in Predecessors(g.edges, v) && Edge(u, v) in g.edges;
    }
  }

  /** Once every node is visited, the invariant is the longest-path layering. */
  lemma RoundFinish(g: Graph, visited: set<string>, layers: map<string, nat>, current: nat)
    requires WellFormed(g)
    requires RoundInvariant(g, visited, layers, current) && |visited| >= |NodeSet(g)|
    ensures LongestPathLayers(g, layers)
  {
    if visited != NodeSet(g) {
      ProperSubsetSmaller(visited, NodeSet(g));
    }
    forall u, v | Edge(u, v) in g.edges ensures u in layers && v in layers && layers[u] < layers[v] {
      assert v in NodeSet(g);
    }
  }

  /** The round loop of `generate_scm_layers` on a DAG. */
  method AssignLayers(g: Graph, preds: map<string, seq<string>>) returns (layers: map<string, nat>)
    requires WellFormed(g) && !HasCycle(g.edges)
    requires forall v | v in NodeSet(g) :: v in preds && preds[v] == Predecessors(g.edges, v)
    ensures layers.Keys == NodeSet(g)
    ensures LongestPathLayers(g, layers)
  {
    var nodes := NodeSet(g);
    layers := map v | v in nodes :: 0;
    var visited := set v | v in nodes && |preds[v]| == 0;
    var current: nat := 1;
    RoundStart(g, visited, layers);
    while |visited| < |nodes|
      invariant RoundInvariant(g, visited, layers, current)
      decreases |nodes| - |visited|
    {
      var next := RoundOf(g, preds, visited);
      RoundAdvances(g, preds, visited, layers, current);
      layers := AssignRound(layers, next, current);
      visited := visited + next;
      current := current + 1;
    }
    RoundFinish(g, visited, layers, current);
  }

  /** `generate_scm_layers`: the longest-path layer of every node and the predecessor lists;
      a cyclic graph is rejected, and a graph without nodes fails at the final `max()`. */
  method GenerateLayers(g: Graph) returns (r: Result<Layering, Error>)
    requires WellFormed(g)
    ensures r.Err? <==> HasCycle(g.edges) || |g.nodes| == 0
    ensures r.Err? && HasCycle(g.edges) ==> r.error == NotAcyclic
    ensures r.Err? && !HasCycle(g.edges) ==> r.error == EmptyGraph
    ensures r.Ok? ==> LongestPathLayers(g, r.value.layers)
    ensures r.Ok? ==> forall v :: v in r.value.predecessors <==> v in g.nodes
    ensures r.Ok? ==> forall v | v in r.value.predecessors :: r.value.predecessors[v] == Predecessors(g.edges, v)
  {
    AcyclicIffNoCycle(g);
    if !IsAcyclic(g) {
      return Err(NotAcyclic);
    }
    if |g.nodes| == 0 {
      // max() over the layers of a graph without nodes, before the first round
      return Err(EmptyGraph);
    }
    var preds := map v | v in NodeSet(g) :: Predecessors(g.edges, v);
    var layers := AssignLayers(g, preds);
    return Ok(Layering(layers, preds));
  }
}
