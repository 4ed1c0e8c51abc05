/**
 The discovery pipeline as a whole: the role check, the composition of prior
 knowledge, scoring, adjustment and validation, the reversed mediator view and
 the colour tag each node gets when drawn. The PC learner is external: its graph
 and the per-edge correlations are inputs.
 */
module Discovery {
  import opened Wrappers
  import opened Graphs
  import opened Roles
  import opened Orientation
  import opened Adjust

  /** The learner's edges after scoring and adjustment, before validation. */
  function AdjustedEdges(learned: Graph, corr: Edge -> Correlations, independent: seq<string>, outcome: seq<string>)
    : seq<Edge>
  {
    AdjustEdges(learned.edges, ScoreEdges(learned.edges, corr), independent, outcome)
  }

  /** `generate_causal_graph`: prior knowledge is built first (a KeyError escapes from there);
      `learned` is what the PC learner returned for it. Without adjustment the learner's graph
      is returned as it is. */
  function GenerateCausalGraph(columns: seq<string>, independent: seq<string>, outcome: seq<string>,
                               learned: Graph, corr: Edge -> Correlations, adjustDirection: bool)
    : (r: Result<Graph, Error>)
    requires WellFormed(learned)
    ensures CreatePrioriKnowledge(columns, independent, outcome).Err? ==> r.Err? && r.error.UnknownColumn?
    ensures !adjustDirection && CreatePrioriKnowledge(columns, independent, outcome).Ok? ==> r == Ok(learned)
    ensures adjustDirection && r.Ok? ==> WellFormed(r.value) && IsAcyclic(r.value) && r.value.nodes == learned.nodes
    ensures adjustDirection && r.Err? ==> r.error.UnknownColumn? || r.error == AdjustedGraphCyclic
    ensures adjustDirection && CreatePrioriKnowledge(columns, independent, outcome).Ok? ==>
      (r.Ok? <==> !HasCycle(AdjustedEdges(learned, corr, independent, outcome)))
    ensures adjustDirection && r.Ok? ==>
      forall e :: e in r.value.edges <==> e in AdjustedEdges(learned, corr, independent, outcome)
  {
    var _ :- CreatePrioriKnowledge(columns, independent, outcome);
    if !adjustDirection then Ok(learned)
    else
      var confidence := ScoreEdges(learned.edges, corr);
      var adjusted := AdjustEdges(learned.edges, confidence, independent, outcome);
      AdjustedEndpoints(learned, corr, independent, outcome);
      CreateAdjustedGraph(learned, adjusted)
  }

  /** `get_mediator_graph`: every edge turned round, then the independent variables removed
      (names that are not nodes are ignored). */
  function MediatorGraph(g: Graph, independent: seq<string>): (r: Graph)
    requires WellFormed(g)
    ensures WellFormed(r)
    ensures forall v :: v in r.nodes <==> v in g.nodes && v !in independent
    ensures forall u, v :: Edge(u, v) in r.edges <==> Edge(v, u) in g.edges && u !in independent && v !in independent
    ensures IsAcyclic(g) ==> IsAcyclic(r)
  {
    var rev := Reverse(g);
    var r := RemoveNodes(rev, independent);
    forall u, v ensures Edge(u, v) in r.edges <==> Edge(v, u) in g.edges && u !in independent && v !in independent {
      assert Edge(u, v).Reversed() == Edge(v, u);
    }
    ReversedSubgraphAcyclic(g, r);
    r
  }

  lemma ReversedSubgraphAcyclic(g: Graph, r: Graph)
    requires WellFormed(g) && WellFormed(r)
    requires forall e | e in r.edges :: e.Reversed() in g.edges
    ensures IsAcyclic(g) ==> IsAcyclic(r)
  {
    AcyclicIffNoCycle(g);
    AcyclicIffNoCycle(r);
    if HasCycle(r.edges) {
      var w :| IsCycle(w, r.edges);
      ReversedCycle(w, g.edges, r.edges);
    }
  }

  /** `run_causal_discovery` after the data is loaded: the role check comes before any
      learning, then the adjusted graph and its mediator view. */
  function RunCausalDiscovery(columns: seq<string>, independent: seq<string>, outcome: seq<string>,
                              learned: Graph, corr: Edge -> Correlations)
    : (r: Result<(Graph, Graph), Error>)
    requires WellFormed(learned)
    ensures r == Err(RolesNotInColumns) <==> exists v | v in independent || v in outcome :: v !in columns
    ensures r.Err? ==> r.error == RolesNotInColumns || r.error == AdjustedGraphCyclic
    ensures r.Ok? ==> WellFormed(r.value.0) && IsAcyclic(r.value.0) && r.value.0.nodes == learned.nodes
    ensures r.Ok? ==> WellFormed(r.value.1) && IsAcyclic(r.value.1)
    ensures r.Ok? ==> forall v :: v in r.value.1.nodes <==> v in learned.nodes && v !in independent
    ensures CheckRoles(columns, independent, outcome).Ok? ==>
      (r.Ok? <==> !HasCycle(AdjustedEdges(learned, corr, independent, outcome)))
    ensures r.Ok? ==> forall e :: e in r.value.0.edges <==> e in AdjustedEdges(learned, corr, independent, outcome)
    ensures r.Ok? ==> forall u, v ::
      Edge(u, v) in r.value.1.edges <==> Edge(v, u) in r.value.0.edges && u !in independent && v !in independent
    ensures r.Ok? ==> r.value.1 == MediatorGraph(r.value.0, independent)
  {
    var _ :- CheckRoles(columns, independent, outcome);
    CheckedRolesConvert(columns, independent, outcome);
    var causal :- GenerateCausalGraph(columns, independent, outcome, learned, corr, true);
    Ok((causal, MediatorGraph(causal, independent)))
  }

  /** What the external learner is trusted to deliver: a graph over the columns that avoids
      every forbidden edge. */
  predicate LearnerRespects(columns: seq<string>, independent: seq<string>, outcome: seq<string>, learned: Graph) {
    && WellFormed(learned)
    && (forall v | v in learned.nodes :: v in columns)
    && (forall e | e in learned.edges :: !Forbidden(columns, independent, outcome, e))
  }

  /** The graph a completed run returns is the validated adjusted graph. */
  lemma RunResult(columns: seq<string>, independent: seq<string>, outcome: seq<string>,
                  learned: Graph, corr: Edge -> Correlations)
    requires WellFormed(learned)
    requires RunCausalDiscovery(columns, independent, outcome, learned, corr).Ok?
    ensures var adjusted := AdjustEdges(learned.edges, ScoreEdges(learned.edges, corr), independent, outcome);
      && CreateAdjustedGraph(learned, adjusted).Ok?
      && RunCausalDiscovery(columns, independent, outcome, learned, corr).value.0
         == CreateAdjustedGraph(learned, adjusted).value
  {
    CheckedRolesConvert(columns, independent, outcome);
  }

  /** A DAG over the columns that avoids the forbidden edges gives no independent variable
      an incoming edge and no outcome variable an outgoing one. */
  lemma AvoidingForbiddenRespectsRoles(columns: seq<string>, independent: seq<string>, outcome: seq<string>,
                                       g: Graph)
    requires !HasCycle(g.edges)
    requires forall e | e in g.edges :: e.src in columns && e.dst in columns
    requires forall e | e in g.edges :: !Forbidden(columns, independent, outcome, e)
    ensures forall v | v in independent :: Predecessors(g.edges, v) == []
    ensures forall v | v in outcome :: Successors(g.edges, v) == []
  {
    forall e | e in g.edges ensures e.src != e.dst {
      if e.src == e.dst {
        assert IsCycle([e.src, e.dst], g.edges);
      }
    }
    forall v | v in independent ensures Predecessors(g.edges, v) == [] {
      if Predecessors(g.edges, v) != [] {
        var u := Predecessors(g.edges, v)[0];
        assert Edge(u, v) in g.edges;
        assert Forbidden(columns, independent, outcome, Edge(u, v));
      }
    }
    forall v | v in outcome ensures Successors(g.edges, v) == [] {
      if Successors(g.edges, v) != [] {
        var u := Successors(g.edges, v)[0];
        assert Edge(v, u) in g.edges;
        assert Forbidden(columns, independent, outcome, Edge(v, u));
      }
    }
  }

  /** A completed run delivers a DAG that avoids every forbidden edge, in which no independent
      variable has an incoming edge and no outcome variable an outgoing one. */
  lemma RunRespectsRoles(columns: seq<string>, independent: seq<string>, outcome: seq<string>,
                         learned: Graph, corr: Edge -> Correlations)
    requires LearnerRespects(columns, independent, outcome, learned)
    requires RunCausalDiscovery(columns, independent, outcome, learned, corr).Ok?
    ensures var causal := RunCausalDiscovery(columns, independent, outcome, learned, corr).value.0;
      && !HasCycle(causal.edges)
      && (forall e | e in causal.edges :: !Forbidden(columns, independent, outcome, e))
      && (forall v | v in independent :: Predecessors(causal.edges, v) == [])
      && (forall v | v in outcome :: Successors(causal.edges, v) == [])
  {
    var causal := RunCausalDiscovery(columns, independent, outcome, learned, corr).value.0;
    var adjusted := AdjustEdges(learned.edges, ScoreEdges(learned.edges, corr), independent, outcome);
    RunResult(columns, independent, outcome, learned, corr);
    assert forall e :: e in causal.edges <==> e in adjusted;
    AdjustedAvoidsForbidden(columns, learned.edges, corr, independent, outcome);
    AdjustedEndpoints(learned, corr, independent, outcome);
    AcyclicIffNoCycle(causal);
    AvoidingForbiddenRespectsRoles(columns, independent, outcome, causal);
  }

  /** An undirected learner edge (stored both ways) whose two correlations tie in magnitude is
      kept in both directions, so the run fails with a cycle. */
  lemma UndirectedTieFails(columns: seq<string>, independent: seq<string>, outcome: seq<string>,
                           learned: Graph, corr: Edge -> Correlations, e: Edge)
    requires WellFormed(learned)
    requires CheckRoles(columns, independent, outcome).Ok?
    requires e in learned.edges && e.Reversed() in learned.edges && e.src != e.dst
    requires corr(e.Reversed()) == corr(e).Swapped()
    requires Abs(corr(e).source) == Abs(corr(e).target)
    ensures RunCausalDiscovery(columns, independent, outcome, learned, corr) == Err(AdjustedGraphCyclic)
  {
    CheckedRolesConvert(columns, independent, outcome);
    TieKeepsBothDirections(learned.edges, corr, independent, outcome, e);
    var adjusted := AdjustEdges(learned.edges, ScoreEdges(learned.edges, corr), independent, outcome);
    assert CreateAdjustedGraph(learned, adjusted) == Err(AdjustedGraphCyclic);
  }

  /** The colour a node is drawn in: green without incoming edges, otherwise red without
      outgoing edges, otherwise yellow. */
  datatype Colour = Green | Red | Yellow

  function NodeColour(g: Graph, v: string): (c: Colour)
    ensures c == Green <==> forall u :: Edge(u, v) !in g.edges
    ensures c == Red <==> (exists u :: Edge(u, v) in g.edges) && forall u :: Edge(v, u) !in g.edges
    ensures c == Yellow <==> (exists u :: Edge(u, v) in g.edges) && (exists u :: Edge(v, u) in g.edges)
  {
    var preds := Predecessors(g.edges, v);
    var succs := Successors(g.edges, v);
    if |preds| == 0 then Green
    else
      assert preds[0] in preds;
      if |succs| == 0 then Red
      else
        assert succs[0] in succs;
        Yellow
  }

  /** The colour list handed to the drawing call, one entry per node in node order. */
  function ColourMap(g: Graph): (r: seq<Colour>)
    ensures |r| == |g.nodes|
    ensures forall i | 0 <= i < |g.nodes| :: r[i] == NodeColour(g, g.nodes[i])
  {
    seq(|g.nodes|, i requires 0 <= i < |g.nodes| => NodeColour(g, g.nodes[i]))
  }

  /** In a completed run the independent variables are drawn green; an outcome variable is
      drawn red when it has a cause and green when it is isolated. */
  lemma RunColours(columns: seq<string>, independent: seq<string>, outcome: seq<string>,
                   learned: Graph, corr: Edge -> Correlations)
    requires LearnerRespects(columns, independent, outcome, learned)
    requires RunCausalDiscovery(columns, independent, outcome, learned, corr).Ok?
    ensures var causal := RunCausalDiscovery(columns, independent, outcome, learned, corr).value.0;
      && (forall v | v in independent :: NodeColour(causal, v) == Green)
      && (forall v | v in outcome :: NodeColour(causal, v) != Yellow)
  {
    RunRespectsRoles(columns, independent, outcome, learned, corr);
    var causal := RunCausalDiscovery(columns, independent, outcome, learned, corr).value.0;
    forall v | v in independent ensures NodeColour(causal, v) == Green {
      assert forall u :: Edge(u, v) in causal.edges ==> u in Predecessors(causal.edges, v);
    }
    forall v | v in outcome ensures NodeColour(causal, v) != Yellow {
      assert forall u :: Edge(v, u) in causal.edges ==> u in Successors(causal.edges, v);
    }
  }
}
