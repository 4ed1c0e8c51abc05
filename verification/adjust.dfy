/**
 The edge adjuster and the graph validator: each preferred edge from the
 confidence map is kept, or turned back when the scorer flipped it into a role
 violation; the adjusted edges are then rebuilt into a graph over the learner's
 nodes, which is rejected when it has a directed cycle.
 */
module Adjust {
  import opened Wrappers
  import opened Graphs
  import opened Orientation
  import opened Roles

  /** Points into an independent variable or out of an outcome variable. */
  predicate BreaksRole(e: Edge, independent: seq<string>, outcome: seq<string>) {
    e.dst in independent || e.src in outcome
  }

  /** The per-edge rule: only a suggestion that is not a learner edge can be reverted,
      and it is reverted exactly when it breaks a role. */
  function AdjustEdge(original: seq<Edge>, suggested: Edge, independent: seq<string>, outcome: seq<string>): (r: Edge)
    ensures r == suggested || r == suggested.Reversed()
    ensures suggested in original ==> r == suggested
    ensures suggested !in original && BreaksRole(suggested, independent, outcome) ==> r == suggested.Reversed()
    ensures suggested !in original && !BreaksRole(suggested, independent, outcome) ==> r == suggested
  {
    if suggested !in original && BreaksRole(suggested, independent, outcome) then suggested.Reversed()
    else suggested
  }

  /** `adjust_edges`: one adjusted edge per map entry, in map order; the confidences are not read. */
  function AdjustEdges(original: seq<Edge>, m: ConfidenceMap, independent: seq<string>, outcome: seq<string>)
    : (r: seq<Edge>)
    ensures |r| == |m|
    ensures forall i | 0 <= i < |m| :: r[i] == m[i].0 || r[i] == m[i].0.Reversed()
    ensures forall i | 0 <= i < |m| && m[i].0 in original :: r[i] == m[i].0
    ensures forall i | 0 <= i < |m| && m[i].0 !in original && m[i].0.src != m[i].0.dst ::
      r[i] != m[i].0 <==> BreaksRole(m[i].0, independent, outcome)
  {
    seq(|m|, i requires 0 <= i < |m| => AdjustEdge(original, m[i].0, independent, outcome))
  }

  /** The confidence values play no part: maps with the same keys adjust alike. */
  lemma AdjustIgnoresConfidence(original: seq<Edge>, m: ConfidenceMap, m': ConfidenceMap,
                                independent: seq<string>, outcome: seq<string>)
    requires KeysOf(m) == KeysOf(m')
    ensures AdjustEdges(original, m, independent, outcome) == AdjustEdges(original, m', independent, outcome)
  {
    KeysOfIndex(m);
    KeysOfIndex(m');
  }

  /** Re-adjusting an output against itself changes nothing. */
  lemma AdjustFixesOwnOutput(original: seq<Edge>, m: ConfidenceMap, m': ConfidenceMap,
                             independent: seq<string>, outcome: seq<string>)
    requires KeysOf(m') == AdjustEdges(original, m, independent, outcome)
    ensures AdjustEdges(AdjustEdges(original, m, independent, outcome), m', independent, outcome)
      == AdjustEdges(original, m, independent, outcome)
  {
    var r := AdjustEdges(original, m, independent, outcome);
    KeysOfIndex(m');
    forall i | 0 <= i < |m'| ensures m'[i].0 in r {
      assert m'[i].0 == r[i];
    }
  }

  /** On the scorer's map, every adjusted edge is a learner edge or a flip that breaks no role. */
  lemma ScoredAdjustmentIsSafe(es: seq<Edge>, corr: Edge -> Correlations,
                               independent: seq<string>, outcome: seq<string>)
    ensures forall e | e in AdjustEdges(es, ScoreEdges(es, corr), independent, outcome) ::
      e in es || (e.Reversed() in es && !BreaksRole(e, independent, outcome))
  {
    var m := ScoreEdges(es, corr);
    var r := AdjustEdges(es, m, independent, outcome);
    ScoreKeysAreEdges(es, corr);
    KeysOfIndex(m);
    forall e | e in r ensures e in es || (e.Reversed() in es && !BreaksRole(e, independent, outcome)) {
      var i :| 0 <= i < |r| && r[i] == e;
      var k := m[i].0;
      assert k in KeysOf(m) by {
        assert KeysOf(m)[i] == k;
      }
      if k !in es {
        assert k.Reversed() in es;
        assert k.Reversed().Reversed() == k;
      }
    }
  }

  /** The adjusted edges stay between the learner's nodes. */
  lemma AdjustedEndpoints(g: Graph, corr: Edge -> Correlations, independent: seq<string>, outcome: seq<string>)
    requires WellFormed(g)
    ensures EndpointsIn(AdjustEdges(g.edges, ScoreEdges(g.edges, corr), independent, outcome), g.nodes)
  {
    ScoredAdjustmentIsSafe(g.edges, corr, independent, outcome);
  }

  /** If the learner's edges avoid the forbidden set, so do the adjusted ones. */
  lemma AdjustedAvoidsForbidden(columns: seq<string>, es: seq<Edge>, corr: Edge -> Correlations,
                                independent: seq<string>, outcome: seq<string>)
    requires forall e | e in es :: !Forbidden(columns, independent, outcome, e)
    ensures forall e | e in AdjustEdges(es, ScoreEdges(es, corr), independent, outcome) ::
      !Forbidden(columns, independent, outcome, e)
  {
    ScoredAdjustmentIsSafe(es, corr, independent, outcome);
  }

  /** A key that is a learner edge appears unchanged among the adjusted edges. */
  lemma KeptKeyIsAdjusted(es: seq<Edge>, m: ConfidenceMap, independent: seq<string>, outcome: seq<string>, k: Edge)
    requires k in KeysOf(m) && k in es
    ensures k in AdjustEdges(es, m, independent, outcome)
  {
    KeysOfIndex(m);
    var a :| 0 <= a < |m| && KeysOf(m)[a] == k;
    assert AdjustEdges(es, m, independent, outcome)[a] == k;
  }

  /** Both stored directions of an undirected learner edge whose correlations tie survive
      adjustment (each is the other's preferred edge and a learner edge), closing a 2-cycle. */
  lemma TieKeepsBothDirections(es: seq<Edge>, corr: Edge -> Correlations,
                               independent: seq<string>, outcome: seq<string>, e: Edge)
    requires e in es && e.Reversed() in es && e.src != e.dst
    requires corr(e.Reversed()) == corr(e).Swapped()
    requires Abs(corr(e).source) == Abs(corr(e).target)
    ensures HasCycle(AdjustEdges(es, ScoreEdges(es, corr), independent, outcome))
  {
    var m := ScoreEdges(es, corr);
    ScoreKeys(es, corr);
    var adjusted := AdjustEdges(es, m, independent, outcome);
    var i :| 0 <= i < |es| && es[i] == e;
    var j :| 0 <= j < |es| && es[j] == e.Reversed();
    assert Prefs(es, corr)[i] == e.Reversed();
    assert Prefs(es, corr)[j] == e;
    assert e.Reversed() in KeysOf(m) && e in KeysOf(m);
    KeptKeyIsAdjusted(es, m, independent, outcome, e);
    KeptKeyIsAdjusted(es, m, independent, outcome, e.Reversed());
    TwoCycle(e.src, e.dst, adjusted);
  }

  /** The adjuster does not repair a learner edge that breaks a role: the scorer keeps `C -> A`,
      `A` is independent, and `C -> A` survives. */
  lemma OriginalEdgeBreakingRoleIsKept()
    ensures var e := Edge("C", "A");
      AdjustEdges([e], [(e, 0.25)], ["A"], []) == [e] && BreaksRole(e, ["A"], [])
  {
  }

  /** Two edge lists with the same members have the same cycles. */
  lemma SameEdgesSameCycles(es: seq<Edge>, fs: seq<Edge>)
    requires forall e :: e in es <==> e in fs
    ensures HasCycle(es) <==> HasCycle(fs)
  {
    if HasCycle(es) {
      var w :| IsCycle(w, es);
      SubgraphCycle(w, es, fs);
    }
    if HasCycle(fs) {
      var w :| IsCycle(w, fs);
      SubgraphCycle(w, fs, es);
    }
  }

  /** `create_adjusted_graph`: the learner's nodes with exactly the adjusted edges (repeats
      collapse), rejected with no graph when those edges hold a directed cycle. */
  function CreateAdjustedGraph(g: Graph, adjusted: seq<Edge>): (r: Result<Graph, Error>)
    requires WellFormed(g)
    ensures r.Ok? <==> !HasCycle(adjusted)
    ensures r.Err? ==> r.error == AdjustedGraphCyclic
    ensures r.Ok? ==> WellFormed(r.value) && IsAcyclic(r.value)
    ensures r.Ok? ==> forall e :: e in r.value.edges <==> e in adjusted
    ensures r.Ok? && EndpointsIn(adjusted, g.nodes) ==> r.value.nodes == g.nodes
  {
    var h := AddEdges(Graph(g.nodes, []), adjusted);
    AcyclicIffNoCycle(h);
    SameEdgesSameCycles(h.edges, adjusted);
    if IsAcyclic(h) then Ok(h) else Err(AdjustedGraphCyclic)
  }
}
