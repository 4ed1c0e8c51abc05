/**
 The edge-direction decision of the residual-asymmetry scorer and the
 confidence map it fills. The regressions and Spearman correlations behind the
 decision are floating-point library numerics; they enter as two given
 correlation values per edge. The map is a Python dict: keyed by the preferred
 edge, in first-insertion order, a later write to a present key replacing only
 the value.
 */
module Orientation {
  import opened Wrappers
  import opened Graphs

  function Abs(x: real): real {
    if x < 0.0 then -x else x
  }

  /** The two correlations measured for an edge `(source, target)`:
      `source` correlates the source with the residuals of regressing the source
      on the target, `target` correlates the target with the residuals of
      regressing the target on the source. */
  datatype Correlations = Correlations(source: real, target: real) {
    /** The correlations of the same two columns seen from the reversed edge. */
    function Swapped(): Correlations {
      Correlations(target, source)
    }
  }

  /** The decision for one edge: a confidence and the preferred orientation. */
  datatype Decision = Decision(confidence: real, preferred: Edge)

  /** Keep the edge when the source side correlates strictly more strongly, otherwise
      turn it round; a tie therefore turns it round with confidence 0. */
  function Orient(e: Edge, c: Correlations): (r: Decision)
    ensures r.confidence >= 0.0
    ensures r.confidence == Abs(c.source) - Abs(c.target) || r.confidence == Abs(c.target) - Abs(c.source)
    ensures r.confidence == 0.0 <==> Abs(c.source) == Abs(c.target)
    ensures Abs(c.source) <= 1.0 && Abs(c.target) <= 1.0 ==> r.confidence <= 1.0
    ensures Abs(c.source) > Abs(c.target) ==> r.preferred == e
    ensures Abs(c.source) <= Abs(c.target) ==> r.preferred == e.Reversed()
    ensures e.src != e.dst ==> (r.preferred == e <==> Abs(c.source) > Abs(c.target))
  {
    var confidence := Abs(Abs(c.target) - Abs(c.source));
    Decision(confidence, if Abs(c.source) > Abs(c.target) then e else e.Reversed())
  }

  /** Scoring the two stored directions of one undirected learner edge: both agree on
      the preferred edge exactly when the magnitudes differ, and on the confidence always. */
  lemma OrientBothDirections(e: Edge, c: Correlations)
    requires e.src != e.dst
    ensures Orient(e, c).confidence == Orient(e.Reversed(), c.Swapped()).confidence
    ensures Orient(e, c).preferred == Orient(e.Reversed(), c.Swapped()).preferred
      <==> Abs(c.source) != Abs(c.target)
  {
  }

  // ---------------------------------------------------------------------
  // The confidence map: an insertion-ordered dict from edges to confidences
  // ---------------------------------------------------------------------

  type ConfidenceMap = seq<(Edge, real)>

  function KeysOf(m: ConfidenceMap): seq<Edge> {
    if |m| == 0 then [] else [m[0].0] + KeysOf(m[1..])
  }

  lemma {:induction false} KeysOfIndex(m: ConfidenceMap)
    ensures |KeysOf(m)| == |m|
    ensures forall i | 0 <= i < |m| :: KeysOf(m)[i] == m[i].0
  {
    if |m| > 0 {
      KeysOfIndex(m[1..]);
    }
  }

  /** Dict lookup: the value stored under `k`, if any. */
  function Get(m: ConfidenceMap, k: Edge): (r: Option<real>)
    ensures r.Some? <==> k in KeysOf(m)
  {
    if |m| == 0 then None
    else if m[0].0 == k then Some(m[0].1)
    else Get(m[1..], k)
  }

  /** A lookup returns the value of the first entry with that key. */
  lemma {:induction false} GetValue(m: ConfidenceMap, k: Edge, i: nat)
    requires i < |m| && m[i].0 == k
    requires forall j | 0 <= j < i :: m[j].0 != k
    ensures Get(m, k) == Some(m[i].1)
  {
    if i > 0 {
      assert m[0].0 != k;
      assert forall j | 0 <= j < i - 1 :: m[1..][j].0 == m[j + 1].0;
      GetValue(m[1..], k, i - 1);
    }
  }

  /** Dict assignment `m[k] = v`. */
  function Put(m: ConfidenceMap, k: Edge, v: real): (r: ConfidenceMap)
    requires Distinct(KeysOf(m))
    ensures Distinct(KeysOf(r))
    ensures Get(r, k) == Some(v)
    ensures forall k' | k' != k :: Get(r, k') == Get(m, k')
    ensures k in KeysOf(m) ==> KeysOf(r) == KeysOf(m)
    ensures k !in KeysOf(m) ==> KeysOf(r) == KeysOf(m) + [k]
  {
    if |m| == 0 then [(k, v)]
    else
      assert KeysOf(m) == [m[0].0] + KeysOf(m[1..]);
      assert forall x :: x in KeysOf(m) <==> x == m[0].0 || x in KeysOf(m[1..]);
      DistinctCons(m[0].0, KeysOf(m[1..]));
      if m[0].0 == k then
        var r := [(k, v)] + m[1..];
        assert r[1..] == m[1..];
        r
      else
        var rest := Put(m[1..], k, v);
        var r := [m[0]] + rest;
        assert r[1..] == rest;
        DistinctCons(m[0].0, KeysOf(rest));
        r
  }

  function Preferred(e: Edge, corr: Edge -> Correlations): Edge {
    Orient(e, corr(e)).preferred
  }

  function Confidence(e: Edge, corr: Edge -> Correlations): real {
    Orient(e, corr(e)).confidence
  }

  /** No later edge of `es` prefers the same orientation as `es[i]`. */
  predicate LastToPrefer(es: seq<Edge>, corr: Edge -> Correlations, i: int)
    requires 0 <= i < |es|
  {
    forall j | i < j < |es| :: Preferred(es[j], corr) != Preferred(es[i], corr)
  }

  /** The confidence map `compute_edge_direction_confidence` builds, writing each edge's
      decision under its preferred orientation, in edge order. */
  function ScoreEdges(es: seq<Edge>, corr: Edge -> Correlations): (r: ConfidenceMap)
    ensures Distinct(KeysOf(r))
    ensures |KeysOf(r)| <= |es|
  {
    if |es| == 0 then []
    else
      var n := |es| - 1;
      var prev := ScoreEdges(es[..n], corr);
      Put(prev, Preferred(es[n], corr), Confidence(es[n], corr))
  }

  /** The preferred orientation of every edge, in edge order. */
  function Prefs(es: seq<Edge>, corr: Edge -> Correlations): (r: seq<Edge>)
    ensures |r| == |es|
    ensures forall i | 0 <= i < |es| :: r[i] == Preferred(es[i], corr)
  {
    seq(|es|, i requires 0 <= i < |es| => Preferred(es[i], corr))
  }

  /** The keys are exactly the preferred orientations of the edges. */
  lemma {:induction false} ScoreKeys(es: seq<Edge>, corr: Edge -> Correlations)
    ensures forall k :: k in KeysOf(ScoreEdges(es, corr)) <==> k in Prefs(es, corr)
  {
    if |es| > 0 {
      var n := |es| - 1;
      ScoreKeys(es[..n], corr);
      PrefsSnoc(es, corr);
      PutKeys(ScoreEdges(es[..n], corr), Preferred(es[n], corr), Confidence(es[n], corr));
    }
  }

  lemma PrefsSnoc(es: seq<Edge>, corr: Edge -> Correlations)
    requires |es| > 0
    ensures Prefs(es, corr) == Prefs(es[..|es| - 1], corr) + [Preferred(es[|es| - 1], corr)]
  {
  }

  lemma PutKeys(m: ConfidenceMap, k: Edge, v: real)
    requires Distinct(KeysOf(m))
    ensures forall x :: x in KeysOf(Put(m, k, v)) <==> x in KeysOf(m) || x == k
  {
  }

  /** Every key is a learner edge or its reverse. */
  lemma ScoreKeysAreEdges(es: seq<Edge>, corr: Edge -> Correlations)
    ensures forall k | k in KeysOf(ScoreEdges(es, corr)) :: k in es || k.Reversed() in es
  {
    ScoreKeys(es, corr);
    forall k | k in KeysOf(ScoreEdges(es, corr)) ensures k in es || k.Reversed() in es {
      var i :| 0 <= i < |es| && Prefs(es, corr)[i] == k;
      assert k == es[i] || k == es[i].Reversed();
    }
  }

  /** The value under a key is the confidence of the last edge that preferred it. */
  lemma {:induction false} ScoreLastWriterWins(es: seq<Edge>, corr: Edge -> Correlations, i: nat)
    requires i < |es| && LastToPrefer(es, corr, i)
    ensures Get(ScoreEdges(es, corr), Preferred(es[i], corr)) == Some(Confidence(es[i], corr))
  {
    var n := |es| - 1;
    if i == n {
      ScoreStep(es, corr, Preferred(es[n], corr));
    } else {
      assert Preferred(es[n], corr) != Preferred(es[i], corr);
      ScoreStep(es, corr, Preferred(es[i], corr));
      LastToPreferPrefix(es, corr, i);
      ScoreLastWriterWins(es[..n], corr, i);
    }
  }

  /** Scoring one more edge writes its confidence under its preferred key and leaves every
      other key's value alone. */
  lemma ScoreStep(es: seq<Edge>, corr: Edge -> Correlations, k: Edge)
    requires |es| > 0
    ensures var n := |es| - 1;
      Get(ScoreEdges(es, corr), k)
      == if k == Preferred(es[n], corr) then Some(Confidence(es[n], corr)) else Get(ScoreEdges(es[..n], corr), k)
  {
    var n := |es| - 1;
    ScoreSnoc(es, corr);
    PutGet(ScoreEdges(es[..n], corr), Preferred(es[n], corr), Confidence(es[n], corr), k);
  }

  lemma ScoreSnoc(es: seq<Edge>, corr: Edge -> Correlations)
    requires |es| > 0
    ensures ScoreEdges(es, corr)
      == Put(ScoreEdges(es[..|es| - 1], corr), Preferred(es[|es| - 1], corr), Confidence(es[|es| - 1], corr))
  {
  }

  lemma PutGet(m: ConfidenceMap, k: Edge, v: real, x: Edge)
    requires Distinct(KeysOf(m))
    ensures Get(Put(m, k, v), x) == if x == k then Some(v) else Get(m, x)
  {
  }

  /** The last edge to prefer a key is still the last one in any prefix that holds it. */
  lemma LastToPreferPrefix(es: seq<Edge>, corr: Edge -> Correlations, i: nat)
    requires i < |es| - 1 && LastToPrefer(es, corr, i)
    ensures es[..|es| - 1][i] == es[i] && LastToPrefer(es[..|es| - 1], corr, i)
  {
    var n := |es| - 1;
    forall j | i < j < n ensures Preferred(es[..n][j], corr) != Preferred(es[..n][i], corr) {
      assert es[..n][j] == es[j];
    }
  }

  /** A learner edge stored in both directions (an undirected PC edge) whose correlations
      differ in magnitude is written twice under one key, so the map has fewer entries than
      the graph has edges. */
  lemma UndirectedPairCollapses(es: seq<Edge>, corr: Edge -> Correlations, e: Edge)
    requires e in es && e.Reversed() in es && e.src != e.dst
    requires corr(e.Reversed()) == corr(e).Swapped()
    requires Abs(corr(e).source) != Abs(corr(e).target)
    ensures |ScoreEdges(es, corr)| < |es|
  {
    var m := ScoreEdges(es, corr);
    ScoreKeys(es, corr);
    var ps := Prefs(es, corr);
    var i :| 0 <= i < |es| && es[i] == e;
    var j :| 0 <= j < |es| && es[j] == e.Reversed();
    OrientBothDirections(e, corr(e));
    assert i != j && ps[i] == ps[j];
    forall k | 0 <= k < |KeysOf(m)| ensures KeysOf(m)[k] in (set p | p in ps) {
      assert KeysOf(m)[k] in KeysOf(m);
    }
    DistinctWithin(KeysOf(m), set p | p in ps);
    if i < j {
      SeqWithRepeatHasFewerValues(ps, i, j);
    } else {
      SeqWithRepeatHasFewerValues(ps, j, i);
    }
    KeysOfIndex(m);
  }

  /** Once written, a key keeps its position: the keys after scoring a prefix of the
      edges are a prefix of the keys after scoring them all. */
  lemma {:induction false} ScoreKeysKeepPosition(es: seq<Edge>, corr: Edge -> Correlations, n: nat)
    requires n <= |es|
    ensures KeysOf(ScoreEdges(es[..n], corr)) <= KeysOf(ScoreEdges(es, corr))
    decreases |es| - n
  {
    if n < |es| {
      ScoreKeysKeepPosition(es, corr, n + 1);
      var m := |es[..n + 1]| - 1;
      assert es[..n + 1][..m] == es[..n];
    } else {
      assert es[..n] == es;
    }
  }
}
