/**
 Directed graphs over variable names: the networkx DiGraph values that flow
 through the discovery pipeline. Nodes and edges are kept in insertion order;
 a graph has no repeated node, no repeated edge, and every edge endpoint is a
 node. Acyclicity is decided by peeling predecessor-free nodes (Kahn's rounds)
 and is proved equivalent to the absence of a directed cycle.
 */
module Graphs {

  /** A directed edge `(src, dst)` between two variable names. */
  datatype Edge = Edge(src: string, dst: string) {
    function Reversed(): Edge {
      Edge(dst, src)
    }
  }

  /** A directed graph: its nodes and its edges, both in insertion order. */
  datatype Graph = Graph(nodes: seq<string>, edges: seq<Edge>)

  predicate Distinct<T(==)>(s: seq<T>) {
    forall i, j | 0 <= i < j < |s| :: s[i] != s[j]
  }

  lemma DistinctCons<T>(x: T, s: seq<T>)
    ensures Distinct([x] + s) <==> x !in s && Distinct(s)
  {
    var t := [x] + s;
    assert forall k | 0 <= k < |s| :: t[k + 1] == s[k];
    if x !in s && Distinct(s) {
      forall i, j | 0 <= i < j < |t| ensures t[i] != t[j] {
        if i > 0 {
          assert t[i] == s[i - 1] && t[j] == s[j - 1];
        } else {
          assert t[j] == s[j - 1];
        }
      }
    }
    if Distinct(t) {
      forall i, j | 0 <= i < j < |s| ensures s[i] != s[j] {
        assert t[i + 1] == s[i] && t[j + 1] == s[j];
      }
      forall k | 0 <= k < |s| ensures s[k] != x {
        assert t[0] != t[k + 1];
      }
    }
  }

  predicate EndpointsIn(es: seq<Edge>, ns: seq<string>) {
    forall e | e in es :: e.src in ns && e.dst in ns
  }

  /** What every networkx DiGraph satisfies by construction. */
  predicate WellFormed(g: Graph) {
    && Distinct(g.nodes)
    && Distinct(g.edges)
    && EndpointsIn(g.edges, g.nodes)
  }

  function NodeSet(g: Graph): set<string> {
    set v | v in g.nodes
  }

  /** The elements of `s` that satisfy `keep`, in their original order. */
  function Filter<T(!new)>(s: seq<T>, keep: T -> bool): (r: seq<T>)
    ensures forall x :: x in r <==> x in s && keep(x)
    ensures |r| <= |s|
  {
    if |s| == 0 then []
    else (if keep(s[0]) then [s[0]] else []) + Filter(s[1..], keep)
  }

  lemma {:induction false} FilterDistinct<T(!new)>(s: seq<T>, keep: T -> bool)
    requires Distinct(s)
    ensures Distinct(Filter(s, keep))
  {
    if |s| > 0 {
      FilterDistinct(s[1..], keep);
      assert s[0] !in s[1..] by {
        forall k | 0 <= k < |s| - 1 ensures s[1..][k] != s[0] {
          assert s[1..][k] == s[k + 1];
        }
      }
    }
  }

  /** The sources of the edges into `v`, in edge order (networkx `predecessors`). */
  function Predecessors(es: seq<Edge>, v: string): (r: seq<string>)
    ensures forall u :: u in r <==> Edge(u, v) in es
  {
    if |es| == 0 then []
    else
      assert forall e :: e in es <==> e == es[0] || e in es[1..];
      (if es[0].dst == v then [es[0].src] else []) + Predecessors(es[1..], v)
  }

  /** The targets of the edges out of `v`, in edge order (networkx `successors`). */
  function Successors(es: seq<Edge>, v: string): (r: seq<string>)
    ensures forall u :: u in r <==> Edge(v, u) in es
  {
    if |es| == 0 then []
    else
      assert forall e :: e in es <==> e == es[0] || e in es[1..];
      (if es[0].src == v then [es[0].dst] else []) + Successors(es[1..], v)
  }

  // ---------------------------------------------------------------------
  // Walks and cycles
  // ---------------------------------------------------------------------

  /** `w` follows edges of `es` from its first to its last node (at least one step). */
  ghost predicate IsWalk(w: seq<string>, es: seq<Edge>) {
    |w| >= 2 && forall i | 0 <= i < |w| - 1 :: Edge(w[i], w[i + 1]) in es
  }

  /** A closed walk; a self-loop `[a, a]` and a 2-cycle `[a, b, a]` both count. */
  ghost predicate IsCycle(w: seq<string>, es: seq<Edge>) {
    IsWalk(w, es) && w[0] == w[|w| - 1]
  }

  ghost predicate HasCycle(es: seq<Edge>) {
    exists w :: IsCycle(w, es)
  }

  /** An edge together with its reverse closes a 2-cycle. */
  lemma TwoCycle(a: string, b: string, es: seq<Edge>)
    requires Edge(a, b) in es && Edge(b, a) in es
    ensures HasCycle(es)
  {
    var w := [a, b, a];
    assert IsWalk(w, es) by {
      forall i | 0 <= i < |w| - 1 ensures Edge(w[i], w[i + 1]) in es {
        if i == 1 {
          assert w[i] == b && w[i + 1] == a;
        }
      }
    }
    assert IsCycle(w, es);
  }

  // ---------------------------------------------------------------------
  // Kahn's rounds: peel the nodes with no predecessor among the remaining ones
  // ---------------------------------------------------------------------

  predicate NoPredecessorIn(es: seq<Edge>, v: string, s: set<string>) {
    forall e | e in es && e.dst == v :: e.src !in s
  }

  /** The nodes of `remaining` none of whose predecessors is in `remaining`. */
  function Sources(es: seq<Edge>, remaining: set<string>): set<string> {
    set v | v in remaining && NoPredecessorIn(es, v, remaining)
  }

  /** Removes source rounds until none is left; the rest lies on or behind a cycle. */
  function Peel(es: seq<Edge>, remaining: set<string>): (r: set<string>)
    ensures r <= remaining
    ensures Sources(es, r) == {}
    decreases remaining
  {
    var s := Sources(es, remaining);
    if s == {} then remaining else Peel(es, remaining - s)
  }

  /** The acyclicity test (networkx `is_directed_acyclic_graph`). */
  predicate IsAcyclic(g: Graph) {
    Peel(g.edges, NodeSet(g)) == {}
  }

  /** No node of a cycle is ever peeled. */
  lemma {:induction false} CycleSurvivesPeel(es: seq<Edge>, remaining: set<string>, w: seq<string>)
    requires IsCycle(w, es)
    requires forall i | 0 <= i < |w| :: w[i] in remaining
    ensures forall i | 0 <= i < |w| :: w[i] in Peel(es, remaining)
    decreases remaining
  {
    var s := Sources(es, remaining);
    if s != {} {
      forall i | 0 <= i < |w| ensures w[i] !in s {
        var j := if i == 0 then |w| - 2 else i - 1;
        assert Edge(w[j], w[j + 1]) in es;
        assert w[j + 1] == w[i];
        assert !NoPredecessorIn(es, w[i], remaining);
      }
      CycleSurvivesPeel(es, remaining - s, w);
    }
  }

  /** A walk of `n` steps inside `r` ending in `v`, built by following predecessors backwards. */
  lemma {:induction false} BackWalk(es: seq<Edge>, r: set<string>, v: string, n: nat) returns (w: seq<string>)
    requires v in r && Sources(es, r) == {}
    ensures |w| == n + 1 && w[n] == v
    ensures forall k | 0 <= k < |w| :: w[k] in r
    ensures forall k | 0 <= k < n :: Edge(w[k], w[k + 1]) in es
    decreases n
  {
    if n == 0 {
      w := [v];
    } else {
      assert v !in Sources(es, r);
      var e :| e in es && e.dst == v && e.src in r;
      var w' := BackWalk(es, r, e.src, n - 1);
      w := w' + [v];
      assert forall k | 0 <= k < n :: w[k] == w'[k];
    }
  }

  lemma {:induction false} DistinctWithin<T>(w: seq<T>, r: set<T>)
    requires Distinct(w)
    requires forall k | 0 <= k < |w| :: w[k] in r
    ensures |w| <= |r|
  {
    if |w| > 0 {
      var x := w[|w| - 1];
      var w' := w[..|w| - 1];
      forall k | 0 <= k < |w'| ensures w'[k] in r - {x} {
        assert w'[k] == w[k];
      }
      DistinctWithin(w', r - {x});
    }
  }

  /** A sequence with a repeated element has fewer distinct values than positions. */
  lemma {:induction false} SeqWithRepeatHasFewerValues<T>(s: seq<T>, i: nat, j: nat)
    requires i < j < |s| && s[i] == s[j]
    ensures |set x | x in s| < |s|
  {
    var n := |s| - 1;
    var t := s[..n];
    assert s == t + [s[n]];
    assert (set x | x in s) == (set x | x in t) + {s[n]};
    if j == n {
      assert s[n] == t[i];
      assert (set x | x in s) == (set x | x in t);
      SetOfSeqSize(t);
    } else {
      assert t[i] == t[j];
      SeqWithRepeatHasFewerValues(t, i, j);
    }
  }

  lemma {:induction false} SetOfSeqSize<T>(s: seq<T>)
    ensures |set x | x in s| <= |s|
  {
    if |s| > 0 {
      var n := |s| - 1;
      var t := s[..n];
      assert s == t + [s[n]];
      assert (set x | x in s) == (set x | x in t) + {s[n]};
      SetOfSeqSize(t);
    }
  }

  /** A set in which every node has a predecessor of the same set, and which is not empty, holds a cycle. */
  lemma NoSourceGivesCycle(es: seq<Edge>, r: set<string>)
    requires r != {} && Sources(es, r) == {}
    ensures HasCycle(es)
  {
    var v :| v in r;
    var w := BackWalk(es, r, v, |r|);
    if Distinct(w) {
      DistinctWithin(w, r);
    }
    var i, j :| 0 <= i < j < |w| && w[i] == w[j];
    var c := w[i..j + 1];
    forall k | 0 <= k < |c| - 1 ensures Edge(c[k], c[k + 1]) in es {
      assert c[k] == w[i + k] && c[k + 1] == w[i + k + 1];
    }
    assert IsCycle(c, es);
  }

  /** The peeling test decides exactly the absence of a directed cycle. */
  lemma AcyclicIffNoCycle(g: Graph)
    requires EndpointsIn(g.edges, g.nodes)
    ensures IsAcyclic(g) <==> !HasCycle(g.edges)
  {
    if HasCycle(g.edges) {
      var w :| IsCycle(w, g.edges);
      forall i | 0 <= i < |w| ensures w[i] in NodeSet(g) {
        if i < |w| - 1 {
          assert Edge(w[i], w[i + 1]) in g.edges;
        } else {
          assert Edge(w[i - 1], w[i]) in g.edges;
        }
      }
      CycleSurvivesPeel(g.edges, NodeSet(g), w);
      assert w[0] in Peel(g.edges, NodeSet(g));
    }
    if !IsAcyclic(g) {
      NoSourceGivesCycle(g.edges, Peel(g.edges, NodeSet(g)));
    }
  }

  /** Reading a cycle backwards gives a cycle of the reversed edges. */
  lemma ReversedCycle(w: seq<string>, es: seq<Edge>, rs: seq<Edge>)
    requires IsCycle(w, rs)
    requires forall e | e in rs :: e.Reversed() in es
    ensures HasCycle(es)
  {
    var n := |w|;
    var v := seq(n, k requires 0 <= k < n => w[n - 1 - k]);
    forall k | 0 <= k < n - 1 ensures Edge(v[k], v[k + 1]) in es {
      assert Edge(w[n - 2 - k], w[n - 1 - k]) in rs;
    }
    assert IsCycle(v, es);
  }

  /** A cycle whose every edge survives in `es` is a cycle of `es`. */
  lemma SubgraphCycle(w: seq<string>, sub: seq<Edge>, es: seq<Edge>)
    requires IsCycle(w, sub)
    requires forall e | e in sub :: e in es
    ensures HasCycle(es)
  {
    assert IsCycle(w, es);
  }

  // ---------------------------------------------------------------------
  // Building graphs the way networkx does
  // ---------------------------------------------------------------------

  function AddNode(ns: seq<string>, v: string): (r: seq<string>)
    ensures forall u :: u in r <==> u in ns || u == v
    ensures Distinct(ns) ==> Distinct(r)
    ensures v in ns ==> r == ns
  {
    if v in ns then ns
    else
      assert forall i | 0 <= i < |ns| :: (ns + [v])[i] == ns[i];
      ns + [v]
  }

  /** networkx `add_edge`: adds missing endpoints (source first), then the edge if new. */
  function AddEdge(g: Graph, e: Edge): (r: Graph)
    requires WellFormed(g)
    ensures WellFormed(r)
    ensures forall f :: f in r.edges <==> f in g.edges || f == e
    ensures forall v :: v in r.nodes <==> v in g.nodes || v == e.src || v == e.dst
    ensures e.src in g.nodes && e.dst in g.nodes ==> r.nodes == g.nodes
  {
    var edges := if e in g.edges then g.edges else g.edges + [e];
    assert Distinct(edges) by {
      assert forall i | 0 <= i < |g.edges| :: edges[i] == g.edges[i];
    }
    Graph(AddNode(AddNode(g.nodes, e.src), e.dst), edges)
  }

  /** networkx `add_edges_from`, one edge at a time in list order. */
  function AddEdges(g: Graph, es: seq<Edge>): (r: Graph)
    requires WellFormed(g)
    ensures WellFormed(r)
    ensures forall e :: e in r.edges <==> e in g.edges || e in es
    ensures forall v :: v in r.nodes <==> v in g.nodes || exists e | e in es :: v == e.src || v == e.dst
    ensures EndpointsIn(es, g.nodes) ==> r.nodes == g.nodes
    decreases |es|
  {
    if |es| == 0 then g
    else
      var h := AddEdge(g, es[0]);
      assert forall e :: e in es <==> e == es[0] || e in es[1..];
      AddEdges(h, es[1..])
  }

  /** networkx `reverse`: the same nodes, every edge turned round. */
  function Reverse(g: Graph): (r: Graph)
    requires WellFormed(g)
    ensures WellFormed(r)
    ensures r.nodes == g.nodes
    ensures forall e :: e in r.edges <==> e.Reversed() in g.edges
  {
    var rs := seq(|g.edges|, i requires 0 <= i < |g.edges| => g.edges[i].Reversed());
    assert forall e :: e in rs <==> e.Reversed() in g.edges by {
      forall e ensures e in rs <==> e.Reversed() in g.edges {
        if e.Reversed() in g.edges {
          var i :| 0 <= i < |g.edges| && g.edges[i] == e.Reversed();
          assert rs[i] == e;
        }
      }
    }
    AddEdges(Graph(g.nodes, []), rs)
  }

  /** networkx `remove_nodes_from`: drops the named nodes and their edges; unknown names are ignored. */
  function RemoveNodes(g: Graph, names: seq<string>): (r: Graph)
    requires WellFormed(g)
    ensures WellFormed(r)
    ensures forall v :: v in r.nodes <==> v in g.nodes && v !in names
    ensures forall e :: e in r.edges <==> e in g.edges && e.src !in names && e.dst !in names
  {
    FilterDistinct(g.nodes, v => v !in names);
    FilterDistinct(g.edges, (e: Edge) => e.src !in names && e.dst !in names);
    Graph(Filter(g.nodes, v => v !in names), Filter(g.edges, (e: Edge) => e.src !in names && e.dst !in names))
  }
}
