/**
 Role constraints of the discovery run: the forbidden edges derived from the
 independent and outcome lists, their conversion to column positions (the
 learner's variable indexing), and the subset check made before any learning.
 */
module Roles {
  import opened Wrappers
  import opened Graphs

  /** The reference set: an edge is forbidden when it points into an independent
      variable or leaves an outcome variable, its other end is a column, and it is
      not a self-pair. */
  predicate Forbidden(columns: seq<string>, independent: seq<string>, outcome: seq<string>, e: Edge) {
    && e.src != e.dst
    && ((e.dst in independent && e.src in columns) || (e.src in outcome && e.dst in columns))
  }

  /** `(c, v)` for every column `c` other than `v`, in column order. */
  function IntoVariable(columns: seq<string>, v: string): (r: seq<Edge>)
    ensures forall e :: e in r <==> e.dst == v && e.src in columns && e.src != v
  {
    if |columns| == 0 then []
    else
      assert forall c :: c in columns <==> c == columns[0] || c in columns[1..];
      (if columns[0] != v then [Edge(columns[0], v)] else []) + IntoVariable(columns[1..], v)
  }

  /** `(v, c)` for every column `c` other than `v`, in column order. */
  function OutOfVariable(columns: seq<string>, v: string): (r: seq<Edge>)
    ensures forall e :: e in r <==> e.src == v && e.dst in columns && e.dst != v
  {
    if |columns| == 0 then []
    else
      assert forall c :: c in columns <==> c == columns[0] || c in columns[1..];
      (if columns[0] != v then [Edge(v, columns[0])] else []) + OutOfVariable(columns[1..], v)
  }

  function IntoEach(columns: seq<string>, vars: seq<string>): (r: seq<Edge>)
    ensures forall e :: e in r <==> e.dst in vars && e.src in columns && e.src != e.dst
  {
    if |vars| == 0 then []
    else
      assert forall v :: v in vars <==> v == vars[0] || v in vars[1..];
      IntoVariable(columns, vars[0]) + IntoEach(columns, vars[1..])
  }

  function OutOfEach(columns: seq<string>, vars: seq<string>): (r: seq<Edge>)
    ensures forall e :: e in r <==> e.src in vars && e.dst in columns && e.src != e.dst
  {
    if |vars| == 0 then []
    else
      assert forall v :: v in vars <==> v == vars[0] || v in vars[1..];
      OutOfVariable(columns, vars[0]) + OutOfEach(columns, vars[1..])
  }

  /** The forbidden-edge list by name: the independent blocks, then the outcome blocks. */
  function ForbiddenEdges(columns: seq<string>, independent: seq<string>, outcome: seq<string>): (r: seq<Edge>)
    ensures forall e :: e in r <==> Forbidden(columns, independent, outcome, e)
    ensures forall e | e in r :: e.src != e.dst
  {
    IntoEach(columns, independent) + OutOfEach(columns, outcome)
  }

  /** pandas `columns.get_loc` for a column name that occurs once: its position. For a
      repeated name pandas returns a slice or a mask instead; this model takes the first
      position, so data frames with repeated column names are outside it. */
  function IndexOf(columns: seq<string>, name: string): (r: Option<nat>)
    ensures r.Some? <==> name in columns
    ensures r.Some? ==> r.value < |columns| && columns[r.value] == name && name !in columns[..r.value]
  {
    if |columns| == 0 then None
    else if columns[0] == name then Some(0)
    else
      match IndexOf(columns[1..], name)
      case None => None
      case Some(i) =>
        assert columns[..i + 1] == [columns[0]] + columns[1..][..i];
        Some(i + 1)
  }

  /** The forbidden edges as column positions; a name that is not a column raises a KeyError. */
  function ToIndexPairs(columns: seq<string>, es: seq<Edge>): (r: Result<seq<(nat, nat)>, Error>)
    ensures r.Ok? <==> EndpointsIn(es, columns)
    ensures r.Ok? ==> |r.value| == |es|
    ensures r.Ok? ==> forall i | 0 <= i < |es| ::
      && r.value[i].0 < |columns| && columns[r.value[i].0] == es[i].src
      && r.value[i].1 < |columns| && columns[r.value[i].1] == es[i].dst
    ensures r.Err? ==> r.error.UnknownColumn? && r.error.name !in columns
  {
    if |es| == 0 then Ok([])
    else
      assert forall e :: e in es <==> e == es[0] || e in es[1..];
      match (IndexOf(columns, es[0].src), IndexOf(columns, es[0].dst))
      case (None, _) => Err(UnknownColumn(es[0].src))
      case (_, None) => Err(UnknownColumn(es[0].dst))
      case (Some(s), Some(t)) =>
        match ToIndexPairs(columns, es[1..])
        case Err(x) => Err(x)
        case Ok(rest) => Ok([(s, t)] + rest)
  }

  /** Reading positions back as names. */
  function FromIndexPairs(columns: seq<string>, ps: seq<(nat, nat)>): seq<Edge>
    requires forall i | 0 <= i < |ps| :: ps[i].0 < |columns| && ps[i].1 < |columns|
  {
    seq(|ps|, i requires 0 <= i < |ps| => Edge(columns[ps[i].0], columns[ps[i].1]))
  }

  /** The name-to-position conversion loses nothing: reading the positions back gives the names. */
  lemma IndexPairsRoundTrip(columns: seq<string>, es: seq<Edge>)
    requires EndpointsIn(es, columns)
    ensures ToIndexPairs(columns, es).Ok?
    ensures FromIndexPairs(columns, ToIndexPairs(columns, es).value) == es
  {
  }

  /** Different edge lists over known columns give different position lists. */
  lemma IndexPairsInjective(columns: seq<string>, es: seq<Edge>, fs: seq<Edge>)
    requires ToIndexPairs(columns, es).Ok? && ToIndexPairs(columns, fs).Ok?
    requires ToIndexPairs(columns, es) == ToIndexPairs(columns, fs)
    ensures es == fs
  {
    IndexPairsRoundTrip(columns, es);
    IndexPairsRoundTrip(columns, fs);
  }

  /** `create_priori_knowledge`: the forbidden edges, as the learner's index pairs. */
  function CreatePrioriKnowledge(columns: seq<string>, independent: seq<string>, outcome: seq<string>)
    : (r: Result<seq<(nat, nat)>, Error>)
    ensures r.Ok? ==> forall i | 0 <= i < |r.value| :: r.value[i].0 < |columns| && r.value[i].1 < |columns|
    ensures r.Ok? ==> FromIndexPairs(columns, r.value) == ForbiddenEdges(columns, independent, outcome)
  {
    var es := ForbiddenEdges(columns, independent, outcome);
    var r := ToIndexPairs(columns, es);
    if r.Ok? then IndexPairsRoundTrip(columns, es); r else r
  }

  /** The conversion raises exactly when some role variable is not a column while there are columns:
      with no columns no pair is generated at all. */
  lemma PrioriKnowledgeFailsIff(columns: seq<string>, independent: seq<string>, outcome: seq<string>)
    ensures CreatePrioriKnowledge(columns, independent, outcome).Err? <==>
      |columns| > 0 && exists v :: (v in independent || v in outcome) && v !in columns
  {
    var es := ForbiddenEdges(columns, independent, outcome);
    if |columns| > 0 {
      var c := columns[0];
      if v :| v in independent && v !in columns {
        assert Forbidden(columns, independent, outcome, Edge(c, v));
        assert Edge(c, v) in es;
      } else if v :| v in outcome && v !in columns {
        assert Forbidden(columns, independent, outcome, Edge(v, c));
        assert Edge(v, c) in es;
      }
    }
  }

  /** The subset check of `run_causal_discovery`: every role variable must be a column. */
  function CheckRoles(columns: seq<string>, independent: seq<string>, outcome: seq<string>): (r: Result<(), Error>)
    ensures r.Ok? <==> forall v | v in independent || v in outcome :: v in columns
    ensures r.Err? ==> r.error == RolesNotInColumns
  {
    var roles := (set v | v in independent) + (set v | v in outcome);
    var known := set c | c in columns;
    assert forall v | v in independent || v in outcome :: v in roles;
    if roles <= known then Ok(())
    else
      assert exists v :: v in roles && v !in known;
      Err(RolesNotInColumns)
  }

  /** A run that passed the role check never hits the KeyError of the index conversion. */
  lemma CheckedRolesConvert(columns: seq<string>, independent: seq<string>, outcome: seq<string>)
    requires CheckRoles(columns, independent, outcome).Ok?
    ensures CreatePrioriKnowledge(columns, independent, outcome).Ok?
  {
    PrioriKnowledgeFailsIff(columns, independent, outcome);
  }
}
