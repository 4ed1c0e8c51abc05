/**
 `generate_scm_effect_model`: the structure of the linear-Gaussian structural
 causal model built over a causal DAG. Nodes are visited in a stable order by
 layer; each is registered either as an observed regression on its
 predecessors (intercept, coefficients, noise scale, likelihood) or as an
 input data container. The priors and the data values are PyMC numerics and
 are not modelled; the registrations, their order and the predictor each
 regression reads are.
 */
module EffectModel {
  import opened Wrappers
  import opened Graphs
  import opened ScmLayers
  import opened Text

  /** Which effect the regressions estimate. */
  datatype Effect = Total | Direct

  function EffectName(e: Effect): string {
    match e
    case Total => "total"
    case Direct => "direct"
  }

  /** The effect argument check, made before anything else. */
  function ParseEffect(s: string): (r: Result<Effect, Error>)
    ensures r.Ok? <==> s == "total" || s == "direct"
    ensures r.Ok? ==> EffectName(r.value) == s
    ensures r.Err? ==> r.error == UnknownEffect(s)
  {
    if s == "total" then Ok(Total)
    else if s == "direct" then Ok(Direct)
    else Err(UnknownEffect(s))
  }

  lemma ParseEffectName(e: Effect)
    ensures ParseEffect(EffectName(e)) == Ok(e)
  {
  }

  // ---------------------------------------------------------------------
  // Python's stable `sorted(..., key=...)`
  // ---------------------------------------------------------------------

  predicate SortedByKey<T>(s: seq<T>, key: T -> nat) {
    forall i, j | 0 <= i < j < |s| :: key(s[i]) <= key(s[j])
  }

  /** The elements whose key is `k`, in their order in `s`. */
  function WithKey<T>(s: seq<T>, key: T -> nat, k: nat): seq<T> {
    if |s| == 0 then []
    else (if key(s[0]) == k then [s[0]] else []) + WithKey(s[1..], key, k)
  }

  /** Inserts `x` before the first element whose key is not smaller. */
  function InsertByKey<T>(x: T, s: seq<T>, key: T -> nat): (r: seq<T>)
    ensures multiset(r) == multiset(s) + multiset{x}
  {
    if |s| == 0 || key(x) <= key(s[0]) then [x] + s
    else
      assert s == [s[0]] + s[1..];
      [s[0]] + InsertByKey(x, s[1..], key)
  }

  lemma SortedTail<T>(s: seq<T>, key: T -> nat)
    requires |s| > 0 && SortedByKey(s, key)
    ensures SortedByKey(s[1..], key)
    ensures forall y | y in s[1..] :: key(s[0]) <= key(y)
  {
    forall i, j | 0 <= i < j < |s| - 1 ensures key(s[1..][i]) <= key(s[1..][j]) {
      assert s[1..][i] == s[i + 1] && s[1..][j] == s[j + 1];
    }
  }

  /** A head no larger than anything after it extends a sorted sequence. */
  lemma ConsSorted<T>(h: T, rest: seq<T>, key: T -> nat)
    requires SortedByKey(rest, key)
    requires forall i | 0 <= i < |rest| :: key(h) <= key(rest[i])
    ensures SortedByKey([h] + rest, key)
  {
    var r := [h] + rest;
    forall i, j | 0 <= i < j < |r| ensures key(r[i]) <= key(r[j]) {
      assert r[j] == rest[j - 1];
      if i > 0 {
        assert r[i] == rest[i - 1];
      }
    }
  }

  lemma {:induction false} InsertKeepsSorted<T>(x: T, s: seq<T>, key: T -> nat)
    requires SortedByKey(s, key)
    ensures SortedByKey(InsertByKey(x, s, key), key)
  {
    if |s| == 0 || key(x) <= key(s[0]) {
      ConsSorted(x, s, key);
    } else {
      SortedTail(s, key);
      InsertKeepsSorted(x, s[1..], key);
      var rest := InsertByKey(x, s[1..], key);
      forall i | 0 <= i < |rest| ensures key(s[0]) <= key(rest[i]) {
        assert rest[i] in multiset(rest);
        assert rest[i] == x || rest[i] in multiset(s[1..]);
      }
      ConsSorted(s[0], rest, key);
    }
  }

  /** The stable sort: insertion from the back, each element going before its equals. */
  function SortByKey<T>(s: seq<T>, key: T -> nat): (r: seq<T>)
    ensures multiset(r) == multiset(s)
    ensures SortedByKey(r, key)
  {
    if |s| == 0 then []
    else
      InsertKeepsSorted(s[0], SortByKey(s[1..], key), key);
      assert s == [s[0]] + s[1..];
      InsertByKey(s[0], SortByKey(s[1..], key), key)
  }

  /** `x` joins its key class in front: everything it is inserted after has a smaller key. */
  lemma {:induction false} InsertClass<T>(x: T, s: seq<T>, key: T -> nat, k: nat)
    ensures WithKey(InsertByKey(x, s, key), key, k) == (if key(x) == k then [x] else []) + WithKey(s, key, k)
  {
    var r := InsertByKey(x, s, key);
    var mine := if key(x) == k then [x] else [];
    if |s| == 0 || key(x) <= key(s[0]) {
      assert r == [x] + s;
      assert r[1..] == s;
      assert WithKey(r, key, k) == mine + WithKey(s, key, k);
    } else {
      var rest := InsertByKey(x, s[1..], key);
      var head := if key(s[0]) == k then [s[0]] else [];
      assert r == [s[0]] + rest;
      assert r[1..] == rest;
      InsertClass(x, s[1..], key, k);
      assert WithKey(r, key, k) == head + (mine + WithKey(s[1..], key, k));
      assert head == [] || mine == [];
      assert head + (mine + WithKey(s[1..], key, k)) == mine + (head + WithKey(s[1..], key, k));
    }
  }

  /** Stability: the elements of one key keep their relative order. */
  lemma {:induction false} SortKeepsClasses<T>(s: seq<T>, key: T -> nat, k: nat)
    ensures WithKey(SortByKey(s, key), key, k) == WithKey(s, key, k)
  {
    if |s| > 0 {
      SortKeepsClasses(s[1..], key, k);
      InsertClass(s[0], SortByKey(s[1..], key), key, k);
    }
  }

  /** In a sorted sequence, anything with a smaller key than the element at `i` comes before it. */
  lemma SmallerKeyEarlier<T>(s: seq<T>, key: T -> nat, i: nat, x: T)
    requires i < |s| && SortedByKey(s, key)
    requires x in s && key(x) < key(s[i])
    ensures x in s[..i]
  {
    var j :| 0 <= j < |s| && s[j] == x;
    assert forall m | i <= m < |s| :: key(s[i]) <= key(s[m]);
    assert s[..i][j] == x;
  }

  // ---------------------------------------------------------------------
  // The registrations
  // ---------------------------------------------------------------------

  /** `node_layers.__getitem__`, total over names (every node is a key). */
  function LayerKey(layers: map<string, nat>): string -> nat {
    v => if v in layers then layers[v] else 0
  }

  /** How a regression reads one predictor: a registered observation or a data container. */
  datatype Predictor = ObsOf(name: string) | DataOf(name: string)

  /** One node of the model: an observed regression on its predictors, or input data. */
  datatype Registration = Observed(node: string, predictors: seq<Predictor>) | DataNode(node: string)

  /** The built model: the layering, the visiting order and one registration per node. */
  datatype ScmModel = ScmModel(layering: Layering, order: seq<string>, registrations: seq<Registration>)

  /** Total effects regress every node that has a predecessor; direct effects regress only
      the nodes without outgoing edges. */
  predicate ShouldObserve(effect: Effect, g: Graph, v: string) {
    match effect
    case Total => Predecessors(g.edges, v) != []
    case Direct => Successors(g.edges, v) == []
  }

  /** A predictor is read from its observation when it is itself observed, from its data
      container otherwise. */
  function Through(effect: Effect, g: Graph, p: string): Predictor {
    if ShouldObserve(effect, g, p) then ObsOf(p) else DataOf(p)
  }

  /** The registration the model promises for node `v`. */
  predicate RegisteredAs(effect: Effect, g: Graph, v: string, reg: Registration) {
    && reg.node == v
    && (reg.Observed? <==> ShouldObserve(effect, g, v))
    && (reg.Observed? ==>
          && |reg.predictors| == |Predecessors(g.edges, v)|
          && forall j | 0 <= j < |reg.predictors| ::
               reg.predictors[j] == Through(effect, g, Predecessors(g.edges, v)[j]))
  }

  /** `reg` defines what `p` reads. */
  predicate Declares(reg: Registration, p: Predictor) {
    match p
    case ObsOf(n) => reg.Observed? && reg.node == n
    case DataOf(n) => reg.DataNode? && reg.node == n
  }

  /** Every predictor a regression reads was registered, with the matching kind, before it. */
  ghost predicate DeclaredBeforeUse(regs: seq<Registration>) {
    forall i, j | 0 <= i < |regs| && regs[i].Observed? && 0 <= j < |regs[i].predictors| ::
      exists k | 0 <= k < i :: Declares(regs[k], regs[i].predictors[j])
  }

  /** `order` lists the graph's nodes by non-decreasing layer. */
  ghost predicate LayerOrder(g: Graph, layers: map<string, nat>, order: seq<string>) {
    multiset(order) == multiset(g.nodes) && SortedByKey(order, LayerKey(layers))
  }

  /** The `obs` and `independent_data` dictionaries after registering `done`. */
  ghost predicate Registry(effect: Effect, g: Graph, done: seq<string>,
                           obs: map<string, Predictor>, data: map<string, Predictor>) {
    && (forall p :: p in obs <==> p in done && ShouldObserve(effect, g, p))
    && (forall p | p in obs :: obs[p] == ObsOf(p))
    && (forall p :: p in data <==> p in done && !ShouldObserve(effect, g, p))
    && (forall p | p in data :: data[p] == DataOf(p))
  }

  /** A predecessor has a smaller layer, so it is visited first; and it is observed exactly
      when the source reads its observation. */
  lemma PredecessorVisitedFirst(g: Graph, layers: map<string, nat>, effect: Effect, order: seq<string>, i: nat, p: string)
    requires WellFormed(g) && LongestPathLayers(g, layers)
    requires i < |order| && LayerOrder(g, layers, order)
    requires Edge(p, order[i]) in g.edges
    ensures p in layers && p in order[..i]
    ensures (effect == Total && layers[p] != 0) <==> ShouldObserve(effect, g, p)
  {
    assert p in multiset(g.nodes);
    SmallerKeyEarlier(order, LayerKey(layers), i, p);
    assert order[i] in Successors(g.edges, p);
  }

  /** The lookup of one predecessor finds the entry the source reads. */
  lemma LookupFinds(g: Graph, layers: map<string, nat>, effect: Effect, order: seq<string>, i: nat,
                    obs: map<string, Predictor>, data: map<string, Predictor>, p: string)
    requires WellFormed(g) && LongestPathLayers(g, layers)
    requires i < |order| && LayerOrder(g, layers, order)
    requires Registry(effect, g, order[..i], obs, data)
    requires p in Predecessors(g.edges, order[i])
    ensures p in layers
    ensures effect == Total && layers[p] != 0 ==> p in obs && obs[p] == Through(effect, g, p)
    ensures !(effect == Total && layers[p] != 0) ==> p in data && data[p] == Through(effect, g, p)
  {
    PredecessorVisitedFirst(g, layers, effect, order, i, p);
  }

  lemma AppendKeeps(ps: seq<Predictor>, x: Predictor, effect: Effect, g: Graph, preds: seq<string>, j: nat)
    requires j < |preds| && |ps| == j
    requires forall t | 0 <= t < j :: ps[t] == Through(effect, g, preds[t])
    requires x == Through(effect, g, preds[j])
    ensures forall t | 0 <= t < j + 1 :: (ps + [x])[t] == Through(effect, g, preds[t])
  {
    forall t | 0 <= t < j + 1 ensures (ps + [x])[t] == Through(effect, g, preds[t]) {
      if t < j {
        assert (ps + [x])[t] == ps[t];
      }
    }
  }

  /** The predictor loop of one observed node: every lookup finds its entry. */
  method ReadPredictors(g: Graph, layers: map<string, nat>, effect: Effect, order: seq<string>, i: nat,
                        obs: map<string, Predictor>, data: map<string, Predictor>)
    returns (ps: seq<Predictor>)
    requires WellFormed(g) && LongestPathLayers(g, layers)
    requires i < |order| && LayerOrder(g, layers, order)
    requires Registry(effect, g, order[..i], obs, data)
    ensures |ps| == |Predecessors(g.edges, order[i])|
    ensures forall t | 0 <= t < |ps| :: ps[t] == Through(effect, g, Predecessors(g.edges, order[i])[t])
  {
    var preds := Predecessors(g.edges, order[i]);
    ps := [];
    var j := 0;
    while j < |preds|
      invariant 0 <= j <= |preds|
      invariant |ps| == j
      invariant forall t | 0 <= t < j :: ps[t] == Through(effect, g, preds[t])
    {
      var p := preds[j];
      LookupFinds(g, layers, effect, order, i, obs, data, p);
      var predictor := if effect == Total && layers[p] != 0 then obs[p] else data[p];
      AppendKeeps(ps, predictor, effect, g, preds, j);
      ps := ps + [predictor];
      j := j + 1;
    }
  }

  /** Registering one more node keeps the dictionaries in step. */
  lemma RegistryAdd(effect: Effect, g: Graph, done: seq<string>, v: string,
                    obs: map<string, Predictor>, data: map<string, Predictor>)
    requires Registry(effect, g, done, obs, data)
    ensures ShouldObserve(effect, g, v) ==> Registry(effect, g, done + [v], obs[v := ObsOf(v)], data)
    ensures !ShouldObserve(effect, g, v) ==> Registry(effect, g, done + [v], obs, data[v := DataOf(v)])
  {
  }

  lemma TakeOneMore<T>(s: seq<T>, i: nat)
    requires i < |s|
    ensures s[..i + 1] == s[..i] + [s[i]]
  {
  }

  /** The outcome nodes, those without successors, as the direct-effect test collects them. */
  function Outcomes(g: Graph): (r: set<string>)
    ensures forall u :: u in r <==> u in g.nodes && Successors(g.edges, u) == []
  {
    set u | u in g.nodes && |Successors(g.edges, u)| == 0
  }

  /** The registration of the node at `order[i]` and the dictionaries after it; the data
      values it reads are checked by the caller. */
  method RegisterNode(g: Graph, layers: map<string, nat>, effect: Effect, order: seq<string>, i: nat,
                      obs: map<string, Predictor>, data: map<string, Predictor>)
    returns (reg: Registration, obs': map<string, Predictor>, data': map<string, Predictor>)
    requires WellFormed(g) && LongestPathLayers(g, layers)
    requires i < |order| && LayerOrder(g, layers, order)
    requires Registry(effect, g, order[..i], obs, data)
    ensures RegisteredAs(effect, g, order[i], reg)
    ensures Registry(effect, g, order[..i + 1], obs', data')
  {
    var v := order[i];
    assert v in multiset(g.nodes);
    var observe := (effect == Total && |Predecessors(g.edges, v)| > 0) || (effect == Direct && v in Outcomes(g));
    assert observe == ShouldObserve(effect, g, v);
    TakeOneMore(order, i);
    RegistryAdd(effect, g, order[..i], v, obs, data);
    if observe {
      var ps := ReadPredictors(g, layers, effect, order, i, obs, data);
      reg, obs', data' := Observed(v, ps), obs[v := ObsOf(v)], data;
    } else {
      reg, obs', data' := DataNode(v), obs, data[v := DataOf(v)];
    }
  }

  /** The registration loop of `generate_scm_effect_model`, over the nodes in `order`;
      a node that is not a data column raises a KeyError when its values are read. */
  method RegisterNodes(g: Graph, layers: map<string, nat>, effect: Effect, order: seq<string>, columns: seq<string>)
    returns (r: Result<seq<Registration>, Error>)
    requires WellFormed(g) && LongestPathLayers(g, layers)
    requires LayerOrder(g, layers, order)
    ensures r.Err? <==> exists v | v in order :: v !in columns
    ensures r.Err? ==> r.error.UnknownColumn? && r.error.name in order && r.error.name !in columns
    ensures r.Ok? ==> |r.value| == |order|
    ensures r.Ok? ==> forall i | 0 <= i < |order| :: RegisteredAs(effect, g, order[i], r.value[i])
  {
    var obs: map<string, Predictor> := map[];
    var data: map<string, Predictor> := map[];
    var regs: seq<Registration> := [];
    var i := 0;
    while i < |order|
      invariant 0 <= i <= |order|
      invariant |regs| == i
      invariant forall k | 0 <= k < i :: RegisteredAs(effect, g, order[k], regs[k])
      invariant forall k | 0 <= k < i :: order[k] in columns
      invariant Registry(effect, g, order[..i], obs, data)
    {
      var reg, obs', data' := RegisterNode(g, layers, effect, order, i, obs, data);
      if order[i] !in columns {
        return Err(UnknownColumn(order[i]));
      }
      forall k | 0 <= k < i + 1 ensures RegisteredAs(effect, g, order[k], (regs + [reg])[k]) {
        if k < i {
          assert (regs + [reg])[k] == regs[k];
        }
      }
      regs, obs, data := regs + [reg], obs', data';
      i := i + 1;
    }
    return Ok(regs);
  }

  lemma SameMembers<T>(s: seq<T>, t: seq<T>)
    requires multiset(s) == multiset(t)
    ensures forall x :: x in s <==> x in t
  {
    forall x ensures x in s <==> x in t {
      assert x in s <==> x in multiset(s);
      assert x in t <==> x in multiset(t);
    }
  }

  /** `generate_scm_effect_model` on the graph, the data's column names and the effect name:
      the effect is checked first, then the graph is layered, then the nodes are registered
      in layer order. */
  method BuildEffectModel(g: Graph, columns: seq<string>, effect: string) returns (r: Result<ScmModel, Error>)
    requires WellFormed(g)
    ensures r.Err? <==> ParseEffect(effect).Err? || HasCycle(g.edges) || |g.nodes| == 0 ||
                        exists v | v in g.nodes :: v !in columns
    ensures ParseEffect(effect).Err? ==> r == Err(UnknownEffect(effect))
    ensures ParseEffect(effect).Ok? && HasCycle(g.edges) ==> r == Err(NotAcyclic)
    ensures r.Err? ==> r.error in {UnknownEffect(effect), NotAcyclic, EmptyGraph} || r.error.UnknownColumn?
    ensures r.Err? && r.error.UnknownColumn? ==> r.error.name in g.nodes && r.error.name !in columns
    ensures r.Ok? ==> LongestPathLayers(g, r.value.layering.layers)
    ensures r.Ok? ==> multiset(r.value.order) == multiset(g.nodes)
    ensures r.Ok? ==> SortedByKey(r.value.order, LayerKey(r.value.layering.layers))
    ensures r.Ok? ==> forall k: nat :: WithKey(r.value.order, LayerKey(r.value.layering.layers), k)
                                       == WithKey(g.nodes, LayerKey(r.value.layering.layers), k)
    ensures r.Ok? ==> |r.value.registrations| == |r.value.order|
    ensures r.Ok? ==> forall i | 0 <= i < |r.value.order| ::
      RegisteredAs(ParseEffect(effect).value, g, r.value.order[i], r.value.registrations[i])
    ensures r.Ok? ==> DeclaredBeforeUse(r.value.registrations)
  {
    var eff :- ParseEffect(effect);
    var layering :- GenerateLayers(g);
    var order := SortByKey(g.nodes, LayerKey(layering.layers));
    forall k: nat ensures WithKey(order, LayerKey(layering.layers), k) == WithKey(g.nodes, LayerKey(layering.layers), k) {
      SortKeepsClasses(g.nodes, LayerKey(layering.layers), k);
    }
    SameMembers(order, g.nodes);
    var regs :- RegisterNodes(g, layering.layers, eff, order, columns);
    RegistrationsDeclaredBeforeUse(g, eff, layering.layers, order, regs);
    return Ok(ScmModel(layering, order, regs));
  }

  /** In the built model every regression reads only registrations made before it. */
  lemma RegistrationsDeclaredBeforeUse(g: Graph, effect: Effect, layers: map<string, nat>,
                                       order: seq<string>, regs: seq<Registration>)
    requires WellFormed(g) && LongestPathLayers(g, layers)
    requires LayerOrder(g, layers, order)
    requires |regs| == |order|
    requires forall i | 0 <= i < |order| :: RegisteredAs(effect, g, order[i], regs[i])
    ensures DeclaredBeforeUse(regs)
  {
    forall i, j | 0 <= i < |regs| && regs[i].Observed? && 0 <= j < |regs[i].predictors|
      ensures exists k | 0 <= k < i :: Declares(regs[k], regs[i].predictors[j])
    {
      var p := Predecessors(g.edges, order[i])[j];
      assert p in Predecessors(g.edges, order[i]);
      PredecessorVisitedFirst(g, layers, effect, order, i, p);
      var k :| 0 <= k < i && order[..i][k] == p;
      assert Declares(regs[k], regs[i].predictors[j]);
    }
  }

  /** In total mode the observed nodes are exactly those above layer 0. */
  lemma TotalObservesAboveRoots(g: Graph, layers: map<string, nat>, v: string, reg: Registration)
    requires LongestPathLayers(g, layers) && v in layers
    requires RegisteredAs(Total, g, v, reg)
    ensures reg.Observed? <==> layers[v] > 0
  {
  }

  /** In direct mode every regression reads data containers only: a predecessor has an
      outgoing edge, so it is never observed. */
  lemma DirectReadsOnlyData(g: Graph, v: string, reg: Registration)
    requires RegisteredAs(Direct, g, v, reg) && reg.Observed?
    ensures forall j | 0 <= j < |reg.predictors| :: reg.predictors[j].DataOf?
  {
    forall j | 0 <= j < |reg.predictors| ensures reg.predictors[j].DataOf? {
      var p := Predecessors(g.edges, v)[j];
      assert p in Predecessors(g.edges, v);
      assert v in Successors(g.edges, p);
    }
  }

  // ---------------------------------------------------------------------
  // The PyMC variable names of a registration
  // ---------------------------------------------------------------------

  /** The suffixes of the per-node variable names other than the coefficient vector. */
  datatype NameKind = Alpha | Sigma | Obs | Data

  /** The word naming the parameter. */
  function ParameterWord(k: NameKind): string {
    match k
    case Alpha => "alpha"
    case Sigma => "sigma"
    case Obs => "obs"
    case Data => "data"
  }

  /** A space before the word, except the underscore of the data container. */
  function Separator(k: NameKind): char {
    if k == Data then '_' else ' '
  }

  function Suffix(k: NameKind): string {
    [Separator(k)] + ParameterWord(k)
  }

  /** `f"{node} alpha"`, `f"{node} sigma"`, `f"{node} obs"` and `f"{node}_data"`. */
  function VariableName(v: string, k: NameKind): string {
    v + Suffix(k)
  }

  /** `", ".join(f"{index}:{name}" ...)` over the predecessor names. */
  function PredecessorList(preds: seq<string>): string {
    Join(seq(|preds|, i requires 0 <= i < |preds| => DecimalString(i) + ":" + preds[i]), ", ")
  }

  /** `f"{node} beta * ({predecessor list})"`, the coefficient vector's name. */
  function BetaName(v: string, preds: seq<string>): string {
    v + " beta * (" + PredecessorList(preds) + ")"
  }

  /** The names of the predictors a regression reads, in order. */
  function PredictorNames(ps: seq<Predictor>): (r: seq<string>)
    ensures |r| == |ps| && forall i | 0 <= i < |ps| :: r[i] == ps[i].name
  {
    seq(|ps|, i requires 0 <= i < |ps| => ps[i].name)
  }

  /** The names of the variables one registration creates, in creation order: intercept,
      coefficient vector, noise scale and likelihood for an observed node, the data container
      otherwise. */
  function VariableNames(reg: Registration): (r: seq<string>)
    ensures reg.Observed? ==> r == [reg.node + " alpha",
                                    reg.node + " beta * (" + PredecessorList(PredictorNames(reg.predictors)) + ")",
                                    reg.node + " sigma",
                                    reg.node + " obs"]
    ensures reg.DataNode? ==> r == [reg.node + "_data"]
  {
    match reg
    case Observed(v, ps) =>
      SuffixSpelled(v);
      [VariableName(v, Alpha), BetaName(v, PredictorNames(ps)), VariableName(v, Sigma), VariableName(v, Obs)]
    case DataNode(v) =>
      SuffixSpelled(v);
      [VariableName(v, Data)]
  }

  /** Each suffixed name spelled out. */
  lemma SuffixSpelled(v: string)
    ensures VariableName(v, Alpha) == v + " alpha" && VariableName(v, Sigma) == v + " sigma"
    ensures VariableName(v, Obs) == v + " obs" && VariableName(v, Data) == v + "_data"
  {
  }

  /** A registration never creates the same name twice, as PyMC's unique-name rule needs. */
  lemma VariableNamesDistinct(reg: Registration)
    ensures Distinct(VariableNames(reg))
  {
    if reg.Observed? {
      var v := reg.node;
      var r := VariableNames(reg);
      var beta := BetaName(v, PredictorNames(reg.predictors));
      assert beta[|v| + 1] == 'b' by {
        assert beta == v + (" beta * (" + PredecessorList(PredictorNames(reg.predictors)) + ")");
      }
      forall k: NameKind ensures VariableName(v, k) != beta {
        assert VariableName(v, k)[|v| + 1] == ParameterWord(k)[0];
      }
      forall k: NameKind, l: NameKind | VariableName(v, k) == VariableName(v, l) ensures k == l {
        VariableNameInjective(v, k, v, l);
      }
      assert r == [VariableName(v, Alpha), beta, VariableName(v, Sigma), VariableName(v, Obs)];
    }
  }

  /** The next-to-last character of a name is that of its parameter word. */
  lemma NextToLast(v: string, k: NameKind)
    ensures |VariableName(v, k)| == |v| + 1 + |ParameterWord(k)|
    ensures VariableName(v, k)[|VariableName(v, k)| - 2] == ParameterWord(k)[|ParameterWord(k)| - 2]
  {
  }

  /** The four suffixed names never collide: the node and the kind can be read back from the
      name, as PyMC's unique-name rule needs. */
  lemma VariableNameInjective(u: string, k: NameKind, v: string, l: NameKind)
    requires VariableName(u, k) == VariableName(v, l)
    ensures u == v && k == l
  {
    NextToLast(u, k);
    NextToLast(v, l);
    assert k == l;
    assert u == VariableName(u, k)[..|u|];
  }
}
