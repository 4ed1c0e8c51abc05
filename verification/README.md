# Causal knowledge transfer for safe RL: a Dafny model of the graph and naming core

This project models the deterministic core of a small causal-discovery and
structural-causal-model toolkit for SUMO traffic experiments, and proves
properties of it in Dafny 4.11:

- **Edge-orientation refinement** (`causal_discovery.py`):
  - the prior-knowledge forbidden edges derived from the independent and outcome
    variables, and their conversion to column positions;
  - the per-edge orientation decision and the insertion-ordered confidence dict,
    where a later edge with the same preferred orientation overwrites an earlier one;
  - the role-driven revert rule of `adjust_edges`;
  - the rebuilt graph, which is rejected when it has a directed cycle;
  - the reversed mediator graph;
  - the role subset check of `run_causal_discovery`;
  - the green/red/yellow node classification used for drawing.
- **Structural causal model** (`CausalKnowledgeTransfer-4-SafeRL.py`):
  - `generate_scm_layers`: round-based longest-path layering of a DAG, written as
    a Dafny method with a loop invariant;
  - the graph logic of `generate_scm_effect_model`: the effect argument check, the
    stable sort of the nodes by layer, which nodes are observed and which become data
    containers, and which registered entry every predictor lookup reads;
  - the variable names the model creates;
  - the `abbreviate`/`process_name` renaming of `shorten_graph_nodes`.
- **SUMO environments** (`env/SumoEnvironmentGenerator.py`, `env/environment.py`):
  - the extra SUMO command line built from an insertion-ordered option dict;
  - the GUI, warning and CSV choices of the three generator environments;
  - the observation vector layout and the bounds of its declared `Box` space.

## Modules

- Wrappers: `Option`, `Result`, and the exceptions of the modelled code paths as an `Error` datatype.
- Graphs: edges, graphs, walks and cycles; the networkx-style graph operations. Acyclicity is decided by Kahn-style peeling and proved equivalent to the absence of a cycle.
- Roles: the forbidden edges and the name-to-position conversion.
- Orientation: the orientation decision and the confidence dict.
- Adjust: `adjust_edges` and `create_adjusted_graph`.
- Discovery: the pipeline composition, the mediator graph and the node colours.
- ScmLayers: `generate_scm_layers`.
- EffectModel: the node selection, the registration loop and the variable names.
- NodeNames: `abbreviate` and `process_name`.
- Text: the Python `str` operations the naming uses.
- SumoEnv: the SUMO command line, the environments and the observation layout.

External results enter as parameters:

- The PC learner's graph is a parameter `learned`.
- The two Spearman correlations of each edge come from a function `corr`.
- The simulator's per-lane readings are functions of the lane name.

Where the code and its documentation disagree, the model follows the code:

- `create_priori_knowledge` forbids every edge out of an outcome variable. Its docstring says only edges between outcome variables.
- `adjust_edges` reverts only suggestions that are not learner edges. A learner edge that breaks a role is kept (`Adjust.OriginalEdgeBreakingRoleIsKept`).
- An undirected learner edge whose two correlations tie in magnitude yields both directions after adjustment. The run then fails with the not-a-DAG error (`Discovery.UndirectedTieFails`).
- `generate_scm_layers` on a graph without nodes fails, because `max()` gets no values. This is modelled as `EmptyGraph`.
- `process_name` returns a name unchanged not only when it has no parts: `"a"` also comes back as `"a"`.

## Model

| member | source | states |
|---|---|---|
| Graphs.Predecessors | CausalKnowledgeTransfer-4-SafeRL.py:17 | `u` is listed exactly when `(u, v)` is an edge |
| Graphs.Successors | CausalKnowledgeTransfer-4-SafeRL.py:40-41 | `u` is listed exactly when `(v, u)` is an edge |
| Graphs.TwoCycle | causal_discovery.py:145 | an edge together with its reverse is a directed cycle |
| Graphs.AcyclicIffNoCycle | causal_discovery.py:145 | the DAG test succeeds exactly when the edges have no closed walk, self-loops and 2-cycles included |
| Graphs.NoSourceGivesCycle | causal_discovery.py:145 | a non-empty node set in which every node has a predecessor in the set contains a cycle |
| Graphs.AddNode | causal_discovery.py:144 | adding a node adds it once and leaves an existing node list unchanged |
| Graphs.AddEdge | causal_discovery.py:144 | adding an edge adds exactly that edge and its missing endpoints, and keeps the graph well formed |
| Graphs.AddEdges | causal_discovery.py:144 | after `add_edges_from`, the edges are the old ones plus the list; the nodes stay the same when every endpoint was already a node |
| Graphs.Reverse | causal_discovery.py:237 | same nodes; `e` is an edge exactly when its reverse was one |
| Graphs.RemoveNodes | causal_discovery.py:238 | the named nodes and every edge touching them are gone, everything else stays, unknown names are ignored |
| Graphs.ReversedCycle | causal_discovery.py:237 | a cycle of the reversed edges gives a cycle of the original edges |
| Roles.IntoVariable | causal_discovery.py:37-40 | the pairs `(c, v)` for every column `c` other than `v`, and nothing else |
| Roles.OutOfVariable | causal_discovery.py:43-46 | the pairs `(v, c)` for every column `c` other than `v`, and nothing else |
| Roles.IntoEach | causal_discovery.py:37-40 | into-edges of every independent variable from every other column, and nothing else |
| Roles.OutOfEach | causal_discovery.py:43-46 | out-edges of every outcome variable to every other column, and nothing else |
| Roles.ForbiddenEdges | causal_discovery.py:36-46 | an edge is listed exactly when it points into an independent or out of an outcome variable from or to another column; never a self-pair |
| Roles.IndexOf | causal_discovery.py:50 | for a column name that occurs once, its position; none when the name is not a column |
| Roles.ToIndexPairs | causal_discovery.py:49-52 | succeeds exactly when every endpoint is a column; then each pair holds the positions of the edge's names; otherwise the KeyError names a missing column |
| Roles.IndexPairsRoundTrip | causal_discovery.py:49-52 | reading the positions back as column names gives the edge list back |
| Roles.IndexPairsInjective | causal_discovery.py:49-52 | different edge lists never give the same position list |
| Roles.CreatePrioriKnowledge | causal_discovery.py:18-55 | the position list read back is exactly the forbidden-edge list |
| Roles.PrioriKnowledgeFailsIff | causal_discovery.py:36-52 | the conversion fails exactly when a role variable is missing from a non-empty column list |
| Roles.CheckRoles | causal_discovery.py:259-260 | passes exactly when every independent and outcome variable is a column; otherwise the configuration error |
| Roles.CheckedRolesConvert | causal_discovery.py:259-260 | after the role check passes, the forbidden-edge conversion cannot raise |
| Orientation.Orient | causal_discovery.py:85-89 | the confidence is the non-negative gap between the magnitudes, zero exactly on a tie, at most 1 for correlations; the edge is kept exactly when the source side is strictly stronger, otherwise reversed |
| Orientation.OrientBothDirections | causal_discovery.py:71-89 | both stored directions of one undirected pair get the same confidence, and prefer the same orientation exactly when the two correlation magnitudes differ; on a tie each keeps its own direction |
| Orientation.Get | causal_discovery.py:91 | a lookup finds a value exactly for the stored keys |
| Orientation.GetValue | causal_discovery.py:91 | the value found is the one stored with the first (in a dict, the only) entry for the key |
| Orientation.Put | causal_discovery.py:91 | dict assignment: the key maps to the new value, other keys keep theirs, an existing key keeps its position, a new key goes last |
| Orientation.ScoreEdges | causal_discovery.py:69-92 | the confidence dict has distinct keys and no more entries than edges |
| Orientation.ScoreKeys | causal_discovery.py:71-91 | the keys are exactly the preferred orientations of the edges |
| Orientation.ScoreKeysAreEdges | causal_discovery.py:86-91 | every key is a learner edge or its reverse |
| Orientation.ScoreLastWriterWins | causal_discovery.py:91 | the value under a key is the confidence of the last edge that preferred it |
| Orientation.UndirectedPairCollapses | causal_discovery.py:71-91 | an undirected pair without a tie leaves fewer entries than edges |
| Orientation.ScoreKeysKeepPosition | causal_discovery.py:91 | a key keeps the position of its first insertion: the keys after a prefix are a prefix of the final keys |
| Adjust.AdjustEdge | causal_discovery.py:119-127 | a learner edge is kept; a flipped edge is reverted exactly when it points into an independent or out of an outcome variable |
| Adjust.AdjustEdges | causal_discovery.py:116-129 | one edge per dict entry in dict order, each the key or its reverse under the revert rule |
| Adjust.AdjustIgnoresConfidence | causal_discovery.py:118 | dicts with the same keys adjust to the same edges whatever their values |
| Adjust.AdjustFixesOwnOutput | causal_discovery.py:122-125 | adjusting the output against itself changes nothing |
| Adjust.ScoredAdjustmentIsSafe | causal_discovery.py:122-125 | on the scorer's dict every adjusted edge is a learner edge or a flip that breaks no role |
| Adjust.AdjustedEndpoints | causal_discovery.py:118-127 | adjusted edges stay between the learner's nodes |
| Adjust.AdjustedAvoidsForbidden | causal_discovery.py:122-125 | when the learner avoids the forbidden edges, so do the adjusted edges |
| Adjust.KeptKeyIsAdjusted | causal_discovery.py:122 | a key that is a learner edge is among the adjusted edges |
| Adjust.TieKeepsBothDirections | causal_discovery.py:85-91 | a tied undirected pair leaves a 2-cycle among the adjusted edges |
| Adjust.OriginalEdgeBreakingRoleIsKept | causal_discovery.py:122-125 | an example: the learner edge C→A into independent A, scored as C→A, is kept although it breaks the role; `KeptKeyIsAdjusted` states the general case for every scored key that is a learner edge |
| Adjust.SameEdgesSameCycles | causal_discovery.py:144-145 | repeats and order of the adjusted edges do not affect the DAG test |
| Adjust.CreateAdjustedGraph | causal_discovery.py:142-147 | fails with the not-a-DAG error exactly when the adjusted edges have a cycle; otherwise a DAG over the learner's nodes whose edges are exactly the adjusted ones |
| Discovery.GenerateCausalGraph | causal_discovery.py:211-224 | a missing role column raises first; without adjustment the learner's graph comes back; with it, success exactly when the scored and adjusted edges have no cycle, and then a DAG over the same nodes whose edges are exactly the adjusted ones |
| Discovery.MediatorGraph | causal_discovery.py:237-239 | nodes are the input's minus the independent ones; `(u, v)` is an edge exactly when `(v, u)` was and neither is independent; a DAG stays a DAG |
| Discovery.ReversedSubgraphAcyclic | causal_discovery.py:237-238 | a graph whose edges are reversed input edges is acyclic when the input is |
| Discovery.RunCausalDiscovery | causal_discovery.py:259-265 | the configuration error exactly when a role variable is not a column; once the roles pass, success exactly when the adjusted edges have no cycle; on success a DAG over the learner's nodes with exactly the adjusted edges, and its mediator graph: every edge turned round, the independent variables removed |
| Discovery.RunResult | causal_discovery.py:263-265 | a completed run returns the learner's nodes with exactly the adjusted edges |
| Discovery.AvoidingForbiddenRespectsRoles | causal_discovery.py:36-46 | an acyclic graph over the columns that avoids the forbidden edges has no edge into an independent and none out of an outcome variable (acyclicity rules out the self-loops, which are never forbidden) |
| Discovery.RunRespectsRoles | causal_discovery.py:259-271 | for a learner that respects the prior knowledge, a completed run has no edge into an independent and none out of an outcome variable |
| Discovery.UndirectedTieFails | causal_discovery.py:219-222 | a tied undirected learner edge makes the run fail with the not-a-DAG error |
| Discovery.NodeColour | causal_discovery.py:166-168 | green exactly without incoming edges, red exactly with incoming and without outgoing edges, yellow otherwise |
| Discovery.RunColours | causal_discovery.py:165-170 | for a learner that respects the prior knowledge, a completed run draws the independent variables green and no outcome variable yellow |
| ScmLayers.AcyclicHasSource | CausalKnowledgeTransfer-4-SafeRL.py:22-27 | in a DAG, every non-empty node set has a node without a predecessor in the set |
| ScmLayers.RoundOf | CausalKnowledgeTransfer-4-SafeRL.py:23-24 | a round holds exactly the unvisited nodes whose predecessors are all visited |
| ScmLayers.RoundProgress | CausalKnowledgeTransfer-4-SafeRL.py:22-27 | in a DAG a round is never empty while nodes remain, so the loop terminates |
| ScmLayers.RoundStep | CausalKnowledgeTransfer-4-SafeRL.py:23-28 | one round preserves the layering invariant |
| ScmLayers.RoundAdvances | CausalKnowledgeTransfer-4-SafeRL.py:22-28 | one loop iteration preserves the invariant and visits at least one more node |
| ScmLayers.RoundStart | CausalKnowledgeTransfer-4-SafeRL.py:16-21 | the start state (roots visited at layer 0, next layer 1) satisfies the invariant |
| ScmLayers.RoundFinish | CausalKnowledgeTransfer-4-SafeRL.py:22-29 | when every node is visited, the layers are the longest-path layers |
| ScmLayers.AssignLayers | CausalKnowledgeTransfer-4-SafeRL.py:21-28 | on a DAG the loop gives layer 0 exactly to the nodes without predecessors and every other node one more than its highest predecessor |
| ScmLayers.GenerateLayers | CausalKnowledgeTransfer-4-SafeRL.py:14-29 | fails exactly on a graph with a cycle or without nodes; otherwise the longest-path layers and exactly the graph's predecessor lists |
| EffectModel.ParseEffect | CausalKnowledgeTransfer-4-SafeRL.py:36-37 | accepts exactly `'total'` and `'direct'` and rejects anything else with its name |
| EffectModel.ParseEffectName | CausalKnowledgeTransfer-4-SafeRL.py:36-37 | the effect names parse back to their effects |
| EffectModel.InsertByKey | CausalKnowledgeTransfer-4-SafeRL.py:47 | insertion adds exactly the one element |
| EffectModel.InsertKeepsSorted | CausalKnowledgeTransfer-4-SafeRL.py:47 | insertion keeps a sequence sorted by layer |
| EffectModel.SortByKey | CausalKnowledgeTransfer-4-SafeRL.py:47 | `sorted(..., key=...)` is a permutation sorted by the key |
| EffectModel.InsertClass | CausalKnowledgeTransfer-4-SafeRL.py:47 | an inserted element goes in front of the other elements of its key, and the others keep their order |
| EffectModel.SortKeepsClasses | CausalKnowledgeTransfer-4-SafeRL.py:47 | the sort is stable: elements of one layer keep their relative order |
| EffectModel.SmallerKeyEarlier | CausalKnowledgeTransfer-4-SafeRL.py:47 | in the sorted order, an element with a smaller layer comes earlier |
| EffectModel.PredecessorVisitedFirst | CausalKnowledgeTransfer-4-SafeRL.py:47-63 | a predecessor is visited before its successor, and it is observed exactly in total mode above layer 0 |
| EffectModel.LookupFinds | CausalKnowledgeTransfer-4-SafeRL.py:62-65 | each predictor lookup finds an entry in `obs` or `independent_data`, whichever the source reads |
| EffectModel.ReadPredictors | CausalKnowledgeTransfer-4-SafeRL.py:61-66 | one predictor per predecessor in predecessor order, each read where the source reads it |
| EffectModel.RegistryAdd | CausalKnowledgeTransfer-4-SafeRL.py:68-71 | registering a node adds it to exactly one of the two dicts |
| EffectModel.RegisterNode | CausalKnowledgeTransfer-4-SafeRL.py:48-71 | a node with a predecessor in total mode, or an outcome in direct mode, is observed; every other node is data; the dicts stay in step |
| EffectModel.RegisterNodes | CausalKnowledgeTransfer-4-SafeRL.py:47-71 | fails exactly when a node is not a data column; otherwise one registration per node, in order, each as promised |
| EffectModel.BuildEffectModel | CausalKnowledgeTransfer-4-SafeRL.py:32-72 | the effect check first, then the DAG assertion, then layering; on success a stable layer order of the nodes, one registration per node, every lookup already registered |
| EffectModel.RegistrationsDeclaredBeforeUse | CausalKnowledgeTransfer-4-SafeRL.py:61-65 | every predictor a regression reads was registered earlier, with the matching kind |
| EffectModel.TotalObservesAboveRoots | CausalKnowledgeTransfer-4-SafeRL.py:48 | in total mode a node is observed exactly when its layer is above 0 |
| EffectModel.DirectReadsOnlyData | CausalKnowledgeTransfer-4-SafeRL.py:62-65 | in direct mode every regression reads data containers only |
| EffectModel.VariableNames | CausalKnowledgeTransfer-4-SafeRL.py:51-71 | an observed node creates `v alpha`, `v beta * (0:p0, 1:p1, …)` over its predictor names, `v sigma` and `v obs`, in that order; a data node the one `v_data` container |
| EffectModel.VariableNamesDistinct | CausalKnowledgeTransfer-4-SafeRL.py:51-71 | one registration never creates the same variable name twice |
| EffectModel.VariableNameInjective | CausalKnowledgeTransfer-4-SafeRL.py:51-71 | the alpha, sigma, obs and data names never collide: node and kind can be read back |
| NodeNames.Lower | CausalKnowledgeTransfer-4-SafeRL.py:82 | a capital maps to the same letter in lower case; every other character is unchanged |
| NodeNames.Uppers | CausalKnowledgeTransfer-4-SafeRL.py:83-85 | a character is kept exactly when it is a capital of the input |
| NodeNames.UppersConcat | CausalKnowledgeTransfer-4-SafeRL.py:83-85 | capitals are kept where they stand: the capitals of a concatenation are those of each side, in order |
| NodeNames.Abbreviate | CausalKnowledgeTransfer-4-SafeRL.py:78-86 | empty exactly for an empty name; otherwise the lowered first character followed by exactly the capitals of the rest |
| NodeNames.AbbreviateAppend | CausalKnowledgeTransfer-4-SafeRL.py:78-86 | extending a name extends its abbreviation by the capitals of the extension, in order |
| NodeNames.UppersOfUppers | CausalKnowledgeTransfer-4-SafeRL.py:83-85 | an all-upper-case string keeps every character |
| NodeNames.AbbreviateIdempotent | CausalKnowledgeTransfer-4-SafeRL.py:78-86 | abbreviating an abbreviation changes nothing |
| NodeNames.Symbol | CausalKnowledgeTransfer-4-SafeRL.py:105-112 | a symbol exactly for alpha, beta, sigma, obs and data: α, β*, σ, and obs and data themselves |
| NodeNames.Suffixes | CausalKnowledgeTransfer-4-SafeRL.py:102-113 | at most one symbol per part, each one of the five display forms |
| NodeNames.SuffixesSingle | CausalKnowledgeTransfer-4-SafeRL.py:104-113 | one part contributes its symbol when it has one and nothing otherwise |
| NodeNames.SuffixesConcat | CausalKnowledgeTransfer-4-SafeRL.py:102-113 | parts are handled one by one in order: the suffixes of a concatenation are those of each side |
| NodeNames.Clean | CausalKnowledgeTransfer-4-SafeRL.py:91 | no `*`, no whitespace at either end, empty exactly when the text before the first `*` is blank, and the trimmed name itself when there is no `*` |
| NodeNames.CleanAtFirstStar | CausalKnowledgeTransfer-4-SafeRL.py:91 | for any name `a*b` with no `*` in `a`, the cleaned name is `a` trimmed |
| NodeNames.Parts | CausalKnowledgeTransfer-4-SafeRL.py:92 | with an underscore, the `_`-split pieces (underscore-free, joining back to the name); without one, the whitespace split, whose words hold exactly the name's non-space characters; no parts exactly for a blank name |
| NodeNames.ProcessName | CausalKnowledgeTransfer-4-SafeRL.py:88-115 | a name without parts comes back unchanged; otherwise the abbreviation of the first part and the symbols of the recognised later parts, joined by single spaces; when the abbreviation is a word the result splits back into exactly those components |
| NodeNames.NoPartsIff | CausalKnowledgeTransfer-4-SafeRL.py:91-95 | the early return happens exactly when the text before the first `*` is blank |
| NodeNames.BlankNameUnchanged | CausalKnowledgeTransfer-4-SafeRL.py:94-95 | a blank name before the first `*` comes back unchanged |
| NodeNames.SingleLetterUnchanged | CausalKnowledgeTransfer-4-SafeRL.py:88-115 | `"a"` has one part and still comes back unchanged |
| NodeNames.PartsOfSpaced | CausalKnowledgeTransfer-4-SafeRL.py:92 | a plain name, a space and a plain word split into those two parts |
| NodeNames.UnderscoredParts | CausalKnowledgeTransfer-4-SafeRL.py:92 | a plain name, `_` and a plain word split into those two parts |
| NodeNames.ShortenSpaced | CausalKnowledgeTransfer-4-SafeRL.py:88-115 | `node word` shortens to the abbreviation, a space and the word's symbol |
| NodeNames.ShortenSpacedStar | CausalKnowledgeTransfer-4-SafeRL.py:91 | anything from ` *` on is cut before shortening |
| NodeNames.ShortenUnderscored | CausalKnowledgeTransfer-4-SafeRL.py:92 | `node_word` shortens like `node word` |
| NodeNames.ShortenVariableName | CausalKnowledgeTransfer-4-SafeRL.py:118 | for a plain node name (non-empty, no whitespace, `_` or `*`), the alpha, sigma, obs and data names shorten to the abbreviated node and the parameter's symbol |
| NodeNames.ShortenBetaName | CausalKnowledgeTransfer-4-SafeRL.py:118 | for a plain node name (non-empty, no whitespace, `_` or `*`), the coefficient vector's name shortens to the abbreviated node and `β*`, whatever the predecessor list |
| Text.SplitOn | CausalKnowledgeTransfer-4-SafeRL.py:91-92 | at least one piece, none containing the separator |
| Text.SplitJoin | CausalKnowledgeTransfer-4-SafeRL.py:91-92 | joining the pieces with the separator gives the string back |
| Text.JoinSplit | CausalKnowledgeTransfer-4-SafeRL.py:91-92 | splitting a join of separator-free pieces gives the pieces back |
| Text.Strip | CausalKnowledgeTransfer-4-SafeRL.py:91 | the middle slice that neither starts nor ends with whitespace, empty exactly for a blank string |
| Text.StripIdempotent | CausalKnowledgeTransfer-4-SafeRL.py:91 | stripping twice is stripping once |
| Text.SplitWords | CausalKnowledgeTransfer-4-SafeRL.py:92 | non-empty whitespace-free words that, written one after another, are exactly the non-space characters of the input |
| Text.SplitWordsAppend | CausalKnowledgeTransfer-4-SafeRL.py:92 | no word runs across whitespace: splitting a concatenation that meets at whitespace splits each side |
| Text.SplitWordsEmpty | CausalKnowledgeTransfer-4-SafeRL.py:92 | no words exactly for a whitespace-only string |
| Text.JoinSplitWords | CausalKnowledgeTransfer-4-SafeRL.py:115 | splitting a space-join of words gives the words back |
| Text.DecimalString | CausalKnowledgeTransfer-4-SafeRL.py:54 | `str(n)` is a non-empty digit string without a leading zero |
| Text.DecimalRoundTrip | CausalKnowledgeTransfer-4-SafeRL.py:54 | the digits read back give the number |
| SumoEnv.CommandOptions | env/SumoEnvironmentGenerator.py:37-41 | the configuration file first; for a non-empty prefix the output prefix with `_`, then statistics.xml and collisions.xml; keys distinct |
| SumoEnv.RenderTokens | env/SumoEnvironmentGenerator.py:42 | writing each option as `key value` and joining with spaces equals joining all keys and values with spaces |
| SumoEnv.SumoCommand | env/SumoEnvironmentGenerator.py:37-42 | the command is the configuration option, then the three output options in order exactly for a non-empty prefix, as single-space-separated tokens |
| SumoEnv.CommandOptionTokens | env/SumoEnvironmentGenerator.py:42 | writing each option as `key value` and joining them with spaces gives the option tokens in order |
| SumoEnv.NoPrefixIsPlainCommand | env/environment.py:75 | without a prefix the command equals `--configuration-file <file>` |
| SumoEnv.SumoCommandSplits | env/SumoEnvironmentGenerator.py:42 | for a file name and prefix without whitespace, a whitespace split gives back exactly the option tokens |
| SumoEnv.PrefixedCommandLonger | env/SumoEnvironmentGenerator.py:38-42 | a prefixed command is longer than the plain one |
| SumoEnv.GetEnvironment | env/SumoEnvironmentGenerator.py:34-62 | warnings follow the GUI; step, yellow and minimum green times are 5, 2 and 5 |
| SumoEnv.EnvironmentChoices | env/SumoEnvironmentGenerator.py:15-24 | only the demonstration environment uses the GUI; only training writes the CSV; only generation with a non-empty prefix adds output options |
| SumoEnv.PhaseOneHot | env/SumoEnvironmentGenerator.py:70 | one entry per green phase, 1 exactly at the current phase, 0 elsewhere |
| SumoEnv.OneHotSum | env/environment.py:21 | the encoding sums to 1 when the phase is in range and to 0 otherwise |
| SumoEnv.MinGreenFlag | env/SumoEnvironmentGenerator.py:71 | 0 exactly while the time since the last change is below minimum green plus yellow, else 1 |
| SumoEnv.MinGreenFlagMonotone | env/environment.py:22 | the flag never drops back to 0 as time passes |
| SumoEnv.Observation | env/environment.py:19-26 | the phase one-hot block, the min-green flag, then the densities and the queues at fixed offsets |
| SumoEnv.FrictionObservation | env/SumoEnvironmentGenerator.py:69-78 | the base observation first, then one friction and one mean speed per lane at fixed offsets |
| SumoEnv.ObservationSpace | env/SumoEnvironmentGenerator.py:80-86 | low and high vectors of length phases + 1 + blocks x lanes, all zeros and all ones |
| SumoEnv.ObservationMatchesSpace | env/environment.py:19-35 | the two-block observation fits its space exactly when densities and queues number two per lane; phase and flag entries lie within the bounds |
| SumoEnv.FrictionObservationMatchesSpace | env/SumoEnvironmentGenerator.py:69-86 | the four-block observation fits its space exactly when densities and queues give two per lane |

## Left out

- The PC learner (`castle`'s `PC`, `causal_matrix`, `relabel_nodes` at line 217): an external library. Its graph is the parameter `learned`.
- Regression, residuals and Spearman correlations: floating-point library numerics. Each edge's two correlations come from the parameter `corr`.
- PyMC priors, standardisation, likelihoods and sampling: a foreign library. Only which nodes are observed, which are data, and which registered entry each predictor reads are modelled.
- Plotting (`visualize_causal_graph`, `visualize_scm_model`, `nx.draw`): only the colour classification and the node renaming are modelled.
- `read_data` and all file I/O: the column list is a parameter, and the role check runs on it.
- `nx.relabel_nodes` in `shorten_graph_nodes`: only the per-name rewrite `process_name` is modelled.
- `main()`, the module-level script code, and the other environment scripts (trace generation, observation generation, training, DQN): I/O, subprocesses, random sampling and simulation loops.
- The reward functions and the remaining `SumoEnvironment` constructor arguments: floating-point simulator state and a thin wrapper over `sumo_rl`.
- The `float32` array conversion of the observation: entries are `real`s, without rounding.
- Graphs.AddEdges: states the node and edge sets, not networkx's adjacency order of `edges()`.
- Orientation.ScoreEdges: states only distinct keys and the size bound; the keys, the values and their positions are stated by `ScoreKeys`, `ScoreLastWriterWins` and `ScoreKeysKeepPosition`.
- SumoEnv.SumoCommandSplits: requires a file name and a prefix without whitespace. Otherwise SUMO would read the command as different tokens.
- SumoEnv.GetEnvironment: does not state the command field itself; `EnvironmentChoices` and `SumoCommand` do.
- NodeNames.Lower: maps ASCII letters only; Python's `lower()` also lowers capitals of other scripts.
- NodeNames.Uppers: keeps ASCII capitals only; Python's `isupper()` also accepts capitals of other scripts, which this member drops.
- NodeNames.Abbreviate: inherits the ASCII-only scope of `Lower` and `Uppers` for the first character and the kept capitals.
- Roles.IndexOf: assumes each column name occurs once. For a repeated name, pandas `get_loc` returns a slice or a boolean mask rather than a position. The model takes the first position, so data frames with repeated column names are outside the model.
