# Microgrid component model, in Dafny

This project models the core of a microgrid SDK's component layer:

- **Component metadata.** Categories, inverter types, grid metadata, the frozen component record, and the total mappings from protocol codes to these.
  - Sensors are refused.
  - Unknown category codes become `NONE`.
  - A type is kept only for inverters.
- **The `Fuse` value.** It holds three per-phase rated currents and hashes by them.
- **Grid-connection initialisation.** The source keeps the grid connection in a module-level variable that every successful call with a grid reassigns. Here that variable is an explicit state that `Initialize` takes and returns.
- **The component graph.** The graph supports these operations:
  - filtered queries over components and connections;
  - predecessor and successor look-ups;
  - the five validation rules;
  - construction and `refresh_from`, which replace the graph's contents wholesale or not at all;
  - the built-in correction that adds the implicit grid with id 0;
  - the pruning depth-first search.
- **The producer-power formula.** It is generated from the graph. The formula builder is modelled by the sequence of tokens it receives.

The graph module itself is not part of this model. Its behaviour is taken from its tests in `tests/microgrid/test_graph.py`. In the model, a graph is a set of components and a set of connections. As in the graph library the source builds on, the nodes are the component ids together with every connection endpoint. An endpoint that no component defines is a node without data.

Each check has two forms: a computable `Validate…` function, and a declarative predicate such as `IsAcyclicGraphData` or `HasSingleRoot`, stated element-wise. The two are proved equivalent in both directions. Acyclicity is decided by repeatedly peeling off nodes without predecessors. `Cycles.AcyclicIffNoCycle` proves that this peeling accepts a graph exactly when no closed walk exists.

Modules:

| module | file | contents |
|---|---|---|
| `Wrappers` | `wrappers.dfy` | `Option`, `Result`, `Outcome` |
| `Sets` | `sets.dfy` | small set and sequence facts used by the proofs |
| `Connections` | `connections.dfy` | a connection between two component ids |
| `Fuses` | `fuse.dfy` | the fuse value |
| `Components` | `component.dfy` | categories, types, metadata, components, metric ids |
| `GridConnections` | `grid_connection.dfy` | initialisation of the grid connection |
| `Cycles` | `cycles.dfy` | acyclicity: the decision procedure and its correctness |
| `ComponentGraphs` | `graph.dfy` | queries, validation, refresh, correction, search |
| `ProducerPowerFormula` | `producer_power.dfy` | candidates, token generation, shape of the formula |

## Model

| member | source | states |
|---|---|---|
| Components.CategoryWithCode | src/frequenz/sdk/microgrid/component/_component.py:67-80 | a category is found exactly when some enum member has the code, and its value is that code |
| Components.CategoryFromProtobuf | src/frequenz/sdk/microgrid/component/_component.py:83-107 | it fails exactly on the sensor code; a code of no member becomes `NONE`; any other code gives the member with that value |
| Components.CategoryRoundTrip | src/frequenz/sdk/microgrid/component/_component.py:67-107 | every category, `PV_ARRAY` included, converts back to itself from its own value |
| Components.UnknownCodeIsUnspecified | src/frequenz/sdk/microgrid/component/_component.py:101-105 | a non-sensor code that belongs to no category yields `NONE` and never an error |
| Components.InverterTypeWithCode | src/frequenz/sdk/microgrid/component/_component.py:24-30 | an inverter type is found exactly when some member has the code, and its value is that code |
| Components.InverterTypeFromProtobuf | src/frequenz/sdk/microgrid/component/_component.py:33-64 | a non-inverter never gets a type; an inverter gets the type whose value is the metadata's type, or none when no type has it |
| Components.MetadataFromProtobuf | src/frequenz/sdk/microgrid/component/_component.py:162-169 | metadata exists exactly for the grid category, and its maximum current is the rated fuse current |
| Components.Component.IsValid | src/frequenz/sdk/microgrid/component/_component.py:181-190 | the validity rule of a component: a positive id with a category of the enumeration, or id 0 with the grid category |
| Components.GridMetadataEquals | src/frequenz/sdk/microgrid/component/_component.py:130-142 | grid metadata equals another value exactly when that value is grid metadata with the same maximum current |
| Components.GridMetadataHash | src/frequenz/sdk/microgrid/component/_component.py:144-150 | grid metadata hashes as the runtime's hash of its maximum current alone |
| Components.GridMetadataEqualityLaws | src/frequenz/sdk/microgrid/component/_component.py:130-150 | grid-metadata equality is an equivalence; it is false against non-grid metadata; equal values hash alike |
| Components.ValidityById | src/frequenz/sdk/microgrid/component/_component.py:181-190 | negative ids are invalid; id 0 is valid only for the grid; a positive id is valid exactly for a known category |
| Fuses.Hash | src/frequenz/sdk/microgrid/fuse.py:25-29 | a fuse hashes as the runtime's hash of the triple of its three currents in phase order |
| Fuses.EqualIffSameCurrents | src/frequenz/sdk/microgrid/fuse.py:11-23 | two fuses are equal exactly when their currents agree phase by phase, as for a frozen dataclass |
| Fuses.HashAgreesWithEquality | src/frequenz/sdk/microgrid/fuse.py:11-29 | fuses that agree on the three currents are equal and hash alike, whatever the runtime's tuple hash |
| GridConnections.GridComponents | src/frequenz/sdk/microgrid/grid_connection.py:46-52 | the result holds exactly the grid components of the list and is no longer than it |
| GridConnections.GridComponentsKeepMultiplicity | src/frequenz/sdk/microgrid/grid_connection.py:46-52 | every grid occurs among the grid components exactly as often as in the list, and no other component occurs |
| GridConnections.Initialize | src/frequenz/sdk/microgrid/grid_connection.py:34-71 | a failure leaves the stored value unchanged; no grid passes without touching it; several grids fail with their count; one grid without metadata, with non-grid metadata or without a fuse fails with that reason; one grid whose metadata has a fuse passes and stores that fuse; a pass with a grid happens only in that last case |
| GridConnections.RepeatedGridIsMultiple | src/frequenz/sdk/microgrid/grid_connection.py:46-61 | the same grid listed twice fails as two grid connections |
| GridConnections.Get | src/frequenz/sdk/microgrid/grid_connection.py:74-83 | the stored grid connection, none when nothing was ever stored |
| GridConnections.GetAfterInitialize | src/frequenz/sdk/microgrid/grid_connection.py:34-83 | after an initialisation `get` returns the single grid's fuse when the call succeeded with one grid, and otherwise the value stored before, so a later success replaces an earlier one |
| GridConnections.OnlyGridsMatter | src/frequenz/sdk/microgrid/grid_connection.py:46-52 | component lists with the same grid components initialise identically |
| GridConnections.NonGridComponentIsIgnored | src/frequenz/sdk/microgrid/grid_connection.py:46-52 | inserting a non-grid component anywhere does not change the outcome |
| GridConnections.SingleGridStoresUniformFuse | src/frequenz/sdk/microgrid/grid_connection.py:63-71 | a single grid built from a maximum current stores a fuse with that current on every phase |
| GridConnections.InitializeScenario | tests/microgrid/test_grid_connection.py:15-63 | an islanded list leaves nothing stored; two grids fail and leave nothing stored; one grid at 123 A stores a 123 A fuse on every phase |
| Cycles.Residue | tests/microgrid/test_graph.py:938-987 | what peeling leaves is a subset of the nodes without any source |
| Cycles.AcyclicIffNoCycle | tests/microgrid/test_graph.py:938-987 | peeling removes every node exactly when no closed walk through the nodes exists |
| ComponentGraphs.FilterComponents | tests/microgrid/test_graph.py:183-311 | a component is returned exactly when it is in the graph, its id is among the given ids (if any) and its category among the given categories (if any) |
| ComponentGraphs.ComponentFilterLaws | tests/microgrid/test_graph.py:183-311 | the two filters combine by intersection; no filter returns every component; ids that name no component are ignored |
| ComponentGraphs.FilterConnections | tests/microgrid/test_graph.py:313-409 | a connection is returned exactly when its start is among the given starts (if any) and its end among the given ends (if any) |
| ComponentGraphs.ConnectionFilterLaws | tests/microgrid/test_graph.py:313-409 | start and end filters combine by intersection, and no filter returns every connection |
| ComponentGraphs.Predecessors | tests/microgrid/test_graph.py:31-54 | a key error exactly for an id that is not a node; otherwise exactly the components connected into the id |
| ComponentGraphs.Successors | tests/microgrid/test_graph.py:97-181 | a key error exactly for an id that is not a node; otherwise exactly the components connected out of the id |
| ComponentGraphs.PredecessorSuccessorDuality | tests/microgrid/test_graph.py:31-54 | `a` succeeds `b` exactly when `b` precedes `a` |
| ComponentGraphs.ValidateGraph | tests/microgrid/test_graph.py:938-987 | it passes exactly when there are components and connections, no cycle, every connection endpoint is a component, and every component is connected; otherwise it reports the first failing condition in that order: no components, no connections, not a tree, the set of undefined endpoints, the set of unconnected components |
| ComponentGraphs.ValidateGraphRoot | tests/microgrid/test_graph.py:988-1108 | it passes exactly when there is a single valid root (no predecessors, category `NONE` or `GRID`) and it has successors; otherwise it reports no valid root, the set of several roots, or the single root without successors |
| ComponentGraphs.ValidateGridEndpoint | tests/microgrid/test_graph.py:1110-1177 | it passes exactly when there is at most one grid, without predecessors and with successors; no grid passes; otherwise it reports the set of several grids, or the single grid's id together with exactly its predecessors, or its id when it has no successors |
| ComponentGraphs.ValidateIntermediaryComponents | tests/microgrid/test_graph.py:1179-1230 | it passes exactly when every inverter has a predecessor; otherwise the error names exactly the inverters without predecessors |
| ComponentGraphs.ValidateLeafComponents | tests/microgrid/test_graph.py:1232-1319 | it passes exactly when every battery, EV charger and PV array has a predecessor and no successor; leaves without predecessors are reported first, naming exactly those; otherwise the error names exactly the leaves with successors |
| ComponentGraphs.Validate | tests/microgrid/test_graph.py:870-937 | it passes exactly when all five rules hold; otherwise it reports the error of the first failing rule in the order graph data, root, grid endpoint, intermediaries, leaves |
| ComponentGraphs.CorrectGraphErrors | tests/microgrid/test_graph.py:1321-1393 | connections are kept and no component is lost; the graph changes exactly when there is no grid, some connection starts at 0, and the implicit grid is absent; then only that grid is added |
| ComponentGraphs.CorrectionIsIdempotent | tests/microgrid/test_graph.py:1321-1393 | correcting a corrected graph changes nothing |
| ComponentGraphs.RefreshFrom | tests/microgrid/test_graph.py:606-765 | a failure keeps the old contents; a pass stores a well-formed graph from non-empty, valid input, and without a correction it stores the input itself |
| ComponentGraphs.Populate | tests/microgrid/test_graph.py:1321-1393 | a correction is applied only to data that does not validate; what is stored validates; a failure keeps the old contents |
| ComponentGraphs.RefreshAcceptsWellFormedInput | tests/microgrid/test_graph.py:672-765 | valid, well-formed input is stored as given, with or without a correction |
| ComponentGraphs.RefreshRefusesDanglingEndpoint | tests/microgrid/test_graph.py:585-594 | a connection to an id no component has is refused, and the old contents stay |
| ComponentGraphs.RefreshWithCorrection | tests/microgrid/test_graph.py:1321-1393 | with the built-in correction, what is stored is the input plus possibly the implicit grid |
| ComponentGraphs.RefreshStoresCorrection | tests/microgrid/test_graph.py:1380-1393 | data that the correction turns into a well-formed graph is stored corrected |
| ComponentGraphs.RefreshReportsValidationError | tests/microgrid/test_graph.py:606-765 | valid input that fails validation, and that the correction leaves alone, is refused with the validation error, and the old contents stay |
| ComponentGraphs.SingleConnectionIsAcyclic | tests/microgrid/test_graph.py:938-987 | one connection between two distinct ids closes no cycle |
| ComponentGraphs.UndefinedFeederIsMissing | tests/microgrid/test_graph.py:1348-1378 | a meter fed by an undefined id fails the graph-data rule, and the error names exactly that id |
| ComponentGraphs.GridAndMeterIsWellFormed | tests/microgrid/test_graph.py:557-573 | a grid feeding a single meter satisfies every validation rule |
| ComponentGraphs.CorrectionLeavesGoodDataAlone | tests/microgrid/test_graph.py:1332-1346 | valid data refreshed with the correction is stored unchanged |
| ComponentGraphs.UncorrectableDataIsRefused | tests/microgrid/test_graph.py:1348-1361 | a meter fed by an undefined id 3 is refused even with the correction, and the old contents stay |
| ComponentGraphs.ImplicitGridIsRefused | tests/microgrid/test_graph.py:1363-1378 | a meter fed by id 0 is refused without the correction, and the old contents stay |
| ComponentGraphs.ImplicitGridIsAdded | tests/microgrid/test_graph.py:1380-1393 | the correction adds `Component(0, GRID)` to a meter fed by id 0 |
| ComponentGraphs.ImplicitGridIsCorrected | tests/microgrid/test_graph.py:1380-1393 | with the correction, the meter fed by id 0 is stored together with the grid 0 |
| ComponentGraphs.EmptyAndPartialConstruction | tests/microgrid/test_graph.py:530-549 | the empty graph does not validate, and components alone or connections alone are refused |
| ComponentGraphs.NewComponentGraph | tests/microgrid/test_graph.py:530-604 | no arguments give the empty graph; a missing or empty argument is refused; a built graph is the input and is well formed |
| ComponentGraphs.NewGraphOfWellFormedData | tests/microgrid/test_graph.py:557-573 | valid, well-formed data builds exactly that graph |
| ComponentGraphs.NewGraphRefusesInvalidData | tests/microgrid/test_graph.py:574-604 | an invalid component or connection makes construction fail |
| ComponentGraphs.NewGraphRefusesDanglingEndpoint | tests/microgrid/test_graph.py:585-594 | a connection to an undefined id makes construction fail |
| ComponentGraphs.GridAndMeterConstruction | tests/microgrid/test_graph.py:557-573 | the grid-and-meter data builds exactly that graph |
| ComponentGraphs.UnknownCategoryConstruction | tests/microgrid/test_graph.py:574-583 | a component of category 666 makes construction fail |
| ComponentGraphs.DanglingConnectionConstruction | tests/microgrid/test_graph.py:585-594 | a connection to the undefined id 3 makes construction fail |
| ComponentGraphs.SelfLoopConstruction | tests/microgrid/test_graph.py:596-604 | the self-loop `Connection(2, 2)` makes construction fail |
| ComponentGraphs.PrependToSearchPath | tests/microgrid/test_graph.py:490-519 | a search walk extends backwards through an unvisited non-match |
| ComponentGraphs.SearchPathsStayVisited | tests/microgrid/test_graph.py:490-519 | when visited non-matches had all their successors visited, every search walk from a visited node ends at a visited node |
| ComponentGraphs.Search | tests/microgrid/test_graph.py:411-519 | the visited set grows by the start; the result is exactly the newly visited matches; every newly visited node is reached by a walk through non-matches; newly visited non-matches have all their successors visited |
| ComponentGraphs.Dfs | tests/microgrid/test_graph.py:411-519 | a key error exactly for an unvisited non-match outside the graph; a visited start gives nothing; a matching start gives itself; otherwise a component is returned exactly when it matches and a walk from the start reaches it through unvisited non-matches only; the visited set afterwards holds exactly what was visited before plus every node such a walk reaches, and on a key error it gains the start |
| ProducerPowerFormula.Candidates | src/frequenz/sdk/timeseries/_formula_engine/_formula_generators/_producer_power_formula.py:38-46 | without exactly one grid successor the candidates are the grid's successors; a single non-meter successor is an error; a single meter gives exactly the meter's successors, or a lookup error |
| ProducerPowerFormula.Producers | src/frequenz/sdk/timeseries/_formula_engine/_formula_generators/_producer_power_formula.py:48-53 | a visited candidate is included exactly when it is a CHP chain or a PV chain |
| ProducerPowerFormula.Joined | src/frequenz/sdk/timeseries/_formula_engine/_formula_generators/_producer_power_formula.py:48-62 | k included components give 2k−1 tokens |
| ProducerPowerFormula.FormulaTokens | src/frequenz/sdk/timeseries/_formula_engine/_formula_generators/_producer_power_formula.py:64-67 | the formula is never empty |
| ProducerPowerFormula.JoinedShape | src/frequenz/sdk/timeseries/_formula_engine/_formula_generators/_producer_power_formula.py:48-62 | pushes sit at even positions, the i-th one reading the i-th included component's id, with missing values counting as zero exactly when it is not a meter; every odd position is a "+"; so there is no leading or trailing "+" |
| ProducerPowerFormula.PushedIds | src/frequenz/sdk/timeseries/_formula_engine/_formula_generators/_producer_power_formula.py:48-67 | a component id is pushed exactly when an included component has it |
| ProducerPowerFormula.ProducersAreDistinct | src/frequenz/sdk/timeseries/_formula_engine/_formula_generators/_producer_power_formula.py:48-62 | a duplicate-free visiting order includes each candidate at most once |
| ProducerPowerFormula.PushProducers | src/frequenz/sdk/timeseries/_formula_engine/_formula_generators/_producer_power_formula.py:48-67 | every candidate is visited exactly once, and the tokens are those of the included candidates in visiting order, or the placeholder when none is included |
| ProducerPowerFormula.Generate | src/frequenz/sdk/timeseries/_formula_engine/_formula_generators/_producer_power_formula.py:22-69 | a failed grid-successor lookup raises `ComponentNotFound`; otherwise it fails exactly when the candidate lookup fails, with that error; otherwise every candidate is visited once and the formula is "producer_power" over active power, with the tokens of the included candidates in visiting order (the placeholder when none is included) |

## Left out

- I/O and protocol decoding are left out. The protocol messages are reduced to the integer codes the conversions read. The codes are stand-ins, distinct from each other, because the protocol's constants are not part of this model.
- `NON_EXISTING_COMPONENT_ID` is modelled as the `NonExistingComponent` reference, because its value is defined in a file that is not part of this model.
- Runtime hashes are parameters of `Fuses.Hash` and `Components.GridMetadataHash`. Currents are `real` rather than floating point.
- `logging`, the formula builder's evaluation and `Power.from_watts` are not modelled.
- These hidden collaborators are parameters:
  - `_get_grid_component_successors`, `is_chp_chain` and `is_pv_chain` in `ProducerPowerFormula.Generate`. The successor lookup is given as its result, none when it raised `ComponentNotFound`; when and why it raises is not modelled, because the generator base class is not part of this model;
  - the `correct_errors` callback in `ComponentGraphs.RefreshFrom`;
  - the predicate in `ComponentGraphs.Dfs`.
- `ComponentGraphs.RefreshFrom` rejects a connection only when it is a self-loop. The client library's full validity rule for connections is not part of this model.
- `ComponentGraphs.RefreshFrom` keeps components with equal ids as separate set members. The graph library adds components under their ids, so it would keep only the last one added under that id.
- `ComponentGraphs.CorrectGraphErrors` is rebuilt from its test: with no grid and a connection starting at id 0, it adds `Component(0, GRID)`. The graph module that defines it is not part of this model.
- `refresh_from_api`, the API client, the logical meter, the battery-pool and battery-status code, and the other formula generators are not modelled.
- `ComponentGraphs.Dfs` returns the visited set instead of mutating the caller's set. It takes successors in an unspecified order, like a set's iteration, so its contract speaks of reachability rather than of order.
- `ProducerPowerFormula.Generate` also leaves the candidates' iteration order open and reports the order taken as `visitOrder`.

The grid-connection code reads a `fuse` from the grid metadata, and its test expects a fuse rated at the metadata's current on every phase. The `GridMetadata` class in `src/frequenz/sdk/microgrid/component/_component.py` has no `fuse` attribute. The model follows the grid-connection code and its test: `Components.GridMetadataOf` gives grid metadata a uniform fuse at its maximum current.
