/** The microgrid component graph: components as nodes, connections as
    directed edges. Queries, structural validation, atomic refresh from new
    input, the implicit-grid correction, and the pruning depth-first search.

    The graph is stored as two finite sets. Its node ids are the ids of its
    components together with every connection endpoint: an endpoint that is
    not the id of a component is a node without a definition, which
    validation refuses. */
module ComponentGraphs {
  import opened Wrappers
  import opened Sets
  import opened Connections
  import opened Components
  import opened Cycles

  datatype ComponentGraph = ComponentGraph(components: set<Component>, connections: set<Connection>)

  /** The graph before anything has been loaded into it. */
  const EmptyGraph: ComponentGraph := ComponentGraph({}, {})

  function ComponentIds(g: ComponentGraph): set<int>
  {
    set c | c in g.components :: c.id
  }

  function ConnectionEndpoints(g: ComponentGraph): set<int>
  {
    (set e | e in g.connections :: e.start) + (set e | e in g.connections :: e.end)
  }

  function NodeIds(g: ComponentGraph): set<int>
  {
    ComponentIds(g) + ConnectionEndpoints(g)
  }

  /** Errors of the graph: a missing key in a query, or invalid graph data. */
  datatype GraphError =
      /** A query named an id that is not a node of the graph. */
    | ComponentNotInGraph(id: int)
    | NoComponents
    | NoConnections
    | NotATree
    | MissingDefinitions(ids: set<int>)
    | UnconnectedComponents(ids: set<int>)
    | NoValidRoot
    | MultipleRoots(roots: set<Component>)
    | RootWithoutSuccessors(root: Component)
    | MultipleGridEndpoints(grids: set<Component>)
    | GridWithPredecessors(gridId: int, predecessors: set<Component>)
    | GridWithoutSuccessors(gridId: int)
    | IntermediaryWithoutPredecessors(intermediaries: set<Component>)
    | LeafWithoutPredecessors(leaves: set<Component>)
    | LeafWithSuccessors(leaves: set<Component>)
      /** Refresh input without any component or without any connection. */
    | MissingComponentsInput
    | MissingConnectionsInput
    | InvalidComponents(components: set<Component>)
    | InvalidConnections(connections: set<Connection>)
      /** The new graph data failed validation for the given reason. */
    | CannotPopulate(cause: GraphError)

  /* ---------------------------------------------------------------- queries */

  predicate InCategories(c: Component, categories: set<ComponentCategory>)
  {
    c.category.Known? && c.category.category in categories
  }

  /** The components whose id is among `ids` and whose category is among
      `categories`; an absent filter selects everything. The filters are
      applied one after the other, as in the source. */
  function FilterComponents(g: ComponentGraph, ids: Option<set<int>>, categories: Option<set<ComponentCategory>>)
    : (r: set<Component>)
    ensures forall c :: c in r <==>
      && c in g.components
      && (ids.None? || c.id in ids.value)
      && (categories.None? || InCategories(c, categories.value))
  {
    var byId := if ids.None? then g.components else set c | c in g.components && c.id in ids.value;
    if categories.None? then byId else set c | c in byId && InCategories(c, categories.value)
  }

  /** The connections whose start is among `starts` and whose end is among
      `ends`; an absent filter selects everything. */
  function FilterConnections(g: ComponentGraph, starts: Option<set<int>>, ends: Option<set<int>>)
    : (r: set<Connection>)
    ensures forall e :: e in r <==>
      && e in g.connections
      && (starts.None? || e.start in starts.value)
      && (ends.None? || e.end in ends.value)
  {
    var byStart := if starts.None? then g.connections else set e | e in g.connections && e.start in starts.value;
    if ends.None? then byStart else set e | e in byStart && e.end in ends.value
  }

  /** The components at the start of a connection ending at `id`. */
  function PredecessorSet(g: ComponentGraph, id: int): set<Component>
  {
    set c | c in g.components && Connection(c.id, id) in g.connections
  }

  /** The components at the end of a connection starting at `id`. */
  function SuccessorSet(g: ComponentGraph, id: int): set<Component>
  {
    set c | c in g.components && Connection(id, c.id) in g.connections
  }

  /** The predecessors of a node; an id that is not a node is a key error. */
  function Predecessors(g: ComponentGraph, id: int): (r: Result<set<Component>, GraphError>)
    ensures r.Failure? <==> id !in NodeIds(g)
    ensures r.Failure? ==> r.error == ComponentNotInGraph(id)
    ensures r.Success? ==> forall c :: c in r.value <==>
      c in g.components && exists e :: e in FilterConnections(g, None, Some({id})) && e.start == c.id
  {
    if id !in NodeIds(g) then Failure(ComponentNotInGraph(id)) else Success(PredecessorSet(g, id))
  }

  /** The successors of a node; an id that is not a node is a key error. */
  function Successors(g: ComponentGraph, id: int): (r: Result<set<Component>, GraphError>)
    ensures r.Failure? <==> id !in NodeIds(g)
    ensures r.Failure? ==> r.error == ComponentNotInGraph(id)
    ensures r.Success? ==> forall c :: c in r.value <==>
      c in g.components && exists e :: e in FilterConnections(g, Some({id}), None) && e.end == c.id
  {
    if id !in NodeIds(g) then Failure(ComponentNotInGraph(id)) else Success(SuccessorSet(g, id))
  }

  /** Both component filters combine by AND, no filter selects all
      components, and ids that name no component are ignored. */
  lemma ComponentFilterLaws(g: ComponentGraph, ids: set<int>, categories: set<ComponentCategory>)
    ensures FilterComponents(g, Some(ids), Some(categories))
         == FilterComponents(g, Some(ids), None) * FilterComponents(g, None, Some(categories))
    ensures FilterComponents(g, None, None) == g.components
    ensures FilterComponents(g, Some(ids), None) == FilterComponents(g, Some(ids * ComponentIds(g)), None)
  {
  }

  /** Both connection filters combine by AND, and no filter selects all
      connections. */
  lemma ConnectionFilterLaws(g: ComponentGraph, starts: set<int>, ends: set<int>)
    ensures FilterConnections(g, Some(starts), Some(ends))
         == FilterConnections(g, Some(starts), None) * FilterConnections(g, None, Some(ends))
    ensures FilterConnections(g, None, None) == g.connections
  {
  }

  /** Predecessor and successor are two views of one relation. */
  lemma PredecessorSuccessorDuality(g: ComponentGraph, a: Component, b: Component)
    requires a in g.components && b in g.components
    ensures a in SuccessorSet(g, b.id) <==> b in PredecessorSet(g, a.id)
  {
  }

  /* ------------------------------------------------------------- validation */

  predicate IsLeafCategory(c: Component)
  {
    InCategories(c, {Battery, EvCharger, PvArray})
  }

  /** A component without predecessors that may be the root of the graph. */
  predicate IsValidRoot(g: ComponentGraph, c: Component)
  {
    c in g.components && PredecessorSet(g, c.id) == {} && InCategories(c, {Unspecified, Grid})
  }

  function ValidRoots(g: ComponentGraph): set<Component>
  {
    set c | c in g.components && IsValidRoot(g, c)
  }

  ghost predicate IsComponentId(g: ComponentGraph, id: int)
  {
    exists c :: c in g.components && c.id == id
  }

  ghost predicate IsConnected(g: ComponentGraph, id: int)
  {
    exists e :: e in g.connections && (e.start == id || e.end == id)
  }

  /** The shape `ValidateGraph` demands, stated element-wise: something to
      validate, no cycle, every endpoint defined, every component connected. */
  ghost predicate IsAcyclicGraphData(g: ComponentGraph)
  {
    && g.components != {}
    && g.connections != {}
    && (forall p :: !IsCycle(p, NodeIds(g), g.connections))
    && (forall e :: e in g.connections ==> IsComponentId(g, e.start) && IsComponentId(g, e.end))
    && (forall c :: c in g.components ==> IsConnected(g, c.id))
  }

  /** Exactly one valid root, and it has successors. */
  ghost predicate HasSingleRoot(g: ComponentGraph)
  {
    exists root :: IsValidRoot(g, root)
      && (forall other :: IsValidRoot(g, other) ==> other == root)
      && SuccessorSet(g, root.id) != {}
  }

  /** At most one grid; a grid has no predecessors and has successors. */
  ghost predicate GridEndpointIsSound(g: ComponentGraph)
  {
    && (forall a, b :: a in g.components && b in g.components && a.Is(Grid) && b.Is(Grid) ==> a == b)
    && (forall c :: c in g.components && c.Is(Grid) ==>
          PredecessorSet(g, c.id) == {} && SuccessorSet(g, c.id) != {})
  }

  /** Every inverter has a predecessor. */
  ghost predicate IntermediariesAreFed(g: ComponentGraph)
  {
    forall c :: c in g.components && c.Is(Inverter) ==> PredecessorSet(g, c.id) != {}
  }

  /** Batteries, EV chargers and PV arrays have a predecessor and no successor. */
  ghost predicate LeavesAreLeaves(g: ComponentGraph)
  {
    forall c :: c in g.components && IsLeafCategory(c) ==>
      PredecessorSet(g, c.id) != {} && SuccessorSet(g, c.id) == {}
  }

  /** Everything `Validate` demands. */
  ghost predicate WellFormed(g: ComponentGraph)
  {
    && IsAcyclicGraphData(g)
    && HasSingleRoot(g)
    && GridEndpointIsSound(g)
    && IntermediariesAreFed(g)
    && LeavesAreLeaves(g)
  }

  /** Something to validate, no cycle, no connection to an undefined node,
      no component without a connection. */
  function ValidateGraph(g: ComponentGraph): (r: Outcome<GraphError>)
    ensures r.Pass? <==> IsAcyclicGraphData(g)
    ensures NodeIds(g) == {} ==> r == Fail(NoComponents)
    ensures NodeIds(g) != {} && g.connections == {} ==> r == Fail(NoConnections)
    ensures NodeIds(g) != {} && g.connections != {} && !IsAcyclic(NodeIds(g), g.connections) ==>
      r == Fail(NotATree)
    ensures r.Fail? && NodeIds(g) != {} && g.connections != {} && IsAcyclic(NodeIds(g), g.connections) ==>
      if ConnectionEndpoints(g) - ComponentIds(g) != {}
      then r == Fail(MissingDefinitions(ConnectionEndpoints(g) - ComponentIds(g)))
      else r == Fail(UnconnectedComponents(ComponentIds(g) - ConnectionEndpoints(g)))
  {
    var undefined := ConnectionEndpoints(g) - ComponentIds(g);
    var unconnected := ComponentIds(g) - ConnectionEndpoints(g);
    AcyclicGraphDataIff(g);
    if NodeIds(g) == {} then Fail(NoComponents)
    else if g.connections == {} then Fail(NoConnections)
    else if !IsAcyclic(NodeIds(g), g.connections) then Fail(NotATree)
    else if undefined != {} then Fail(MissingDefinitions(undefined))
    else if unconnected != {} then Fail(UnconnectedComponents(unconnected))
    else Pass
  }

  lemma AcyclicGraphDataIff(g: ComponentGraph)
    ensures IsAcyclicGraphData(g) <==>
      && NodeIds(g) != {}
      && g.connections != {}
      && IsAcyclic(NodeIds(g), g.connections)
      && ConnectionEndpoints(g) - ComponentIds(g) == {}
      && ComponentIds(g) - ConnectionEndpoints(g) == {}
  {
    AcyclicIffNoCycle(NodeIds(g), g.connections);
    DefinedEndpointsIff(g);
    ConnectedComponentsIff(g);
    var defined := ConnectionEndpoints(g) - ComponentIds(g) == {};
    if defined {
      SomethingToValidate(g);
    }
    if IsAcyclicGraphData(g) {
      assert defined;
      assert NodeIds(g) != {};
    }
  }

  /** With every endpoint defined, there are nodes exactly when there are
      components. */
  lemma SomethingToValidate(g: ComponentGraph)
    requires ConnectionEndpoints(g) - ComponentIds(g) == {}
    ensures NodeIds(g) != {} <==> g.components != {}
  {
    if g.components != {} {
      var c :| c in g.components;
      assert c.id in NodeIds(g);
    }
    if NodeIds(g) != {} {
      var n :| n in NodeIds(g);
      assert n !in ConnectionEndpoints(g) - ComponentIds(g);
      assert n in ComponentIds(g);
      var c :| c in g.components && c.id == n;
    }
  }

  lemma DefinedEndpointsIff(g: ComponentGraph)
    ensures ConnectionEndpoints(g) - ComponentIds(g) == {} <==>
      forall e :: e in g.connections ==> IsComponentId(g, e.start) && IsComponentId(g, e.end)
  {
    if ConnectionEndpoints(g) - ComponentIds(g) == {} {
      forall e | e in g.connections ensures IsComponentId(g, e.start) && IsComponentId(g, e.end) {
        assert e.start in ConnectionEndpoints(g) && e.end in ConnectionEndpoints(g);
        assert e.start !in ConnectionEndpoints(g) - ComponentIds(g);
        assert e.end !in ConnectionEndpoints(g) - ComponentIds(g);
        var a :| a in g.components && a.id == e.start;
        var b :| b in g.components && b.id == e.end;
      }
    }
  }

  lemma ConnectedComponentsIff(g: ComponentGraph)
    ensures ComponentIds(g) - ConnectionEndpoints(g) == {} <==>
      forall c :: c in g.components ==> IsConnected(g, c.id)
  {
    if ComponentIds(g) - ConnectionEndpoints(g) == {} {
      forall c | c in g.components ensures IsConnected(g, c.id) {
        assert c.id in ComponentIds(g);
        assert c.id !in ComponentIds(g) - ConnectionEndpoints(g);
        var e :| e in g.connections && (e.start == c.id || e.end == c.id);
      }
    }
  }

  /** Exactly one valid root, with successors. */
  function ValidateGraphRoot(g: ComponentGraph): (r: Outcome<GraphError>)
    ensures r.Pass? <==> HasSingleRoot(g)
    ensures ValidRoots(g) == {} ==> r == Fail(NoValidRoot)
    ensures |ValidRoots(g)| > 1 ==> r == Fail(MultipleRoots(ValidRoots(g)))
    ensures forall root :: ValidRoots(g) == {root} && SuccessorSet(g, root.id) == {} ==>
      r == Fail(RootWithoutSuccessors(root))
  {
    var roots := ValidRoots(g);
    MoreThanOneIff(roots);
    SingleRootIff(g);
    if |roots| == 0 then
      Fail(NoValidRoot)
    else if |roots| > 1 then
      Fail(MultipleRoots(roots))
    else
      var root := Only(roots);
      if SuccessorSet(g, root.id) == {} then Fail(RootWithoutSuccessors(root)) else Pass
  }

  lemma SingleRootIff(g: ComponentGraph)
    ensures HasSingleRoot(g) <==>
      |ValidRoots(g)| == 1 && SuccessorSet(g, Only(ValidRoots(g)).id) != {}
  {
    var roots := ValidRoots(g);
    if HasSingleRoot(g) {
      var root :| IsValidRoot(g, root)
        && (forall other :: IsValidRoot(g, other) ==> other == root)
        && SuccessorSet(g, root.id) != {};
      assert roots == {root};
    }
    if |roots| == 1 && SuccessorSet(g, Only(roots).id) != {} {
      var root := Only(roots);
      assert IsValidRoot(g, root);
      assert forall other :: IsValidRoot(g, other) ==> other in roots;
    }
  }

  /** At most one grid, with no predecessors and with successors; no grid
      at all is fine. */
  function ValidateGridEndpoint(g: ComponentGraph): (r: Outcome<GraphError>)
    ensures r.Pass? <==> GridEndpointIsSound(g)
    ensures forall grids :: grids == FilterComponents(g, None, Some({Grid})) && |grids| > 1 ==>
      r == Fail(MultipleGridEndpoints(grids))
    ensures forall grid :: FilterComponents(g, None, Some({Grid})) == {grid} ==>
      && (PredecessorSet(g, grid.id) != {} ==> r == Fail(GridWithPredecessors(grid.id, PredecessorSet(g, grid.id))))
      && (PredecessorSet(g, grid.id) == {} && SuccessorSet(g, grid.id) == {} ==>
            r == Fail(GridWithoutSuccessors(grid.id)))
  {
    var grids := FilterComponents(g, None, Some({Grid}));
    MoreThanOneIff(grids);
    if |grids| == 0 then Pass
    else if |grids| > 1 then
      Fail(MultipleGridEndpoints(grids))
    else
      var grid := Only(grids);
      if PredecessorSet(g, grid.id) != {} then Fail(GridWithPredecessors(grid.id, PredecessorSet(g, grid.id)))
      else if SuccessorSet(g, grid.id) == {} then Fail(GridWithoutSuccessors(grid.id))
      else Pass
  }

  /** Every inverter has a predecessor. */
  function ValidateIntermediaryComponents(g: ComponentGraph): (r: Outcome<GraphError>)
    ensures r.Pass? <==> IntermediariesAreFed(g)
    ensures r.Fail? ==> r.error.IntermediaryWithoutPredecessors?
    ensures r.Fail? ==> forall c :: c in r.error.intermediaries <==>
      c in g.components && c.Is(Inverter) && PredecessorSet(g, c.id) == {}
  {
    var unfed := set c | c in FilterComponents(g, None, Some({Inverter})) && PredecessorSet(g, c.id) == {};
    assert unfed == {} <==> IntermediariesAreFed(g) by {
      if unfed == {} {
        forall c | c in g.components && c.Is(Inverter) ensures PredecessorSet(g, c.id) != {} {
          assert c !in unfed;
        }
      }
      if IntermediariesAreFed(g) {
        forall c | c in FilterComponents(g, None, Some({Inverter})) ensures PredecessorSet(g, c.id) != {} {
          assert c.Is(Inverter);
        }
      }
    }
    if unfed != {} then Fail(IntermediaryWithoutPredecessors(unfed)) else Pass
  }

  /** Every battery, EV charger and PV array has a predecessor and no
      successor. */
  function ValidateLeafComponents(g: ComponentGraph): (r: Outcome<GraphError>)
    ensures r.Pass? <==> LeavesAreLeaves(g)
    ensures r.Fail? ==> r.error.LeafWithoutPredecessors? || r.error.LeafWithSuccessors?
    ensures r.Fail? ==> (r.error.LeafWithoutPredecessors? <==>
      exists c :: c in g.components && IsLeafCategory(c) && PredecessorSet(g, c.id) == {})
    ensures r.Fail? && r.error.LeafWithoutPredecessors? ==> forall c :: c in r.error.leaves <==>
      c in g.components && IsLeafCategory(c) && PredecessorSet(g, c.id) == {}
    ensures r.Fail? && r.error.LeafWithSuccessors? ==> forall c :: c in r.error.leaves <==>
      c in g.components && IsLeafCategory(c) && SuccessorSet(g, c.id) != {}
  {
    var leaves := FilterComponents(g, None, Some({Battery, EvCharger, PvArray}));
    var unfed := set c | c in leaves && PredecessorSet(g, c.id) == {};
    var feeding := set c | c in leaves && SuccessorSet(g, c.id) != {};
    assert unfed == {} <==> !exists c :: c in g.components && IsLeafCategory(c) && PredecessorSet(g, c.id) == {} by {
      forall c | c in g.components && IsLeafCategory(c) && PredecessorSet(g, c.id) == {} ensures c in unfed {
        assert c in leaves;
      }
    }
    assert unfed == {} && feeding == {} <==> LeavesAreLeaves(g) by {
      if unfed == {} && feeding == {} {
        forall c | c in g.components && IsLeafCategory(c)
          ensures PredecessorSet(g, c.id) != {} && SuccessorSet(g, c.id) == {}
        {
          assert c in leaves;
          assert c !in unfed && c !in feeding;
        }
      }
      if LeavesAreLeaves(g) {
        forall c | c in leaves ensures PredecessorSet(g, c.id) != {} && SuccessorSet(g, c.id) == {} {
          assert IsLeafCategory(c);
        }
      }
    }
    if unfed != {} then Fail(LeafWithoutPredecessors(unfed))
    else if feeding != {} then Fail(LeafWithSuccessors(feeding))
    else Pass
  }

  /** All checks in the source's order; the first failure is reported. */
  function Validate(g: ComponentGraph): (r: Outcome<GraphError>)
    ensures r.Pass? <==> WellFormed(g)
    ensures ValidateGraph(g).Fail? ==> r == ValidateGraph(g)
    ensures ValidateGraph(g).Pass? && ValidateGraphRoot(g).Fail? ==> r == ValidateGraphRoot(g)
    ensures ValidateGraph(g).Pass? && ValidateGraphRoot(g).Pass? && ValidateGridEndpoint(g).Fail? ==>
      r == ValidateGridEndpoint(g)
    ensures (ValidateGraph(g).Pass? && ValidateGraphRoot(g).Pass? && ValidateGridEndpoint(g).Pass?
             && ValidateIntermediaryComponents(g).Fail?) ==> r == ValidateIntermediaryComponents(g)
    ensures (ValidateGraph(g).Pass? && ValidateGraphRoot(g).Pass? && ValidateGridEndpoint(g).Pass?
             && ValidateIntermediaryComponents(g).Pass?) ==> r == ValidateLeafComponents(g)
  {
    if ValidateGraph(g).Fail? then ValidateGraph(g)
    else if ValidateGraphRoot(g).Fail? then ValidateGraphRoot(g)
    else if ValidateGridEndpoint(g).Fail? then ValidateGridEndpoint(g)
    else if ValidateIntermediaryComponents(g).Fail? then ValidateIntermediaryComponents(g)
    else ValidateLeafComponents(g)
  }

  /* ----------------------------------------------------- refresh and repair */

  /** The grid endpoint the correction adds. */
  const ImplicitGrid: Component := Plain(0, Grid)

  /** Repairs the one expected defect of graph data: no grid component, but
      connections starting at id 0, the implicit grid. The grid is added. */
  function CorrectGraphErrors(g: ComponentGraph): (r: ComponentGraph)
    ensures r.connections == g.connections
    ensures r.components - g.components <= {ImplicitGrid}
    ensures g.components <= r.components
    ensures r != g <==>
      && FilterComponents(g, None, Some({Grid})) == {}
      && FilterConnections(g, Some({0}), None) != {}
      && ImplicitGrid !in g.components
  {
    if FilterComponents(g, None, Some({Grid})) == {} && FilterConnections(g, Some({0}), None) != {} then
      ComponentGraph(g.components + {ImplicitGrid}, g.connections)
    else
      g
  }

  /** Correcting twice is correcting once. */
  lemma CorrectionIsIdempotent(g: ComponentGraph)
    ensures CorrectGraphErrors(CorrectGraphErrors(g)) == CorrectGraphErrors(g)
  {
    var once := CorrectGraphErrors(g);
    if once != g {
      assert ImplicitGrid in FilterComponents(once, None, Some({Grid}));
    }
  }

  /** The graph after `RefreshFrom`, and whether it raised. */
  datatype Refreshed = Refreshed(graph: ComponentGraph, outcome: Outcome<GraphError>)

  /** Replaces the graph's contents with new components and connections.
      Empty input, an invalid component or a self-loop is refused at once.
      Otherwise the new data is assembled on the side; if a correction is
      given and the data does not validate, the correction is applied to it;
      then it must validate. Only then does it replace the old contents,
      wholesale; on any failure the old contents stay. */
  function RefreshFrom(current: ComponentGraph, components: set<Component>, connections: set<Connection>,
                       correctErrors: Option<ComponentGraph -> ComponentGraph>): (r: Refreshed)
    ensures r.outcome.Fail? ==> r.graph == current
    ensures r.outcome.Pass? ==> WellFormed(r.graph)
    ensures r.outcome.Pass? ==>
      && components != {} && connections != {}
      && (forall c :: c in components ==> c.IsValid())
      && (forall e :: e in connections ==> e.IsValid())
    ensures r.outcome.Pass? && correctErrors.None? ==> r.graph == ComponentGraph(components, connections)
  {
    if components == {} then Refreshed(current, Fail(MissingComponentsInput))
    else if connections == {} then Refreshed(current, Fail(MissingConnectionsInput))
    else if !(forall c :: c in components ==> c.IsValid()) then
      Refreshed(current, Fail(InvalidComponents(set c | c in components && !c.IsValid())))
    else if !(forall e :: e in connections ==> e.IsValid()) then
      Refreshed(current, Fail(InvalidConnections(set e | e in connections && !e.IsValid())))
    else
      Populate(current, ComponentGraph(components, connections), correctErrors)
  }

  /** The second half of `RefreshFrom`: correct if asked and needed, then
      validate, and keep the old contents on failure. */
  function Populate(current: ComponentGraph, provisional: ComponentGraph,
                    correctErrors: Option<ComponentGraph -> ComponentGraph>): (r: Refreshed)
    ensures r.outcome.Fail? ==> r.graph == current && r.outcome.error.CannotPopulate?
    ensures r.outcome.Pass? ==> WellFormed(r.graph)
    ensures r.outcome.Pass? && correctErrors.None? ==> r.graph == provisional
    ensures r.outcome.Pass? && correctErrors.Some? ==>
      r.graph == provisional || r.graph == correctErrors.value(provisional)
    ensures WellFormed(provisional) ==> r == Refreshed(provisional, Pass)
  {
    var candidate :=
      if correctErrors.Some? && Validate(provisional).Fail? then correctErrors.value(provisional) else provisional;
    var outcome := Validate(candidate);
    if outcome.Pass? then Refreshed(candidate, Pass) else Refreshed(current, Fail(CannotPopulate(outcome.error)))
  }

  /** With the built-in correction, a successful refresh stores the input,
      possibly with the implicit grid added and nothing else. */
  lemma RefreshWithCorrection(current: ComponentGraph, components: set<Component>, connections: set<Connection>)
    ensures var r := RefreshFrom(current, components, connections, Some(CorrectGraphErrors));
      r.outcome.Pass? ==>
        && r.graph.connections == connections
        && components <= r.graph.components <= components + {ImplicitGrid}
  {
  }

  /** A connection to an id no component has is refused, and the graph
      keeps its old contents, even though the id is a node. */
  lemma RefreshRefusesDanglingEndpoint(current: ComponentGraph, components: set<Component>,
                                       connections: set<Connection>, e: Connection)
    requires e in connections
    requires (forall c :: c in components ==> c.id != e.start) || (forall c :: c in components ==> c.id != e.end)
    ensures RefreshFrom(current, components, connections, None).graph == current
    ensures RefreshFrom(current, components, connections, None).outcome.Fail?
  {
    var g := ComponentGraph(components, connections);
    assert !IsComponentId(g, e.start) || !IsComponentId(g, e.end);
    assert !WellFormed(g);
  }

  /** Input that is already well formed is stored as it is, correction or not. */
  lemma RefreshAcceptsWellFormedInput(current: ComponentGraph, components: set<Component>, connections: set<Connection>,
                                      correctErrors: Option<ComponentGraph -> ComponentGraph>)
    requires WellFormed(ComponentGraph(components, connections))
    requires forall c :: c in components ==> c.IsValid()
    requires forall e :: e in connections ==> e.IsValid()
    ensures RefreshFrom(current, components, connections, correctErrors) == Refreshed(ComponentGraph(components, connections), Pass)
  {
  }

  /** The graph of a grid feeding one meter is well formed. */
  lemma GridAndMeterIsWellFormed(gridId: int, meterId: int)
    requires gridId != meterId
    ensures WellFormed(ComponentGraph({Plain(gridId, Grid), Plain(meterId, Meter)}, {Connection(gridId, meterId)}))
  {
    var grid := Plain(gridId, Grid);
    var meter := Plain(meterId, Meter);
    var g := ComponentGraph({grid, meter}, {Connection(gridId, meterId)});
    forall p ensures !IsCycle(p, NodeIds(g), g.connections) {
      if |p| > 1 {
        assert p[0] == meterId ==> Connection(p[0], p[1]) !in g.connections;
      }
    }
    assert IsConnected(g, gridId) && IsConnected(g, meterId);
    assert IsComponentId(g, gridId) && IsComponentId(g, meterId);
    assert PredecessorSet(g, gridId) == {};
    assert meter in SuccessorSet(g, gridId);
    assert PredecessorSet(g, meterId) == {grid};
    assert IsValidRoot(g, grid);
    assert !IsValidRoot(g, meter);
  }

  /** The correction scenario, first step: well-formed data is stored as
      it is, correction or not. */
  lemma CorrectionLeavesGoodDataAlone()
    ensures var good := ComponentGraph({Plain(1, Grid), Plain(2, Meter)}, {Connection(1, 2)});
      RefreshFrom(EmptyGraph, good.components, good.connections, Some(CorrectGraphErrors)) == Refreshed(good, Pass)
  {
    var good := ComponentGraph({Plain(1, Grid), Plain(2, Meter)}, {Connection(1, 2)});
    GridAndMeterIsWellFormed(1, 2);
    RefreshAcceptsWellFormedInput(EmptyGraph, good.components, good.connections, Some(CorrectGraphErrors));
  }

  /** A single connection between two distinct ids closes no cycle. */
  lemma SingleConnectionIsAcyclic(a: int, b: int)
    requires a != b
    ensures IsAcyclic({a, b}, {Connection(a, b)})
  {
    AcyclicIffNoCycle({a, b}, {Connection(a, b)});
    forall p ensures !IsCycle(p, {a, b}, {Connection(a, b)}) {
      if |p| > 1 {
        assert p[0] == b ==> Connection(p[0], p[1]) !in {Connection(a, b)};
      }
    }
  }

  /** Valid input that does not validate, and that the correction (if any)
      leaves alone, is refused with the validation error; the old contents stay. */
  lemma RefreshReportsValidationError(current: ComponentGraph, components: set<Component>, connections: set<Connection>,
                                      correctErrors: Option<ComponentGraph -> ComponentGraph>)
    requires components != {} && connections != {}
    requires forall c :: c in components ==> c.IsValid()
    requires forall e :: e in connections ==> e.IsValid()
    requires Validate(ComponentGraph(components, connections)).Fail?
    requires correctErrors.Some? ==>
      correctErrors.value(ComponentGraph(components, connections)) == ComponentGraph(components, connections)
    ensures RefreshFrom(current, components, connections, correctErrors)
      == Refreshed(current, Fail(CannotPopulate(Validate(ComponentGraph(components, connections)).error)))
  {
  }

  /** A meter fed by an undefined id fails the graph-data rule, naming the id. */
  lemma UndefinedFeederIsMissing(feeder: int, meterId: int)
    requires feeder != meterId
    ensures Validate(ComponentGraph({Plain(meterId, Meter)}, {Connection(feeder, meterId)}))
      == Fail(MissingDefinitions({feeder}))
  {
    var g := ComponentGraph({Plain(meterId, Meter)}, {Connection(feeder, meterId)});
    assert NodeIds(g) == {feeder, meterId};
    SingleConnectionIsAcyclic(feeder, meterId);
    assert ConnectionEndpoints(g) - ComponentIds(g) == {feeder};
    assert ValidateGraph(g) == Fail(MissingDefinitions({feeder}));
  }

  /** Data the correction cannot repair leaves the last good contents. */
  lemma UncorrectableDataIsRefused(current: ComponentGraph)
    ensures RefreshFrom(current, {Plain(4, Meter)}, {Connection(3, 4)}, Some(CorrectGraphErrors))
      == Refreshed(current, Fail(CannotPopulate(MissingDefinitions({3}))))
  {
    var uncorrectable := ComponentGraph({Plain(4, Meter)}, {Connection(3, 4)});
    assert Connection(3, 4) !in FilterConnections(uncorrectable, Some({0}), None);
    assert CorrectGraphErrors(uncorrectable) == uncorrectable;
    UndefinedFeederIsMissing(3, 4);
    assert Plain(4, Meter).IsValid() && Connection(3, 4).IsValid();
    RefreshReportsValidationError(current, uncorrectable.components, uncorrectable.connections, Some(CorrectGraphErrors));
  }

  /** Data that names its grid only by the id 0 is refused without the
      correction. */
  lemma ImplicitGridIsRefused(current: ComponentGraph)
    ensures RefreshFrom(current, {Plain(8, Meter)}, {Connection(0, 8)}, None)
      == Refreshed(current, Fail(CannotPopulate(MissingDefinitions({0}))))
  {
    UndefinedFeederIsMissing(0, 8);
    assert Plain(8, Meter).IsValid() && Connection(0, 8).IsValid();
    RefreshReportsValidationError(current, {Plain(8, Meter)}, {Connection(0, 8)}, None);
  }

  /** Data that the correction turns into a well-formed graph is stored
      corrected. */
  lemma RefreshStoresCorrection(current: ComponentGraph, components: set<Component>, connections: set<Connection>,
                                correct: ComponentGraph -> ComponentGraph)
    requires components != {} && connections != {}
    requires forall c :: c in components ==> c.IsValid()
    requires forall e :: e in connections ==> e.IsValid()
    requires !WellFormed(ComponentGraph(components, connections))
    requires WellFormed(correct(ComponentGraph(components, connections)))
    ensures RefreshFrom(current, components, connections, Some(correct))
      == Refreshed(correct(ComponentGraph(components, connections)), Pass)
  {
  }

  /** With the correction, the implicit grid is added and the data
      replaces the old contents. */
  lemma ImplicitGridIsCorrected(current: ComponentGraph)
    ensures RefreshFrom(current, {Plain(8, Meter)}, {Connection(0, 8)}, Some(CorrectGraphErrors))
      == Refreshed(ComponentGraph({Plain(0, Grid), Plain(8, Meter)}, {Connection(0, 8)}), Pass)
  {
    var implicit := ComponentGraph({Plain(8, Meter)}, {Connection(0, 8)});
    assert !WellFormed(implicit) by {
      assert !IsComponentId(implicit, 0);
    }
    ImplicitGridIsAdded();
    GridAndMeterIsWellFormed(0, 8);
    assert Plain(8, Meter).IsValid() && Connection(0, 8).IsValid();
    RefreshStoresCorrection(current, implicit.components, implicit.connections, CorrectGraphErrors);
  }

  /** The correction adds the grid 0 to data that names it only by id. */
  lemma ImplicitGridIsAdded()
    ensures CorrectGraphErrors(ComponentGraph({Plain(8, Meter)}, {Connection(0, 8)}))
      == ComponentGraph({Plain(0, Grid), Plain(8, Meter)}, {Connection(0, 8)})
  {
    var implicit := ComponentGraph({Plain(8, Meter)}, {Connection(0, 8)});
    assert Connection(0, 8) in FilterConnections(implicit, Some({0}), None);
  }

  /** Builds a graph. With neither argument the graph is empty; with only
      one, or with an empty one, it is refused; otherwise it is refreshed
      from both. */
  function NewComponentGraph(components: Option<set<Component>>, connections: Option<set<Connection>>)
    : (r: Result<ComponentGraph, GraphError>)
    ensures components.None? && connections.None? ==> r == Success(EmptyGraph)
    ensures components.Some? && components.value == {} ==> r.Failure?
    ensures connections.Some? && connections.value == {} ==> r.Failure?
    ensures components.None? != connections.None? ==> r.Failure?
    ensures r.Success? && components.Some? ==>
      && connections.Some?
      && r.value == ComponentGraph(components.value, connections.value)
      && WellFormed(r.value)
  {
    if components.None? && connections.None? then Success(EmptyGraph)
    else if components.None? || |components.value| == 0 then Failure(MissingComponentsInput)
    else if connections.None? || |connections.value| == 0 then Failure(MissingConnectionsInput)
    else
      var refreshed := RefreshFrom(EmptyGraph, components.value, connections.value, None);
      match refreshed.outcome
      case Fail(e) => Failure(e)
      case Pass =>
        match Validate(refreshed.graph)
        case Fail(e) => Failure(e)
        case Pass => Success(refreshed.graph)
  }

  /** Well-formed data of valid components and connections is built as given. */
  lemma NewGraphOfWellFormedData(components: set<Component>, connections: set<Connection>)
    requires WellFormed(ComponentGraph(components, connections))
    requires forall c :: c in components ==> c.IsValid()
    requires forall e :: e in connections ==> e.IsValid()
    ensures NewComponentGraph(Some(components), Some(connections)) == Success(ComponentGraph(components, connections))
  {
    RefreshAcceptsWellFormedInput(EmptyGraph, components, connections, None);
  }

  /** Data with an invalid component or connection is refused. */
  lemma NewGraphRefusesInvalidData(components: set<Component>, connections: set<Connection>)
    requires (exists c :: c in components && !c.IsValid()) || (exists e :: e in connections && !e.IsValid())
    ensures NewComponentGraph(Some(components), Some(connections)).Failure?
  {
  }

  /** Data with a connection to an undefined id is refused. */
  lemma NewGraphRefusesDanglingEndpoint(components: set<Component>, connections: set<Connection>, e: Connection)
    requires e in connections
    requires (forall c :: c in components ==> c.id != e.start) || (forall c :: c in components ==> c.id != e.end)
    ensures NewComponentGraph(Some(components), Some(connections)).Failure?
  {
    RefreshRefusesDanglingEndpoint(EmptyGraph, components, connections, e);
  }

  /** Construction, first cases: the empty graph does not validate, and
      one argument alone is refused. */
  lemma EmptyAndPartialConstruction()
    ensures Validate(EmptyGraph).Fail?
    ensures NewComponentGraph(Some({Plain(1, Grid)}), None).Failure?
    ensures NewComponentGraph(None, Some({Connection(1, 2)})).Failure?
  {
  }

  /** A grid feeding a meter is built as given. */
  lemma GridAndMeterConstruction()
    ensures NewComponentGraph(Some({Plain(1, Grid), Plain(2, Meter)}), Some({Connection(1, 2)}))
      == Success(ComponentGraph({Plain(1, Grid), Plain(2, Meter)}, {Connection(1, 2)}))
  {
    GridAndMeterIsWellFormed(1, 2);
    NewGraphOfWellFormedData({Plain(1, Grid), Plain(2, Meter)}, {Connection(1, 2)});
  }

  /** A component of no known category is refused. */
  lemma UnknownCategoryConstruction()
    ensures NewComponentGraph(Some({Plain(1, Grid), Plain(2, Meter), Component(3, Unknown(666), None, None)}),
                              Some({Connection(1, 2), Connection(1, 3)})).Failure?
  {
    var unknown := Component(3, Unknown(666), None, None);
    var components := {Plain(1, Grid), Plain(2, Meter), unknown};
    assert unknown in components && !unknown.IsValid();
    NewGraphRefusesInvalidData(components, {Connection(1, 2), Connection(1, 3)});
  }

  /** A connection to an undefined component is refused. */
  lemma DanglingConnectionConstruction()
    ensures NewComponentGraph(Some({Plain(1, Grid), Plain(2, Meter)}), Some({Connection(1, 2), Connection(1, 3)})).Failure?
  {
    NewGraphRefusesDanglingEndpoint({Plain(1, Grid), Plain(2, Meter)}, {Connection(1, 2), Connection(1, 3)}, Connection(1, 3));
  }

  /** A self-loop is refused. */
  lemma SelfLoopConstruction()
    ensures NewComponentGraph(Some({Plain(1, Grid), Plain(2, Meter)}), Some({Connection(1, 2), Connection(2, 2)})).Failure?
  {
    var connections := {Connection(1, 2), Connection(2, 2)};
    assert Connection(2, 2) in connections && !Connection(2, 2).IsValid();
    NewGraphRefusesInvalidData({Plain(1, Grid), Plain(2, Meter)}, connections);
  }

  /* ------------------------------------------------------------------ search */

  /** A walk the search can take from `p[0]`: it avoids the components
      already visited when the search began, and it only continues past
      components that do not satisfy the condition. */
  ghost predicate IsSearchPath(g: ComponentGraph, p: seq<Component>, blocked: set<Component>, cond: Component -> bool)
  {
    && |p| > 0
    && (forall i :: 0 <= i < |p| ==> p[i] !in blocked)
    && (forall i :: 0 <= i < |p| - 1 ==> !cond(p[i]) && p[i + 1] in SuccessorSet(g, p[i].id))
  }

  /** The search from `start` reaches `x`. */
  ghost predicate SearchReaches(g: ComponentGraph, start: Component, blocked: set<Component>,
                                cond: Component -> bool, x: Component)
  {
    exists p :: IsSearchPath(g, p, blocked, cond) && p[0] == start && p[|p| - 1] == x
  }

  lemma PrependToSearchPath(g: ComponentGraph, current: Component, p: seq<Component>,
                            blocked: set<Component>, later: set<Component>, cond: Component -> bool)
    requires IsSearchPath(g, p, later, cond)
    requires blocked <= later
    requires current !in blocked && !cond(current) && p[0] in SuccessorSet(g, current.id)
    ensures IsSearchPath(g, [current] + p, blocked, cond)
  {
    var q := [current] + p;
    forall i | 0 <= i < |q| - 1 ensures !cond(q[i]) && q[i + 1] in SuccessorSet(g, q[i].id) {
      if i > 0 {
        assert q[i] == p[i - 1] && q[i + 1] == p[i];
      }
    }
  }

  /** Every walk of the search from a visited component stays among the
      visited components, when every visited non-match had all its
      successors visited too. */
  lemma {:induction false} SearchPathsStayVisited(g: ComponentGraph, p: seq<Component>, before: set<Component>,
                                                  after: set<Component>, cond: Component -> bool)
    requires IsSearchPath(g, p, before, cond)
    requires p[0] in after
    requires forall x :: x in after - before && !cond(x) ==> SuccessorSet(g, x.id) <= after
    ensures p[|p| - 1] in after
    decreases |p|
  {
    if |p| > 1 {
      var q := p[..|p| - 1];
      assert IsSearchPath(g, q, before, cond);
      SearchPathsStayVisited(g, q, before, after, cond);
      assert p[|p| - 2] == q[|q| - 1];
      assert p[|p| - 1] in SuccessorSet(g, p[|p| - 2].id);
    }
  }

  /** What a search from `start` has achieved once `after` is visited:
      `found` holds exactly the newly visited matches, and the search
      reaches every newly visited component. */
  ghost predicate Explored(g: ComponentGraph, start: Component, visited: set<Component>, after: set<Component>,
                           found: set<Component>, cond: Component -> bool)
  {
    && (forall x :: x in found <==> x in after - visited && cond(x))
    && (forall x :: x in after - visited ==> SearchReaches(g, start, visited, cond, x))
  }

  /** Every newly visited non-match outside `pending` had its successors
      visited as well. */
  ghost predicate ClosedOutside(g: ComponentGraph, visited: set<Component>, after: set<Component>,
                                pending: set<Component>, cond: Component -> bool)
  {
    forall x :: x in after - visited && x !in pending && !cond(x) ==> SuccessorSet(g, x.id) <= after
  }

  /** One turn of the search's loop over the successors of `current`: the
      recursive search from `next` extends what the loop has achieved. */
  lemma SearchStep(g: ComponentGraph, current: Component, next: Component, visited: set<Component>,
                   before: set<Component>, found: set<Component>, after: set<Component>, sub: set<Component>,
                   cond: Component -> bool)
    requires current in before - visited && !cond(current) && next in SuccessorSet(g, current.id)
    requires visited <= before && before + {next} <= after
    requires Explored(g, current, visited, before, found, cond)
    requires ClosedOutside(g, visited, before, {current}, cond)
    requires Explored(g, next, before, after, sub, cond)
    requires ClosedOutside(g, before, after, {}, cond)
    ensures Explored(g, current, visited, after, found + sub, cond)
    ensures ClosedOutside(g, visited, after, {current}, cond)
  {
    forall x | x in after - before ensures SearchReaches(g, current, visited, cond, x) {
      var p :| IsSearchPath(g, p, before, cond) && p[0] == next && p[|p| - 1] == x;
      PrependToSearchPath(g, current, p, visited, before, cond);
      assert ([current] + p)[|[current] + p| - 1] == x;
    }
  }

  /** The recursive search. `visited` is the set the source shares between
      the recursive calls and grows as they go; here it is passed in and
      handed back. The successor set is walked in whatever order a choice
      yields, like a set's iteration order. */
  method Search(g: ComponentGraph, current: Component, visited: set<Component>, cond: Component -> bool)
    returns (found: set<Component>, visitedAfter: set<Component>)
    requires current in visited || cond(current) || current.id in NodeIds(g)
    ensures visited + {current} <= visitedAfter
    ensures current in visited ==> found == {} && visitedAfter == visited
    ensures current !in visited && cond(current) ==> found == {current}
    ensures forall x :: x in found <==> x in visitedAfter - visited && cond(x)
    ensures forall x :: x in visitedAfter - visited ==> SearchReaches(g, current, visited, cond, x)
    ensures forall x :: x in visitedAfter - visited && !cond(x) ==> SuccessorSet(g, x.id) <= visitedAfter
    decreases |(g.components + {current}) - visited|
  {
    if current in visited {
      return {}, visited;
    }
    visitedAfter := visited + {current};
    assert IsSearchPath(g, [current], visited, cond);
    if cond(current) {
      return {current}, visitedAfter;
    }
    found := {};
    var todo := SuccessorSet(g, current.id);
    while todo != {}
      invariant todo <= SuccessorSet(g, current.id)
      invariant SuccessorSet(g, current.id) - todo <= visitedAfter
      invariant visited + {current} <= visitedAfter
      invariant Explored(g, current, visited, visitedAfter, found, cond)
      invariant ClosedOutside(g, visited, visitedAfter, {current}, cond)
      decreases todo
    {
      var next :| next in todo;
      todo := todo - {next};
      Shrinks(g.components, current, next, visited, visitedAfter);
      var sub, subVisited := Search(g, next, visitedAfter, cond);
      SearchStep(g, current, next, visited, visitedAfter, found, subVisited, sub, cond);
      found := found + sub;
      visitedAfter := subVisited;
    }
  }

  /** The measure of the search drops at each recursive call. */
  lemma Shrinks(components: set<Component>, current: Component, next: Component,
                visited: set<Component>, visitedAfter: set<Component>)
    requires next in components && current !in visited
    requires visited + {current} <= visitedAfter
    ensures |(components + {next}) - visitedAfter| < |(components + {current}) - visited|
  {
    var smaller := (components + {next}) - visitedAfter;
    var larger := (components + {current}) - visited;
    assert smaller <= larger - {current};
    SubsetCardinality(smaller, larger - {current});
  }

  /** The depth-first search for the components satisfying `cond`: it
      returns a matching component without looking below it, and skips
      components already visited. Starting from a component that is not
      visited, does not match and is not in the graph is a key error. */
  method Dfs(g: ComponentGraph, current: Component, visited: set<Component>, cond: Component -> bool)
    returns (r: Result<set<Component>, GraphError>, visitedAfter: set<Component>)
    ensures r.Failure? <==> current !in visited && !cond(current) && current.id !in NodeIds(g)
    ensures current in visited ==> r == Success({})
    ensures current !in visited && cond(current) ==> r == Success({current})
    ensures r.Success? ==> forall x :: x in r.value <==> cond(x) && SearchReaches(g, current, visited, cond, x)
    ensures r.Failure? ==> visitedAfter == visited + {current}
    ensures r.Success? ==> forall x :: x in visitedAfter <==> x in visited || SearchReaches(g, current, visited, cond, x)
  {
    if current !in visited && !cond(current) && current.id !in NodeIds(g) {
      return Failure(ComponentNotInGraph(current.id)), visited + {current};
    }
    var found;
    found, visitedAfter := Search(g, current, visited, cond);
    forall x | cond(x) && SearchReaches(g, current, visited, cond, x) ensures x in found {
      var p :| IsSearchPath(g, p, visited, cond) && p[0] == current && p[|p| - 1] == x;
      SearchPathsStayVisited(g, p, visited, visitedAfter, cond);
      assert x !in visited;
    }
    forall x | SearchReaches(g, current, visited, cond, x) ensures x in visitedAfter {
      var p :| IsSearchPath(g, p, visited, cond) && p[0] == current && p[|p| - 1] == x;
      SearchPathsStayVisited(g, p, visited, visitedAfter, cond);
    }
    r := Success(found);
  }
}
