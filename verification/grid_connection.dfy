/** The microgrid's grid connection point, set by every successful
    `Initialize` that finds a grid in the component list. The source keeps
    it in a module-level variable; here that variable is an explicit state
    threaded through `Initialize`. */
module GridConnections {
  import opened Wrappers
  import opened Fuses
  import opened Components

  /** A grid connection point, described by its fuse. */
  datatype GridConnection = GridConnection(fuse: Fuse)

  /** Why `Initialize` raised. */
  datatype InitializeError =
    | MultipleGridConnections(count: nat)
    | GridMetadataMissing
      /** The grid's metadata is not grid metadata, so it has no fuse to read. */
    | MetadataWithoutFuse
    | GridFuseMissing

  /** The components of category grid, in list order. */
  function GridComponents(components: seq<Component>): (grids: seq<Component>)
    ensures forall c :: c in grids <==> c in components && c.Is(Grid)
    ensures |grids| <= |components|
  {
    if components == [] then []
    else (if components[0].Is(Grid) then [components[0]] else []) + GridComponents(components[1..])
  }

  /** A grid listed twice is kept twice: every grid occurs as often among
      the grid components as in the list, so `Initialize` counts the list's
      grids, duplicates included. */
  lemma {:induction false} GridComponentsKeepMultiplicity(components: seq<Component>)
    ensures forall c ::
              multiset(GridComponents(components))[c] == if c.Is(Grid) then multiset(components)[c] else 0
  {
    if components != [] {
      GridComponentsKeepMultiplicity(components[1..]);
      assert components == [components[0]] + components[1..];
    }
  }

  lemma {:induction false} GridComponentsAppend(a: seq<Component>, b: seq<Component>)
    ensures GridComponents(a + b) == GridComponents(a) + GridComponents(b)
  {
    if a == [] {
      assert a + b == b;
    } else {
      assert (a + b)[1..] == a[1..] + b;
      GridComponentsAppend(a[1..], b);
    }
  }

  /** The stored grid connection after `Initialize`, and whether it raised. */
  datatype Initialized = Initialized(stored: Option<GridConnection>, outcome: Outcome<InitializeError>)

  /** Initialises the grid connection from the microgrid's components.
      No grid: an islanded microgrid, nothing is stored and nothing is reset.
      Several grids: an error. One grid: its metadata's fuse is stored, and
      missing metadata or a missing fuse is an error. Whatever fails, fails
      before the stored value is touched. */
  function Initialize(stored: Option<GridConnection>, components: seq<Component>): (r: Initialized)
    ensures r.outcome.Fail? ==> r.stored == stored
    ensures |GridComponents(components)| == 0 ==> r == Initialized(stored, Pass)
    ensures |GridComponents(components)| > 1 ==>
      r.outcome == Fail(MultipleGridConnections(|GridComponents(components)|))
    ensures r.outcome.Pass? && |GridComponents(components)| > 0 ==>
      var grid := GridComponents(components)[0];
      && |GridComponents(components)| == 1
      && grid.metadata.Some? && grid.metadata.value.GridMeta?
      && grid.metadata.value.grid.fuse.Some?
      && r.stored == Some(GridConnection(grid.metadata.value.grid.fuse.value))
    ensures |GridComponents(components)| == 1 ==>
      var grid := GridComponents(components)[0];
      && (grid.metadata.None? ==> r == Initialized(stored, Fail(GridMetadataMissing)))
      && (grid.metadata == Some(BaseMetadata) ==> r == Initialized(stored, Fail(MetadataWithoutFuse)))
      && (grid.metadata.Some? && grid.metadata.value.GridMeta? ==>
            r == if grid.metadata.value.grid.fuse.Some?
                 then Initialized(Some(GridConnection(grid.metadata.value.grid.fuse.value)), Pass)
                 else Initialized(stored, Fail(GridFuseMissing)))
  {
    var grids := GridComponents(components);
    if |grids| == 0 then
      Initialized(stored, Pass)
    else if |grids| > 1 then
      Initialized(stored, Fail(MultipleGridConnections(|grids|)))
    else
      match grids[0].metadata
      case None => Initialized(stored, Fail(GridMetadataMissing))
      case Some(BaseMetadata) => Initialized(stored, Fail(MetadataWithoutFuse))
      case Some(GridMeta(m)) =>
        match m.fuse
        case None => Initialized(stored, Fail(GridFuseMissing))
        case Some(f) => Initialized(Some(GridConnection(f)), Pass)
  }

  /** The stored grid connection; none for an islanded microgrid. */
  function Get(stored: Option<GridConnection>): Option<GridConnection>
  {
    stored
  }

  /** What `Get` returns after an initialisation: the fuse of the single
      grid when it succeeded with one, and otherwise what was stored before,
      since an islanded list and every failure leave the stored value alone.
      A later successful call replaces an earlier one's value. */
  lemma GetAfterInitialize(stored: Option<GridConnection>, components: seq<Component>)
    ensures var r := Initialize(stored, components);
      Get(r.stored) ==
        if r.outcome.Pass? && |GridComponents(components)| == 1
        then Some(GridConnection(GridComponents(components)[0].metadata.value.grid.fuse.value))
        else stored
  {
  }

  /** The same grid listed twice is two grid connections, not one. */
  lemma RepeatedGridIsMultiple(stored: Option<GridConnection>, grid: Component)
    requires grid.Is(Grid)
    ensures Initialize(stored, [grid, grid]) == Initialized(stored, Fail(MultipleGridConnections(2)))
  {
    GridComponentsKeepMultiplicity([grid, grid]);
    assert multiset([grid, grid])[grid] == 2;
    assert |GridComponents([grid, grid])| == 2 by {
      assert [grid, grid][1..] == [grid];
    }
  }

  /** Only the grid components decide the outcome. */
  lemma OnlyGridsMatter(stored: Option<GridConnection>, a: seq<Component>, b: seq<Component>)
    requires GridComponents(a) == GridComponents(b)
    ensures Initialize(stored, a) == Initialize(stored, b)
  {
  }

  /** A list without grid components has none to report. */
  lemma {:induction false} NoGridComponents(components: seq<Component>)
    requires forall c :: c in components ==> !c.Is(Grid)
    ensures GridComponents(components) == []
  {
    if components != [] {
      NoGridComponents(components[1..]);
    }
  }

  /** Components that are not grids never affect the outcome: adding one
      anywhere in the list changes nothing. */
  lemma NonGridComponentIsIgnored(stored: Option<GridConnection>, a: seq<Component>, c: Component, b: seq<Component>)
    requires !c.Is(Grid)
    ensures Initialize(stored, a + [c] + b) == Initialize(stored, a + b)
  {
    var withC := a + [c];
    GridComponentsAppend(withC, b);
    GridComponentsAppend(a, [c]);
    GridComponentsAppend(a, b);
    NoGridComponents([c]);
    assert GridComponents(withC) == GridComponents(a) + [];
    assert GridComponents(withC) == GridComponents(a);
    assert GridComponents(withC + b) == GridComponents(a + b);
    OnlyGridsMatter(stored, withC + b, a + b);
  }

  /** One grid whose metadata is built from a current stores a fuse with that
      current on all three phases. */
  lemma SingleGridStoresUniformFuse(stored: Option<GridConnection>, before: seq<Component>, id: int,
                                    maxCurrent: real, after: seq<Component>)
    requires forall c :: c in before + after ==> !c.Is(Grid)
    ensures var grid := Component(id, Known(Grid), None, Some(GridMeta(GridMetadataOf(maxCurrent))));
      Initialize(stored, before + [grid] + after) == Initialized(Some(GridConnection(Fuse(maxCurrent, maxCurrent, maxCurrent))), Pass)
  {
    var grid := Component(id, Known(Grid), None, Some(GridMeta(GridMetadataOf(maxCurrent))));
    GridComponentsAppend(before + [grid], after);
    GridComponentsAppend(before, [grid]);
    assert GridComponents([grid]) == [grid] by {
      assert [grid][1..] == [];
    }
    NoGridComponents(before);
    NoGridComponents(after);
    assert GridComponents(before + [grid] + after) == [grid];
  }

  /** The source's test sequence: an islanded list stores nothing, two grids
      raise and store nothing, then one grid rated 123 A stores a fuse of
      123 A on every phase. */
  lemma InitializeScenario()
    ensures
      var islanded := [Plain(2, Meter)];
      var twoGrids := [Component(1, Known(Grid), None, Some(GridMeta(GridMetadataOf(123.0)))),
                       Component(2, Known(Grid), None, Some(GridMeta(GridMetadataOf(345.0)))),
                       Plain(3, Meter)];
      var oneGrid := [Component(1, Known(Grid), None, Some(GridMeta(GridMetadataOf(123.0)))),
                      Plain(2, Meter)];
      var first := Initialize(None, islanded);
      var second := Initialize(first.stored, twoGrids);
      var third := Initialize(second.stored, oneGrid);
      && Get(first.stored) == None
      && second.outcome.Fail? && Get(second.stored) == None
      && third.outcome.Pass?
      && Get(third.stored) == Some(GridConnection(Fuse(123.0, 123.0, 123.0)))
  {
    var islanded := [Plain(2, Meter)];
    NoGridComponents(islanded);
    var g1 := Component(1, Known(Grid), None, Some(GridMeta(GridMetadataOf(123.0))));
    var g2 := Component(2, Known(Grid), None, Some(GridMeta(GridMetadataOf(345.0))));
    var twoGrids := [g1, g2, Plain(3, Meter)];
    GridComponentsAppend([g1], [g2, Plain(3, Meter)]);
    GridComponentsAppend([g2], [Plain(3, Meter)]);
    NoGridComponents([Plain(3, Meter)]);
    assert [g1][1..] == [] && [g2][1..] == [];
    assert [g1] + [g2, Plain(3, Meter)] == twoGrids;
    assert [g2] + [Plain(3, Meter)] == [g2, Plain(3, Meter)];
    assert GridComponents(twoGrids) == [g1, g2];
    SingleGridStoresUniformFuse(None, [], 1, 123.0, [Plain(2, Meter)]);
    assert [] + [g1] + [Plain(2, Meter)] == [g1, Plain(2, Meter)];
  }
}
