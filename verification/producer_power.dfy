/** The formula for the power of a microgrid's producers: the sum of the
    active power of every CHP chain and every PV chain below the grid
    connection. The formula builder is modelled by the sequence of tokens
    it receives. */
module ProducerPowerFormula {
  import opened Wrappers
  import opened Sets
  import opened Connections
  import opened Components
  import opened ComponentGraphs

  /** What a formula reads: a component's metric, or the placeholder id a
      formula over no component reads, whose value is not part of this model. */
  datatype ComponentRef = ComponentId(id: int) | NonExistingComponent

  /** One call made on the formula builder. */
  datatype Token =
    | PushComponentMetric(component: ComponentRef, nonesAreZeros: bool)
    | PushOper(op: string)

  /** A finished formula: its name, the metric it reads, and its tokens in
      the order the builder received them. */
  datatype Formula = Formula(name: string, metric: ComponentMetricId, tokens: seq<Token>)

  /** Why `Generate` raised. */
  datatype GenerateError =
      /** The grid component's successors could not be looked up. */
    | ComponentNotFound
    | GridSuccessorNotMeter(successor: Component)
    | Lookup(cause: GraphError)

  const FormulaName: string := "producer_power"

  /** The components the formula chooses among. A grid connection behind a
      single component must be behind a meter, and then the meter's
      successors are the candidates; otherwise the grid's successors are. */
  function Candidates(g: ComponentGraph, gridSuccessors: set<Component>): (r: Result<set<Component>, GenerateError>)
    ensures |gridSuccessors| != 1 ==> r == Success(gridSuccessors)
    ensures forall m :: gridSuccessors == {m} && !m.Is(Meter) ==> r == Failure(GridSuccessorNotMeter(m))
    ensures forall m :: gridSuccessors == {m} && m.Is(Meter) && m.id !in NodeIds(g) ==>
      r == Failure(Lookup(ComponentNotInGraph(m.id)))
    ensures forall m :: gridSuccessors == {m} && m.Is(Meter) && m.id in NodeIds(g) ==>
      r.Success? && forall c :: c in r.value <==> c in g.components && Connection(m.id, c.id) in g.connections
  {
    if |gridSuccessors| == 1 then
      var gridMeter := Only(gridSuccessors);
      if gridMeter.category != Known(Meter) then Failure(GridSuccessorNotMeter(gridMeter))
      else
        match Successors(g, gridMeter.id)
        case Failure(e) => Failure(Lookup(e))
        case Success(s) => Success(s)
    else
      Success(gridSuccessors)
  }

  /** A candidate the formula includes. */
  predicate IsProducer(c: Component, isChpChain: Component -> bool, isPvChain: Component -> bool)
  {
    isChpChain(c) || isPvChain(c)
  }

  /** The included candidates, in visiting order. */
  function Producers(order: seq<Component>, isChpChain: Component -> bool, isPvChain: Component -> bool)
    : (r: seq<Component>)
    ensures |r| <= |order|
    ensures forall c :: c in r <==> c in order && IsProducer(c, isChpChain, isPvChain)
    decreases |order|
  {
    if order == [] then []
    else
      var last := order[|order| - 1];
      Producers(order[..|order| - 1], isChpChain, isPvChain)
        + (if IsProducer(last, isChpChain, isPvChain) then [last] else [])
  }

  /** The push of one included component; a missing value counts as zero
      unless the component is a meter. */
  function PushOf(c: Component): Token
  {
    PushComponentMetric(ComponentId(c.id), c.category != Known(Meter))
  }

  /** The pushes of `producers` joined by additions. */
  function Joined(producers: seq<Component>): (r: seq<Token>)
    ensures |r| == if producers == [] then 0 else 2 * |producers| - 1
    decreases |producers|
  {
    if |producers| <= 1 then
      (if producers == [] then [] else [PushOf(producers[0])])
    else
      var n := |producers|;
      Joined(producers[..n - 1]) + [PushOper("+"), PushOf(producers[n - 1])]
  }

  /** The tokens of the producer formula over the included components:
      their pushes joined by additions, or the placeholder when there are none. */
  function FormulaTokens(producers: seq<Component>): (r: seq<Token>)
    ensures |r| > 0
  {
    if producers == [] then [PushComponentMetric(NonExistingComponent, true)] else Joined(producers)
  }

  /** Pushes and additions alternate, starting and ending with a push: the
      i-th push reads the i-th included component, with missing values
      counting as zero exactly when that component is not a meter, and the
      additions sit exactly at the odd positions. */
  lemma {:induction false} JoinedShape(producers: seq<Component>)
    ensures forall i :: 0 <= i < |producers| ==>
              Joined(producers)[2 * i] == PushComponentMetric(ComponentId(producers[i].id), !producers[i].Is(Meter))
    ensures forall j :: 0 <= j < |Joined(producers)| ==>
      (Joined(producers)[j].PushOper? <==> j % 2 == 1)
    ensures forall j :: 0 <= j < |Joined(producers)| && j % 2 == 1 ==> Joined(producers)[j] == PushOper("+")
    decreases |producers|
  {
    var n := |producers|;
    if n > 1 {
      var front := producers[..n - 1];
      JoinedShape(front);
      var r := Joined(producers);
      assert r == Joined(front) + [PushOper("+"), PushOf(producers[n - 1])];
      forall i | 0 <= i < n ensures r[2 * i] == PushOf(producers[i]) {
        if i < n - 1 {
          assert r[2 * i] == Joined(front)[2 * i];
          assert front[i] == producers[i];
        }
      }
    }
  }

  /** Every included component is pushed, and nothing else but the
      placeholder is: a component id appears in the formula exactly when
      an included component has it. */
  lemma PushedIds(producers: seq<Component>, id: int)
    ensures (exists j :: 0 <= j < |FormulaTokens(producers)| && FormulaTokens(producers)[j].PushComponentMetric?
               && FormulaTokens(producers)[j].component == ComponentId(id))
      <==> exists c :: c in producers && c.id == id
  {
    var r := FormulaTokens(producers);
    if producers != [] {
      JoinedShape(producers);
      if exists j :: 0 <= j < |r| && r[j].PushComponentMetric? && r[j].component == ComponentId(id) {
        var j :| 0 <= j < |r| && r[j].PushComponentMetric? && r[j].component == ComponentId(id);
        assert j % 2 == 0;
        assert r[2 * (j / 2)] == PushOf(producers[j / 2]);
        assert producers[j / 2] in producers;
      }
      if exists c :: c in producers && c.id == id {
        var c :| c in producers && c.id == id;
        var i :| 0 <= i < |producers| && producers[i] == c;
        assert r[2 * i] == PushOf(c);
      }
    }
  }

  /** Over a duplicate-free visiting order, the included components are
      duplicate-free too, so each is pushed once. */
  lemma {:induction false} ProducersAreDistinct(order: seq<Component>, isChpChain: Component -> bool,
                                                isPvChain: Component -> bool)
    requires NoDuplicates(order)
    ensures NoDuplicates(Producers(order, isChpChain, isPvChain))
    decreases |order|
  {
    if order != [] {
      var n := |order|;
      var front := order[..n - 1];
      assert NoDuplicates(front) by {
        forall i, j | 0 <= i < j < |front| ensures front[i] != front[j] {
          assert front[i] == order[i] && front[j] == order[j];
        }
      }
      ProducersAreDistinct(front, isChpChain, isPvChain);
      var last := order[n - 1];
      assert last !in front by {
        forall i | 0 <= i < |front| ensures front[i] != last {
          assert front[i] == order[i];
        }
      }
    }
  }

  /** The appended element joins the elements of a sequence. */
  lemma ElementsSnoc(w: seq<Component>, x: Component)
    ensures Elements(w + [x]) == Elements(w) + {x}
  {
    forall y | y in Elements(w + [x]) ensures y in Elements(w) + {x} {
      var i :| 0 <= i < |w + [x]| && (w + [x])[i] == y;
      if i < |w| {
        assert w[i] == y;
      }
    }
    forall y | y in Elements(w) ensures y in Elements(w + [x]) {
      var i :| 0 <= i < |w| && w[i] == y;
      assert (w + [x])[i] == y;
    }
    assert (w + [x])[|w|] == x;
  }

  /** Visiting one more candidate extends the included components by it
      exactly when it is a producer. */
  lemma ProducersSnoc(order: seq<Component>, x: Component, isChpChain: Component -> bool, isPvChain: Component -> bool)
    ensures Producers(order + [x], isChpChain, isPvChain) ==
      Producers(order, isChpChain, isPvChain) + (if IsProducer(x, isChpChain, isPvChain) then [x] else [])
  {
    assert (order + [x])[..|order|] == order;
  }

  /** Including one more component extends the tokens by its push, after
      a "+" unless it is the first. */
  lemma JoinedSnoc(producers: seq<Component>, x: Component)
    ensures Joined(producers + [x]) ==
      (if producers == [] then [] else Joined(producers) + [PushOper("+")]) + [PushOf(x)]
  {
    assert (producers + [x])[..|producers|] == producers;
  }

  /** A fresh element keeps a sequence duplicate-free. */
  lemma NoDuplicatesSnoc(w: seq<Component>, x: Component)
    requires NoDuplicates(w) && x !in Elements(w)
    ensures NoDuplicates(w + [x])
  {
    forall i, j | 0 <= i < j < |w + [x]| ensures (w + [x])[i] != (w + [x])[j] {
      assert (w + [x])[i] == w[i];
      if j == |w| {
        assert w[i] in Elements(w);
      }
    }
  }

  /** The loop of the generator: visits every candidate once, in the
      iteration order of a set, which the model leaves open and reports as
      `visitOrder`. Each included candidate is pushed, after a "+" unless
      it is the first; if none is included, the placeholder is pushed. */
  method PushProducers(candidates: set<Component>, isChpChain: Component -> bool, isPvChain: Component -> bool)
    returns (tokens: seq<Token>, visitOrder: seq<Component>)
    ensures Elements(visitOrder) == candidates
    ensures NoDuplicates(visitOrder)
    ensures tokens == FormulaTokens(Producers(visitOrder, isChpChain, isPvChain))
  {
    var todo := candidates;
    visitOrder := [];
    tokens := [];
    var firstIteration := true;
    while todo != {}
      invariant todo + Elements(visitOrder) == candidates
      invariant todo !! Elements(visitOrder)
      invariant NoDuplicates(visitOrder)
      invariant tokens == Joined(Producers(visitOrder, isChpChain, isPvChain))
      invariant firstIteration <==> Producers(visitOrder, isChpChain, isPvChain) == []
      decreases todo
    {
      var successor :| successor in todo;
      todo := todo - {successor};
      ghost var producers := Producers(visitOrder, isChpChain, isPvChain);
      ProducersSnoc(visitOrder, successor, isChpChain, isPvChain);
      if isChpChain(successor) || isPvChain(successor) {
        JoinedSnoc(producers, successor);
        if !firstIteration {
          tokens := tokens + [PushOper("+")];
        }
        firstIteration := false;
        tokens := tokens + [PushComponentMetric(ComponentId(successor.id), successor.category != Known(Meter))];
        assert tokens == Joined(producers + [successor]);
      } else {
        assert Producers(visitOrder + [successor], isChpChain, isPvChain) == producers;
      }
      ElementsSnoc(visitOrder, successor);
      NoDuplicatesSnoc(visitOrder, successor);
      visitOrder := visitOrder + [successor];
    }
    if firstIteration {
      tokens := tokens + [PushComponentMetric(NonExistingComponent, true)];
    }
  }

  /** Generates the producer power formula: "producer_power" over active
      power, pushing the included candidates. `gridSuccessors` is the result
      of looking up the grid component's successors, none when that lookup
      raised. */
  method Generate(g: ComponentGraph, gridSuccessors: Option<set<Component>>,
                  isChpChain: Component -> bool, isPvChain: Component -> bool)
    returns (r: Result<Formula, GenerateError>, visitOrder: seq<Component>)
    ensures gridSuccessors.None? ==> r == Failure(ComponentNotFound)
    ensures r.Success? ==> r.value.name == FormulaName && r.value.metric == ActivePower
    ensures r.Success? ==> r.value.tokens == FormulaTokens(Producers(visitOrder, isChpChain, isPvChain))
    ensures gridSuccessors.Some? ==> (r.Failure? <==> Candidates(g, gridSuccessors.value).Failure?)
    ensures gridSuccessors.Some? && r.Failure? ==> r.error == Candidates(g, gridSuccessors.value).error
    ensures r.Success? ==>
      gridSuccessors.Some? && Elements(visitOrder) == Candidates(g, gridSuccessors.value).value
      && NoDuplicates(visitOrder)
  {
    if gridSuccessors.None? {
      return Failure(ComponentNotFound), [];
    }
    var candidates := Candidates(g, gridSuccessors.value);
    if candidates.Failure? {
      return Failure(candidates.error), [];
    }
    var tokens;
    tokens, visitOrder := PushProducers(candidates.value, isChpChain, isPvChain);
    r := Success(Formula(FormulaName, ActivePower, tokens));
  }
}
