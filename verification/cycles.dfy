/** Acyclicity of a directed graph given by node ids and connections: a
    decision procedure (repeatedly peel off the nodes without predecessors)
    and its proof against the definition "no node lies on a cycle". */
module Cycles {
  import opened Connections
  import Sets

  /** Some connection from inside `nodes` ends at `n`. */
  predicate HasPredecessorIn(n: int, nodes: set<int>, edges: set<Connection>)
  {
    exists e :: e in edges && e.end == n && e.start in nodes
  }

  /** The nodes without a predecessor inside `nodes`. */
  function Sources(nodes: set<int>, edges: set<Connection>): set<int>
  {
    set n | n in nodes && !HasPredecessorIn(n, nodes, edges)
  }

  /** What is left after peeling off sources until none remain. */
  function Residue(nodes: set<int>, edges: set<Connection>): (r: set<int>)
    ensures r <= nodes
    ensures Sources(r, edges) == {}
    decreases nodes
  {
    var s := Sources(nodes, edges);
    if s == {} then nodes else Residue(nodes - s, edges)
  }

  /** The decision procedure: everything can be peeled off. */
  predicate IsAcyclic(nodes: set<int>, edges: set<Connection>)
  {
    Residue(nodes, edges) == {}
  }

  /** `p` is a closed walk through `nodes`: each entry is connected to the
      next, and the last one back to the first. */
  ghost predicate IsCycle(p: seq<int>, nodes: set<int>, edges: set<Connection>)
  {
    && |p| > 0
    && (forall i :: 0 <= i < |p| ==> p[i] in nodes)
    && (forall i :: 0 <= i < |p| - 1 ==> Connection(p[i], p[i + 1]) in edges)
    && Connection(p[|p| - 1], p[0]) in edges
  }

  /** The decision procedure is right: it accepts exactly the graphs in
      which no walk returns to where it started. */
  lemma AcyclicIffNoCycle(nodes: set<int>, edges: set<Connection>)
    ensures IsAcyclic(nodes, edges) <==> forall p :: !IsCycle(p, nodes, edges)
  {
    forall p | IsCycle(p, nodes, edges) ensures !IsAcyclic(nodes, edges) {
      CycleSurvivesPeeling(p, nodes, edges);
      assert p[0] in Residue(nodes, edges);
    }
    if !IsAcyclic(nodes, edges) {
      var p := CycleInResidue(nodes, edges);
      assert IsCycle(p, nodes, edges);
    }
  }

  /** No node of a cycle is ever a source, so peeling never removes one. */
  lemma {:induction false} CycleSurvivesPeeling(p: seq<int>, nodes: set<int>, edges: set<Connection>)
    requires IsCycle(p, nodes, edges)
    ensures forall i :: 0 <= i < |p| ==> p[i] in Residue(nodes, edges)
    decreases nodes
  {
    var s := Sources(nodes, edges);
    if s != {} {
      forall i | 0 <= i < |p| ensures p[i] !in s {
        var j := if i == 0 then |p| - 1 else i - 1;
        assert Connection(p[j], p[i]) in edges;
        assert HasPredecessorIn(p[i], nodes, edges);
      }
      assert IsCycle(p, nodes - s, edges);
      CycleSurvivesPeeling(p, nodes - s, edges);
    }
  }

  /** In a set where every node has a predecessor, a walk of any length
      can be followed backwards from any node. */
  lemma {:induction false} WalkInto(r: set<int>, edges: set<Connection>, n: int, k: nat) returns (w: seq<int>)
    requires n in r
    requires Sources(r, edges) == {}
    ensures |w| == k + 1
    ensures w[k] == n
    ensures forall i :: 0 <= i < |w| ==> w[i] in r
    ensures forall i :: 0 <= i < k ==> Connection(w[i], w[i + 1]) in edges
  {
    if k == 0 {
      w := [n];
    } else {
      var tail := WalkInto(r, edges, n, k - 1);
      assert tail[0] !in Sources(r, edges);
      var e :| e in edges && e.end == tail[0] && e.start in r;
      w := [e.start] + tail;
      assert forall i :: 0 < i <= k ==> w[i] == tail[i - 1];
    }
  }

  /** A non-empty residue holds a cycle. */
  lemma CycleInResidue(nodes: set<int>, edges: set<Connection>) returns (p: seq<int>)
    requires Residue(nodes, edges) != {}
    ensures IsCycle(p, nodes, edges)
  {
    var r := Residue(nodes, edges);
    var n :| n in r;
    var w := WalkInto(r, edges, n, |r|);
    var i, j := Sets.Pigeonhole(w, r);
    p := ClosedSegment(w, i, j, r, edges);
    CycleInSuperset(p, r, nodes, edges);
  }

  /** The stretch of a walk between two visits of the same node is a cycle. */
  lemma ClosedSegment(w: seq<int>, i: nat, j: nat, r: set<int>, edges: set<Connection>) returns (p: seq<int>)
    requires i < j < |w| && w[i] == w[j]
    requires forall k :: 0 <= k < |w| ==> w[k] in r
    requires forall k :: 0 <= k < |w| - 1 ==> Connection(w[k], w[k + 1]) in edges
    ensures IsCycle(p, r, edges)
  {
    p := w[i..j];
    forall k | 0 <= k < |p| ensures p[k] in r {
      assert p[k] == w[i + k];
    }
    forall k | 0 <= k < |p| - 1 ensures Connection(p[k], p[k + 1]) in edges {
      assert p[k] == w[i + k] && p[k + 1] == w[i + k + 1];
    }
    assert p[|p| - 1] == w[j - 1] && p[0] == w[j];
    assert Connection(w[j - 1], w[j]) in edges;
  }

  /** A cycle through a subset is a cycle through the whole set. */
  lemma CycleInSuperset(p: seq<int>, r: set<int>, nodes: set<int>, edges: set<Connection>)
    requires IsCycle(p, r, edges) && r <= nodes
    ensures IsCycle(p, nodes, edges)
  {
  }
}
