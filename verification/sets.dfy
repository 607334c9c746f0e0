/** Small facts about finite sets and sequences that the graph proofs rely on. */
module Sets {

  /** The single element of a singleton set. */
  function Only<T>(s: set<T>): (x: T)
    requires |s| == 1
    ensures s == {x}
  {
    var x :| x in s;
    assert s == {x} by {
      assert |s - {x}| == 0;
    }
    x
  }

  /** A set with more than one element holds two distinct elements. */
  lemma TwoDistinct<T>(s: set<T>) returns (a: T, b: T)
    requires |s| > 1
    ensures a in s && b in s && a != b
  {
    a :| a in s;
    assert |s - {a}| == |s| - 1;
    b :| b in s - {a};
  }

  /** A set holds two distinct elements exactly when it has more than one. */
  lemma MoreThanOneIff<T>(s: set<T>)
    ensures |s| > 1 <==> exists a, b :: a in s && b in s && a != b
  {
    if |s| > 1 {
      var a, b := TwoDistinct(s);
    }
    if exists a, b :: a in s && b in s && a != b {
      var a, b :| a in s && b in s && a != b;
      MoreThanOne(s, a, b);
    }
  }

  /** A set with two distinct elements has more than one element. */
  lemma MoreThanOne<T>(s: set<T>, a: T, b: T)
    requires a in s && b in s && a != b
    ensures |s| > 1
  {
    assert {a, b} <= s;
    assert |{a, b}| == 2;
    if |s| <= 1 {
      SubsetCardinality({a, b}, s);
    }
  }

  lemma SubsetCardinality<T>(a: set<T>, b: set<T>)
    requires a <= b
    ensures |a| <= |b|
  {
    if a != {} {
      var x :| x in a;
      SubsetCardinality(a - {x}, b - {x});
    }
  }

  /** The elements of a sequence, as a set. */
  function Elements<T>(w: seq<T>): set<T>
  {
    set i | 0 <= i < |w| :: w[i]
  }

  predicate NoDuplicates<T(==)>(w: seq<T>)
  {
    forall i, j :: 0 <= i < j < |w| ==> w[i] != w[j]
  }

  /** A duplicate-free sequence has as many distinct elements as entries. */
  lemma {:induction false} DistinctElements<T>(w: seq<T>)
    requires NoDuplicates(w)
    ensures |Elements(w)| == |w|
  {
    if w != [] {
      var rest := w[1..];
      DistinctElements(rest);
      assert Elements(w) == {w[0]} + Elements(rest) by {
        forall x | x in Elements(w) ensures x in {w[0]} + Elements(rest) {
          var i :| 0 <= i < |w| && w[i] == x;
          if i > 0 {
            assert rest[i - 1] == x;
          }
        }
        forall x | x in Elements(rest) ensures x in Elements(w) {
          var i :| 0 <= i < |rest| && rest[i] == x;
          assert w[i + 1] == x;
        }
      }
      assert w[0] !in Elements(rest) by {
        forall i | 0 <= i < |rest| ensures rest[i] != w[0] {
          assert rest[i] == w[i + 1];
        }
      }
    }
  }

  /** Pigeonhole: a sequence longer than the set it draws from repeats an entry. */
  lemma Pigeonhole<T>(w: seq<T>, s: set<T>) returns (i: nat, j: nat)
    requires forall k :: 0 <= k < |w| ==> w[k] in s
    requires |w| > |s|
    ensures i < j < |w| && w[i] == w[j]
  {
    if NoDuplicates(w) {
      DistinctElements(w);
      assert Elements(w) <= s;
      SubsetCardinality(Elements(w), s);
      assert false;
    }
    i, j :| 0 <= i < j < |w| && w[i] == w[j];
  }
}
