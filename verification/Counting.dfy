/** Cardinalities of sets and maps. */
module Counting {

  /** The set of the first `n` naturals. */
  ghost function Below(n: nat): (s: set<nat>)
    ensures forall j: nat :: j in s <==> j < n
    ensures |s| == n
  {
    if n == 0 then {} else Below(n - 1) + {n - 1}
  }

  lemma {:induction false} CardinalityMonotone<T>(a: set<T>, b: set<T>)
    requires a <= b
    ensures |a| <= |b|
  {
    if a != {} {
      var x :| x in a;
      CardinalityMonotone(a - {x}, b - {x});
    }
  }

  /** A map whose values include the first `n` naturals has at least `n` keys. */
  lemma {:induction false} AtLeastAsManyKeys<K>(m: map<K, nat>, n: nat)
    requires forall i: nat :: i < n ==> i in m.Values
    ensures |m| >= n
  {
    if n > 0 {
      assert n - 1 in m.Values;
      var k :| k in m && m[k] == n - 1;
      var rest := m - {k};
      forall i: nat | i < n - 1
        ensures i in rest.Values
      {
        assert i in m.Values;
        var k' :| k' in m && m[k'] == i;
        assert k' in rest && rest[k'] == i;
      }
      AtLeastAsManyKeys(rest, n - 1);
      assert rest.Keys == m.Keys - {k};
    }
  }

  lemma {:induction false} InjectiveSize<K>(m: map<K, nat>)
    requires forall a, b :: a in m && b in m && m[a] == m[b] ==> a == b
    ensures |m| == |m.Values|
  {
    if m.Keys != {} {
      var a :| a in m;
      var rest := m - {a};
      assert rest.Keys == m.Keys - {a};
      forall v | v in m.Values - {m[a]}
        ensures v in rest.Values
      {
        var b :| b in m && m[b] == v;
        assert b in rest;
      }
      forall v | v in rest.Values
        ensures v in m.Values - {m[a]}
      {
        var b :| b in rest && rest[b] == v;
        assert b in m;
      }
      assert rest.Values == m.Values - {m[a]};
      assert m[a] in m.Values;
      InjectiveSize(rest);
    } else {
      assert m == map[];
      assert m.Values == {};
    }
  }

  lemma SubsetOfSameSize<T>(a: set<T>, b: set<T>)
    requires a <= b && |a| == |b|
    ensures a == b
  {
    assert |b - a| == |b| - |a|;
  }

  ghost predicate Distinct(row: seq<nat>) {
    forall k: nat, l: nat :: k < l < |row| ==> row[k] != row[l]
  }

  ghost function Entered(row: seq<nat>): (s: set<nat>)
    ensures forall x :: x in s <==> x in row
  {
    set x | x in row
  }

  lemma {:induction false} DistinctSize(row: seq<nat>)
    requires Distinct(row)
    ensures |Entered(row)| == |row|
  {
    if row != [] {
      var init, last := row[..|row| - 1], row[|row| - 1];
      DistinctSize(init);
      assert row == init + [last];
      assert Entered(row) == Entered(init) + {last};
    }
  }
}
