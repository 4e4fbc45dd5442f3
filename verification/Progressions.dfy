/** Arithmetic progressions modulo a number: when they visit every residue. */
module Progressions {
  import opened Bits
  import opened Counting

  /** Term `i` of the progression with a given offset and step, modulo `m`. */
  function Term(m: nat, offset: nat, step: nat, i: nat): (t: nat)
    requires m > 0
    ensures t < m
  {
    (offset + step * i) % m
  }

  /** No number from 2 to `capacity` divides the height; a prime height above `capacity` satisfies this. */
  ghost predicate NoSmallDivisor(height: nat, capacity: nat) {
    forall d: nat :: 2 <= d <= capacity ==> height % d != 0
  }

  lemma DivisionLaw(a: nat, b: nat)
    requires b > 0
    ensures a == b * (a / b) + a % b
  {
  }

  /** A step no longer than `capacity` returns to its start on the ring only after a full round. */
  lemma {:induction false} NoEarlyReturn(height: nat, capacity: nat, step: nat, count: nat)
    requires NoSmallDivisor(height, capacity) && 1 <= step <= capacity && 0 < count < height
    ensures (step * count) % height != 0
    decreases count
  {
    if (step * count) % height == 0 {
      var m := step * count / height;
      DivisionLaw(step * count, height);
      assert step * count == height * m;
      var q, r := height / count, height % count;
      DivisionLaw(height, count);
      if r > 0 {
        ShorterReturn(height, step, count, m, q, r);
        NoEarlyReturn(height, capacity, step, r);
      } else {
        QuotientDividesStep(height, step, count, m, q);
      }
    }
  }

  lemma ShorterReturn(height: nat, step: nat, count: nat, m: nat, q: nat, r: nat)
    requires height > 0 && step * count == height * m && height == count * q + r
    ensures (step * r) % height == 0
  {
    assert step * r == step * height - step * (count * q);
    assert step * (count * q) == (step * count) * q == height * (m * q);
    assert step * r == height * (step - m * q);
    ModuloUnique(step * r, height, step - m * q, 0);
  }

  /** If `count` divides the height, then the quotient, which is at least two, divides both the step and the height. */
  lemma QuotientDividesStep(height: nat, step: nat, count: nat, m: nat, q: nat)
    requires 0 < count < height && step > 0 && step * count == height * m && height == count * q
    ensures 2 <= q <= step && height % q == 0
  {
    assert count * (q * m) == count * step;
    assert q * m == step by {
      CancelFactor(count, q * m, step);
    }
    assert q != 0 && q != 1;
    assert m >= 1;
    assert q * m >= q;
    ModuloUnique(height, q, count, 0);
  }

  lemma CancelFactor(c: nat, a: nat, b: nat)
    requires c > 0 && c * a == c * b
    ensures a == b
  {
    assert c * (a - b) == 0;
  }

  lemma SameRemainder(a: nat, b: nat, height: nat)
    requires height > 0 && a <= b && a % height == b % height
    ensures (b - a) % height == 0
  {
    DivisionLaw(a, height);
    DivisionLaw(b, height);
    assert b - a == height * (b / height - a / height);
    ModuloUnique(b - a, height, b / height - a / height, 0);
  }

  /** A short step visits no residue twice in one round. */
  lemma TermsDiffer(m: nat, capacity: nat, offset: nat, step: nat, i: nat, i': nat)
    requires NoSmallDivisor(m, capacity) && 1 <= step <= capacity && i < i' < m
    ensures Term(m, offset, step, i) != Term(m, offset, step, i')
  {
    NoEarlyReturn(m, capacity, step, i' - i);
    if Term(m, offset, step, i) == Term(m, offset, step, i') {
      StepsApart(offset, step, i, i');
      SameRemainder(offset + step * i, offset + step * i', m);
      assert false;
    }
  }

  lemma StepsApart(offset: nat, step: nat, i: nat, i': nat)
    requires i < i'
    ensures offset + step * i <= offset + step * i'
    ensures (offset + step * i') - (offset + step * i) == step * (i' - i)
  {
    assert step * i' == step * i + step * (i' - i);
  }

  /** The residues visited by the first `n` terms. */
  ghost function Visited(m: nat, offset: nat, step: nat, n: nat): (s: set<nat>)
    requires m > 0
    ensures forall b :: b in s <==> b < m && exists i: nat :: i < n && Term(m, offset, step, i) == b
  {
    set i: nat | i < n :: Term(m, offset, step, i)
  }

  lemma {:induction false} VisitedSize(m: nat, capacity: nat, offset: nat, step: nat, n: nat)
    requires NoSmallDivisor(m, capacity) && 1 <= step <= capacity && n <= m && m > 0
    ensures |Visited(m, offset, step, n)| == n
  {
    hide Term, NoSmallDivisor;
    if n > 0 {
      VisitedSize(m, capacity, offset, step, n - 1);
      forall i: nat | i < n - 1
        ensures Term(m, offset, step, i) != Term(m, offset, step, n - 1)
      {
        TermsDiffer(m, capacity, offset, step, i, n - 1);
      }
      assert Visited(m, offset, step, n) == Visited(m, offset, step, n - 1) + {Term(m, offset, step, n - 1)};
    }
  }

  /** A short step visits every residue in one round. */
  lemma TermVisits(m: nat, capacity: nat, offset: nat, step: nat, b: nat) returns (i: nat)
    requires NoSmallDivisor(m, capacity) && 1 <= step <= capacity && b < m
    ensures i < m && Term(m, offset, step, i) == b
  {
    hide Term, NoSmallDivisor;
    VisitedSize(m, capacity, offset, step, m);
    SubsetOfSameSize(Visited(m, offset, step, m), Below(m));
    assert b in Visited(m, offset, step, m);
    i :| i < m && Term(m, offset, step, i) == b;
  }
}
