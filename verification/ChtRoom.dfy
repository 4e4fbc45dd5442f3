/**
 When the buckets of the consistent hash table have room for all that is entered in them. If a small number divides
 the height, the progressions of the backends crowd one residue class of buckets, and one of those overflows.
 */
module ChtRoom {
  import opened Bits
  import opened ChtSpec
  import opened Progressions

  ghost predicate RoomEverywhere(height: nat, capacity: nat)
    requires height > 1
  {
    forall b: nat :: b < height ==> |Row(height, capacity, b)| <= capacity
  }

  /** Whether a backend, at a rank, prefers a bucket of the residue class of `r` modulo `p`. */
  ghost function InClass(height: nat, p: nat, r: nat, backend: nat, rank: nat): nat
    requires height > 1 && p > 0
  {
    if Preference(height, backend, rank) % p == r then 1 else 0
  }

  /** At how many of the first `n` ranks a backend prefers a bucket of the class. */
  ghost function ClassRanks(height: nat, p: nat, r: nat, backend: nat, n: nat): nat
    requires height > 1 && p > 0
  {
    if n == 0 then 0 else ClassRanks(height, p, r, backend, n - 1) + InClass(height, p, r, backend, n - 1)
  }

  /** The entries of the class from the first `k` backends, when backends below `j` are one rank ahead. */
  ghost function ByBackend(height: nat, p: nat, r: nat, i: nat, j: nat, k: nat): nat
    requires height > 1 && p > 0
  {
    if k == 0 then 0
    else ByBackend(height, p, r, i, j, k - 1) + ClassRanks(height, p, r, k - 1, if k - 1 < j then i + 1 else i)
  }

  /** Bucket `k` of the class. */
  function ClassBucket(p: nat, r: nat, k: nat): nat {
    r + p * k
  }

  /** The entries in the first `k` buckets of the class. */
  ghost function ByBucket(height: nat, capacity: nat, p: nat, r: nat, i: nat, j: nat, k: nat): nat
    requires height > 1 && p > 0
  {
    if k == 0 then 0
    else ByBucket(height, capacity, p, r, i, j, k - 1) + |Hits(height, capacity, ClassBucket(p, r, k - 1), i, j)|
  }

  lemma {:induction false} NextBackend(height: nat, p: nat, r: nat, i: nat, j: nat, k: nat)
    requires height > 1 && p > 0
    ensures ByBackend(height, p, r, i, j + 1, k) ==
              ByBackend(height, p, r, i, j, k) + if j < k then InClass(height, p, r, j, i) else 0
  {
    hide InClass;
    if k > 0 {
      NextBackend(height, p, r, i, j, k - 1);
    }
  }

  lemma {:induction false} NextRank(height: nat, p: nat, r: nat, i: nat, k: nat, j: nat)
    requires height > 1 && p > 0 && k <= j
    ensures ByBackend(height, p, r, i, j, k) == ByBackend(height, p, r, i + 1, 0, k)
  {
    hide InClass;
    if k > 0 {
      NextRank(height, p, r, i, k - 1, j);
    }
  }

  lemma {:induction false} NextBucketEntry(height: nat, capacity: nat, p: nat, r: nat, i: nat, j: nat, k: nat)
    requires height > 1 && r < p
    ensures var b := Preference(height, j, i);
            ByBucket(height, capacity, p, r, i, j + 1, k) ==
              ByBucket(height, capacity, p, r, i, j, k) + if b % p == r && b / p < k then 1 else 0
  {
    hide Preference, Hits, ClassBucket;
    if k > 0 {
      var b := Preference(height, j, i);
      NextBucketEntry(height, capacity, p, r, i, j, k - 1);
      HitsNext(height, capacity, ClassBucket(p, r, k - 1), i, j);
      ClassMember(b, p, r, k - 1);
    }
  }

  lemma ClassMember(b: nat, p: nat, r: nat, k: nat)
    requires r < p
    ensures b == ClassBucket(p, r, k) <==> (b % p == r && b / p == k)
  {
    if b == r + p * k {
      ModuloUnique(b, p, k, r);
    } else {
      DivisionLaw(b, p);
    }
  }

  lemma {:induction false} SameRank(height: nat, capacity: nat, p: nat, r: nat, i: nat, k: nat)
    requires height > 1 && p > 0
    ensures ByBucket(height, capacity, p, r, i + 1, 0, k) == ByBucket(height, capacity, p, r, i, capacity, k)
  {
    hide Hits;
    if k > 0 {
      SameRank(height, capacity, p, r, i, k - 1);
      HitsNextRank(height, capacity, ClassBucket(p, r, k - 1), i);
    }
  }

  lemma {:induction false} NoneYet(height: nat, capacity: nat, p: nat, r: nat, k: nat)
    requires height > 1 && p > 0
    ensures ByBucket(height, capacity, p, r, 0, 0, k) == 0 && ByBackend(height, p, r, 0, 0, k) == 0
  {
    if k > 0 {
      NoneYet(height, capacity, p, r, k - 1);
    }
  }

  /** Counting the entries of a class by bucket or by backend gives the same. */
  lemma {:induction false} CountedTwice(height: nat, capacity: nat, p: nat, r: nat, q: nat, i: nat, j: nat)
    requires height > 1 && r < p && height == p * q && j <= capacity
    ensures ByBucket(height, capacity, p, r, i, j, q) == ByBackend(height, p, r, i, j, capacity)
    decreases i, j
  {
    hide Preference, Hits, ByBucket, ByBackend;
    if j > 0 {
      CountedTwice(height, capacity, p, r, q, i, j - 1);
      NextBucketEntry(height, capacity, p, r, i, j - 1, q);
      NextBackend(height, p, r, i, j - 1, capacity);
      QuotientBelow(Preference(height, j - 1, i), p, q);
    } else if i > 0 {
      CountedTwice(height, capacity, p, r, q, i - 1, capacity);
      SameRank(height, capacity, p, r, i - 1, q);
      NextRank(height, p, r, i - 1, capacity, capacity);
    } else {
      NoneYet(height, capacity, p, r, q);
      NoneYet(height, capacity, p, r, capacity);
    }
  }

  lemma QuotientBelow(b: nat, p: nat, q: nat)
    requires p > 0 && b < p * q
    ensures b / p < q
  {
    DivisionLaw(b, p);
    if b / p >= q {
      TimesMonotone(p, q, b / p);
    }
  }

  lemma TimesMonotone(a: nat, b: nat, c: nat)
    requires b <= c
    ensures a * b <= a * c
  {
  }

  lemma TimesDistributes(a: nat, b: nat, c: nat)
    ensures a * (b + c) == a * b + a * c
  {
  }

  lemma ModuloOfModulo(x: nat, m: nat, p: nat)
    requires m > 0 && p > 0 && m % p == 0
    ensures (x % m) % p == x % p
  {
    DivisionLaw(x, m);
    DivisionLaw(m, p);
    DivisionLaw(x % m, p);
    var a, b := x / m, m / p;
    assert m * a == p * (b * a) by {
      assert (p * b) * a == p * (b * a);
    }
    ModuloUnique(x, p, b * a + (x % m) / p, (x % m) % p);
  }

  lemma AddMultiple(x: nat, p: nat, k: nat)
    requires p > 0
    ensures (x + p * k) % p == x % p
  {
    DivisionLaw(x, p);
    ModuloUnique(x + p * k, p, x / p + k, x % p);
  }

  /** The residue of a preference modulo a divisor of the height. */
  lemma PreferenceModulo(height: nat, backend: nat, rank: nat, p: nat)
    requires 0 < p && height % p == 0 && backend + 1 < height
    ensures Preference(height, backend, rank) % p == (backend * 31 + (backend + 1) * rank) % p
  {
    var offset, step := Offset(height, backend), (backend + 1) * rank;
    StepOfBackend(height, backend);
    ModuloOfModulo(offset + step, height, p);
    DivisionLaw(backend * 31, height);
    DivisionLaw(height, p);
    var a, b := backend * 31 / height, height / p;
    TimesAssociate(p, b, a);
    AddMultiple(offset + step, p, b * a);
  }

  /** The class that backend `p - 1` is confined to. */
  function Crowded(p: nat): (r: nat)
    requires p > 0
    ensures r < p
  {
    (p - 1) * 31 % p
  }

  /** Backend `p - 1` prefers buckets of the crowded class only. */
  lemma Confined(height: nat, p: nat, rank: nat)
    requires 2 <= p < height && height % p == 0
    ensures InClass(height, p, Crowded(p), p - 1, rank) == 1
  {
    PreferenceModulo(height, p - 1, rank, p);
    AddMultiple((p - 1) * 31, p, rank);
  }

  ghost predicate LeastDivisor(height: nat, p: nat) {
    p >= 2 && height % p == 0 && NoSmallDivisor(height, p - 1)
  }

  lemma {:induction false} FindLeastDivisor(height: nat, d: nat) returns (p: nat)
    requires d >= 2 && height % d == 0
    ensures p <= d && LeastDivisor(height, p)
  {
    if e: nat :| 2 <= e <= d - 1 && height % e == 0 {
      p := FindLeastDivisor(height, e);
    } else {
      p := d;
    }
  }

  /** A divisor of the least divisor divides the height, so there is none. */
  lemma LeastIsPrime(height: nat, p: nat)
    requires LeastDivisor(height, p)
    ensures NoSmallDivisor(p, p - 1)
  {
    forall e: nat | 2 <= e <= p - 1
      ensures p % e != 0
    {
      if p % e == 0 {
        DividesThrough(height, p, e);
      }
    }
  }

  /** Among any `p` consecutive ranks each backend prefers some bucket of the crowded class. */
  lemma OncePerBlock(height: nat, p: nat, backend: nat, start: nat) returns (i: nat)
    requires LeastDivisor(height, p) && p < height && backend + 1 < height
    ensures i < p && InClass(height, p, Crowded(p), backend, start + i) == 1
  {
    hide LeastDivisor, InClass;
    DividesHeight(height, p);
    LeastIsPrime(height, p);
    var step := (backend + 1) % p;
    if step == 0 {
      i := 0;
      MultipleIsConfined(height, p, backend, start);
    } else {
      var offset := backend * 31 + (backend + 1) * start;
      i := TermVisits(p, p - 1, offset, step, Crowded(p));
      StepModulo(offset, backend + 1, i, p);
      TimesDistributes(backend + 1, start, i);
      IsInClass(height, p, backend, start + i);
    }
  }

  /** When a backend's preference falls into the crowded class. */
  lemma IsInClass(height: nat, p: nat, backend: nat, rank: nat)
    requires 0 < p && height % p == 0 && backend + 1 < height
    requires (backend * 31 + (backend + 1) * rank) % p == Crowded(p)
    ensures InClass(height, p, Crowded(p), backend, rank) == 1
  {
    hide Preference;
    PreferenceModulo(height, backend, rank, p);
  }

  lemma DividesHeight(height: nat, p: nat)
    requires LeastDivisor(height, p)
    ensures p >= 2 && height % p == 0
  {
  }

  lemma StepModulo(offset: nat, step: nat, i: nat, p: nat)
    requires p > 0
    ensures (offset + (step % p) * i) % p == (offset + step * i) % p
  {
    DivisionLaw(step, p);
    var a, s := step / p, step % p;
    assert step * i == s * i + p * (a * i) by {
      assert (p * a + s) * i == (p * a) * i + s * i;
      assert (p * a) * i == p * (a * i);
    }
    AddMultiple(offset + s * i, p, a * i);
  }

  lemma MultipleIsConfined(height: nat, p: nat, backend: nat, rank: nat)
    requires 2 <= p < height && height % p == 0 && backend + 1 < height && (backend + 1) % p == 0
    ensures InClass(height, p, Crowded(p), backend, rank) == 1
  {
    DivisionLaw(backend + 1, p);
    var e := (backend + 1) / p;
    TimesAssociate(p, e, rank);
    AddMultiple(backend * 31, p, e * rank);
    OffsetConfined(p, backend, e);
    IsInClass(height, p, backend, rank);
  }

  lemma TimesAssociate(a: nat, b: nat, c: nat)
    ensures (a * b) * c == a * (b * c)
  {
  }

  lemma OffsetConfined(p: nat, backend: nat, e: nat)
    requires p > 0 && backend + 1 == p * e
    ensures (backend * 31) % p == Crowded(p)
  {
    assert e >= 1;
    TimesDistributes(p, 1, e - 1);
    TimesAssociate(p, e - 1, 31);
    AddMultiple((p - 1) * 31, p, (e - 1) * 31);
  }

  lemma DividesThrough(a: nat, b: nat, c: nat)
    requires b > 0 && c > 0 && a % b == 0 && b % c == 0
    ensures a % c == 0
  {
    DivisionLaw(a, b);
    DivisionLaw(b, c);
    TimesAssociate(c, b / c, a / b);
    ModuloUnique(a, c, (b / c) * (a / b), 0);
  }

  /** A backend enters the crowded class at least once in `p` ranks, and backend `p - 1` at every rank. */
  lemma {:induction false} RanksInClass(height: nat, p: nat, backend: nat, a: nat)
    requires LeastDivisor(height, p) && p < height && backend + 1 < height
    ensures ClassRanks(height, p, Crowded(p), backend, p * a) >= a
  {
    hide LeastDivisor, Preference, InClass;
    DividesHeight(height, p);
    if a > 0 {
      RanksInClass(height, p, backend, a - 1);
      TimesDistributes(p, a - 1, 1);
      var i := OncePerBlock(height, p, backend, p * (a - 1));
      RanksGrow(height, p, Crowded(p), backend, p * (a - 1), p * (a - 1) + i);
      RanksGrow(height, p, Crowded(p), backend, p * (a - 1) + i + 1, p * a);
    }
  }

  lemma {:induction false} RanksGrow(height: nat, p: nat, r: nat, backend: nat, n: nat, n': nat)
    requires height > 1 && p > 0 && n <= n'
    ensures ClassRanks(height, p, r, backend, n) <= ClassRanks(height, p, r, backend, n')
  {
    hide InClass;
    if n < n' {
      RanksGrow(height, p, r, backend, n, n' - 1);
    }
  }

  lemma {:induction false} AllRanksConfined(height: nat, p: nat, n: nat)
    requires 2 <= p < height && height % p == 0
    ensures ClassRanks(height, p, Crowded(p), p - 1, n) == n
  {
    hide InClass;
    if n > 0 {
      AllRanksConfined(height, p, n - 1);
      Confined(height, p, n - 1);
    }
  }

  /** Together the first `k` backends enter the class more often than its buckets have room for. */
  lemma {:induction false} ManyEntries(height: nat, p: nat, q: nat, k: nat)
    requires LeastDivisor(height, p) && p < height && height == p * q && k < height
    ensures ByBackend(height, p, Crowded(p), height, 0, k) >= Times(q, k) + if k >= p then height - q else 0
  {
    hide LeastDivisor, ClassRanks, Crowded, Times;
    DividesHeight(height, p);
    if k == 0 {
      TimesZero(q);
    } else {
      ManyEntries(height, p, q, k - 1);
      RanksInClass(height, p, k - 1, q);
      TimesNext(q, k - 1);
      if k == p {
        AllRanksConfined(height, p, height);
      }
    }
  }

  function Times(a: nat, b: nat): nat {
    a * b
  }

  lemma TimesZero(a: nat)
    ensures Times(a, 0) == 0
  {
  }

  lemma TimesNext(a: nat, b: nat)
    ensures Times(a, b + 1) == Times(a, b) + a
  {
    TimesDistributes(a, b, 1);
  }

  /** If no bucket of the class is overfull, then the class has no more entries than its buckets have room for. */
  lemma {:induction false} FewEntries(height: nat, capacity: nat, p: nat, r: nat, q: nat, k: nat)
    requires height > 1 && r < p && height == p * q && k <= q && RoomEverywhere(height, capacity)
    ensures ByBucket(height, capacity, p, r, height, 0, k) <= Times(capacity, k)
  {
    hide Hits, Times;
    if k == 0 {
      TimesZero(capacity);
    } else {
      FewEntries(height, capacity, p, r, q, k - 1);
      TimesMonotone(p, k, q);
      TimesDistributes(p, k - 1, 1);
      assert |Row(height, capacity, ClassBucket(p, r, k - 1))| <= capacity;
      TimesNext(capacity, k - 1);
    }
  }

  lemma Overfull(height: nat, capacity: nat, d: nat)
    requires 2 <= d <= capacity < height && height % d == 0
    ensures !RoomEverywhere(height, capacity)
  {
    hide RoomEverywhere, LeastDivisor, Crowded;
    if RoomEverywhere(height, capacity) {
      var p := FindLeastDivisor(height, d);
      DividesHeight(height, p);
      DivisionLaw(height, p);
      var q := height / p;
      ManyEntries(height, p, q, capacity);
      CountedTwice(height, capacity, p, Crowded(p), q, height, 0);
      FewEntries(height, capacity, p, Crowded(p), q, q);
      TwiceAtMost(p, q);
    }
  }

  /** Every bucket has room for its entries if and only if no number from 2 to `capacity` divides the height. */
  lemma RoomIff(height: nat, capacity: nat)
    requires capacity < height && height > 1
    ensures NoSmallDivisor(height, capacity) <==> RoomEverywhere(height, capacity)
  {
    if NoSmallDivisor(height, capacity) {
      forall b: nat | b < height
        ensures |Row(height, capacity, b)| <= capacity
      {
        RowListsEachOnce(height, capacity, b);
      }
    } else {
      var d: nat :| 2 <= d <= capacity && height % d == 0;
      Overfull(height, capacity, d);
    }
  }
}
