/**
 The preference table of the consistent hash table. Every backend ranks all buckets by an arithmetic progression
 modulo the height; every bucket then lists the backends by the rank they give it.
 */
module ChtSpec {
  import opened Bits
  import opened Counting
  import opened Options
  import opened Progressions

  function Offset(height: nat, backend: nat): nat
    requires height > 0
  {
    backend * 31 % height
  }

  function Shift(height: nat, backend: nat): nat
    requires height > 1
  {
    backend % (height - 1) + 1
  }

  /** The bucket a backend ranks at `rank`. */
  function Preference(height: nat, backend: nat, rank: nat): (b: nat)
    requires height > 1
    ensures b < height
  {
    Term(height, Offset(height, backend), Shift(height, backend), rank)
  }

  /** The bucket a backend ranks, in one remainder. */
  lemma PreferenceIs(height: nat, backend: nat, rank: nat)
    requires height > 1 && backend + 1 < height
    ensures Preference(height, backend, rank) == (31 * backend + (backend + 1) * rank) % height
  {
    var x, shift := backend * 31, Shift(height, backend);
    ModuloUnique(backend, height - 1, 0, backend);
    var q, t := x / height, x % height + shift * rank;
    DivisionLaw(x, height);
    DivisionLaw(t, height);
    assert height * (q + t / height) == height * q + height * (t / height);
    ModuloUnique(x + shift * rank, height, q + t / height, t % height);
  }

  /** A backend and the rank it gives a bucket. */
  datatype Hit = Hit(rank: nat, backend: nat)

  predicate Before(a: Hit, b: Hit) {
    a.rank < b.rank || (a.rank == b.rank && a.backend < b.backend)
  }

  /** A bucket's hits in the order the table is filled, up to but not including backend `j` at rank `i`. */
  ghost function Hits(height: nat, capacity: nat, bucket: nat, i: nat, j: nat): seq<Hit>
    requires height > 1
    decreases i, j
  {
    if j > 0 then
      var before := Hits(height, capacity, bucket, i, j - 1);
      if Preference(height, j - 1, i) == bucket then before + [Hit(i, j - 1)] else before
    else if i > 0 then Hits(height, capacity, bucket, i - 1, capacity)
    else []
  }

  lemma HitsNext(height: nat, capacity: nat, bucket: nat, i: nat, j: nat)
    requires height > 1
    ensures Hits(height, capacity, bucket, i, j + 1) ==
              Hits(height, capacity, bucket, i, j) + (if Preference(height, j, i) == bucket then [Hit(i, j)] else [])
  {
    hide Preference;
  }

  lemma HitsNextRank(height: nat, capacity: nat, bucket: nat, i: nat)
    requires height > 1
    ensures Hits(height, capacity, bucket, i + 1, 0) == Hits(height, capacity, bucket, i, capacity)
  {
    hide Preference;
    assert Hits(height, capacity, bucket, i + 1, 0) == Hits(height, capacity, bucket, i, capacity);
  }

  ghost function Backends(hits: seq<Hit>): (r: seq<nat>)
    ensures |r| == |hits|
  {
    seq(|hits|, k requires 0 <= k < |hits| => hits[k].backend)
  }

  /** The backends of a bucket, in order of preference. */
  ghost function Row(height: nat, capacity: nat, bucket: nat): seq<nat>
    requires height > 1
  {
    Backends(Hits(height, capacity, bucket, height, 0))
  }

  /** Hits in strictly increasing order of rank, then backend, all before a bound. */
  ghost predicate SortedUpTo(hits: seq<Hit>, bound: Hit) {
    && (forall k: nat :: k < |hits| ==> Before(hits[k], bound))
    && (forall k: nat, l: nat :: k < l < |hits| ==> Before(hits[k], hits[l]))
  }

  lemma {:induction false} HitsSorted(height: nat, capacity: nat, bucket: nat, i: nat, j: nat)
    requires height > 1 && j <= capacity
    ensures SortedUpTo(Hits(height, capacity, bucket, i, j), Hit(i, j))
    decreases i, j
  {
    if j > 0 {
      HitsSorted(height, capacity, bucket, i, j - 1);
      SortedNext(Hits(height, capacity, bucket, i, j - 1), i, j - 1);
    } else if i > 0 {
      HitsSorted(height, capacity, bucket, i - 1, capacity);
      SortedNextRank(Hits(height, capacity, bucket, i - 1, capacity), i - 1, capacity);
    }
  }

  lemma SortedNext(hits: seq<Hit>, i: nat, j: nat)
    requires SortedUpTo(hits, Hit(i, j))
    ensures SortedUpTo(hits, Hit(i, j + 1)) && SortedUpTo(hits + [Hit(i, j)], Hit(i, j + 1))
  {
  }

  lemma SortedNextRank(hits: seq<Hit>, i: nat, j: nat)
    requires SortedUpTo(hits, Hit(i, j))
    ensures SortedUpTo(hits, Hit(i + 1, 0))
  {
  }

  /** The hits are exactly the earlier positions at which a backend prefers the bucket. */
  lemma {:induction false} HitsExact(height: nat, capacity: nat, bucket: nat, i: nat, j: nat, h: Hit)
    requires height > 1 && j <= capacity
    ensures h in Hits(height, capacity, bucket, i, j) <==>
              h.backend < capacity && Before(h, Hit(i, j)) && Preference(height, h.backend, h.rank) == bucket
    decreases i, j
  {
    hide Preference;
    if j > 0 {
      HitsExact(height, capacity, bucket, i, j - 1, h);
    } else if i > 0 {
      HitsExact(height, capacity, bucket, i - 1, capacity, h);
    }
  }

  /** A backend below `capacity` ranks every bucket at most once. */
  lemma PreferenceInjective(height: nat, capacity: nat, backend: nat, i: nat, i': nat)
    requires capacity < height && NoSmallDivisor(height, capacity) && backend < capacity
    requires i < i' < height && height > 1
    ensures Preference(height, backend, i) != Preference(height, backend, i')
  {
    StepOfBackend(height, backend);
    TermsDiffer(height, capacity, Offset(height, backend), Shift(height, backend), i, i');
  }

  lemma StepOfBackend(height: nat, backend: nat)
    requires backend + 1 < height
    ensures Shift(height, backend) == backend + 1
  {
    ModuloUnique(backend, height - 1, 0, backend);
  }

  /** A backend below `capacity` ranks every bucket exactly once: its preferences are a permutation of the buckets. */
  lemma PreferenceSurjective(height: nat, capacity: nat, backend: nat, bucket: nat) returns (i: nat)
    requires capacity < height && NoSmallDivisor(height, capacity) && height > 1
    requires backend < capacity && bucket < height
    ensures i < height && Preference(height, backend, i) == bucket
  {
    StepOfBackend(height, backend);
    i := TermVisits(height, capacity, Offset(height, backend), Shift(height, backend), bucket);
  }

  /** Every backend below `capacity` occurs exactly once. */
  ghost predicate ListsEachOnce(row: seq<nat>, capacity: nat) {
    && |row| == capacity
    && (forall j: nat :: j < capacity ==> j in row)
    && (forall k: nat :: k < |row| ==> row[k] < capacity)
    && Distinct(row)
  }

  lemma RowDistinct(height: nat, capacity: nat, bucket: nat, i: nat, j: nat)
    requires capacity < height && NoSmallDivisor(height, capacity) && height > 1
    requires (i < height && j <= capacity) || (i == height && j == 0)
    ensures var row := Backends(Hits(height, capacity, bucket, i, j));
            Distinct(row) && forall k: nat :: k < |row| ==> row[k] < capacity
  {
    hide Preference, Hits, NoSmallDivisor;
    var hits := Hits(height, capacity, bucket, i, j);
    HitsSorted(height, capacity, bucket, i, j);
    forall k: nat | k < |hits|
      ensures hits[k].backend < capacity && hits[k].rank < height &&
              Preference(height, hits[k].backend, hits[k].rank) == bucket
    {
      HitsExact(height, capacity, bucket, i, j, hits[k]);
    }
    forall k: nat, l: nat | k < l < |hits|
      ensures hits[k].backend != hits[l].backend
    {
      assert Before(hits[k], hits[l]);
      if hits[k].backend == hits[l].backend {
        PreferenceInjective(height, capacity, hits[k].backend, hits[k].rank, hits[l].rank);
      }
    }
  }

  /** While the table is being filled there is room in the bucket for the backend about to be entered. */
  lemma RoomForHit(height: nat, capacity: nat, i: nat, j: nat)
    requires capacity < height && NoSmallDivisor(height, capacity) && i < height && j < capacity && height > 1
    ensures |Hits(height, capacity, Preference(height, j, i), i, j)| < capacity
  {
    hide Preference;
    var bucket := Preference(height, j, i);
    var hits := Hits(height, capacity, bucket, i, j);
    var row := Backends(hits);
    RowDistinct(height, capacity, bucket, i, j);
    DistinctSize(row);
    if j in row {
      var k :| 0 <= k < |row| && row[k] == j;
      HitsExact(height, capacity, bucket, i, j, hits[k]);
      PreferenceInjective(height, capacity, j, hits[k].rank, i);
    }
    CardinalityMonotone(Entered(row), Below(capacity) - {j});
  }

  lemma RowListsEachOnce(height: nat, capacity: nat, bucket: nat)
    requires capacity < height && NoSmallDivisor(height, capacity) && bucket < height && height > 1
    ensures ListsEachOnce(Row(height, capacity, bucket), capacity)
  {
    hide Preference;
    var hits := Hits(height, capacity, bucket, height, 0);
    var row := Row(height, capacity, bucket);
    RowDistinct(height, capacity, bucket, height, 0);
    DistinctSize(row);
    forall j: nat | j < capacity
      ensures j in row
    {
      var i := PreferenceSurjective(height, capacity, j, bucket);
      HitsExact(height, capacity, bucket, height, 0, Hit(i, j));
      var k :| 0 <= k < |hits| && hits[k] == Hit(i, j);
      assert row[k] == j;
    }
    assert Entered(row) == Below(capacity);
  }

  /** If `d` divides the height then backend `d - 1` prefers its first bucket a second time. */
  lemma DivisorRepeats(height: nat, capacity: nat, d: nat)
    requires 2 <= d <= capacity < height && height % d == 0
    ensures var i := height / d;
            0 < i < height && Preference(height, d - 1, 0) == Preference(height, d - 1, i)
  {
    var i, offset := height / d, Offset(height, d - 1);
    DivisionLaw(height, d);
    StepOfBackend(height, d - 1);
    assert height == d * i;
    TwiceAtMost(d, i);
    ModuloUnique(offset + height, height, 1, offset);
    ModuloUnique(offset, height, 0, offset);
  }

  lemma TwiceAtMost(d: nat, i: nat)
    requires d >= 2 && d * i > 0
    ensures 0 < i < d * i
  {
    assert d * i == 2 * i + (d - 2) * i;
  }

  /** Every bucket lists every backend exactly once if and only if no number from 2 to `capacity` divides the height. */
  lemma RowsListEachOnceIff(height: nat, capacity: nat)
    requires capacity < height && height > 1
    ensures NoSmallDivisor(height, capacity) <==>
              forall bucket: nat :: bucket < height ==> ListsEachOnce(Row(height, capacity, bucket), capacity)
  {
    hide Preference;
    if NoSmallDivisor(height, capacity) {
      forall bucket: nat | bucket < height
        ensures ListsEachOnce(Row(height, capacity, bucket), capacity)
      {
        RowListsEachOnce(height, capacity, bucket);
      }
    } else {
      var d: nat :| 2 <= d <= capacity && height % d == 0;
      DivisorRepeats(height, capacity, d);
      var bucket := Preference(height, d - 1, 0);
      var hits := Hits(height, capacity, bucket, height, 0);
      HitsExact(height, capacity, bucket, height, 0, Hit(0, d - 1));
      HitsExact(height, capacity, bucket, height, 0, Hit(height / d, d - 1));
      var k :| 0 <= k < |hits| && hits[k] == Hit(0, d - 1);
      var l :| 0 <= l < |hits| && hits[l] == Hit(height / d, d - 1);
      assert Row(height, capacity, bucket)[k] == Row(height, capacity, bucket)[l];
    }
  }

  ghost predicate IsPrime(n: nat) {
    n >= 2 && forall d: nat :: 2 <= d < n ==> n % d != 0
  }

  /** A prime height is always good; other heights may be, if there are few enough backends. */
  lemma PrimeHeight(height: nat, capacity: nat)
    requires IsPrime(height) && capacity < height
    ensures NoSmallDivisor(height, capacity)
  {
  }

  /**
   Of two backends of a bucket the first listed is the one that ranks the bucket first, or the lower-numbered on a
   tie.
   */
  lemma RowInPreferenceOrder(height: nat, capacity: nat, bucket: nat, k: nat, l: nat, i: nat, i': nat)
    requires capacity < height && NoSmallDivisor(height, capacity) && bucket < height && height > 1
    requires var row := Row(height, capacity, bucket);
             && k < l < |row| && i < height && i' < height
             && Preference(height, row[k], i) == bucket && Preference(height, row[l], i') == bucket
    ensures Before(Hit(i, Row(height, capacity, bucket)[k]), Hit(i', Row(height, capacity, bucket)[l]))
  {
    hide Preference, Hits, NoSmallDivisor;
    HitsSorted(height, capacity, bucket, height, 0);
    RankUnique(height, capacity, bucket, k, i);
    RankUnique(height, capacity, bucket, l, i');
  }

  lemma RankUnique(height: nat, capacity: nat, bucket: nat, k: nat, i: nat)
    requires capacity < height && NoSmallDivisor(height, capacity) && bucket < height && height > 1
    requires k < |Row(height, capacity, bucket)| && i < height
    requires Preference(height, Row(height, capacity, bucket)[k], i) == bucket
    ensures Hits(height, capacity, bucket, height, 0)[k] == Hit(i, Row(height, capacity, bucket)[k])
  {
    hide Preference, Hits, NoSmallDivisor;
    var hit := Hits(height, capacity, bucket, height, 0)[k];
    HitsExact(height, capacity, bucket, height, 0, hit);
    if hit.rank < i {
      PreferenceInjective(height, capacity, hit.backend, hit.rank, i);
    } else if i < hit.rank {
      PreferenceInjective(height, capacity, hit.backend, i, hit.rank);
    }
  }

  lemma OffsetFrom(height: nat, backend: nat, product: nat, turns: nat, offset: nat)
    requires height > 1 && product == backend * 31 && product == height * turns + offset && offset < height
    ensures Offset(height, backend) == offset
  {
    ModuloUnique(product, height, turns, offset);
  }

  lemma PreferenceFrom(height: nat, backend: nat, rank: nat, offset: nat, sum: nat, turns: nat, bucket: nat)
    requires height > 1 && Offset(height, backend) == offset && sum == offset + Shift(height, backend) * rank
    requires bucket < height && sum == height * turns + bucket
    ensures Preference(height, backend, rank) == bucket
  {
    ModuloUnique(sum, height, turns, bucket);
  }

  /** Who prefers the last of four buckets: the second of three backends at ranks 0 and 2, the others at rank 3. */
  lemma LastOfFourBuckets(h: nat)
    requires h == 4
    ensures Preference(h, 0, 0) != 3 && Preference(h, 1, 0) == 3 && Preference(h, 2, 0) != 3
    ensures Preference(h, 0, 1) != 3 && Preference(h, 1, 1) != 3 && Preference(h, 2, 1) != 3
    ensures Preference(h, 0, 2) != 3 && Preference(h, 1, 2) == 3 && Preference(h, 2, 2) != 3
    ensures Preference(h, 0, 3) == 3 && Preference(h, 1, 3) != 3 && Preference(h, 2, 3) == 3
  {
    hide Preference, Offset, Shift;
    StepOfBackend(h, 0);
    StepOfBackend(h, 1);
    StepOfBackend(h, 2);
    OffsetFrom(h, 0, 0, 0, 0);
    OffsetFrom(h, 1, 31, 7, 3);
    OffsetFrom(h, 2, 62, 15, 2);
    PreferenceFrom(h, 0, 0, 0, 0, 0, 0);
    PreferenceFrom(h, 0, 1, 0, 1, 0, 1);
    PreferenceFrom(h, 0, 2, 0, 2, 0, 2);
    PreferenceFrom(h, 0, 3, 0, 3, 0, 3);
    PreferenceFrom(h, 1, 0, 3, 3, 0, 3);
    PreferenceFrom(h, 1, 1, 3, 5, 1, 1);
    PreferenceFrom(h, 1, 2, 3, 7, 1, 3);
    PreferenceFrom(h, 1, 3, 3, 9, 2, 1);
    PreferenceFrom(h, 2, 0, 2, 2, 0, 2);
    PreferenceFrom(h, 2, 1, 2, 5, 1, 1);
    PreferenceFrom(h, 2, 2, 2, 8, 2, 0);
    PreferenceFrom(h, 2, 3, 2, 11, 2, 3);
  }

  lemma RankOfThree(height: nat, bucket: nat, i: nat)
    requires height > 1
    ensures Hits(height, 3, bucket, i + 1, 0) ==
              Hits(height, 3, bucket, i, 0) +
              (if Preference(height, 0, i) == bucket then [Hit(i, 0)] else []) +
              (if Preference(height, 1, i) == bucket then [Hit(i, 1)] else []) +
              (if Preference(height, 2, i) == bucket then [Hit(i, 2)] else [])
  {
    hide Preference;
    HitsNext(height, 3, bucket, i, 0);
    HitsNext(height, 3, bucket, i, 1);
    HitsNext(height, 3, bucket, i, 2);
    HitsNextRank(height, 3, bucket, i);
    hide Hits;
  }

  /** With height 4 and three backends the last bucket gets four entries, one more than the whole table has room for. */
  lemma CompositeHeightOverflows(height: nat, capacity: nat)
    requires height == 4 && capacity == 3
    ensures |Row(height, capacity, height - 1)| == 4
    ensures capacity * (height - 1) + (|Row(height, capacity, height - 1)| - 1) == height * capacity
  {
    hide Preference;
    LastOfFourBuckets(height);
    RankOfThree(height, 3, 0);
    RankOfThree(height, 3, 1);
    RankOfThree(height, 3, 2);
    RankOfThree(height, 3, 3);
    assert Hits(height, 3, 3, 0, 0) == [];
    hide Hits;
    assert Hits(height, 3, 3, 4, 0) == [Hit(0, 1), Hit(2, 1), Hit(3, 0), Hit(3, 2)];
  }

  /** The first backend of a row that is live. */
  ghost function Choose(row: seq<nat>, live: set<nat>): (r: Option<nat>)
    ensures r.Some? ==> r.value in row && r.value in live
    ensures r.None? <==> forall b :: b in row ==> b !in live
  {
    if row == [] then None
    else if row[0] in live then Some(row[0])
    else Choose(row[1..], live)
  }

  /** Entry `k` of a row is live, and none before it is. */
  ghost predicate IsFirstLive(row: seq<nat>, live: set<nat>, k: nat) {
    k < |row| && row[k] in live && forall j: nat :: j < k ==> row[j] !in live
  }

  /** The backend chosen is the first live one of the row. */
  lemma {:induction false} ChosenIff(row: seq<nat>, live: set<nat>, b: nat)
    ensures Choose(row, live) == Some(b) <==> exists k: nat :: IsFirstLive(row, live, k) && row[k] == b
  {
    if row != [] {
      var rest := row[1..];
      ChosenIff(rest, live, b);
      if row[0] in live {
        assert IsFirstLive(row, live, 0);
        forall k: nat | IsFirstLive(row, live, k)
          ensures k == 0
        {
        }
      } else {
        if k: nat :| IsFirstLive(rest, live, k) && rest[k] == b {
          assert IsFirstLive(row, live, k + 1);
        }
        if k: nat :| IsFirstLive(row, live, k) && row[k] == b {
          assert IsFirstLive(rest, live, k - 1);
        }
      }
    }
  }

  /** No live backend ranks the bucket before the chosen one, or on a par with it under a lower number. */
  lemma ChosenIsPreferred(height: nat, capacity: nat, bucket: nat, live: set<nat>, i: nat, other: nat, i': nat)
    requires capacity < height && NoSmallDivisor(height, capacity) && bucket < height && height > 1
    requires Choose(Row(height, capacity, bucket), live).Some?
    requires other < capacity && other in live && i < height && i' < height
    requires var b := Choose(Row(height, capacity, bucket), live).value;
             other != b && Preference(height, b, i) == bucket && Preference(height, other, i') == bucket
    ensures Before(Hit(i, Choose(Row(height, capacity, bucket), live).value), Hit(i', other))
  {
    hide Row, Preference, NoSmallDivisor;
    var row := Row(height, capacity, bucket);
    var b := Choose(row, live).value;
    RowListsEachOnce(height, capacity, bucket);
    ChosenIff(row, live, b);
    var k: nat :| IsFirstLive(row, live, k) && row[k] == b;
    assert other in row;
    var l :| 0 <= l < |row| && row[l] == other;
    assert k < l;
    RowInPreferenceOrder(height, capacity, bucket, k, l, i, i');
  }

  /** Some backend is found exactly when one of the backends below `capacity` is live. */
  lemma ChooseSucceedsIff(height: nat, capacity: nat, bucket: nat, live: set<nat>)
    requires capacity < height && NoSmallDivisor(height, capacity) && bucket < height && height > 1
    ensures Choose(Row(height, capacity, bucket), live).Some? <==> exists b: nat :: b < capacity && b in live
  {
    hide Hits, NoSmallDivisor;
    RowListsEachOnce(height, capacity, bucket);
    var row := Row(height, capacity, bucket);
    if Choose(row, live).Some? {
      var k :| 0 <= k < |row| && row[k] == Choose(row, live).value;
      assert row[k] < capacity;
    }
  }

  /**
   Minimal disruption: when the set of live backends changes, a flow moves only if the backend it was sent to
   is gone, or the one it is now sent to is new.
   */
  lemma {:induction false} MinimalDisruption(row: seq<nat>, live: set<nat>, live': set<nat>)
    requires Choose(row, live).Some? && Choose(row, live').Some? && Choose(row, live) != Choose(row, live')
    ensures Choose(row, live).value !in live' || Choose(row, live').value !in live
  {
    if row[0] !in live && row[0] !in live' {
      MinimalDisruption(row[1..], live, live');
    }
  }

  /** In particular removing backends moves only the flows that were sent to them. */
  lemma {:induction false} RemovalMovesOnlyItsFlows(row: seq<nat>, live: set<nat>, live': set<nat>)
    requires live' <= live && Choose(row, live).Some? && Choose(row, live).value in live'
    ensures Choose(row, live') == Choose(row, live)
  {
    assert Choose(row, live').Some?;
    if Choose(row, live') != Choose(row, live) {
      MinimalDisruption(row, live, live');
    }
  }
}
