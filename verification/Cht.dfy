/** The consistent hash table: the nested loops that fill it in place, and the scan that picks a live backend. */
module Cht {
  import opened ChtSpec
  import opened Options
  import opened PoolSpec
  import opened Progressions
  import IndexPool

  /** The index of entry `k` of row `r` in an array of rows of a given width. */
  function Cell(width: nat, r: nat, k: nat): nat {
    width * r + k
  }

  lemma CellBound(width: nat, rows: nat, r: nat, k: nat)
    requires r < rows && k < width
    ensures Cell(width, r, k) < rows * width
  {
    assert rows * width == width * r + width + width * (rows - r - 1);
  }

  lemma RowsApart(width: nat, r: nat, r': nat)
    requires r < r'
    ensures width * r + width <= width * r'
  {
    var gap := r' - r - 1;
    calc {
      width * r';
      width * (r + 1 + gap);
      width * r + width * (1 + gap);
      width * r + width + width * gap;
    }
  }

  lemma CellUnique(width: nat, r: nat, k: nat, r': nat, k': nat)
    requires k < width && k' < width && Cell(width, r, k) == Cell(width, r', k')
    ensures r == r' && k == k'
  {
    if r < r' {
      RowsApart(width, r, r');
    } else if r' < r {
      RowsApart(width, r', r);
    }
  }

  /** The preferences of the backends before `i`, and of backend `i` below rank `j`, each in its cell. */
  ghost predicate Tabled(permutations: seq<nat>, height: nat, capacity: nat, i: nat, j: nat)
    requires height > 1
  {
    && |permutations| == height * capacity
    && forall b: nat, r: nat :: b < capacity && r < height && (b < i || (b == i && r < j)) ==>
         TabledAt(permutations, height, b, r)
  }

  ghost predicate TabledAt(permutations: seq<nat>, height: nat, b: nat, r: nat)
    requires height > 1
  {
    Cell(height, b, r) < |permutations| && permutations[Cell(height, b, r)] == Preference(height, b, r)
  }

  lemma TabledNext(permutations: seq<nat>, height: nat, capacity: nat, i: nat, j: nat)
    requires height > 1 && i < capacity && j < height && Tabled(permutations, height, capacity, i, j)
    ensures Cell(height, i, j) < |permutations|
    ensures Tabled(permutations[Cell(height, i, j) := Preference(height, i, j)], height, capacity, i, j + 1)
  {
    hide Preference, Cell;
    CellBound(height, capacity, i, j);
    var permutations' := permutations[Cell(height, i, j) := Preference(height, i, j)];
    forall b: nat, r: nat | b < capacity && r < height && (b < i || (b == i && r < j + 1))
      ensures TabledAt(permutations', height, b, r)
    {
      if b != i || r != j {
        assert TabledAt(permutations, height, b, r);
        if Cell(height, b, r) == Cell(height, i, j) {
          CellUnique(height, b, r, i, j);
        }
      }
    }
  }

  /** The table of all backends' preferences: backend `i` has row `i`. */
  method Permutations(height: nat, capacity: nat) returns (permutations: array<nat>)
    requires 0 < capacity < height
    ensures fresh(permutations) && Tabled(permutations[..], height, capacity, capacity, 0)
  {
    hide Tabled, Cell, Preference;
    permutations := new nat[height * capacity];
    TabledAtStart(permutations[..], height, capacity);
    var i := 0;
    while i < capacity
      invariant i <= capacity && Tabled(permutations[..], height, capacity, i, 0)
    {
      var offset := i * 31 % height;
      var shift := i % (height - 1) + 1;
      var j := 0;
      while j < height
        invariant j <= height && Tabled(permutations[..], height, capacity, i, j)
      {
        var permut := (offset + shift * j) % height;
        PreferenceIs(height, i, j);
        TabledNext(permutations[..], height, capacity, i, j);
        permutations[Cell(height, i, j)] := permut;
        j := j + 1;
      }
      TabledNextRow(permutations[..], height, capacity, i);
      i := i + 1;
    }
  }

  lemma PreferenceIs(height: nat, i: nat, j: nat)
    requires height > 1
    ensures (i * 31 % height + (i % (height - 1) + 1) * j) % height == Preference(height, i, j)
  {
  }

  lemma TabledAtStart(permutations: seq<nat>, height: nat, capacity: nat)
    requires height > 1 && |permutations| == height * capacity
    ensures Tabled(permutations, height, capacity, 0, 0)
  {
  }

  lemma TabledNextRow(permutations: seq<nat>, height: nat, capacity: nat, i: nat)
    requires height > 1 && Tabled(permutations, height, capacity, i, height)
    ensures Tabled(permutations, height, capacity, i + 1, 0)
  {
  }

  /** The table as filled up to backend `j` at rank `i`: every bucket's counter and entries match its hits so far. */
  ghost predicate Filled(data: seq<nat>, next: seq<nat>, height: nat, capacity: nat, i: nat, j: nat)
    requires height > 1
  {
    && |data| == height * capacity && |next| == height
    && forall b: nat :: b < height ==> BucketFilled(data, next[b], height, capacity, i, j, b)
  }

  ghost predicate BucketFilled(data: seq<nat>, count: nat, height: nat, capacity: nat, i: nat, j: nat, b: nat)
    requires height > 1
  {
    var hits := Hits(height, capacity, b, i, j);
    && count == |hits| <= capacity
    && forall k: nat :: k < |hits| ==> Cell(capacity, b, k) < |data| && data[Cell(capacity, b, k)] == hits[k].backend
  }

  lemma FilledNext(data: seq<nat>, next: seq<nat>, height: nat, capacity: nat, i: nat, j: nat)
    requires 0 < capacity < height && NoSmallDivisor(height, capacity) && i < height && j < capacity
    requires Filled(data, next, height, capacity, i, j)
    ensures var bucket := Preference(height, j, i);
            var cell := Cell(capacity, bucket, next[bucket]);
            && cell < |data|
            && Filled(data[cell := j], next[bucket := next[bucket] + 1], height, capacity, i, j + 1)
  {
    hide Hits, Preference, NoSmallDivisor, Cell;
    var bucket := Preference(height, j, i);
    assert BucketFilled(data, next[bucket], height, capacity, i, j, bucket);
    RoomForHit(height, capacity, i, j);
    CellBound(capacity, height, bucket, next[bucket]);
    var data' := data[Cell(capacity, bucket, next[bucket]) := j];
    var next' := next[bucket := next[bucket] + 1];
    forall b: nat | b < height
      ensures BucketFilled(data', next'[b], height, capacity, i, j + 1, b)
    {
      BucketFilledNext(data, next, height, capacity, i, j, b);
    }
  }

  lemma BucketFilledNext(data: seq<nat>, next: seq<nat>, height: nat, capacity: nat, i: nat, j: nat, b: nat)
    requires 1 < height == |next| && b < height && BucketFilled(data, next[b], height, capacity, i, j, b)
    requires next[Preference(height, j, i)] < capacity
    requires var bucket := Preference(height, j, i); Cell(capacity, bucket, next[bucket]) < |data|
    ensures var bucket := Preference(height, j, i);
            BucketFilled(data[Cell(capacity, bucket, next[bucket]) := j], next[bucket := next[bucket] + 1][b],
                         height, capacity, i, j + 1, b)
  {
    hide Hits, Preference, Cell;
    var bucket := Preference(height, j, i);
    HitsNext(height, capacity, b, i, j);
    forall k: nat | k < |Hits(height, capacity, b, i, j)| &&
                    Cell(capacity, b, k) == Cell(capacity, bucket, next[bucket])
      ensures b == bucket && k == next[bucket]
    {
      CellUnique(capacity, b, k, bucket, next[bucket]);
    }
  }

  lemma FilledNextRank(data: seq<nat>, next: seq<nat>, height: nat, capacity: nat, i: nat)
    requires height > 1 && Filled(data, next, height, capacity, i, capacity)
    ensures Filled(data, next, height, capacity, i + 1, 0)
  {
    hide Hits, Cell;
    forall b: nat | b < height
      ensures BucketFilled(data, next[b], height, capacity, i + 1, 0, b)
    {
      HitsNextRank(height, capacity, b, i);
      assert BucketFilled(data, next[b], height, capacity, i, capacity, b);
    }
  }

  /** For every bucket, the places from its own first one to the end of the array suffice for its entries. */
  ghost predicate EndsInside(height: nat, capacity: nat)
    requires height > 1
  {
    forall b: nat :: b < height ==> |Row(height, capacity, b)| <= capacity * (height - b)
  }

  ghost predicate CountedInside(count: nat, height: nat, capacity: nat, b: nat, i: nat, j: nat)
    requires height > 1 && b < height
  {
    count == |Hits(height, capacity, b, i, j)| <= capacity * (height - b)
  }

  /**
   The fill so far: counters are exact, all writes were inside, and with a good height every entry is in its place.
   */
  ghost predicate Filling(data: seq<nat>, next: seq<nat>, height: nat, capacity: nat, i: nat, j: nat)
    requires height > 1
  {
    && |data| == height * capacity && |next| == height
    && (forall b: nat :: b < height ==> CountedInside(next[b], height, capacity, b, i, j))
    && (NoSmallDivisor(height, capacity) ==> Filled(data, next, height, capacity, i, j))
  }

  lemma CellFits(height: nat, capacity: nat, b: nat, k: nat)
    requires b < height
    ensures Cell(capacity, b, k) < height * capacity <==> k < capacity * (height - b)
  {
    assert height * capacity == capacity * b + capacity * (height - b);
  }

  lemma FillingAtStart(data: seq<nat>, next: seq<nat>, height: nat, capacity: nat)
    requires 0 < capacity < height && |data| == height * capacity && |next| == height
    requires forall b: nat :: b < height ==> next[b] == 0
    ensures Filling(data, next, height, capacity, 0, 0)
  {
    FilledAtStart(data, next, height, capacity);
  }

  lemma FillingNext(data: seq<nat>, next: seq<nat>, height: nat, capacity: nat, i: nat, j: nat)
    requires 0 < capacity < height && i < height && j < capacity && Filling(data, next, height, capacity, i, j)
    ensures var bucket := Preference(height, j, i);
            var cell := Cell(capacity, bucket, next[bucket]);
            && (cell < |data| ==>
                 Filling(data[cell := j], next[bucket := next[bucket] + 1], height, capacity, i, j + 1))
            && (cell >= |data| ==> !EndsInside(height, capacity))
            && (NoSmallDivisor(height, capacity) ==> cell < |data|)
  {
    hide Hits, Preference, NoSmallDivisor, Cell, Filled;
    var bucket := Preference(height, j, i);
    var cell := Cell(capacity, bucket, next[bucket]);
    CellFits(height, capacity, bucket, next[bucket]);
    HitsNext(height, capacity, bucket, i, j);
    assert CountedInside(next[bucket], height, capacity, bucket, i, j);
    if NoSmallDivisor(height, capacity) {
      FilledNext(data, next, height, capacity, i, j);
    }
    if cell < |data| {
      var next' := next[bucket := next[bucket] + 1];
      forall b: nat | b < height
        ensures CountedInside(next'[b], height, capacity, b, i, j + 1)
      {
        assert CountedInside(next[b], height, capacity, b, i, j);
        HitsNext(height, capacity, b, i, j);
      }
    } else {
      HitsGrow(height, capacity, bucket, i, j + 1);
      assert |Row(height, capacity, bucket)| > capacity * (height - bucket);
    }
  }

  lemma FillingNextRank(data: seq<nat>, next: seq<nat>, height: nat, capacity: nat, i: nat)
    requires height > 1 && Filling(data, next, height, capacity, i, capacity)
    ensures Filling(data, next, height, capacity, i + 1, 0)
  {
    hide Hits, Filled, NoSmallDivisor;
    if NoSmallDivisor(height, capacity) {
      FilledNextRank(data, next, height, capacity, i);
    }
    forall b: nat | b < height
      ensures CountedInside(next[b], height, capacity, b, i + 1, 0)
    {
      assert CountedInside(next[b], height, capacity, b, i, capacity);
      HitsNextRank(height, capacity, b, i);
    }
  }

  /** Entries are only ever added. */
  lemma {:induction false} HitsGrow(height: nat, capacity: nat, bucket: nat, i: nat, j: nat)
    requires height > 1 && i < height && j <= capacity
    ensures |Hits(height, capacity, bucket, i, j)| <= |Row(height, capacity, bucket)|
    decreases height - i, capacity - j
  {
    hide Hits, Preference;
    if j < capacity {
      HitsGrow(height, capacity, bucket, i, j + 1);
      HitsNext(height, capacity, bucket, i, j);
    } else {
      HitsNextRank(height, capacity, bucket, i);
      if i + 1 < height {
        HitsGrow(height, capacity, bucket, i + 1, 0);
      }
    }
  }

  lemma FillingDone(data: seq<nat>, next: seq<nat>, height: nat, capacity: nat)
    requires 0 < capacity < height && Filling(data, next, height, capacity, height, 0)
    ensures EndsInside(height, capacity)
    ensures NoSmallDivisor(height, capacity) ==> HoldsRows(data, height, capacity)
  {
    hide Hits, Filled, NoSmallDivisor, HoldsRows;
    forall b: nat | b < height
      ensures |Row(height, capacity, b)| <= capacity * (height - b)
    {
      assert CountedInside(next[b], height, capacity, b, height, 0);
    }
    if NoSmallDivisor(height, capacity) {
      CountIsHits(data, next, height, capacity);
      FilledHoldsRows(data, height, capacity);
    }
  }

  /**
   Enters every backend, rank by rank, in the next place of the bucket it prefers at that rank. The source does not
   check for room: an entry too many goes to the next bucket's part, or past the end of the array, where the fill
   modelled here stops.
   */
  method Fill(height: nat, capacity: nat, permutations: array<nat>) returns (inside: bool, data: array<nat>)
    requires 0 < capacity < height && Tabled(permutations[..], height, capacity, capacity, 0)
    ensures fresh(data) && data.Length == height * capacity
    ensures inside <==> EndsInside(height, capacity)
    ensures NoSmallDivisor(height, capacity) ==> inside && HoldsRows(data[..], height, capacity)
  {
    hide Hits, Preference, NoSmallDivisor, Cell, Filling, EndsInside, HoldsRows;
    data := new nat[height * capacity](_ => 0);
    var next := new nat[height](_ => 0);
    FillingAtStart(data[..], next[..], height, capacity);
    var i := 0;
    while i < height
      invariant i <= height && Filling(data[..], next[..], height, capacity, i, 0)
    {
      var j := 0;
      while j < capacity
        invariant j <= capacity && Filling(data[..], next[..], height, capacity, i, j)
      {
        FillingNext(data[..], next[..], height, capacity, i, j);
        assert TabledAt(permutations[..], height, j, i);
        var bucket := permutations[Cell(height, j, i)];
        var priority := next[bucket];
        if Cell(capacity, bucket, priority) >= data.Length {
          return false, data;
        }
        next[bucket] := priority + 1;
        data[Cell(capacity, bucket, priority)] := j;
        j := j + 1;
      }
      FillingNextRank(data[..], next[..], height, capacity, i);
      i := i + 1;
    }
    FillingDone(data[..], next[..], height, capacity);
    inside := true;
  }

  lemma FilledAtStart(data: seq<nat>, next: seq<nat>, height: nat, capacity: nat)
    requires 0 < capacity < height && |data| == height * capacity && |next| == height
    requires forall b: nat :: b < height ==> next[b] == 0
    ensures Filled(data, next, height, capacity, 0, 0)
  {
  }

  lemma CountIsHits(data: seq<nat>, next: seq<nat>, height: nat, capacity: nat)
    requires height > 1 && Filled(data, next, height, capacity, height, 0)
    ensures forall b: nat :: b < height ==>
              BucketFilled(data, |Hits(height, capacity, b, height, 0)|, height, capacity, height, 0, b)
  {
    hide Hits, Cell;
    forall b: nat | b < height
      ensures BucketFilled(data, |Hits(height, capacity, b, height, 0)|, height, capacity, height, 0, b)
    {
      assert BucketFilled(data, next[b], height, capacity, height, 0, b);
    }
  }

  /** Every bucket's part of the array is its row. */
  ghost predicate HoldsRows(data: seq<nat>, height: nat, capacity: nat)
    requires height > 1
  {
    forall b: nat, k: nat :: b < height && k < capacity ==> HoldsEntry(data, height, capacity, b, k)
  }

  ghost predicate HoldsEntry(data: seq<nat>, height: nat, capacity: nat, b: nat, k: nat)
    requires height > 1
  {
    && k < |Row(height, capacity, b)| == capacity
    && Cell(capacity, b, k) < |data| && data[Cell(capacity, b, k)] == Row(height, capacity, b)[k]
  }

  lemma FilledHoldsRows(data: seq<nat>, height: nat, capacity: nat)
    requires 0 < capacity < height && NoSmallDivisor(height, capacity)
    requires forall b: nat :: b < height ==>
               BucketFilled(data, |Hits(height, capacity, b, height, 0)|, height, capacity, height, 0, b)
    ensures HoldsRows(data, height, capacity)
  {
    hide Hits, Cell, NoSmallDivisor;
    forall b: nat, k: nat | b < height && k < capacity
      ensures HoldsEntry(data, height, capacity, b, k)
    {
      RowListsEachOnce(height, capacity, b);
      assert BucketFilled(data, |Hits(height, capacity, b, height, 0)|, height, capacity, height, 0, b);
    }
  }

  lemma TimesAtLeast(a: nat, b: nat)
    requires b >= 1
    ensures a <= a * b
  {
    assert a * b == a + a * (b - 1);
  }

  /** With a good height the fill ends inside; with height 4 and three backends it does not. */
  lemma GoodHeightEndsInside(height: nat, capacity: nat)
    requires 0 < capacity < height
    ensures NoSmallDivisor(height, capacity) ==> EndsInside(height, capacity)
    ensures height == 4 && capacity == 3 ==> !EndsInside(height, capacity)
  {
    hide Row, NoSmallDivisor;
    if NoSmallDivisor(height, capacity) {
      forall b: nat | b < height
        ensures |Row(height, capacity, b)| <= capacity * (height - b)
      {
        RowListsEachOnce(height, capacity, b);
        TimesAtLeast(capacity, height - b);
      }
    }
    if height == 4 && capacity == 3 {
      CompositeHeightOverflows(height, capacity);
      var b := height - 1;
      assert capacity * (height - b) == capacity;
      assert |Row(height, capacity, b)| > capacity * (height - b);
    }
  }

  /** The part of the array that belongs to a bucket. */
  ghost function StoredIn(data: seq<nat>, height: nat, capacity: nat, bucket: nat): (row: seq<nat>)
    requires |data| == height * capacity && bucket < height
    ensures |row| == capacity
    ensures forall k: nat :: k < capacity ==>
              Cell(capacity, bucket, k) < |data| && row[k] == data[Cell(capacity, bucket, k)]
  {
    assert forall k: nat :: k < capacity ==> Cell(capacity, bucket, k) < |data| by {
      forall k: nat | k < capacity
        ensures Cell(capacity, bucket, k) < |data|
      {
        CellBound(capacity, height, bucket, k);
      }
    }
    seq(capacity, k requires 0 <= k < capacity => data[Cell(capacity, bucket, k)])
  }

  ghost predicate IsYoungUse(uses: map<nat, nat>, b: nat, now: nat, expiration: nat) {
    b in uses && Young(now, expiration, uses[b])
  }

  class Cht {
    const data: array<nat>
    const height: nat
    const backendCapacity: nat
    /** Whether the fill stayed inside the array; if not, nothing is promised. */
    const inside: bool

    ghost predicate Valid()
      reads data
    {
      && inside && 0 < backendCapacity < height && data.Length == height * backendCapacity
      && (NoSmallDivisor(height, backendCapacity) ==> HoldsRows(data[..], height, backendCapacity))
    }

    /** The backends stored for a bucket, in order. */
    ghost function Stored(bucket: nat): (row: seq<nat>)
      reads data
      requires Valid() && bucket < height
    {
      StoredIn(data[..], height, backendCapacity, bucket)
    }

    constructor (height: nat, backendCapacity: nat)
      requires 0 < backendCapacity < height
      ensures inside ==> Valid()
      ensures inside <==> EndsInside(height, backendCapacity)
      ensures NoSmallDivisor(height, backendCapacity) ==> Valid()
      ensures fresh(data) && this.height == height && this.backendCapacity == backendCapacity
    {
      hide HoldsRows, NoSmallDivisor, EndsInside;
      var permutations := Permutations(height, backendCapacity);
      var ok, table := Fill(height, backendCapacity, permutations);
      this.data, this.height, this.backendCapacity, this.inside := table, height, backendCapacity, ok;
    }

    /** With a good height what is stored for a bucket is its row. */
    lemma StoredIsRow(bucket: nat)
      requires Valid() && bucket < height && NoSmallDivisor(height, backendCapacity)
      ensures Stored(bucket) == Row(height, backendCapacity, bucket)
    {
      hide Row, HoldsRows, Cell;
      HoldsRowSize(data[..], height, backendCapacity, bucket);
      forall k: nat | k < backendCapacity
        ensures Stored(bucket)[k] == Row(height, backendCapacity, bucket)[k]
      {
        HoldsRowEntry(data[..], height, backendCapacity, bucket, k);
      }
    }

    /** Place `k` of a bucket holds a backend that the pool holds and that is young, and no place before it does. */
    ghost predicate FirstLive(bucket: nat, uses: map<nat, nat>, now: nat, expiration: nat, k: nat)
      reads data
      requires Valid() && bucket < height
    {
      && k < backendCapacity && IsYoungUse(uses, Stored(bucket)[k], now, expiration)
      && forall j: nat :: j < k ==> !IsYoungUse(uses, Stored(bucket)[j], now, expiration)
    }

    /** Picks the live backend that a hashed object's bucket prefers: the first one stored for it. */
    method FindPreferredAvailable(hash: nat, activeBackends: IndexPool.Pool, now: nat) returns (chosen: Option<nat>)
      requires Valid() && activeBackends.Valid()
      ensures chosen == Choose(Stored(hash % height), Live(activeBackends.State(), now, activeBackends.expirationTime))
      ensures var bucket, uses, e := hash % height, Uses(activeBackends.State()), activeBackends.expirationTime;
              && (chosen.Some? <==> exists k: nat :: FirstLive(bucket, uses, now, e, k))
              && forall k: nat :: FirstLive(bucket, uses, now, e, k) ==> chosen == Some(Stored(bucket)[k])
    {
      hide Row, HoldsRows, Young, Cell, Live, NoSmallDivisor;
      ghost var row := Stored(hash % height);
      ghost var live := Live(activeBackends.State(), now, activeBackends.expirationTime);
      var bucket := hash % height;
      var i := 0;
      while i < backendCapacity
        invariant i <= backendCapacity == |row|
        invariant Choose(row, live) == Choose(row[i..], live)
        invariant forall j: nat :: j < i ==>
                    !IsYoungUse(Uses(activeBackends.State()), row[j], now, activeBackends.expirationTime)
      {
        CellBound(backendCapacity, height, bucket, i);
        var candidate := data[Cell(backendCapacity, bucket, i)];
        assert candidate == row[i];
        var used := activeBackends.Used(now, candidate);
        LiveIff(activeBackends.State(), now, activeBackends.expirationTime, candidate);
        if used {
          assert FirstLive(bucket, Uses(activeBackends.State()), now, activeBackends.expirationTime, i);
          return Some(candidate);
        }
        assert row[i..][1..] == row[i + 1..];
        i := i + 1;
      }
      return None;
    }
  }

  lemma HoldsRowSize(data: seq<nat>, height: nat, capacity: nat, b: nat)
    requires 0 < capacity < height && b < height && HoldsRows(data, height, capacity)
    ensures |Row(height, capacity, b)| == capacity
  {
    assert HoldsEntry(data, height, capacity, b, 0);
  }

  lemma HoldsRowEntry(data: seq<nat>, height: nat, capacity: nat, b: nat, k: nat)
    requires 1 < height && b < height && k < capacity && HoldsRows(data, height, capacity)
    ensures k < |Row(height, capacity, b)| && Cell(capacity, b, k) < |data|
    ensures data[Cell(capacity, b, k)] == Row(height, capacity, b)[k]
  {
    assert HoldsEntry(data, height, capacity, b, k);
  }
}
