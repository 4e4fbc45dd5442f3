/**
 What an expiring table means: keys kept in the slots whose index the pool holds, found by key.
 The table's hash map and pool are two views of the one state defined here.
 */
module TableSpec {
  import opened Counting
  import opened HashMap
  import opened Options
  import opened PoolSpec

  datatype Table<K> = Table(keys: seq<K>, pool: PoolState)

  ghost predicate Holds<K>(t: Table<K>, i: nat, k: K) {
    i < |t.keys| && IsHeld(t.pool.times, i) && t.keys[i] == k
  }

  /** Held indices carry pairwise distinct keys. */
  ghost predicate TableOk<K(!new)>(t: Table<K>) {
    && PoolOk(t.pool) && |t.keys| == |t.pool.times|
    && forall i: nat, j: nat, k: K :: Holds(t, i, k) && Holds(t, j, k) ==> i == j
  }

  /** The index holding a key. */
  ghost function Find<K>(t: Table<K>, k: K): (r: Option<nat>)
    ensures r.Some? ==> Holds(t, r.value, k)
    ensures r.None? ==> forall i: nat :: !Holds(t, i, k)
  {
    if exists i: nat :: Holds(t, i, k) then
      var i: nat :| Holds(t, i, k);
      Some(i)
    else None
  }

  ghost function Touch<K>(t: Table<K>, i: nat, now: nat): Table<K>
    requires i < |t.pool.times|
  {
    t.(pool := Stamped(t.pool, i, now))
  }

  ghost function Put<K>(t: Table<K>, i: nat, k: K, now: nat): Table<K>
    requires i < |t.pool.times| == |t.keys|
  {
    Table(t.keys[i := k], Stamped(t.pool, i, now).(last := i))
  }

  /**
   Inserts a key, evicting the expired one whose index is handed out, or fails when all indices are held and young.
   */
  ghost function Insert<K(!new)>(t: Table<K>, k: K, now: nat, expiration: nat): (r: (Table<K>, Option<nat>))
    requires TableOk(t)
  {
    match Borrowed(t.pool, now, expiration)
    case None => (t, None)
    case Some(i) => (Put(t, i, k, now), Some(i))
  }

  /** Refreshes a known key, or inserts a new one if there is room. */
  ghost function Learn<K(!new)>(t: Table<K>, k: K, now: nat, expiration: nat): (Table<K>, Option<nat>)
    requires TableOk(t)
  {
    match Find(t, k)
    case Some(i) => (Touch(t, i, now), Some(i))
    case None => Insert(t, k, now, expiration)
  }

  ghost function Release<K>(t: Table<K>, i: nat): Table<K>
    requires i < |t.pool.times|
  {
    Touch(t, i, TIME_MAX)
  }

  lemma FindIs<K(!new)>(t: Table<K>, i: nat, k: K)
    requires TableOk(t) && Holds(t, i, k)
    ensures Find(t, k) == Some(i)
  {
  }

  lemma TouchOk<K(!new)>(t: Table<K>, i: nat, now: nat)
    requires TableOk(t) && i < |t.keys| && now <= TIME_MAX
    requires now == TIME_MAX || IsHeld(t.pool.times, i)
    ensures TableOk(Touch(t, i, now))
    ensures forall j: nat, k: K :: Holds(Touch(t, i, now), j, k) <==> Holds(t, j, k) && (now == TIME_MAX ==> j != i)
  {
    assert forall j: nat, k: K :: Holds(Touch(t, i, now), j, k) ==> Holds(t, j, k);
  }

  lemma PutOk<K(!new)>(t: Table<K>, i: nat, k: K, now: nat)
    requires TableOk(t) && i < |t.keys| && now < TIME_MAX
    requires forall j: nat :: Holds(t, j, k) ==> j == i
    ensures TableOk(Put(t, i, k, now))
    ensures forall j: nat, k': K :: Holds(Put(t, i, k, now), j, k') <==> if j == i then k' == k else Holds(t, j, k')
  {
    assert forall j: nat, k': K :: j != i && Holds(Put(t, i, k, now), j, k') ==> Holds(t, j, k');
  }

  /** Table `t'` agrees with `t` at every index but `i`. */
  ghost predicate SameExcept<K>(t: Table<K>, t': Table<K>, i: Option<nat>) {
    && |t'.keys| == |t.keys| && |t'.pool.times| == |t.pool.times|
    && forall j: nat :: j < |t.keys| && j < |t.pool.times| && Some(j) != i ==>
         t'.keys[j] == t.keys[j] && t'.pool.times[j] == t.pool.times[j]
  }

  /** A learned key is held and just used; only its index changes, and that index was its own or could be reused. */
  lemma LearnEffect<K(!new)>(t: Table<K>, k: K, now: nat, expiration: nat)
    requires TableOk(t) && now < TIME_MAX
    ensures var (t', r) := Learn(t, k, now, expiration);
            && TableOk(t') && SameExcept(t, t', r)
            && (r.Some? ==> Holds(t', r.value, k) && t'.pool.times[r.value] == now)
            && (r.Some? ==>
                  Holds(t, r.value, k) || (Find(t, k).None? && Available(t.pool.times, r.value, now, expiration)))
            && (r.None? ==>
                  t' == t && Find(t, k).None? && forall i: nat :: !Available(t.pool.times, i, now, expiration))
  {
    match Find(t, k)
    case Some(i) => TouchOk(t, i, now);
    case None =>
      match Borrowed(t.pool, now, expiration) {
        case None =>
        case Some(i) => PutOk(t, i, k, now);
      }
  }

  /** Learning one key leaves another where it is, unless it had expired and its index was reused. */
  lemma LearnOther<K(!new)>(t: Table<K>, k: K, now: nat, expiration: nat, other: K)
    requires TableOk(t) && now < TIME_MAX && other != k
    ensures var (t', r) := Learn(t, k, now, expiration);
            || (Find(t', other) == Find(t, other) && (Find(t, other).Some? ==> Find(t, other) != r))
            || (Find(t, other).Some? && Find(t, other) == r && Find(t', other).None? &&
                !Young(now, expiration, t.pool.times[r.value]))
  {
    var (t', r) := Learn(t, k, now, expiration);
    LearnEffect(t, k, now, expiration);
    match Find(t, other)
    case Some(i) =>
      if r == Some(i) {
        assert forall j: nat :: Holds(t', j, other) ==> j != i && Holds(t, j, other);
      } else {
        assert Holds(t', i, other);
      }
    case None =>
      assert forall j: nat :: Holds(t', j, other) ==> Holds(t, j, other);
  }

  /** An empty table. */
  ghost predicate Empty<K(!new)>(t: Table<K>) {
    TableOk(t) && t.pool.last == 0 && forall i: nat :: !IsHeld(t.pool.times, i)
  }

  /** The hash map holds exactly the keys of the held indices, each with its own index as address and as value. */
  ghost predicate Mirrors<K(!new)>(entries: map<K, Entry>, t: Table<K>) {
    && (forall i: nat, k: K :: Holds(t, i, k) ==> k in entries && entries[k] == Entry(i, i))
    && (forall k :: k in entries ==> Holds(t, entries[k].value, k))
  }

  lemma MirrorsFind<K(!new)>(entries: map<K, Entry>, t: Table<K>, k: K)
    requires Mirrors(entries, t)
    ensures Find(t, k) == if k in entries then Some(entries[k].value) else None
  {
  }

  lemma MirrorsTouch<K(!new)>(entries: map<K, Entry>, t: Table<K>, i: nat, now: nat)
    requires TableOk(t) && Mirrors(entries, t) && IsHeld(t.pool.times, i) && now < TIME_MAX
    ensures TableOk(Touch(t, i, now)) && Mirrors(entries, Touch(t, i, now))
  {
    TouchOk(t, i, now);
  }

  lemma MirrorsRelease<K(!new)>(entries: map<K, Entry>, t: Table<K>, i: nat)
    requires TableOk(t) && Mirrors(entries, t) && IsHeld(t.pool.times, i)
    ensures t.keys[i] in entries && entries[t.keys[i]] == Entry(i, i)
    ensures TableOk(Release(t, i)) && Mirrors(entries - {t.keys[i]}, Release(t, i))
  {
    TouchOk(t, i, TIME_MAX);
    assert Holds(t, i, t.keys[i]);
  }

  /** The hash map without the key an index holds. */
  ghost function Unindexed<K>(entries: map<K, Entry>, t: Table<K>, i: nat): map<K, Entry>
    requires i < |t.keys|
  {
    if IsHeld(t.pool.times, i) then entries - {t.keys[i]} else entries
  }

  /** Dropping what index `i` holds and entering a new key under it keeps the map and the table in step. */
  lemma MirrorsInsert<K(!new)>(entries: map<K, Entry>, t: Table<K>, i: nat, k: K, now: nat)
    requires TableOk(t) && Mirrors(entries, t) && i < |t.keys| && now < TIME_MAX && Find(t, k).None?
    ensures var rest := Unindexed(entries, t, i);
            && TableOk(Put(t, i, k, now)) && Mirrors(rest[k := Entry(i, i)], Put(t, i, k, now))
            && k !in rest && |rest| < |t.keys|
            && forall k' :: k' in rest ==> rest[k'].addr != i
  {
    var rest := Unindexed(entries, t, i);
    var t' := t;
    if IsHeld(t.pool.times, i) {
      MirrorsRelease(entries, t, i);
      t' := Release(t, i);
    }
    MirrorsPut(rest, t', i, k, now);
    assert Put(t', i, k, now) == Put(t, i, k, now);
  }

  lemma MirrorsPut<K(!new)>(entries: map<K, Entry>, t: Table<K>, i: nat, k: K, now: nat)
    requires TableOk(t) && Mirrors(entries, t) && i < |t.keys| && !IsHeld(t.pool.times, i) && now < TIME_MAX
    requires k !in entries
    ensures TableOk(Put(t, i, k, now)) && Mirrors(entries[k := Entry(i, i)], Put(t, i, k, now))
    ensures |entries| < |t.keys|
    ensures forall k' :: k' in entries ==> entries[k'].addr != i
  {
    PutOk(t, i, k, now);
    RoomLeft(entries, t, i);
    forall k' | k' in entries
      ensures entries[k'].addr != i
    {
      assert Holds(t, entries[k'].value, k');
    }
  }

  ghost function HeldIndices(p: PoolState): set<nat> {
    set i: nat | i < |p.times| && IsHeld(p.times, i)
  }

  /** The hash map and the pool are the same size. */
  lemma {:induction false} SizesAgree<K(!new)>(entries: map<K, Entry>, t: Table<K>)
    requires TableOk(t) && Mirrors(entries, t)
    ensures |entries| == |HeldIndices(t.pool)|
  {
    var values := map k | k in entries :: entries[k].value;
    forall i | i in HeldIndices(t.pool)
      ensures i in values.Values
    {
      assert Holds(t, i, t.keys[i]);
      assert t.keys[i] in values;
    }
    assert values.Values == HeldIndices(t.pool);
    InjectiveSize(values);
    assert values.Keys == entries.Keys;
  }

  /** With an index not held the hash map is below capacity. */
  lemma RoomLeft<K(!new)>(entries: map<K, Entry>, t: Table<K>, free: nat)
    requires TableOk(t) && Mirrors(entries, t) && free < |t.keys| && !IsHeld(t.pool.times, free)
    ensures |entries| < |t.keys|
  {
    SizesAgree(entries, t);
    CardinalityMonotone(HeldIndices(t.pool), Below(|t.keys|) - {free});
  }
}
