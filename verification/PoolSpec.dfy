/**
 What an index pool means: a partial map from index to the time the index was last used, and a rotating
 search for an index that is free or whose last use is too old.
 */
module PoolSpec {
  import opened Options
  import opened Ring

  /** Times are unsigned 64-bit integers; the largest one marks an index as free. */
  const TIME_MAX: nat := 0xFFFF_FFFF_FFFF_FFFF

  datatype PoolState = PoolState(times: seq<nat>, last: nat)

  /** A last use at `t` is recent enough at time `now`. */
  predicate Young(now: nat, expiration: nat, t: nat)
    ensures Young(now, expiration, t) <==> now <= t + expiration
  {
    now < expiration || now - expiration <= t
  }

  predicate IsHeld(times: seq<nat>, i: nat) {
    i < |times| && times[i] != TIME_MAX
  }

  /** An index that may be borrowed: free, or held but expired. */
  predicate Available(times: seq<nat>, i: nat, now: nat, expiration: nat) {
    i < |times| && (times[i] == TIME_MAX || !Young(now, expiration, times[i]))
  }

  ghost predicate PoolOk(p: PoolState) {
    && (p.last < |p.times| || (p.last == 0 && p.times == []))
    && forall i: nat :: i < |p.times| ==> p.times[i] <= TIME_MAX
  }

  /** The pool as a partial map: what each held index was last used at. */
  ghost function Uses(p: PoolState): map<nat, nat> {
    map i: nat | i < |p.times| && IsHeld(p.times, i) :: p.times[i]
  }

  /** The indices held and recently enough used. */
  ghost function Live(p: PoolState, now: nat, expiration: nat): set<nat> {
    set i: nat | i < |p.times| && IsHeld(p.times, i) && Young(now, expiration, p.times[i])
  }

  /** No index fewer than `d` (and at least `k`) steps on from the one borrowed last is available. */
  ghost predicate NoneAvailable(p: PoolState, now: nat, expiration: nat, k: nat, d: nat)
    requires PoolOk(p)
  {
    forall j: nat :: j < |p.times| && k <= Distance(p.last, j, |p.times|) < d ==>
      !Available(p.times, j, now, expiration)
  }

  /** The first available index in ring order from the one borrowed last, skipping the first `k`. */
  ghost function FirstAvailable(p: PoolState, now: nat, expiration: nat, k: nat): (r: Option<nat>)
    requires PoolOk(p)
    ensures r.None? ==> NoneAvailable(p, now, expiration, k, |p.times|)
    ensures r.Some? ==> Available(p.times, r.value, now, expiration)
    ensures r.Some? ==> Distance(p.last, r.value, |p.times|) >= k
    ensures r.Some? ==> NoneAvailable(p, now, expiration, k, Distance(p.last, r.value, |p.times|))
    decreases |p.times| - k
  {
    if k >= |p.times| then None
    else
      var i := Slot(p.last, k, |p.times|);
      if Available(p.times, i, now, expiration) then Some(i) else FirstAvailable(p, now, expiration, k + 1)
  }

  /** The index a borrow hands out; there is none exactly when every index is held and young. */
  ghost function Borrowed(p: PoolState, now: nat, expiration: nat): (r: Option<nat>)
    requires PoolOk(p)
    ensures r.None? <==> forall i: nat :: i < |p.times| ==> IsHeld(p.times, i) && Young(now, expiration, p.times[i])
    ensures r.Some? ==> Available(p.times, r.value, now, expiration)
  {
    var r := FirstAvailable(p, now, expiration, 0);
    assert forall i: nat :: i < |p.times| ==>
      (Available(p.times, i, now, expiration) <==> !(IsHeld(p.times, i) && Young(now, expiration, p.times[i])));
    r
  }

  /** The pool after index `i` is given the last-use time `t`. */
  ghost function Stamped(p: PoolState, i: nat, t: nat): PoolState
    requires i < |p.times|
  {
    p.(times := p.times[i := t])
  }

  lemma StampedUses(p: PoolState, i: nat, t: nat)
    requires i < |p.times|
    ensures t != TIME_MAX ==> Uses(Stamped(p, i, t)) == Uses(p)[i := t]
    ensures t == TIME_MAX ==> Uses(Stamped(p, i, t)) == Uses(p) - {i}
  {
  }

  lemma BorrowedIs(p: PoolState, now: nat, expiration: nat, i: nat)
    requires PoolOk(p) && Available(p.times, i, now, expiration)
    requires NoneAvailable(p, now, expiration, 0, Distance(p.last, i, |p.times|))
    ensures Borrowed(p, now, expiration) == Some(i)
  {
  }

  lemma LiveIff(p: PoolState, now: nat, expiration: nat, i: nat)
    ensures i in Live(p, now, expiration) <==> i in Uses(p) && Young(now, expiration, Uses(p)[i])
  {
  }
}
