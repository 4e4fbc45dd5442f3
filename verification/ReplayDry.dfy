/**
 When dismissing candidates can abort a search: exactly when the last candidate of some list occurs in an earlier list.
 A program without branches suffices to show it, and for one, each attempt is a single run.
 */
module ReplayDry {
  import opened ReplayOrder
  import opened ReplaySpec

  /** After `n` failed attempts, from some choices on, the next one crashes. */
  ghost predicate Aborts(p: Program, lists: Lists, choices: seq<nat>, n: nat)
    requires Fits(p, lists, 0)
    decreases n
  {
    && IsPartial(choices, lists)
    && var t := Run(p, [], choices, lists, 0);
       if n == 0 then t.outcome.Crashed?
       else t.outcome.Failed? && Next(t.choices, lists) != [] && Aborts(p, lists, Next(t.choices, lists), n - 1)
  }

  /** The last candidate of list `i` occurs in no earlier list. */
  ghost predicate FreshAt(lists: Lists, i: nat)
    requires i < |lists| && lists[i] != []
  {
    forall k: nat, c: nat :: k < i && c < |lists[k]| ==> lists[k][c] != lists[i][|lists[i]| - 1]
  }

  ghost predicate LastIsFresh(lists: Lists)
    requires AllNonempty(lists)
  {
    forall i: nat :: i < |lists| ==> FreshAt(lists, i)
  }

  lemma FreshNeverDry(lists: Lists)
    requires AllNonempty(lists) && LastIsFresh(lists)
    ensures NeverDry(lists)
  {
    forall u: seq<nat> | Different(u, lists) && |u| < |lists|
      ensures lists[|u|] != [] && !Taken(lists, u, |lists[|u|]| - 1)
    {
      assert FreshAt(lists, |u|);
    }
  }

  lemma {:induction false} NeverAborts(p: Program, lists: Lists, choices: seq<nat>, n: nat)
    requires Fits(p, lists, 0) && CrashFree(p) && NeverDry(lists)
    ensures !Aborts(p, lists, choices, n)
    decreases n
  {
    hide Fits, CrashFree, NeverDry, Run, Next;
    if IsPartial(choices, lists) {
      RunNeverCrashes(p, [], choices, lists, 0);
      var t := Run(p, [], choices, lists, 0);
      if n > 0 {
        NeverAborts(p, lists, Next(t.choices, lists), n - 1);
      }
    }
  }

  /** Picks for the choices before `i` that differ and leave the last candidate of list `i` dismissed. */
  lemma DryPicks(lists: Lists, i: nat) returns (u: seq<nat>)
    requires AllNonempty(lists) && i < |lists| && !FreshAt(lists, i) && forall j: nat :: j < i ==> FreshAt(lists, j)
    ensures |u| == i && Different(u, lists) && Taken(lists, u, |lists[i]| - 1)
  {
    var k: nat, c: nat :| k < i && c < |lists[k]| && lists[k][c] == lists[i][|lists[i]| - 1];
    var lasts := seq(i, j requires 0 <= j < i => |lists[j]| - 1);
    u := if Taken(lists, lasts[..k], c) then lasts else lasts[k := c];
    forall j: nat | j < i
      ensures !Taken(lists, u[..j], u[j])
    {
      if j != k || u == lasts {
        assert FreshAt(lists, j);
      } else {
        assert u[..j] == lasts[..k];
      }
    }
  }

  /** A program that fails until its choices are `u`, and then whatever is chosen next. */
  function Lure(u: seq<nat>, lists: Lists, j: nat): Program
    requires j <= |u| < |lists|
    decreases |u| - j
  {
    if j == |u| then Choose(seq(|lists[j]|, _ => Fail))
    else Choose(seq(|lists[j]|, c requires 0 <= c < |lists[j]| =>
                  if c < u[j] then Fail else if c == u[j] then Lure(u, lists, j + 1) else Succeed))
  }

  lemma {:induction false} LureFits(u: seq<nat>, lists: Lists, j: nat)
    requires j <= |u| < |lists|
    ensures Fits(Lure(u, lists, j), lists, j) && CrashFree(Lure(u, lists, j))
    decreases |u| - j
  {
    if j < |u| {
      LureFits(u, lists, j + 1);
    }
  }

  /** Choices that agree with `u` but for the last one, which has not got past it. */
  ghost predicate OnTrack(x: seq<nat>, u: seq<nat>, lists: Lists) {
    && IsPartial(x, lists) && |x| <= |u| + 1
    && (forall k: nat :: k < |x| - 1 ==> x[k] == u[k])
    && (0 < |x| <= |u| ==> x[|x| - 1] <= u[|x| - 1])
  }

  /** A failed attempt has left the last choice short of `u`, or short of the last candidate after `u`. */
  ghost predicate FellShort(x: seq<nat>, u: seq<nat>, lists: Lists)
    requires |u| < |lists|
  {
    && OnTrack(x, u, lists) && x != []
    && x[|x| - 1] + 1 < |lists[|x| - 1]|
    && (|x| <= |u| ==> x[|x| - 1] < u[|x| - 1])
  }

  lemma {:induction false} LureRun(u: seq<nat>, lists: Lists, x: seq<nat>, j: nat)
    requires |u| < |lists| && lists[|u|] != [] && Different(u, lists) && Taken(lists, u, |lists[|u|]| - 1)
    requires OnTrack(x, u, lists) && j <= |u| && j <= |x| && x[..j] == u[..j] && Fits(Lure(u, lists, j), lists, j)
    ensures var t := Run(Lure(u, lists, j), [], x, lists, j);
            t.outcome.Crashed? || (t.outcome.Failed? && FellShort(t.choices, u, lists))
    decreases |u| - j
  {
    hide Taken, Different, OnTrack, FellShort, Fits;
    NoneRequested(x, u, lists);
    var r := Requested(x, lists, j);
    if j < |u| {
      LureRequest(u, lists, x, j);
      if r[j] == u[j] {
        LureFits(u, lists, j + 1);
        LureRun(u, lists, r, j + 1);
      }
    } else {
      LastRequest(u, lists, x);
    }
  }

  lemma NoneRequested(x: seq<nat>, u: seq<nat>, lists: Lists)
    requires OnTrack(x, u, lists)
    ensures IsPartial(x, lists)
  {
  }

  /** Up to `u`, a request either stops short of it, as the last one, or stays on track. */
  lemma LureRequest(u: seq<nat>, lists: Lists, x: seq<nat>, j: nat)
    requires |u| < |lists| && Different(u, lists)
    requires OnTrack(x, u, lists) && j < |u| && j <= |x| && x[..j] == u[..j]
    ensures var r := Requested(x, lists, j);
            && r[j] <= u[j] < |lists[j]|
            && (r[j] < u[j] ==> FellShort(r, u, lists))
            && (r[j] == u[j] ==> OnTrack(r, u, lists) && r[..j + 1] == u[..j + 1])
  {
    hide Taken;
    AtOrBefore(u, lists, x, j);
    var r := Requested(x, lists, j);
    FreeReaches(u, lists, From(x, j), j);
    FreeReaches(u, lists, u[j], j);
    assert r[j] == u[j] ==> r[..j + 1] == r[..j] + [r[j]] == u[..j] + [u[j]] == u[..j + 1];
  }

  lemma AtOrBefore(u: seq<nat>, lists: Lists, x: seq<nat>, j: nat)
    requires OnTrack(x, u, lists) && j < |u| < |lists| && Different(u, lists)
    ensures From(x, j) <= u[j] < |lists[j]|
  {
  }

  /** After `u`, a request finds nothing or stops short of the last candidate. */
  lemma LastRequest(u: seq<nat>, lists: Lists, x: seq<nat>)
    requires |u| < |lists| && lists[|u|] != [] && Taken(lists, u, |lists[|u|]| - 1)
    requires OnTrack(x, u, lists) && |u| <= |x| && x[..|u|] == u
    ensures var r := Requested(x, lists, |u|); r[|u|] < |lists[|u|]| ==> FellShort(r, u, lists)
  {
    hide Taken;
    var r := Requested(x, lists, |u|);
    assert r[|u|] < |lists[|u|]| ==> !Taken(lists, u, r[|u|]);
  }

  /** Looking for a candidate from a position not past `u[j]` stops at `u[j]` at the latest. */
  lemma FreeReaches(u: seq<nat>, lists: Lists, c: nat, j: nat)
    requires Different(u, lists) && j < |u| && c <= u[j]
    ensures Free(lists, u[..j], c) <= u[j]
  {
    assert !Taken(lists, u[..j], u[j]);
  }

  lemma NextOnTrack(x: seq<nat>, u: seq<nat>, lists: Lists)
    requires |u| < |lists| && FellShort(x, u, lists)
    ensures Next(x, lists) != [] && OnTrack(Next(x, lists), u, lists)
  {
    assert Pruned(x, lists) == x;
    NextIsPartial(x, lists);
  }

  /** On track, the attempts lead on to a crash. */
  lemma {:induction false} LureAborts(u: seq<nat>, lists: Lists, x: seq<nat>) returns (n: nat)
    requires AllNonempty(lists) && |u| < |lists| && Different(u, lists) && Taken(lists, u, |lists[|u|]| - 1)
    requires OnTrack(x, u, lists) && Fits(Lure(u, lists, 0), lists, 0)
    ensures Aborts(Lure(u, lists, 0), lists, x, n)
    decreases ToCome(lists, x)
  {
    hide Fits, Lure, Run, Taken, Different, ToCome, LexLess;
    LureRun(u, lists, x, 0);
    var t := Run(Lure(u, lists, 0), [], x, lists, 0);
    if t.outcome.Crashed? {
      n := 0;
    } else {
      NextOnTrack(t.choices, u, lists);
      NextIsLater(x, t.choices, lists);
      FewerToCome(lists, x, Next(t.choices, lists));
      n := LureAborts(u, lists, Next(t.choices, lists));
      n := n + 1;
    }
  }

  lemma {:induction false} FirstStale(lists: Lists, n: nat) returns (i: nat)
    requires AllNonempty(lists) && n < |lists| && !FreshAt(lists, n)
    ensures i < |lists| && !FreshAt(lists, i) && forall j: nat :: j < i ==> FreshAt(lists, j)
  {
    if m: nat :| m < n && !FreshAt(lists, m) {
      i := FirstStale(lists, m);
    } else {
      i := n;
    }
  }

  /**
   The searches of programs without crashes are safe exactly if no list's last candidate occurs in an earlier list.
   */
  lemma NeverAbortsIff(lists: Lists)
    requires AllNonempty(lists)
    ensures LastIsFresh(lists) <==>
              forall p: Program, n: nat :: Fits(p, lists, 0) && CrashFree(p) ==> !Aborts(p, lists, [], n)
  {
    hide Aborts, CrashFree, Fits, FreshAt;
    if LastIsFresh(lists) {
      FreshNeverDry(lists);
      forall p: Program, n: nat | Fits(p, lists, 0) && CrashFree(p)
        ensures !Aborts(p, lists, [], n)
      {
        NeverAborts(p, lists, [], n);
      }
    } else {
      var i: nat :| i < |lists| && !FreshAt(lists, i);
      i := FirstStale(lists, i);
      var u := DryPicks(lists, i);
      LureFits(u, lists, 0);
      var n := LureAborts(u, lists, []);
    }
  }
}
