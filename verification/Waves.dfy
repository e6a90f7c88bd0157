/** Layering a dependency graph into topological waves. */
module Waves {
  import opened Wrappers

  /** `deps[i]` are the steps that step `i` reads from. */
  type Deps = seq<seq<nat>>

  predicate Edge(deps: Deps, i: nat, d: nat): (e: bool)
    ensures e ==> i < |deps|
  {
    i < |deps| && d in deps[i]
  }

  ghost predicate InRange(deps: Deps)
  {
    forall i: nat, d: nat :: Edge(deps, i, d) ==> d < |deps|
  }

  /** A closed walk along dependencies: the last node is the first again. */
  ghost predicate IsCycle(deps: Deps, p: seq<nat>)
  {
    |p| >= 2 && p[0] == p[|p| - 1] && IsWalk(deps, p)
  }

  ghost predicate IsWalk(deps: Deps, p: seq<nat>)
  {
    forall k | 0 < k < |p| :: Edge(deps, p[k - 1], p[k])
  }

  ghost predicate Acyclic(deps: Deps)
  {
    !exists p :: IsCycle(deps, p)
  }

  /** A layering puts every step strictly above what it depends on. */
  ghost predicate IsLayering(deps: Deps, level: seq<int>)
  {
    && |level| == |deps|
    && (forall i | 0 <= i < |deps| :: level[i] >= 0)
    && forall i: nat, d: nat :: Edge(deps, i, d) ==> d < |deps| && level[d] < level[i]
  }

  /** Step `i` depends on a step of level `v`. */
  ghost predicate DependsAt(deps: Deps, level: seq<int>, i: nat, v: int)
  {
    exists d: nat :: Edge(deps, i, d) && d < |level| && level[d] == v
  }

  /** The tight layering puts each step one above the highest step it depends on, or at zero. */
  ghost predicate IsTight(deps: Deps, level: seq<int>)
  {
    IsLayering(deps, level)
    && forall i: nat | i < |deps| && level[i] > 0 :: DependsAt(deps, level, i, level[i] - 1)
  }

  predicate Ascending(wave: seq<nat>)
  {
    forall a, b | 0 <= a < b < |wave| :: wave[a] < wave[b]
  }

  /** `wave` lists the steps of level `w` once each, in index order, and is not empty. */
  ghost predicate IsWave(level: seq<int>, wave: seq<nat>, w: int)
  {
    wave != [] && Ascending(wave) && forall i: nat :: i in wave <==> i < |level| && level[i] == w
  }

  ghost predicate ListsLevels(waves: seq<seq<nat>>, level: seq<int>)
  {
    && (forall i | 0 <= i < |level| :: level[i] < |waves|)
    && (forall w | 0 <= w < |waves| :: IsWave(level, waves[w], w))
  }

  // ------------------------------------------------------------ about layerings

  /** A layering rules cycles out. */
  lemma {:induction false} LayeringIsAcyclic(deps: Deps, level: seq<int>)
    requires IsLayering(deps, level)
    ensures Acyclic(deps)
  {
    forall p | IsWalk(deps, p) && |p| >= 2
      ensures p[0] != p[|p| - 1]
    {
      LevelFalls(deps, level, p, |p| - 1);
    }
  }

  lemma {:induction false} LevelFalls(deps: Deps, level: seq<int>, p: seq<nat>, k: nat)
    requires IsLayering(deps, level) && IsWalk(deps, p) && 0 < k < |p|
    ensures p[k] < |deps| && p[0] < |deps| && level[p[k]] < level[p[0]]
  {
    assert Edge(deps, p[k - 1], p[k]);
    if k > 1 {
      LevelFalls(deps, level, p, k - 1);
    }
  }

  /** The tight layering is below every other, step by step. */
  lemma {:induction false} TightIsLowest(deps: Deps, tight: seq<int>, other: seq<int>, i: nat)
    requires IsTight(deps, tight) && IsLayering(deps, other) && i < |deps|
    ensures tight[i] <= other[i]
    decreases tight[i]
  {
    if tight[i] > 0 {
      assert DependsAt(deps, tight, i, tight[i] - 1);
      var d: nat :| Edge(deps, i, d) && d < |tight| && tight[d] == tight[i] - 1;
      TightIsLowest(deps, tight, other, d);
    }
  }

  /** So it is unique. */
  lemma {:induction false} TightIsUnique(deps: Deps, a: seq<int>, b: seq<int>)
    requires IsTight(deps, a) && IsTight(deps, b)
    ensures a == b
  {
    forall i | 0 <= i < |deps|
      ensures a[i] == b[i]
    {
      TightIsLowest(deps, a, b, i);
      TightIsLowest(deps, b, a, i);
    }
  }

  /** And no valid layering fits into fewer waves. */
  lemma {:induction false} FewestWaves(deps: Deps, waves: seq<seq<nat>>, level: seq<int>, other: seq<int>, n: nat)
    requires IsTight(deps, level) && ListsLevels(waves, level)
    requires IsLayering(deps, other) && forall i | 0 <= i < |deps| :: other[i] < n
    ensures |waves| <= n
  {
    if |waves| > 0 {
      var w := |waves| - 1;
      assert IsWave(level, waves[w], w);
      var i := waves[w][0];
      assert i in waves[w];
      TightIsLowest(deps, level, other, i);
    }
  }

  // ------------------------------------------------------------ stuck steps

  ghost predicate DependsIn(deps: Deps, i: nat, s: set<nat>)
  {
    exists d: nat :: Edge(deps, i, d) && d in s
  }

  /** Every stuck step still waits for a stuck step. */
  ghost predicate Stuck(deps: Deps, s: set<nat>)
  {
    s != {} && forall i | i in s :: DependsIn(deps, i, s)
  }

  predicate Distinct(p: seq<nat>)
  {
    forall a, b | 0 <= a < b < |p| :: p[a] != p[b]
  }

  lemma {:induction false} DistinctFits(p: seq<nat>, s: set<nat>)
    requires Distinct(p) && forall k | 0 <= k < |p| :: p[k] in s
    ensures |p| <= |s|
  {
    if p != [] {
      DistinctFits(p[..|p| - 1], s - {p[|p| - 1]});
    }
  }

  /** A set of stuck steps holds a cycle. */
  lemma {:induction false} StuckHasCycle(deps: Deps, s: set<nat>) returns (cycle: seq<nat>)
    requires Stuck(deps, s)
    ensures IsCycle(deps, cycle) && forall k | 0 <= k < |cycle| :: cycle[k] in s
  {
    hide DependsIn, Edge;
    var i :| i in s;
    cycle := Walk(deps, s, [i]);
  }

  lemma {:induction false} WalkSuffix(deps: Deps, q: seq<nat>, k: nat)
    requires IsWalk(deps, q) && k <= |q|
    ensures IsWalk(deps, q[k..])
  {
    forall j | 0 < j < |q[k..]|
      ensures Edge(deps, q[k..][j - 1], q[k..][j])
    {
      assert Edge(deps, q[k + j - 1], q[k + j]);
    }
  }

  lemma {:induction false} Walk(deps: Deps, s: set<nat>, p: seq<nat>) returns (cycle: seq<nat>)
    requires Stuck(deps, s) && p != [] && Distinct(p) && IsWalk(deps, p)
    requires forall k | 0 <= k < |p| :: p[k] in s
    ensures IsCycle(deps, cycle) && forall k | 0 <= k < |cycle| :: cycle[k] in s
    decreases |s| + 1 - |p|
  {
    hide Edge;
    var last := p[|p| - 1];
    assert DependsIn(deps, last, s);
    var d: nat :| Edge(deps, last, d) && d in s;
    var q := p + [d];
    DistinctFits(p, s);
    assert IsWalk(deps, q);
    if d in p {
      var k :| 0 <= k < |p| && p[k] == d;
      cycle := q[k..];
      WalkSuffix(deps, q, k);
    } else {
      cycle := Walk(deps, s, q);
    }
  }

  // ------------------------------------------------------------ the algorithm

  /** The steps not yet scheduled. */
  function Waiting(scheduled: seq<bool>): set<nat>
  {
    set i: nat | i < |scheduled| && !scheduled[i]
  }

  ghost predicate Ready(deps: Deps, scheduled: seq<bool>, i: nat)
  {
    i < |scheduled| && !scheduled[i] && forall d: nat :: Edge(deps, i, d) && d < |scheduled| ==> scheduled[d]
  }

  /** `level` is -1 for a waiting step and its wave for a scheduled one. */
  ghost predicate Marks(scheduled: seq<bool>, level: seq<int>)
  {
    |scheduled| == |level| && forall i | 0 <= i < |level| :: (scheduled[i] <==> level[i] >= 0) && level[i] >= -1
  }

  /**
   * What holds between waves: scheduled steps are tight, waiting ones are held up by the last wave or by a waiting
   * step.
   */
  ghost predicate Progress(deps: Deps, n: int, level: seq<int>)
  {
    && InRange(deps) && |level| == |deps|
    && (forall i: nat, d: nat :: Edge(deps, i, d) && level[i] >= 0 ==> 0 <= level[d] < level[i])
    && (forall i: nat | i < |deps| && level[i] > 0 :: DependsAt(deps, level, i, level[i] - 1))
    && (forall i: nat | i < |deps| && level[i] == -1 && n > 0 ::
          DependsAt(deps, level, i, -1) || DependsAt(deps, level, i, n - 1))
  }

  /** Draining repeatedly either schedules everything or leaves stuck steps. */
  method LayerIntoWaves(deps: Deps) returns (r: Result<seq<seq<nat>>, seq<nat>>)
    requires InRange(deps)
    ensures r.Ok? <==> Acyclic(deps)
    ensures r.Ok? ==> exists level :: IsTight(deps, level) && ListsLevels(r.value, level)
    ensures r.Err? ==> Ascending(r.error) && Stuck(deps, Elements(r.error))
  {
    hide Marks, Progress, ListsLevels, Acyclic, Stuck, Raise, Ready;
    var n := |deps|;
    var scheduled := seq(n, _ => false);
    var waves: seq<seq<nat>> := [];
    var remaining := n;
    ghost var level: seq<int> := seq(n, _ => -1);
    Start(deps, scheduled, level);
    while remaining > 0
      invariant Marks(scheduled, level)
      invariant Progress(deps, |waves|, level)
      invariant ListsLevels(waves, level)
      invariant |scheduled| == n && remaining == |Waiting(scheduled)|
    {
      var wave := ReadySteps(deps, scheduled);
      if wave == [] {
        var stuck := WaitingList(scheduled);
        StuckNow(deps, scheduled, Elements(stuck));
        return Err(stuck);
      }
      ghost var before, level' := scheduled, Raise(level, Elements(wave), |waves|);
      scheduled := Schedule(scheduled, wave);
      NextMarks(before, level, wave, |waves|, scheduled);
      LevelsListed(waves, level);
      NextProgress(deps, before, |waves|, level, wave);
      NextLists(waves, level, wave, before);
      level := level';
      remaining := remaining - |wave|;
      waves := waves + [wave];
    }
    Finish(deps, scheduled, waves, level);
    return Ok(waves);
  }

  function Elements(wave: seq<nat>): set<nat>
  {
    set i | i in wave
  }

  /** The steps of `s` get level `w`. */
  ghost function Raise(level: seq<int>, s: set<nat>, w: int): (r: seq<int>)
    ensures |r| == |level|
    ensures forall i: nat | i < |level| :: r[i] == if i in s then w else level[i]
  {
    seq(|level|, i requires 0 <= i < |level| => if i in s then w else level[i])
  }

  method ReadySteps(deps: Deps, scheduled: seq<bool>) returns (wave: seq<nat>)
    requires InRange(deps) && |scheduled| == |deps|
    ensures Ascending(wave) && forall x: nat :: x in wave <==> Ready(deps, scheduled, x)
    ensures forall i | i in wave :: i < |scheduled| && !scheduled[i]
  {
    wave := [];
    for i := 0 to |deps|
      invariant Ascending(wave)
      invariant forall k | 0 <= k < |wave| :: wave[k] < i
      invariant forall x: nat :: x in wave <==> x < i && Ready(deps, scheduled, x)
    {
      assert forall d: nat | d in deps[i] :: Edge(deps, i, d);
      if !scheduled[i] && forall d: nat | d in deps[i] :: scheduled[d] {
        wave := wave + [i];
      }
    }
  }

  method WaitingList(scheduled: seq<bool>) returns (stuck: seq<nat>)
    ensures Ascending(stuck) && Elements(stuck) == Waiting(scheduled)
  {
    stuck := [];
    for i := 0 to |scheduled|
      invariant Ascending(stuck)
      invariant forall k | 0 <= k < |stuck| :: stuck[k] < i
      invariant forall x: nat :: x in stuck <==> x < i && x in Waiting(scheduled)
    {
      if !scheduled[i] {
        stuck := stuck + [i];
      }
    }
  }

  method Schedule(scheduled: seq<bool>, wave: seq<nat>) returns (after: seq<bool>)
    requires forall i | i in wave :: i < |scheduled|
    ensures |after| == |scheduled|
    ensures forall i: nat | i < |after| :: after[i] <==> scheduled[i] || i in wave
  {
    after := scheduled;
    for k := 0 to |wave|
      invariant |after| == |scheduled|
      invariant forall i: nat | i < |after| :: after[i] <==> scheduled[i] || i in wave[..k]
    {
      assert wave[k] in wave;
      after := after[wave[k] := true];
    }
    assert wave[..|wave|] == wave;
  }

  function UpTo(n: nat): (s: set<nat>)
    ensures |s| == n && forall i: nat :: i in s <==> i < n
  {
    if n == 0 then {} else UpTo(n - 1) + {n - 1}
  }

  lemma {:induction false} Start(deps: Deps, scheduled: seq<bool>, level: seq<int>)
    requires InRange(deps) && |scheduled| == |level| == |deps|
    requires forall i | 0 <= i < |deps| :: !scheduled[i] && level[i] == -1
    ensures Marks(scheduled, level) && Progress(deps, 0, level) && ListsLevels([], level)
    ensures |Waiting(scheduled)| == |scheduled|
  {
    assert Waiting(scheduled) == UpTo(|scheduled|);
  }

  /** With nothing waiting the marks are the tight layering. */
  lemma {:induction false} Finish(deps: Deps, scheduled: seq<bool>, waves: seq<seq<nat>>, level: seq<int>)
    requires Marks(scheduled, level) && Progress(deps, |waves|, level) && |Waiting(scheduled)| == 0
    ensures IsTight(deps, level) && Acyclic(deps)
  {
    assert forall i: nat | i < |level| && !scheduled[i] :: i in Waiting(scheduled);
    LayeringIsAcyclic(deps, level);
  }

  lemma {:induction false} AscendingCount(wave: seq<nat>)
    requires Ascending(wave)
    ensures |Elements(wave)| == |wave|
  {
    if wave != [] {
      var rest, x := wave[..|wave| - 1], wave[|wave| - 1];
      AscendingCount(rest);
      assert Elements(wave) == Elements(rest) + {x};
      assert x !in rest;
    }
  }

  /** No step is ready, so each waiting one depends on a waiting one. */
  lemma {:induction false} StuckNow(deps: Deps, scheduled: seq<bool>, s: set<nat>)
    requires InRange(deps) && |scheduled| == |deps| && s == Waiting(scheduled) && s != {}
    requires forall i: nat :: !Ready(deps, scheduled, i)
    ensures Stuck(deps, s) && !Acyclic(deps)
  {
    forall i | i in s
      ensures DependsIn(deps, i, s)
    {
      assert !Ready(deps, scheduled, i);
      var d: nat :| Edge(deps, i, d) && d < |scheduled| && !scheduled[d];
      assert d in s;
    }
    var cycle := StuckHasCycle(deps, s);
  }

  lemma {:induction false} NextMarks(before: seq<bool>, level: seq<int>, wave: seq<nat>, n: nat, after: seq<bool>)
    requires Marks(before, level) && Ascending(wave)
    requires |after| == |before| && forall i: nat | i < |after| :: after[i] <==> before[i] || i in wave
    requires forall i | i in wave :: i < |before| && !before[i]
    ensures Marks(after, Raise(level, Elements(wave), n))
    ensures |Waiting(after)| == |Waiting(before)| - |wave|
  {
    AscendingCount(wave);
    assert Waiting(after) == Waiting(before) - Elements(wave);
    assert Elements(wave) <= Waiting(before);
  }

  lemma {:induction false} NextProgress(deps: Deps, before: seq<bool>, n: nat, level: seq<int>, wave: seq<nat>)
    requires Marks(before, level) && Progress(deps, n, level)
    requires forall i: nat | i < |level| :: level[i] < n
    requires forall x: nat :: x in wave <==> Ready(deps, before, x)
    ensures Progress(deps, n + 1, Raise(level, Elements(wave), n))
  {
    hide Raise, Edge, DependsAt;
    var s := Elements(wave);
    forall i: nat, d: nat | Edge(deps, i, d) && Raise(level, s, n)[i] >= 0
      ensures 0 <= Raise(level, s, n)[d] < Raise(level, s, n)[i]
    {
      RaisedFalls(deps, before, n, level, s, i, d);
    }
    forall i: nat | i < |deps| && Raise(level, s, n)[i] > 0
      ensures DependsAt(deps, Raise(level, s, n), i, Raise(level, s, n)[i] - 1)
    {
      RaisedIsTight(deps, n, level, s, i);
    }
    forall i: nat | i < |deps| && Raise(level, s, n)[i] == -1
      ensures DependsAt(deps, Raise(level, s, n), i, -1) || DependsAt(deps, Raise(level, s, n), i, n)
    {
      assert !Ready(deps, before, i);
      StillWaits(deps, before, n, level, s, i);
    }
  }

  lemma {:induction false} RaisedFalls(deps: Deps, before: seq<bool>, n: nat, level: seq<int>, s: set<nat>, i: nat,
                                       d: nat)
    requires Marks(before, level) && |level| == |deps| && i < |deps| && d < |deps| && Edge(deps, i, d)
    requires forall j: nat | j < |level| :: level[j] < n
    requires forall j: nat :: j in s <==> Ready(deps, before, j)
    requires level[i] >= 0 ==> 0 <= level[d] < level[i]
    ensures var r := Raise(level, s, n); r[i] >= 0 ==> 0 <= r[d] < r[i]
  {
    hide Edge, Raise;
    assert d in s ==> !before[d];
    assert i in s ==> before[d];
  }

  lemma {:induction false} RaisedIsTight(deps: Deps, n: nat, level: seq<int>, s: set<nat>, i: nat)
    requires |level| == |deps| && i < |deps| && n >= 0
    requires forall j: nat | j in s :: j < |level| && level[j] == -1
    requires i in s && n > 0 ==> DependsAt(deps, level, i, -1) || DependsAt(deps, level, i, n - 1)
    requires i in s ==> forall d: nat :: Edge(deps, i, d) && d < |level| ==> level[d] >= 0
    requires i !in s && level[i] > 0 ==> DependsAt(deps, level, i, level[i] - 1)
    ensures var r := Raise(level, s, n); r[i] > 0 ==> DependsAt(deps, r, i, r[i] - 1)
  {
    hide Edge, Raise;
    var r := Raise(level, s, n);
    if r[i] > 0 {
      var v := if i in s then n - 1 else level[i] - 1;
      assert DependsAt(deps, level, i, v);
      var d: nat :| Edge(deps, i, d) && d < |level| && level[d] == v;
      assert r[d] == v;
    }
  }

  lemma {:induction false} StillWaits(deps: Deps, before: seq<bool>, n: nat, level: seq<int>, s: set<nat>, i: nat)
    requires Marks(before, level) && |level| == |deps| && i < |deps|
    requires !before[i] && !Ready(deps, before, i)
    ensures var r := Raise(level, s, n); DependsAt(deps, r, i, -1) || DependsAt(deps, r, i, n)
  {
    hide Edge, Raise;
    var r := Raise(level, s, n);
    var d: nat :| Edge(deps, i, d) && d < |before| && !before[d];
    assert r[d] == -1 || r[d] == n;
  }

  lemma {:induction false} LevelsListed(waves: seq<seq<nat>>, level: seq<int>)
    requires ListsLevels(waves, level)
    ensures forall i: nat | i < |level| :: level[i] < |waves|
  {
  }

  lemma {:induction false} NextLists(waves: seq<seq<nat>>, level: seq<int>, wave: seq<nat>, before: seq<bool>)
    requires Marks(before, level) && ListsLevels(waves, level)
    requires wave != [] && Ascending(wave) && forall i | i in wave :: i < |before| && !before[i]
    ensures ListsLevels(waves + [wave], Raise(level, Elements(wave), |waves|))
  {
    var r := Raise(level, Elements(wave), |waves|);
    forall w | 0 <= w < |waves|
      ensures IsWave(r, waves[w], w)
    {
      assert IsWave(level, waves[w], w);
    }
  }
}
