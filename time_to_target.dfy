/** `time_to_target` (monte_carlo.py:54-66): for each simulated trial, the
    first day whose price reaches the target; trials that never reach it are
    left out of the result. */
module TimeToTarget {
  import opened Outcomes

  predicate StrictlyIncreasing(s: seq<nat>)
  {
    forall a, b :: 0 <= a < b < |s| ==> s[a] < s[b]
  }

  /** `np.where(col >= target)[0]`: the ascending indices of the entries at
      or above the target, all of them and nothing else; every entry before
      the first index is below the target. */
  function Where(col: seq<real>, target: real): (idx: seq<nat>)
    ensures StrictlyIncreasing(idx)
    ensures forall k :: 0 <= k < |idx| ==> idx[k] < |col| && col[idx[k]] >= target
    ensures forall i :: 0 <= i < |col| && col[i] >= target ==> i in idx
    ensures |idx| > 0 ==> forall i :: 0 <= i < idx[0] ==> col[i] < target
    ensures |idx| == 0 ==> forall i :: 0 <= i < |col| ==> col[i] < target
  {
    if col == [] then []
    else
      var n := |col| - 1;
      var front := Where(col[..n], target);
      if col[n] >= target then front + [n] else front
  }

  /** `hits[0]` when `hits` is non-empty: the first day at or above the
      target, before which every day is below it; `None` exactly when no day
      reaches the target. */
  function FirstHit(col: seq<real>, target: real): (d: Option<nat>)
    ensures d.Some? ==>
      d.value < |col| && col[d.value] >= target &&
      forall i :: 0 <= i < d.value ==> col[i] < target
    ensures d.None? <==> forall i :: 0 <= i < |col| ==> col[i] < target
  {
    var w := Where(col, target);
    if |w| > 0 then Some(w[0]) else None
  }

  /** `paths[:, sim]`: the prices of one trial, day by day. */
  function Column(paths: array2<real>, j: nat): (col: seq<real>)
    reads paths
    requires j < paths.Length1
    ensures |col| == paths.Length0
    ensures forall i :: 0 <= i < paths.Length0 ==> col[i] == paths[i, j]
  {
    seq(paths.Length0, i requires 0 <= i < paths.Length0 reads paths => paths[i, j])
  }

  /** The first hit of every trial, in trial order. */
  function FirstHits(paths: array2<real>, target: real): (hits: seq<Option<nat>>)
    reads paths
    ensures |hits| == paths.Length1
    ensures forall j :: 0 <= j < paths.Length1 ==> hits[j] == FirstHit(Column(paths, j), target)
  {
    seq(paths.Length1, j requires 0 <= j < paths.Length1 reads paths => FirstHit(Column(paths, j), target))
  }

  /** The days carried by the hits, in order, with the misses dropped: what
      `hit_days` holds after the loop has visited the trials of `hits`. */
  function Present(hits: seq<Option<nat>>): seq<nat>
  {
    if hits == [] then []
    else
      var n := |hits| - 1;
      var front := Present(hits[..n]);
      if hits[n].Some? then front + [hits[n].value] else front
  }

  /** Never more days than trials, and one day per trial, in trial order,
      exactly when every trial hits. */
  lemma {:induction false} PresentCount(hits: seq<Option<nat>>)
    ensures |Present(hits)| <= |hits|
    ensures |Present(hits)| == |hits| <==> forall j :: 0 <= j < |hits| ==> hits[j].Some?
    ensures |Present(hits)| == |hits| ==> forall k :: 0 <= k < |hits| ==> Present(hits)[k] == hits[k].value
  {
    if hits != [] {
      var n := |hits| - 1;
      var front := hits[..n];
      PresentCount(front);
      assert forall j :: 0 <= j < n ==> front[j] == hits[j];
    }
  }

  /** Visiting one more trial appends its day when it hits and nothing
      when it misses. */
  lemma PresentStep(hits: seq<Option<nat>>, sim: nat)
    requires sim < |hits|
    ensures Present(hits[..sim + 1]) ==
      Present(hits[..sim]) + (if hits[sim].Some? then [hits[sim].value] else [])
  {
    assert hits[..sim + 1][..sim] == hits[..sim];
  }

  /** No hit at all leaves nothing. */
  lemma {:induction false} PresentOfMisses(hits: seq<Option<nat>>)
    requires forall j :: 0 <= j < |hits| ==> hits[j].None?
    ensures Present(hits) == []
  {
    if hits != [] {
      PresentOfMisses(hits[..|hits| - 1]);
    }
  }

  /** A bound on every hit day bounds every reported day. */
  lemma {:induction false} PresentBounded(hits: seq<Option<nat>>, bound: nat)
    requires forall j :: 0 <= j < |hits| && hits[j].Some? ==> hits[j].value < bound
    ensures forall k :: 0 <= k < |Present(hits)| ==> Present(hits)[k] < bound
  {
    if hits != [] {
      PresentBounded(hits[..|hits| - 1], bound);
    }
  }

  /** The trials behind the reported days: entry `k` is the index of the
      trial whose first hit is the `k`-th reported day. The indices increase,
      every one of them is a trial that hits, and every trial that hits is
      among them. */
  function HitTrials(hits: seq<Option<nat>>): (trials: seq<nat>)
    ensures |trials| == |Present(hits)|
    ensures StrictlyIncreasing(trials)
    ensures forall k :: 0 <= k < |trials| ==> trials[k] < |hits| && hits[trials[k]] == Some(Present(hits)[k])
    ensures forall j :: 0 <= j < |hits| && hits[j].Some? ==> j in trials
  {
    if hits == [] then []
    else
      var n := |hits| - 1;
      var front := HitTrials(hits[..n]);
      assert forall j :: 0 <= j < n ==> hits[..n][j] == hits[j];
      if hits[n].Some? then front + [n] else front
  }

  /** `time_to_target`: walks the trials in order and appends each trial's
      first hit day, skipping trials that never reach the target. The result
      holds the first hit days of the trials that reach the target, in trial
      order, each of them a day of the simulation. */
  method TimeToTarget(paths: array2<real>, target: real) returns (hitDays: seq<nat>)
    ensures hitDays == Present(FirstHits(paths, target))
    ensures |hitDays| <= paths.Length1
    ensures forall k :: 0 <= k < |hitDays| ==> hitDays[k] < paths.Length0
  {
    hitDays := [];
    ghost var hits := FirstHits(paths, target);
    for sim := 0 to paths.Length1
      invariant hitDays == Present(hits[..sim])
    {
      PresentStep(hits, sim);
      var found := FirstHit(Column(paths, sim), target);
      assert found == hits[sim];
      if found.Some? {
        hitDays := hitDays + [found.value];
      }
    }
    assert hits[..paths.Length1] == hits;
    PresentCount(hits);
    PresentBounded(hits, paths.Length0);
  }

  /** A target at or below every starting price is reached on day 0 by every
      trial: one 0 per trial. */
  lemma TargetAtStart(paths: array2<real>, target: real)
    requires paths.Length0 > 0
    requires forall j :: 0 <= j < paths.Length1 ==> paths[0, j] >= target
    ensures Present(FirstHits(paths, target)) == seq(paths.Length1, _ => 0)
  {
    var hits := FirstHits(paths, target);
    forall j | 0 <= j < paths.Length1
      ensures hits[j] == Some(0)
    {
      var col := Column(paths, j);
      assert col[0] >= target;
    }
    PresentCount(hits);
  }

  /** A target above every price is never reached: no trial is reported. */
  lemma TargetUnreachable(paths: array2<real>, target: real)
    requires forall i, j :: 0 <= i < paths.Length0 && 0 <= j < paths.Length1 ==> paths[i, j] < target
    ensures Present(FirstHits(paths, target)) == []
  {
    var hits := FirstHits(paths, target);
    assert forall j :: 0 <= j < paths.Length1 ==> hits[j].None?;
    PresentOfMisses(hits);
  }

  /** A trial that dips back below the target after reaching it is reported
      at its first crossing: the single trial [100, 90, 110, 120] against a
      target of 105 gives [2]. */
  lemma FirstCrossingExample(paths: array2<real>)
    requires paths.Length0 == 4 && paths.Length1 == 1
    requires paths[0, 0] == 100.0 && paths[1, 0] == 90.0 && paths[2, 0] == 110.0 && paths[3, 0] == 120.0
    ensures Present(FirstHits(paths, 105.0)) == [2]
  {
    var hits := FirstHits(paths, 105.0);
    var col := Column(paths, 0);
    assert col == [100.0, 90.0, 110.0, 120.0];
    assert col[2] >= 105.0;
    assert hits[0] == Some(2);
    assert hits[..0] == [];
  }
}
