/**
 The loop shared by `Cube::handleIntersecttion` and
 `Pyramid::handleIntersecttion`: starting from `tMin = -1`, every face's `t`
 replaces `tMin` when it is positive and either nothing has been kept yet or
 it is smaller than what has been kept.
 */
module NearestHit {
  import opened Rays

  /** One iteration of the loop. */
  function Step(tMin: real, t: real): real {
    if t > 0.0 && (tMin < 0.0 || t < tMin) then t else tMin
  }

  /** The loop run over `ts` from an accumulator that is either `NoHit` or positive. */
  function FoldMin(tMin: real, ts: seq<real>): (r: real)
    requires tMin == NoHit || tMin > 0.0
    ensures r == NoHit || r > 0.0
    ensures r == NoHit <==> tMin == NoHit && forall i :: 0 <= i < |ts| ==> ts[i] <= 0.0
    ensures r == tMin || r in ts
    ensures r > 0.0 && tMin > 0.0 ==> r <= tMin
    ensures r > 0.0 ==> forall i :: 0 <= i < |ts| && ts[i] > 0.0 ==> r <= ts[i]
    decreases |ts|
  {
    if ts == [] then tMin
    else
      var r := FoldMin(Step(tMin, ts[0]), ts[1..]);
      assert forall i :: 1 <= i < |ts| ==> ts[i] == ts[1..][i - 1];
      r
  }

  /**
   The loop over `ts` from `tMin = -1`: `NoHit` exactly when no `t` is positive,
   and otherwise the smallest positive `t`.
   */
  function MinPositive(ts: seq<real>): (r: real)
    ensures r == NoHit <==> forall i :: 0 <= i < |ts| ==> ts[i] <= 0.0
    ensures r != NoHit ==> r > 0.0 && r in ts
    ensures r != NoHit ==> forall i :: 0 <= i < |ts| && ts[i] > 0.0 ==> r <= ts[i]
  {
    FoldMin(NoHit, ts)
  }

  /** Running one more iteration after the loop is the loop over the longer sequence. */
  lemma {:induction false} FoldMinAppend(tMin: real, ts: seq<real>, t: real)
    requires tMin == NoHit || tMin > 0.0
    ensures FoldMin(tMin, ts + [t]) == Step(FoldMin(tMin, ts), t)
    decreases |ts|
  {
    if ts != [] {
      assert (ts + [t])[1..] == ts[1..] + [t];
      FoldMinAppend(Step(tMin, ts[0]), ts[1..], t);
    }
  }
}
