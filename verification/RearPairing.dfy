/** Pairing a front GNSS fix with the rear fixes around it, and why old rear fixes may be forgotten. */
module RearPairing {
  import opened Options
  import opened RealProducts

  /** A fix; a horizontal deviation of None is infinite, as for an unknown covariance. */
  datatype Sample = Sample(stamp: real, receivedAt: real, x: real, y: real, altitude: real, status: int,
                           covarianceType: int, varianceEast: real, varianceNorth: real,
                           horizontalStddev: Option<real>)

  datatype Method = Exact | Interpolated | Nearest | Missing | Unsynchronized

  /** The rear fix to use, if any, how far off in time it is (None for infinitely far), and how it was found. */
  datatype Pairing = Pairing(rear: Option<Sample>, delta: Option<real>, method_: Method)

  function MaxReal(a: real, b: real): real { if b > a then b else a }
  function MaxDeviation(a: Option<real>, b: Option<real>): Option<real> {
    if a.Some? && b.Some? then Some(MaxReal(a.value, b.value)) else None
  }
  predicate NoLarger(a: Option<real>, b: Option<real>) { b == None || (a.Some? && a.value <= b.value) }
  function MinInt(a: int, b: int): int { if b < a then b else a }
  function Gap(a: real, b: real): real { if a >= b then a - b else b - a }

  predicate Fixed(s: Sample) { s.status == 2 }

  /** The last fix not after the target and the first one not before it, as one forward scan meets them. */
  function ScanRear(rears: seq<Sample>, target: real, before: Option<Sample>): (Option<Sample>, Option<Sample>) {
    if rears == [] then (before, None)
    else
      var s := rears[0];
      var before' := if s.stamp <= target then Some(s) else before;
      if s.stamp >= target then (before', Some(s)) else ScanRear(rears[1..], target, before')
  }

  /** The first of the nearest fixes, given the best so far. */
  function NearestFrom(rears: seq<Sample>, target: real, best: Sample): Sample {
    if rears == [] then best
    else
      var closer := Gap(rears[0].stamp, target) < Gap(best.stamp, target);
      NearestFrom(rears[1..], target, if closer then rears[0] else best)
  }

  function Interpolate(before: Sample, after: Sample, target: real): Sample
    requires after.stamp != before.stamp
  {
    var fraction := (target - before.stamp) / (after.stamp - before.stamp);
    Sample(target, MaxReal(before.receivedAt, after.receivedAt),
           before.x + Times(fraction, after.x - before.x), before.y + Times(fraction, after.y - before.y),
           before.altitude + Times(fraction, after.altitude - before.altitude),
           if Fixed(before) && Fixed(after) then 2 else MinInt(before.status, after.status),
           MinInt(before.covarianceType, after.covarianceType),
           MaxReal(before.varianceEast, after.varianceEast), MaxReal(before.varianceNorth, after.varianceNorth),
           MaxDeviation(before.horizontalStddev, after.horizontalStddev))
  }

  function NearestPairing(rears: seq<Sample>, target: real, tolerance: real): Pairing {
    if rears == [] then Pairing(None, None, Missing)
    else
      var nearest := NearestFrom(rears[1..], target, rears[0]);
      var delta := Gap(nearest.stamp, target);
      if delta <= tolerance then Pairing(Some(nearest), Some(delta), Nearest)
      else Pairing(None, Some(delta), Unsynchronized)
  }

  /** The rear fix for a front fix taken at target. */
  function Pair(rears: seq<Sample>, target: real, maxGap: real, tolerance: real): Pairing {
    match ScanRear(rears, target, None)
    case (Some(before), Some(after)) =>
      var span := after.stamp - before.stamp;
      if span == 0.0 then Pairing(Some(before), Some(0.0), Exact)
      else if span <= maxGap then
        Pairing(Some(Interpolate(before, after, target)), Some(MaxReal(target - before.stamp, after.stamp - target)),
                Interpolated)
      else NearestPairing(rears, target, tolerance)
    case _ => NearestPairing(rears, target, tolerance)
  }

  method InterpolatedRear(rears: seq<Sample>, target: real, maxGap: real, tolerance: real) returns (result: Pairing)
    ensures result == Pair(rears, target, maxGap, tolerance)
  {
    hide Interpolate, Gap;
    var before: Option<Sample> := None;
    var after: Option<Sample> := None;
    var k := 0;
    ghost var all := ScanRear(rears, target, None);
    while k < |rears|
      invariant 0 <= k <= |rears|
      invariant if after.Some? then all == (before, after) else ScanRear(rears[k..], target, before) == all
    {
      var s := rears[k];
      if after.Some? {
        break;
      }
      if s.stamp <= target {
        before := Some(s);
      }
      if s.stamp >= target {
        after := Some(s);
        break;
      }
      assert rears[k..][1..] == rears[k + 1..];
      k := k + 1;
    }
    assert all == (before, after);
    if before.Some? && after.Some? {
      var span := after.value.stamp - before.value.stamp;
      if span == 0.0 {
        return Pairing(before, Some(0.0), Exact);
      }
      if span <= maxGap {
        return Pairing(Some(Interpolate(before.value, after.value, target)),
                       Some(MaxReal(target - before.value.stamp, after.value.stamp - target)), Interpolated);
      }
    }
    if rears == [] {
      return Pairing(None, None, Missing);
    }
    var nearest := rears[0];
    k := 1;
    while k < |rears|
      invariant 1 <= k <= |rears|
      invariant NearestFrom(rears[k..], target, nearest) == NearestFrom(rears[1..], target, rears[0])
    {
      assert rears[k..][1..] == rears[k + 1..];
      if Gap(rears[k].stamp, target) < Gap(nearest.stamp, target) {
        nearest := rears[k];
      }
      k := k + 1;
    }
    var delta := Gap(nearest.stamp, target);
    result := if delta <= tolerance then Pairing(Some(nearest), Some(delta), Nearest)
              else Pairing(None, Some(delta), Unsynchronized);
  }

  // ---------- which rear fix it is ----------

  predicate Increasing(rears: seq<Sample>) {
    forall i, j :: 0 <= i < j < |rears| ==> rears[i].stamp < rears[j].stamp
  }

  /** The stamps on both sides of the target, as far as rears has any. */
  ghost predicate Around(rears: seq<Sample>, target: real, k: nat) {
    && k <= |rears|
    && (forall i :: 0 <= i < k ==> rears[i].stamp < target)
    && (forall i :: k <= i < |rears| ==> target <= rears[i].stamp)
  }

  /** The scan finds the neighbours of the target among fixes in order. */
  lemma {:induction false} ScanFindsNeighbours(rears: seq<Sample>, target: real, before: Option<Sample>)
      returns (k: nat)
    requires Increasing(rears)
    ensures Around(rears, target, k)
    ensures ScanRear(rears, target, before) ==
      (if k < |rears| && rears[k].stamp == target then Some(rears[k]) else if k > 0 then Some(rears[k - 1]) else before,
       if k < |rears| then Some(rears[k]) else None)
    decreases |rears|
  {
    k := 0;
    if rears != [] && rears[0].stamp < target {
      var rest := rears[1..];
      assert forall i :: 0 <= i < |rest| ==> rest[i] == rears[i + 1];
      var j := ScanFindsNeighbours(rest, target, Some(rears[0]));
      k := j + 1;
    }
  }

  /** The nearest fix: none is nearer, and none before it as near. */
  ghost predicate IsNearest(rears: seq<Sample>, target: real, k: nat) {
    && k < |rears|
    && (forall i :: 0 <= i < |rears| ==> Gap(rears[k].stamp, target) <= Gap(rears[i].stamp, target))
    && (forall i :: 0 <= i < k ==> Gap(rears[k].stamp, target) < Gap(rears[i].stamp, target))
  }

  lemma {:induction false} NearestIsFound(rears: seq<Sample>, target: real) returns (k: nat)
    requires rears != []
    ensures IsNearest(rears, target, k) && NearestFrom(rears[1..], target, rears[0]) == rears[k]
    decreases |rears|
  {
    k := 0;
    if |rears| > 1 {
      var closer := Gap(rears[1].stamp, target) < Gap(rears[0].stamp, target);
      var best := if closer then rears[1] else rears[0];
      var shorter := [best] + rears[2..];
      assert rears[1..][0] == rears[1] && rears[1..][1..] == rears[2..] && shorter[1..] == rears[2..];
      var j := NearestIsFound(shorter, target);
      k := if j > 0 then j + 1 else if closer then 1 else 0;
      assert forall i :: 2 <= i < |rears| ==> rears[i] == shorter[i - 1];
    }
  }

  lemma RateOverQuotient(f: real, rate: real, d: real)
    ensures Times(f, Times(rate, d)) == Times(rate, Times(f, d))
  {
  }

  lemma EvenCoordinate(before: real, after: real, t: real, u: real, target: real, start: real, rate: real)
    requires t < u && before == start + Times(rate, t) && after == start + Times(rate, u)
    ensures before + Times((target - t) / (u - t), after - before) == start + Times(rate, target)
  {
    hide Times;
    var d := u - t;
    var f := (target - t) / d;
    TimesSplits(rate, t, d);
    assert after - before == Times(rate, d);
    RateOverQuotient(f, rate, d);
    TimesQuotient(target - t, d);
    TimesSplits(rate, t, target - t);
  }

  /** A position along a line, in even motion. */
  datatype Motion = Motion(start: real, rate: real)

  function At(m: Motion, t: real): real {
    m.start + Times(m.rate, t)
  }

  /** For an antenna in even motion the interpolated fix is where it was at the time of the target. */
  lemma EvenMotionInterpolated(before: Sample, after: Sample, target: real, x: Motion, y: Motion, z: Motion)
    requires before.stamp < after.stamp
    requires before.x == At(x, before.stamp) && before.y == At(y, before.stamp) &&
      before.altitude == At(z, before.stamp)
    requires after.x == At(x, after.stamp) && after.y == At(y, after.stamp) && after.altitude == At(z, after.stamp)
    ensures var s := Interpolate(before, after, target);
      s.stamp == target && s.x == At(x, target) && s.y == At(y, target) && s.altitude == At(z, target)
  {
    hide Times;
    EvenCoordinate(before.x, after.x, before.stamp, after.stamp, target, x.start, x.rate);
    EvenCoordinate(before.y, after.y, before.stamp, after.stamp, target, y.start, y.rate);
    EvenCoordinate(before.altitude, after.altitude, before.stamp, after.stamp, target, z.start, z.rate);
  }

  /**
   * An interpolated fix is no better than the worse of the two it comes from: its status is the smaller one, so among
   * the statuses of a NavSatFix, none above 2, it is fixed exactly when both are.
   */
  lemma InterpolatedQuality(before: Sample, after: Sample, target: real)
    requires before.stamp < after.stamp
    ensures var s := Interpolate(before, after, target);
      && s.status == MinInt(before.status, after.status)
      && (before.status <= 2 && after.status <= 2 ==> (Fixed(s) <==> Fixed(before) && Fixed(after)))
      && NoLarger(before.horizontalStddev, s.horizontalStddev) && NoLarger(after.horizontalStddev, s.horizontalStddev)
      && (s.horizontalStddev == before.horizontalStddev || s.horizontalStddev == after.horizontalStddev)
      && before.receivedAt <= s.receivedAt && after.receivedAt <= s.receivedAt
      && (s.receivedAt == before.receivedAt || s.receivedAt == after.receivedAt)
      && s.covarianceType <= before.covarianceType && s.covarianceType <= after.covarianceType
      && (s.covarianceType == before.covarianceType || s.covarianceType == after.covarianceType)
      && before.varianceEast <= s.varianceEast && after.varianceEast <= s.varianceEast
      && (s.varianceEast == before.varianceEast || s.varianceEast == after.varianceEast)
      && before.varianceNorth <= s.varianceNorth && after.varianceNorth <= s.varianceNorth
      && (s.varianceNorth == before.varianceNorth || s.varianceNorth == after.varianceNorth)
  {
    hide Times;
  }

  /**
   * What is paired with a front fix, among rear fixes in order: one taken at the same time if there is one; else the
   * two around it interpolated, if they are within the gap; else the nearest, if it is within the tolerance; else
   * none.
   */
  lemma PairChooses(rears: seq<Sample>, target: real, maxGap: real, tolerance: real) returns (k: nat, n: nat)
    requires Increasing(rears)
    ensures Around(rears, target, k) && (rears != [] ==> IsNearest(rears, target, n))
    ensures var r := Pair(rears, target, maxGap, tolerance);
      if k < |rears| && rears[k].stamp == target then r == Pairing(Some(rears[k]), Some(0.0), Exact)
      else if 0 < k < |rears| && rears[k].stamp - rears[k - 1].stamp <= maxGap then
        && r.rear == Some(Interpolate(rears[k - 1], rears[k], target)) && r.method_ == Interpolated
        && r.delta == Some(MaxReal(target - rears[k - 1].stamp, rears[k].stamp - target))
      else if rears == [] then r == Pairing(None, None, Missing)
      else
        var delta := Gap(rears[n].stamp, target);
        r == if delta <= tolerance then Pairing(Some(rears[n]), Some(delta), Nearest)
             else Pairing(None, Some(delta), Unsynchronized)
  {
    hide Interpolate, Gap, ScanRear, NearestFrom, IsNearest, MaxReal;
    k := ScanFindsNeighbours(rears, target, None);
    n := 0;
    if rears != [] { n := NearestIsFound(rears, target); }
  }

  // ---------- forgetting old rear fixes ----------

  /** The first fix can be dropped when the second one is not after the target. */
  lemma DropFirst(rears: seq<Sample>, target: real, maxGap: real, tolerance: real)
    requires Increasing(rears) && |rears| >= 2 && rears[1].stamp <= target
    ensures Pair(rears[1..], target, maxGap, tolerance) == Pair(rears, target, maxGap, tolerance)
  {
    hide Interpolate;
    assert rears[1..][0] == rears[1];
    assert ScanRear(rears[1..], target, Some(rears[0])) == ScanRear(rears[1..], target, None);
    assert NearestFrom(rears[1..], target, rears[0]) == NearestFrom(rears[1..][1..], target, rears[1]);
  }

  /** Any number of leading fixes can be dropped when the first one kept is not after the target. */
  lemma {:induction false} DropLeading(dropped: seq<Sample>, kept: seq<Sample>, target: real, maxGap: real,
                                       tolerance: real)
    requires Increasing(dropped + kept)
    requires dropped != [] ==> kept != [] && kept[0].stamp <= target
    ensures Pair(dropped + kept, target, maxGap, tolerance) == Pair(kept, target, maxGap, tolerance)
    decreases |dropped|
  {
    hide Pair;
    if dropped == [] {
      assert dropped + kept == kept;
    } else {
      var all := dropped + kept;
      var rest := dropped[1..];
      assert all[1..] == rest + kept;
      assert all[|dropped|] == kept[0] && (|dropped| > 1 ==> all[1].stamp < all[|dropped|].stamp);
      DropFirst(all, target, maxGap, tolerance);
      assert Increasing(rest + kept) by {
        assert forall i :: 0 <= i < |rest + kept| ==> (rest + kept)[i] == all[i + 1];
      }
      DropLeading(rest, kept, target, maxGap, tolerance);
    }
  }
}
