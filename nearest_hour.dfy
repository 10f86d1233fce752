/**
 * Lookup of the hourly forecast slot closest to the current time: the
 * dashboard reads humidity, pressure, cloud cover, UV index and precipitation
 * at that index of the hourly series.
 *
 * Timestamps are milliseconds since the epoch, as integers; parsing the
 * provider's date strings is not part of this model.
 */
module HourlyLookup {

  /** Absolute time difference between two timestamps. */
  function Distance(t: int, cur: int): (d: nat)
    ensures d as int == t - cur || d as int == cur - t
    ensures t - cur <= d && cur - t <= d
  {
    if t < cur then cur - t else t - cur
  }

  /** The running minimum of the scan: a difference seen so far, or none yet. */
  datatype Bound = Finite(value: nat) | Infinity

  /** Whether `d` is strictly below the bound (every difference is below `Infinity`). */
  predicate Below(d: nat, b: Bound) {
    match b
    case Infinity => true
    case Finite(v) => d < v
  }

  /** Index `k` is at least as close to `cur` as every other slot. */
  predicate IsNearest(times: seq<int>, cur: int, k: nat) {
    k < |times| &&
    forall j :: 0 <= j < |times| ==> Distance(times[k], cur) <= Distance(times[j], cur)
  }

  /** Index `k` is nearest, and every earlier slot is strictly farther away. */
  predicate IsFirstNearest(times: seq<int>, cur: int, k: nat) {
    IsNearest(times, cur, k) &&
    forall j :: 0 <= j < k ==> Distance(times[j], cur) > Distance(times[k], cur)
  }

  /** Scans the hourly timestamps and returns the index with the smallest
      distance to `currentTime`, the first one on a tie; 0 for no timestamps. */
  method FindNearestHourIndex(hourlyTimes: seq<int>, currentTime: int) returns (nearestIdx: nat)
    ensures |hourlyTimes| == 0 ==> nearestIdx == 0
    ensures |hourlyTimes| > 0 ==> IsFirstNearest(hourlyTimes, currentTime, nearestIdx)
  {
    nearestIdx := 0;
    var minDiff := Infinity;
    var i := 0;
    while i < |hourlyTimes|
      invariant 0 <= i <= |hourlyTimes|
      invariant i == 0 ==> nearestIdx == 0 && minDiff == Infinity
      invariant i > 0 ==> nearestIdx < i && minDiff == Finite(Distance(hourlyTimes[nearestIdx], currentTime))
      invariant forall j :: 0 <= j < i ==> Distance(hourlyTimes[nearestIdx], currentTime) <= Distance(hourlyTimes[j], currentTime)
      invariant forall j :: 0 <= j < nearestIdx ==> Distance(hourlyTimes[j], currentTime) > Distance(hourlyTimes[nearestIdx], currentTime)
    {
      var diff := Distance(hourlyTimes[i], currentTime);
      if Below(diff, minDiff) {
        minDiff := Finite(diff);
        nearestIdx := i;
      }
      i := i + 1;
    }
  }

  /** The first nearest index is unique, so the scan's result is determined. */
  lemma FirstNearestIsUnique(times: seq<int>, cur: int, a: nat, b: nat)
    requires IsFirstNearest(times, cur, a) && IsFirstNearest(times, cur, b)
    ensures a == b
  {
    var da, db := Distance(times[a], cur), Distance(times[b], cur);
    assert a < b ==> da > db;
    assert b < a ==> db > da;
  }

  /** Some index is always first nearest in a non-empty series. */
  lemma {:induction false} FirstNearestExists(times: seq<int>, cur: int)
    requires |times| > 0
    ensures exists k: nat :: IsFirstNearest(times, cur, k)
  {
    if |times| == 1 {
      assert IsFirstNearest(times, cur, 0);
    } else {
      var init := times[..|times| - 1];
      FirstNearestExists(init, cur);
      var k: nat :| IsFirstNearest(init, cur, k);
      var last := |times| - 1;
      if Distance(times[last], cur) < Distance(times[k], cur) {
        assert IsFirstNearest(times, cur, last);
      } else {
        assert IsFirstNearest(times, cur, k);
      }
    }
  }

  /** Hourly slots at T, T+1h and T+2h queried at T+50min give the middle slot. */
  lemma FiftyMinutesPicksNextHour(t: int)
    ensures IsFirstNearest([t, t + 3600000, t + 7200000], t + 3000000, 1)
  {
  }

  /** Two slots equally close to the query: the earlier one wins. */
  lemma TieGoesToEarlierSlot(t: int)
    ensures IsFirstNearest([t - 1800000, t + 1800000], t, 0)
    ensures !IsFirstNearest([t - 1800000, t + 1800000], t, 1)
  {
  }
}
