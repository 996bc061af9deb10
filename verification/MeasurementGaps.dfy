/** The reporting view over gaps between one device's measurements
    (alembic/versions/20260818_0005_reporting_create_reporting_views.py): LAG over the measurement
    times and an estimate of how many minute measurements are missing in each gap.

    Times are microseconds, as PostgreSQL stores them. */
module MeasurementGaps {
  import opened Common

  const SECOND: int := 1_000_000
  const GAP_THRESHOLD: int := 90_000_000
  const MINUTE: int := 60_000_000

  /** What the view reports for one pair of neighbours `d` apart; no row counts as zero. */
  function Estimate(d: int): int {
    if d > GAP_THRESHOLD then Max(d / MINUTE - 1, 1) else 0
  }

  predicate Sorted(times: seq<int>) {
    forall i, j :: 0 <= i < j < |times| ==> times[i] <= times[j]
  }

  datatype Gap = Gap(previous: int, next: int, intervalSeconds: int, estimatedMissing: int)

  /** The view's rows for measurement times in `(measured_at, id)` order. */
  function Gaps(times: seq<int>): seq<Gap> {
    if |times| < 2 then []
    else
      var d := times[1] - times[0];
      if d > GAP_THRESHOLD then [Gap(times[0], times[1], RoundSeconds(d), Estimate(d))] + Gaps(times[1..])
      else Gaps(times[1..])
  }

  /** `EXTRACT(EPOCH FROM …)::bigint`: seconds, rounded to the nearest, ties away from zero. */
  function RoundSeconds(d: int): int {
    (d + SECOND / 2) / SECOND
  }

  function TotalOf(gaps: seq<Gap>): int {
    if gaps == [] then 0 else gaps[0].estimatedMissing + TotalOf(gaps[1..])
  }

  function TotalMissing(times: seq<int>): int {
    TotalOf(Gaps(times))
  }

  /** Where a new measurement lands among the stored ones; equal times keep storage order. */
  function Inserted(times: seq<int>, t: int): seq<int> {
    if |times| == 0 || t < times[0] then [t] + times else [times[0]] + Inserted(times[1..], t)
  }

  lemma {:induction false} InsertedIsPermutation(times: seq<int>, t: int)
    ensures multiset(Inserted(times, t)) == multiset(times) + multiset{t}
  {
    if times != [] && t >= times[0] {
      InsertedIsPermutation(times[1..], t);
      assert times == [times[0]] + times[1..];
    }
  }

  lemma {:induction false} InsertedIsSorted(times: seq<int>, t: int)
    requires Sorted(times)
    ensures Sorted(Inserted(times, t))
  {
    if times != [] && t >= times[0] {
      var rest := Inserted(times[1..], t);
      InsertedIsSorted(times[1..], t);
      InsertedIsPermutation(times[1..], t);
      forall k | 0 <= k < |rest|
        ensures times[0] <= rest[k]
      {
        MemberOfPermutation(rest, times[1..], t, k);
      }
    }
  }

  lemma MemberOfPermutation(rest: seq<int>, times: seq<int>, t: int, k: nat)
    requires k < |rest| && multiset(rest) == multiset(times) + multiset{t}
    ensures rest[k] in times || rest[k] == t
  {
    assert rest[k] in multiset(rest);
  }

  lemma TotalUnfolds(times: seq<int>)
    requires |times| >= 2
    ensures TotalMissing(times) == Estimate(times[1] - times[0]) + TotalMissing(times[1..])
  {
    if times[1] - times[0] > GAP_THRESHOLD {
      var d := times[1] - times[0];
      assert ([Gap(times[0], times[1], RoundSeconds(d), Estimate(d))] + Gaps(times[1..]))[1..] == Gaps(times[1..]);
    }
  }

  lemma EstimateIsMonotone(a: int, b: int)
    requires a <= b
    ensures Estimate(a) <= Estimate(b)
  {
  }

  /** Splitting a gap never raises the estimate: the two parts together report no more. */
  lemma EstimateIsSuperadditive(a: int, b: int)
    requires a >= 0 && b >= 0
    ensures Estimate(a) + Estimate(b) <= Estimate(a + b)
  {
    if a <= GAP_THRESHOLD {
      EstimateIsMonotone(b, a + b);
    } else if b <= GAP_THRESHOLD {
      EstimateIsMonotone(a, a + b);
    } else {
      assert (a + b) / MINUTE >= a / MINUTE + b / MINUTE;
      assert a / MINUTE >= 1 && b / MINUTE >= 1 && (a + b) / MINUTE >= 3;
    }
  }

  /** Filling in: storing any measurement between the first and the last stored one never raises
      the device's total estimate, whichever gap it lands in. */
  lemma {:induction false} LateMeasurementNeverAddsMissing(times: seq<int>, t: int)
    requires Sorted(times) && |times| > 0 && times[0] <= t <= times[|times| - 1]
    ensures TotalMissing(Inserted(times, t)) <= TotalMissing(times)
  {
    if |times| == 1 {
      assert Inserted(times, t) == [t, t];
      TotalUnfolds([t, t]);
      assert [t, t][1..] == [t];
    } else if t < times[1] {
      assert Inserted(times, t) == [times[0], t] + times[1..];
      SplitFirstGap(times, t);
    } else {
      var filled := [times[0]] + Inserted(times[1..], t);
      assert filled[1..] == Inserted(times[1..], t);
      TotalUnfolds(times);
      TotalUnfolds(filled);
      LateMeasurementNeverAddsMissing(times[1..], t);
    }
  }

  lemma SplitFirstGap(times: seq<int>, t: int)
    requires |times| >= 2 && times[0] <= t <= times[1]
    ensures TotalMissing([times[0], t] + times[1..]) <= TotalMissing(times)
  {
    var split := [times[0], t] + times[1..];
    assert split[1..] == [t] + times[1..];
    assert ([t] + times[1..])[1..] == times[1..];
    TotalUnfolds(times);
    TotalUnfolds(split);
    TotalUnfolds([t] + times[1..]);
    EstimateIsSuperadditive(t - times[0], times[1] - t);
  }

  /** Storing several measurements, one after the other. */
  function InsertedAll(times: seq<int>, late: seq<int>): seq<int> {
    if |late| == 0 then times else Inserted(InsertedAll(times, late[..|late| - 1]), late[|late| - 1])
  }

  lemma {:induction false} InsertedKeepsEnds(times: seq<int>, t: int)
    requires times != [] && times[0] <= t <= times[|times| - 1]
    ensures var filled := Inserted(times, t);
            |filled| == |times| + 1 && filled[0] == times[0] && filled[|filled| - 1] == times[|times| - 1]
  {
    var rest := Inserted(times[1..], t);
    assert Inserted(times, t) == [times[0]] + rest;
    if |times| > 1 && t >= times[1] {
      InsertedKeepsEnds(times[1..], t);
    } else {
      assert rest == [t] + times[1..];
    }
  }

  lemma {:induction false} InsertedAllKeepsOrder(times: seq<int>, late: seq<int>)
    requires Sorted(times) && times != []
    requires forall i :: 0 <= i < |late| ==> times[0] <= late[i] <= times[|times| - 1]
    ensures var filled := InsertedAll(times, late);
            filled != [] && filled[0] == times[0] && filled[|filled| - 1] == times[|times| - 1] && Sorted(filled)
  {
    if late != [] {
      var n := |late| - 1;
      InsertedAllKeepsOrder(times, late[..n]);
      InsertedKeepsEnds(InsertedAll(times, late[..n]), late[n]);
      InsertedIsSorted(InsertedAll(times, late[..n]), late[n]);
    }
  }

  lemma {:induction false} InsertedAllIsPermutation(times: seq<int>, late: seq<int>)
    ensures multiset(InsertedAll(times, late)) == multiset(times) + multiset(late)
  {
    if |late| > 0 {
      var n := |late| - 1;
      InsertedAllIsPermutation(times, late[..n]);
      InsertedIsPermutation(InsertedAll(times, late[..n]), late[n]);
      assert multiset(late) == multiset(late[..n]) + multiset{late[n]} by {
        assert late == late[..n] + [late[n]];
      }
    }
  }

  /** However many measurements arrive late, and in whatever order, the total estimate does not rise. */
  lemma {:induction false} LateMeasurementsNeverAddMissing(times: seq<int>, late: seq<int>)
    requires Sorted(times) && times != []
    requires forall i :: 0 <= i < |late| ==> times[0] <= late[i] <= times[|times| - 1]
    ensures TotalMissing(InsertedAll(times, late)) <= TotalMissing(times)
  {
    if late != [] {
      var n := |late| - 1;
      LateMeasurementsNeverAddMissing(times, late[..n]);
      InsertedAllKeepsOrder(times, late[..n]);
      LateMeasurementNeverAddsMissing(InsertedAll(times, late[..n]), late[n]);
    }
  }

  /** Outside the stored range the total can only grow, by exactly the new gap's estimate. */
  lemma {:induction false} LaterMeasurementAddsItsGap(times: seq<int>, t: int)
    requires Sorted(times) && |times| > 0 && t > times[|times| - 1]
    ensures TotalMissing(Inserted(times, t)) == TotalMissing(times) + Estimate(t - times[|times| - 1])
  {
    var filled := [times[0]] + Inserted(times[1..], t);
    assert filled[1..] == Inserted(times[1..], t);
    TotalUnfolds(filled);
    if |times| > 1 {
      TotalUnfolds(times);
      LaterMeasurementAddsItsGap(times[1..], t);
    }
  }

  /** The view is empty exactly when no two neighbouring measurements are more than 90 s apart. */
  lemma {:induction false} NoGapsExactly(times: seq<int>)
    ensures Gaps(times) == [] <==> forall i :: 0 <= i < |times| - 1 ==> Close(times, i)
  {
    if |times| >= 2 {
      NoGapsExactly(times[1..]);
      if Gaps(times) == [] {
        forall i | 0 <= i < |times| - 1
          ensures Close(times, i)
        {
          assert i > 0 ==> Close(times[1..], i - 1);
        }
      }
      if forall i :: 0 <= i < |times| - 1 ==> Close(times, i) {
        assert Close(times, 0);
        forall i | 0 <= i < |times[1..]| - 1
          ensures Close(times[1..], i)
        {
          assert Close(times, i + 1);
        }
      }
    }
  }

  /** The row that the view shows for two neighbours: more than ninety seconds apart, with the distance
      to the nearest second, and one measurement missing for each whole minute but the last, at
      least one. */
  predicate IsGapOf(g: Gap, previous: int, next: int) {
    && next - previous > 90_000_000 && g.previous == previous && g.next == next
    && -500_000 < g.intervalSeconds * 1_000_000 - (next - previous) <= 500_000
    && g.estimatedMissing >= 1
    && (g.estimatedMissing == 1 ==> next - previous < 180_000_000)
    && (g.estimatedMissing > 1 ==>
          (g.estimatedMissing + 1) * 60_000_000 <= next - previous < (g.estimatedMissing + 2) * 60_000_000)
  }

  lemma GapIsDetermined(previous: int, next: int, g: Gap)
    ensures IsGapOf(g, previous, next) <==>
              next - previous > GAP_THRESHOLD
              && g == Gap(previous, next, RoundSeconds(next - previous), Estimate(next - previous))
  {
  }

  /** The view shows exactly one row for each pair of neighbours more than ninety seconds apart. */
  lemma {:induction false} GapsInPlainTerms(times: seq<int>, g: Gap)
    ensures g in Gaps(times) <==> exists i: nat :: i + 1 < |times| && IsGapOf(g, times[i], times[i + 1])
    ensures |Gaps(times)| == WideNeighbours(times)
  {
    if |times| >= 2 {
      GapsInPlainTerms(times[1..], g);
      GapIsDetermined(times[0], times[1], g);
      if i: nat :| i + 1 < |times[1..]| && IsGapOf(g, times[1..][i], times[1..][i + 1]) {
        assert IsGapOf(g, times[i + 1], times[i + 2]);
      }
      if i: nat :| i + 1 < |times| && IsGapOf(g, times[i], times[i + 1]) {
        assert i > 0 ==> IsGapOf(g, times[1..][i - 1], times[1..][i]);
      }
    }
  }

  /** How many neighbours are more than ninety seconds apart. */
  function WideNeighbours(times: seq<int>): nat {
    if |times| < 2 then 0 else (if times[1] - times[0] > 90_000_000 then 1 else 0) + WideNeighbours(times[1..])
  }

  predicate Close(times: seq<int>, i: nat)
    requires i + 1 < |times|
  {
    times[i + 1] - times[i] <= GAP_THRESHOLD
  }
}
