/** app/services/query_service.py and app/repositories/query_repository.py: period checks,
    statistics and the Asia/Tokyo bucketed series over one half-open set of rows.

    Instants are microseconds since the UTC epoch; Asia/Tokyo is a fixed +9 hours. */
module Querying {
  import opened Wrappers
  import opened Common
  import opened Decimals

  const MAX_PERIOD: int := 7_776_000_000_000
  const MAX_SERIES_POINTS: int := 500

  /** A datetime as the query layer receives it. */
  datatype Moment = Naive | Aware(utc: int)

  datatype Granularity = Hourly | Daily {
    function Size(): int {
      if this == Hourly then 3_600_000_000 else 86_400_000_000
    }
  }

  datatype QueryError = MissingTimezone | NotEarlier | TooLong | TooManyPoints

  function ValidatePeriod(periodFrom: Moment, periodTo: Moment): Result<(int, int), QueryError> {
    if periodFrom.Naive? || periodTo.Naive? then Failure(MissingTimezone)
    else if periodFrom.utc >= periodTo.utc then Failure(NotEarlier)
    else if periodTo.utc - periodFrom.utc > MAX_PERIOD then Failure(TooLong)
    else Success((periodFrom.utc, periodTo.utc))
  }

  /** A stored measurement as the queries see it. */
  datatype Sample = Sample(at: int, temperature: real, humidity: real)

  // --- Aggregates ---

  /** COUNT, SUM, MIN and MAX of one column over a row set; AVG is the quotient. */
  datatype MetricRow = MetricRow(count: nat, sum: real, minimum: Option<real>, maximum: Option<real>)

  const NO_ROWS := MetricRow(0, 0.0, None, None)

  function Least(a: Option<real>, b: Option<real>): Option<real> {
    if a.None? then b else if b.None? then a else if a.value <= b.value then a else b
  }

  function Greatest(a: Option<real>, b: Option<real>): Option<real> {
    if a.None? then b else if b.None? then a else if a.value >= b.value then a else b
  }

  /** The aggregate of two disjoint row sets. */
  function Combine(a: MetricRow, b: MetricRow): MetricRow {
    MetricRow(a.count + b.count, a.sum + b.sum, Least(a.minimum, b.minimum), Greatest(a.maximum, b.maximum))
  }

  datatype Column = TemperatureColumn | HumidityColumn {
    function Of(s: Sample): real {
      if this == TemperatureColumn then s.temperature else s.humidity
    }
  }

  function One(value: real): MetricRow {
    MetricRow(1, value, Some(value), Some(value))
  }

  function Aggregate(rows: seq<Sample>, column: Column): MetricRow {
    if |rows| == 0 then NO_ROWS
    else Combine(One(column.Of(rows[0])), Aggregate(rows[1..], column))
  }

  function InPeriod(rows: seq<Sample>, from: int, to: int): seq<Sample> {
    if rows == [] then []
    else if from <= rows[0].at < to then [rows[0]] + InPeriod(rows[1..], from, to)
    else InPeriod(rows[1..], from, to)
  }

  // --- Buckets ---

  /** `date_trunc` in Tokyo local time, as the number of whole units since the local epoch. */
  function BucketIndex(at: int, g: Granularity): int {
    if g == Hourly then (at + 32_400_000_000) / 3_600_000_000 else (at + 32_400_000_000) / 86_400_000_000
  }

  function BucketFrom(index: int, g: Granularity): int {
    index * g.Size() - TOKYO_OFFSET
  }

  function BucketTo(index: int, g: Granularity): int {
    index * g.Size() + g.Size() - TOKYO_OFFSET
  }

  /** The rows of one GROUP BY group. */
  function Group(rows: seq<Sample>, index: int, g: Granularity): seq<Sample> {
    if |rows| == 0 then []
    else if BucketIndex(rows[0].at, g) == index then [rows[0]] + Group(rows[1..], index, g)
    else Group(rows[1..], index, g)
  }

  datatype SeriesRow = SeriesRow(bucketFrom: int, bucketTo: int, temperature: MetricRow, humidity: MetricRow) {
    function Metric(column: Column): MetricRow {
      if column == TemperatureColumn then temperature else humidity
    }
  }

  function GroupRow(rows: seq<Sample>, index: int, g: Granularity): SeriesRow {
    var group := Group(rows, index, g);
    SeriesRow(BucketFrom(index, g), BucketTo(index, g), Aggregate(group, TemperatureColumn),
      Aggregate(group, HumidityColumn))
  }

  function Indices(rows: seq<Sample>, g: Granularity): set<int> {
    set s | s in rows :: BucketIndex(s.at, g)
  }

  /** `indices` lists `keys` in strictly increasing order: GROUP BY with ORDER BY. */
  ghost predicate Lists(indices: seq<int>, keys: set<int>) {
    && (forall i, j :: 0 <= i < j < |indices| ==> indices[i] < indices[j])
    && (forall k :: k in indices <==> k in keys)
  }

  function SeriesRows(rows: seq<Sample>, indices: seq<int>, g: Granularity): (series: seq<SeriesRow>)
    ensures |series| == |indices|
    ensures forall k :: 0 <= k < |series| ==> series[k] == GroupRow(rows, indices[k], g)
  {
    seq(|indices|, k requires 0 <= k < |indices| => GroupRow(rows, indices[k], g))
  }

  // --- Buckets partition time ---

  /** Each instant lies in exactly the bucket of its index. */
  lemma BucketContains(at: int, index: int, g: Granularity)
    ensures BucketFrom(index, g) <= at < BucketTo(index, g) <==> BucketIndex(at, g) == index
  {
  }

  lemma BucketsAreAdjacent(i: int, j: int, g: Granularity)
    requires i < j
    ensures BucketTo(i, g) <= BucketFrom(j, g)
  {
  }

  lemma IndexIsMonotone(a: int, b: int, g: Granularity)
    requires a <= b
    ensures BucketIndex(a, g) <= BucketIndex(b, g)
  {
    BucketContains(a, BucketIndex(a, g), g);
    BucketContains(b, BucketIndex(b, g), g);
    if BucketIndex(b, g) < BucketIndex(a, g) {
      BucketsAreAdjacent(BucketIndex(b, g), BucketIndex(a, g), g);
    }
  }

  // --- Aggregation is conserved ---

  lemma CombineShifts(one: MetricRow, a: MetricRow, b: MetricRow)
    ensures Combine(one, Combine(a, b)) == Combine(Combine(one, a), b)
    ensures Combine(one, Combine(a, b)) == Combine(a, Combine(one, b))
  {
  }

  function Outside(rows: seq<Sample>, index: int, g: Granularity): seq<Sample> {
    if |rows| == 0 then []
    else if BucketIndex(rows[0].at, g) == index then Outside(rows[1..], index, g)
    else [rows[0]] + Outside(rows[1..], index, g)
  }

  lemma AggregateOfFirst(s: Sample, rows: seq<Sample>, column: Column)
    ensures Aggregate([s] + rows, column) == Combine(One(column.Of(s)), Aggregate(rows, column))
  {
    assert ([s] + rows)[1..] == rows;
  }

  /** Combining the aggregates of two parts gives the aggregate of the whole. */
  predicate Splits(all: seq<Sample>, group: seq<Sample>, outside: seq<Sample>, column: Column) {
    Aggregate(all, column) == Combine(Aggregate(group, column), Aggregate(outside, column))
  }

  /** The first row may join either part of the others. */
  lemma RowJoins(rows: seq<Sample>, group: seq<Sample>, outside: seq<Sample>, column: Column)
    requires |rows| > 0 && Splits(rows[1..], group, outside, column)
    ensures Splits(rows, [rows[0]] + group, outside, column) && Splits(rows, group, [rows[0]] + outside, column)
  {
    AggregateOfFirst(rows[0], group, column);
    AggregateOfFirst(rows[0], outside, column);
    CombineShifts(One(column.Of(rows[0])), Aggregate(group, column), Aggregate(outside, column));
  }

  /** Taking one group out of a row set and combining the two parts loses nothing. */
  lemma {:induction false} AggregateSplits(rows: seq<Sample>, index: int, g: Granularity, column: Column)
    ensures Splits(rows, Group(rows, index, g), Outside(rows, index, g), column)
  {
    var group, outside := Group(rows, index, g), Outside(rows, index, g);
    if |rows| == 0 {
      NothingSplits(rows, group, outside, column);
    } else {
      var others, rest := Group(rows[1..], index, g), Outside(rows[1..], index, g);
      AggregateSplits(rows[1..], index, g, column);
      RowJoins(rows, others, rest, column);
      GroupOfFirst(rows, index, g);
    }
  }

  lemma GroupOfFirst(rows: seq<Sample>, index: int, g: Granularity)
    requires |rows| > 0
    ensures var group, outside := Group(rows[1..], index, g), Outside(rows[1..], index, g);
            || (Group(rows, index, g) == [rows[0]] + group && Outside(rows, index, g) == outside)
            || (Group(rows, index, g) == group && Outside(rows, index, g) == [rows[0]] + outside)
  {
  }

  lemma NothingSplits(all: seq<Sample>, group: seq<Sample>, outside: seq<Sample>, column: Column)
    requires |all| == |group| == |outside| == 0
    ensures Splits(all, group, outside, column)
  {
  }

  lemma {:induction false} OutsideKeepsGroups(rows: seq<Sample>, index: int, other: int, g: Granularity)
    requires other != index
    ensures Group(Outside(rows, index, g), other, g) == Group(rows, other, g)
  {
    if rows != [] {
      OutsideKeepsGroups(rows[1..], index, other, g);
      assert ([rows[0]] + Outside(rows[1..], index, g))[1..] == Outside(rows[1..], index, g);
    }
  }

  lemma {:induction false} OutsideMembers(rows: seq<Sample>, index: int, g: Granularity)
    ensures forall s :: s in Outside(rows, index, g) <==> s in rows && BucketIndex(s.at, g) != index
  {
    if rows != [] {
      OutsideMembers(rows[1..], index, g);
      assert rows == [rows[0]] + rows[1..];
    }
  }

  lemma {:induction false} GroupMembers(rows: seq<Sample>, index: int, g: Granularity)
    ensures forall s :: s in Group(rows, index, g) <==> s in rows && BucketIndex(s.at, g) == index
  {
    if rows != [] {
      GroupMembers(rows[1..], index, g);
      assert rows == [rows[0]] + rows[1..];
    }
  }

  function CombineAll(series: seq<SeriesRow>, column: Column): MetricRow {
    if series == [] then NO_ROWS
    else Combine(series[0].Metric(column), CombineAll(series[1..], column))
  }

  /** The series neither loses nor duplicates a row: its buckets combine to the aggregate of the
      whole row set, in count, sum, minimum and maximum. */
  lemma {:induction false} SeriesCombinesToStatistics(
    rows: seq<Sample>, indices: seq<int>, g: Granularity, column: Column)
    requires Lists(indices, Indices(rows, g))
    ensures CombineAll(SeriesRows(rows, indices, g), column) == Aggregate(rows, column)
    decreases |indices|
  {
    NoGroupsNoRows(rows, indices, g);
    if indices != [] {
      var rest := Outside(rows, indices[0], g);
      AggregateSplits(rows, indices[0], g, column);
      RestLists(rows, indices, g);
      SeriesCombinesToStatistics(rest, indices[1..], g, column);
      RestSeries(rows, indices, g);
    }
  }

  lemma NoGroupsNoRows(rows: seq<Sample>, indices: seq<int>, g: Granularity)
    requires Lists(indices, Indices(rows, g))
    ensures indices == [] <==> rows == []
  {
    if rows != [] {
      assert BucketIndex(rows[0].at, g) in Indices(rows, g);
    }
    assert indices != [] ==> indices[0] in indices;
  }

  lemma RestLists(rows: seq<Sample>, indices: seq<int>, g: Granularity)
    requires indices != [] && Lists(indices, Indices(rows, g))
    ensures Lists(indices[1..], Indices(Outside(rows, indices[0], g), g))
  {
    OutsideMembers(rows, indices[0], g);
    var keys := Indices(Outside(rows, indices[0], g), g);
    forall k
      ensures k in indices[1..] <==> k in keys
    {
      if k in indices[1..] {
        assert k in indices && k != indices[0];
        var s :| s in rows && BucketIndex(s.at, g) == k;
        assert s in Outside(rows, indices[0], g);
      }
      if k in keys {
        assert k in Indices(rows, g);
        assert k in indices && k != indices[0];
      }
    }
  }

  lemma RestSeries(rows: seq<Sample>, indices: seq<int>, g: Granularity)
    requires indices != [] && Lists(indices, Indices(rows, g))
    ensures SeriesRows(rows, indices, g)[1..] == SeriesRows(Outside(rows, indices[0], g), indices[1..], g)
  {
    var rest := Outside(rows, indices[0], g);
    forall k | 0 <= k < |indices| - 1
      ensures SeriesRows(rows, indices, g)[k + 1] == SeriesRows(rest, indices[1..], g)[k]
    {
      assert indices[0] < indices[k + 1];
      OutsideKeepsGroups(rows, indices[0], indices[k + 1], g);
    }
  }

  /** Buckets are disjoint, in strictly increasing order, and each measurement of the row set
      lies in exactly one of them. */
  lemma SeriesPartitionsRows(rows: seq<Sample>, indices: seq<int>, g: Granularity)
    requires Lists(indices, Indices(rows, g))
    ensures var series := SeriesRows(rows, indices, g);
            && (forall i, j :: 0 <= i < j < |series| ==> series[i].bucketTo <= series[j].bucketFrom)
            && (forall s :: s in rows ==>
               exists k :: 0 <= k < |series| && series[k].bucketFrom <= s.at < series[k].bucketTo)
  {
    var series := SeriesRows(rows, indices, g);
    forall i, j | 0 <= i < j < |series|
      ensures series[i].bucketTo <= series[j].bucketFrom
    {
      BucketsAreAdjacent(indices[i], indices[j], g);
    }
    forall s | s in rows
      ensures exists k :: 0 <= k < |series| && series[k].bucketFrom <= s.at < series[k].bucketTo
    {
      var index := BucketIndex(s.at, g);
      assert index in indices;
      var k :| 0 <= k < |indices| && indices[k] == index;
      BucketContains(s.at, index, g);
      assert series[k].bucketFrom <= s.at < series[k].bucketTo;
    }
  }

  // --- The point estimate ---

  /** Buckets the period touches, computed as the service does: from the start's bucket
      boundary, rounded up. */
  function EstimatePoints(from: int, to: int, g: Granularity): int {
    var bucketStart := BucketFrom(BucketIndex(from, g), g);
    if g == Hourly then (to - bucketStart + 3_599_999_999) / 3_600_000_000
    else (to - bucketStart + 86_399_999_999) / 86_400_000_000
  }

  /** The estimate is exactly the number of buckets that the half-open period touches. */
  lemma EstimateCountsTouchedBuckets(from: int, to: int, g: Granularity)
    requires from < to
    ensures EstimatePoints(from, to, g) == BucketIndex(to - 1, g) - BucketIndex(from, g) + 1
    ensures forall i :: Touches(from, to, i, g) <==> BucketIndex(from, g) <= i <= BucketIndex(to - 1, g)
  {
    var first := BucketIndex(from, g);
    if g == Hourly {
      EstimateBy(from, to, first, 3_600_000_000);
    } else {
      EstimateBy(from, to, first, 86_400_000_000);
    }
    forall i
      ensures Touches(from, to, i, g) <==> BucketIndex(from, g) <= i <= BucketIndex(to - 1, g)
    {
      BucketContains(from, first, g);
      BucketContains(to - 1, BucketIndex(to - 1, g), g);
      if i < first {
        BucketsAreAdjacent(i, first, g);
      }
      if BucketIndex(to - 1, g) < i {
        BucketsAreAdjacent(BucketIndex(to - 1, g), i, g);
      }
      if first < i {
        BucketsAreAdjacent(first, i, g);
      }
      if i < BucketIndex(to - 1, g) {
        BucketsAreAdjacent(i, BucketIndex(to - 1, g), g);
      }
    }
  }

  predicate Touches(from: int, to: int, i: int, g: Granularity) {
    from < BucketTo(i, g) && BucketFrom(i, g) < to
  }

  lemma EstimateBy(from: int, to: int, first: int, size: int)
    requires size == 3_600_000_000 || size == 86_400_000_000
    ensures (to - (first * size - TOKYO_OFFSET) + size - 1) / size == (to - 1 + TOKYO_OFFSET) / size - first + 1
  {
  }

  lemma {:induction false} ListedInRange(indices: seq<int>, low: int, high: int)
    requires forall i, j :: 0 <= i < j < |indices| ==> indices[i] < indices[j]
    requires forall i :: 0 <= i < |indices| ==> low <= indices[i] <= high
    requires low <= high + 1
    ensures |indices| <= high - low + 1
  {
    if indices != [] {
      var n := |indices| - 1;
      assert forall i :: 0 <= i < n ==> indices[i] < indices[n];
      ListedInRange(indices[..n], low, indices[n] - 1);
    }
  }

  lemma {:induction false} InPeriodMembers(rows: seq<Sample>, from: int, to: int)
    ensures forall s :: s in InPeriod(rows, from, to) <==> s in rows && from <= s.at < to
  {
    if rows != [] {
      InPeriodMembers(rows[1..], from, to);
      assert rows == [rows[0]] + rows[1..];
    }
  }

  /** A period never yields more points than estimated, whatever is stored. */
  lemma PointsWithinEstimate(rows: seq<Sample>, from: int, to: int, indices: seq<int>, g: Granularity)
    requires from < to && Lists(indices, Indices(InPeriod(rows, from, to), g))
    ensures |indices| <= EstimatePoints(from, to, g)
  {
    InPeriodMembers(rows, from, to);
    EstimateCountsTouchedBuckets(from, to, g);
    forall i | 0 <= i < |indices|
      ensures BucketIndex(from, g) <= indices[i] <= BucketIndex(to - 1, g)
    {
      assert indices[i] in indices;
      var s :| s in InPeriod(rows, from, to) && BucketIndex(s.at, g) == indices[i];
      IndexIsMonotone(from, s.at, g);
      IndexIsMonotone(s.at, to - 1, g);
    }
    IndexIsMonotone(from, to - 1, g);
    ListedInRange(indices, BucketIndex(from, g), BucketIndex(to - 1, g));
  }

  // --- Presentation ---

  datatype MetricStatistics = MetricStatistics(minimum: Option<real>, maximum: Option<real>, average: Option<real>,
    count: nat)

  function Rounded(value: Option<real>): Option<real> {
    if value.None? then None else Some(Numeric2(value.value))
  }

  function Average(row: MetricRow): Option<real> {
    if row.count == 0 then None else Some(row.sum / row.count as real)
  }

  function Present(row: MetricRow): MetricStatistics {
    MetricStatistics(row.minimum, row.maximum, Rounded(Average(row)), row.count)
  }

  function Difference(first: Option<real>, second: Option<real>): Option<real> {
    if first.None? || second.None? then None
    else Rounded(Some(if second.value >= first.value then second.value - first.value else first.value - second.value))
  }

  datatype SeriesPoint = SeriesPoint(bucketFrom: int, bucketTo: int, temperature: MetricStatistics,
    humidity: MetricStatistics)

  function PresentRow(row: SeriesRow): SeriesPoint {
    SeriesPoint(row.bucketFrom, row.bucketTo, Present(row.temperature), Present(row.humidity))
  }

  // --- What is reported, told by the rows alone ---

  /** The temperatures of the rows in a half-open period, in storage order. */
  function TemperaturesIn(rows: seq<Sample>, from: int, to: int): seq<real> {
    if |rows| == 0 then []
    else if from <= rows[0].at < to then [rows[0].temperature] + TemperaturesIn(rows[1..], from, to)
    else TemperaturesIn(rows[1..], from, to)
  }

  function HumiditiesIn(rows: seq<Sample>, from: int, to: int): seq<real> {
    if |rows| == 0 then []
    else if from <= rows[0].at < to then [rows[0].humidity] + HumiditiesIn(rows[1..], from, to)
    else HumiditiesIn(rows[1..], from, to)
  }

  function Total(values: seq<real>): real {
    if |values| == 0 then 0.0 else values[0] + Total(values[1..])
  }

  /** Statistics report these values: how many there are, the least, the greatest, and their sum
      divided by their number, rounded to two decimals. */
  ghost predicate Reports(m: MetricStatistics, values: seq<real>) {
    && m.count == |values|
    && (|values| == 0 ==> m.minimum.None? && m.maximum.None? && m.average.None?)
    && (|values| > 0 ==>
          && m.minimum.Some? && m.minimum.value in values && (forall v :: v in values ==> m.minimum.value <= v)
          && m.maximum.Some? && m.maximum.value in values && (forall v :: v in values ==> v <= m.maximum.value)
          && m.average.Some? && RoundsTo(Total(values) / |values| as real, m.average.value))
  }

  /** One point of a series: a whole hour or day of Tokyo time with at least one row of the period,
      and the statistics of exactly the rows of the period in it. */
  ghost predicate PointReports(p: SeriesPoint, rows: seq<Sample>, from: int, to: int, g: Granularity) {
    var size := if g == Hourly then 3_600_000_000 else 86_400_000_000;
    && p.bucketTo == p.bucketFrom + size && (p.bucketFrom + 32_400_000_000) % size == 0
    && Reports(p.temperature, TemperaturesIn(rows, Max(from, p.bucketFrom), Min(to, p.bucketTo)))
    && Reports(p.humidity, HumiditiesIn(rows, Max(from, p.bucketFrom), Min(to, p.bucketTo)))
    && p.temperature.count == p.humidity.count > 0
  }

  function ValuesOf(rows: seq<Sample>, column: Column): seq<real> {
    if |rows| == 0 then [] else [column.Of(rows[0])] + ValuesOf(rows[1..], column)
  }

  lemma {:induction false} AggregateMeans(rows: seq<Sample>, column: Column)
    ensures var (a, values) := (Aggregate(rows, column), ValuesOf(rows, column));
            && a.count == |values| == |rows| && a.sum == Total(values)
            && (|values| == 0 ==> a.minimum.None? && a.maximum.None?)
            && (|values| > 0 ==>
                  && a.minimum.Some? && a.minimum.value in values && (forall v :: v in values ==> a.minimum.value <= v)
                  && a.maximum.Some? && a.maximum.value in values && (forall v :: v in values ==> v <= a.maximum.value))
  {
    if |rows| > 0 {
      AggregateMeans(rows[1..], column);
      assert ValuesOf(rows, column)[1..] == ValuesOf(rows[1..], column);
    }
  }

  lemma {:induction false} AggregateReports(rows: seq<Sample>, column: Column)
    ensures Reports(Present(Aggregate(rows, column)), ValuesOf(rows, column))
  {
    AggregateMeans(rows, column);
    var a := Aggregate(rows, column);
    if a.count > 0 {
      Numeric2Rounds(a.sum / a.count as real);
    }
  }

  lemma {:induction false} ValuesInPeriod(rows: seq<Sample>, from: int, to: int)
    ensures ValuesOf(InPeriod(rows, from, to), TemperatureColumn) == TemperaturesIn(rows, from, to)
    ensures ValuesOf(InPeriod(rows, from, to), HumidityColumn) == HumiditiesIn(rows, from, to)
  {
    if |rows| > 0 {
      ValuesInPeriod(rows[1..], from, to);
    }
  }

  lemma {:induction false} ValuesInBucket(rows: seq<Sample>, from: int, to: int, index: int, g: Granularity)
    ensures var group := Group(InPeriod(rows, from, to), index, g);
            var (start, end) := (Max(from, BucketFrom(index, g)), Min(to, BucketTo(index, g)));
            && ValuesOf(group, TemperatureColumn) == TemperaturesIn(rows, start, end)
            && ValuesOf(group, HumidityColumn) == HumiditiesIn(rows, start, end)
  {
    if |rows| > 0 {
      ValuesInBucket(rows[1..], from, to, index, g);
      BucketContains(rows[0].at, index, g);
      if from <= rows[0].at < to {
        assert InPeriod(rows, from, to)[1..] == InPeriod(rows[1..], from, to);
      }
    }
  }

  lemma BucketsAreWhole(index: int, g: Granularity)
    ensures var size := if g == Hourly then 3_600_000_000 else 86_400_000_000;
            BucketTo(index, g) == BucketFrom(index, g) + size && (BucketFrom(index, g) + 32_400_000_000) % size == 0
  {
    if g == Hourly {
      assert BucketFrom(index, g) + 32_400_000_000 == index * 3_600_000_000;
    } else {
      assert BucketFrom(index, g) + 32_400_000_000 == index * 86_400_000_000;
    }
  }

  lemma GroupIsNotEmpty(rows: seq<Sample>, indices: seq<int>, g: Granularity, k: nat)
    requires Lists(indices, Indices(rows, g)) && k < |indices|
    ensures |Group(rows, indices[k], g)| > 0
  {
    assert indices[k] in indices;
    var s :| s in rows && BucketIndex(s.at, g) == indices[k];
    GroupMembers(rows, indices[k], g);
  }

  lemma {:induction false} BucketReports(
    rows: seq<Sample>, from: int, to: int, index: int, g: Granularity, group: seq<Sample>)
    requires group == Group(InPeriod(rows, from, to), index, g)
    ensures var (start, end) := (Max(from, BucketFrom(index, g)), Min(to, BucketTo(index, g)));
            var (t, h) := (Present(Aggregate(group, TemperatureColumn)), Present(Aggregate(group, HumidityColumn)));
            && Reports(t, TemperaturesIn(rows, start, end)) && Reports(h, HumiditiesIn(rows, start, end))
            && t.count == h.count == |group|
  {
    ValuesInBucket(rows, from, to, index, g);
    AggregateReports(group, TemperatureColumn);
    AggregateReports(group, HumidityColumn);
    AggregateMeans(group, TemperatureColumn);
    AggregateMeans(group, HumidityColumn);
  }

  lemma {:induction false} PointsReport(
    rows: seq<Sample>, from: int, to: int, indices: seq<int>, g: Granularity, k: nat)
    requires Lists(indices, Indices(InPeriod(rows, from, to), g)) && k < |indices|
    ensures PointReports(PresentRow(SeriesRows(InPeriod(rows, from, to), indices, g)[k]), rows, from, to, g)
  {
    var inside := InPeriod(rows, from, to);
    GroupIsNotEmpty(inside, indices, g, k);
    BucketsAreWhole(indices[k], g);
    BucketReports(rows, from, to, indices[k], g, Group(inside, indices[k], g));
  }

  /** Every row of the period lies in one of the points, and the points are in order. */
  predicate PointsCover(points: seq<SeriesPoint>, rows: seq<Sample>, from: int, to: int) {
    && (forall i, j :: 0 <= i < j < |points| ==> points[i].bucketTo <= points[j].bucketFrom)
    && (forall s :: s in rows && from <= s.at < to ==> exists k :: 0 <= k < |points| && LiesIn(s, points[k]))
  }

  predicate LiesIn(s: Sample, p: SeriesPoint) {
    p.bucketFrom <= s.at < p.bucketTo
  }

  lemma {:induction false} SeriesCovers(
    rows: seq<Sample>, from: int, to: int, indices: seq<int>, g: Granularity, points: seq<SeriesPoint>)
    requires Lists(indices, Indices(InPeriod(rows, from, to), g)) && |points| == |indices|
    requires forall k :: 0 <= k < |points| ==>
             points[k] == PresentRow(SeriesRows(InPeriod(rows, from, to), indices, g)[k])
    ensures PointsCover(points, rows, from, to)
    ensures forall k :: 0 <= k < |points| ==> PointReports(points[k], rows, from, to, g)
  {
    var inside := InPeriod(rows, from, to);
    SeriesPartitionsRows(inside, indices, g);
    InPeriodMembers(rows, from, to);
    forall s | s in rows && from <= s.at < to
      ensures exists k :: 0 <= k < |points| && LiesIn(s, points[k])
    {
      var series := SeriesRows(inside, indices, g);
      assert s in inside;
      var k :| 0 <= k < |series| && series[k].bucketFrom <= s.at < series[k].bucketTo;
      assert LiesIn(s, points[k]);
    }
    forall k | 0 <= k < |points|
      ensures PointReports(points[k], rows, from, to, g)
    {
      PointsReport(rows, from, to, indices, g, k);
    }
  }

  datatype Series = Series(available: bool, from: int, to: int, granularity: Granularity, points: seq<SeriesPoint>)

  /** The service's series query; `indices` is the order in which the database groups the rows. */
  method GetMeasurementSeries(
    rows: seq<Sample>, periodFrom: Moment, periodTo: Moment, g: Granularity, indices: seq<int>)
    returns (result: Result<Series, QueryError>)
    requires ValidatePeriod(periodFrom, periodTo).Success? ==>
             Lists(indices, Indices(InPeriod(rows, periodFrom.utc, periodTo.utc), g))
    ensures result.Failure? <==>
              ValidatePeriod(periodFrom, periodTo).Failure?
              || EstimatePoints(periodFrom.utc, periodTo.utc, g) > 500
    ensures ValidatePeriod(periodFrom, periodTo).Failure? ==>
            result == Failure(ValidatePeriod(periodFrom, periodTo).error)
    ensures result.Success? ==>
              var series := SeriesRows(InPeriod(rows, periodFrom.utc, periodTo.utc), indices, g);
              && |result.value.points| == |series| <= 500
              && (result.value.available <==> series != [])
              && (forall k :: 0 <= k < |series| ==> result.value.points[k] == PresentRow(series[k]))
    ensures result.Success? ==>
              var (from, to) := (periodFrom.utc, periodTo.utc);
              && (result.value.from, result.value.to, result.value.granularity) == (from, to, g)
              && PointsCover(result.value.points, rows, from, to)
              && (forall k :: 0 <= k < |result.value.points| ==>
                 PointReports(result.value.points[k], rows, from, to, g))
  {
    var period := ValidatePeriod(periodFrom, periodTo);
    if period.Failure? {
      return Failure(period.error);
    }
    var (start, end) := period.value;
    if EstimatePoints(start, end, g) > MAX_SERIES_POINTS {
      return Failure(TooManyPoints);
    }
    var series := SeriesRows(InPeriod(rows, start, end), indices, g);
    PointsWithinEstimate(rows, start, end, indices, g);
    var points: seq<SeriesPoint> := [];
    var k := 0;
    while k < |series|
      invariant 0 <= k == |points| <= |series|
      invariant forall n :: 0 <= n < k ==> points[n] == PresentRow(series[n])
    {
      var row := series[k];
      points := points + [SeriesPoint(row.bucketFrom, row.bucketTo, Present(row.temperature), Present(row.humidity))];
      k := k + 1;
    }
    SeriesCovers(rows, start, end, indices, g, points);
    return Success(Series(points != [], start, end, g, points));
  }

  // --- What the displayed numbers mean ---

  /** The aggregate's extremes are attained by rows and bound every row. */
  lemma {:induction false} AggregateExtremes(rows: seq<Sample>, column: Column)
    requires rows != []
    ensures var a := Aggregate(rows, column);
            && a.count == |rows| && a.minimum.Some? && a.maximum.Some?
            && (forall s :: s in rows ==> a.minimum.value <= column.Of(s) <= a.maximum.value)
            && (exists s :: s in rows && column.Of(s) == a.minimum.value)
            && (exists s :: s in rows && column.Of(s) == a.maximum.value)
  {
    assert rows[0] in rows;
    assert rows == [rows[0]] + rows[1..];
    if |rows| == 1 {
      assert rows[1..] == [];
    } else {
      AggregateExtremes(rows[1..], column);
    }
  }

  function Times(n: nat, x: real): real {
    if n == 0 then 0.0 else x + Times(n - 1, x)
  }

  lemma {:induction false} TimesIsProduct(n: nat, x: real)
    ensures Times(n, x) == n as real * x
  {
    if n > 0 {
      TimesIsProduct(n - 1, x);
      Distribute((n - 1) as real, x);
    }
  }

  lemma Distribute(y: real, x: real)
    ensures (y + 1.0) * x == x + y * x
  {
  }

  lemma {:induction false} SumWithin(rows: seq<Sample>, column: Column, low: real, high: real)
    requires forall s :: s in rows ==> low <= column.Of(s) <= high
    ensures Times(|rows|, low) <= Aggregate(rows, column).sum <= Times(|rows|, high)
  {
    if rows != [] {
      SumWithin(rows[1..], column, low, high);
    }
  }

  lemma AverageIsWithinRange(rows: seq<Sample>, column: Column)
    requires rows != []
    ensures var a := Aggregate(rows, column);
            && a.minimum.Some? && a.maximum.Some? && Average(a).Some?
            && a.minimum.value <= Average(a).value <= a.maximum.value
  {
    AggregateExtremes(rows, column);
    var a := Aggregate(rows, column);
    SumWithin(rows, column, a.minimum.value, a.maximum.value);
    QuotientBounds(a.sum, a.count, a.minimum.value, a.maximum.value);
  }

  /** Stored values have two decimals, so the displayed average, though rounded, still lies
      between the displayed minimum and maximum. */
  lemma DisplayedAverageIsWithinRange(rows: seq<Sample>, column: Column)
    requires rows != [] && forall s :: s in rows ==> IsHundredth(column.Of(s))
    ensures var p := Present(Aggregate(rows, column));
            && p.minimum.Some? && p.average.Some? && p.maximum.Some?
            && p.minimum.value <= p.average.value <= p.maximum.value
  {
    AverageIsWithinRange(rows, column);
    AggregateExtremes(rows, column);
    var a := Aggregate(rows, column);
    Numeric2IsMonotone(a.minimum.value, Average(a).value);
    Numeric2IsMonotone(Average(a).value, a.maximum.value);
    assert IsHundredth(a.minimum.value) && IsHundredth(a.maximum.value);
  }

  lemma QuotientBounds(sum: real, n: nat, low: real, high: real)
    requires n > 0 && Times(n, low) <= sum <= Times(n, high)
    ensures low <= sum / n as real <= high
  {
    TimesIsProduct(n, low);
    TimesIsProduct(n, high);
    RealQuotientBounds(sum, n as real, low, high);
  }

  lemma RealQuotientBounds(sum: real, n: real, low: real, high: real)
    requires n >= 1.0 && n * low <= sum <= n * high
    ensures low <= sum / n <= high
  {
    assert n * (sum / n) == sum;
    if sum / n < low {
      ScaledStrictly(n, sum / n, low);
    }
    if high < sum / n {
      ScaledStrictly(n, high, sum / n);
    }
  }

  lemma ScaledStrictly(n: real, a: real, b: real)
    requires n >= 1.0 && a < b
    ensures n * a < n * b
  {
  }

  /** The compared difference is exactly the difference of the two displayed averages: rounding
      it again changes nothing. */
  lemma {:induction false} DisplayedDifferenceIsExact(a: real, b: real)
    ensures Difference(Some(Numeric2(a)), Some(Numeric2(b)))
         == Some(if Numeric2(b) >= Numeric2(a) then Numeric2(b) - Numeric2(a) else Numeric2(a) - Numeric2(b))
  {
    var m := if Hundredths(b) >= Hundredths(a) then Hundredths(b) - Hundredths(a) else Hundredths(a) - Hundredths(b);
    WholeHundredths(m);
    if Hundredths(a) <= Hundredths(b) {
      HundredthsDivide(Hundredths(a), Hundredths(b));
    } else {
      HundredthsDivide(Hundredths(b), Hundredths(a));
    }
  }

  lemma {:induction false} WholeHundredths(m: int)
    requires m >= 0
    ensures Numeric2(m as real / 100.0) == m as real / 100.0
  {
    assert (m as real / 100.0) * 100.0 == m as real;
    assert m as real / 100.0 >= 0.0;
    FloorOfHalf(m);
  }

  lemma FloorOfHalf(m: int)
    ensures (m as real + 0.5).Floor == m
  {
  }

  // --- Statistics of one period and comparison of two ---

  datatype Statistics = Statistics(available: bool, from: int, to: int, temperature: MetricStatistics,
    humidity: MetricStatistics) {
    function Metric(column: Column): MetricStatistics {
      if column == TemperatureColumn then temperature else humidity
    }
  }

  function GetMeasurementStatistics(
    rows: seq<Sample>, periodFrom: Moment, periodTo: Moment): Result<Statistics, QueryError> {
    match ValidatePeriod(periodFrom, periodTo)
    case Failure(error) => Failure(error)
    case Success((start, end)) =>
      var inside := InPeriod(rows, start, end);
      var temperature := Present(Aggregate(inside, TemperatureColumn));
      Success(Statistics(temperature.count != 0, start, end, temperature, Present(Aggregate(inside, HumidityColumn))))
  }

  datatype Comparison = Comparison(
    available: bool,
    first: Statistics,
    second: Statistics,
    temperatureDifference: Option<real>,
    humidityDifference: Option<real>)
  {
    function Difference(column: Column): Option<real> {
      if column == TemperatureColumn then temperatureDifference else humidityDifference
    }
  }

  function ComparePeriods(
    rows: seq<Sample>, firstFrom: Moment, firstTo: Moment, secondFrom: Moment,
    secondTo: Moment): Result<Comparison, QueryError> {
    match GetMeasurementStatistics(rows, firstFrom, firstTo)
    case Failure(error) => Failure(error)
    case Success(first) =>
      match GetMeasurementStatistics(rows, secondFrom, secondTo)
      case Failure(error) => Failure(error)
      case Success(second) =>
        Success(Comparison(
          first.available && second.available, first, second,
          Difference(first.temperature.average, second.temperature.average),
          Difference(first.humidity.average, second.humidity.average)))
  }

  lemma {:induction false} StatisticsAreAvailable(
    rows: seq<Sample>, periodFrom: Moment, periodTo: Moment, column: Column)
    requires ValidatePeriod(periodFrom, periodTo).Success?
    ensures var r := GetMeasurementStatistics(rows, periodFrom, periodTo);
            && r.Success?
            && (r.value.available <==> exists s :: s in rows && periodFrom.utc <= s.at < periodTo.utc)
            && (r.value.available <==> r.value.Metric(column).average.Some?)
            && (r.value.available ==> exists x :: r.value.Metric(column).average == Some(Numeric2(x)))
  {
    var inside := InPeriod(rows, periodFrom.utc, periodTo.utc);
    InPeriodMembers(rows, periodFrom.utc, periodTo.utc);
    if inside != [] {
      assert inside[0] in inside;
      AggregateExtremes(inside, TemperatureColumn);
      AggregateExtremes(inside, HumidityColumn);
      var x := Average(Aggregate(inside, column)).value;
      assert Present(Aggregate(inside, column)).average == Some(Numeric2(x));
    }
  }

  /** Which periods the service accepts: both ends with a time zone, and not empty and at most
      ninety days apart. */
  lemma PeriodIsAcceptedExactly(periodFrom: Moment, periodTo: Moment)
    ensures ValidatePeriod(periodFrom, periodTo).Success? <==>
              periodFrom.Aware? && periodTo.Aware? && 0 < periodTo.utc - periodFrom.utc <= 90 * DAY
    ensures ValidatePeriod(periodFrom, periodTo).Success? ==>
              ValidatePeriod(periodFrom, periodTo).value == (periodFrom.utc, periodTo.utc)
  {
  }

  /** The statistics of a period report its temperatures as temperatures and its humidities as
      humidities, of exactly the rows in it. */
  lemma {:induction false} StatisticsReport(rows: seq<Sample>, periodFrom: Moment, periodTo: Moment)
    requires ValidatePeriod(periodFrom, periodTo).Success?
    ensures var r := GetMeasurementStatistics(rows, periodFrom, periodTo);
            && r.Success? && r.value.from == periodFrom.utc && r.value.to == periodTo.utc
            && Reports(r.value.temperature, TemperaturesIn(rows, periodFrom.utc, periodTo.utc))
            && Reports(r.value.humidity, HumiditiesIn(rows, periodFrom.utc, periodTo.utc))
            && (r.value.available <==> |TemperaturesIn(rows, periodFrom.utc, periodTo.utc)| > 0)
  {
    var inside := InPeriod(rows, periodFrom.utc, periodTo.utc);
    ValuesInPeriod(rows, periodFrom.utc, periodTo.utc);
    AggregateReports(inside, TemperatureColumn);
    AggregateReports(inside, HumidityColumn);
  }

  /** A comparison reports each metric of each period, and as difference how far the two displayed
      averages of that metric are apart. */
  lemma {:induction false} ComparisonReports(
    rows: seq<Sample>, firstFrom: Moment, firstTo: Moment, secondFrom: Moment, secondTo: Moment)
    requires ValidatePeriod(firstFrom, firstTo).Success? && ValidatePeriod(secondFrom, secondTo).Success?
    ensures var r := ComparePeriods(rows, firstFrom, firstTo, secondFrom, secondTo);
            && r.Success?
            && Reports(r.value.first.temperature, TemperaturesIn(rows, firstFrom.utc, firstTo.utc))
            && Reports(r.value.first.humidity, HumiditiesIn(rows, firstFrom.utc, firstTo.utc))
            && Reports(r.value.second.temperature, TemperaturesIn(rows, secondFrom.utc, secondTo.utc))
            && Reports(r.value.second.humidity, HumiditiesIn(rows, secondFrom.utc, secondTo.utc))
            && IsDistance(r.value.temperatureDifference, r.value.first.temperature.average,
               r.value.second.temperature.average)
            && IsDistance(r.value.humidityDifference, r.value.first.humidity.average, r.value.second.humidity.average)
  {
    StatisticsReport(rows, firstFrom, firstTo);
    StatisticsReport(rows, secondFrom, secondTo);
    ComparisonIsExact(rows, firstFrom, firstTo, secondFrom, secondTo, TemperatureColumn);
    ComparisonIsExact(rows, firstFrom, firstTo, secondFrom, secondTo, HumidityColumn);
  }

  /** How far two displayed averages are apart; none when one is missing. */
  predicate IsDistance(difference: Option<real>, a: Option<real>, b: Option<real>) {
    if a.None? || b.None? then difference.None?
    else
      && difference.Some? && difference.value >= 0.0
      && (a.value + difference.value == b.value || b.value + difference.value == a.value)
  }

  /** A comparison is available exactly when both periods hold a measurement, and then the
      difference of each metric is exactly the difference of the two displayed averages. */
  lemma {:induction false} ComparisonIsExact(
    rows: seq<Sample>, firstFrom: Moment, firstTo: Moment, secondFrom: Moment, secondTo: Moment, column: Column)
    requires ValidatePeriod(firstFrom, firstTo).Success? && ValidatePeriod(secondFrom, secondTo).Success?
    ensures var r := ComparePeriods(rows, firstFrom, firstTo, secondFrom, secondTo);
            && r.Success?
            && (r.value.available <==>
                  (exists s :: s in rows && firstFrom.utc <= s.at < firstTo.utc)
                    && (exists s :: s in rows && secondFrom.utc <= s.at < secondTo.utc))
            && (r.value.available ==> IsExactDifference(r.value, column))
  {
    StatisticsAreAvailable(rows, firstFrom, firstTo, column);
    StatisticsAreAvailable(rows, secondFrom, secondTo, column);
    var first := GetMeasurementStatistics(rows, firstFrom, firstTo).value;
    var second := GetMeasurementStatistics(rows, secondFrom, secondTo).value;
    if first.available && second.available {
      var a :| first.Metric(column).average == Some(Numeric2(a));
      var b :| second.Metric(column).average == Some(Numeric2(b));
      DisplayedDifferenceIsExact(a, b);
    }
  }

  predicate IsExactDifference(c: Comparison, column: Column) {
    var first, second := c.first.Metric(column).average, c.second.Metric(column).average;
    && first.Some? && second.Some? && c.Difference(column).Some?
    && c.Difference(column).value == if second.value >= first.value then second.value - first.value
       else first.value - second.value
  }
}
