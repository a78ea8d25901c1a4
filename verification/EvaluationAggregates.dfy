/**
 What the aggregates of a candidate measure, stated over the places of its case
 rows: each average times the number of rows that have the scalar is the sum of
 that scalar, each share times the number of rows that have the flag is the
 number of rows where it is set, the latencies are percentiles of all recorded
 durations, and the leak total counts single exposures.
 */
module EvaluationAggregates {
  import opened Counting
  import opened EvaluationCase
  import opened EvaluationTables
  import opened Options
  import Percentile

  // ---------------------------------------------------------------- averages

  /** How many rows have the scalar. */
  ghost function Known<T>(rows: seq<Result>, scalar: Scalars -> Option<T>): nat {
    Count(rows, (row: Result) => scalar(row.scalars).Some?)
  }

  /** The scalar summed over the rows that have it. */
  ghost function Total(rows: seq<Result>, scalar: Scalars -> Option<real>): real {
    if rows == [] then 0.0
    else
      var last := scalar(rows[|rows| - 1].scalars);
      Total(rows[..|rows| - 1], scalar) + if last.Some? then last.value else 0.0
  }

  /** The stored value is the average of the scalar over the rows that have it, null when none has. */
  ghost predicate IsMean(stored: Option<real>, rows: seq<Result>, scalar: Scalars -> Option<real>) {
    && (stored.Some? <==> Known(rows, scalar) != 0)
    && (stored.Some? ==> IsRatio(stored.value, Total(rows, scalar), Known(rows, scalar) as real))
  }

  /** The stored value is the share of set flags among the rows that have the flag, null when none has. */
  ghost predicate IsShare(stored: Option<real>, rows: seq<Result>, flag: Scalars -> Option<bool>) {
    && (stored.Some? <==> Known(rows, flag) != 0)
    && (stored.Some? ==>
          IsRatio(stored.value, Count(rows, (row: Result) => flag(row.scalars) == Some(true)) as real, Known(rows, flag) as real))
  }

  lemma {:induction false} SumSnoc(values: seq<real>, last: real)
    ensures Sum(values + [last]) == Sum(values) + last
    decreases |values|
  {
    if values == [] {
      assert [] + [last] == [last] && [last][1..] == [];
    } else {
      assert (values + [last])[1..] == values[1..] + [last];
      SumSnoc(values[1..], last);
    }
  }

  lemma {:induction false} ColumnSnoc(rows: seq<Result>, last: Result, scalar: Scalars -> Option<real>)
    ensures Column(rows + [last], scalar)
         == Column(rows, scalar) + if scalar(last.scalars).Some? then [scalar(last.scalars).value] else []
    decreases |rows|
  {
    if rows == [] {
      assert [] + [last] == [last] && [last][1..] == [];
    } else {
      var first := if scalar(rows[0].scalars).Some? then [scalar(rows[0].scalars).value] else [];
      var end := if scalar(last.scalars).Some? then [scalar(last.scalars).value] else [];
      assert (rows + [last])[1..] == rows[1..] + [last];
      ColumnSnoc(rows[1..], last, scalar);
      assert first + (Column(rows[1..], scalar) + end) == first + Column(rows[1..], scalar) + end;
    }
  }

  lemma {:induction false} ColumnTotals(rows: seq<Result>, scalar: Scalars -> Option<real>)
    ensures |Column(rows, scalar)| == Known(rows, scalar) && Sum(Column(rows, scalar)) == Total(rows, scalar)
    decreases |rows|
  {
    var has := (row: Result) => scalar(row.scalars).Some?;
    if rows == [] {
      CountNone(has);
    } else {
      var front, last := rows[..|rows| - 1], rows[|rows| - 1];
      assert rows == front + [last];
      ColumnTotals(front, scalar);
      ColumnSnoc(front, last, scalar);
      CountSnoc(front, last, has);
      if scalar(last.scalars).Some? {
        SumSnoc(Column(front, scalar), scalar(last.scalars).value);
      } else {
        assert Column(front, scalar) + [] == Column(front, scalar);
      }
    }
  }

  lemma {:induction false} ColumnMean(rows: seq<Result>, scalar: Scalars -> Option<real>)
    ensures IsMean(Avg(Column(rows, scalar)), rows, scalar)
  {
    ColumnTotals(rows, scalar);
    if Column(rows, scalar) != [] { QuotientIsRatio(Total(rows, scalar), Known(rows, scalar) as real); }
  }

  /** Columns that agree on every row's scalars are the same. */
  lemma {:induction false} SameColumn(rows: seq<Result>, f: Scalars -> Option<real>, g: Scalars -> Option<real>)
    requires forall s :: f(s) == g(s)
    ensures Column(rows, f) == Column(rows, g)
    decreases |rows|
  {
    if rows != [] { SameColumn(rows[1..], f, g); }
  }

  lemma {:induction false} FlagTotal(rows: seq<Result>, scalar: Scalars -> Option<real>, flag: Scalars -> Option<bool>)
    requires forall s :: scalar(s) == Flag(flag(s))
    ensures Total(rows, scalar) == Count(rows, (row: Result) => flag(row.scalars) == Some(true)) as real
    decreases |rows|
  {
    var holds := (row: Result) => flag(row.scalars) == Some(true);
    if rows == [] {
      CountNone(holds);
    } else {
      var front, last := rows[..|rows| - 1], rows[|rows| - 1];
      assert rows == front + [last];
      FlagTotal(front, scalar, flag);
      CountSnoc(front, last, holds);
      assert scalar(last.scalars) == Flag(flag(last.scalars));
    }
  }

  /** The average of a flag read as 0 or 1 is the share of rows where it is set. */
  lemma {:induction false} ColumnShare(rows: seq<Result>, scalar: Scalars -> Option<real>, flag: Scalars -> Option<bool>)
    requires forall s :: scalar(s) == Flag(flag(s))
    ensures IsShare(Avg(Column(rows, scalar)), rows, flag)
  {
    ColumnMean(rows, scalar);
    FlagTotal(rows, scalar, flag);
    var has, hasFlag := (row: Result) => scalar(row.scalars).Some?, (row: Result) => flag(row.scalars).Some?;
    forall i | 0 <= i < |rows|
      ensures has(rows[i]) == hasFlag(rows[i])
    {
      assert scalar(rows[i].scalars) == Flag(flag(rows[i].scalars));
    }
    CountSame(rows, has, hasFlag);
  }

  // ---------------------------------------------------------------- latencies

  /** Every observation of every row once: row i, observation n. */
  ghost predicate EveryObservation(places: seq<(nat, nat)>, rows: seq<Result>, from: nat) {
    && (forall p, q | 0 <= p < q < |places| :: places[p] != places[q])
    && forall place :: place in places <==> from <= place.0 < |rows| && place.1 < |rows[place.0].observations|
  }

  ghost predicate DurationsAt(values: seq<real>, rows: seq<Result>, places: seq<(nat, nat)>) {
    && |values| == |places|
    && forall p | 0 <= p < |places| ::
         && places[p].0 < |rows| && places[p].1 < |rows[places[p].0].observations|
         && values[p] == rows[places[p].0].observations[places[p].1].duration
  }

  /** The values are the durations of all observations of all rows. */
  ghost predicate AllDurations(values: seq<real>, rows: seq<Result>) {
    exists places :: EveryObservation(places, rows, 0) && DurationsAt(values, rows, places)
  }

  /** The stored value is the percentile of all durations, null when there is none. */
  ghost predicate IsLatency(stored: Option<real>, rows: seq<Result>, fraction: real) {
    exists values ::
      && AllDurations(values, rows) && (stored.Some? <==> values != [])
      && (stored.Some? ==> Percentile.IsQuantile(stored.value, values, fraction))
  }

  lemma {:induction false} DurationsOfAt(observations: seq<Observation>)
    ensures |DurationsOf(observations)| == |observations|
    ensures forall n | 0 <= n < |observations| :: DurationsOf(observations)[n] == observations[n].duration
  {
    if observations != [] { DurationsOfAt(observations[1..]); }
  }

  function Places(rows: seq<Result>, from: nat): seq<(nat, nat)>
    requires from <= |rows|
    decreases |rows| - from
  {
    if from == |rows| then []
    else seq(|rows[from].observations|, (n: nat) => (from, n)) + Places(rows, from + 1)
  }

  lemma {:induction false} PlacesEnumerate(rows: seq<Result>, from: nat)
    requires from <= |rows|
    ensures EveryObservation(Places(rows, from), rows, from)
    decreases |rows| - from
  {
    if from < |rows| {
      PlacesEnumerate(rows, from + 1);
      var here, rest := seq(|rows[from].observations|, (n: nat) => (from, n)), Places(rows, from + 1);
      forall place: (nat, nat)
        ensures place in here + rest <==> from <= place.0 < |rows| && place.1 < |rows[place.0].observations|
      {
        if place.0 == from && place.1 < |here| { assert here[place.1] == place; }
      }
    }
  }

  lemma {:induction false} PlacesHold(rows: seq<Result>, from: nat)
    requires from <= |rows|
    ensures DurationsAt(Durations(rows[from..]), rows, Places(rows, from))
    decreases |rows| - from
  {
    if from < |rows| {
      PlacesHold(rows, from + 1);
      DurationsOfAt(rows[from].observations);
      assert rows[from..][1..] == rows[from + 1..];
    }
  }

  lemma {:induction false} DurationsAreAll(rows: seq<Result>)
    ensures AllDurations(Durations(rows), rows)
  {
    PlacesEnumerate(rows, 0);
    PlacesHold(rows, 0);
    assert rows[0..] == rows;
  }

  lemma {:induction false} LatencyFound(stored: Option<real>, rows: seq<Result>, fraction: real, values: seq<real>)
    requires AllDurations(values, rows) && (stored.Some? <==> values != [])
    requires stored.Some? ==> Percentile.IsQuantile(stored.value, values, fraction)
    ensures IsLatency(stored, rows, fraction)
  {
  }

  lemma {:induction false} LatencyOf(rows: seq<Result>, fraction: real, stored: Option<real>)
    requires 0.0 <= fraction <= 1.0
    requires stored == if Durations(rows) == [] then None else Some(Percentile.Cont(Durations(rows), fraction))
    ensures IsLatency(stored, rows, fraction)
  {
    DurationsAreAll(rows);
    if Durations(rows) != [] { Percentile.ContInterpolates(Durations(rows), fraction); }
    LatencyFound(stored, rows, fraction, Durations(rows));
  }

  // ---------------------------------------------------------------- main result

  /** Every aggregate is what it is called, each over its own scalar of the case rows. */
  ghost predicate Measures(m: Aggregates, rows: seq<Result>) {
    && IsMean(m.recall, rows, (s: Scalars) => s.recall)
    && IsMean(m.mrr, rows, (s: Scalars) => s.reciprocalRank)
    && IsMean(m.ndcg, rows, (s: Scalars) => s.ndcg)
    && IsShare(m.precision, rows, (s: Scalars) => s.correct)
    && IsShare(m.falseGrounding, rows, (s: Scalars) => s.falseGrounding)
    && IsMean(m.highlight, rows, (s: Scalars) => s.highlight)
    && IsLatency(m.p50, rows, 0.50) && IsLatency(m.p95, rows, 0.95)
    && (m.leaks.Some? <==> rows != [])
    && (m.leaks.Some? ==> m.leaks.value as real == Total(rows, (s: Scalars) => Some(s.leaks as real)))
    && IsShare(m.reproducibility, rows, (s: Scalars) => Some(s.reproducible))
  }

  lemma {:induction false} LeaksTotal(rows: seq<Result>)
    ensures TotalLeaks(rows) as real == Total(rows, (s: Scalars) => Some(s.leaks as real))
  {
    if rows != [] {
      var front, last := rows[..|rows| - 1], rows[|rows| - 1];
      assert rows == front + [last];
      LeaksTotal(front);
      LeaksSnoc(front, last);
    }
  }

  lemma {:induction false} LeaksSnoc(rows: seq<Result>, last: Result)
    ensures TotalLeaks(rows + [last]) == TotalLeaks(rows) + last.scalars.leaks
  {
    if rows == [] {
      assert [] + [last] == [last] && [last][1..] == [];
    } else {
      assert (rows + [last])[1..] == rows[1..] + [last];
      LeaksSnoc(rows[1..], last);
    }
  }

  lemma {:induction false} AveragesMeasure(rows: seq<Result>)
    ensures var m := Aggregate(rows);
            && IsMean(m.recall, rows, (s: Scalars) => s.recall)
            && IsMean(m.mrr, rows, (s: Scalars) => s.reciprocalRank)
            && IsMean(m.ndcg, rows, (s: Scalars) => s.ndcg)
            && IsMean(m.highlight, rows, (s: Scalars) => s.highlight)
  {
    ColumnMean(rows, (s: Scalars) => s.recall);
    ColumnMean(rows, (s: Scalars) => s.reciprocalRank);
    ColumnMean(rows, (s: Scalars) => s.ndcg);
    ColumnMean(rows, (s: Scalars) => s.highlight);
  }

  lemma {:induction false} SharesMeasure(rows: seq<Result>)
    ensures var m := Aggregate(rows);
            && IsShare(m.precision, rows, (s: Scalars) => s.correct)
            && IsShare(m.falseGrounding, rows, (s: Scalars) => s.falseGrounding)
            && IsShare(m.reproducibility, rows, (s: Scalars) => Some(s.reproducible))
  {
    ColumnShare(rows, (s: Scalars) => Flag(s.correct), (s: Scalars) => s.correct);
    ColumnShare(rows, (s: Scalars) => Flag(s.falseGrounding), (s: Scalars) => s.falseGrounding);
    ColumnShare(rows, Reproduced, (s: Scalars) => Some(s.reproducible));
  }

  lemma {:induction false} AggregateMeasures(rows: seq<Result>)
    ensures Measures(Aggregate(rows), rows)
  {
    AveragesMeasure(rows);
    SharesMeasure(rows);
    LatencyOf(rows, 0.50, Aggregate(rows).p50);
    LatencyOf(rows, 0.95, Aggregate(rows).p95);
    LeaksTotal(rows);
  }
}
