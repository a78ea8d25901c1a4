/**
 Continuous percentiles (percentile_cont): linear interpolation between the two
 neighbours of position `fraction * (n - 1)` in the sorted values.
 */
module Percentile {
  function Insert(sorted: seq<real>, v: real): seq<real> {
    if sorted == [] || v <= sorted[0] then [v] + sorted else [sorted[0]] + Insert(sorted[1..], v)
  }

  function Sort(values: seq<real>): seq<real> {
    if values == [] then [] else Insert(Sort(values[1..]), values[0])
  }

  ghost predicate Sorted(s: seq<real>) {
    forall i, j | 0 <= i <= j < |s| :: s[i] <= s[j]
  }

  /** The value at a possibly fractional position. */
  function At(sorted: seq<real>, position: real): real
    requires 0.0 <= position <= (|sorted| - 1) as real
  {
    var i := position.Floor;
    if position == i as real then sorted[i]
    else Mix(sorted[i], sorted[i + 1], position - i as real)
  }

  function Mix(lo: real, hi: real, part: real): real {
    lo + part * (hi - lo)
  }

  function Position(last: nat, fraction: real): real {
    fraction * last as real
  }

  function Cont(values: seq<real>, fraction: real): real
    requires values != [] && 0.0 <= fraction <= 1.0
  {
    SortIsSorted(values);
    PositionBound(|values| - 1, fraction, fraction);
    At(Sort(values), Position(|values| - 1, fraction))
  }

  lemma PositionBound(last: nat, f: real, g: real)
    requires 0.0 <= f <= g <= 1.0
    ensures 0.0 <= Position(last, f) <= Position(last, g) <= last as real
  {
    PartOfGap(f, g, last as real);
  }

  lemma {:induction false} InsertIsSorted(sorted: seq<real>, v: real)
    requires Sorted(sorted)
    ensures Sorted(Insert(sorted, v)) && multiset(Insert(sorted, v)) == multiset(sorted) + multiset{v}
    ensures |Insert(sorted, v)| == |sorted| + 1
  {
    if sorted != [] && v > sorted[0] {
      InsertIsSorted(sorted[1..], v);
      var rest := Insert(sorted[1..], v);
      assert sorted == [sorted[0]] + sorted[1..];
      forall j | 0 <= j < |rest|
        ensures sorted[0] <= rest[j]
      {
        assert rest[j] in multiset(rest);
        assert rest[j] == v || rest[j] in sorted[1..];
      }
    }
  }

  lemma {:induction false} SortIsSorted(values: seq<real>)
    ensures Sorted(Sort(values)) && multiset(Sort(values)) == multiset(values) && |Sort(values)| == |values|
  {
    if values != [] {
      SortIsSorted(values[1..]);
      InsertIsSorted(Sort(values[1..]), values[0]);
      assert values == [values[0]] + values[1..];
    }
  }

  /** A fraction of a gap lies between nothing and the gap, and grows with the fraction. */
  lemma PartOfGap(a: real, b: real, gap: real)
    requires 0.0 <= a <= b <= 1.0 && gap >= 0.0
    ensures 0.0 <= a * gap <= b * gap <= gap
  {
    assert (b - a) * gap >= 0.0;
    assert (1.0 - b) * gap >= 0.0;
    assert a * gap >= 0.0;
  }

  lemma MixMonotone(lo: real, hi: real, a: real, b: real)
    requires lo <= hi && 0.0 <= a <= b <= 1.0
    ensures lo <= Mix(lo, hi, a) <= Mix(lo, hi, b) <= hi
  {
    PartOfGap(a, b, hi - lo);
  }

  lemma AtBetweenNeighbours(s: seq<real>, p: real)
    requires Sorted(s) && 0.0 <= p <= (|s| - 1) as real
    ensures s[p.Floor] <= At(s, p)
    ensures p.Floor + 1 < |s| ==> At(s, p) <= s[p.Floor + 1]
  {
    var i := p.Floor;
    if i + 1 < |s| {
      MixMonotone(s[i], s[i + 1], p - i as real, p - i as real);
    }
  }

  lemma AtMonotone(s: seq<real>, p: real, q: real)
    requires Sorted(s) && 0.0 <= p <= q <= (|s| - 1) as real
    ensures At(s, p) <= At(s, q)
  {
    var i, j := p.Floor, q.Floor;
    AtBetweenNeighbours(s, p);
    AtBetweenNeighbours(s, q);
    if i < j {
      assert s[i + 1] <= s[j];
    } else if i + 1 < |s| {
      MixMonotone(s[i], s[i + 1], p - i as real, q - i as real);
    }
  }

  // ---------------------------------------------------------------- main results

  /** x lies as far from the value at place i to the next one as `place` lies from i to i + 1. */
  ghost predicate Interpolates(x: real, ordered: seq<real>, place: real, i: nat) {
    && i < |ordered| && i as real <= place < (i + 1) as real
    && (place == i as real ==> x == ordered[i])
    && (place > i as real ==>
          i + 1 < |ordered| && x == ordered[i] + (place - i as real) * (ordered[i + 1] - ordered[i]))
  }

  /** x interpolates the values, put in ascending order, at the given fraction of the way from the first to the last. */
  ghost predicate QuantileIn(x: real, values: seq<real>, fraction: real, ordered: seq<real>, place: real, i: nat) {
    && multiset(ordered) == multiset(values) && Sorted(ordered)
    && IsFraction(place, fraction, |ordered| - 1) && Interpolates(x, ordered, place, i)
  }

  ghost predicate IsFraction(place: real, fraction: real, last: int) {
    place == fraction * last as real
  }

  ghost predicate IsQuantile(x: real, values: seq<real>, fraction: real) {
    exists ordered: seq<real>, place: real, i: nat :: QuantileIn(x, values, fraction, ordered, place, i)
  }

  lemma AtInterpolates(ordered: seq<real>, place: real)
    requires 0.0 <= place <= (|ordered| - 1) as real
    ensures Interpolates(At(ordered, place), ordered, place, place.Floor)
  {
  }

  lemma PositionIsFraction(last: nat, fraction: real)
    ensures IsFraction(Position(last, fraction), fraction, last)
  {
  }

  lemma QuantileFound(x: real, values: seq<real>, fraction: real, ordered: seq<real>, place: real, i: nat)
    requires multiset(ordered) == multiset(values) && Sorted(ordered)
    requires IsFraction(place, fraction, |ordered| - 1) && Interpolates(x, ordered, place, i)
    ensures IsQuantile(x, values, fraction)
  {
    assert QuantileIn(x, values, fraction, ordered, place, i);
  }

  /** A percentile interpolates linearly between the two neighbours of its place in the ordered values. */
  lemma ContInterpolates(values: seq<real>, fraction: real)
    requires values != [] && 0.0 <= fraction <= 1.0
    ensures IsQuantile(Cont(values, fraction), values, fraction)
  {
    SortIsSorted(values);
    PositionBound(|values| - 1, fraction, fraction);
    var ordered, place := Sort(values), Position(|values| - 1, fraction);
    AtInterpolates(ordered, place);
    PositionIsFraction(|values| - 1, fraction);
    QuantileFound(At(ordered, place), values, fraction, ordered, place, place.Floor);
  }

  /** A larger fraction never has a smaller percentile; in particular p50 <= p95. */
  lemma ContMonotone(values: seq<real>, f: real, g: real)
    requires values != [] && 0.0 <= f <= g <= 1.0
    ensures Cont(values, f) <= Cont(values, g)
  {
    SortIsSorted(values);
    PositionBound(|values| - 1, f, g);
    AtMonotone(Sort(values), Position(|values| - 1, f), Position(|values| - 1, g));
  }

  /** Percentiles do not depend on the order in which the rows are read. */
  lemma ContOrderFree(a: seq<real>, b: seq<real>, fraction: real)
    requires a != [] && multiset(a) == multiset(b) && 0.0 <= fraction <= 1.0
    ensures |a| == |b| && Cont(a, fraction) == Cont(b, fraction)
  {
    SortIsSorted(a);
    SortIsSorted(b);
    SameLength(a, b);
    SortedUnique(Sort(a), Sort(b));
  }

  lemma SameLength(a: seq<real>, b: seq<real>)
    requires multiset(a) == multiset(b)
    ensures |a| == |b|
  {
    assert |multiset(a)| == |multiset(b)|;
  }

  lemma {:induction false} SortedUnique(a: seq<real>, b: seq<real>)
    requires Sorted(a) && Sorted(b) && multiset(a) == multiset(b)
    ensures a == b
  {
    SameLength(a, b);
    if a != [] {
      LeastFirst(a, b);
      LeastFirst(b, a);
      WithoutFirst(a);
      WithoutFirst(b);
      SortedUnique(a[1..], b[1..]);
      assert a == [a[0]] + a[1..] && b == [b[0]] + b[1..];
    }
  }

  lemma WithoutFirst(a: seq<real>)
    requires a != []
    ensures multiset(a[1..]) == multiset(a) - multiset{a[0]}
  {
    assert a == [a[0]] + a[1..];
  }

  lemma LeastFirst(a: seq<real>, b: seq<real>)
    requires Sorted(a) && a != [] && b != [] && multiset(a) == multiset(b)
    ensures a[0] <= b[0]
  {
    assert b[0] in multiset(a);
  }

  /** A percentile lies between the least and the greatest value. */
  lemma ContBounds(values: seq<real>, fraction: real, v: real)
    requires values != [] && 0.0 <= fraction <= 1.0
    ensures (forall i | 0 <= i < |values| :: values[i] >= v) ==> Cont(values, fraction) >= v
    ensures (forall i | 0 <= i < |values| :: values[i] <= v) ==> Cont(values, fraction) <= v
  {
    SortIsSorted(values);
    var s := Sort(values);
    PositionBound(|values| - 1, fraction, fraction);
    var p := Position(|values| - 1, fraction);
    AtBetweenNeighbours(s, p);
    assert forall i | 0 <= i < |s| :: s[i] in multiset(values);
  }
}
