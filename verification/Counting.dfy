/** Sizes of integer ranges, subsets and products, and ratios of sizes. */
module Counting {
  /** How many places of a list hold an element of a kind. */
  ghost function Count<T>(s: seq<T>, kind: T -> bool): nat {
    |set i | 0 <= i < |s| && kind(s[i])|
  }

  lemma CountNone<T>(kind: T -> bool)
    ensures Count([], kind) == 0
  {
    var none: seq<T> := [];
    assert (set i | 0 <= i < |none| && kind(none[i])) == {};
  }

  lemma CountSame<T>(s: seq<T>, f: T -> bool, g: T -> bool)
    requires forall i | 0 <= i < |s| :: f(s[i]) == g(s[i])
    ensures Count(s, f) == Count(s, g)
  {
    assert (set i | 0 <= i < |s| && f(s[i])) == (set i | 0 <= i < |s| && g(s[i]));
  }

  lemma CountSnoc<T>(s: seq<T>, last: T, kind: T -> bool)
    ensures Count(s + [last], kind) == Count(s, kind) + if kind(last) then 1 else 0
  {
    var more := s + [last];
    var before := set i | 0 <= i < |s| && kind(s[i]);
    assert (set i | 0 <= i < |more| && kind(more[i])) == before + if kind(last) then {|s|} else {};
  }

  predicate Between(lo: int, x: int, hi: int) {
    lo <= x < hi
  }

  function Range(lo: int, hi: int): set<int> {
    set x | lo <= x < hi && Between(lo, x, hi)
  }

  lemma RangeSize(lo: int, hi: int)
    requires lo <= hi
    ensures |Range(lo, hi)| == hi - lo
    decreases hi - lo
  {
    if lo < hi {
      RangeSize(lo, hi - 1);
      assert Range(lo, hi) == Range(lo, hi - 1) + {hi - 1};
    }
  }

  lemma SubsetSize<T>(a: set<T>, b: set<T>)
    requires a <= b
    ensures |a| <= |b| && (|a| == |b| ==> a == b)
  {
    assert b == a + (b - a);
    assert |b| == |a| + |b - a|;
  }

  function Pairs<A, B>(a: set<A>, b: set<B>): set<(A, B)> {
    set x, y | x in a && y in b :: (x, y)
  }

  lemma {:induction false} PairsSize<A, B>(a: set<A>, b: set<B>)
    ensures |Pairs(a, b)| == |a| * |b|
    decreases |a|
  {
    if a != {} {
      var x :| x in a;
      RowSize(x, b);
      PairsSize(a - {x}, b);
      SplitRow(a, b, x);
      assert |a| == |a - {x}| + 1;
      assert (|a - {x}| + 1) * |b| == |a - {x}| * |b| + |b|;
    }
  }

  lemma SplitRow<A, B>(a: set<A>, b: set<B>, x: A)
    requires x in a
    ensures |Pairs(a, b)| == |Pairs({x}, b)| + |Pairs(a - {x}, b)|
  {
    assert Pairs(a, b) == Pairs({x}, b) + Pairs(a - {x}, b);
  }

  lemma {:induction false} RowSize<A, B>(x: A, b: set<B>)
    ensures |Pairs({x}, b)| == |b|
    decreases |b|
  {
    if b != {} {
      var y :| y in b;
      RowSize(x, b - {y});
      assert Pairs({x}, b) == Pairs({x}, b - {y}) + {(x, y)};
    }
  }

  /** What a ratio of a part to a whole is, said without division. */
  ghost predicate IsRatio(ratio: real, part: real, whole: real) {
    whole != 0.0 && ratio * whole == part
  }

  lemma QuotientIsRatio(part: real, whole: real)
    requires whole != 0.0
    ensures IsRatio(part / whole, part, whole)
  {
  }

  lemma CountQuotientIsRatio(part: int, whole: int)
    requires whole != 0
    ensures IsRatio(part as real / whole as real, part as real, whole as real)
  {
    QuotientIsRatio(part as real, whole as real);
  }

  /** A part over its whole is a ratio in [0, 1], 1 exactly for the whole and 0 exactly for nothing. */
  lemma RatioFacts(i: real, u: real)
    requires 0.0 <= i <= u && u > 0.0
    ensures 0.0 <= i / u <= 1.0
    ensures i / u == 1.0 <==> i == u
    ensures i / u == 0.0 <==> i == 0.0
  {
    assert i / u * u == i;
  }
}
