/**
 Rank metrics of one evaluation case: recall at k, reciprocal rank and
 normalised discounted gain. The discount `ln 2 / ln(rank + 1)` enters as any
 positive, strictly decreasing weight of the rank.
 */
module RankMetrics {
  import opened Options
  import opened Counting

  type Id = nat
  type Weight = nat -> real

  ghost predicate Discount(w: Weight) {
    && (forall rank :: w(rank) > 0.0)
    && (forall a, b | a < b :: w(b) < w(a))
  }

  // ---------------------------------------------------------------- the derived scores

  /** Grouping by id with its least rank, then renumbering: each id once, at its first place. */
  function Dedup(ids: seq<Id>): seq<Id> {
    if ids == [] then []
    else
      var front, last := Dedup(ids[..|ids| - 1]), ids[|ids| - 1];
      if last in front then front else front + [last]
  }

  function Hits(ranked: seq<Id>, expected: seq<Id>, n: nat): nat
    requires n <= |ranked|
  {
    if n == 0 then 0 else Hits(ranked, expected, n - 1) + if ranked[n - 1] in expected then 1 else 0
  }

  function Gain(w: Weight, ranked: seq<Id>, expected: seq<Id>, n: nat): real
    requires n <= |ranked|
  {
    if n == 0 then 0.0 else Gain(w, ranked, expected, n - 1) + if ranked[n - 1] in expected then w(n) else 0.0
  }

  function Ideal(w: Weight, n: nat): real {
    if n == 0 then 0.0 else Ideal(w, n - 1) + w(n)
  }

  /** The least relevant rank; the cut-off k does not apply to it. */
  function FirstHit(ranked: seq<Id>, expected: seq<Id>): (rank: Option<nat>)
    ensures rank.Some? ==> rank.value > 0
  {
    if ranked == [] then None
    else if ranked[0] in expected then Some(1)
    else
      match FirstHit(ranked[1..], expected)
      case None => None
      case Some(rank) => Some(rank + 1)
  }

  function Least(a: nat, b: nat): nat { if a < b then a else b }

  datatype Scores = Scores(recall: real, reciprocalRank: real, ndcg: real)

  /** The three scores of a case, null when nothing is expected. */
  function Score(w: Weight, expected: seq<Id>, retrieved: seq<Id>, k: nat): Option<Scores>
    requires Discount(w) && k > 0
  {
    if expected == [] then None
    else
      var ranked := Dedup(retrieved);
      var cut, m := Least(k, |ranked|), Least(|expected|, k);
      IdealPositive(w, m);
      Some(Scores(
        Hits(ranked, expected, cut) as real / |expected| as real,
        match FirstHit(ranked, expected) case None => 0.0 case Some(rank) => 1.0 / rank as real,
        Gain(w, ranked, expected, cut) / Ideal(w, m)))
  }

  lemma {:induction false} IdealPositive(w: Weight, n: nat)
    requires Discount(w)
    ensures Ideal(w, n) >= 0.0 && (n > 0 ==> Ideal(w, n) > 0.0)
  {
    if n > 0 { IdealPositive(w, n - 1); }
  }

  // ---------------------------------------------------------------- deduplication

  predicate Distinct(ids: seq<Id>) {
    forall i, j | 0 <= i < j < |ids| :: ids[i] != ids[j]
  }

  lemma {:induction false} DedupIsDistinct(ids: seq<Id>)
    ensures Distinct(Dedup(ids)) && |Dedup(ids)| <= |ids|
    ensures forall e :: e in Dedup(ids) <==> e in ids
  {
    if ids != [] {
      var front, last := ids[..|ids| - 1], ids[|ids| - 1];
      assert ids == front + [last];
      DedupIsDistinct(front);
    }
  }

  /** On an observation without repeated ids, and only there, renumbering changes nothing. */
  lemma {:induction false} DedupIdentity(ids: seq<Id>)
    ensures Dedup(ids) == ids <==> Distinct(ids)
  {
    DedupIsDistinct(ids);
    if ids != [] && Distinct(ids) {
      var front, last := ids[..|ids| - 1], ids[|ids| - 1];
      assert ids == front + [last];
      DedupIdentity(front);
    }
  }

  function FirstIndex(ids: seq<Id>, e: Id): (i: nat)
    requires e in ids
    ensures i < |ids| && ids[i] == e && e !in ids[..i]
  {
    if ids[0] == e then 0
    else
      assert e in ids[1..];
      var i := 1 + FirstIndex(ids[1..], e);
      assert ids[..i] == [ids[0]] + ids[1..][..i - 1];
      i
  }

  /** The new rank of an id is one more than the number of different ids that occur before its first place. */
  lemma {:induction false} DedupIsRowNumber(ids: seq<Id>, e: Id)
    requires e in ids
    ensures var before := Dedup(ids[..FirstIndex(ids, e)]);
            |before| < |Dedup(ids)| && Dedup(ids)[|before|] == e
  {
    var i := FirstIndex(ids, e);
    var front, last := ids[..|ids| - 1], ids[|ids| - 1];
    DedupIsDistinct(front);
    if i < |front| {
      assert front[i] == e;
      FirstIndexOfPrefix(ids, |front|, e);
      assert front[..i] == ids[..i];
      DedupIsRowNumber(front, e);
    } else {
      assert ids[..i] == front;
    }
  }

  lemma FirstIndexOfPrefix(ids: seq<Id>, n: nat, e: Id)
    requires n <= |ids| && e in ids[..n]
    ensures FirstIndex(ids[..n], e) == FirstIndex(ids, e)
  {
    var a, b := FirstIndex(ids[..n], e), FirstIndex(ids, e);
    assert e !in ids[..b] && e !in ids[..n][..a];
    assert forall k | 0 <= k < b :: ids[..b][k] != e;
    assert forall k | 0 <= k < a :: ids[..n][..a][k] != e;
  }

  // ---------------------------------------------------------------- counting hits

  function Elements(ids: seq<Id>): set<Id> {
    set i | 0 <= i < |ids| :: ids[i]
  }

  lemma {:induction false} ElementsSize(ids: seq<Id>)
    ensures |Elements(ids)| <= |ids|
    ensures |Elements(ids)| == |ids| <==> Distinct(ids)
  {
    if ids != [] {
      var front, last := ids[..|ids| - 1], ids[|ids| - 1];
      ElementsSize(front);
      assert Elements(ids) == Elements(front) + {last};
      assert last in Elements(front) <==> exists i | 0 <= i < |front| :: ids[i] == last;
    }
  }

  lemma ElementsSnoc(ids: seq<Id>, n: nat)
    requires 0 < n <= |ids| && Distinct(ids)
    ensures Elements(ids[..n]) == Elements(ids[..n - 1]) + {ids[n - 1]}
    ensures ids[n - 1] !in Elements(ids[..n - 1])
  {
    assert ids[..n] == ids[..n - 1] + [ids[n - 1]];
  }

  lemma CommonWithOneMore(a: set<Id>, b: set<Id>, e: Id)
    requires e !in a
    ensures |(a + {e}) * b| == |a * b| + if e in b then 1 else 0
  {
    assert (a + {e}) * b == a * b + if e in b then {e} else {};
  }

  /** Hits are counted once per id, so there are no more of them than expected ids. */
  lemma {:induction false} HitsAreElements(ranked: seq<Id>, expected: seq<Id>, n: nat)
    requires n <= |ranked| && Distinct(ranked)
    ensures Hits(ranked, expected, n) == |Elements(ranked[..n]) * Elements(expected)|
  {
    if n > 0 {
      HitsAreElements(ranked, expected, n - 1);
      var e, before, x := ranked[n - 1], Elements(ranked[..n - 1]), Elements(expected);
      ElementsSnoc(ranked, n);
      CommonWithOneMore(before, x, e);
      assert e in expected <==> e in x;
    } else {
      assert Elements(ranked[..0]) * Elements(expected) == {};
    }
  }

  lemma HitsBound(ranked: seq<Id>, expected: seq<Id>, n: nat)
    requires n <= |ranked| && Distinct(ranked)
    ensures Hits(ranked, expected, n) <= |expected|
    ensures Hits(ranked, expected, n) == |expected| <==>
              Distinct(expected) && forall e | e in expected :: e in ranked[..n]
  {
    var r, x := Elements(ranked[..n]), Elements(expected);
    HitsAreElements(ranked, expected, n);
    ElementsSize(expected);
    SubsetSize(r * x, x);
    if |r * x| == |expected| {
      assert r * x == x;
      forall e | e in expected
        ensures e in ranked[..n]
      {
        assert e in x;
      }
    }
    if Distinct(expected) && forall e | e in expected :: e in ranked[..n] {
      forall e | e in x
        ensures e in r
      {
        assert e in ranked[..n];
      }
      assert r * x == x;
    }
  }

  predicate AllRelevant(ranked: seq<Id>, expected: seq<Id>, n: nat) {
    n <= |ranked| && forall i | 0 <= i < n :: ranked[i] in expected
  }

  lemma {:induction false} HitsOfPrefix(ranked: seq<Id>, expected: seq<Id>, n: nat)
    requires n <= |ranked|
    ensures Hits(ranked, expected, n) <= n
    ensures Hits(ranked, expected, n) == n <==> AllRelevant(ranked, expected, n)
  {
    if n > 0 { HitsOfPrefix(ranked, expected, n - 1); }
  }

  lemma {:induction false} HitsMonotone(ranked: seq<Id>, expected: seq<Id>, m: nat, n: nat)
    requires m <= n <= |ranked|
    ensures Hits(ranked, expected, m) <= Hits(ranked, expected, n)
  {
    if m < n { HitsMonotone(ranked, expected, m, n - 1); }
  }

  // ---------------------------------------------------------------- gains

  /** The gain of c hits is at most that of the first c ranks, and equal only there. */
  lemma {:induction false} GainBound(w: Weight, ranked: seq<Id>, expected: seq<Id>, n: nat)
    requires Discount(w) && n <= |ranked|
    ensures var c := Hits(ranked, expected, n);
            && 0.0 <= Gain(w, ranked, expected, n) <= Ideal(w, c)
            && (Gain(w, ranked, expected, n) == Ideal(w, c) <==> AllRelevant(ranked, expected, c))
  {
    if n > 0 {
      var before := Hits(ranked, expected, n - 1);
      GainBound(w, ranked, expected, n - 1);
      HitsOfPrefix(ranked, expected, n - 1);
      if ranked[n - 1] in expected && before < n - 1 {
        assert w(n) < w(before + 1);
        if AllRelevant(ranked, expected, before + 1) {
          HitsOfPrefix(ranked, expected, before + 1);
          HitsMonotone(ranked, expected, before + 1, n - 1);
          assert false;
        }
      }
    }
  }

  lemma {:induction false} IdealMonotone(w: Weight, m: nat, n: nat)
    requires Discount(w) && m <= n
    ensures Ideal(w, m) <= Ideal(w, n) && (m < n ==> Ideal(w, m) < Ideal(w, n))
  {
    if m < n { IdealMonotone(w, m, n - 1); }
  }

  lemma {:induction false} FirstHitIsLeast(ranked: seq<Id>, expected: seq<Id>)
    ensures match FirstHit(ranked, expected)
            case None => forall i | 0 <= i < |ranked| :: ranked[i] !in expected
            case Some(rank) => 1 <= rank <= |ranked| && ranked[rank - 1] in expected
                               && forall i | 0 <= i < rank - 1 :: ranked[i] !in expected
  {
    if ranked != [] && ranked[0] !in expected {
      FirstHitIsLeast(ranked[1..], expected);
      match FirstHit(ranked[1..], expected)
      case None =>
        forall i | 0 <= i < |ranked|
          ensures ranked[i] !in expected
        {
          if i > 0 { assert ranked[i] == ranked[1..][i - 1]; }
        }
      case Some(rank) =>
        forall i | 0 <= i < rank
          ensures ranked[i] !in expected
        {
          if i > 0 { assert ranked[i] == ranked[1..][i - 1]; }
        }
    }
  }

  // ---------------------------------------------------------------- main results

  /** Whatever was retrieved, the derived gain ratio lies in [0, 1], and it is 1 exactly when the first
      min(expected, k) ranks are all relevant. */
  lemma NdcgBounds(w: Weight, expected: seq<Id>, retrieved: seq<Id>, k: nat)
    requires Discount(w) && k > 0 && expected != []
    ensures var ndcg := Score(w, expected, retrieved, k).value.ndcg;
            && 0.0 <= ndcg <= 1.0
            && (ndcg == 1.0 <==> AllRelevant(Dedup(retrieved), expected, Least(|expected|, k)))
  {
    var ranked := Dedup(retrieved);
    var cut, m := Least(k, |ranked|), Least(|expected|, k);
    var c := Hits(ranked, expected, cut);
    DedupIsDistinct(retrieved);
    HitsBound(ranked, expected, cut);
    HitsOfPrefix(ranked, expected, cut);
    GainBound(w, ranked, expected, cut);
    IdealMonotone(w, c, m);
    IdealPositive(w, m);
    RatioFacts(Gain(w, ranked, expected, cut), Ideal(w, m));
    if AllRelevant(ranked, expected, m) {
      HitsOfPrefix(ranked, expected, m);
      HitsMonotone(ranked, expected, m, cut);
    }
  }

  /** The derived recall lies in [0, 1], and it is 1 exactly when the expected ids are distinct and all of them are
      among the first k different ids. */
  lemma RecallBounds(w: Weight, expected: seq<Id>, retrieved: seq<Id>, k: nat)
    requires Discount(w) && k > 0 && expected != []
    ensures var recall := Score(w, expected, retrieved, k).value.recall;
            && 0.0 <= recall <= 1.0
            && (recall == 1.0 <==>
                  && Distinct(expected)
                  && forall e | e in expected :: e in Dedup(retrieved)[..Least(k, |Dedup(retrieved)|)])
  {
    var ranked := Dedup(retrieved);
    var cut := Least(k, |ranked|);
    DedupIsDistinct(retrieved);
    HitsBound(ranked, expected, cut);
    RatioFacts(Hits(ranked, expected, cut) as real, |expected| as real);
  }

  /** The derived reciprocal rank lies in [0, 1]; it is 0 exactly when nothing relevant was retrieved at any rank and
      1 exactly when the first id is relevant. */
  lemma ReciprocalRankBounds(w: Weight, expected: seq<Id>, retrieved: seq<Id>, k: nat)
    requires Discount(w) && k > 0 && expected != []
    ensures var rr := Score(w, expected, retrieved, k).value.reciprocalRank;
            && 0.0 <= rr <= 1.0
            && (rr == 0.0 <==> forall e | e in retrieved :: e !in expected)
            && (rr == 1.0 <==> retrieved != [] && retrieved[0] in expected)
  {
    var ranked := Dedup(retrieved);
    DedupIsDistinct(retrieved);
    FirstHitIsLeast(ranked, expected);
    if retrieved != [] { FirstOfDedup(retrieved); }
    match FirstHit(ranked, expected)
    case None =>
      forall e | e in retrieved
        ensures e !in expected
      {
        assert e in ranked;
      }
    case Some(rank) =>
      assert ranked[rank - 1] in retrieved;
      RatioFacts(1.0, rank as real);
      assert 1.0 / rank as real * rank as real == 1.0;
  }

  lemma {:induction false} FirstOfDedup(ids: seq<Id>)
    requires ids != []
    ensures Dedup(ids) != [] && Dedup(ids)[0] == ids[0]
  {
    if |ids| > 1 { FirstOfDedup(ids[..|ids| - 1]); }
  }

  // ---------------------------------------------------------------- the scores themselves

  /** The weights of the counting ranks from `rank` to `last`, added up. */
  ghost function WeightFrom(w: Weight, counts: nat -> bool, rank: nat, last: nat): real
    decreases last + 1 - rank
  {
    if rank > last then 0.0 else (if counts(rank) then w(rank) else 0.0) + WeightFrom(w, counts, rank + 1, last)
  }

  lemma {:induction false} WeightSnoc(w: Weight, counts: nat -> bool, rank: nat, last: nat)
    requires rank <= last + 1
    ensures WeightFrom(w, counts, rank, last + 1)
         == WeightFrom(w, counts, rank, last) + if counts(last + 1) then w(last + 1) else 0.0
    decreases last + 1 - rank
  {
    if rank <= last { WeightSnoc(w, counts, rank + 1, last); }
  }

  ghost predicate RelevantAt(ranked: seq<Id>, expected: seq<Id>, rank: nat) {
    1 <= rank <= |ranked| && ranked[rank - 1] in expected
  }

  lemma {:induction false} GainIsWeight(w: Weight, ranked: seq<Id>, expected: seq<Id>, n: nat)
    requires n <= |ranked|
    ensures Gain(w, ranked, expected, n) == WeightFrom(w, (rank: nat) => RelevantAt(ranked, expected, rank), 1, n)
  {
    if n > 0 {
      GainIsWeight(w, ranked, expected, n - 1);
      WeightSnoc(w, (rank: nat) => RelevantAt(ranked, expected, rank), 1, n - 1);
    }
  }

  lemma {:induction false} IdealIsWeight(w: Weight, n: nat)
    ensures Ideal(w, n) == WeightFrom(w, (rank: nat) => true, 1, n)
  {
    if n > 0 {
      IdealIsWeight(w, n - 1);
      WeightSnoc(w, (rank: nat) => true, 1, n - 1);
    }
  }

  lemma {:induction false} HitsCount(ranked: seq<Id>, expected: seq<Id>, n: nat)
    requires n <= |ranked|
    ensures Hits(ranked, expected, n) == Count(ranked[..n], (id: Id) => id in expected)
  {
    var relevant := (id: Id) => id in expected;
    if n == 0 {
      CountNone(relevant);
    } else {
      HitsCount(ranked, expected, n - 1);
      CountSnoc(ranked[..n - 1], ranked[n - 1], relevant);
      assert ranked[..n] == ranked[..n - 1] + [ranked[n - 1]];
    }
  }

  /** 0 when nothing relevant was retrieved, else one over the least relevant rank. */
  ghost predicate IsReciprocal(value: real, ranked: seq<Id>, expected: seq<Id>) {
    if forall rank: nat :: !RelevantAt(ranked, expected, rank) then value == 0.0
    else
      exists first: nat ::
        && RelevantAt(ranked, expected, first) && IsRatio(value, 1.0, first as real)
        && forall rank: nat | rank < first :: !RelevantAt(ranked, expected, rank)
  }

  lemma ReciprocalOfFirst(ranked: seq<Id>, expected: seq<Id>)
    ensures IsReciprocal(match FirstHit(ranked, expected) case None => 0.0 case Some(rank) => 1.0 / rank as real,
                         ranked, expected)
  {
    FirstHitIsLeast(ranked, expected);
    match FirstHit(ranked, expected)
    case None =>
    case Some(first) =>
      QuotientIsRatio(1.0, first as real);
      assert RelevantAt(ranked, expected, first);
  }

  /** Recall is the share of expected ids, repetitions counted, that the first k different ids hold; the reciprocal rank
      is one over the least relevant rank; the gain ratio divides the weights of the relevant ranks up to k by those of
      the first min(expected, k) ranks. */
  lemma ScoresMeasure(w: Weight, expected: seq<Id>, retrieved: seq<Id>, k: nat)
    requires Discount(w) && k > 0 && expected != []
    ensures var s, ranked := Score(w, expected, retrieved, k).value, Dedup(retrieved);
            var cut := Least(k, |ranked|);
            && IsRatio(s.recall, Count(ranked[..cut], (id: Id) => id in expected) as real, |expected| as real)
            && IsReciprocal(s.reciprocalRank, ranked, expected)
            && IsRatio(s.ndcg, WeightFrom(w, (rank: nat) => RelevantAt(ranked, expected, rank), 1, cut),
                       WeightFrom(w, (rank: nat) => true, 1, Least(|expected|, k)))
  {
    var ranked := Dedup(retrieved);
    var cut, m := Least(k, |ranked|), Least(|expected|, k);
    HitsCount(ranked, expected, cut);
    CountQuotientIsRatio(Hits(ranked, expected, cut), |expected|);
    ReciprocalOfFirst(ranked, expected);
    GainIsWeight(w, ranked, expected, cut);
    IdealIsWeight(w, m);
    IdealPositive(w, m);
    QuotientIsRatio(Gain(w, ranked, expected, cut), Ideal(w, m));
  }
}
