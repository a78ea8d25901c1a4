/**
 What a successful generative verification says: the verified rows are the
 latest attempts of exactly the cases and repetitions of the run, each completed
 with authorized evidence and consistent citations, and the metrics are ratios
 that do not depend on the order of the rows.
 */
module GenerativeSafety {
  import opened Counting
  import opened Options
  import opened CancellationSafety
  import opened GenerativeTables
  import opened GenerativeVerifier
  import Percentile

  type Place = (Id, int)

  function PlaceOf(t: Tables, a: Id): Place
    requires a in t.attempts
  {
    (t.attempts[a].key.caseId, t.attempts[a].key.repetition)
  }

  predicate Selected(t: Tables, run: Id, version: Id, a: Id) {
    a in t.attempts && t.attempts[a].key.run == run && t.attempts[a].key.version == version
  }

  predicate NoLater(t: Tables, run: Id, version: Id, a: Id)
    requires a in t.attempts
  {
    forall b | b in t.attempts && Selected(t, run, version, b) && PlaceOf(t, b) == PlaceOf(t, a) ::
      t.attempts[b].key.number <= t.attempts[a].key.number
  }

  /** DISTINCT ON (case, repetition) by descending attempt number. */
  function Latest(t: Tables, run: Id, version: Id): set<Id> {
    set a | a in t.attempts && Selected(t, run, version, a) && NoLater(t, run, version, a)
  }

  /** The query returns each latest attempt once, in some order. */
  ghost predicate Enumerates(rows: seq<Id>, ids: set<Id>) {
    multiset(rows) == multiset(ids)
  }

  // ---------------------------------------------------------------- rows and places

  /** No two latest attempts share case and repetition. */
  lemma LatestPlacesDiffer(t: Tables, run: Id, version: Id, a: Id, b: Id)
    requires KeysOk(t) && a in Latest(t, run, version) && b in Latest(t, run, version) && a != b
    ensures PlaceOf(t, a) != PlaceOf(t, b)
  {
    assert NoLater(t, run, version, a) && NoLater(t, run, version, b);
    assert !SameAttempt(t.attempts[a].key, t.attempts[b].key);
  }

  function Places(t: Tables, rows: seq<Id>): set<Place>
    requires forall i | 0 <= i < |rows| :: rows[i] in t.attempts
  {
    set i | 0 <= i < |rows| :: PlaceOf(t, rows[i])
  }

  lemma {:induction false} PlacesSize(t: Tables, rows: seq<Id>)
    requires forall i | 0 <= i < |rows| :: rows[i] in t.attempts
    requires forall i, j | 0 <= i < j < |rows| :: PlaceOf(t, rows[i]) != PlaceOf(t, rows[j])
    ensures |Places(t, rows)| == |rows|
  {
    if rows != [] {
      var front, last := rows[..|rows| - 1], rows[|rows| - 1];
      PlacesSize(t, front);
      assert Places(t, rows) == Places(t, front) + {PlaceOf(t, last)};
      assert PlaceOf(t, last) !in Places(t, front);
    }
  }

  lemma TwiceIn(rows: seq<Id>, i: nat, j: nat)
    requires i < j < |rows| && rows[i] == rows[j]
    ensures multiset(rows)[rows[i]] >= 2
  {
    assert rows == rows[..j] + [rows[j]] + rows[j + 1..];
    assert rows[..j][i] == rows[i];
  }

  lemma EnumeratedOnce(rows: seq<Id>, ids: set<Id>)
    requires Enumerates(rows, ids)
    ensures |rows| == |ids|
    ensures forall i | 0 <= i < |rows| :: rows[i] in ids
    ensures forall i, j | 0 <= i < j < |rows| :: rows[i] != rows[j]
  {
    assert |multiset(rows)| == |multiset(ids)|;
    forall i | 0 <= i < |rows|
      ensures rows[i] in ids
    {
      assert rows[i] in multiset(rows);
    }
    forall i, j | 0 <= i < j < |rows|
      ensures rows[i] != rows[j]
    {
      if rows[i] == rows[j] { TwiceIn(rows, i, j); }
    }
  }

  /** Case and repetition of an attempt lie inside the frozen inputs. */
  lemma PlaceInside(t: Tables, run: Id, version: Id, a: Id)
    requires RowsOk(t) && InputsOk(t) && run in t.runs && a in Latest(t, run, version)
    ensures PlaceOf(t, a) in Pairs(t.Cases(t.runs[run].inputs.dataset).Keys, Range(0, t.runs[run].inputs.repetitions))
  {
    assert AttemptRowAllowed(t.attempts[a]);
    assert InsideInputs(t, t.runs[run], t.attempts[a].key);
    assert t.attempts[a].key.repetition in Range(0, t.runs[run].inputs.repetitions);
  }

  lemma AllPlaces(t: Tables, rows: seq<Id>, cases: set<Id>, repetitions: set<int>)
    requires forall i | 0 <= i < |rows| :: rows[i] in t.attempts
    requires forall i | 0 <= i < |rows| :: PlaceOf(t, rows[i]).0 in cases && PlaceOf(t, rows[i]).1 in repetitions
    requires forall i, j | 0 <= i < j < |rows| :: PlaceOf(t, rows[i]) != PlaceOf(t, rows[j])
    requires |rows| == |cases| * |repetitions|
    ensures Places(t, rows) == Pairs(cases, repetitions)
  {
    PlacesSize(t, rows);
    PairsSize(cases, repetitions);
    SubsetSize(Places(t, rows), Pairs(cases, repetitions));
  }

  lemma PlaceIndex(t: Tables, rows: seq<Id>, cases: set<Id>, repetitions: set<int>, c: Id, n: int) returns (i: nat)
    requires forall i | 0 <= i < |rows| :: rows[i] in t.attempts
    requires Places(t, rows) == Pairs(cases, repetitions) && c in cases && n in repetitions
    ensures i < |rows| && PlaceOf(t, rows[i]) == (c, n)
  {
    assert (c, n) in Pairs(cases, repetitions);
    i :| 0 <= i < |rows| && PlaceOf(t, rows[i]) == (c, n);
  }

  /** Counting: as many latest attempts as places leave no place without one. */
  lemma CountedIsCovered(t: Tables, run: Id, version: Id, rows: seq<Id>, c: Id, n: int) returns (i: nat)
    requires RowsOk(t) && InputsOk(t) && KeysOk(t) && run in t.runs && Enumerates(rows, Latest(t, run, version))
    requires |rows| == |t.Cases(t.runs[run].inputs.dataset)| * t.runs[run].inputs.repetitions
    requires t.runs[run].inputs.repetitions >= 0
    requires c in t.Cases(t.runs[run].inputs.dataset) && 0 <= n < t.runs[run].inputs.repetitions
    ensures i < |rows| && rows[i] in t.attempts && PlaceOf(t, rows[i]) == (c, n)
  {
    var cases, repetitions := t.Cases(t.runs[run].inputs.dataset).Keys, Range(0, t.runs[run].inputs.repetitions);
    RowsInside(t, run, version, rows);
    RangeSize(0, t.runs[run].inputs.repetitions);
    AllPlaces(t, rows, cases, repetitions);
    assert n in repetitions;
    i := PlaceIndex(t, rows, cases, repetitions, c, n);
  }

  // ---------------------------------------------------------------- bounds of the folded metrics

  lemma {:induction false} MatchedBound(groups: seq<seq<Id>>, selected: seq<Id>, n: nat)
    requires n <= |groups|
    ensures Matched(groups, selected, n) <= n
    ensures Matched(groups, selected, n) == n <==> forall i | 0 <= i < n :: GroupMatched(groups[i], selected)
  {
    if n > 0 { MatchedBound(groups, selected, n - 1); }
  }

  /** Every required evidence group of a positive case has a selected member. */
  ghost predicate GroupsCovered(t: Tables, s: Subject, a: Id)
    requires Holds(t, s, a) && Observed(t, s, a)
  {
    var groups, selected := RuleOf(t, s, a).value.groups, ObservationOf(t, s, a).selected;
    Positive(t, s, a) ==> forall i | 0 <= i < |groups| :: GroupMatched(groups[i], selected)
  }

  lemma ContributionBounds(x: Text, t: Tables, s: Subject, a: Id)
    requires Acceptable(x, t, s, a)
    ensures var c := Contribution(x, t, s, a);
            && c.positives + c.negatives == 1 && c.correct <= 1 && c.abstained <= c.negatives
            && 0.0 <= c.covered <= c.positives as real
            && (c.covered == c.positives as real <==> GroupsCovered(t, s, a))
  {
    if Positive(t, s, a) {
      var groups, selected := RuleOf(t, s, a).value.groups, ObservationOf(t, s, a).selected;
      MatchedBound(groups, selected, |groups|);
      RatioFacts(Matched(groups, selected, |groups|) as real, |groups| as real);
    }
  }

  /** The counters of n attempts, all covered or not. */
  predicate TallyOf(f: Tally, n: nat, all: bool) {
    && f.positives + f.negatives == n && f.correct <= n && f.abstained <= f.negatives
    && 0.0 <= f.covered <= f.positives as real
    && (f.covered == f.positives as real <==> all)
  }

  lemma AddTallies(f: Tally, g: Tally, n: nat, m: nat, all: bool, every: bool)
    requires TallyOf(f, n, all) && TallyOf(g, m, every)
    ensures TallyOf(Add(f, g), n + m, all && every)
  {
  }

  ghost predicate AllCovered(t: Tables, s: Subject, rows: seq<Id>)
    requires forall i | 0 <= i < |rows| :: Holds(t, s, rows[i]) && Observed(t, s, rows[i])
  {
    forall i | 0 <= i < |rows| :: GroupsCovered(t, s, rows[i])
  }

  lemma AllCoveredSnoc(t: Tables, s: Subject, front: seq<Id>, last: Id)
    requires forall i | 0 <= i < |front| :: Holds(t, s, front[i]) && Observed(t, s, front[i])
    requires Holds(t, s, last) && Observed(t, s, last)
    ensures forall i | 0 <= i < |front + [last]| :: Holds(t, s, (front + [last])[i]) && Observed(t, s, (front + [last])[i])
    ensures AllCovered(t, s, front + [last]) <==> AllCovered(t, s, front) && GroupsCovered(t, s, last)
  {
    var rows := front + [last];
    assert rows[|front|] == last;
    assert forall i | 0 <= i < |front| :: rows[i] == front[i];
  }

  lemma {:induction false} FoldBounds(x: Text, t: Tables, s: Subject, rows: seq<Id>)
    requires AllAcceptable(x, t, s, rows)
    ensures forall i | 0 <= i < |rows| :: Holds(t, s, rows[i]) && Observed(t, s, rows[i])
    ensures TallyOf(Fold(x, t, s, rows), |rows|, AllCovered(t, s, rows))
  {
    if rows != [] {
      var front, last := rows[..|rows| - 1], rows[|rows| - 1];
      assert rows == front + [last];
      FoldSnoc(x, t, s, front, last);
      FoldBounds(x, t, s, front);
      ContributionBounds(x, t, s, last);
      AddTallies(Fold(x, t, s, front), Contribution(x, t, s, last), |front|, 1, AllCovered(t, s, front),
        GroupsCovered(t, s, last));
      AllCoveredSnoc(t, s, front, last);
    }
  }

  lemma VerifyFacts(x: Text, t: Tables, run: Id, version: Id, rows: seq<Id>) returns (s: Subject)
    requires Verify(x, t, run, version, rows).Some?
    ensures SubjectOf(x, t, run, version) == Some(s) && s.runId == run && run in t.runs && s.run == t.runs[run]
    ensures AllAcceptable(x, t, s, rows) && |rows| == ExpectedCount(t, s) && rows != []
    ensures Fold(x, t, s, rows).positives > 0 && Fold(x, t, s, rows).negatives > 0
    ensures Verify(x, t, run, version, rows) == Some(MetricsOf(Fold(x, t, s, rows), Latencies(x, t, s, rows)))
  {
    s := SubjectOf(x, t, run, version).value;
  }

  /** Coverage, correctness and abstention of a verified candidate lie in [0, 1]; coverage is 1 exactly when every
      positive attempt selected a member of every required evidence group. */
  lemma MetricsAreRatios(x: Text, t: Tables, run: Id, version: Id, rows: seq<Id>)
    requires Verify(x, t, run, version, rows).Some?
    ensures var m, s := Verify(x, t, run, version, rows).value, SubjectOf(x, t, run, version).value;
            && 0.0 <= m.coverage <= 1.0 && 0.0 <= m.correctness <= 1.0 && 0.0 <= m.abstention <= 1.0
            && m.positives > 0 && m.negatives > 0 && m.positives + m.negatives == m.count == |rows|
            && AllAcceptable(x, t, s, rows)
            && (m.coverage == 1.0 <==> forall i | 0 <= i < |rows| :: GroupsCovered(t, s, rows[i]))
  {
    var s := VerifyFacts(x, t, run, version, rows);
    var f := Fold(x, t, s, rows);
    FoldBounds(x, t, s, rows);
    RatioFacts(f.covered, f.positives as real);
    RatioFacts(f.correct as real, |rows| as real);
    RatioFacts(f.abstained as real, f.negatives as real);
  }

  // ---------------------------------------------------------------- order of the rows

  function Without(rows: seq<Id>, i: nat): seq<Id>
    requires i < |rows|
  {
    rows[..i] + rows[i + 1..]
  }

  lemma WithoutSnoc(rows: seq<Id>, i: nat)
    requires i < |rows|
    ensures var n := |rows| - 1;
            if i == n then Without(rows, i) == rows[..n]
            else Without(rows, i) == Without(rows[..n], i) + [rows[n]]
  {
  }

  lemma AcceptableWithout(x: Text, t: Tables, s: Subject, rows: seq<Id>, i: nat)
    requires AllAcceptable(x, t, s, rows) && i < |rows|
    ensures AllAcceptable(x, t, s, Without(rows, i))
  {
    var rest := Without(rows, i);
    forall j | 0 <= j < |rest|
      ensures Acceptable(x, t, s, rest[j])
    {
      assert rest[j] == if j < i then rows[j] else rows[j + 1];
    }
  }

  lemma FoldSnoc(x: Text, t: Tables, s: Subject, front: seq<Id>, last: Id)
    requires AllAcceptable(x, t, s, front + [last])
    ensures AllAcceptable(x, t, s, front) && Acceptable(x, t, s, last)
    ensures Fold(x, t, s, front + [last]) == Add(Fold(x, t, s, front), Contribution(x, t, s, last))
    ensures Latencies(x, t, s, front + [last]) == Latencies(x, t, s, front) + [ObservationOf(t, s, last).duration]
  {
    var rows := front + [last];
    assert rows[|front|] == last && rows[..|front|] == front;
    assert rows[..|rows|] == rows;
    FoldNext(x, t, s, rows, |front|);
  }

  lemma AddSwap(a: Tally, b: Tally, c: Tally)
    ensures Add(Add(a, b), c) == Add(Add(a, c), b)
  {
  }

  lemma FoldSwap(x: Text, t: Tables, s: Subject, front: seq<Id>, rest: seq<Id>, a: Id, last: Id)
    requires AllAcceptable(x, t, s, front + [last]) && AllAcceptable(x, t, s, rest + [last])
    requires AllAcceptable(x, t, s, front) && AllAcceptable(x, t, s, rest) && Acceptable(x, t, s, a)
    requires Fold(x, t, s, front) == Add(Fold(x, t, s, rest), Contribution(x, t, s, a))
    ensures Fold(x, t, s, front + [last]) == Add(Fold(x, t, s, rest + [last]), Contribution(x, t, s, a))
  {
    FoldSnoc(x, t, s, front, last);
    FoldSnoc(x, t, s, rest, last);
    AddSwap(Fold(x, t, s, rest), Contribution(x, t, s, a), Contribution(x, t, s, last));
  }

  lemma {:induction false} FoldRemove(x: Text, t: Tables, s: Subject, rows: seq<Id>, i: nat)
    requires AllAcceptable(x, t, s, rows) && i < |rows|
    ensures AllAcceptable(x, t, s, Without(rows, i))
    ensures Fold(x, t, s, rows) == Add(Fold(x, t, s, Without(rows, i)), Contribution(x, t, s, rows[i]))
  {
    var front, last := rows[..|rows| - 1], rows[|rows| - 1];
    assert rows == front + [last];
    AcceptableWithout(x, t, s, rows, i);
    WithoutSnoc(rows, i);
    if i < |front| {
      FoldRemove(x, t, s, front, i);
      FoldSwap(x, t, s, front, Without(front, i), rows[i], last);
    }
  }

  lemma LatenciesSwap(x: Text, t: Tables, s: Subject, front: seq<Id>, rest: seq<Id>, a: real, last: Id)
    requires AllAcceptable(x, t, s, front + [last]) && AllAcceptable(x, t, s, rest + [last])
    requires AllAcceptable(x, t, s, front) && AllAcceptable(x, t, s, rest)
    requires multiset(Latencies(x, t, s, front)) == multiset(Latencies(x, t, s, rest)) + multiset{a}
    ensures multiset(Latencies(x, t, s, front + [last])) == multiset(Latencies(x, t, s, rest + [last])) + multiset{a}
  {
    FoldSnoc(x, t, s, front, last);
    FoldSnoc(x, t, s, rest, last);
  }

  lemma {:induction false} LatenciesRemove(x: Text, t: Tables, s: Subject, rows: seq<Id>, i: nat)
    requires AllAcceptable(x, t, s, rows) && i < |rows|
    ensures AllAcceptable(x, t, s, Without(rows, i))
    ensures multiset(Latencies(x, t, s, rows))
            == multiset(Latencies(x, t, s, Without(rows, i))) + multiset{ObservationOf(t, s, rows[i]).duration}
  {
    var front, last := rows[..|rows| - 1], rows[|rows| - 1];
    assert rows == front + [last];
    AcceptableWithout(x, t, s, rows, i);
    WithoutSnoc(rows, i);
    if i < |front| {
      LatenciesRemove(x, t, s, front, i);
      LatenciesSwap(x, t, s, front, Without(front, i), ObservationOf(t, s, rows[i]).duration, last);
    } else {
      FoldSnoc(x, t, s, front, last);
    }
  }

  lemma {:induction false} FoldOrderFree(x: Text, t: Tables, s: Subject, rows: seq<Id>, other: seq<Id>)
    requires multiset(rows) == multiset(other) && AllAcceptable(x, t, s, rows) && AllAcceptable(x, t, s, other)
    ensures Fold(x, t, s, rows) == Fold(x, t, s, other)
    ensures multiset(Latencies(x, t, s, rows)) == multiset(Latencies(x, t, s, other))
    decreases |rows|
  {
    if rows == [] {
      assert |multiset(other)| == 0;
    } else {
      var n := |rows| - 1;
      var i := IndexIn(other, rows[n], rows);
      FoldRemove(x, t, s, rows, n);
      FoldRemove(x, t, s, other, i);
      LatenciesRemove(x, t, s, rows, n);
      LatenciesRemove(x, t, s, other, i);
      Removed(rows, n);
      Removed(other, i);
      FoldOrderFree(x, t, s, Without(rows, n), Without(other, i));
    }
  }

  lemma Removed(rows: seq<Id>, i: nat)
    requires i < |rows|
    ensures multiset(Without(rows, i)) == multiset(rows) - multiset{rows[i]}
    ensures |Without(rows, i)| == |rows| - 1
  {
    assert rows == rows[..i] + [rows[i]] + rows[i + 1..];
  }

  lemma IndexIn(other: seq<Id>, a: Id, rows: seq<Id>) returns (i: nat)
    requires multiset(rows) == multiset(other) && a in rows
    ensures i < |other| && other[i] == a
  {
    assert a in multiset(other);
    i :| 0 <= i < |other| && other[i] == a;
  }

  lemma AcceptableInAnyOrder(x: Text, t: Tables, s: Subject, rows: seq<Id>, other: seq<Id>)
    requires multiset(rows) == multiset(other) && AllAcceptable(x, t, s, rows)
    ensures AllAcceptable(x, t, s, other)
  {
    forall i | 0 <= i < |other|
      ensures Acceptable(x, t, s, other[i])
    {
      assert other[i] in multiset(rows);
    }
  }

  lemma SameLength(rows: seq<Id>, other: seq<Id>)
    requires multiset(rows) == multiset(other)
    ensures |rows| == |other|
  {
    assert |multiset(rows)| == |multiset(other)|;
  }

  lemma MetricsOrderFree(x: Text, t: Tables, s: Subject, rows: seq<Id>, other: seq<Id>)
    requires multiset(rows) == multiset(other) && AllAcceptable(x, t, s, rows) && AllAcceptable(x, t, s, other)
    ensures Fold(x, t, s, rows) == Fold(x, t, s, other)
    ensures var f := Fold(x, t, s, rows);
            rows != [] && other != [] && f.positives > 0 && f.negatives > 0 ==>
              MetricsOf(f, Latencies(x, t, s, rows)) == MetricsOf(f, Latencies(x, t, s, other))
  {
    FoldOrderFree(x, t, s, rows, other);
    if rows != [] && other != [] {
      Percentile.ContOrderFree(Latencies(x, t, s, rows), Latencies(x, t, s, other), 0.95);
    }
  }

  /** The outcome of a verification does not depend on the order in which the query returns its rows. */
  lemma VerifyOrderFree(x: Text, t: Tables, run: Id, version: Id, rows: seq<Id>, other: seq<Id>)
    requires multiset(rows) == multiset(other)
    ensures Verify(x, t, run, version, rows) == Verify(x, t, run, version, other)
  {
    var subject := SubjectOf(x, t, run, version);
    SameLength(rows, other);
    if subject.Some? {
      var s := subject.value;
      if AllAcceptable(x, t, s, other) { AcceptableInAnyOrder(x, t, s, other, rows); }
      if AllAcceptable(x, t, s, rows) {
        AcceptableInAnyOrder(x, t, s, rows, other);
        MetricsOrderFree(x, t, s, rows, other);
      }
    }
  }

  // ---------------------------------------------------------------- main result

  ghost predicate SameElements(a: seq<Id>, b: seq<Id>) {
    forall e :: e in a <==> e in b
  }

  /** The evidence of some claim. */
  ghost predicate CitedByClaim(citations: seq<Citation>, e: Id) {
    exists i | 0 <= i < |citations| :: e in citations[i].evidence
  }

  lemma {:induction false} CitedIdsAreUnion(citations: seq<Citation>, n: nat, e: Id)
    requires n <= |citations|
    ensures e in CitedIds(citations, n) <==> exists i | 0 <= i < n :: e in citations[i].evidence
  {
    if n > 0 { CitedIdsAreUnion(citations, n - 1, e); }
  }

  /** The attempt reports an observation without failure or exposure, made by its own completed execution, which the owner
      of the run started. */
  ghost predicate RanCleanly(t: Tables, s: Subject, a: Id, o: Observation)
    requires a in t.attempts
  {
    && o.status.Some? && o.failureStage == None && o.error == None && o.exposures == 0 && o.duration >= 0.0
    && o.execution == t.attempts[a].key.execution && o.execution in t.world.executions
    && t.world.executions[o.execution] == Execution(Some(a), s.run.inputs.owner, true)
  }

  /** The evidence unit is authorized, not forbidden, and frozen with a build of the evaluated component. */
  ghost predicate Permitted(s: Subject, c: Case, e: Id) {
    && e in c.authorized && e !in c.forbidden
    && exists source | source in s.run.inputs.snapshot.sources :: e in source.units && source.build in s.component.builds
  }

  /** An audit row allowed exactly this selection, for the owner, the version and its generation profile. */
  ghost predicate Audited(t: Tables, s: Subject, o: Observation) {
    exists audit | audit in t.world.audits ::
      && audit.execution == o.execution && audit.actor == s.run.inputs.owner
      && audit.version == s.versionId && Some(audit.profile) == s.version.generation && audit.allowed
      && audit.status == (if o.status == Some(Answered) then Succeeded else Allowed)
      && SameElements(audit.evidence, o.selected)
  }

  /** A valid answer: not blank, its claims are numbered from 0, each cites something, their evidence together is exactly
      the cited evidence, and all of it was selected. */
  ghost predicate Cited(x: Text, raw: RawResult, o: Observation) {
    && x.trim(raw.answer) != "" && o.citationValid && raw.citations != []
    && (forall n | 0 <= n < |raw.citations| :: raw.citations[n].claim == n && raw.citations[n].evidence != [])
    && (forall e :: e in o.cited <==> CitedByClaim(raw.citations, e))
    && (forall e | e in o.cited :: e in o.selected)
  }

  /** An attempt that may count: completed for a case of the run, cleanly run, every surfaced evidence unit permitted, its
      selection audited, and validly cited if it answers. */
  ghost predicate Trustworthy(x: Text, t: Tables, s: Subject, a: Id) {
    && a in t.attempts && t.attempts[a].status == Done && t.attempts[a].key.caseId in t.Cases(s.run.inputs.dataset)
    && t.attempts[a].result.Some? && t.attempts[a].result.value.observation.Some?
    && var c, raw := t.Cases(s.run.inputs.dataset)[t.attempts[a].key.caseId], t.attempts[a].result.value;
    && var o := raw.observation.value;
    && RanCleanly(t, s, a, o) && Audited(t, s, o)
    && (forall e | e in o.retrieved || e in o.selected || e in o.cited :: Permitted(s, c, e))
    && (o.status == Some(Answered) ==> Cited(x, raw, o))
  }

  /** What a verification is about: a completed run under a policy of its owner, and the frozen component of the version,
      which has the generation, indexing and retrieval profiles and the answer policy of the stored version. */
  ghost predicate Bound(x: Text, t: Tables, run: Id, version: Id, s: Subject) {
    && run in t.runs && version in t.world.versions && t.runs[run].inputs.policy in t.policies
    && s.runId == run && s.run == t.runs[run] && s.run.status == Completed && s.policy == t.policies[s.run.inputs.policy]
    && s.policy.owner == s.run.inputs.owner && s.run.inputs.rulesDigest == x.rulesDigest(s.run.inputs.rules)
    && s.versionId == version && s.version == t.world.versions[version] && s.version.generation.Some?
    && s.component in s.run.inputs.snapshot.candidates && s.component.version == version
    && Profile(s.version.generation.value, Generation) in s.component.profiles
    && (exists p | p in s.component.profiles :: p.id == s.version.indexing)
    && (exists p | p in s.component.profiles :: p.id == s.version.retrieval)
    && s.component.answerPolicy == s.version.answerPolicy
  }

  lemma {:induction false} ComponentFound(candidates: seq<Component>, version: Id)
    ensures var c := FindComponent(candidates, version);
            c.Some? ==> c.value in candidates && c.value.version == version
  {
    if candidates != [] && candidates[0].version != version {
      ComponentFound(candidates[1..], version);
      var c := FindComponent(candidates[1..], version);
      if c.Some? { assert c.value in candidates[1..]; }
    }
  }

  lemma SubjectIsBound(x: Text, t: Tables, run: Id, version: Id)
    requires SubjectOf(x, t, run, version).Some?
    ensures Bound(x, t, run, version, SubjectOf(x, t, run, version).value)
  {
    ComponentFound(t.runs[run].inputs.snapshot.candidates, version);
    ProfilesInComponent(SubjectOf(x, t, run, version).value.component, t.world.versions[version]);
  }

  lemma ProfilesInComponent(c: Component, v: VersionRow)
    requires ProfilesBound(c, v)
    ensures v.generation.Some? && Profile(v.generation.value, Generation) in c.profiles
    ensures exists p | p in c.profiles :: p.id == v.indexing
    ensures exists p | p in c.profiles :: p.id == v.retrieval
  {
    var i :| 0 <= i < |c.profiles| && c.profiles[i].id == v.indexing;
    var j :| 0 <= j < |c.profiles| && c.profiles[j].id == v.retrieval;
    assert c.profiles[i] in c.profiles && c.profiles[j] in c.profiles;
  }

  lemma SubsetMember(a: seq<Id>, b: seq<Id>, e: Id)
    requires Subset(a, b) && e in a
    ensures e in b
  {
    var i :| 0 <= i < |a| && a[i] == e;
  }

  lemma AcceptableIsTrustworthy(x: Text, t: Tables, s: Subject, a: Id)
    requires Acceptable(x, t, s, a)
    ensures Trustworthy(x, t, s, a)
  {
    EvidencePermitted(x, t, s, a);
    AuditMatches(x, t, s, a);
    if ObservationOf(t, s, a).status == Some(Answered) { AnsweredIsCited(x, t, s, a); }
  }

  lemma ShownIsPermitted(s: Subject, c: Case, e: Id)
    requires MayShow(s, c, e)
    ensures Permitted(s, c, e)
  {
    var sources := s.run.inputs.snapshot.sources;
    var i :| 0 <= i < |sources| && e in sources[i].units && sources[i].build in s.component.builds;
    assert sources[i] in sources;
  }

  lemma EvidencePermitted(x: Text, t: Tables, s: Subject, a: Id)
    requires Acceptable(x, t, s, a)
    ensures var o := ObservationOf(t, s, a);
            forall e | e in o.retrieved || e in o.selected || e in o.cited :: Permitted(s, CaseOf(t, s, a), e)
  {
    var o := ObservationOf(t, s, a);
    var ids := o.retrieved + o.selected + o.cited;
    forall e | e in o.retrieved || e in o.selected || e in o.cited
      ensures Permitted(s, CaseOf(t, s, a), e)
    {
      assert e in ids;
      var i :| 0 <= i < |ids| && ids[i] == e;
      ShownIsPermitted(s, CaseOf(t, s, a), e);
    }
  }

  lemma AuditMatches(x: Text, t: Tables, s: Subject, a: Id)
    requires Acceptable(x, t, s, a)
    ensures Audited(t, s, ObservationOf(t, s, a))
  {
    var o := ObservationOf(t, s, a);
    var i :| 0 <= i < |t.world.audits| && MatchingAudit(s, o, t.world.audits[i]);
    var audit := t.world.audits[i];
    forall e
      ensures e in audit.evidence <==> e in o.selected
    {
      if e in audit.evidence { SubsetMember(audit.evidence, o.selected, e); }
      if e in o.selected { SubsetMember(o.selected, audit.evidence, e); }
    }
    assert audit in t.world.audits;
  }

  lemma AnsweredIsCited(x: Text, t: Tables, s: Subject, a: Id)
    requires Acceptable(x, t, s, a) && ObservationOf(t, s, a).status == Some(Answered)
    ensures Cited(x, t.attempts[a].result.value, ObservationOf(t, s, a))
  {
    var o, raw := ObservationOf(t, s, a), t.attempts[a].result.value;
    var ids := CitedIds(raw.citations, |raw.citations|);
    assert CitationsAgree(x, raw, o);
    forall e
      ensures e in o.cited <==> CitedByClaim(raw.citations, e)
      ensures e in o.cited ==> e in o.selected
    {
      CitedIdsAreUnion(raw.citations, |raw.citations|, e);
      if e in ids { SubsetMember(ids, o.cited, e); }
      if e in o.cited {
        SubsetMember(o.cited, ids, e);
        SubsetMember(o.cited, o.selected, e);
      }
    }
  }

  /** In every state that statements and transactions lead to: if the verifier succeeds on the latest attempts, every
      case of the dataset has exactly one of them for every repetition, there are no others, and each of them is
      trustworthy. */
  lemma VerifiedIsCompleteAndTrustworthy(
    x: Text, start: Store, events: seq<Event>, run: Id, version: Id, rows: seq<Id>)
    requires Initial(start)
    requires var t := Run(start, events).tables;
             Enumerates(rows, Latest(t, run, version)) && Verify(x, t, run, version, rows).Some?
    ensures var t := Run(start, events).tables;
            && SubjectOf(x, t, run, version).Some?
            && Bound(x, t, run, version, SubjectOf(x, t, run, version).value)
            && (forall i | 0 <= i < |rows| :: Trustworthy(x, t, SubjectOf(x, t, run, version).value, rows[i]))
            && (forall i | 0 <= i < |rows| ::
                  && PlaceOf(t, rows[i]).0 in t.Cases(t.runs[run].inputs.dataset)
                  && 0 <= PlaceOf(t, rows[i]).1 < t.runs[run].inputs.repetitions)
            && (forall i, j | 0 <= i < j < |rows| :: PlaceOf(t, rows[i]) != PlaceOf(t, rows[j]))
            && (forall c, n | c in t.Cases(t.runs[run].inputs.dataset) && 0 <= n < t.runs[run].inputs.repetitions ::
                  Covered(t, rows, (c, n)))
  {
    InitialInv(start);
    RunKeepsInv(start, events);
    VerifiedRows(x, Run(start, events).tables, run, version, rows);
  }

  ghost predicate Covered(t: Tables, rows: seq<Id>, place: Place) {
    exists i | 0 <= i < |rows| :: rows[i] in t.attempts && PlaceOf(t, rows[i]) == place
  }

  lemma VerifiedRows(x: Text, t: Tables, run: Id, version: Id, rows: seq<Id>)
    requires RowsOk(t) && InputsOk(t) && KeysOk(t)
    requires Enumerates(rows, Latest(t, run, version)) && Verify(x, t, run, version, rows).Some?
    ensures SubjectOf(x, t, run, version).Some? && Bound(x, t, run, version, SubjectOf(x, t, run, version).value)
    ensures forall i | 0 <= i < |rows| :: Trustworthy(x, t, SubjectOf(x, t, run, version).value, rows[i])
    ensures forall i | 0 <= i < |rows| ::
              && PlaceOf(t, rows[i]).0 in t.Cases(t.runs[run].inputs.dataset)
              && 0 <= PlaceOf(t, rows[i]).1 < t.runs[run].inputs.repetitions
    ensures forall i, j | 0 <= i < j < |rows| :: PlaceOf(t, rows[i]) != PlaceOf(t, rows[j])
    ensures forall c, n | c in t.Cases(t.runs[run].inputs.dataset) && 0 <= n < t.runs[run].inputs.repetitions ::
              Covered(t, rows, (c, n))
  {
    var s := VerifyFacts(x, t, run, version, rows);
    SubjectIsBound(x, t, run, version);
    RowsTrustworthy(x, t, s, rows);
    RowsInside(t, run, version, rows);
    RowsCover(t, run, version, rows);
  }

  lemma RowsTrustworthy(x: Text, t: Tables, s: Subject, rows: seq<Id>)
    requires AllAcceptable(x, t, s, rows)
    ensures forall i | 0 <= i < |rows| :: Trustworthy(x, t, s, rows[i])
  {
    forall i | 0 <= i < |rows|
      ensures Trustworthy(x, t, s, rows[i])
    {
      AcceptableIsTrustworthy(x, t, s, rows[i]);
    }
  }

  lemma RowsCover(t: Tables, run: Id, version: Id, rows: seq<Id>)
    requires RowsOk(t) && InputsOk(t) && KeysOk(t) && run in t.runs && Enumerates(rows, Latest(t, run, version))
    requires |rows| == |t.Cases(t.runs[run].inputs.dataset)| * t.runs[run].inputs.repetitions
    ensures forall c, n | c in t.Cases(t.runs[run].inputs.dataset) && 0 <= n < t.runs[run].inputs.repetitions ::
              Covered(t, rows, (c, n))
  {
    assert RunRowAllowed(t.runs[run]);
    forall c, n | c in t.Cases(t.runs[run].inputs.dataset) && 0 <= n < t.runs[run].inputs.repetitions
      ensures Covered(t, rows, (c, n))
    {
      var i := CountedIsCovered(t, run, version, rows, c, n);
    }
  }

  /** Every enumerated row has a place of its own inside the frozen inputs. */
  lemma RowsInside(t: Tables, run: Id, version: Id, rows: seq<Id>)
    requires RowsOk(t) && InputsOk(t) && KeysOk(t) && run in t.runs && Enumerates(rows, Latest(t, run, version))
    ensures forall i | 0 <= i < |rows| :: rows[i] in t.attempts
    ensures forall i | 0 <= i < |rows| ::
              && PlaceOf(t, rows[i]).0 in t.Cases(t.runs[run].inputs.dataset)
              && 0 <= PlaceOf(t, rows[i]).1 < t.runs[run].inputs.repetitions
    ensures forall i, j | 0 <= i < j < |rows| :: PlaceOf(t, rows[i]) != PlaceOf(t, rows[j])
  {
    EnumeratedOnce(rows, Latest(t, run, version));
    forall i | 0 <= i < |rows|
      ensures PlaceOf(t, rows[i]).0 in t.Cases(t.runs[run].inputs.dataset)
      ensures 0 <= PlaceOf(t, rows[i]).1 < t.runs[run].inputs.repetitions
    {
      PlaceInside(t, run, version, rows[i]);
    }
    forall i, j | 0 <= i < j < |rows|
      ensures PlaceOf(t, rows[i]) != PlaceOf(t, rows[j])
    {
      LatestPlacesDiffer(t, run, version, rows[i], rows[j]);
    }
  }
}
