/**
 What the metrics of a verified generative candidate measure, stated from the
 stored rows: which attempts are correct, which abstained, how much of the
 required evidence each one selected, and which limits the metrics meet.
 */
module GenerativeMeasures {
  import opened Counting
  import opened GenerativeSafety
  import opened GenerativeTables
  import opened GenerativeVerifier
  import opened Options
  import Percentile

  // ---------------------------------------------------------------- one attempt, from its rows

  /** The attempt names a case of the dataset and a rule of the run, and reports an observation. */
  ghost predicate Reported(t: Tables, r: GenerativeRun, a: Id) {
    && a in t.attempts && t.attempts[a].key.caseId in t.Cases(r.inputs.dataset)
    && t.attempts[a].key.caseId in r.inputs.rules
    && t.attempts[a].result.Some? && t.attempts[a].result.value.observation.Some?
  }

  ghost function Rules(t: Tables, r: GenerativeRun, a: Id): Rule
    requires Reported(t, r, a)
  {
    r.inputs.rules[t.attempts[a].key.caseId]
  }

  ghost function Observes(t: Tables, r: GenerativeRun, a: Id): Observation
    requires Reported(t, r, a)
  {
    t.attempts[a].result.value.observation.value
  }

  /** The case of the attempt expects an answer. */
  ghost predicate ExpectsAnswer(t: Tables, r: GenerativeRun, a: Id) {
    Reported(t, r, a) && t.Cases(r.inputs.dataset)[t.attempts[a].key.caseId].supported
  }

  ghost predicate ExpectsNone(t: Tables, r: GenerativeRun, a: Id) {
    Reported(t, r, a) && !t.Cases(r.inputs.dataset)[t.attempts[a].key.caseId].supported
  }

  /** Judgment n is about this very result and rule, and its judge is the owner of the run, who still is an owner. */
  ghost predicate Counts(x: Text, t: Tables, r: GenerativeRun, a: Id, n: nat)
    requires Reported(t, r, a) && n < |t.world.judgments|
  {
    var j := t.world.judgments[n];
    && j.attempt == a && Some(j.digest) == t.attempts[a].digest && j.ruleDigest == x.ruleDigest(Rules(t, r, a))
    && j.judge == r.inputs.owner && j.judge in t.world.owners
  }

  ghost predicate Unjudged(x: Text, t: Tables, r: GenerativeRun, a: Id)
    requires Reported(t, r, a)
  {
    forall n: nat | n < |t.world.judgments| :: !Counts(x, t, r, a, n)
  }

  /** The verdict of the newest judgment that counts. */
  ghost predicate Judged(x: Text, t: Tables, r: GenerativeRun, a: Id, verdict: Verdict)
    requires Reported(t, r, a)
  {
    exists n: nat | n < |t.world.judgments| ::
      && Counts(x, t, r, a, n) && t.world.judgments[n].verdict == verdict
      && forall newer: nat | newer < n :: !Counts(x, t, r, a, newer)
  }

  ghost predicate Contains(text: string, word: string) {
    exists before, after :: text == before + word + after
  }

  /** Normalized, the answer contains every required proposition, of which there is one, and no forbidden one. */
  ghost predicate SaysRequired(x: Text, rule: Rule, answer: string) {
    && rule.required != []
    && (forall p | p in rule.required :: Contains(x.normalize(answer), x.normalize(p)))
    && (forall p | p in rule.forbidden :: !Contains(x.normalize(answer), x.normalize(p)))
  }

  /** An answer is due: it is given, and its newest judgment passes it or, without any, its text is as required. None is
      due: none is given, and its newest judgment, if any, passes that. */
  ghost predicate CorrectAttempt(x: Text, t: Tables, r: GenerativeRun, a: Id) {
    && Reported(t, r, a)
    && if ExpectsAnswer(t, r, a) then
         && Observes(t, r, a).status == Some(Answered)
         && (|| Judged(x, t, r, a, Passes)
             || (Unjudged(x, t, r, a) && SaysRequired(x, Rules(t, r, a), t.attempts[a].result.value.answer)))
       else
         && Observes(t, r, a).status == Some(Insufficient)
         && (Judged(x, t, r, a, Passes) || Unjudged(x, t, r, a))
  }

  /** The rule fits its case and can be decided: it expects an answer exactly when the case does, no proposition is blank;
      where an answer is due every evidence group is a nonempty part of the expected evidence, and the content is judged or
      can be read off the text. No judgment that would decide leaves the content unreviewed. */
  ghost predicate Decidable(x: Text, t: Tables, r: GenerativeRun, a: Id) {
    && Reported(t, r, a)
    && var rule, c := Rules(t, r, a), t.Cases(r.inputs.dataset)[t.attempts[a].key.caseId];
    && rule.version >= 1 && (rule.status == Answered <==> c.supported)
    && (forall p | p in rule.required || p in rule.forbidden :: x.normalize(p) != "")
    && if c.supported then
         && rule.groups != []
         && (forall group | group in rule.groups :: group != [] && forall e | e in group :: e in c.expected)
         && !Judged(x, t, r, a, Unreviewed) && (Unjudged(x, t, r, a) ==> rule.required != [])
       else
         Observes(t, r, a).status == Some(Insufficient) ==> !Judged(x, t, r, a, Unreviewed)
  }

  ghost predicate AbstainedRightly(t: Tables, r: GenerativeRun, a: Id) {
    ExpectsNone(t, r, a) && Observes(t, r, a).status == Some(Insufficient)
  }

  /** How many of the required evidence groups have a member the attempt selected. */
  ghost function GroupsServed(t: Tables, r: GenerativeRun, a: Id): nat
    requires Reported(t, r, a)
  {
    Count(Rules(t, r, a).groups, (group: seq<Id>) => exists e :: e in group && e in Observes(t, r, a).selected)
  }

  /** The shares of served groups, summed over the attempts that owe an answer. */
  ghost function ServedShares(t: Tables, r: GenerativeRun, rows: seq<Id>): real {
    if rows == [] then 0.0
    else
      var last := rows[|rows| - 1];
      ServedShares(t, r, rows[..|rows| - 1])
      + if ExpectsAnswer(t, r, last) && Rules(t, r, last).groups != [] then
          GroupsServed(t, r, last) as real / |Rules(t, r, last).groups| as real
        else 0.0
  }

  // ---------------------------------------------------------------- one attempt, as the verifier reads it

  lemma MentionedIsContained(text: string, word: string)
    ensures Mentions(text, word) <==> Contains(text, word)
  {
    if Mentions(text, word) {
      var i :| 0 <= i <= |text| && WordAt(text, i, word);
      assert text == text[..i] + word + text[i + |word|..];
    }
    if before, after :| text == before + word + after {
      assert WordAt(text, |before|, word);
    }
  }

  lemma RequiredIsSaid(x: Text, rule: Rule, answer: string)
    ensures ContentOk(x, rule, answer) <==> SaysRequired(x, rule, answer)
  {
    var text := x.normalize(answer);
    forall p
      ensures Mentions(text, x.normalize(p)) <==> Contains(text, x.normalize(p))
    {
      MentionedIsContained(text, x.normalize(p));
    }
  }

  predicate Fits(j: Judgment, owners: set<Id>, a: Id, digest: Option<string>, owner: Id, rule: string) {
    j.attempt == a && Some(j.digest) == digest && j.judge == owner && owner in owners && j.ruleDigest == rule
  }

  ghost predicate IsNewest(
    judgments: seq<Judgment>, owners: set<Id>, a: Id, digest: Option<string>, owner: Id, rule: string,
    found: Option<Verdict>)
  {
    if found == None then forall n | 0 <= n < |judgments| :: !Fits(judgments[n], owners, a, digest, owner, rule)
    else exists n | 0 <= n < |judgments| ::
           && Fits(judgments[n], owners, a, digest, owner, rule) && judgments[n].verdict == found.value
           && forall newer | 0 <= newer < n :: !Fits(judgments[newer], owners, a, digest, owner, rule)
  }

  /** The recursive search finds the newest judgment that fits. */
  lemma {:induction false} NewestFound(
    judgments: seq<Judgment>, owners: set<Id>, a: Id, digest: Option<string>, owner: Id, rule: string)
    ensures IsNewest(judgments, owners, a, digest, owner, rule, VerdictIn(judgments, owners, a, digest, owner, rule))
  {
    if judgments != [] && !Fits(judgments[0], owners, a, digest, owner, rule) {
      NewestFound(judgments[1..], owners, a, digest, owner, rule);
      var found := VerdictIn(judgments[1..], owners, a, digest, owner, rule);
      if found == None {
        forall n | 0 <= n < |judgments|
          ensures !Fits(judgments[n], owners, a, digest, owner, rule)
        {
          if n > 0 { assert judgments[n] == judgments[1..][n - 1]; }
        }
      } else {
        var n :| 0 <= n < |judgments[1..]| && Fits(judgments[1..][n], owners, a, digest, owner, rule)
                 && judgments[1..][n].verdict == found.value
                 && forall newer | 0 <= newer < n :: !Fits(judgments[1..][newer], owners, a, digest, owner, rule);
        assert judgments[n + 1] == judgments[1..][n];
        forall newer | 0 <= newer < n + 1
          ensures !Fits(judgments[newer], owners, a, digest, owner, rule)
        {
          if newer > 0 { assert judgments[newer] == judgments[1..][newer - 1]; }
        }
      }
    }
  }

  lemma AcceptableIsReported(x: Text, t: Tables, s: Subject, a: Id)
    requires Acceptable(x, t, s, a)
    ensures Reported(t, s.run, a) && RuleOf(t, s, a).Some?
    ensures Rules(t, s.run, a) == RuleOf(t, s, a).value && Observes(t, s.run, a) == ObservationOf(t, s, a)
    ensures ExpectsAnswer(t, s.run, a) <==> Positive(t, s, a)
  {
  }

  lemma VerdictMeans(x: Text, t: Tables, s: Subject, a: Id)
    requires Acceptable(x, t, s, a) && Reported(t, s.run, a)
    ensures VerdictOf(x, t, s, a) == None <==> Unjudged(x, t, s.run, a)
    ensures forall v :: VerdictOf(x, t, s, a) == Some(v) <==> Judged(x, t, s.run, a, v)
  {
    AcceptableIsReported(x, t, s, a);
    NewestFound(t.world.judgments, t.world.owners, a, t.attempts[a].digest, s.run.inputs.owner,
      x.ruleDigest(Rules(t, s.run, a)));
    NewestMeans(x, t, s.run, a, VerdictOf(x, t, s, a));
  }

  lemma NewestMeans(x: Text, t: Tables, r: GenerativeRun, a: Id, found: Option<Verdict>)
    requires Reported(t, r, a)
    requires IsNewest(t.world.judgments, t.world.owners, a, t.attempts[a].digest, r.inputs.owner,
               x.ruleDigest(Rules(t, r, a)), found)
    ensures found == None <==> Unjudged(x, t, r, a)
    ensures forall v :: found == Some(v) <==> Judged(x, t, r, a, v)
  {
    var rule, digest := x.ruleDigest(Rules(t, r, a)), t.attempts[a].digest;
    forall n: nat | n < |t.world.judgments|
      ensures Counts(x, t, r, a, n) <==> Fits(t.world.judgments[n], t.world.owners, a, digest, r.inputs.owner, rule)
    {
    }
    if found.Some? {
      var n: nat :| n < |t.world.judgments|
                    && Fits(t.world.judgments[n], t.world.owners, a, digest, r.inputs.owner, rule)
                    && t.world.judgments[n].verdict == found.value
                    && forall newer | 0 <= newer < n ::
                         !Fits(t.world.judgments[newer], t.world.owners, a, digest, r.inputs.owner, rule);
      assert Counts(x, t, r, a, n);
    }
  }

  lemma AcceptableIsDecidable(x: Text, t: Tables, s: Subject, a: Id)
    requires Acceptable(x, t, s, a)
    ensures Decidable(x, t, s.run, a)
  {
    AcceptableIsReported(x, t, s, a);
    VerdictMeans(x, t, s, a);
    var rule, c := Rules(t, s.run, a), CaseOf(t, s, a);
    PropositionsHold(x, rule.required, rule.forbidden);
    if c.supported { GroupsExpected(rule.groups, c.expected); }
  }

  lemma PropositionsHold(x: Text, required: seq<string>, forbidden: seq<string>)
    requires PropositionsValid(x, required + forbidden)
    ensures forall p | p in required || p in forbidden :: x.normalize(p) != ""
  {
    forall p | p in required || p in forbidden
      ensures x.normalize(p) != ""
    {
      assert p in required + forbidden;
      var i :| 0 <= i < |required + forbidden| && (required + forbidden)[i] == p;
    }
  }

  lemma GroupsExpected(groups: seq<seq<Id>>, expected: seq<Id>)
    requires GroupsValid(groups, expected)
    ensures forall group | group in groups :: group != [] && forall e | e in group :: e in expected
  {
    forall group, e | group in groups && e in group
      ensures e in expected
    {
      SubsetMember(group, expected, e);
    }
  }

  lemma MembersAreSubset(a: seq<Id>, b: seq<Id>)
    requires forall e | e in a :: e in b
    ensures Subset(a, b)
  {
  }

  lemma PermittedIsShown(s: Subject, c: Case, e: Id)
    requires Permitted(s, c, e)
    ensures MayShow(s, c, e)
  {
    var sources := s.run.inputs.snapshot.sources;
    var source :| source in sources && e in source.units && source.build in s.component.builds;
    var i :| 0 <= i < |sources| && sources[i] == source;
  }

  lemma AuditFound(t: Tables, s: Subject, o: Observation)
    requires Audited(t, s, o)
    ensures exists i | 0 <= i < |t.world.audits| :: MatchingAudit(s, o, t.world.audits[i])
  {
    var audit :| audit in t.world.audits && audit.execution == o.execution && audit.actor == s.run.inputs.owner
                 && audit.version == s.versionId && Some(audit.profile) == s.version.generation && audit.allowed
                 && audit.status == (if o.status == Some(Answered) then Succeeded else Allowed)
                 && SameElements(audit.evidence, o.selected);
    MembersAreSubset(o.selected, audit.evidence);
    MembersAreSubset(audit.evidence, o.selected);
    var i :| 0 <= i < |t.world.audits| && t.world.audits[i] == audit;
  }

  lemma CitedAgrees(x: Text, raw: RawResult, o: Observation)
    requires Cited(x, raw, o)
    ensures CitationsAgree(x, raw, o) && o.cited != [] && Subset(o.cited, o.selected)
  {
    var ids := CitedIds(raw.citations, |raw.citations|);
    forall e
      ensures e in ids <==> e in o.cited
    {
      CitedIdsAreUnion(raw.citations, |raw.citations|, e);
    }
    MembersAreSubset(ids, o.cited);
    MembersAreSubset(o.cited, ids);
    MembersAreSubset(ids, o.selected);
    MembersAreSubset(o.cited, o.selected);
    assert raw.citations[0].evidence[0] in raw.citations[0].evidence;
    assert CitedByClaim(raw.citations, raw.citations[0].evidence[0]);
  }

  lemma ExpectedIsValid(groups: seq<seq<Id>>, expected: seq<Id>)
    requires forall group | group in groups :: group != [] && forall e | e in group :: e in expected
    ensures GroupsValid(groups, expected)
  {
    forall i | 0 <= i < |groups|
      ensures groups[i] != [] && Subset(groups[i], expected)
    {
      assert groups[i] in groups;
      MembersAreSubset(groups[i], expected);
    }
  }

  lemma TrustworthyIsObserved(x: Text, t: Tables, s: Subject, a: Id)
    requires Trustworthy(x, t, s, a) && Decidable(x, t, s.run, a)
    ensures Holds(t, s, a) && Observed(t, s, a) && RawProof(x, t.attempts[a].result, RuleOf(t, s, a))
    ensures var o := ObservationOf(t, s, a);
            o.status == Some(Answered) ==> o.citationValid && o.cited != [] && Subset(o.cited, o.selected)
  {
    var raw := t.attempts[a].result.value;
    if raw.observation.value.status == Some(Answered) { CitedAgrees(x, raw, raw.observation.value); }
    var rule := Rules(t, s.run, a);
    forall i | 0 <= i < |rule.required + rule.forbidden|
      ensures |x.normalize((rule.required + rule.forbidden)[i])| > 0
    {
      var p := (rule.required + rule.forbidden)[i];
      assert p in rule.required || p in rule.forbidden;
    }
  }

  lemma DecidableIsJudgeable(x: Text, t: Tables, s: Subject, a: Id)
    requires Holds(t, s, a) && Observed(t, s, a) && Decidable(x, t, s.run, a)
    ensures Judgeable(x, t, s, a)
  {
    NewestFound(t.world.judgments, t.world.owners, a, t.attempts[a].digest, s.run.inputs.owner,
      x.ruleDigest(Rules(t, s.run, a)));
    NewestMeans(x, t, s.run, a, VerdictOf(x, t, s, a));
    if CaseOf(t, s, a).supported { ExpectedIsValid(Rules(t, s.run, a).groups, CaseOf(t, s, a).expected); }
  }

  lemma EvidenceMayShow(s: Subject, c: Case, o: Observation)
    requires forall e | e in o.retrieved || e in o.selected || e in o.cited :: Permitted(s, c, e)
    ensures forall i | 0 <= i < |o.retrieved + o.selected + o.cited| ::
              MayShow(s, c, (o.retrieved + o.selected + o.cited)[i])
  {
    var ids := o.retrieved + o.selected + o.cited;
    forall i | 0 <= i < |ids|
      ensures MayShow(s, c, ids[i])
    {
      assert ids[i] in o.retrieved || ids[i] in o.selected || ids[i] in o.cited;
      PermittedIsShown(s, c, ids[i]);
    }
  }

  /** The checks of the loop body pass exactly for trustworthy and decidable attempts. */
  lemma AcceptableExactWhen(x: Text, t: Tables, s: Subject, a: Id)
    ensures Acceptable(x, t, s, a) <==> Trustworthy(x, t, s, a) && Decidable(x, t, s.run, a)
  {
    if Acceptable(x, t, s, a) {
      AcceptableIsTrustworthy(x, t, s, a);
      AcceptableIsDecidable(x, t, s, a);
    }
    if Trustworthy(x, t, s, a) && Decidable(x, t, s.run, a) {
      TrustworthyIsObserved(x, t, s, a);
      DecidableIsJudgeable(x, t, s, a);
      EvidenceMayShow(s, CaseOf(t, s, a), ObservationOf(t, s, a));
      AuditFound(t, s, ObservationOf(t, s, a));
    }
  }

  lemma {:induction false} MatchedIsServed(groups: seq<seq<Id>>, selected: seq<Id>, n: nat)
    requires n <= |groups|
    ensures Matched(groups, selected, n) == Count(groups[..n], (group: seq<Id>) => exists e :: e in group && e in selected)
  {
    var served := (group: seq<Id>) => exists e :: e in group && e in selected;
    if n == 0 {
      CountNone(served);
    } else {
      MatchedIsServed(groups, selected, n - 1);
      CountSnoc(groups[..n - 1], groups[n - 1], served);
      assert groups[..n] == groups[..n - 1] + [groups[n - 1]];
      if e :| e in groups[n - 1] && e in selected {
        var i :| 0 <= i < |groups[n - 1]| && groups[n - 1][i] == e;
      }
    }
  }

  ghost predicate TallyMeasures(x: Text, t: Tables, r: GenerativeRun, rows: seq<Id>, f: Tally) {
    && f.positives == Count(rows, (a: Id) => ExpectsAnswer(t, r, a))
    && f.negatives == Count(rows, (a: Id) => ExpectsNone(t, r, a))
    && f.correct == Count(rows, (a: Id) => CorrectAttempt(x, t, r, a))
    && f.abstained == Count(rows, (a: Id) => AbstainedRightly(t, r, a))
    && f.covered == ServedShares(t, r, rows)
  }

  function One(b: bool): nat { if b then 1 else 0 }

  /** What one attempt adds to each counter. */
  lemma ContributionMeasures(x: Text, t: Tables, s: Subject, a: Id)
    requires Acceptable(x, t, s, a)
    ensures var c, r := Contribution(x, t, s, a), s.run;
            && c.positives == One(ExpectsAnswer(t, r, a)) && c.negatives == One(ExpectsNone(t, r, a))
            && c.correct == One(CorrectAttempt(x, t, r, a)) && c.abstained == One(AbstainedRightly(t, r, a))
  {
    AcceptableIsReported(x, t, s, a);
    VerdictMeans(x, t, s, a);
    RequiredIsSaid(x, RuleOf(t, s, a).value, t.attempts[a].result.value.answer);
  }

  lemma ContributionServes(x: Text, t: Tables, s: Subject, a: Id)
    requires Acceptable(x, t, s, a)
    ensures Contribution(x, t, s, a).covered == ServedShares(t, s.run, [a])
  {
    AcceptableIsReported(x, t, s, a);
    var groups, selected := Rules(t, s.run, a).groups, Observes(t, s.run, a).selected;
    MatchedIsServed(groups, selected, |groups|);
    assert groups[..|groups|] == groups;
  }

  // ---------------------------------------------------------------- all attempts

  lemma {:induction false} ServedSnoc(t: Tables, r: GenerativeRun, front: seq<Id>, last: Id)
    ensures ServedShares(t, r, front + [last]) == ServedShares(t, r, front) + ServedShares(t, r, [last])
  {
    assert (front + [last])[..|front|] == front;
    assert [last][..0] == [];
  }

  lemma {:induction false} TallyNone(x: Text, t: Tables, r: GenerativeRun)
    ensures TallyMeasures(x, t, r, [], Tally(0, 0, 0, 0, 0.0))
  {
    CountNone((a: Id) => ExpectsAnswer(t, r, a));
    CountNone((a: Id) => ExpectsNone(t, r, a));
    CountNone((a: Id) => CorrectAttempt(x, t, r, a));
    CountNone((a: Id) => AbstainedRightly(t, r, a));
  }

  lemma {:induction false} TallySnoc(x: Text, t: Tables, s: Subject, front: seq<Id>, last: Id, f: Tally)
    requires TallyMeasures(x, t, s.run, front, f) && Acceptable(x, t, s, last)
    ensures TallyMeasures(x, t, s.run, front + [last], Add(f, Contribution(x, t, s, last)))
  {
    var r := s.run;
    CountSnoc(front, last, (a: Id) => ExpectsAnswer(t, r, a));
    CountSnoc(front, last, (a: Id) => ExpectsNone(t, r, a));
    CountSnoc(front, last, (a: Id) => CorrectAttempt(x, t, r, a));
    CountSnoc(front, last, (a: Id) => AbstainedRightly(t, r, a));
    ContributionMeasures(x, t, s, last);
    ContributionServes(x, t, s, last);
    ServedSnoc(t, r, front, last);
  }

  lemma {:induction false} FoldMeasures(x: Text, t: Tables, s: Subject, rows: seq<Id>)
    requires AllAcceptable(x, t, s, rows)
    ensures TallyMeasures(x, t, s.run, rows, Fold(x, t, s, rows))
    decreases |rows|
  {
    if rows == [] {
      TallyNone(x, t, s.run);
    } else {
      var front, last := rows[..|rows| - 1], rows[|rows| - 1];
      assert rows == front + [last];
      FoldMeasures(x, t, s, front);
      FoldSnoc(x, t, s, front, last);
      TallySnoc(x, t, s, front, last, Fold(x, t, s, front));
    }
  }

  // ---------------------------------------------------------------- main result

  /** The values are the durations of the attempts, in the order of the rows. */
  ghost predicate DurationsOf(t: Tables, r: GenerativeRun, rows: seq<Id>, values: seq<real>) {
    && |values| == |rows|
    && forall i | 0 <= i < |rows| :: Reported(t, r, rows[i]) && values[i] == Observes(t, r, rows[i]).duration
  }

  ghost predicate IsP95(p95: real, t: Tables, r: GenerativeRun, rows: seq<Id>) {
    exists values :: DurationsOf(t, r, rows, values) && Percentile.IsQuantile(p95, values, 0.95)
  }

  /** Each metric counts what it is called, over these attempts of the run. */
  ghost predicate Measured(x: Text, t: Tables, r: GenerativeRun, rows: seq<Id>, m: Metrics) {
    && m.count == |rows|
    && m.positives == Count(rows, (a: Id) => ExpectsAnswer(t, r, a))
    && m.negatives == Count(rows, (a: Id) => ExpectsNone(t, r, a))
    && IsRatio(m.correctness, Count(rows, (a: Id) => CorrectAttempt(x, t, r, a)) as real, m.count as real)
    && IsRatio(m.abstention, Count(rows, (a: Id) => AbstainedRightly(t, r, a)) as real, m.negatives as real)
    && IsRatio(m.coverage, ServedShares(t, r, rows), m.positives as real)
    && IsP95(m.p95, t, r, rows)
  }

  ghost predicate WithinLimits(m: Metrics, p: Policy) {
    && m.coverage >= p.minCoverage && m.correctness >= p.minCorrectness && m.abstention >= p.minAbstention
    && m.p95 <= p.maxP95
  }

  lemma {:induction false} LatenciesAreDurations(x: Text, t: Tables, s: Subject, rows: seq<Id>)
    requires AllAcceptable(x, t, s, rows)
    ensures DurationsOf(t, s.run, rows, Latencies(x, t, s, rows))
    decreases |rows|
  {
    if rows != [] {
      var front, last := rows[..|rows| - 1], rows[|rows| - 1];
      assert rows == front + [last];
      FoldSnoc(x, t, s, front, last);
      LatenciesAreDurations(x, t, s, front);
      AcceptableIsReported(x, t, s, last);
    }
  }

  lemma QuantileOf(values: seq<real>, p95: real, t: Tables, r: GenerativeRun, rows: seq<Id>)
    requires DurationsOf(t, r, rows, values) && Percentile.IsQuantile(p95, values, 0.95)
    ensures IsP95(p95, t, r, rows)
  {
  }

  lemma {:induction false} MetricsMeasure(x: Text, t: Tables, s: Subject, rows: seq<Id>)
    requires AllAcceptable(x, t, s, rows) && rows != []
    requires Fold(x, t, s, rows).positives > 0 && Fold(x, t, s, rows).negatives > 0
    ensures Measured(x, t, s.run, rows, MetricsOf(Fold(x, t, s, rows), Latencies(x, t, s, rows)))
  {
    var f, latencies := Fold(x, t, s, rows), Latencies(x, t, s, rows);
    FoldMeasures(x, t, s, rows);
    QuotientIsRatio(f.covered, f.positives as real);
    CountQuotientIsRatio(f.correct, |latencies|);
    CountQuotientIsRatio(f.abstained, f.negatives);
    LatenciesAreDurations(x, t, s, rows);
    Percentile.ContInterpolates(latencies, 0.95);
    QuantileOf(latencies, Percentile.Cont(latencies, 0.95), t, s.run, rows);
  }

  lemma VerifiedWithinLimits(x: Text, t: Tables, run: Id, version: Id, rows: seq<Id>)
    requires Verify(x, t, run, version, rows).Some?
    ensures run in t.runs && t.runs[run].inputs.policy in t.policies
    ensures t.policies[t.runs[run].inputs.policy].owner == t.runs[run].inputs.owner
    ensures WithinLimits(Verify(x, t, run, version, rows).value, t.policies[t.runs[run].inputs.policy])
  {
  }

  /** When the checks before and inside the loop pass, the verifier succeeds exactly when the measured metrics are within
      the limits. */
  lemma VerifiesExactlyWhen(x: Text, t: Tables, run: Id, version: Id, rows: seq<Id>)
    requires SubjectOf(x, t, run, version).Some? && rows != []
    requires var s := SubjectOf(x, t, run, version).value;
             && AllAcceptable(x, t, s, rows) && |rows| == |t.Cases(s.run.inputs.dataset)| * s.run.inputs.repetitions
             && Count(rows, (a: Id) => ExpectsAnswer(t, s.run, a)) > 0 && Count(rows, (a: Id) => ExpectsNone(t, s.run, a)) > 0
    ensures var s := SubjectOf(x, t, run, version).value;
            exists m :: Measured(x, t, s.run, rows, m) && (Verify(x, t, run, version, rows).Some? <==> WithinLimits(m, s.policy))
  {
    var s := SubjectOf(x, t, run, version).value;
    FoldMeasures(x, t, s, rows);
    MetricsMeasure(x, t, s, rows);
    var m := MetricsOf(Fold(x, t, s, rows), Latencies(x, t, s, rows));
    assert Measured(x, t, s.run, rows, m);
  }

  /** A verified candidate: correctness is the share of correct attempts, abstention the share of attempts that owe no
      answer and give none, coverage the average share of served evidence groups, p95 the percentile of the durations,
      and all four meet the limits of the policy of the run, which belongs to its owner. */
  lemma VerifiedMeasures(x: Text, t: Tables, run: Id, version: Id, rows: seq<Id>)
    requires Verify(x, t, run, version, rows).Some?
    ensures run in t.runs && t.runs[run].inputs.policy in t.policies
    ensures t.policies[t.runs[run].inputs.policy].owner == t.runs[run].inputs.owner
    ensures forall i | 0 <= i < |rows| :: Decidable(x, t, t.runs[run], rows[i])
    ensures Measured(x, t, t.runs[run], rows, Verify(x, t, run, version, rows).value)
    ensures WithinLimits(Verify(x, t, run, version, rows).value, t.policies[t.runs[run].inputs.policy])
  {
    var s := VerifyFacts(x, t, run, version, rows);
    forall i | 0 <= i < |rows|
      ensures Decidable(x, t, s.run, rows[i])
    {
      AcceptableIsDecidable(x, t, s, rows[i]);
    }
    MetricsMeasure(x, t, s, rows);
    VerifiedWithinLimits(x, t, run, version, rows);
  }
}
