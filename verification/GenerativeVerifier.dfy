/**
 The verifier of a generative candidate in its current form: the loop over the
 latest attempt of every case and repetition, the raw-proof check of stored
 claims and citations, and the metrics folded from them. Text normalization and
 digests are parameters.
 */
module GenerativeVerifier {
  import opened Options
  import opened GenerativeTables
  import Percentile

  /** rag_normalize_proposition, btrim, and the digests of canonical rules. */
  datatype Text = Text(
    normalize: string -> string, trim: string -> string, ruleDigest: Rule -> string,
    rulesDigest: map<Id, Rule> -> string)

  /** What one verification is about: run, policy, version and the component the snapshot froze for it. */
  datatype Subject = Subject(
    runId: Id, run: GenerativeRun, policy: Policy, versionId: Id, version: VersionRow, component: Component)

  datatype Metrics = Metrics(
    coverage: real, positives: nat, correctness: real, count: nat, abstention: real, negatives: nat, p95: real)

  // ---------------------------------------------------------------- raw proof

  predicate Subset(a: seq<Id>, b: seq<Id>) {
    forall i | 0 <= i < |a| :: a[i] in b
  }

  /** The concatenated evidence of the first n claims. */
  function CitedIds(citations: seq<Citation>, n: nat): seq<Id>
    requires n <= |citations|
  {
    if n == 0 then [] else CitedIds(citations, n - 1) + citations[n - 1].evidence
  }

  predicate PropositionsValid(x: Text, propositions: seq<string>) {
    forall i | 0 <= i < |propositions| :: |x.normalize(propositions[i])| > 0
  }

  predicate ClaimsValid(citations: seq<Citation>) {
    forall i | 0 <= i < |citations| :: citations[i].claim == i && citations[i].evidence != []
  }

  predicate CitationsAgree(x: Text, result: RawResult, o: Observation) {
    && |x.trim(result.answer)| > 0 && result.citations != [] && ClaimsValid(result.citations)
    && var ids := CitedIds(result.citations, |result.citations|);
    && Subset(ids, o.cited) && Subset(o.cited, ids) && Subset(ids, o.selected)
  }

  /** rag_require_generative_raw_proof. */
  predicate RawProof(x: Text, result: Option<RawResult>, rule: Option<Rule>) {
    && rule.Some? && PropositionsValid(x, rule.value.required + rule.value.forbidden)
    && (result.Some? && result.value.observation.Some? && result.value.observation.value.status == Some(Answered) ==>
          CitationsAgree(x, result.value, result.value.observation.value))
  }

  /** The two loops of the raw-proof check, with the running claim number and the accumulated ids. */
  method CheckRawProof(x: Text, result: Option<RawResult>, rule: Option<Rule>) returns (ok: bool)
    ensures ok == RawProof(x, result, rule)
  {
    if rule == None { return false; }
    var propositions := rule.value.required + rule.value.forbidden;
    for i := 0 to |propositions|
      invariant forall j | 0 <= j < i :: |x.normalize(propositions[j])| > 0
    {
      if |x.normalize(propositions[i])| == 0 { return false; }
    }
    if result == None || result.value.observation == None { return true; }
    var raw, o := result.value, result.value.observation.value;
    if o.status != Some(Answered) { return true; }
    if |x.trim(raw.answer)| == 0 || raw.citations == [] { return false; }
    var ordinal, ids := 0, [];
    for i := 0 to |raw.citations|
      invariant ordinal == i && ids == CitedIds(raw.citations, i)
      invariant forall j | 0 <= j < i :: raw.citations[j].claim == j && raw.citations[j].evidence != []
    {
      var item := raw.citations[i];
      if item.claim != ordinal || item.evidence == [] { return false; }
      ids := ids + item.evidence;
      ordinal := ordinal + 1;
    }
    return Subset(ids, o.cited) && Subset(o.cited, ids) && Subset(ids, o.selected);
  }

  // ---------------------------------------------------------------- one attempt

  predicate Holds(t: Tables, s: Subject, a: Id) {
    a in t.attempts && t.attempts[a].key.caseId in t.Cases(s.run.inputs.dataset)
  }

  function CaseOf(t: Tables, s: Subject, a: Id): Case
    requires Holds(t, s, a)
  {
    t.Cases(s.run.inputs.dataset)[t.attempts[a].key.caseId]
  }

  function RuleOf(t: Tables, s: Subject, a: Id): Option<Rule>
    requires a in t.attempts
  {
    var id := t.attempts[a].key.caseId;
    if id in s.run.inputs.rules then Some(s.run.inputs.rules[id]) else None
  }

  predicate Observed(t: Tables, s: Subject, a: Id)
    requires a in t.attempts
  {
    var attempt := t.attempts[a];
    && attempt.status == Done && RuleOf(t, s, a).Some? && RuleOf(t, s, a).value.version >= 1
    && attempt.result.Some? && attempt.result.value.observation.Some?
    && var o := attempt.result.value.observation.value;
    && o.status.Some? && o.failureStage == None && o.error == None && o.execution == attempt.key.execution
    && attempt.key.execution in t.world.executions
    && var e := t.world.executions[attempt.key.execution];
    && e.attempt == Some(a) && e.actor == s.run.inputs.owner && e.completed
    && o.exposures == 0 && o.duration >= 0.0
  }

  function ObservationOf(t: Tables, s: Subject, a: Id): Observation
    requires a in t.attempts && Observed(t, s, a)
  {
    t.attempts[a].result.value.observation.value
  }

  predicate MatchingAudit(s: Subject, o: Observation, audit: Audit) {
    && audit.execution == o.execution && audit.actor == s.run.inputs.owner && audit.version == s.versionId
    && Some(audit.profile) == s.version.generation && audit.allowed
    && audit.status == (if o.status == Some(Answered) then Succeeded else Allowed)
    && Subset(o.selected, audit.evidence) && Subset(audit.evidence, o.selected)
  }

  predicate InSnapshot(s: Subject, e: Id) {
    exists i | 0 <= i < |s.run.inputs.snapshot.sources| ::
      && e in s.run.inputs.snapshot.sources[i].units
      && s.run.inputs.snapshot.sources[i].build in s.component.builds
  }

  predicate MayShow(s: Subject, c: Case, e: Id) {
    e in c.authorized && e !in c.forbidden && InSnapshot(s, e)
  }

  /** The newest judgment of the run's owner on this result under this rule. */
  function VerdictIn(judgments: seq<Judgment>, owners: set<Id>, a: Id, digest: Option<string>, owner: Id, rule: string)
    : Option<Verdict>
  {
    if judgments == [] then None
    else
      var j := judgments[0];
      if j.attempt == a && Some(j.digest) == digest && j.judge == owner && owner in owners && j.ruleDigest == rule
      then Some(j.verdict)
      else VerdictIn(judgments[1..], owners, a, digest, owner, rule)
  }

  function VerdictOf(x: Text, t: Tables, s: Subject, a: Id): Option<Verdict>
    requires a in t.attempts && RuleOf(t, s, a).Some?
  {
    VerdictIn(t.world.judgments, t.world.owners, a, t.attempts[a].digest, s.run.inputs.owner,
      x.ruleDigest(RuleOf(t, s, a).value))
  }

  predicate GroupsValid(groups: seq<seq<Id>>, expected: seq<Id>) {
    forall i | 0 <= i < |groups| :: groups[i] != [] && Subset(groups[i], expected)
  }

  /** The judgment neither leaves the content unreviewed nor judges it against an empty rule. */
  predicate Judgeable(x: Text, t: Tables, s: Subject, a: Id)
    requires Holds(t, s, a) && Observed(t, s, a)
  {
    var rule, verdict := RuleOf(t, s, a).value, VerdictOf(x, t, s, a);
    if rule.status == Insufficient then
      ObservationOf(t, s, a).status == Some(Insufficient) ==> verdict != Some(Unreviewed)
    else
      && rule.groups != [] && GroupsValid(rule.groups, CaseOf(t, s, a).expected)
      && verdict != Some(Unreviewed) && (verdict == None ==> rule.required != [])
  }

  /** No check of the loop body raises for this attempt. */
  predicate Acceptable(x: Text, t: Tables, s: Subject, a: Id) {
    && Holds(t, s, a) && RawProof(x, t.attempts[a].result, RuleOf(t, s, a)) && Observed(t, s, a)
    && var o, c, rule := ObservationOf(t, s, a), CaseOf(t, s, a), RuleOf(t, s, a).value;
    && (exists i | 0 <= i < |t.world.audits| :: MatchingAudit(s, o, t.world.audits[i]))
    && (forall i | 0 <= i < |o.retrieved + o.selected + o.cited| :: MayShow(s, c, (o.retrieved + o.selected + o.cited)[i]))
    && (o.status == Some(Answered) ==> o.citationValid && o.cited != [] && Subset(o.cited, o.selected))
    && rule.status == (if c.supported then Answered else Insufficient)
    && Judgeable(x, t, s, a)
  }

  // ---------------------------------------------------------------- the folded tallies

  datatype Tally = Tally(positives: nat, negatives: nat, correct: nat, abstained: nat, covered: real)

  function Add(a: Tally, b: Tally): Tally {
    Tally(a.positives + b.positives, a.negatives + b.negatives, a.correct + b.correct, a.abstained + b.abstained,
      a.covered + b.covered)
  }

  predicate GroupMatched(group: seq<Id>, selected: seq<Id>) {
    exists i | 0 <= i < |group| :: group[i] in selected
  }

  function Matched(groups: seq<seq<Id>>, selected: seq<Id>, n: nat): nat
    requires n <= |groups|
  {
    if n == 0 then 0 else Matched(groups, selected, n - 1) + if GroupMatched(groups[n - 1], selected) then 1 else 0
  }

  predicate WordAt(text: string, i: int, word: string) {
    0 <= i <= |text| - |word| && text[i..i + |word|] == word
  }

  predicate Mentions(text: string, word: string) {
    exists i | 0 <= i <= |text| :: WordAt(text, i, word)
  }

  /** Every required proposition occurs in the normalized answer and no forbidden one does. */
  predicate ContentOk(x: Text, rule: Rule, answer: string) {
    && rule.required != []
    && (forall i | 0 <= i < |rule.required| :: Mentions(x.normalize(answer), x.normalize(rule.required[i])))
    && (forall i | 0 <= i < |rule.forbidden| :: !Mentions(x.normalize(answer), x.normalize(rule.forbidden[i])))
  }

  predicate Positive(t: Tables, s: Subject, a: Id)
    requires a in t.attempts && RuleOf(t, s, a).Some?
  {
    RuleOf(t, s, a).value.status == Answered
  }

  function Contribution(x: Text, t: Tables, s: Subject, a: Id): Tally
    requires Acceptable(x, t, s, a)
  {
    var rule, o, verdict := RuleOf(t, s, a).value, ObservationOf(t, s, a), VerdictOf(x, t, s, a);
    if !Positive(t, s, a) then
      var abstained := if o.status == Some(Insufficient) then 1 else 0;
      var correct := if abstained == 1 && (verdict == None || verdict == Some(Passes)) then 1 else 0;
      Tally(0, 1, correct, abstained, 0.0)
    else
      var content := if verdict == None then ContentOk(x, rule, t.attempts[a].result.value.answer)
                     else verdict == Some(Passes);
      Tally(1, 0, if content && o.status == Some(Answered) then 1 else 0, 0,
        Matched(rule.groups, o.selected, |rule.groups|) as real / |rule.groups| as real)
  }

  predicate AllAcceptable(x: Text, t: Tables, s: Subject, rows: seq<Id>) {
    forall i | 0 <= i < |rows| :: Acceptable(x, t, s, rows[i])
  }

  function Fold(x: Text, t: Tables, s: Subject, rows: seq<Id>): Tally
    requires AllAcceptable(x, t, s, rows)
  {
    if rows == [] then Tally(0, 0, 0, 0, 0.0)
    else Add(Fold(x, t, s, rows[..|rows| - 1]), Contribution(x, t, s, rows[|rows| - 1]))
  }

  function Latencies(x: Text, t: Tables, s: Subject, rows: seq<Id>): (r: seq<real>)
    requires AllAcceptable(x, t, s, rows)
    ensures |r| == |rows|
  {
    if rows == [] then []
    else Latencies(x, t, s, rows[..|rows| - 1]) + [ObservationOf(t, s, rows[|rows| - 1]).duration]
  }

  // ---------------------------------------------------------------- the whole verification

  function FindComponent(candidates: seq<Component>, version: Id): Option<Component> {
    if candidates == [] then None
    else if candidates[0].version == version then Some(candidates[0])
    else FindComponent(candidates[1..], version)
  }

  predicate PolicyValid(p: Policy) {
    && 0.0 <= p.minCoverage <= 1.0 && 0.0 <= p.minCorrectness <= 1.0 && 0.0 <= p.minAbstention <= 1.0
    && 0.0 <= p.maxP95
  }

  predicate ProfilesBound(c: Component, v: VersionRow) {
    && v.generation.Some? && (exists i | 0 <= i < |c.profiles| :: c.profiles[i] == Profile(v.generation.value, Generation))
    && (exists i | 0 <= i < |c.profiles| :: c.profiles[i].id == v.indexing)
    && (exists i | 0 <= i < |c.profiles| :: c.profiles[i].id == v.retrieval)
    && c.answerPolicy == v.answerPolicy
  }

  /** The checks before the loop. */
  function SubjectOf(x: Text, t: Tables, run: Id, version: Id): Option<Subject> {
    if run !in t.runs || version !in t.world.versions || t.runs[run].inputs.policy !in t.policies then None
    else
      var r, v := t.runs[run], t.world.versions[version];
      var p, c := t.policies[r.inputs.policy], FindComponent(r.inputs.snapshot.candidates, version);
      if r.status == Completed && p.owner == r.inputs.owner && v.generation.Some? && PolicyValid(p)
         && r.inputs.rulesDigest == x.rulesDigest(r.inputs.rules) && c.Some? && ProfilesBound(c.value, v)
      then Some(Subject(run, r, p, version, v, c.value))
      else None
  }

  function ExpectedCount(t: Tables, s: Subject): int {
    |t.Cases(s.run.inputs.dataset)| * s.run.inputs.repetitions
  }

  predicate MeetsPolicy(m: Metrics, p: Policy) {
    m.coverage >= p.minCoverage && m.correctness >= p.minCorrectness && m.abstention >= p.minAbstention
    && m.p95 <= p.maxP95
  }

  function MetricsOf(tally: Tally, latencies: seq<real>): Metrics
    requires tally.positives > 0 && tally.negatives > 0 && latencies != []
  {
    Metrics(tally.covered / tally.positives as real, tally.positives,
      tally.correct as real / |latencies| as real, |latencies|,
      tally.abstained as real / tally.negatives as real, tally.negatives, Percentile.Cont(latencies, 0.95))
  }

  /** rag_verify_generative_candidate on the rows its query returns: the metrics, None when it raises. */
  function Verify(x: Text, t: Tables, run: Id, version: Id, rows: seq<Id>): Option<Metrics> {
    var subject := SubjectOf(x, t, run, version);
    if subject == None || !AllAcceptable(x, t, subject.value, rows) then None
    else
      var s := subject.value;
      var tally := Fold(x, t, s, rows);
      if |rows| != ExpectedCount(t, s) || tally.positives == 0 || tally.negatives == 0 || rows == [] then None
      else
        var m := MetricsOf(tally, Latencies(x, t, s, rows));
        if MeetsPolicy(m, s.policy) then Some(m) else None
  }

  // ---------------------------------------------------------------- the loops

  method CheckEvidence(t: Tables, s: Subject, a: Id) returns (ok: bool)
    requires Holds(t, s, a) && Observed(t, s, a)
    ensures var o := ObservationOf(t, s, a);
            ok == forall i | 0 <= i < |o.retrieved + o.selected + o.cited| ::
                    MayShow(s, CaseOf(t, s, a), (o.retrieved + o.selected + o.cited)[i])
  {
    var o := ObservationOf(t, s, a);
    var ids := o.retrieved + o.selected + o.cited;
    for i := 0 to |ids|
      invariant forall j | 0 <= j < i :: MayShow(s, CaseOf(t, s, a), ids[j])
    {
      if !MayShow(s, CaseOf(t, s, a), ids[i]) { return false; }
    }
    return true;
  }

  method CheckAttempt(x: Text, t: Tables, s: Subject, a: Id) returns (ok: bool)
    ensures ok == Acceptable(x, t, s, a)
  {
    if !Holds(t, s, a) { return false; }
    ok := CheckRawProof(x, t.attempts[a].result, RuleOf(t, s, a));
    if !ok || !Observed(t, s, a) { return false; }
    var o, c, rule := ObservationOf(t, s, a), CaseOf(t, s, a), RuleOf(t, s, a).value;
    if !exists i | 0 <= i < |t.world.audits| :: MatchingAudit(s, o, t.world.audits[i]) { return false; }
    ok := CheckEvidence(t, s, a);
    if !ok { return false; }
    if o.status == Some(Answered) && (!o.citationValid || o.cited == [] || !Subset(o.cited, o.selected)) { return false; }
    if rule.status != (if c.supported then Answered else Insufficient) { return false; }
    return Judgeable(x, t, s, a);
  }

  /** The loop over the required evidence groups of a positive case. */
  method CountMatched(groups: seq<seq<Id>>, selected: seq<Id>) returns (matched: nat)
    ensures matched == Matched(groups, selected, |groups|)
  {
    matched := 0;
    for i := 0 to |groups|
      invariant matched == Matched(groups, selected, i)
    {
      if GroupMatched(groups[i], selected) { matched := matched + 1; }
    }
  }

  /** The two loops over the propositions of a rule. */
  method CheckContent(x: Text, rule: Rule, answer: string) returns (ok: bool)
    ensures ok == ContentOk(x, rule, answer)
  {
    var text := x.normalize(answer);
    ok := rule.required != [];
    for i := 0 to |rule.required|
      invariant ok == (rule.required != [] && forall j | 0 <= j < i :: Mentions(text, x.normalize(rule.required[j])))
    {
      ok := ok && Mentions(text, x.normalize(rule.required[i]));
    }
    for i := 0 to |rule.forbidden|
      invariant ok == (rule.required != []
                       && (forall j | 0 <= j < |rule.required| :: Mentions(text, x.normalize(rule.required[j])))
                       && forall j | 0 <= j < i :: !Mentions(text, x.normalize(rule.forbidden[j])))
    {
      ok := ok && !Mentions(text, x.normalize(rule.forbidden[i]));
    }
  }

  method Contribute(x: Text, t: Tables, s: Subject, a: Id, before: Tally) returns (after: Tally)
    requires Acceptable(x, t, s, a)
    ensures after == Add(before, Contribution(x, t, s, a))
  {
    var rule, o, verdict := RuleOf(t, s, a).value, ObservationOf(t, s, a), VerdictOf(x, t, s, a);
    after := before;
    if rule.status == Insufficient {
      after := after.(negatives := after.negatives + 1);
      if o.status == Some(Insufficient) {
        after := after.(abstained := after.abstained + 1);
        if verdict == None || verdict == Some(Passes) { after := after.(correct := after.correct + 1); }
      }
    } else {
      after := after.(positives := after.positives + 1);
      var matched := CountMatched(rule.groups, o.selected);
      after := after.(covered := after.covered + matched as real / |rule.groups| as real);
      var content;
      if verdict == None {
        content := CheckContent(x, rule, t.attempts[a].result.value.answer);
      } else {
        content := verdict == Some(Passes);
      }
      if content && o.status == Some(Answered) { after := after.(correct := after.correct + 1); }
    }
  }

  lemma FoldNext(x: Text, t: Tables, s: Subject, rows: seq<Id>, i: nat)
    requires i < |rows| && AllAcceptable(x, t, s, rows[..i]) && Acceptable(x, t, s, rows[i])
    ensures AllAcceptable(x, t, s, rows[..i + 1])
    ensures Fold(x, t, s, rows[..i + 1]) == Add(Fold(x, t, s, rows[..i]), Contribution(x, t, s, rows[i]))
    ensures Latencies(x, t, s, rows[..i + 1]) == Latencies(x, t, s, rows[..i]) + [ObservationOf(t, s, rows[i]).duration]
  {
    assert rows[..i + 1][..i] == rows[..i];
  }

  lemma OneUnacceptable(x: Text, t: Tables, s: Subject, rows: seq<Id>, i: nat)
    requires i < |rows| && !Acceptable(x, t, s, rows[i])
    ensures !AllAcceptable(x, t, s, rows)
  {
  }

  /** The verifier loop. */
  method VerifyCandidate(x: Text, t: Tables, run: Id, version: Id, rows: seq<Id>) returns (metrics: Option<Metrics>)
    ensures metrics == Verify(x, t, run, version, rows)
  {
    var subject := SubjectOf(x, t, run, version);
    if subject == None { return None; }
    var s := subject.value;
    var actual, tally, latencies := 0, Tally(0, 0, 0, 0, 0.0), [];
    for i := 0 to |rows|
      invariant AllAcceptable(x, t, s, rows[..i])
      invariant actual == i && tally == Fold(x, t, s, rows[..i]) && latencies == Latencies(x, t, s, rows[..i])
    {
      actual := actual + 1;
      var ok := CheckAttempt(x, t, s, rows[i]);
      if !ok {
        OneUnacceptable(x, t, s, rows, i);
        return None;
      }
      FoldNext(x, t, s, rows, i);
      tally := Contribute(x, t, s, rows[i], tally);
      latencies := latencies + [ObservationOf(t, s, rows[i]).duration];
    }
    assert rows[..|rows|] == rows;
    if actual != ExpectedCount(t, s) || tally.positives == 0 || tally.negatives == 0 || latencies == [] { return None; }
    var m := MetricsOf(tally, latencies);
    if !MeetsPolicy(m, s.policy) { return None; }
    return Some(m);
  }

  // ---------------------------------------------------------------- acceptances

  datatype Acceptance = Acceptance(
    run: Id, version: Id, policy: Id, profile: Id, rulesDigest: string, snapshotDigest: string, metrics: Metrics)

  /** The supplied row names the policy, profile and digests of its run and version. */
  predicate BindingMatches(t: Tables, a: Acceptance) {
    && a.run in t.runs && a.version in t.world.versions
    && a.policy == t.runs[a.run].inputs.policy && Some(a.profile) == t.world.versions[a.version].generation
    && a.rulesDigest == t.runs[a.run].inputs.rulesDigest && a.snapshotDigest == t.runs[a.run].inputs.snapshotDigest
  }

  /** rag_generative_acceptance_guard: the row to store, None when it raises. Supplied metrics are overwritten. */
  method GuardAcceptance(x: Text, t: Tables, supplied: Acceptance, rows: seq<Id>) returns (stored: Option<Acceptance>)
    ensures stored.Some? <==> BindingMatches(t, supplied) && Verify(x, t, supplied.run, supplied.version, rows).Some?
    ensures stored.Some? ==>
              && Some(stored.value.metrics) == Verify(x, t, supplied.run, supplied.version, rows)
              && stored.value.(metrics := supplied.metrics) == supplied
  {
    if !BindingMatches(t, supplied) { return None; }
    var metrics := VerifyCandidate(x, t, supplied.run, supplied.version, rows);
    if metrics == None { return None; }
    return Some(supplied.(metrics := metrics.value));
  }
}
