/**
 Runs and attempts of a generative evaluation, the guards on their rows with
 the cancellation rules, and transactions. The check that a cancellation
 includes every attempt is deferred: it runs at `Commit` for each run whose
 status was set to cancelled.
 */
module GenerativeTables {
  import opened Options

  type Id = nat
  type Time = int

  // ---------------------------------------------------------------- frozen inputs

  datatype AnswerStatus = Answered | Insufficient

  /** The columns of a dataset case that a generative evaluation reads. */
  datatype Case = Case(expected: seq<Id>, authorized: seq<Id>, forbidden: seq<Id>, supported: bool)

  datatype Rule = Rule(
    version: int, status: AnswerStatus, required: seq<string>, forbidden: seq<string>, groups: seq<seq<Id>>)
  datatype Policy = Policy(owner: Id, minCoverage: real, minCorrectness: real, minAbstention: real, maxP95: real)

  datatype ProfileKind = Indexing | Retrieval | Generation
  datatype Profile = Profile(id: Id, kind: ProfileKind)
  datatype Component = Component(version: Id, profiles: seq<Profile>, answerPolicy: Id, builds: seq<Id>)
  datatype Source = Source(build: Id, units: seq<Id>)
  datatype Snapshot = Snapshot(candidates: seq<Component>, sources: seq<Source>)

  datatype RunInputs = RunInputs(
    owner: Id, request: Id, dataset: Id, policy: Id, snapshot: Snapshot, rules: map<Id, Rule>, rulesDigest: string,
    snapshotDigest: string, repetitions: int)

  // ---------------------------------------------------------------- rows

  datatype RunStatus = Pending | Running | Completed | Failed | Cancelled
  datatype GenerativeRun = GenerativeRun(
    inputs: RunInputs, status: RunStatus, token: Option<Id>, claimedAt: Option<Time>, finishedAt: Option<Time>,
    environment: Option<string>, dispatchedAt: Option<Time>,
    cancelledBy: Option<Id>, cancelledAt: Option<Time>, reason: Option<string>)

  datatype Observation = Observation(
    status: Option<AnswerStatus>, failureStage: Option<string>, error: Option<string>, execution: Id,
    exposures: nat, retrieved: seq<Id>, selected: seq<Id>, cited: seq<Id>, citationValid: bool, duration: real)
  datatype Citation = Citation(claim: int, evidence: seq<Id>)
  datatype RawResult = RawResult(answer: string, citations: seq<Citation>, observation: Option<Observation>)

  datatype AttemptStatus = Waiting | Started | Done | Broken | Interrupted | Withdrawn
  datatype AttemptKey = AttemptKey(run: Id, version: Id, caseId: Id, repetition: int, number: int, execution: Id)
  datatype Attempt = Attempt(
    key: AttemptKey, status: AttemptStatus, token: Option<Id>, result: Option<RawResult>, bytes: Option<string>,
    digest: Option<string>, error: Option<string>, finishedAt: Option<Time>)

  datatype Execution = Execution(attempt: Option<Id>, actor: Id, completed: bool)
  datatype AuditStatus = Succeeded | Allowed | Denied
  datatype Audit = Audit(
    execution: Id, actor: Id, version: Id, profile: Id, allowed: bool, status: AuditStatus, evidence: seq<Id>)
  datatype Verdict = Passes | Fails | Unreviewed
  datatype Judgment = Judgment(attempt: Id, judge: Id, digest: string, ruleDigest: string, verdict: Verdict)
  datatype VersionRow = VersionRow(indexing: Id, retrieval: Id, generation: Option<Id>, answerPolicy: Id)

  /** Rows that other guards police. They may change in any way between two statements here. Judgments are listed
      newest first. */
  datatype World = World(
    owners: set<Id>, versions: map<Id, VersionRow>, executions: map<Id, Execution>, audits: seq<Audit>,
    judgments: seq<Judgment>)

  datatype Tables = Tables(
    world: World, datasets: map<Id, Id>, cases: map<Id, map<Id, Case>>, policies: map<Id, Policy>,
    runs: map<Id, GenerativeRun>, attempts: map<Id, Attempt>)
  {
    function Cases(d: Id): map<Id, Case> { if d in cases then cases[d] else map[] }
  }

  datatype Step =
    | SetWorld(world: World)
    | InsertDataset(dataset: Id, owner: Id)
    | InsertCase(dataset: Id, caseId: Id, content: Case)
    | InsertPolicy(policy: Id, limits: Policy)
    | InsertRun(run: Id, runRow: GenerativeRun)
    | UpdateRun(run: Id, runRow: GenerativeRun)
    | InsertAttempt(attempt: Id, attemptRow: Attempt)
    | UpdateAttempt(attempt: Id, attemptRow: Attempt)
    | RemoveEvidence // DELETE of runs or attempts; UPDATE or DELETE of policies, judgments, datasets or cases

  // ---------------------------------------------------------------- guards: runs

  predicate RunRowAllowed(r: GenerativeRun) {
    && 2 <= r.inputs.repetitions <= 5
    && (match r.status
        case Pending => r.token == None && r.finishedAt == None
        case Running => r.token.Some? && r.claimedAt.Some? && r.finishedAt == None
        case Cancelled => r.token == None && r.claimedAt == None && r.finishedAt.Some? && r.environment == None
        case _ => r.token == None && r.finishedAt.Some?)
    && (if r.status == Cancelled then
          && r.cancelledBy == Some(r.inputs.owner) && r.cancelledAt.Some? && r.cancelledAt == r.finishedAt
          && r.reason == Some("user_requested")
        else r.cancelledBy == None && r.cancelledAt == None && r.reason == None)
  }

  predicate Owned(t: Tables, r: GenerativeRun) {
    && r.inputs.dataset in t.datasets && r.inputs.policy in t.policies
    && t.datasets[r.inputs.dataset] == r.inputs.owner && t.policies[r.inputs.policy].owner == r.inputs.owner
  }

  predicate AcceptsRunInsert(t: Tables, id: Id, r: GenerativeRun) {
    && id !in t.runs && r.status != Cancelled && Owned(t, r) && RunRowAllowed(r)
    && forall other | other in t.runs ::
         t.runs[other].inputs.owner != r.inputs.owner || t.runs[other].inputs.request != r.inputs.request
  }

  predicate Untouched(a: Attempt) {
    && a.status == Waiting && a.token == None && a.finishedAt == None && a.result == None && a.bytes == None
    && a.digest == None && a.error == None
  }

  predicate OfRun(t: Tables, a: Id, run: Id) {
    a in t.attempts && t.attempts[a].key.run == run
  }

  predicate Unstarted(t: Tables, a: Id)
    requires a in t.attempts
  {
    && Untouched(t.attempts[a])
    && t.attempts[a].key.execution !in t.world.executions
    && (forall x | x in t.world.executions :: t.world.executions[x].attempt != Some(a))
    && forall i | 0 <= i < |t.world.audits| :: t.world.audits[i].execution != t.attempts[a].key.execution
  }

  predicate CancellationAllowed(t: Tables, id: Id, was: GenerativeRun, r: GenerativeRun) {
    && was.status == Pending && was.token == None && was.claimedAt == None && was.finishedAt == None
    && was.environment == None
    && r.cancelledBy == Some(r.inputs.owner) && r.inputs.owner in t.world.owners
    && forall a | a in t.attempts && OfRun(t, a, id) :: Unstarted(t, a)
  }

  predicate AcceptsRunUpdate(t: Tables, id: Id, r: GenerativeRun) {
    && id in t.runs
    && var was := t.runs[id];
    && was.status != Cancelled
    && (r.status == Cancelled ==> CancellationAllowed(t, id, was, r))
    && r.inputs == was.inputs && Owned(t, r) && RunRowAllowed(r)
  }

  // ---------------------------------------------------------------- guards: attempts

  predicate AttemptRowAllowed(a: Attempt) {
    && a.key.repetition >= 0 && a.key.number > 0
    && (match a.status
        case Waiting => a.token == None && a.finishedAt == None
        case Started => a.token.Some? && a.finishedAt == None
        case Withdrawn => Untouched(a.(status := Waiting, finishedAt := None)) && a.finishedAt.Some?
        case _ => a.finishedAt.Some?)
    && (a.status == Done ==> a.result.Some? && a.bytes.Some? && a.digest.Some?)
    && (a.result.Some? && a.result.value.observation.Some? ==>
          a.result.value.observation.value.execution == a.key.execution)
  }

  predicate InsideInputs(t: Tables, run: GenerativeRun, key: AttemptKey) {
    && key.caseId in t.Cases(run.inputs.dataset) && key.repetition < run.inputs.repetitions
    && exists i | 0 <= i < |run.inputs.snapshot.candidates| :: run.inputs.snapshot.candidates[i].version == key.version
  }

  predicate SameAttempt(a: AttemptKey, b: AttemptKey) {
    (a.run, a.version, a.caseId, a.repetition, a.number) == (b.run, b.version, b.caseId, b.repetition, b.number)
  }

  predicate AcceptsAttemptInsert(t: Tables, id: Id, a: Attempt) {
    && id !in t.attempts && a.key.run in t.runs
    && a.status != Withdrawn && t.runs[a.key.run].status != Cancelled
    && InsideInputs(t, t.runs[a.key.run], a.key) && AttemptRowAllowed(a)
    && forall other | other in t.attempts ::
         !SameAttempt(t.attempts[other].key, a.key) && t.attempts[other].key.execution != a.key.execution
  }

  predicate AcceptsAttemptUpdate(t: Tables, id: Id, a: Attempt) {
    && id in t.attempts && a.key.run in t.runs
    && var was, parent := t.attempts[id], t.runs[a.key.run];
    && was.status != Withdrawn && AttemptRowAllowed(a)
    && if a.status == Withdrawn then
         && parent.status == Cancelled && Untouched(was) && a.finishedAt == parent.cancelledAt
         && a == was.(status := Withdrawn, finishedAt := a.finishedAt)
       else
         && InsideInputs(t, parent, a.key)
         && was.status !in {Done, Broken, Interrupted} && a.key == was.key
         && parent.status == Running && a.token == parent.token
  }

  // ---------------------------------------------------------------- statements, transactions, runs

  predicate Accepts(t: Tables, s: Step) {
    match s
    case SetWorld(_) => true
    case InsertDataset(id, _) => id !in t.datasets
    case InsertCase(d, id, _) => d in t.datasets && id !in t.Cases(d)
    case InsertPolicy(id, _) => id !in t.policies
    case InsertRun(id, r) => AcceptsRunInsert(t, id, r)
    case UpdateRun(id, r) => AcceptsRunUpdate(t, id, r)
    case InsertAttempt(id, a) => AcceptsAttemptInsert(t, id, a)
    case UpdateAttempt(id, a) => AcceptsAttemptUpdate(t, id, a)
    case RemoveEvidence => false
  }

  function After(t: Tables, s: Step): Tables {
    match s
    case SetWorld(world) => t.(world := world)
    case InsertDataset(id, owner) => t.(datasets := t.datasets[id := owner])
    case InsertCase(d, id, c) => t.(cases := t.cases[d := t.Cases(d)[id := c]])
    case InsertPolicy(id, p) => t.(policies := t.policies[id := p])
    case InsertRun(id, r) => t.(runs := t.runs[id := r])
    case UpdateRun(id, r) => t.(runs := t.runs[id := r])
    case InsertAttempt(id, a) => t.(attempts := t.attempts[id := a])
    case UpdateAttempt(id, a) => t.(attempts := t.attempts[id := a])
    case RemoveEvidence => t
  }

  /** The runs whose deferred check a statement queues. */
  function Queued(s: Step): set<Id> {
    if s.UpdateRun? && s.runRow.status == Cancelled then {s.run} else {}
  }

  /** rag_generative_cancel_complete for one run. */
  predicate CancelComplete(t: Tables, run: Id) {
    run in t.runs ==>
      forall a | a in t.attempts && OfRun(t, a, run) ::
        t.attempts[a].status == Withdrawn && t.attempts[a].finishedAt == t.runs[run].cancelledAt
  }

  datatype Store = Store(tables: Tables, saved: Tables, checks: set<Id>)
  datatype Event = Statement(step: Step) | Commit | Rollback

  function Apply(s: Store, e: Event): Store {
    match e
    case Statement(step) =>
      if Accepts(s.tables, step) then s.(tables := After(s.tables, step), checks := s.checks + Queued(step)) else s
    case Commit =>
      if forall run | run in s.checks :: CancelComplete(s.tables, run) then Store(s.tables, s.tables, {})
      else Store(s.saved, s.saved, {})
    case Rollback => Store(s.saved, s.saved, {})
  }

  function Run(s: Store, events: seq<Event>): Store
    decreases |events|
  {
    if events == [] then s else Run(Apply(s, events[0]), events[1..])
  }

  /** What the generative migration starts from. */
  ghost predicate Initial(s: Store) {
    && s == Store(s.tables, s.tables, {})
    && s.tables.runs == map[] && s.tables.attempts == map[]
  }

  lemma {:induction false} RunAppend(s: Store, a: seq<Event>, b: seq<Event>)
    ensures Run(s, a + b) == Run(Run(s, a), b)
    decreases |a|
  {
    if a == [] {
      assert a + b == b;
    } else {
      assert (a + b)[0] == a[0] && (a + b)[1..] == a[1..] + b;
      RunAppend(Apply(s, a[0]), a[1..], b);
    }
  }
}
