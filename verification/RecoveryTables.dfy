/**
 The tables of the alias-recovery and access-epoch protocol, the guard of each
 statement on them, and runs of statements grouped into transactions.

 `Accepts(t, s)` is the conjunction of the BEFORE triggers, CHECK and UNIQUE
 constraints and foreign keys that decide statement s in state t;
 `After(t, s)` is the state it leaves. The deferred constraint triggers run at
 `Commit`, for the rows the transaction touched.
 */
module RecoveryTables {
  import opened Options
  import opened ActionLog

  type Id = nat
  type Time = int

  // ---------------------------------------------------------------- alias operations, gates, receipts

  datatype OperationState = Open | Closed
  datatype DispatchPhase = LegacyUnknown | Reserved | Dispatching
  datatype ResultCode = Confirmed | NotDispatched | RecoveredTerminated
  datatype OperationInputs = OperationInputs(
    indexingProfile: Id, processingProfile: Id, targets: seq<Id>, createdAt: Time)

  datatype Operation = Operation(
    store: string, cluster: string, alias: string, inputs: OperationInputs,
    state: OperationState, phase: DispatchPhase, result: Option<ResultCode>, closedAt: Option<Time>)

  datatype GateState = Admitted | Frozen
  datatype Claim = Claim(request: Id, actor: Id, operation: Id, snapshot: string)
  datatype Gate = Gate(state: GateState, revision: nat, claim: Option<Claim>)

  datatype ProofKind = ReservedCas | ControlledRestart | AccessEpochProof
  datatype Receipt = Receipt(
    request: Id, actor: Id, operation: Id, snapshot: string, cluster: string, gateRevision: nat,
    result: ResultCode, proofKind: ProofKind, schema: nat, proof: Option<Proof>, createdAt: Time)

  // ---------------------------------------------------------------- access epochs

  datatype EpochPhase = Prepared | OldStopped | OldRetired | SecuredStarted | Verified | Receipted

  /** What was recorded about the server being replaced. */
  datatype OriginalFacts = OriginalFacts(
    cluster: string, stableNode: string, container: string, ephemeral: string, jvmStart: Time,
    daemon: string, volume: string, mount: string, image: string, config: string, deployment: string)

  /** What the new server is pinned to; also the identity stored in a floor. */
  datatype SecuredFacts = SecuredFacts(
    stableNode: string, container: string, auth: string, route: string, config: string, ca: string)

  datatype Proof = Proof(
    request: Id, actor: Id, operation: Id, snapshot: string, gateRevision: nat,
    epoch: Id, execution: Id, minimumEpoch: int, store: string,
    replaced: OriginalFacts, secured: SecuredFacts, newEphemeral: string,
    oldStoppedAt: Time, oldRetiredAt: Time, newStartedAt: Time, newJvmStart: Time,
    accessVerifiedAt: Time, verifiedAt: Time)

  datatype Epoch = Epoch(
    request: Id, operation: Id, actor: Id, store: string, cluster: string, snapshot: string,
    gateRevision: nat, ordinal: int, previousFloor: int, original: OriginalFacts, createdAt: Time,
    phase: EpochPhase, verified: Option<Proof>, stoppedSequence: Option<nat>, retiredSequence: Option<nat>,
    verifiedAt: Option<Time>, receiptedAt: Option<Time>)

  datatype Execution = Execution(epoch: Id, generation: Id)
  datatype Floor = Floor(store: string, ordinal: int, epoch: Id, identity: SecuredFacts)

  // ---------------------------------------------------------------- control log and role-key log

  datatype Command =
    | StopRegisteredApps | StopOld | RetireOld | PrepareTls | StartBootstrap | BootstrapAdmin
    | RevokeHistorical | IssueRoleKey | StopBootstrap | RetireBootstrap | StartSecured | VerifyAccess

  const COMMAND_ORDER: seq<Command> := [
    StopRegisteredApps, StopOld, RetireOld, PrepareTls, StartBootstrap, BootstrapAdmin,
    RevokeHistorical, IssueRoleKey, StopBootstrap, RetireBootstrap, StartSecured, VerifyAccess]

  datatype Manifest =
    | OldStoppedFacts(container: string, finishedAt: Time)
    | OldRetiredFacts(container: string, retiredAt: Time)
    | RoleKeys(group: KeyGroup)
    | OtherFacts

  /** The columns every outcome of one control action repeats. */
  datatype ControlBinding = ControlBinding(kind: Command, actionSequence: nat, expected: string, generation: Id)
  datatype ControlEvent = ControlEvent(
    action: Id, sequence: nat, binding: ControlBinding, outcome: Outcome, manifest: Option<Manifest>, observedAt: Time)

  datatype Role = Reader | Writer | Collector
  datatype KeyKind = Issue | Invalidate
  datatype KeyResult = Issued | IssuedInaccessible | Invalidated
  datatype KeyFacts =
    | UnknownFacts
    | PublicFacts(result: KeyResult, key: string, role: Role, issuance: Id, permissions: string)

  /** The columns every outcome of one role-key action repeats. */
  datatype KeyBinding = KeyBinding(
    parent: Id, actionSequence: nat, generation: Id, role: Role, issuance: Id, kind: KeyKind,
    key: Option<string>, supersedes: Option<Id>, permissions: string)
  datatype KeyEvent = KeyEvent(
    action: Id, sequence: nat, binding: KeyBinding, outcome: Outcome, facts: Option<KeyFacts>, observedAt: Time)

  datatype KeyGroup = KeyGroup(
    execution: Id, parent: Id, keys: map<Role, string>, issuances: map<Role, Id>, permissions: map<Role, string>)

  /** All rows. `owners` is the set of active users with role owner; the event tables are grouped by execution. */
  datatype Tables = Tables(
    owners: set<Id>,
    operations: map<Id, Operation>,
    gates: map<string, Gate>,
    receipts: map<Id, Receipt>,
    epochs: map<Id, Epoch>,
    executions: map<Id, Execution>,
    control: map<Id, seq<ControlEvent>>,
    keys: map<Id, seq<KeyEvent>>,
    floors: map<string, Floor>)
  {
    function ControlLog(x: Id): seq<ControlEvent> { if x in control then control[x] else [] }
    function KeyLog(x: Id): seq<KeyEvent> { if x in keys then keys[x] else [] }
  }

  datatype Step =
    | SetOwners(owners: set<Id>)
    | InsertOperation(id: Id, operation: Operation)
    | UpdateOperation(id: Id, operation: Operation)
    | InsertGate(cluster: string, gate: Gate)
    | UpdateGate(cluster: string, gate: Gate)
    | InsertReceipt(receipt: Receipt, now: Time)
    | InsertEpoch(id: Id, epoch: Epoch)
    | UpdateEpoch(id: Id, epoch: Epoch, now: Time)
    | InsertExecution(id: Id, execution: Execution)
    | InsertControl(x: Id, control: ControlEvent)
    | InsertKey(x: Id, key: KeyEvent, now: Time)
    | PutFloor(cluster: string, floor: Floor)
    | RewriteHistory  // DELETE anywhere, UPDATE of a receipt, an execution or an event

  // ---------------------------------------------------------------- guards: operations, gates, receipts

  /** ck_rag_alias_state and ck_rag_alias_terminal_phase. */
  predicate OperationRowAllowed(op: Operation) {
    && (op.state == Open <==> op.closedAt == None)
    && (op.state == Open <==> op.result == None)
    && (op.result == Some(NotDispatched) ==> op.phase == Reserved)
    && (op.result == Some(Confirmed) || op.result == Some(RecoveredTerminated) ==> op.phase != Reserved)
  }

  /** uq_rag_alias_open. */
  predicate OpenAliasFree(t: Tables, id: Id, op: Operation) {
    op.state == Open ==>
      forall other | other in t.operations && other != id ::
        t.operations[other].state == Closed
        || t.operations[other].cluster != op.cluster || t.operations[other].alias != op.alias
  }

  predicate AcceptsOperationUpdate(t: Tables, id: Id, op: Operation) {
    && id in t.operations
    && var was := t.operations[id];
    && (op.store, op.cluster, op.alias, op.inputs) == (was.store, was.cluster, was.alias, was.inputs)
    && (was.state == Closed ==> op == was)
    && (op.phase != was.phase ==>
          was.state == Open && op.state == Open && was.phase == Reserved && op.phase == Dispatching)
    && OperationRowAllowed(op) && OpenAliasFree(t, id, op)
  }

  predicate GateRowAllowed(g: Gate) {
    if g.claim == None then g.revision == 0 && g.state == Admitted else g.revision > 0
  }

  /** The release half of the gate guard: what must be recorded before a frozen claim is let go. */
  predicate ReleaseBacked(t: Tables, cluster: string, claim: Claim, revision: nat) {
    && claim.operation in t.operations
    && var terminal := t.operations[claim.operation];
    && terminal.state == Closed && terminal.cluster == cluster
    && (terminal.result != Some(Confirmed) ==>
          exists r | r in t.receipts ::
            && t.receipts[r].request == claim.request && t.receipts[r].operation == claim.operation
            && t.receipts[r].actor == claim.actor && t.receipts[r].snapshot == claim.snapshot
            && t.receipts[r].gateRevision == revision)
  }

  predicate AcceptsGateUpdate(t: Tables, cluster: string, g: Gate) {
    && cluster in t.gates
    && var was := t.gates[cluster];
    && (g != was ==>
          if was.state == Frozen then
            && was.claim.Some?
            && g.state == Admitted && g.claim == was.claim && g.revision == was.revision
            && ReleaseBacked(t, cluster, was.claim.value, was.revision)
          else
            && g.state == Frozen && g.revision == was.revision + 1
            && g.claim.Some? && (was.claim.Some? ==> g.claim.value.request != was.claim.value.request))
    && GateRowAllowed(g)
    && (g.claim.Some? ==>
          && g.claim.value.operation in t.operations
          && forall c | c in t.gates && c != cluster && t.gates[c].claim.Some? ::
               t.gates[c].claim.value.request != g.claim.value.request)
  }

  /** Typed content of validate_rag_access_epoch_proof: the replacement really happened in this order. */
  predicate ProofInOrder(p: Proof, now: Time) {
    && p.gateRevision > 0 && p.minimumEpoch > 0
    && p.replaced.container != p.secured.container && p.replaced.ephemeral != p.newEphemeral
    && p.replaced.stableNode == p.secured.stableNode
    && p.replaced.jvmStart <= p.oldStoppedAt <= p.oldRetiredAt < p.newStartedAt <= p.newJvmStart
    && p.newJvmStart <= p.accessVerifiedAt <= p.verifiedAt <= now
  }

  predicate AcceptsReceipt(t: Tables, r: Receipt, now: Time) {
    && r.request !in t.receipts
    && r.operation in t.operations
    && (forall other | other in t.receipts :: t.receipts[other].operation != r.operation)
    && r.result != Confirmed && r.gateRevision > 0
    && r.cluster in t.gates
    && t.gates[r.cluster].state == Frozen
    && t.gates[r.cluster].claim == Some(Claim(r.request, r.actor, r.operation, r.snapshot))
    && t.gates[r.cluster].revision == r.gateRevision
    && (if r.schema == 1 then
          && r.proof == None
          && (r.result == NotDispatched <==> r.proofKind == ReservedCas)
          && (r.result == RecoveredTerminated <==> r.proofKind == ControlledRestart)
        else if r.schema == 2 then
          && r.result == RecoveredTerminated && r.proofKind == AccessEpochProof
          && r.proof.Some?
          && var p := r.proof.value;
          && ProofInOrder(p, now)
          && p.epoch in t.epochs && p.execution in t.executions
          && t.executions[p.execution].epoch == p.epoch
          && var epoch := t.epochs[p.epoch];
          && epoch.phase in {Verified, Receipted} && epoch.verified == r.proof
          && (epoch.request, epoch.actor, epoch.operation, epoch.snapshot, epoch.gateRevision, epoch.cluster)
               == (r.request, r.actor, r.operation, r.snapshot, r.gateRevision, r.cluster)
          && p.minimumEpoch == epoch.ordinal
        else false)
  }

  // ---------------------------------------------------------------- guards: epochs and floors

  predicate ClaimBound(t: Tables, e: Epoch) {
    && e.cluster in t.gates && e.operation in t.operations
    && t.gates[e.cluster].state == Frozen
    && t.gates[e.cluster].claim == Some(Claim(e.request, e.actor, e.operation, e.snapshot))
    && t.gates[e.cluster].revision == e.gateRevision
    && t.operations[e.operation].state == Open
    && e.actor in t.owners
  }

  /** The three unique indexes on epochs; other rows only. */
  predicate EpochUnique(t: Tables, id: Id, e: Epoch) {
    forall other | other in t.epochs && other != id ::
      && t.epochs[other].request != e.request
      && (t.epochs[other].cluster == e.cluster ==>
            && t.epochs[other].ordinal != e.ordinal
            && (t.epochs[other].phase == Receipted || e.phase == Receipted))
  }

  predicate AcceptsEpochInsert(t: Tables, id: Id, e: Epoch) {
    && id !in t.epochs
    && e.phase == Prepared && e.verified == None
    && e.gateRevision > 0 && e.previousFloor >= 0 && e.ordinal > e.previousFloor
    && ClaimBound(t, e)
    && t.operations[e.operation].phase in {LegacyUnknown, Dispatching}
    && (t.operations[e.operation].cluster, t.operations[e.operation].store) == (e.cluster, e.store)
    && e.original.cluster == e.cluster
    && EpochUnique(t, id, e)
  }

  /** The columns an epoch keeps from its insertion on. */
  predicate SameIdentity(a: Epoch, b: Epoch) {
    a == b.(phase := a.phase, verified := a.verified, stoppedSequence := a.stoppedSequence,
            retiredSequence := a.retiredSequence, verifiedAt := a.verifiedAt, receiptedAt := a.receiptedAt)
  }

  function NextPhase(p: EpochPhase): Option<EpochPhase> {
    match p
    case Prepared => Some(OldStopped)
    case OldStopped => Some(OldRetired)
    case OldRetired => Some(SecuredStarted)
    case SecuredStarted => Some(Verified)
    case Verified => Some(Receipted)
    case Receipted => None
  }

  /** The command that must be settled before a phase is entered. */
  function RequiredCommand(p: EpochPhase): Option<Command> {
    match p
    case OldStopped => Some(StopOld)
    case OldRetired => Some(RetireOld)
    case SecuredStarted => Some(StartSecured)
    case Verified => Some(VerifyAccess)
    case _ => None
  }

  predicate CommandSettled(log: seq<ControlEvent>, kind: Command) {
    exists i | 0 <= i < |log| :: log[i].binding.kind == kind && log[i].outcome == Settled
  }

  predicate LinkedExecution(t: Tables, id: Id, x: Id) {
    x in t.executions && t.executions[x].epoch == id
  }

  /** The extra conditions for entering `verified`. */
  predicate VerifiedBinding(t: Tables, id: Id, e: Epoch, x: Id, now: Time) {
    && e.verified.Some? && e.stoppedSequence.Some? && e.retiredSequence.Some?
    && var p := e.verified.value;
    && ProofInOrder(p, now)
    && e.retiredSequence.value > e.stoppedSequence.value
    && (p.epoch, p.execution, p.minimumEpoch) == (id, x, e.ordinal)
    && (p.request, p.actor, p.operation, p.snapshot, p.gateRevision, p.store)
         == (e.request, e.actor, e.operation, e.snapshot, e.gateRevision, e.store)
    && e.verifiedAt == Some(p.verifiedAt)
    && p.replaced == e.original && p.replaced.cluster == e.cluster
    && var log := t.ControlLog(x);
    && SettledCount(log) == 12
    && (exists i | 0 <= i < |log| ::
          && log[i].binding.kind == StopOld && log[i].outcome == Settled
          && log[i].sequence == e.stoppedSequence.value
          && log[i].manifest == Some(OldStoppedFacts(e.original.container, p.oldStoppedAt)))
    && (exists i | 0 <= i < |log| ::
          && log[i].binding.kind == RetireOld && log[i].outcome == Settled
          && log[i].sequence == e.retiredSequence.value
          && log[i].manifest == Some(OldRetiredFacts(e.original.container, p.oldRetiredAt)))
  }

  predicate AcceptsEpochUpdate(t: Tables, id: Id, e: Epoch, now: Time) {
    && id in t.epochs
    && var was := t.epochs[id];
    && SameIdentity(e, was)
    && (was.phase in {Verified, Receipted} ==>
          (e.verified, e.verifiedAt, e.stoppedSequence, e.retiredSequence)
            == (was.verified, was.verifiedAt, was.stoppedSequence, was.retiredSequence))
    && (if e.phase == was.phase then e == was
        else
          && NextPhase(was.phase) == Some(e.phase)
          && (RequiredCommand(e.phase).Some? ==>
                exists x | x in t.executions ::
                  LinkedExecution(t, id, x) && CommandSettled(t.ControlLog(x), RequiredCommand(e.phase).value))
          && (e.phase == Verified ==>
                exists x | x in t.executions :: LinkedExecution(t, id, x) && VerifiedBinding(t, id, e, x, now)))
    && EpochUnique(t, id, e)
  }

  predicate AcceptsFloor(t: Tables, cluster: string, f: Floor) {
    && f.epoch in t.epochs && f.ordinal > 0
    && var epoch := t.epochs[f.epoch];
    && epoch.cluster == cluster && epoch.store == f.store && epoch.ordinal == f.ordinal
    && (cluster in t.floors ==> f.ordinal > t.floors[cluster].ordinal && f.store == t.floors[cluster].store)
    && (forall c | c in t.floors && c != cluster :: t.floors[c].epoch != f.epoch)
  }

  // ---------------------------------------------------------------- guards: control log

  /** The action log behind a sequence of control events. */
  function ControlEntries(log: seq<ControlEvent>): (r: seq<Entry<ControlBinding>>)
    ensures |r| == |log|
    ensures forall i | 0 <= i < |log| :: r[i] == Entry(log[i].action, log[i].binding, log[i].outcome)
  {
    seq(|log|, i requires 0 <= i < |log| => Entry(log[i].action, log[i].binding, log[i].outcome))
  }

  function SettledCount(log: seq<ControlEvent>): nat {
    |SettledTags(ControlEntries(log))|
  }

  function MaxSequence(log: seq<ControlEvent>): nat {
    if log == [] then 0
    else
      var front := MaxSequence(log[..|log| - 1]);
      if log[|log| - 1].sequence > front then log[|log| - 1].sequence else front
  }

  predicate ControlRecorded(t: Tables, action: Id, outcome: Outcome) {
    exists x | x in t.control :: Recorded(ControlEntries(t.control[x]), action, outcome)
  }

  predicate AcceptsControl(t: Tables, x: Id, e: ControlEvent) {
    && x in t.executions && t.executions[x].epoch in t.epochs
    && t.epochs[t.executions[x].epoch].phase !in {Verified, Receipted}
    && e.binding.generation == t.executions[x].generation
    && var log := t.ControlLog(x);
    && e.sequence == MaxSequence(log) + 1 && e.binding.actionSequence > 0
    && !ControlRecorded(t, e.action, e.outcome)
    && (if e.outcome == Pending then
          && SettledCount(log) < |COMMAND_ORDER| && e.binding.kind == COMMAND_ORDER[SettledCount(log)]
          && e.binding.actionSequence == e.sequence && e.manifest == None
          && NothingUnsettled(ControlEntries(log))
        else
          && e.manifest.Some?
          && (exists i | 0 <= i < |log| ::
                && log[i].action == e.action && log[i].outcome == Pending
                && log[i].binding == e.binding && e.observedAt >= log[i].observedAt)
          && !ControlRecorded(t, e.action, Settled))
    && (e.binding.kind == IssueRoleKey && e.outcome == Settled ==>
          var group := KeyGroupOf(x, t.KeyLog(x), e.action);
          group.Some? && e.manifest == Some(RoleKeys(group.value)))
  }

  // ---------------------------------------------------------------- guards: role keys

  function KeyEntries(log: seq<KeyEvent>): (r: seq<Entry<KeyBinding>>)
    ensures |r| == |log|
    ensures forall i | 0 <= i < |log| :: r[i] == Entry(log[i].action, log[i].binding, log[i].outcome)
  {
    seq(|log|, i requires 0 <= i < |log| => Entry(log[i].action, log[i].binding, log[i].outcome))
  }

  function MaxKeySequence(log: seq<KeyEvent>): nat {
    if log == [] then 0
    else
      var front := MaxKeySequence(log[..|log| - 1]);
      if log[|log| - 1].sequence > front then log[|log| - 1].sequence else front
  }

  predicate Under(e: KeyEvent, parent: Option<Id>) {
    parent.Some? ==> e.binding.parent == parent.value
  }

  /** Some action (under the parent, if given) whose latest event is not `settled`. */
  predicate LatestUnsettled(log: seq<KeyEvent>, parent: Option<Id>) {
    exists i | 0 <= i < |log| ::
      && Under(log[i], parent) && log[i].outcome != Settled
      && forall j | i < j < |log| :: Under(log[j], parent) ==> log[j].action != log[i].action
  }

  predicate SettledIssue(e: KeyEvent) {
    e.binding.kind == Issue && e.outcome == Settled && e.facts.Some? && e.facts.value.PublicFacts?
  }

  predicate SettledAs(e: KeyEvent, result: KeyResult) {
    e.outcome == Settled && e.facts.Some? && e.facts.value.PublicFacts? && e.facts.value.result == result
  }

  /** The latest settled issue event of a role. */
  function LatestIssue(log: seq<KeyEvent>, parent: Option<Id>, role: Role): Option<KeyEvent> {
    if log == [] then None
    else
      var last := log[|log| - 1];
      if SettledIssue(last) && Under(last, parent) && last.binding.role == role then Some(last)
      else LatestIssue(log[..|log| - 1], parent, role)
  }

  predicate LatestIsIssued(log: seq<KeyEvent>, parent: Option<Id>, role: Role) {
    var latest := LatestIssue(log, parent, role);
    latest.Some? && SettledAs(latest.value, Issued)
  }

  /** rag_access_epoch_key_group: the three live keys of a parent action, if the group is complete. */
  function KeyGroupOf(x: Id, log: seq<KeyEvent>, parent: Id): Option<KeyGroup> {
    if LatestUnsettled(log, Some(parent)) then None
    else if !LatestIsIssued(log, Some(parent), Reader) || !LatestIsIssued(log, Some(parent), Writer)
            || !LatestIsIssued(log, Some(parent), Collector) then None
    else
      var r := LatestIssue(log, Some(parent), Reader).value;
      var w := LatestIssue(log, Some(parent), Writer).value;
      var c := LatestIssue(log, Some(parent), Collector).value;
      if |{r.facts.value.key, w.facts.value.key, c.facts.value.key}| != 3 then None
      else
        Some(KeyGroup(x, parent,
          map[Reader := r.facts.value.key, Writer := w.facts.value.key, Collector := c.facts.value.key],
          map[Reader := r.binding.issuance, Writer := w.binding.issuance, Collector := c.binding.issuance],
          map[Reader := r.binding.permissions, Writer := w.binding.permissions, Collector := c.binding.permissions]))
  }

  /** The first role, in fixed order, without a live key. */
  function NeededRole(log: seq<KeyEvent>): Option<Role> {
    if !LatestIsIssued(log, None, Reader) then Some(Reader)
    else if !LatestIsIssued(log, None, Writer) then Some(Writer)
    else if !LatestIsIssued(log, None, Collector) then Some(Collector)
    else None
  }

  predicate InvalidatedExactly(log: seq<KeyEvent>, issuance: Id, key: string) {
    exists i | 0 <= i < |log| ::
      && log[i].binding.kind == Invalidate && log[i].binding.issuance == issuance
      && SettledAs(log[i], Invalidated) && log[i].facts.value.key == key
  }

  /** What a new issue must repair: nothing, or the latest key of the role, already invalidated. */
  predicate ReplacementAllowed(log: seq<KeyEvent>, b: KeyBinding) {
    match LatestIssue(log, None, b.role)
    case None => b.supersedes == None
    case Some(last) =>
      && SettledAs(last, IssuedInaccessible)
      && b.supersedes == Some(last.binding.issuance) && b.permissions == last.binding.permissions
      && InvalidatedExactly(log, last.binding.issuance, last.facts.value.key)
  }

  predicate InvalidationAllowed(log: seq<KeyEvent>, b: KeyBinding) {
    && b.supersedes == None
    && exists i | 0 <= i < |log| ::
         && SettledIssue(log[i]) && log[i].binding.issuance == b.issuance
         && SettledAs(log[i], IssuedInaccessible)
         && (b.role, b.permissions, b.key)
              == (log[i].binding.role, log[i].binding.permissions, Some(log[i].facts.value.key))
  }

  predicate KeyRecorded(t: Tables, action: Id, outcome: Outcome) {
    exists x | x in t.keys :: Recorded(KeyEntries(t.keys[x]), action, outcome)
  }

  /** uq_rag_epoch_key_issue and uq_rag_epoch_key_invalidate: one action of each kind per issuance. */
  predicate IssuanceTaken(t: Tables, issuance: Id, kind: KeyKind) {
    exists x | x in t.keys ::
      exists i | 0 <= i < |t.keys[x]| ::
        && t.keys[x][i].binding.issuance == issuance && t.keys[x][i].binding.kind == kind
        && t.keys[x][i].outcome == Pending
  }

  predicate KeyFactsAllowed(log: seq<KeyEvent>, e: KeyEvent) {
    if e.outcome == Unknown then e.facts == Some(UnknownFacts)
    else
      && e.facts.Some? && e.facts.value.PublicFacts?
      && var f := e.facts.value;
      && (f.role, f.issuance, f.permissions) == (e.binding.role, e.binding.issuance, e.binding.permissions)
      && (e.binding.kind == Issue ==>
            && f.result in {Issued, IssuedInaccessible}
            && forall i | 0 <= i < |log| && SettledIssue(log[i]) && log[i].binding.issuance != e.binding.issuance ::
                 log[i].facts.value.key != f.key)
      && (e.binding.kind == Invalidate ==> f.result == Invalidated && Some(f.key) == e.binding.key)
  }

  predicate AcceptsKey(t: Tables, x: Id, e: KeyEvent, now: Time) {
    && x in t.executions && t.executions[x].epoch in t.epochs
    && var epoch := t.epochs[t.executions[x].epoch];
    && epoch.phase == OldRetired && e.binding.generation == t.executions[x].generation
    && ClaimBound(t, epoch)
    && var control := t.ControlLog(x);
    && control != []
    && var parent := control[|control| - 1];
    && parent.action == e.binding.parent && parent.binding.kind == IssueRoleKey
    && parent.outcome != Settled && parent.binding.generation == e.binding.generation
    && var log := t.KeyLog(x);
    && e.sequence == MaxKeySequence(log) + 1 && e.binding.actionSequence > 0 && e.observedAt <= now
    && (e.outcome == Pending <==> e.facts == None)
    && !KeyRecorded(t, e.action, e.outcome)
    && (if e.outcome == Pending then
          && e.binding.actionSequence == e.sequence
          && !KeyRecorded(t, e.action, Unknown) && !KeyRecorded(t, e.action, Settled)
          && !LatestUnsettled(log, None)
          && !IssuanceTaken(t, e.binding.issuance, e.binding.kind)
          && (e.binding.kind == Issue ==>
                && e.binding.key == None && NeededRole(log) == Some(e.binding.role)
                && ReplacementAllowed(log, e.binding))
          && (e.binding.kind == Invalidate ==> InvalidationAllowed(log, e.binding))
        else
          && (exists i | 0 <= i < |log| ::
                && log[i].action == e.action && log[i].outcome == Pending
                && log[i].binding == e.binding && e.observedAt >= log[i].observedAt)
          && !KeyRecorded(t, e.action, Settled)
          && KeyFactsAllowed(log, e))
  }

  // ---------------------------------------------------------------- statements

  predicate Accepts(t: Tables, s: Step) {
    match s
    case SetOwners(_) => true
    case InsertOperation(id, op) => id !in t.operations && OperationRowAllowed(op) && OpenAliasFree(t, id, op)
    case UpdateOperation(id, op) => AcceptsOperationUpdate(t, id, op)
    case InsertGate(cluster, g) => cluster !in t.gates && g == Gate(Admitted, 0, None)
    case UpdateGate(cluster, g) => AcceptsGateUpdate(t, cluster, g)
    case InsertReceipt(r, now) => AcceptsReceipt(t, r, now)
    case InsertEpoch(id, e) => AcceptsEpochInsert(t, id, e)
    case UpdateEpoch(id, e, now) => AcceptsEpochUpdate(t, id, e, now)
    case InsertExecution(id, x) =>
      id !in t.executions && x.epoch in t.epochs
      && forall other | other in t.executions :: t.executions[other].epoch != x.epoch
    case InsertControl(x, e) => AcceptsControl(t, x, e)
    case InsertKey(x, e, now) => AcceptsKey(t, x, e, now)
    case PutFloor(cluster, f) => AcceptsFloor(t, cluster, f)
    case RewriteHistory => false
  }

  function After(t: Tables, s: Step): Tables {
    match s
    case SetOwners(owners) => t.(owners := owners)
    case InsertOperation(id, op) => t.(operations := t.operations[id := op])
    case UpdateOperation(id, op) => t.(operations := t.operations[id := op])
    case InsertGate(cluster, g) => t.(gates := t.gates[cluster := g])
    case UpdateGate(cluster, g) => t.(gates := t.gates[cluster := g])
    case InsertReceipt(r, _) => t.(receipts := t.receipts[r.request := r])
    case InsertEpoch(id, e) => t.(epochs := t.epochs[id := e])
    case UpdateEpoch(id, e, _) => t.(epochs := t.epochs[id := e])
    case InsertExecution(id, x) => t.(executions := t.executions[id := x])
    case InsertControl(x, e) => t.(control := t.control[x := t.ControlLog(x) + [e]])
    case InsertKey(x, e, _) => t.(keys := t.keys[x := t.KeyLog(x) + [e]])
    case PutFloor(cluster, f) => t.(floors := t.floors[cluster := f])
    case RewriteHistory => t
  }

  // ---------------------------------------------------------------- deferred checks

  predicate ReceiptOf(t: Tables, r: Id, operation: Id) {
    r in t.receipts && t.receipts[r].operation == operation
  }

  /** check_rag_alias_recovery_integrity for one operation. */
  predicate ClosureHasReceipt(t: Tables, id: Id) {
    id in t.operations ==>
      var op := t.operations[id];
      if op.result == Some(NotDispatched) || op.result == Some(RecoveredTerminated) then
        exists r | r in t.receipts ::
          && ReceiptOf(t, r, id) && op.state == Closed
          && t.receipts[r].cluster == op.cluster && Some(t.receipts[r].result) == op.result
          && Some(t.receipts[r].createdAt) == op.closedAt
      else
        forall r | r in t.receipts :: !ReceiptOf(t, r, id)
  }

  predicate EpochReceipt(t: Tables, r: Id, id: Id) {
    r in t.receipts && t.receipts[r].proof.Some? && t.receipts[r].proof.value.epoch == id
  }

  predicate FloorExact(t: Tables, id: Id)
    requires id in t.epochs
  {
    var e := t.epochs[id];
    && e.verified.Some?
    && exists c | c in t.floors ::
         t.floors[c].epoch == id && t.floors[c].ordinal == e.ordinal && t.floors[c].identity == e.verified.value.secured
  }

  /** check_rag_access_epoch_receipt_integrity for one epoch. */
  predicate EpochIntegrity(t: Tables, id: Id) {
    id in t.epochs ==>
      var e := t.epochs[id];
      && (e.phase in {Verified, Receipted} ==> FloorExact(t, id))
      && if e.phase == Receipted then
           exists r | r in t.receipts ::
             EpochReceipt(t, r, id) && e.receiptedAt == Some(t.receipts[r].createdAt) && t.receipts[r].proof == e.verified
         else
           forall r | r in t.receipts :: !EpochReceipt(t, r, id)
  }

  /** The operation rows whose deferred check a statement queues. */
  function TouchedOperations(s: Step): set<Id> {
    match s
    case InsertOperation(id, _) => {id}
    case UpdateOperation(id, _) => {id}
    case InsertReceipt(r, _) => {r.operation}
    case _ => {}
  }

  function TouchedEpochs(s: Step): set<Id> {
    match s
    case InsertEpoch(id, _) => {id}
    case UpdateEpoch(id, _, _) => {id}
    case PutFloor(_, f) => {f.epoch}
    case InsertReceipt(r, _) => if r.proof.Some? then {r.proof.value.epoch} else {}
    case _ => {}
  }

  // ---------------------------------------------------------------- transactions and runs

  /** The state inside a transaction; `journal` records the accepted statements since the start. */
  datatype Store = Store(
    tables: Tables, saved: Tables,
    operationChecks: set<Id>, epochChecks: set<Id>,
    journal: seq<Step>, savedJournal: seq<Step>)

  datatype Event = Statement(step: Step) | Commit | Rollback

  predicate ChecksPass(s: Store) {
    && (forall id | id in s.operationChecks :: ClosureHasReceipt(s.tables, id))
    && (forall id | id in s.epochChecks :: EpochIntegrity(s.tables, id))
  }

  function Apply(s: Store, e: Event): Store {
    match e
    case Statement(step) =>
      if Accepts(s.tables, step) then
        s.(tables := After(s.tables, step),
           operationChecks := s.operationChecks + TouchedOperations(step),
           epochChecks := s.epochChecks + TouchedEpochs(step),
           journal := s.journal + [step])
      else s
    case Commit =>
      if ChecksPass(s) then Store(s.tables, s.tables, {}, {}, s.journal, s.journal)
      else Store(s.saved, s.saved, {}, {}, s.savedJournal, s.savedJournal)
    case Rollback => Store(s.saved, s.saved, {}, {}, s.savedJournal, s.savedJournal)
  }

  function Run(s: Store, events: seq<Event>): Store
    decreases |events|
  {
    if events == [] then s else Apply(Run(s, events[..|events| - 1]), events[|events| - 1])
  }

  lemma RunAppend(s: Store, events: seq<Event>, e: Event)
    ensures Run(s, events + [e]) == Apply(Run(s, events), e)
  {
    assert (events + [e])[..|events + [e]| - 1] == events;
  }

  /** The state the migrations start from: only alias operations of the older journal, none recovered. */
  ghost predicate Initial(s: Store) {
    && s == Store(s.tables, s.tables, {}, {}, [], [])
    && s.tables == Tables(s.tables.owners, s.tables.operations, map[], map[], map[], map[], map[], map[], map[])
    && forall id | id in s.tables.operations ::
         && OperationRowAllowed(s.tables.operations[id])
         && s.tables.operations[id].phase == LegacyUnknown
         && s.tables.operations[id].result in {None, Some(Confirmed)}
  }

  /** A state some run of statements and transactions leads to. */
  ghost predicate Reachable(s: Store) {
    exists start, events :: Initial(start) && s == Run(start, events)
  }

  lemma ReachableStep(s: Store, e: Event)
    requires Reachable(s)
    ensures Reachable(Apply(s, e))
  {
    var start, events :| Initial(start) && s == Run(start, events);
    RunAppend(start, events, e);
  }
}
