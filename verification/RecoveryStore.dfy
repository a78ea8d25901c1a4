/**
 The database itself: tables that statements update in place, each behind its
 trigger. Every method runs the checks of its trigger step by step and is
 proved to accept and to change exactly what the statement model says, so every
 state of a store is a reachable one and all run results hold of it.
 */
module RecoveryStore {
  import opened Options
  import opened ActionLog
  import opened RecoveryTables

  class Database {
    var owners: set<Id>
    var operations: map<Id, Operation>
    var gates: map<string, Gate>
    var receipts: map<Id, Receipt>
    var epochs: map<Id, Epoch>
    var executions: map<Id, Execution>
    var control: map<Id, seq<ControlEvent>>
    var keys: map<Id, seq<KeyEvent>>
    var floors: map<string, Floor>

    var saved: Tables            // the last committed state
    var operationChecks: set<Id> // rows with a deferred check queued
    var epochChecks: set<Id>
    ghost var journal: seq<Step>
    ghost var savedJournal: seq<Step>

    function Current(): Tables
      reads this
    {
      Tables(owners, operations, gates, receipts, epochs, executions, control, keys, floors)
    }

    ghost function Contents(): Store
      reads this
    {
      Store(Current(), saved, operationChecks, epochChecks, journal, savedJournal)
    }

    ghost predicate Valid()
      reads this
    {
      Reachable(Contents())
    }

    constructor (owners: set<Id>, legacy: map<Id, Operation>)
      requires forall id | id in legacy ::
                 && OperationRowAllowed(legacy[id]) && legacy[id].phase == LegacyUnknown
                 && legacy[id].result in {None, Some(Confirmed)}
      ensures Valid() && Initial(Contents())
      ensures Current() == Tables(owners, legacy, map[], map[], map[], map[], map[], map[], map[])
    {
      this.owners, operations := owners, legacy;
      gates, receipts, epochs, executions := map[], map[], map[], map[];
      control, keys, floors := map[], map[], map[];
      saved := Tables(owners, legacy, map[], map[], map[], map[], map[], map[], map[]);
      operationChecks, epochChecks := {}, {};
      journal, savedJournal := [], [];
      new;
      assert Contents() == Run(Contents(), []);
    }

    /** Takes over the accepted statement: the rows it touches are queued for their deferred check. */
    method Queue(ghost before: Store, s: Step)
      requires Reachable(before) && Accepts(before.tables, s)
      requires Current() == After(before.tables, s)
      requires before == Contents().(tables := before.tables)
      modifies this`operationChecks, this`epochChecks, this`journal
      ensures Contents() == Apply(before, Statement(s)) && Valid()
    {
      ReachableStep(before, Statement(s));
      operationChecks, epochChecks, journal :=
        operationChecks + TouchedOperations(s), epochChecks + TouchedEpochs(s), journal + [s];
    }

    method UpdateOperation(id: Id, op: Operation) returns (accepted: bool)
      requires Valid()
      modifies this
      ensures Valid() && accepted == Accepts(old(Current()), RecoveryTables.Step.UpdateOperation(id, op))
      ensures Contents() == Apply(old(Contents()), Statement(RecoveryTables.Step.UpdateOperation(id, op)))
    {
      ghost var before := Contents();
      if id !in operations { return false; }
      var was := operations[id];
      if op.store != was.store || op.cluster != was.cluster || op.alias != was.alias || op.inputs != was.inputs {
        return false;
      }
      if was.state == Closed && op != was { return false; }
      if op.phase != was.phase
         && !(was.state == Open && op.state == Open && was.phase == Reserved && op.phase == Dispatching) {
        return false;
      }
      if !OperationRowAllowed(op) || !OpenAliasFree(Current(), id, op) { return false; }
      operations := operations[id := op];
      Queue(before, RecoveryTables.Step.UpdateOperation(id, op));
      return true;
    }

    method UpdateGate(cluster: string, gate: Gate) returns (accepted: bool)
      requires Valid()
      modifies this
      ensures Valid() && accepted == Accepts(old(Current()), RecoveryTables.Step.UpdateGate(cluster, gate))
      ensures Contents() == Apply(old(Contents()), Statement(RecoveryTables.Step.UpdateGate(cluster, gate)))
    {
      ghost var before := Contents();
      if cluster !in gates { return false; }
      var was := gates[cluster];
      if gate != was {
        if was.state == Frozen {
          if was.claim == None || gate.state != Admitted || gate.claim != was.claim || gate.revision != was.revision {
            return false;
          }
          if !ReleaseBacked(Current(), cluster, was.claim.value, was.revision) { return false; }
        } else if gate.state != Frozen || gate.revision != was.revision + 1 || gate.claim == None {
          return false;
        } else if was.claim.Some? && was.claim.value.request == gate.claim.value.request {
          return false;
        }
      }
      if !GateRowAllowed(gate) { return false; }
      if gate.claim.Some? {
        if gate.claim.value.operation !in operations { return false; }
        if exists c | c in gates && c != cluster && gates[c].claim.Some? ::
             gates[c].claim.value.request == gate.claim.value.request { return false; }
      }
      gates := gates[cluster := gate];
      Queue(before, RecoveryTables.Step.UpdateGate(cluster, gate));
      return true;
    }

    method InsertReceipt(r: Receipt, now: Time) returns (accepted: bool)
      requires Valid()
      modifies this
      ensures Valid() && accepted == Accepts(old(Current()), RecoveryTables.Step.InsertReceipt(r, now))
      ensures Contents() == Apply(old(Contents()), Statement(RecoveryTables.Step.InsertReceipt(r, now)))
    {
      ghost var before := Contents();
      if r.request in receipts || r.operation !in operations || r.result == Confirmed || r.gateRevision == 0 {
        return false;
      }
      if exists other | other in receipts :: receipts[other].operation == r.operation { return false; }
      if r.cluster !in gates || gates[r.cluster].state != Frozen || gates[r.cluster].revision != r.gateRevision
         || gates[r.cluster].claim != Some(Claim(r.request, r.actor, r.operation, r.snapshot)) {
        return false;
      }
      if r.schema == 1 {
        if r.proof != None || !((r.result == NotDispatched && r.proofKind == ReservedCas)
                                || (r.result == RecoveredTerminated && r.proofKind == ControlledRestart)) {
          return false;
        }
      } else if r.schema == 2 {
        if r.result != RecoveredTerminated || r.proofKind != AccessEpochProof || r.proof == None { return false; }
        var p := r.proof.value;
        if !ProofInOrder(p, now) || p.epoch !in epochs || p.execution !in executions { return false; }
        var epoch := epochs[p.epoch];
        if executions[p.execution].epoch != p.epoch || epoch.phase !in {Verified, Receipted} || epoch.verified != r.proof
           || epoch.request != r.request || epoch.actor != r.actor || epoch.operation != r.operation
           || epoch.snapshot != r.snapshot || epoch.gateRevision != r.gateRevision || epoch.cluster != r.cluster
           || p.minimumEpoch != epoch.ordinal {
          return false;
        }
      } else {
        return false;
      }
      receipts := receipts[r.request := r];
      Queue(before, RecoveryTables.Step.InsertReceipt(r, now));
      return true;
    }

    /** guard_rag_access_epoch_transition. */
    method EpochGuard(id: Id, e: Epoch, now: Time) returns (allowed: bool)
      ensures allowed == AcceptsEpochUpdate(Current(), id, e, now)
    {
      var t := Current();
      if id !in epochs { return false; }
      var was := epochs[id];
      if !SameIdentity(e, was) { return false; }
      if was.phase in {Verified, Receipted}
         && (e.verified != was.verified || e.verifiedAt != was.verifiedAt
             || e.stoppedSequence != was.stoppedSequence || e.retiredSequence != was.retiredSequence) {
        return false;
      }
      if e.phase == was.phase {
        if e != was { return false; }
      } else {
        if NextPhase(was.phase) != Some(e.phase) { return false; }
        var required := RequiredCommand(e.phase);
        if required.Some? && !(exists x | x in executions :: LinkedExecution(t, id, x) && CommandSettled(t.ControlLog(x), required.value)) {
          return false;
        }
        if e.phase == Verified && !(exists x | x in executions :: LinkedExecution(t, id, x) && VerifiedBinding(t, id, e, x, now)) {
          return false;
        }
      }
      if !EpochUnique(t, id, e) { return false; }
      return true;
    }

    method UpdateEpoch(id: Id, e: Epoch, now: Time) returns (accepted: bool)
      requires Valid()
      modifies this
      ensures Valid() && accepted == Accepts(old(Current()), RecoveryTables.Step.UpdateEpoch(id, e, now))
      ensures Contents() == Apply(old(Contents()), Statement(RecoveryTables.Step.UpdateEpoch(id, e, now)))
    {
      ghost var before := Contents();
      var allowed := EpochGuard(id, e, now);
      if !allowed { return false; }
      epochs := epochs[id := e];
      Queue(before, RecoveryTables.Step.UpdateEpoch(id, e, now));
      return true;
    }

    /** guard_rag_access_epoch_event. */
    method ControlGuard(x: Id, e: ControlEvent) returns (allowed: bool)
      ensures allowed == AcceptsControl(Current(), x, e)
    {
      var t := Current();
      if x !in executions || executions[x].epoch !in epochs { return false; }
      var execution := executions[x];
      var log := t.ControlLog(x);
      if epochs[execution.epoch].phase in {Verified, Receipted} || e.binding.generation != execution.generation
         || e.sequence != MaxSequence(log) + 1 || e.binding.actionSequence == 0 {
        return false;
      }
      if ControlRecorded(t, e.action, e.outcome) { return false; }
      if e.outcome == Pending {
        var done := SettledCount(log);
        if done >= |COMMAND_ORDER| || e.binding.kind != COMMAND_ORDER[done] { return false; }
        if e.binding.actionSequence != e.sequence || e.manifest != None || !NothingUnsettled(ControlEntries(log)) {
          return false;
        }
      } else {
        if e.manifest == None || ControlRecorded(t, e.action, Settled) { return false; }
        if !(exists i | 0 <= i < |log| ::
               log[i].action == e.action && log[i].outcome == Pending
               && log[i].binding == e.binding && e.observedAt >= log[i].observedAt) {
          return false;
        }
      }
      if e.binding.kind == IssueRoleKey && e.outcome == Settled {
        var expected := KeyGroupOf(x, t.KeyLog(x), e.action);
        if expected == None || e.manifest != Some(RoleKeys(expected.value)) { return false; }
      }
      return true;
    }

    method InsertControl(x: Id, e: ControlEvent) returns (accepted: bool)
      requires Valid()
      modifies this
      ensures Valid() && accepted == Accepts(old(Current()), RecoveryTables.Step.InsertControl(x, e))
      ensures Contents() == Apply(old(Contents()), Statement(RecoveryTables.Step.InsertControl(x, e)))
    {
      ghost var before := Contents();
      var allowed := ControlGuard(x, e);
      if !allowed { return false; }
      control := control[x := Current().ControlLog(x) + [e]];
      Queue(before, RecoveryTables.Step.InsertControl(x, e));
      return true;
    }

    /** guard_rag_epoch_key_event. */
    method KeyGuard(x: Id, e: KeyEvent, now: Time) returns (allowed: bool)
      ensures allowed == AcceptsKey(Current(), x, e, now)
    {
      var t := Current();
      if x !in executions || executions[x].epoch !in epochs { return false; }
      var epoch := epochs[executions[x].epoch];
      if epoch.phase != OldRetired || e.binding.generation != executions[x].generation || !ClaimBound(t, epoch) {
        return false;
      }
      var events := t.ControlLog(x);
      if events == [] { return false; }
      var parent := events[|events| - 1];
      if parent.action != e.binding.parent || parent.binding.kind != IssueRoleKey || parent.outcome == Settled
         || parent.binding.generation != e.binding.generation {
        return false;
      }
      var log := t.KeyLog(x);
      if e.sequence != MaxKeySequence(log) + 1 || e.binding.actionSequence == 0 || e.observedAt > now
         || (e.outcome == Pending) != (e.facts == None) || KeyRecorded(t, e.action, e.outcome) {
        return false;
      }
      if e.outcome == Pending {
        var allowed := KeyOpeningAllowed(t, log, e);
        if !allowed { return false; }
      } else {
        if KeyRecorded(t, e.action, Settled) || !KeyFactsAllowed(log, e) { return false; }
        if !(exists i | 0 <= i < |log| ::
               log[i].action == e.action && log[i].outcome == Pending
               && log[i].binding == e.binding && e.observedAt >= log[i].observedAt) {
          return false;
        }
      }
      return true;
    }

    method InsertKey(x: Id, e: KeyEvent, now: Time) returns (accepted: bool)
      requires Valid()
      modifies this
      ensures Valid() && accepted == Accepts(old(Current()), RecoveryTables.Step.InsertKey(x, e, now))
      ensures Contents() == Apply(old(Contents()), Statement(RecoveryTables.Step.InsertKey(x, e, now)))
    {
      ghost var before := Contents();
      var allowed := KeyGuard(x, e, now);
      if !allowed { return false; }
      keys := keys[x := Current().KeyLog(x) + [e]];
      Queue(before, RecoveryTables.Step.InsertKey(x, e, now));
      return true;
    }

    /** The branch of the role-key guard for a new action. */
    method KeyOpeningAllowed(t: Tables, log: seq<KeyEvent>, e: KeyEvent) returns (allowed: bool)
      ensures allowed <==>
                && e.binding.actionSequence == e.sequence
                && !KeyRecorded(t, e.action, Unknown) && !KeyRecorded(t, e.action, Settled)
                && !LatestUnsettled(log, None)
                && !IssuanceTaken(t, e.binding.issuance, e.binding.kind)
                && (e.binding.kind == Issue ==>
                      && e.binding.key == None && NeededRole(log) == Some(e.binding.role)
                      && ReplacementAllowed(log, e.binding))
                && (e.binding.kind == Invalidate ==> InvalidationAllowed(log, e.binding))
    {
      if e.binding.actionSequence != e.sequence || KeyRecorded(t, e.action, Unknown) || KeyRecorded(t, e.action, Settled)
         || LatestUnsettled(log, None) || IssuanceTaken(t, e.binding.issuance, e.binding.kind) {
        return false;
      }
      if e.binding.kind == Issue {
        if e.binding.key != None || NeededRole(log) != Some(e.binding.role) { return false; }
        var last := LatestIssue(log, None, e.binding.role);
        if last == None {
          return e.binding.supersedes == None;
        }
        return SettledAs(last.value, IssuedInaccessible)
               && e.binding.supersedes == Some(last.value.binding.issuance)
               && e.binding.permissions == last.value.binding.permissions
               && InvalidatedExactly(log, last.value.binding.issuance, last.value.facts.value.key);
      }
      return InvalidationAllowed(log, e.binding);
    }

    method PutFloor(cluster: string, f: Floor) returns (accepted: bool)
      requires Valid()
      modifies this
      ensures Valid() && accepted == Accepts(old(Current()), RecoveryTables.Step.PutFloor(cluster, f))
      ensures Contents() == Apply(old(Contents()), Statement(RecoveryTables.Step.PutFloor(cluster, f)))
    {
      ghost var before := Contents();
      if f.epoch !in epochs || f.ordinal <= 0 { return false; }
      var epoch := epochs[f.epoch];
      if epoch.cluster != cluster || epoch.store != f.store || epoch.ordinal != f.ordinal { return false; }
      if cluster in floors && (f.ordinal <= floors[cluster].ordinal || f.store != floors[cluster].store) {
        return false;
      }
      if exists c | c in floors && c != cluster :: floors[c].epoch == f.epoch { return false; }
      floors := floors[cluster := f];
      Queue(before, RecoveryTables.Step.PutFloor(cluster, f));
      return true;
    }

    method InsertRow(s: Step)
      requires s.SetOwners? || s.InsertOperation? || s.InsertGate? || s.InsertEpoch? || s.InsertExecution?
      modifies this`owners, this`operations, this`gates, this`epochs, this`executions
      ensures Current() == After(old(Current()), s)
    {
      match s
      case SetOwners(users) => owners := users;
      case InsertOperation(id, op) => operations := operations[id := op];
      case InsertGate(cluster, gate) => gates := gates[cluster := gate];
      case InsertEpoch(id, e) => epochs := epochs[id := e];
      case InsertExecution(id, x) => executions := executions[id := x];
    }

    /** The inserts with no branching of their own, and the user changes nothing here guards. */
    method Insert(s: Step) returns (accepted: bool)
      requires Valid()
      requires s.SetOwners? || s.InsertOperation? || s.InsertGate? || s.InsertEpoch? || s.InsertExecution?
      modifies this
      ensures Valid() && accepted == Accepts(old(Current()), s)
      ensures Contents() == Apply(old(Contents()), Statement(s))
    {
      ghost var before := Contents();
      if !Accepts(Current(), s) { return false; }
      InsertRow(s);
      Queue(before, s);
      return true;
    }

    /** The deferred checks of the queued alias operations. */
    method OperationsPass() returns (pass: bool)
      ensures pass == forall id | id in operationChecks :: ClosureHasReceipt(Current(), id)
    {
      pass := true;
      var left := operationChecks;
      while left != {}
        invariant left <= operationChecks
        invariant pass == forall id | id in operationChecks - left :: ClosureHasReceipt(Current(), id)
        decreases |left|
      {
        var id :| id in left;
        if !ClosureHasReceipt(Current(), id) { pass := false; }
        left := left - {id};
      }
      assert operationChecks - left == operationChecks;
    }

    /** The deferred checks of the queued epochs. */
    method EpochsPass() returns (pass: bool)
      ensures pass == forall id | id in epochChecks :: EpochIntegrity(Current(), id)
    {
      pass := true;
      var left := epochChecks;
      while left != {}
        invariant left <= epochChecks
        invariant pass == forall id | id in epochChecks - left :: EpochIntegrity(Current(), id)
        decreases |left|
      {
        var id :| id in left;
        if !EpochIntegrity(Current(), id) { pass := false; }
        left := left - {id};
      }
      assert epochChecks - left == epochChecks;
    }

    /** COMMIT: runs the queued deferred checks; if one fails the whole transaction is undone. */
    method Commit() returns (committed: bool)
      requires Valid()
      modifies this
      ensures Valid() && committed == ChecksPass(old(Contents()))
      ensures Contents() == Apply(old(Contents()), Event.Commit)
    {
      ReachableStep(Contents(), Event.Commit);
      var operationsPass := OperationsPass();
      var epochsPass := EpochsPass();
      committed := operationsPass && epochsPass;
      if committed {
        saved := Current();
        operationChecks, epochChecks := {}, {};
        savedJournal := journal;
      } else {
        Restore();
      }
    }

    method Rollback()
      requires Valid()
      modifies this
      ensures Valid() && Contents() == Apply(old(Contents()), Event.Rollback)
    {
      ghost var before := Contents();
      Restore();
      ReachableStep(before, Event.Rollback);
    }

    method SetAliasRows(t: Tables)
      modifies this`owners, this`operations, this`gates, this`receipts
      ensures owners == t.owners && operations == t.operations && gates == t.gates && receipts == t.receipts
    {
      owners, operations, gates, receipts := t.owners, t.operations, t.gates, t.receipts;
    }

    method SetEpochRows(t: Tables)
      modifies this`epochs, this`executions, this`control, this`keys, this`floors
      ensures epochs == t.epochs && executions == t.executions && control == t.control && keys == t.keys
      ensures floors == t.floors
    {
      epochs, executions, control, keys, floors := t.epochs, t.executions, t.control, t.keys, t.floors;
    }

    /** Back to the last committed state. */
    method Restore()
      modifies this
      ensures Current() == old(saved) && saved == old(saved)
      ensures operationChecks == {} && epochChecks == {}
      ensures journal == old(savedJournal) && savedJournal == old(savedJournal)
    {
      SetAliasRows(saved);
      SetEpochRows(saved);
      operationChecks, epochChecks := {}, {};
      journal := savedJournal;
    }
  }
}
