/**
 What the proof of a verified epoch says, over every run: the old server was
 stopped and retired, as two settled events of the control log record, before
 the new one was started and verified, and the proof repeats the claim that the
 epoch was created for.
 */
module EpochProofs {
  import opened ActionLog
  import opened Options
  import opened RecoveryTables
  import opened ControlSafety
  import opened EpochSafety

  // ---------------------------------------------------------------- rows

  /** An epoch row raises the ordinal over the floor it found and belongs to the cluster and store of its operation. */
  ghost predicate EpochRowSound(t: Tables, id: Id)
    requires id in t.epochs
  {
    var e := t.epochs[id];
    && e.ordinal > e.previousFloor >= 0 && e.gateRevision > 0 && e.original.cluster == e.cluster
    && e.operation in t.operations
    && t.operations[e.operation].cluster == e.cluster && t.operations[e.operation].store == e.store
  }

  /** Settled event n of the log is the outcome of this command and records these facts. */
  ghost predicate Logged(log: seq<ControlEvent>, n: nat, kind: Command, facts: Manifest) {
    exists i | 0 <= i < |log| ::
      && log[i].sequence == n && log[i].binding.kind == kind && log[i].outcome == Settled
      && log[i].manifest == Some(facts)
  }

  /** The server changed, and in this order. */
  ghost predicate ReplacedInOrder(p: Proof) {
    && p.replaced.container != p.secured.container && p.replaced.ephemeral != p.newEphemeral
    && p.replaced.stableNode == p.secured.stableNode
    && p.replaced.jvmStart <= p.oldStoppedAt && p.oldStoppedAt <= p.oldRetiredAt && p.oldRetiredAt < p.newStartedAt
    && p.newStartedAt <= p.newJvmStart && p.newJvmStart <= p.accessVerifiedAt && p.accessVerifiedAt <= p.verifiedAt
  }

  /** The proof is about this epoch, its claim, its execution and the server it found. */
  ghost predicate ProofOf(p: Proof, id: Id, e: Epoch, x: Id) {
    && p.epoch == id && p.execution == x && p.minimumEpoch == e.ordinal && p.store == e.store && p.replaced == e.original
    && p.request == e.request && p.actor == e.actor && p.operation == e.operation && p.snapshot == e.snapshot
    && p.gateRevision == e.gateRevision && e.verifiedAt == Some(p.verifiedAt)
  }

  ghost predicate ProofStands(e: Epoch, id: Id, x: Id, log: seq<ControlEvent>) {
    && e.verified.Some? && e.stoppedSequence.Some? && e.retiredSequence.Some?
    && var p := e.verified.value;
    && ReplacedInOrder(p) && ProofOf(p, id, e, x)
    && e.stoppedSequence.value < e.retiredSequence.value
    && Logged(log, e.stoppedSequence.value, StopOld, OldStoppedFacts(e.original.container, p.oldStoppedAt))
    && Logged(log, e.retiredSequence.value, RetireOld, OldRetiredFacts(e.original.container, p.oldRetiredAt))
  }

  ghost predicate Proven(t: Tables, id: Id)
    requires id in t.epochs
  {
    exists x | x in t.executions :: t.executions[x].epoch == id && ProofStands(t.epochs[id], id, x, t.ControlLog(x))
  }

  ghost predicate EpochSound(t: Tables, id: Id)
    requires id in t.epochs
  {
    EpochRowSound(t, id) && (IsVerified(t, id) ==> Proven(t, id))
  }

  ghost predicate EpochsSound(t: Tables) {
    forall id | id in t.epochs :: EpochSound(t, id)
  }

  // ---------------------------------------------------------------- statements

  lemma BindingProves(t: Tables, id: Id, e: Epoch, x: Id, now: Time)
    requires VerifiedBinding(t, id, e, x, now)
    ensures ProofStands(e, id, x, t.ControlLog(x))
  {
  }

  lemma LoggedStays(log: seq<ControlEvent>, more: ControlEvent, n: nat, kind: Command, facts: Manifest)
    requires Logged(log, n, kind, facts)
    ensures Logged(log + [more], n, kind, facts)
  {
    var i :| 0 <= i < |log| && log[i].sequence == n && log[i].binding.kind == kind && log[i].outcome == Settled
             && log[i].manifest == Some(facts);
    assert (log + [more])[i] == log[i];
  }

  lemma ProofKeepsStanding(e: Epoch, id: Id, x: Id, log: seq<ControlEvent>, more: ControlEvent)
    requires ProofStands(e, id, x, log)
    ensures ProofStands(e, id, x, log + [more])
  {
    var p := e.verified.value;
    LoggedStays(log, more, e.stoppedSequence.value, StopOld, OldStoppedFacts(e.original.container, p.oldStoppedAt));
    LoggedStays(log, more, e.retiredSequence.value, RetireOld, OldRetiredFacts(e.original.container, p.oldRetiredAt));
  }

  /** Operations keep their cluster and store, executions stay and their logs only grow. */
  ghost predicate RestKept(t: Tables, u: Tables) {
    && (forall o | o in t.operations ::
          o in u.operations && u.operations[o].cluster == t.operations[o].cluster
          && u.operations[o].store == t.operations[o].store)
    && (forall x | x in t.executions :: x in u.executions && u.executions[x] == t.executions[x])
    && (forall x :: Extends(t.ControlLog(x), u.ControlLog(x)))
  }

  ghost predicate Extends(log: seq<ControlEvent>, later: seq<ControlEvent>) {
    later == log || exists e :: later == log + [e]
  }

  lemma StillProven(t: Tables, u: Tables, id: Id)
    requires id in t.epochs && Proven(t, id) && id in u.epochs && u.epochs[id] == t.epochs[id] && RestKept(t, u)
    ensures Proven(u, id)
  {
    var x :| x in t.executions && t.executions[x].epoch == id && ProofStands(t.epochs[id], id, x, t.ControlLog(x));
    assert Extends(t.ControlLog(x), u.ControlLog(x));
    if u.ControlLog(x) != t.ControlLog(x) {
      var e :| u.ControlLog(x) == t.ControlLog(x) + [e];
      ProofKeepsStanding(t.epochs[id], id, x, t.ControlLog(x), e);
    }
    assert ProofStands(u.epochs[id], id, x, u.ControlLog(x));
  }

  lemma StillSound(t: Tables, u: Tables, id: Id)
    requires id in t.epochs && EpochSound(t, id) && id in u.epochs && u.epochs[id] == t.epochs[id] && RestKept(t, u)
    ensures EpochSound(u, id)
  {
    if IsVerified(t, id) { StillProven(t, u, id); }
  }

  lemma SameRestKept(t: Tables, u: Tables)
    requires u.operations == t.operations && u.executions == t.executions && u.control == t.control
    ensures RestKept(t, u)
  {
    forall x
      ensures Extends(t.ControlLog(x), u.ControlLog(x))
    {
      assert u.ControlLog(x) == t.ControlLog(x);
    }
  }

  lemma OperationRestKept(t: Tables, id: Id, op: Operation)
    requires id !in t.operations || (t.operations[id].cluster, t.operations[id].store) == (op.cluster, op.store)
    ensures RestKept(t, t.(operations := t.operations[id := op]))
  {
    var u := t.(operations := t.operations[id := op]);
    forall x
      ensures Extends(t.ControlLog(x), u.ControlLog(x))
    {
      assert u.ControlLog(x) == t.ControlLog(x);
    }
  }

  lemma ExecutionRestKept(t: Tables, id: Id, x: Execution)
    requires id !in t.executions
    ensures RestKept(t, t.(executions := t.executions[id := x]))
  {
    var u := t.(executions := t.executions[id := x]);
    forall y
      ensures Extends(t.ControlLog(y), u.ControlLog(y))
    {
      assert u.ControlLog(y) == t.ControlLog(y);
    }
  }

  lemma ControlRestKept(t: Tables, x: Id, e: ControlEvent)
    ensures RestKept(t, t.(control := t.control[x := t.ControlLog(x) + [e]]))
  {
    var u := t.(control := t.control[x := t.ControlLog(x) + [e]]);
    forall y
      ensures Extends(t.ControlLog(y), u.ControlLog(y))
    {
      assert u.ControlLog(y) == if y == x then t.ControlLog(x) + [e] else t.ControlLog(y);
    }
  }

  lemma UpdateKeepsOwner(t: Tables, id: Id, op: Operation)
    requires AcceptsOperationUpdate(t, id, op)
    ensures id in t.operations && (t.operations[id].cluster, t.operations[id].store) == (op.cluster, op.store)
  {
  }

  lemma StepKeepsRest(t: Tables, s: Step)
    requires Accepts(t, s)
    ensures RestKept(t, After(t, s))
  {
    match s
    case UpdateOperation(id, op) =>
      UpdateKeepsOwner(t, id, op);
      OperationRestKept(t, id, op);
    case InsertOperation(id, op) => OperationRestKept(t, id, op);
    case InsertExecution(id, x) => ExecutionRestKept(t, id, x);
    case InsertControl(x, e) => ControlRestKept(t, x, e);
    case _ => SameRestKept(t, After(t, s));
  }

  lemma InsertedIsSound(t: Tables, id: Id, e: Epoch)
    requires AcceptsEpochInsert(t, id, e)
    ensures EpochSound(t.(epochs := t.epochs[id := e]), id)
  {
  }

  lemma UpdateKeepsRow(t: Tables, id: Id, e: Epoch, now: Time)
    requires id in t.epochs && EpochRowSound(t, id) && AcceptsEpochUpdate(t, id, e, now)
    ensures EpochRowSound(t.(epochs := t.epochs[id := e]), id)
    ensures IsVerified(t, id) ==>
              (e.verified, e.verifiedAt, e.stoppedSequence, e.retiredSequence)
                == (t.epochs[id].verified, t.epochs[id].verifiedAt, t.epochs[id].stoppedSequence,
                    t.epochs[id].retiredSequence)
    ensures SameIdentity(e, t.epochs[id])
  {
  }

  lemma SameProofStands(was: Epoch, e: Epoch, id: Id, x: Id, log: seq<ControlEvent>)
    requires ProofStands(was, id, x, log) && SameIdentity(e, was)
    requires (e.verified, e.verifiedAt, e.stoppedSequence, e.retiredSequence)
               == (was.verified, was.verifiedAt, was.stoppedSequence, was.retiredSequence)
    ensures ProofStands(e, id, x, log)
  {
  }

  lemma UpdateProves(t: Tables, id: Id, e: Epoch, now: Time)
    requires id in t.epochs && EpochSound(t, id) && AcceptsEpochUpdate(t, id, e, now)
    requires Rank(e.phase) >= Rank(Verified)
    ensures Proven(t.(epochs := t.epochs[id := e]), id)
  {
    var u := t.(epochs := t.epochs[id := e]);
    var x;
    if IsVerified(t, id) {
      x :| x in t.executions && t.executions[x].epoch == id && ProofStands(t.epochs[id], id, x, t.ControlLog(x));
      UpdateKeepsRow(t, id, e, now);
      SameProofStands(t.epochs[id], e, id, x, t.ControlLog(x));
    } else {
      x := VerifyingExecution(t, id, e, now);
      BindingProves(t, id, e, x, now);
    }
    assert u.ControlLog(x) == t.ControlLog(x) && u.executions == t.executions;
    assert ProofStands(u.epochs[id], id, x, u.ControlLog(x));
  }

  lemma UpdatedIsSound(t: Tables, id: Id, e: Epoch, now: Time)
    requires id in t.epochs && EpochSound(t, id) && AcceptsEpochUpdate(t, id, e, now)
    ensures EpochSound(t.(epochs := t.epochs[id := e]), id)
  {
    UpdateKeepsRow(t, id, e, now);
    if Rank(e.phase) >= Rank(Verified) { UpdateProves(t, id, e, now); }
  }

  lemma VerifyingExecution(t: Tables, id: Id, e: Epoch, now: Time) returns (x: Id)
    requires AcceptsEpochUpdate(t, id, e, now) && !IsVerified(t, id) && Rank(e.phase) >= Rank(Verified)
    ensures x in t.executions && t.executions[x].epoch == id && VerifiedBinding(t, id, e, x, now)
  {
    assert e.phase == Verified;
    x :| x in t.executions && LinkedExecution(t, id, x) && VerifiedBinding(t, id, e, x, now);
  }

  lemma OthersStaySound(t: Tables, u: Tables, touched: set<Id>)
    requires EpochsSound(t) && RestKept(t, u)
    requires forall id | id in u.epochs && id !in touched :: id in t.epochs && u.epochs[id] == t.epochs[id]
    requires forall id | id in touched && id in u.epochs :: EpochSound(u, id)
    ensures EpochsSound(u)
  {
    forall id | id in u.epochs
      ensures EpochSound(u, id)
    {
      if id !in touched { StillSound(t, u, id); }
    }
  }

  lemma EpochWrittenKeepsProofs(t: Tables, id: Id, e: Epoch)
    requires EpochsSound(t) && EpochSound(t.(epochs := t.epochs[id := e]), id)
    ensures EpochsSound(t.(epochs := t.epochs[id := e]))
  {
    var u := t.(epochs := t.epochs[id := e]);
    SameRestKept(t, u);
    OthersStaySound(t, u, {id});
  }

  lemma OnlyEpochsChange(t: Tables, s: Step)
    requires !s.InsertEpoch? && !s.UpdateEpoch?
    ensures After(t, s).epochs == t.epochs
  {
    match s
    case SetOwners(_) =>
    case InsertOperation(_, _) =>
    case UpdateOperation(_, _) =>
    case InsertGate(_, _) =>
    case UpdateGate(_, _) =>
    case InsertReceipt(_, _) =>
    case InsertExecution(_, _) =>
    case InsertControl(_, _) =>
    case InsertKey(_, _, _) =>
    case PutFloor(_, _) =>
    case RewriteHistory =>
  }

  lemma OtherStepKeepsProofs(t: Tables, s: Step)
    requires EpochsSound(t) && RestKept(t, After(t, s)) && !s.InsertEpoch? && !s.UpdateEpoch?
    ensures EpochsSound(After(t, s))
  {
    OnlyEpochsChange(t, s);
    OthersStaySound(t, After(t, s), {});
  }

  lemma EpochStepKeepsProofs(t: Tables, s: Step)
    requires EpochsSound(t) && Accepts(t, s) && (s.InsertEpoch? || s.UpdateEpoch?)
    ensures EpochsSound(After(t, s))
  {
    if s.InsertEpoch? { InsertedIsSound(t, s.id, s.epoch); } else { UpdatedIsSound(t, s.id, s.epoch, s.now); }
    EpochWrittenKeepsProofs(t, s.id, s.epoch);
  }

  lemma StepKeepsProofs(t: Tables, s: Step)
    requires EpochsSound(t) && Accepts(t, s)
    ensures EpochsSound(After(t, s))
  {
    if s.InsertEpoch? || s.UpdateEpoch? {
      EpochStepKeepsProofs(t, s);
    } else {
      StepKeepsRest(t, s);
      OtherStepKeepsProofs(t, s);
    }
  }

  lemma {:induction false} RunKeepsProofs(start: Store, events: seq<Event>)
    requires Initial(start)
    ensures EpochsSound(Run(start, events).tables) && EpochsSound(Run(start, events).saved)
    decreases |events|
  {
    if events != [] {
      var s, e := Run(start, events[..|events| - 1]), events[|events| - 1];
      RunKeepsProofs(start, events[..|events| - 1]);
      if e.Statement? && Accepts(s.tables, e.step) { StepKeepsProofs(s.tables, e.step); }
    }
  }

  // ---------------------------------------------------------------- main results

  /** In every state a verified epoch has a proof of its own claim and execution by which the old server was stopped and
      retired, as the control log records, before the new one was started and verified. */
  lemma VerifiedIsProven(s: Store, id: Id)
    requires Reachable(s)
    ensures id in s.tables.epochs ==> EpochSound(s.tables, id)
    ensures id in s.saved.epochs ==> EpochSound(s.saved, id)
  {
    var start, events :| Initial(start) && s == Run(start, events);
    RunKeepsProofs(start, events);
  }

  lemma CarriesProof(t: Tables, id: Id, r: Id, matching: set<Id>)
    requires matching == set q | q in t.receipts && t.receipts[q].proof.Some? && t.receipts[q].proof.value.epoch == id
    requires id in t.epochs && r in t.receipts && t.receipts[r].proof.Some? && t.receipts[r].proof.value.epoch == id
    requires if t.epochs[id].phase == Receipted then
               forall q | q in matching :: t.receipts[q].proof == t.epochs[id].verified
             else matching == {}
    ensures IsVerified(t, id) && t.epochs[id].verified == t.receipts[r].proof
  {
    assert r in matching;
  }

  /** A committed receipt of an epoch carries exactly that proof. */
  lemma ReceiptIsProven(s: Store, r: Id)
    requires Reachable(s) && r in s.saved.receipts && s.saved.receipts[r].proof.Some?
    ensures var t, id := s.saved, s.saved.receipts[r].proof.value.epoch;
            id in t.epochs && t.epochs[id].verified == t.receipts[r].proof && Proven(t, id)
  {
    var t, id := s.saved, s.saved.receipts[r].proof.value.epoch;
    EpochReceiptVouches(s, r);
    ReceiptedExactlyWithReceipt(s, id);
    CarriesProof(t, id, r, set q | q in t.receipts && t.receipts[q].proof.Some? && t.receipts[q].proof.value.epoch == id);
    VerifiedIsProven(s, id);
  }

  /** A phase is entered only from the one before it. */
  lemma PhasesInOrder(t: Tables, id: Id, e: Epoch, now: Time)
    requires AcceptsEpochUpdate(t, id, e, now)
    ensures e == t.epochs[id] || Rank(e.phase) == Rank(t.epochs[id].phase) + 1
  {
  }
}
