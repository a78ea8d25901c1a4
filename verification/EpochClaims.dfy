/**
 What ties epochs and receipts to the claim on their cluster, over every run:
 the gate stays frozen under the claim of an epoch until the operation is
 closed, and a receipt repeats the claim it settles.
 */
module EpochClaims {
  import opened ActionLog
  import opened Options
  import opened RecoveryTables

  /** The operation of the epoch is closed, or the gate of its cluster is frozen under the claim the epoch was created for. */
  ghost predicate ClaimHeld(t: Tables, id: Id)
    requires id in t.epochs
  {
    var e := t.epochs[id];
    && e.operation in t.operations
    && (t.operations[e.operation].state == Closed
        || (e.cluster in t.gates
            && t.gates[e.cluster] == Gate(Frozen, e.gateRevision, Some(Claim(e.request, e.actor, e.operation, e.snapshot)))))
  }

  /** A receipt of schema 1 settles a reserved operation by comparing it, or any other by a controlled restart; one of
      schema 2 recovers an operation by the proof of an epoch that was created for the same claim. */
  ghost predicate ReceiptSound(t: Tables, r: Id)
    requires r in t.receipts
  {
    var c := t.receipts[r];
    && c.request == r && c.operation in t.operations && c.gateRevision > 0
    && if c.proof == None then
         && c.schema == 1
         && ((c.result == NotDispatched && c.proofKind == ReservedCas)
             || (c.result == RecoveredTerminated && c.proofKind == ControlledRestart))
       else
         && c.schema == 2 && c.result == RecoveredTerminated && c.proofKind == AccessEpochProof
         && var p := c.proof.value;
         && p.epoch in t.epochs && p.execution in t.executions && t.executions[p.execution].epoch == p.epoch
         && var e := t.epochs[p.epoch];
         && c.request == e.request && c.actor == e.actor && c.operation == e.operation && c.snapshot == e.snapshot
         && c.gateRevision == e.gateRevision && c.cluster == e.cluster && p.minimumEpoch == e.ordinal
  }

  ghost predicate ClaimsHeld(t: Tables) {
    forall id | id in t.epochs :: ClaimHeld(t, id)
  }

  ghost predicate ReceiptsSound(t: Tables) {
    forall r | r in t.receipts :: ReceiptSound(t, r)
  }

  // ---------------------------------------------------------------- operations and gates

  lemma OperationKeepsClaims(t: Tables, id: Id, op: Operation)
    requires ClaimsHeld(t) && (id in t.operations && t.operations[id].state == Closed ==> op.state == Closed)
    ensures ClaimsHeld(t.(operations := t.operations[id := op]))
  {
    forall o | o in t.epochs
      ensures ClaimHeld(t.(operations := t.operations[id := op]), o)
    {
      assert ClaimHeld(t, o);
    }
  }

  lemma ClosedStaysClosed(t: Tables, id: Id, op: Operation)
    requires AcceptsOperationUpdate(t, id, op)
    ensures id in t.operations && (t.operations[id].state == Closed ==> op.state == Closed)
  {
  }

  /** A gate that is frozen under a claim is let go only when the operation of the claim is closed. */
  lemma GateLetsGo(t: Tables, c: string, g: Gate)
    requires AcceptsGateUpdate(t, c, g) && g != t.gates[c] && t.gates[c].state == Frozen
    ensures c in t.gates && t.gates[c].claim.Some?
    ensures t.gates[c].claim.value.operation in t.operations
    ensures t.operations[t.gates[c].claim.value.operation].state == Closed
  {
  }

  lemma GateKeepsClaims(t: Tables, c: string, g: Gate)
    requires ClaimsHeld(t) && (c !in t.gates || AcceptsGateUpdate(t, c, g))
    ensures ClaimsHeld(t.(gates := t.gates[c := g]))
  {
    var u := t.(gates := t.gates[c := g]);
    forall o | o in t.epochs
      ensures ClaimHeld(u, o)
    {
      assert ClaimHeld(t, o);
      if c in t.gates && g != t.gates[c] && t.gates[c].state == Frozen { GateLetsGo(t, c, g); }
    }
  }

  // ---------------------------------------------------------------- epochs and receipts

  lemma InsertedIsHeld(t: Tables, id: Id, e: Epoch)
    requires AcceptsEpochInsert(t, id, e)
    ensures id !in t.epochs && ClaimHeld(t.(epochs := t.epochs[id := e]), id)
  {
  }

  lemma UpdatedKeepsIdentity(t: Tables, id: Id, e: Epoch, now: Time)
    requires AcceptsEpochUpdate(t, id, e, now)
    ensures id in t.epochs && SameIdentity(e, t.epochs[id])
  {
  }

  lemma EpochKeepsClaims(t: Tables, id: Id, e: Epoch)
    requires ClaimsHeld(t) && ReceiptsSound(t)
    requires if id in t.epochs then SameIdentity(e, t.epochs[id]) else ClaimHeld(t.(epochs := t.epochs[id := e]), id)
    ensures ClaimsHeld(t.(epochs := t.epochs[id := e])) && ReceiptsSound(t.(epochs := t.epochs[id := e]))
  {
    var u := t.(epochs := t.epochs[id := e]);
    forall o | o in u.epochs
      ensures ClaimHeld(u, o)
    {
      if o in t.epochs { assert ClaimHeld(t, o); }
    }
    forall r | r in u.receipts
      ensures ReceiptSound(u, r)
    {
      assert ReceiptSound(t, r);
    }
  }

  lemma AcceptedReceiptIsSound(t: Tables, r: Receipt, now: Time)
    requires AcceptsReceipt(t, r, now)
    ensures r.request !in t.receipts && ReceiptSound(t.(receipts := t.receipts[r.request := r]), r.request)
  {
  }

  lemma ReceiptKeepsReceipts(t: Tables, r: Receipt)
    requires ReceiptsSound(t) && r.request !in t.receipts
    requires ReceiptSound(t.(receipts := t.receipts[r.request := r]), r.request)
    ensures ReceiptsSound(t.(receipts := t.receipts[r.request := r]))
  {
    var u := t.(receipts := t.receipts[r.request := r]);
    forall q | q in u.receipts
      ensures ReceiptSound(u, q)
    {
      if q != r.request { assert ReceiptSound(t, q); }
    }
  }

  /** Receipts do not depend on gates, and on operations and executions only as long as these stay. */
  lemma ReceiptsStaySound(t: Tables, u: Tables)
    requires ReceiptsSound(t) && u.receipts == t.receipts && u.epochs == t.epochs
    requires forall o | o in t.operations :: o in u.operations
    requires forall x | x in t.executions :: x in u.executions && u.executions[x] == t.executions[x]
    ensures ReceiptsSound(u)
  {
    forall r | r in u.receipts
      ensures ReceiptSound(u, r)
    {
      assert ReceiptSound(t, r);
    }
  }

  lemma ClaimsStayHeld(t: Tables, u: Tables)
    requires ClaimsHeld(t) && u.epochs == t.epochs && u.operations == t.operations && u.gates == t.gates
    ensures ClaimsHeld(u)
  {
    forall id | id in u.epochs
      ensures ClaimHeld(u, id)
    {
      assert ClaimHeld(t, id);
    }
  }

  // ---------------------------------------------------------------- statements and runs

  lemma OperationStep(t: Tables, s: Step)
    requires ClaimsHeld(t) && ReceiptsSound(t) && Accepts(t, s) && (s.InsertOperation? || s.UpdateOperation?)
    ensures ClaimsHeld(After(t, s)) && ReceiptsSound(After(t, s))
  {
    if s.UpdateOperation? { ClosedStaysClosed(t, s.id, s.operation); }
    OperationKeepsClaims(t, s.id, s.operation);
    ReceiptsStaySound(t, After(t, s));
  }

  lemma GateStep(t: Tables, s: Step)
    requires ClaimsHeld(t) && ReceiptsSound(t) && Accepts(t, s) && (s.InsertGate? || s.UpdateGate?)
    ensures ClaimsHeld(After(t, s)) && ReceiptsSound(After(t, s))
  {
    GateKeepsClaims(t, s.cluster, s.gate);
    ReceiptsStaySound(t, After(t, s));
  }

  lemma EpochStep(t: Tables, s: Step)
    requires ClaimsHeld(t) && ReceiptsSound(t) && Accepts(t, s) && (s.InsertEpoch? || s.UpdateEpoch?)
    ensures ClaimsHeld(After(t, s)) && ReceiptsSound(After(t, s))
  {
    if s.InsertEpoch? { InsertedIsHeld(t, s.id, s.epoch); } else { UpdatedKeepsIdentity(t, s.id, s.epoch, s.now); }
    EpochKeepsClaims(t, s.id, s.epoch);
  }

  lemma ReceiptStep(t: Tables, r: Receipt, now: Time)
    requires ClaimsHeld(t) && ReceiptsSound(t) && AcceptsReceipt(t, r, now)
    ensures var u := t.(receipts := t.receipts[r.request := r]); ClaimsHeld(u) && ReceiptsSound(u)
  {
    AcceptedReceiptIsSound(t, r, now);
    ReceiptKeepsReceipts(t, r);
    ClaimsStayHeld(t, t.(receipts := t.receipts[r.request := r]));
  }

  lemma OtherStep(t: Tables, u: Tables)
    requires ClaimsHeld(t) && ReceiptsSound(t)
    requires u.epochs == t.epochs && u.operations == t.operations && u.gates == t.gates && u.receipts == t.receipts
    requires forall x | x in t.executions :: x in u.executions && u.executions[x] == t.executions[x]
    ensures ClaimsHeld(u) && ReceiptsSound(u)
  {
    ClaimsStayHeld(t, u);
    ReceiptsStaySound(t, u);
  }

  lemma StepKeepsClaims(t: Tables, s: Step)
    requires ClaimsHeld(t) && ReceiptsSound(t) && Accepts(t, s)
    ensures ClaimsHeld(After(t, s)) && ReceiptsSound(After(t, s))
  {
    if s.InsertOperation? || s.UpdateOperation? {
      OperationStep(t, s);
    } else if s.InsertGate? || s.UpdateGate? {
      GateStep(t, s);
    } else if s.InsertEpoch? || s.UpdateEpoch? {
      EpochStep(t, s);
    } else if s.InsertReceipt? {
      ReceiptStep(t, s.receipt, s.now);
    } else {
      OtherStep(t, After(t, s));
    }
  }

  lemma {:induction false} RunKeepsClaims(start: Store, events: seq<Event>)
    requires Initial(start)
    ensures var s := Run(start, events);
            ClaimsHeld(s.tables) && ReceiptsSound(s.tables) && ClaimsHeld(s.saved) && ReceiptsSound(s.saved)
    decreases |events|
  {
    if events != [] {
      var s, e := Run(start, events[..|events| - 1]), events[|events| - 1];
      RunKeepsClaims(start, events[..|events| - 1]);
      if e.Statement? && Accepts(s.tables, e.step) { StepKeepsClaims(s.tables, e.step); }
    }
  }

  // ---------------------------------------------------------------- main results

  /** In every state the cluster of an epoch stays frozen under the claim of the epoch until its operation is closed. */
  lemma HeldUntilClosed(s: Store, id: Id)
    requires Reachable(s)
    ensures id in s.tables.epochs ==> ClaimHeld(s.tables, id)
    ensures id in s.saved.epochs ==> ClaimHeld(s.saved, id)
  {
    var start, events :| Initial(start) && s == Run(start, events);
    RunKeepsClaims(start, events);
  }

  /** In every state a receipt settles its operation as its kind of proof says, an epoch proof for the claim of its epoch. */
  lemma EveryReceiptIsSound(s: Store, r: Id)
    requires Reachable(s)
    ensures r in s.tables.receipts ==> ReceiptSound(s.tables, r)
    ensures r in s.saved.receipts ==> ReceiptSound(s.saved, r)
  {
    var start, events :| Initial(start) && s == Run(start, events);
    RunKeepsClaims(start, events);
  }

  /** In every reachable state a key event is recorded only while the operation is open, so while the gate is frozen under
      the claim of the epoch, for an actor who is an owner. */
  lemma KeyEventUnderClaim(s: Store, x: Id, e: KeyEvent, now: Time)
    requires Reachable(s) && Accepts(s.tables, InsertKey(x, e, now))
    ensures var t := s.tables;
            && x in t.executions && t.executions[x].epoch in t.epochs
            && var epoch := t.epochs[t.executions[x].epoch];
            && epoch.operation in t.operations && t.operations[epoch.operation].state == Open && epoch.actor in t.owners
            && epoch.cluster in t.gates
            && t.gates[epoch.cluster]
                 == Gate(Frozen, epoch.gateRevision, Some(Claim(epoch.request, epoch.actor, epoch.operation, epoch.snapshot)))
  {
    OpenWhenAccepted(s.tables, x, e, now);
    HeldUntilClosed(s, s.tables.executions[x].epoch);
  }

  lemma OpenWhenAccepted(t: Tables, x: Id, e: KeyEvent, now: Time)
    requires AcceptsKey(t, x, e, now)
    ensures x in t.executions && t.executions[x].epoch in t.epochs
    ensures var epoch := t.epochs[t.executions[x].epoch];
            epoch.operation in t.operations && t.operations[epoch.operation].state == Open && epoch.actor in t.owners
  {
  }
}
