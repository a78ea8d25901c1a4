/**
 Safety of access epochs over every run: closing an epoch and its receipt are
 atomic, epochs that reach `verified` on a cluster carry strictly increasing
 ordinals, and a receipt of an epoch vouches for all three logs.
 */
module EpochSafety {
  import opened Options
  import opened ActionLog
  import opened RecoveryTables
  import opened AliasSafety
  import opened ControlSafety
  import opened RoleKeySafety

  predicate IsVerified(t: Tables, id: Id) {
    id in t.epochs && Rank(t.epochs[id].phase) >= Rank(Verified)
  }

  /** A floor row copies the cluster, store and ordinal of its epoch. */
  ghost predicate FloorsSound(t: Tables) {
    forall c | c in t.floors ::
      && t.floors[c].epoch in t.epochs
      && t.epochs[t.floors[c].epoch].cluster == c
      && t.epochs[t.floors[c].epoch].store == t.floors[c].store
      && t.epochs[t.floors[c].epoch].ordinal == t.floors[c].ordinal
  }

  ghost predicate OrdinalsUnique(t: Tables) {
    forall a, b | a in t.epochs && b in t.epochs && a != b && t.epochs[a].cluster == t.epochs[b].cluster ::
      t.epochs[a].ordinal != t.epochs[b].ordinal
  }

  /** What a later state keeps of an epoch row. */
  predicate EpochLater(t: Tables, u: Tables, id: Id)
    requires id in t.epochs
  {
    && id in u.epochs
    && u.epochs[id].cluster == t.epochs[id].cluster && u.epochs[id].ordinal == t.epochs[id].ordinal
    && u.epochs[id].operation == t.epochs[id].operation && u.epochs[id].store == t.epochs[id].store
    && Rank(t.epochs[id].phase) <= Rank(u.epochs[id].phase)
  }

  predicate FloorLater(t: Tables, u: Tables, c: string)
    requires c in t.floors
  {
    && c in u.floors && u.floors[c].store == t.floors[c].store
    && (u.floors[c] == t.floors[c] || u.floors[c].ordinal > t.floors[c].ordinal)
  }

  /** Epochs stay, phases never go back, floors never go down. */
  ghost predicate Later(t: Tables, u: Tables) {
    && (forall id | id in t.epochs :: EpochLater(t, u, id))
    && (forall c | c in t.floors :: FloorLater(t, u, c))
  }

  lemma LaterTransitive(t: Tables, u: Tables, v: Tables)
    requires Later(t, u) && Later(u, v)
    ensures Later(t, v)
  {
    forall id | id in t.epochs
      ensures EpochLater(t, v, id)
    {
      assert EpochLater(t, u, id) && EpochLater(u, v, id);
    }
    forall c | c in t.floors
      ensures FloorLater(t, v, c)
    {
      assert FloorLater(t, u, c) && FloorLater(u, v, c);
    }
  }

  /** Each receipt of an epoch is the receipt of the epoch's operation. */
  ghost predicate ReceiptsBound(t: Tables) {
    forall r | r in t.receipts && t.receipts[r].proof.Some? ::
      && t.receipts[r].proof.value.epoch in t.epochs
      && t.epochs[t.receipts[r].proof.value.epoch].operation == t.receipts[r].operation
      && t.receipts[r].result == RecoveredTerminated
  }

  ghost predicate TablesSound(t: Tables) {
    FloorsSound(t) && OrdinalsUnique(t) && ReceiptsBound(t)
  }

  /** The receipt half of the deferred epoch check. */
  ghost predicate ClosureAtomic(t: Tables, id: Id)
    requires id in t.epochs
  {
    var e := t.epochs[id];
    if e.phase == Receipted then
      exists r | r in t.receipts ::
        EpochReceipt(t, r, id) && e.receiptedAt == Some(t.receipts[r].createdAt) && t.receipts[r].proof == e.verified
    else
      forall r | r in t.receipts :: !EpochReceipt(t, r, id)
  }

  ghost predicate ClosuresAtomic(t: Tables, pending: set<Id>) {
    forall id | id in t.epochs && id !in pending :: ClosureAtomic(t, id)
  }

  // ---------------------------------------------------------------- single statements

  lemma InsertKeepsSound(t: Tables, id: Id, e: Epoch)
    requires TablesSound(t) && id !in t.epochs && EpochUnique(t, id, e)
    ensures TablesSound(t.(epochs := t.epochs[id := e])) && Later(t, t.(epochs := t.epochs[id := e]))
  {
    var u := t.(epochs := t.epochs[id := e]);
    assert forall o | o in t.epochs :: EpochLater(t, u, o);
    assert forall c | c in t.floors :: FloorLater(t, u, c);
  }

  lemma UpdateKeepsSound(t: Tables, id: Id, e: Epoch)
    requires TablesSound(t) && id in t.epochs && EpochUnique(t, id, e)
    requires SameIdentity(e, t.epochs[id]) && Rank(t.epochs[id].phase) <= Rank(e.phase)
    ensures TablesSound(t.(epochs := t.epochs[id := e])) && Later(t, t.(epochs := t.epochs[id := e]))
  {
    var u := t.(epochs := t.epochs[id := e]);
    assert forall o | o in t.epochs :: EpochLater(t, u, o);
    assert forall c | c in t.floors :: FloorLater(t, u, c);
  }

  lemma UpdateOnlyAdvances(t: Tables, id: Id, e: Epoch, now: Time)
    requires AcceptsEpochUpdate(t, id, e, now)
    ensures id in t.epochs && SameIdentity(e, t.epochs[id]) && EpochUnique(t, id, e)
    ensures Rank(t.epochs[id].phase) <= Rank(e.phase)
    ensures e == t.epochs[id] || e.phase != t.epochs[id].phase
  {
  }

  lemma FloorKeepsSound(t: Tables, c: string, f: Floor)
    requires TablesSound(t) && AcceptsFloor(t, c, f)
    ensures TablesSound(t.(floors := t.floors[c := f])) && Later(t, t.(floors := t.floors[c := f]))
  {
    var u := t.(floors := t.floors[c := f]);
    assert forall o | o in t.epochs :: EpochLater(t, u, o);
    assert forall d | d in t.floors :: FloorLater(t, u, d);
  }

  lemma ReceiptGuard(t: Tables, r: Receipt, now: Time)
    requires AcceptsReceipt(t, r, now)
    ensures r.request !in t.receipts
    ensures r.proof.Some? ==>
              r.proof.value.epoch in t.epochs && t.epochs[r.proof.value.epoch].operation == r.operation
              && r.result == RecoveredTerminated
  {
  }

  lemma ReceiptKeepsSound(t: Tables, r: Receipt)
    requires TablesSound(t) && r.request !in t.receipts
    requires r.proof.Some? ==>
               r.proof.value.epoch in t.epochs && t.epochs[r.proof.value.epoch].operation == r.operation
               && r.result == RecoveredTerminated
    ensures TablesSound(t.(receipts := t.receipts[r.request := r])) && Later(t, t.(receipts := t.receipts[r.request := r]))
  {
    var u := t.(receipts := t.receipts[r.request := r]);
    assert forall o | o in t.epochs :: EpochLater(t, u, o);
    assert forall c | c in t.floors :: FloorLater(t, u, c);
  }

  lemma OtherKeepsSound(t: Tables, u: Tables)
    requires TablesSound(t) && u.epochs == t.epochs && u.floors == t.floors && u.receipts == t.receipts
    ensures TablesSound(u) && Later(t, u)
  {
    assert forall o | o in t.epochs :: EpochLater(t, u, o);
    assert forall c | c in t.floors :: FloorLater(t, u, c);
  }

  lemma StepKeepsSound(t: Tables, s: Step)
    requires TablesSound(t) && Accepts(t, s)
    ensures TablesSound(After(t, s)) && Later(t, After(t, s))
  {
    match s
    case InsertEpoch(id, e) => InsertKeepsSound(t, id, e);
    case UpdateEpoch(id, e, now) =>
      UpdateOnlyAdvances(t, id, e, now);
      UpdateKeepsSound(t, id, e);
    case PutFloor(c, f) => FloorKeepsSound(t, c, f);
    case InsertReceipt(r, now) =>
      ReceiptGuard(t, r, now);
      ReceiptKeepsSound(t, r);
    case _ => OtherKeepsSound(t, After(t, s));
  }

  lemma SameRowsKeepAtomic(t: Tables, u: Tables, pending: set<Id>, touched: set<Id>)
    requires ClosuresAtomic(t, pending)
    requires forall id | id in u.epochs && id !in touched :: id in t.epochs && u.epochs[id] == t.epochs[id]
    requires forall r | r in t.receipts :: r in u.receipts && u.receipts[r] == t.receipts[r]
    requires forall r | r in u.receipts && r !in t.receipts && u.receipts[r].proof.Some? ::
               u.receipts[r].proof.value.epoch in touched
    ensures ClosuresAtomic(u, pending + touched)
  {
    forall id | id in u.epochs && id !in pending + touched
      ensures ClosureAtomic(u, id)
    {
      assert ClosureAtomic(t, id);
      assert forall r | r in u.receipts :: EpochReceipt(u, r, id) <==> EpochReceipt(t, r, id);
    }
  }

  /** A statement changes no epochs but those it touches, adds receipts only for those, and changes no receipt. */
  lemma StepTouches(t: Tables, s: Step)
    requires Accepts(t, s)
    ensures var u, touched := After(t, s), TouchedEpochs(s);
            && (forall id | id in u.epochs && id !in touched :: id in t.epochs && u.epochs[id] == t.epochs[id])
            && (forall r | r in t.receipts :: r in u.receipts && u.receipts[r] == t.receipts[r])
            && forall r | r in u.receipts && r !in t.receipts && u.receipts[r].proof.Some? ::
                 u.receipts[r].proof.value.epoch in touched
  {
    if s.InsertReceipt? { ReceiptGuard(t, s.receipt, s.now); }
  }

  lemma StepKeepsAtomic(t: Tables, s: Step, pending: set<Id>)
    requires ClosuresAtomic(t, pending) && Accepts(t, s)
    ensures ClosuresAtomic(After(t, s), pending + TouchedEpochs(s))
  {
    StepTouches(t, s);
    SameRowsKeepAtomic(t, After(t, s), pending, TouchedEpochs(s));
  }

  // ---------------------------------------------------------------- transactions

  /** Every verified epoch of a committed state is at or below the floor of its cluster. */
  ghost predicate BelowFloor(t: Tables, id: Id)
    requires id in t.epochs
  {
    t.epochs[id].cluster in t.floors && t.epochs[id].ordinal <= t.floors[t.epochs[id].cluster].ordinal
  }

  ghost predicate FloorsHold(t: Tables) {
    forall id | IsVerified(t, id) :: BelowFloor(t, id)
  }

  /** An epoch verified inside the open transaction still has its deferred check ahead. */
  ghost predicate NewlyVerifiedPending(s: Store) {
    forall id | IsVerified(s.tables, id) :: IsVerified(s.saved, id) || id in s.epochChecks
  }

  ghost predicate EpochInvariant(s: Store) {
    && TablesSound(s.tables) && TablesSound(s.saved) && Later(s.saved, s.tables)
    && ClosuresAtomic(s.tables, s.epochChecks) && ClosuresAtomic(s.saved, {})
    && FloorsHold(s.saved) && NewlyVerifiedPending(s)
  }

  lemma StatementKeepsEpochs(s: Store, step: Step)
    requires EpochInvariant(s) && Accepts(s.tables, step)
    ensures EpochInvariant(Apply(s, Statement(step)))
  {
    var u := Apply(s, Statement(step));
    StepKeepsSound(s.tables, step);
    StepKeepsAtomic(s.tables, step, s.epochChecks);
    LaterTransitive(s.saved, s.tables, u.tables);
    StepKeepsPending(s, step);
  }

  lemma StepKeepsPending(s: Store, step: Step)
    requires NewlyVerifiedPending(s) && Accepts(s.tables, step)
    ensures NewlyVerifiedPending(Apply(s, Statement(step)))
  {
    var u := Apply(s, Statement(step));
    forall id | IsVerified(u.tables, id)
      ensures IsVerified(u.saved, id) || id in u.epochChecks
    {
      if id !in TouchedEpochs(step) {
        assert IsVerified(s.tables, id);
      }
    }
  }

  /** A passed check pins a verified epoch to the floor row of its own cluster. */
  lemma CheckedIsFloor(t: Tables, id: Id)
    requires FloorsSound(t) && IsVerified(t, id) && EpochIntegrity(t, id)
    ensures t.epochs[id].cluster in t.floors && t.floors[t.epochs[id].cluster].epoch == id
    ensures t.floors[t.epochs[id].cluster].ordinal == t.epochs[id].ordinal
    ensures t.floors[t.epochs[id].cluster].store == t.epochs[id].store
    ensures t.epochs[id].verified.Some?
    ensures t.floors[t.epochs[id].cluster].identity == t.epochs[id].verified.value.secured
  {
    assert FloorExact(t, id);
    var c :| c in t.floors && t.floors[c].epoch == id && t.floors[c].ordinal == t.epochs[id].ordinal
             && t.floors[c].identity == t.epochs[id].verified.value.secured;
  }

  lemma CommitHoldsFloors(s: Store)
    requires EpochInvariant(s) && ChecksPass(s)
    ensures FloorsHold(s.tables)
  {
    forall id | IsVerified(s.tables, id)
      ensures BelowFloor(s.tables, id)
    {
      if IsVerified(s.saved, id) {
        assert BelowFloor(s.saved, id) && EpochLater(s.saved, s.tables, id);
        assert FloorLater(s.saved, s.tables, s.saved.epochs[id].cluster);
      } else {
        CheckedIsFloor(s.tables, id);
      }
    }
  }

  lemma CommitKeepsAtomic(s: Store)
    requires ClosuresAtomic(s.tables, s.epochChecks) && ChecksPass(s)
    ensures ClosuresAtomic(s.tables, {})
  {
    forall id | id in s.tables.epochs
      ensures ClosureAtomic(s.tables, id)
    {
      if id in s.epochChecks { assert EpochIntegrity(s.tables, id); }
    }
  }

  lemma LaterReflexive(t: Tables)
    ensures Later(t, t)
  {
    assert forall id | id in t.epochs :: EpochLater(t, t, id);
    assert forall c | c in t.floors :: FloorLater(t, t, c);
  }

  lemma EventKeepsEpochs(s: Store, e: Event)
    requires EpochInvariant(s)
    ensures EpochInvariant(Apply(s, e))
    ensures Later(s.saved, Apply(s, e).saved)
  {
    LaterReflexive(s.saved);
    LaterReflexive(s.tables);
    match e
    case Statement(step) => if Accepts(s.tables, step) { StatementKeepsEpochs(s, step); }
    case Commit =>
      if ChecksPass(s) {
        CommitHoldsFloors(s);
        CommitKeepsAtomic(s);
      }
    case Rollback =>
  }

  lemma {:induction false} RunKeepsEpochs(s: Store, events: seq<Event>)
    requires EpochInvariant(s)
    ensures EpochInvariant(Run(s, events)) && Later(s.saved, Run(s, events).saved)
    decreases |events|
  {
    LaterReflexive(s.saved);
    if events != [] {
      var u := Run(s, events[..|events| - 1]);
      RunKeepsEpochs(s, events[..|events| - 1]);
      EventKeepsEpochs(u, events[|events| - 1]);
      LaterTransitive(s.saved, u.saved, Run(s, events).saved);
    }
  }

  lemma ReachableEpochs(s: Store)
    requires Reachable(s)
    ensures EpochInvariant(s)
  {
    var start, events :| Initial(start) && s == Run(start, events);
    LaterReflexive(start.tables);
    RunKeepsEpochs(start, events);
  }

  // ---------------------------------------------------------------- main results

  /** A commit that verifies an epoch leaves it strictly above every epoch of its cluster verified before. */
  lemma CommitRaisesOrdinal(s: Store, a: Id, b: Id)
    requires EpochInvariant(s) && ChecksPass(s)
    requires IsVerified(s.saved, a) && !IsVerified(s.saved, b) && IsVerified(s.tables, b)
    requires s.tables.epochs[b].cluster == s.saved.epochs[a].cluster
    ensures s.saved.epochs[a].ordinal < s.tables.epochs[b].ordinal
  {
    CheckedIsFloor(s.tables, b);
    var c := s.saved.epochs[a].cluster;
    assert BelowFloor(s.saved, a);
    assert FloorLater(s.saved, s.tables, c) && EpochLater(s.saved, s.tables, a);
    assert s.tables.epochs[a].ordinal != s.tables.epochs[b].ordinal;
  }

  /** Along any run, an epoch that reaches `verified` after another one of its cluster has the larger ordinal. */
  lemma {:induction false} OrdinalsStrictlyIncrease(s: Store, a: Id, b: Id, more: seq<Event>)
    requires Reachable(s)
    requires IsVerified(s.saved, a) && !IsVerified(s.saved, b) && IsVerified(Run(s, more).saved, b)
    requires Run(s, more).saved.epochs[b].cluster == s.saved.epochs[a].cluster
    ensures s.saved.epochs[a].ordinal < Run(s, more).saved.epochs[b].ordinal
    decreases |more|
  {
    ReachableEpochs(s);
    OrdinalsIncreaseFrom(s, a, b, more);
  }

  lemma StillVerified(s: Store, e: Event, id: Id)
    requires EpochInvariant(s) && IsVerified(s.saved, id)
    ensures IsVerified(Apply(s, e).saved, id)
    ensures Apply(s, e).saved.epochs[id].cluster == s.saved.epochs[id].cluster
    ensures Apply(s, e).saved.epochs[id].ordinal == s.saved.epochs[id].ordinal
  {
    EventKeepsEpochs(s, e);
    assert EpochLater(s.saved, Apply(s, e).saved, id);
  }

  lemma SavedChangesAtCommit(s: Store, e: Event)
    ensures Apply(s, e).saved == s.saved || (ChecksPass(s) && Apply(s, e).saved == s.tables)
  {
  }

  lemma {:induction false} OrdinalsIncreaseFrom(s: Store, a: Id, b: Id, more: seq<Event>)
    requires EpochInvariant(s)
    requires IsVerified(s.saved, a) && !IsVerified(s.saved, b) && IsVerified(Run(s, more).saved, b)
    requires Run(s, more).saved.epochs[b].cluster == s.saved.epochs[a].cluster
    ensures s.saved.epochs[a].ordinal < Run(s, more).saved.epochs[b].ordinal
    decreases |more|
  {
    var front, e := more[..|more| - 1], more[|more| - 1];
    var u := Run(s, front);
    RunKeepsEpochs(s, front);
    SavedChangesAtCommit(u, e);
    assert EpochLater(s.saved, u.saved, a);
    if IsVerified(u.saved, b) {
      StillVerified(u, e, b);
      OrdinalsIncreaseFrom(s, a, b, front);
    } else {
      CommitRaisesOrdinal(u, a, b);
    }
  }

  /** One commit verifies at most one epoch of a cluster. */
  lemma OneVerificationPerCommit(s: Store, a: Id, b: Id)
    requires Reachable(s) && ChecksPass(s)
    requires !IsVerified(s.saved, a) && !IsVerified(s.saved, b)
    requires IsVerified(s.tables, a) && IsVerified(s.tables, b)
    requires s.tables.epochs[a].cluster == s.tables.epochs[b].cluster
    ensures a == b
  {
    ReachableEpochs(s);
    CheckedIsFloor(s.tables, a);
    CheckedIsFloor(s.tables, b);
  }

  /** In every committed state an epoch is `receipted` exactly when one receipt carries its verified proof. */
  lemma ReceiptedExactlyWithReceipt(s: Store, id: Id)
    requires Reachable(s) && id in s.saved.epochs
    ensures var t := s.saved; var e := t.epochs[id];
            var matching := set r | r in t.receipts && t.receipts[r].proof.Some? && t.receipts[r].proof.value.epoch == id;
            if e.phase == Receipted then
              && |matching| == 1
              && forall r | r in matching ::
                   t.receipts[r].proof == e.verified && e.receiptedAt == Some(t.receipts[r].createdAt)
            else matching == {}
  {
    ReachableEpochs(s);
    ReachableInvariant(s);
    AtMostOneReceipt(s.saved, id);
  }

  lemma AtMostOneReceipt(t: Tables, id: Id)
    requires AliasInvariant(t, {}) && ReceiptsBound(t) && id in t.epochs && ClosureAtomic(t, id)
    ensures var e := t.epochs[id];
            var matching := set r | r in t.receipts && t.receipts[r].proof.Some? && t.receipts[r].proof.value.epoch == id;
            if e.phase == Receipted then
              && |matching| == 1
              && forall r | r in matching ::
                   t.receipts[r].proof == e.verified && e.receiptedAt == Some(t.receipts[r].createdAt)
            else matching == {}
  {
    var matching := set r | r in t.receipts && t.receipts[r].proof.Some? && t.receipts[r].proof.value.epoch == id;
    if t.epochs[id].phase == Receipted {
      var r :| r in t.receipts && EpochReceipt(t, r, id) && t.epochs[id].receiptedAt == Some(t.receipts[r].createdAt)
               && t.receipts[r].proof == t.epochs[id].verified;
      forall q | q in matching
        ensures q == r
      {
      }
      assert matching == {r};
    } else {
      assert forall r | r in t.receipts :: !EpochReceipt(t, r, id);
    }
  }

  /** What a committed epoch receipt vouches for: its operation is closed as recovered, its epoch is closed, all
      twelve commands are settled, and the role keys recorded in the control log are the live ones. */
  ghost predicate ReceiptVouched(t: Tables, r: Id)
    requires r in t.receipts && t.receipts[r].proof.Some?
  {
    var op := t.receipts[r].operation;
    var id := t.receipts[r].proof.value.epoch;
    && op in t.operations && t.operations[op].result == Some(RecoveredTerminated)
    && id in t.epochs && t.epochs[id].phase == Receipted
    && exists x | x in t.executions :: LinkedExecution(t, id, x) && ExecutionFinished(t, x)
  }

  ghost predicate ExecutionFinished(t: Tables, x: Id) {
    && SettledCount(t.ControlLog(x)) == 12
    && exists c | 0 <= c < |t.ControlLog(x)| :: RoleKeySettled(t.ControlLog(x)[c]) && NamesLiveGroup(t, x, c)
  }

  lemma EpochReceiptVouches(s: Store, r: Id)
    requires Reachable(s) && r in s.saved.receipts && s.saved.receipts[r].proof.Some?
    ensures ReceiptVouched(s.saved, r)
  {
    ReachableEpochs(s);
    ClosedEpoch(s, r);
    ReachableControl(s);
    ReachableKeys(s);
    var x := ReceiptedExecution(s.saved, s.saved.receipts[r].proof.value.epoch);
  }

  lemma ReceiptedExecution(t: Tables, id: Id) returns (x: Id)
    requires CouplingInvariant(t) && LogsInvariant(t) && KeyInvariant(t)
    requires id in t.epochs && t.epochs[id].phase == Receipted
    ensures x in t.executions && LinkedExecution(t, id, x) && ExecutionFinished(t, x)
  {
    assert HasExecution(t, id);
    x :| x in t.executions && LinkedExecution(t, id, x);
    assert ExecutionCoupled(t, x);
    FinishedExecution(t, x);
  }

  lemma ClosedEpoch(s: Store, r: Id)
    requires Reachable(s) && EpochInvariant(s) && r in s.saved.receipts && s.saved.receipts[r].proof.Some?
    ensures var t := s.saved; var op := t.receipts[r].operation; var id := t.receipts[r].proof.value.epoch;
            && op in t.operations && t.operations[op].result == Some(RecoveredTerminated)
            && id in t.epochs && t.epochs[id].phase == Receipted
  {
    var t := s.saved; var op := t.receipts[r].operation; var id := t.receipts[r].proof.value.epoch;
    ReachableInvariant(s);
    ClosedExactlyWithReceipt(s, op);
    assert r in set q | q in t.receipts && t.receipts[q].operation == op;
    assert EpochReceipt(t, r, id);
    assert ClosureAtomic(t, id);
  }

  lemma FinishedExecution(t: Tables, x: Id)
    requires KeyInvariant(t) && LogsInvariant(t) && SettledCount(t.ControlLog(x)) == 12
    ensures ExecutionFinished(t, x)
  {
    var c := RoleKeyCommand(t.ControlLog(x));
    SettledNamesLiveGroup(t, x, c);
  }

  lemma RoleKeyCommand(log: seq<ControlEvent>) returns (c: nat)
    requires LogSound(log) && SettledCount(log) == 12
    ensures c < |log| && RoleKeySettled(log[c])
  {
    LogShape(log);
    c := SettledTagHasEntry(ControlEntries(log), 7);
  }
}
