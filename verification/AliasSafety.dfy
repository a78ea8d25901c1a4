/**
 Safety of alias recovery over every run: recovered closures and receipts come
 in pairs, a claim is released only on recorded evidence, a gate's revision
 counts its freezes, and a dispatched operation is never closed as undispatched.
 */
module AliasSafety {
  import opened Options
  import opened RecoveryTables

  predicate Recovered(op: Operation) {
    op.result == Some(NotDispatched) || op.result == Some(RecoveredTerminated)
  }

  /** What holds between statements; `pending` are the operations whose deferred check is still to run. */
  ghost predicate AliasInvariant(t: Tables, pending: set<Id>) {
    && (forall id | id in t.operations :: OperationRowAllowed(t.operations[id]))
    && (forall id | id in t.operations && id !in pending :: ClosureHasReceipt(t, id))
    && (forall r | r in t.receipts :: t.receipts[r].request == r && t.receipts[r].operation in t.operations)
    && (forall r, q | r in t.receipts && q in t.receipts && r != q :: t.receipts[r].operation != t.receipts[q].operation)
    && (forall c | c in t.gates :: GateSound(t, c))
  }

  /** A gate that is not frozen but holds a claim has released it on recorded evidence. */
  ghost predicate GateSound(t: Tables, c: string)
    requires c in t.gates
  {
    && GateRowAllowed(t.gates[c])
    && (t.gates[c].claim.Some? ==> t.gates[c].claim.value.operation in t.operations)
    && (t.gates[c].state == Admitted && t.gates[c].claim.Some? ==>
          ReleaseBacked(t, c, t.gates[c].claim.value, t.gates[c].revision))
  }

  lemma ReleaseStaysBacked(t: Tables, u: Tables, c: string, claim: Claim, revision: nat)
    requires ReleaseBacked(t, c, claim, revision)
    requires claim.operation in u.operations && u.operations[claim.operation] == t.operations[claim.operation]
    requires forall r | r in t.receipts :: r in u.receipts && u.receipts[r] == t.receipts[r]
    ensures ReleaseBacked(u, c, claim, revision)
  {
  }

  /** A statement that changes no receipt and at most one operation, whose check it queues. */
  lemma ClosuresKept(t: Tables, u: Tables, pending: set<Id>, id: Id)
    requires AliasInvariant(t, pending)
    requires u.receipts == t.receipts
    requires forall o | o in u.operations && o != id :: o in t.operations && u.operations[o] == t.operations[o]
    ensures forall o | o in u.operations && o !in pending + {id} :: ClosureHasReceipt(u, o)
  {
    forall o | o in u.operations && o !in pending + {id}
      ensures ClosureHasReceipt(u, o)
    {
      assert ClosureHasReceipt(t, o);
      assert forall r | r in t.receipts :: ReceiptOf(u, r, o) <==> ReceiptOf(t, r, o);
    }
  }

  lemma GatesKept(t: Tables, u: Tables, pending: set<Id>)
    requires AliasInvariant(t, pending)
    requires u.gates == t.gates
    requires forall o | o in t.operations :: o in u.operations && (u.operations[o] == t.operations[o] || t.operations[o].state == Open)
    requires forall r | r in t.receipts :: r in u.receipts && u.receipts[r] == t.receipts[r]
    ensures forall c | c in u.gates :: GateSound(u, c)
  {
    forall c | c in u.gates
      ensures GateSound(u, c)
    {
      assert GateSound(t, c);
      if t.gates[c].state == Admitted && t.gates[c].claim.Some? {
        ReleaseStaysBacked(t, u, c, t.gates[c].claim.value, t.gates[c].revision);
      }
    }
  }

  lemma OperationStepKeepsAlias(t: Tables, id: Id, op: Operation, pending: set<Id>)
    requires AliasInvariant(t, pending)
    requires id !in t.operations || t.operations[id] == op || t.operations[id].state == Open
    requires OperationRowAllowed(op)
    ensures AliasInvariant(t.(operations := t.operations[id := op]), pending + {id})
  {
    var u := t.(operations := t.operations[id := op]);
    ClosuresKept(t, u, pending, id);
    GatesKept(t, u, pending);
  }

  lemma GateStepKeepsAlias(t: Tables, c: string, g: Gate, pending: set<Id>)
    requires AliasInvariant(t, pending)
    requires (c !in t.gates && g == Gate(Admitted, 0, None)) || AcceptsGateUpdate(t, c, g)
    ensures AliasInvariant(t.(gates := t.gates[c := g]), pending)
  {
    var u := t.(gates := t.gates[c := g]);
    assert forall r, o :: ReceiptOf(u, r, o) <==> ReceiptOf(t, r, o);
    forall o | o in u.operations && o !in pending
      ensures ClosureHasReceipt(u, o)
    {
      assert ClosureHasReceipt(t, o);
    }
    forall d | d in u.gates
      ensures GateSound(u, d)
    {
      if d in t.gates {
        assert GateSound(t, d);
        if t.gates[d].claim.Some? && (t.gates[d].state == Admitted || (d == c && g != t.gates[d])) {
          if ReleaseBacked(t, d, t.gates[d].claim.value, t.gates[d].revision) {
            ReleaseStaysBacked(t, u, d, t.gates[d].claim.value, t.gates[d].revision);
          }
        }
      }
    }
  }

  lemma ReceiptStepKeepsAlias(t: Tables, r: Receipt, pending: set<Id>)
    requires AliasInvariant(t, pending)
    requires r.request !in t.receipts && r.operation in t.operations
    requires forall other | other in t.receipts :: t.receipts[other].operation != r.operation
    ensures AliasInvariant(t.(receipts := t.receipts[r.request := r]), pending + {r.operation})
  {
    var u := t.(receipts := t.receipts[r.request := r]);
    GatesKept(t, u, pending);
    forall o | o in u.operations && o !in pending + {r.operation}
      ensures ClosureHasReceipt(u, o)
    {
      assert ClosureHasReceipt(t, o);
      assert forall q | q in u.receipts :: ReceiptOf(u, q, o) <==> ReceiptOf(t, q, o);
      if Recovered(t.operations[o]) {
        var q :| q in t.receipts && ReceiptOf(t, q, o) && t.receipts[q].cluster == t.operations[o].cluster
                 && Some(t.receipts[q].result) == t.operations[o].result
                 && Some(t.receipts[q].createdAt) == t.operations[o].closedAt;
        assert u.receipts[q] == t.receipts[q];
      }
    }
  }

  lemma OtherStepKeepsAlias(t: Tables, u: Tables, pending: set<Id>)
    requires AliasInvariant(t, pending)
    requires u.operations == t.operations && u.gates == t.gates && u.receipts == t.receipts
    ensures AliasInvariant(u, pending)
  {
    GatesKept(t, u, pending);
    forall o | o in u.operations && o !in pending
      ensures ClosureHasReceipt(u, o)
    {
      assert ClosureHasReceipt(t, o);
      assert forall r | r in t.receipts :: ReceiptOf(u, r, o) <==> ReceiptOf(t, r, o);
    }
  }

  lemma StepKeepsAlias(t: Tables, s: Step, pending: set<Id>)
    requires AliasInvariant(t, pending) && Accepts(t, s)
    ensures AliasInvariant(After(t, s), pending + TouchedOperations(s))
  {
    match s
    case InsertOperation(id, op) => OperationStepKeepsAlias(t, id, op, pending);
    case UpdateOperation(id, op) => OperationStepKeepsAlias(t, id, op, pending);
    case InsertGate(c, g) => GateStepKeepsAlias(t, c, g, pending);
    case UpdateGate(c, g) => GateStepKeepsAlias(t, c, g, pending);
    case InsertReceipt(r, _) => ReceiptStepKeepsAlias(t, r, pending);
    case _ => OtherStepKeepsAlias(t, After(t, s), pending);
  }

  ghost predicate StoreInvariant(s: Store) {
    AliasInvariant(s.tables, s.operationChecks) && AliasInvariant(s.saved, {})
  }

  lemma EventKeepsAlias(s: Store, e: Event)
    requires StoreInvariant(s)
    ensures StoreInvariant(Apply(s, e))
  {
    match e
    case Statement(step) =>
      if Accepts(s.tables, step) { StepKeepsAlias(s.tables, step, s.operationChecks); }
    case Commit =>
    case Rollback =>
  }

  lemma {:induction false} RunKeepsAlias(s: Store, events: seq<Event>)
    requires StoreInvariant(s)
    ensures StoreInvariant(Run(s, events))
    decreases |events|
  {
    if events != [] {
      RunKeepsAlias(s, events[..|events| - 1]);
      EventKeepsAlias(Run(s, events[..|events| - 1]), events[|events| - 1]);
    }
  }

  lemma ReachableInvariant(s: Store)
    requires Reachable(s)
    ensures StoreInvariant(s)
  {
    var start, events :| Initial(start) && s == Run(start, events);
    RunKeepsAlias(start, events);
  }

  /** In every committed state a recovered closure and its receipt exist together: exactly one, and it matches. */
  lemma ClosedExactlyWithReceipt(s: Store, id: Id)
    requires Reachable(s) && id in s.saved.operations
    ensures var op := s.saved.operations[id];
            var matching := set r | r in s.saved.receipts && s.saved.receipts[r].operation == id;
            if Recovered(op) then
              && op.state == Closed && |matching| == 1
              && forall r | r in matching ::
                   && s.saved.receipts[r].cluster == op.cluster
                   && Some(s.saved.receipts[r].result) == op.result
                   && Some(s.saved.receipts[r].createdAt) == op.closedAt
            else matching == {}
  {
    ReachableInvariant(s);
    var t := s.saved;
    var matching := set r | r in t.receipts && t.receipts[r].operation == id;
    assert ClosureHasReceipt(t, id);
    if Recovered(t.operations[id]) {
      var r :| r in t.receipts && ReceiptOf(t, r, id) && t.receipts[r].cluster == t.operations[id].cluster
               && Some(t.receipts[r].result) == t.operations[id].result
               && Some(t.receipts[r].createdAt) == t.operations[id].closedAt;
      assert matching == {r};
    } else {
      assert forall r | r in t.receipts :: !ReceiptOf(t, r, id);
    }
  }

  /** The evidence for letting a claim go: its operation is closed as confirmed, or as recovered with the one receipt that
      repeats the claim. */
  predicate Evidence(t: Tables, c: string, claim: Claim, revision: nat) {
    && claim.operation in t.operations
    && var op := t.operations[claim.operation];
    && op.state == Closed && op.cluster == c
    && (op.result != Some(Confirmed) ==>
          && claim.request in t.receipts
          && var r := t.receipts[claim.request];
          && r.operation == claim.operation && r.actor == claim.actor && r.snapshot == claim.snapshot
          && r.gateRevision == revision && r.cluster == c
          && Some(r.result) == op.result && Some(r.createdAt) == op.closedAt)
  }

  lemma BackedIsEvidence(t: Tables, c: string, claim: Claim, revision: nat)
    requires AliasInvariant(t, {}) && ReleaseBacked(t, c, claim, revision)
    ensures Evidence(t, c, claim, revision)
  {
    var op := t.operations[claim.operation];
    if op.result != Some(Confirmed) {
      assert OperationRowAllowed(op);
      assert ClosureHasReceipt(t, claim.operation);
      var q :| q in t.receipts && ReceiptOf(t, q, claim.operation)
               && t.receipts[q].cluster == op.cluster && Some(t.receipts[q].result) == op.result
               && Some(t.receipts[q].createdAt) == op.closedAt;
    }
  }

  /** A gate that holds a claim and is not frozen has let it go on evidence. */
  lemma ReleaseOnlyOnEvidence(s: Store, c: string)
    requires Reachable(s) && c in s.saved.gates
    requires s.saved.gates[c].state == Admitted && s.saved.gates[c].claim.Some?
    ensures Evidence(s.saved, c, s.saved.gates[c].claim.value, s.saved.gates[c].revision)
  {
    ReachableInvariant(s);
    assert GateSound(s.saved, c);
    BackedIsEvidence(s.saved, c, s.saved.gates[c].claim.value, s.saved.gates[c].revision);
  }

  // ---------------------------------------------------------------- the statements that took effect

  function Replay(t: Tables, journal: seq<Step>): Tables
    decreases |journal|
  {
    if journal == [] then t else After(Replay(t, journal[..|journal| - 1]), journal[|journal| - 1])
  }

  lemma ReplayNext(t: Tables, journal: seq<Step>, s: Step)
    ensures Replay(t, journal + [s]) == After(Replay(t, journal), s)
  {
    assert (journal + [s])[..|journal + [s]| - 1] == journal;
  }

  /** The tables are what the journal of each transaction state has made of the start. */
  lemma {:induction false} JournalReplays(start: Store, events: seq<Event>)
    requires Initial(start)
    ensures var s := Run(start, events);
            s.tables == Replay(start.tables, s.journal) && s.saved == Replay(start.tables, s.savedJournal)
    decreases |events|
  {
    if events != [] {
      var s, e := Run(start, events[..|events| - 1]), events[|events| - 1];
      JournalReplays(start, events[..|events| - 1]);
      if e.Statement? && Accepts(s.tables, e.step) { ReplayNext(start.tables, s.journal, e.step); }
    }
  }

  // ---------------------------------------------------------------- every release had its evidence

  /** A statement that takes a gate out of the frozen state. */
  predicate Releases(t: Tables, s: Step, c: string) {
    s.UpdateGate? && s.cluster == c && c in t.gates && t.gates[c].state == Frozen && s.gate.state != Frozen
  }

  lemma StepKeepsBacked(t: Tables, s: Step, c: string, claim: Claim, revision: nat)
    requires Accepts(t, s) && ReleaseBacked(t, c, claim, revision)
    ensures ReleaseBacked(After(t, s), c, claim, revision)
  {
    assert s.UpdateOperation? ==> AcceptsOperationUpdate(t, s.id, s.operation);
    assert s.InsertReceipt? ==> s.receipt.request !in t.receipts;
    ReleaseStaysBacked(t, After(t, s), c, claim, revision);
  }

  /** Whatever claim statement k of the journal released is backed in t. */
  ghost predicate ReleaseIsBacked(start: Tables, journal: seq<Step>, t: Tables, k: nat, c: string)
    requires k < |journal|
  {
    var was := Replay(start, journal[..k]);
    Releases(was, journal[k], c) ==>
      was.gates[c].claim.Some? && ReleaseBacked(t, c, was.gates[c].claim.value, was.gates[c].revision)
  }

  ghost predicate ReleasesBacked(start: Tables, journal: seq<Step>, t: Tables) {
    forall k, c | 0 <= k < |journal| :: ReleaseIsBacked(start, journal, t, k, c)
  }

  lemma StepBacksReleases(start: Tables, journal: seq<Step>, t: Tables, s: Step)
    requires ReleasesBacked(start, journal, t) && t == Replay(start, journal) && Accepts(t, s)
    ensures ReleasesBacked(start, journal + [s], After(t, s))
  {
    var more := journal + [s];
    forall k, c | 0 <= k < |more|
      ensures ReleaseIsBacked(start, more, After(t, s), k, c)
    {
      assert more[..k] == journal[..k];
      var was := Replay(start, more[..k]);
      if k == |journal| {
        assert journal[..k] == journal;
        assert s.UpdateGate? ==> AcceptsGateUpdate(t, s.cluster, s.gate);
      } else {
        assert ReleaseIsBacked(start, journal, t, k, c);
      }
      if Releases(was, more[k], c) {
        StepKeepsBacked(t, s, c, was.gates[c].claim.value, was.gates[c].revision);
      }
    }
  }

  lemma {:induction false} RunBacksReleases(start: Store, events: seq<Event>)
    requires Initial(start)
    ensures var s := Run(start, events);
            ReleasesBacked(start.tables, s.journal, s.tables) && ReleasesBacked(start.tables, s.savedJournal, s.saved)
    decreases |events|
  {
    if events != [] {
      var s, e := Run(start, events[..|events| - 1]), events[|events| - 1];
      RunBacksReleases(start, events[..|events| - 1]);
      JournalReplays(start, events[..|events| - 1]);
      if e.Statement? && Accepts(s.tables, e.step) {
        StepBacksReleases(start.tables, s.journal, s.tables, e.step);
      }
    }
  }

  /** Every release that took effect, also one followed by a new freeze in the same transaction, let a claim go for which
      every later committed state holds the evidence. */
  lemma EveryReleaseOnEvidence(start: Store, events: seq<Event>, k: nat, c: string)
    requires Initial(start) && k < |Run(start, events).savedJournal|
    requires var s := Run(start, events); Releases(Replay(start.tables, s.savedJournal[..k]), s.savedJournal[k], c)
    ensures var s := Run(start, events);
            var gate := Replay(start.tables, s.savedJournal[..k]).gates[c];
            gate.claim.Some? && Evidence(s.saved, c, gate.claim.value, gate.revision)
  {
    var s := Run(start, events);
    RunBacksReleases(start, events);
    assert ReleaseIsBacked(start.tables, s.savedJournal, s.saved, k, c);
    assert Reachable(s);
    ReachableInvariant(s);
    var gate := Replay(start.tables, s.savedJournal[..k]).gates[c];
    BackedIsEvidence(s.saved, c, gate.claim.value, gate.revision);
  }

  // ---------------------------------------------------------------- revisions count freezes

  /** A statement that takes a gate from admitted to frozen. */
  predicate Freezes(t: Tables, s: Step, c: string) {
    s.UpdateGate? && s.cluster == c && s.gate.state == Frozen && c in t.gates && t.gates[c].state == Admitted
  }

  function FreezeCount(t: Tables, journal: seq<Step>, c: string): nat
    decreases |journal|
  {
    if journal == [] then 0
    else
      var front := journal[..|journal| - 1];
      FreezeCount(t, front, c) + if Freezes(Replay(t, front), journal[|journal| - 1], c) then 1 else 0
  }

  ghost predicate Journalled(start: Tables, t: Tables, journal: seq<Step>) {
    && t == Replay(start, journal)
    && forall c | c in t.gates :: t.gates[c].revision == FreezeCount(start, journal, c)
  }

  lemma StepCountsFreezes(start: Tables, t: Tables, journal: seq<Step>, s: Step)
    requires Journalled(start, t, journal) && Accepts(t, s)
    requires forall c | c !in t.gates :: FreezeCount(start, journal, c) == 0
    ensures Journalled(start, After(t, s), journal + [s])
    ensures forall c | c !in After(t, s).gates :: FreezeCount(start, journal + [s], c) == 0
  {
    assert (journal + [s])[..|journal + [s]| - 1] == journal;
    forall c
      ensures c in After(t, s).gates ==> After(t, s).gates[c].revision == FreezeCount(start, journal + [s], c)
      ensures c !in After(t, s).gates ==> FreezeCount(start, journal + [s], c) == 0
    {
      StepMovesRevision(t, s, c);
    }
  }

  /** A gate's revision goes up by one exactly with a freeze; a new gate starts at 0. */
  lemma StepMovesRevision(t: Tables, s: Step, c: string)
    requires Accepts(t, s)
    ensures Freezes(t, s, c) ==> c in t.gates
    ensures c in t.gates ==>
              && c in After(t, s).gates
              && After(t, s).gates[c].revision == t.gates[c].revision + if Freezes(t, s, c) then 1 else 0
    ensures c !in t.gates && c in After(t, s).gates ==> After(t, s).gates[c].revision == 0
  {
    if s.UpdateGate? {
      assert AcceptsGateUpdate(t, s.cluster, s.gate);
    } else if s.InsertGate? {
      assert s.cluster !in t.gates;
    } else {
      assert After(t, s).gates == t.gates;
    }
  }

  ghost predicate JournalInvariant(start: Tables, s: Store) {
    && Journalled(start, s.tables, s.journal) && Journalled(start, s.saved, s.savedJournal)
    && (forall c | c !in s.tables.gates :: FreezeCount(start, s.journal, c) == 0)
    && (forall c | c !in s.saved.gates :: FreezeCount(start, s.savedJournal, c) == 0)
  }

  lemma {:induction false} RunCountsFreezes(start: Store, events: seq<Event>)
    requires Initial(start)
    ensures JournalInvariant(start.tables, Run(start, events))
    decreases |events|
  {
    if events != [] {
      var s, e := Run(start, events[..|events| - 1]), events[|events| - 1];
      RunCountsFreezes(start, events[..|events| - 1]);
      if e.Statement? && Accepts(s.tables, e.step) {
        StepCountsFreezes(start.tables, s.tables, s.journal, e.step);
      }
    }
  }

  /** In every state, committed or not, a gate's revision is the number of freezes of that gate among the statements that
      have taken effect by then. */
  lemma {:induction false} RevisionCountsFreezes(start: Store, events: seq<Event>, c: string)
    requires Initial(start)
    ensures var s := Run(start, events);
            && (c in s.tables.gates ==> s.tables.gates[c].revision == FreezeCount(start.tables, s.journal, c))
            && (c in s.saved.gates ==> s.saved.gates[c].revision == FreezeCount(start.tables, s.savedJournal, c))
  {
    RunCountsFreezes(start, events);
  }

  // ---------------------------------------------------------------- dispatch is never forgotten

  ghost predicate Dispatched(t: Tables, id: Id) {
    id in t.operations && t.operations[id].phase == Dispatching
  }

  lemma StepKeepsDispatched(t: Tables, s: Step, id: Id)
    requires Dispatched(t, id) && Accepts(t, s)
    ensures Dispatched(After(t, s), id)
  {
    if s.UpdateOperation? || s.InsertOperation? {
      assert s.UpdateOperation? ==> AcceptsOperationUpdate(t, s.id, s.operation);
    } else {
      assert After(t, s).operations == t.operations;
    }
  }

  /** A dispatch seen in a committed state is seen in every later state, committed or not. */
  lemma {:induction false} DispatchStays(s: Store, id: Id, more: seq<Event>)
    requires Dispatched(s.saved, id) && Dispatched(s.tables, id)
    ensures var u := Run(s, more); Dispatched(u.saved, id) && Dispatched(u.tables, id)
    decreases |more|
  {
    if more != [] {
      var u, e := Run(s, more[..|more| - 1]), more[|more| - 1];
      DispatchStays(s, id, more[..|more| - 1]);
      if e.Statement? && Accepts(u.tables, e.step) { StepKeepsDispatched(u.tables, e.step, id); }
    }
  }

  lemma {:induction false} CommittedDispatchIsVisible(start: Store, events: seq<Event>, id: Id)
    requires Initial(start)
    ensures var s := Run(start, events); Dispatched(s.saved, id) ==> Dispatched(s.tables, id)
    decreases |events|
  {
    if events != [] {
      var s, e := Run(start, events[..|events| - 1]), events[|events| - 1];
      CommittedDispatchIsVisible(start, events[..|events| - 1], id);
      if e.Statement? && Accepts(s.tables, e.step) && Dispatched(s.tables, id) {
        StepKeepsDispatched(s.tables, e.step, id);
      }
    }
  }

  /** Once a committed state shows an operation as dispatching, no later state closes it as not dispatched. */
  lemma DispatchedNeverUndispatched(s: Store, id: Id, more: seq<Event>)
    requires Reachable(s) && Dispatched(s.saved, id)
    ensures var u := Run(s, more);
            && id in u.tables.operations && u.tables.operations[id].result != Some(NotDispatched)
            && id in u.saved.operations && u.saved.operations[id].result != Some(NotDispatched)
  {
    var start, events :| Initial(start) && s == Run(start, events);
    CommittedDispatchIsVisible(start, events, id);
    ReachableInvariant(s);
    RunKeepsAlias(s, more);
    DispatchStays(s, id, more);
  }

  // ---------------------------------------------------------------- operations only settle

  /** What a later state keeps of an operation: what it is about always, its whole row once it is closed, and its phase
      up to the one step from reserved to dispatching. */
  ghost predicate OperationLater(was: Operation, now: Operation) {
    && now.store == was.store && now.cluster == was.cluster && now.alias == was.alias && now.inputs == was.inputs
    && (was.state == Closed ==> now == was)
    && (now.phase == was.phase || (was.phase == Reserved && now.phase == Dispatching))
  }

  lemma StepSettles(t: Tables, s: Step, id: Id)
    requires Accepts(t, s) && id in t.operations
    ensures id in After(t, s).operations && OperationLater(t.operations[id], After(t, s).operations[id])
  {
    if s.UpdateOperation? || s.InsertOperation? {
      assert s.UpdateOperation? ==> AcceptsOperationUpdate(t, s.id, s.operation);
    } else {
      assert After(t, s).operations == t.operations;
    }
  }

  ghost predicate LaterIn(was: Operation, t: Tables, id: Id) {
    id in t.operations && OperationLater(was, t.operations[id])
  }

  lemma {:induction false} SettlesInBoth(was: Operation, s: Store, later: seq<Event>, id: Id)
    requires LaterIn(was, s.tables, id) && LaterIn(was, s.saved, id)
    ensures LaterIn(was, Run(s, later).tables, id) && LaterIn(was, Run(s, later).saved, id)
    decreases |later|
  {
    if later != [] {
      var u, e := Run(s, later[..|later| - 1]), later[|later| - 1];
      SettlesInBoth(was, s, later[..|later| - 1], id);
      if e.Statement? && Accepts(u.tables, e.step) { StepSettles(u.tables, e.step, id); }
    }
  }

  /** After a commit an operation keeps what it is about, a closed one keeps its whole row, and a phase changes only from
      reserved to dispatching, in every later state. */
  lemma OperationsOnlySettle(s: Store, later: seq<Event>, id: Id)
    requires id in Apply(s, Commit).saved.operations
    ensures var c, u := Apply(s, Commit), Run(Apply(s, Commit), later);
            LaterIn(c.saved.operations[id], u.tables, id) && LaterIn(c.saved.operations[id], u.saved, id)
  {
    var c := Apply(s, Commit);
    SettlesInBoth(c.saved.operations[id], c, later, id);
  }

  // ---------------------------------------------------------------- claims

  /** No two gates hold claims of the same request. */
  ghost predicate ClaimsApart(gates: map<string, Gate>) {
    forall c, d | c in gates && d in gates && c != d && gates[c].claim.Some? && gates[d].claim.Some? ::
      gates[c].claim.value.request != gates[d].claim.value.request
  }

  lemma StepKeepsClaimsApart(t: Tables, s: Step)
    requires Accepts(t, s) && ClaimsApart(t.gates)
    ensures ClaimsApart(After(t, s).gates)
  {
    if s.UpdateGate? {
      assert AcceptsGateUpdate(t, s.cluster, s.gate);
    } else if s.InsertGate? {
      assert s.gate.claim == None;
    } else {
      assert After(t, s).gates == t.gates;
    }
  }

  /** In every state one recovery request claims one gate at most. */
  lemma {:induction false} RequestClaimsOneGate(start: Store, events: seq<Event>)
    requires Initial(start)
    ensures ClaimsApart(Run(start, events).tables.gates) && ClaimsApart(Run(start, events).saved.gates)
    decreases |events|
  {
    if events != [] {
      var s, e := Run(start, events[..|events| - 1]), events[|events| - 1];
      RequestClaimsOneGate(start, events[..|events| - 1]);
      if e.Statement? && Accepts(s.tables, e.step) { StepKeepsClaimsApart(s.tables, e.step); }
    }
  }
}
