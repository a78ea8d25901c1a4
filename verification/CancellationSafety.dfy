/**
 Cancellation of a generative run is all or nothing in every committed state
 and final: afterwards neither the run nor any of its attempts changes, and no
 attempt is added.
 */
module CancellationSafety {
  import opened Options
  import opened GenerativeTables

  // ---------------------------------------------------------------- invariant

  ghost predicate RowsOk(t: Tables) {
    && (forall r | r in t.runs :: RunRowAllowed(t.runs[r]))
    && (forall a | a in t.attempts :: AttemptRowAllowed(t.attempts[a]) && t.attempts[a].key.run in t.runs)
  }

  /** Every attempt lies inside the frozen inputs of its run. */
  ghost predicate InputsOk(t: Tables) {
    forall a | a in t.attempts && t.attempts[a].key.run in t.runs ::
      InsideInputs(t, t.runs[t.attempts[a].key.run], t.attempts[a].key)
  }

  ghost predicate KeysOk(t: Tables) {
    forall a, b | a in t.attempts && b in t.attempts && a != b :: !SameAttempt(t.attempts[a].key, t.attempts[b].key)
  }

  ghost predicate WithdrawnWithRun(t: Tables, a: Id)
    requires a in t.attempts
  {
    var key := t.attempts[a].key;
    t.attempts[a].status == Withdrawn ==>
      && key.run in t.runs && t.runs[key.run].status == Cancelled
      && t.attempts[a].finishedAt == t.runs[key.run].cancelledAt
  }

  ghost predicate CancelOk(t: Tables) {
    forall a | a in t.attempts :: WithdrawnWithRun(t, a)
  }

  /** A cancelled run is complete unless its check is still queued. */
  ghost predicate ClosedOk(t: Tables, checks: set<Id>) {
    forall r | r in t.runs && t.runs[r].status == Cancelled && r !in checks :: CancelComplete(t, r)
  }

  ghost predicate Inv(t: Tables, checks: set<Id>) {
    RowsOk(t) && InputsOk(t) && KeysOk(t) && CancelOk(t) && ClosedOk(t, checks)
  }

  ghost predicate StoreInv(s: Store) {
    Inv(s.tables, s.checks) && Inv(s.saved, {})
  }

  // ---------------------------------------------------------------- statements

  lemma KeepsRows(t: Tables, s: Step)
    requires RowsOk(t) && Accepts(t, s)
    ensures RowsOk(After(t, s))
  {
  }

  lemma KeepsInputs(t: Tables, s: Step)
    requires RowsOk(t) && InputsOk(t) && Accepts(t, s)
    ensures InputsOk(After(t, s))
  {
    var u := After(t, s);
    forall a | a in u.attempts && u.attempts[a].key.run in u.runs
      ensures InsideInputs(u, u.runs[u.attempts[a].key.run], u.attempts[a].key)
    {
      KeyKept(t, s, a);
      if a in t.attempts { InsideStays(t, s, t.attempts[a].key); }
    }
  }

  /** An attempt keeps its key; a new one is inserted inside the inputs of its run. */
  lemma KeyKept(t: Tables, s: Step, a: Id)
    requires Accepts(t, s) && a in After(t, s).attempts
    ensures a in t.attempts ==> After(t, s).attempts[a].key == t.attempts[a].key
    ensures a !in t.attempts ==>
              var u := After(t, s);
              u.attempts[a].key.run in u.runs && InsideInputs(u, u.runs[u.attempts[a].key.run], u.attempts[a].key)
  {
  }

  lemma InsideStays(t: Tables, s: Step, key: AttemptKey)
    requires Accepts(t, s) && key.run in t.runs && InsideInputs(t, t.runs[key.run], key)
    ensures key.run in After(t, s).runs && InsideInputs(After(t, s), After(t, s).runs[key.run], key)
  {
    assert After(t, s).runs[key.run].inputs == t.runs[key.run].inputs;
  }

  lemma KeepsKeys(t: Tables, s: Step)
    requires KeysOk(t) && Accepts(t, s)
    ensures KeysOk(After(t, s))
  {
    match s
    case UpdateAttempt(id, a) => assert a.key == t.attempts[id].key;
    case _ =>
  }

  lemma KeepsCancel(t: Tables, s: Step)
    requires RowsOk(t) && CancelOk(t) && Accepts(t, s)
    ensures CancelOk(After(t, s))
  {
    var u := After(t, s);
    forall a | a in u.attempts
      ensures WithdrawnWithRun(u, a)
    {
      if a in t.attempts && u.attempts[a] == t.attempts[a] {
        assert WithdrawnWithRun(t, a);
      }
    }
  }

  /** The rows of run r and of its attempts are the same in both states. */
  ghost predicate Frozen(t: Tables, u: Tables, r: Id) {
    && r in t.runs && r in u.runs && u.runs[r] == t.runs[r]
    && (forall a | OfRun(t, a, r) :: a in u.attempts && u.attempts[a] == t.attempts[a])
    && (forall a | OfRun(u, a, r) :: a in t.attempts && u.attempts[a] == t.attempts[a])
  }

  /** No accepted statement touches a completely cancelled run: it is immutable, its attempts are terminal, and no
      attempt can be added. */
  lemma CancelledIsFrozen(t: Tables, s: Step, r: Id)
    requires Accepts(t, s) && r in t.runs && t.runs[r].status == Cancelled && CancelComplete(t, r)
    ensures Frozen(t, After(t, s), r)
  {
    match s
    case UpdateAttempt(id, a) =>
      if OfRun(t, id, r) { assert false; }
    case _ =>
  }

  lemma FrozenIsComplete(t: Tables, u: Tables, r: Id)
    requires Frozen(t, u, r) && CancelComplete(t, r)
    ensures CancelComplete(u, r)
  {
    forall a | a in u.attempts && OfRun(u, a, r)
      ensures u.attempts[a].status == Withdrawn && u.attempts[a].finishedAt == u.runs[r].cancelledAt
    {
      assert OfRun(t, a, r);
    }
  }

  lemma KeepsClosed(t: Tables, s: Step, checks: set<Id>)
    requires ClosedOk(t, checks) && Accepts(t, s)
    ensures ClosedOk(After(t, s), checks + Queued(s))
  {
    var u := After(t, s);
    forall r | r in u.runs && u.runs[r].status == Cancelled && r !in checks + Queued(s)
      ensures CancelComplete(u, r)
    {
      assert r in t.runs && t.runs[r].status == Cancelled;
      CancelledIsFrozen(t, s, r);
      FrozenIsComplete(t, u, r);
    }
  }

  lemma KeepsInv(t: Tables, s: Step, checks: set<Id>)
    requires Inv(t, checks) && Accepts(t, s)
    ensures Inv(After(t, s), checks + Queued(s))
  {
    KeepsRows(t, s);
    KeepsInputs(t, s);
    KeepsKeys(t, s);
    KeepsCancel(t, s);
    KeepsClosed(t, s, checks);
  }

  lemma CommitKeepsInv(t: Tables, checks: set<Id>)
    requires Inv(t, checks) && forall r | r in checks :: CancelComplete(t, r)
    ensures Inv(t, {})
  {
  }

  lemma KeepsStoreInv(s: Store, e: Event)
    requires StoreInv(s)
    ensures StoreInv(Apply(s, e))
  {
    match e
    case Statement(step) => if Accepts(s.tables, step) { KeepsInv(s.tables, step, s.checks); }
    case Commit => if forall r | r in s.checks :: CancelComplete(s.tables, r) { CommitKeepsInv(s.tables, s.checks); }
    case Rollback =>
  }

  lemma {:induction false} RunKeepsInv(s: Store, events: seq<Event>)
    requires StoreInv(s)
    ensures StoreInv(Run(s, events))
    decreases |events|
  {
    if events != [] {
      KeepsStoreInv(s, events[0]);
      RunKeepsInv(Apply(s, events[0]), events[1..]);
    }
  }

  lemma InitialInv(s: Store)
    requires Initial(s)
    ensures StoreInv(s)
  {
  }

  // ---------------------------------------------------------------- main results

  /** An attempt that was cancelled together with its run: no claim, result or error, and the run's own timestamp. */
  ghost predicate CancelledWith(r: GenerativeRun, a: Attempt) {
    && a.status == Withdrawn && a.finishedAt == r.cancelledAt && r.cancelledAt.Some?
    && a.token == None && a.result == None && a.bytes == None && a.digest == None && a.error == None
  }

  /** In every committed state: an attempt is cancelled exactly when its run is, and then at the run's timestamp with
      no claim, result or error; a cancelled run itself carries no claim and no result time but that timestamp. */
  lemma CancellationIsAllOrNothing(start: Store, events: seq<Event>, r: Id)
    requires Initial(start) && r in Run(start, events).saved.runs
    ensures var t := Run(start, events).saved;
            && (forall a | OfRun(t, a, r) ::
                  if t.runs[r].status == Cancelled then CancelledWith(t.runs[r], t.attempts[a])
                  else t.attempts[a].status != Withdrawn)
            && (t.runs[r].status == Cancelled ==>
                  && t.runs[r].token == None && t.runs[r].claimedAt == None && t.runs[r].environment == None
                  && t.runs[r].cancelledBy == Some(t.runs[r].inputs.owner)
                  && t.runs[r].finishedAt == t.runs[r].cancelledAt)
  {
    InitialInv(start);
    RunKeepsInv(start, events);
    var t := Run(start, events).saved;
    assert RunRowAllowed(t.runs[r]);
    forall a | OfRun(t, a, r)
      ensures if t.runs[r].status == Cancelled then CancelledWith(t.runs[r], t.attempts[a])
              else t.attempts[a].status != Withdrawn
    {
      assert WithdrawnWithRun(t, a) && AttemptRowAllowed(t.attempts[a]);
      if t.runs[r].status == Cancelled { assert CancelComplete(t, r); }
    }
  }

  lemma FrozenStep(t: Tables, u: Tables, s: Step, r: Id)
    requires Frozen(t, u, r) && t.runs[r].status == Cancelled && CancelComplete(t, r) && Accepts(u, s)
    ensures Frozen(t, After(u, s), r)
  {
    FrozenIsComplete(t, u, r);
    CancelledIsFrozen(u, s, r);
    FrozenTransitive(t, u, After(u, s), r);
  }

  lemma FrozenTransitive(t: Tables, u: Tables, v: Tables, r: Id)
    requires Frozen(t, u, r) && Frozen(u, v, r)
    ensures Frozen(t, v, r)
  {
    forall a | OfRun(t, a, r)
      ensures a in v.attempts && v.attempts[a] == t.attempts[a]
    {
      assert OfRun(u, a, r);
    }
    forall a | OfRun(v, a, r)
      ensures a in t.attempts && v.attempts[a] == t.attempts[a]
    {
      assert OfRun(u, a, r);
    }
  }

  lemma {:induction false} StaysFrozen(t: Tables, s: Store, events: seq<Event>, r: Id)
    requires r in t.runs && t.runs[r].status == Cancelled && CancelComplete(t, r)
    requires Frozen(t, s.tables, r) && Frozen(t, s.saved, r)
    ensures Frozen(t, Run(s, events).tables, r) && Frozen(t, Run(s, events).saved, r)
    decreases |events|
  {
    if events != [] {
      var e := events[0];
      if e.Statement? && Accepts(s.tables, e.step) { FrozenStep(t, s.tables, e.step, r); }
      StaysFrozen(t, Apply(s, e), events[1..], r);
    }
  }

  /** Once a cancellation is committed, the run and its attempts, no more and no fewer, are the same in every later
      state, committed or not. */
  lemma CancellationIsFinal(start: Store, before: seq<Event>, later: seq<Event>, r: Id)
    requires Initial(start)
    requires var t := Run(start, before + [Commit]).saved; r in t.runs && t.runs[r].status == Cancelled
    ensures var t, u := Run(start, before + [Commit]).saved, Run(start, before + [Commit] + later);
            Frozen(t, u.saved, r) && Frozen(t, u.tables, r)
  {
    InitialInv(start);
    RunKeepsInv(start, before + [Commit]);
    RunAppend(start, before, [Commit]);
    RunAppend(start, before + [Commit], later);
    var s := Run(start, before + [Commit]);
    CommitSaves(Run(start, before));
    assert CancelComplete(s.saved, r);
    StaysFrozen(s.saved, s, later, r);
  }

  // ---------------------------------------------------------------- what may be cancelled

  /** Nothing has happened for the attempt: it was never claimed, has no outcome, no execution and no audit. */
  ghost predicate NothingHappened(t: Tables, a: Id)
    requires a in t.attempts
  {
    var attempt := t.attempts[a];
    && attempt == Attempt(attempt.key, Waiting, None, None, None, None, None, None)
    && (forall x | x in t.world.executions :: x != attempt.key.execution && t.world.executions[x].attempt != Some(a))
    && (forall audit | audit in t.world.audits :: audit.execution != attempt.key.execution)
  }

  lemma UnstartedExactly(t: Tables, a: Id)
    requires a in t.attempts
    ensures Unstarted(t, a) <==> NothingHappened(t, a)
  {
    if Unstarted(t, a) {
      forall audit | audit in t.world.audits
        ensures audit.execution != t.attempts[a].key.execution
      {
        var i :| 0 <= i < |t.world.audits| && t.world.audits[i] == audit;
      }
    }
  }

  /** The row of a run after its owner cancelled it. */
  function CancelledRow(r: GenerativeRun, at: Time): GenerativeRun {
    r.(status := Cancelled, finishedAt := Some(at), cancelledBy := Some(r.inputs.owner), cancelledAt := Some(at),
       reason := Some("user_requested"))
  }

  /** A stored run can be cancelled exactly while it is pending and unclaimed, its owner is one, dataset and policy are
      theirs, and nothing has happened for any of its attempts. */
  lemma CancelledExactWhen(t: Tables, id: Id, at: Time)
    requires RowsOk(t) && id in t.runs
    ensures var was := t.runs[id];
            Accepts(t, UpdateRun(id, CancelledRow(was, at))) <==>
              && was.status == Pending && was.claimedAt == None && was.environment == None
              && was.inputs.owner in t.world.owners && Owned(t, was)
              && forall a | OfRun(t, a, id) :: NothingHappened(t, a)
  {
    assert RunRowAllowed(t.runs[id]);
    forall a | OfRun(t, a, id)
      ensures Unstarted(t, a) <==> NothingHappened(t, a)
    {
      UnstartedExactly(t, a);
    }
  }

  // ---------------------------------------------------------------- attempts and the frozen inputs

  /** No two attempts share an execution. */
  ghost predicate ExecutionsApart(t: Tables) {
    forall a, b | a in t.attempts && b in t.attempts && a != b ::
      t.attempts[a].key.execution != t.attempts[b].key.execution
  }

  lemma KeepsExecutionsApart(t: Tables, s: Step)
    requires ExecutionsApart(t) && Accepts(t, s)
    ensures ExecutionsApart(After(t, s))
  {
    match s
    case UpdateAttempt(id, a) => assert a.key == t.attempts[id].key;
    case _ =>
  }

  lemma {:induction false} RunKeepsExecutionsApart(s: Store, events: seq<Event>)
    requires ExecutionsApart(s.tables) && ExecutionsApart(s.saved)
    ensures ExecutionsApart(Run(s, events).tables) && ExecutionsApart(Run(s, events).saved)
    decreases |events|
  {
    if events != [] {
      var e := events[0];
      if e.Statement? && Accepts(s.tables, e.step) { KeepsExecutionsApart(s.tables, e.step); }
      RunKeepsExecutionsApart(Apply(s, e), events[1..]);
    }
  }

  /** In every state every attempt is numbered, is for a case, a repetition and a candidate version of its run, and shares
      neither all of these nor its execution with another. */
  lemma AttemptsStayInside(start: Store, events: seq<Event>, a: Id)
    requires Initial(start) && a in Run(start, events).tables.attempts
    ensures var t := Run(start, events).tables; var key := t.attempts[a].key;
            && key.number > 0 && key.run in t.runs
            && var inputs := t.runs[key.run].inputs;
            && key.caseId in t.Cases(inputs.dataset) && 0 <= key.repetition < inputs.repetitions
            && (exists c :: c in inputs.snapshot.candidates && c.version == key.version)
            && forall b | b in t.attempts && b != a ::
                 var other := t.attempts[b].key;
                 && other.execution != key.execution
                 && (other.run != key.run || other.version != key.version || other.caseId != key.caseId
                     || other.repetition != key.repetition || other.number != key.number)
  {
    InitialInv(start);
    RunKeepsInv(start, events);
    RunKeepsExecutionsApart(start, events);
    AttemptInside(Run(start, events).tables, a);
  }

  lemma AttemptInside(t: Tables, a: Id)
    requires RowsOk(t) && InputsOk(t) && KeysOk(t) && a in t.attempts
    ensures var key := t.attempts[a].key;
            && key.number > 0 && key.run in t.runs
            && var inputs := t.runs[key.run].inputs;
            && key.caseId in t.Cases(inputs.dataset) && 0 <= key.repetition < inputs.repetitions
            && (exists c :: c in inputs.snapshot.candidates && c.version == key.version)
            && forall b | b in t.attempts && b != a ::
                 var other := t.attempts[b].key;
                 other.run != key.run || other.version != key.version || other.caseId != key.caseId
                 || other.repetition != key.repetition || other.number != key.number
  {
    var key := t.attempts[a].key;
    assert AttemptRowAllowed(t.attempts[a]) && InsideInputs(t, t.runs[key.run], key);
    var candidates := t.runs[key.run].inputs.snapshot.candidates;
    var i :| 0 <= i < |candidates| && candidates[i].version == key.version;
    assert candidates[i] in candidates;
    forall b | b in t.attempts && b != a
      ensures !SameAttempt(t.attempts[b].key, key)
    {
    }
  }

  // ---------------------------------------------------------------- finished attempts

  predicate Finished(t: Tables, a: Id) {
    a in t.attempts && t.attempts[a].status in {Done, Broken, Interrupted, Withdrawn}
  }

  lemma FinishedStays(t: Tables, s: Step, a: Id)
    requires Finished(t, a) && Accepts(t, s)
    ensures a in After(t, s).attempts && After(t, s).attempts[a] == t.attempts[a]
  {
  }

  lemma {:induction false} FinishedInBoth(t: Tables, s: Store, events: seq<Event>, a: Id)
    requires Finished(t, a)
    requires a in s.tables.attempts && a in s.saved.attempts
    requires s.tables.attempts[a] == t.attempts[a] && s.saved.attempts[a] == t.attempts[a]
    ensures var u := Run(s, events);
            && a in u.tables.attempts && u.tables.attempts[a] == t.attempts[a]
            && a in u.saved.attempts && u.saved.attempts[a] == t.attempts[a]
    decreases |events|
  {
    if events != [] {
      var e := events[0];
      if e.Statement? && Accepts(s.tables, e.step) { FinishedStays(s.tables, e.step, a); }
      FinishedInBoth(t, Apply(s, e), events[1..], a);
    }
  }

  /** Once a committed attempt is finished, with whatever outcome, its row is the same in every later state. */
  lemma FinishedIsFinal(start: Store, before: seq<Event>, later: seq<Event>, a: Id)
    requires Finished(Run(start, before + [Commit]).saved, a)
    ensures var t, u := Run(start, before + [Commit]).saved, Run(start, before + [Commit] + later);
            && a in u.tables.attempts && u.tables.attempts[a] == t.attempts[a]
            && a in u.saved.attempts && u.saved.attempts[a] == t.attempts[a]
  {
    RunAppend(start, before, [Commit]);
    RunAppend(start, before + [Commit], later);
    CommitSaves(Run(start, before));
    var s := Run(start, before + [Commit]);
    FinishedInBoth(s.saved, s, later, a);
  }

  lemma CommitSaves(s: Store)
    ensures var c := Run(s, [Commit]); c.tables == c.saved && c.checks == {}
  {
    assert Run(s, [Commit]) == Run(Apply(s, Commit), []);
  }
}
