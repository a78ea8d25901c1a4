/**
 Safety of the control log over every run: the log of an execution is a
 sequence of `pending unknown? settled` blocks in the fixed command order, and
 the phase of its epoch stays coupled to it in both directions.
 */
module ControlSafety {
  import opened Options
  import opened ActionLog
  import opened RecoveryTables

  // ---------------------------------------------------------------- one log

  /** Event i works on the command that the settled events before it have reached. */
  ghost predicate InOrder(log: seq<ControlEvent>, i: nat)
    requires i < |log|
  {
    var done := SettledCount(log[..i]);
    done < |COMMAND_ORDER| && log[i].binding.kind == COMMAND_ORDER[done]
  }

  ghost predicate LogSound(log: seq<ControlEvent>) {
    && BlockLog(ControlEntries(log)) && Distinct(ControlEntries(log))
    && (forall i | 0 <= i < |log| :: log[i].sequence == i + 1)
    && (forall i | 0 <= i < |log| :: InOrder(log, i))
  }

  lemma EntriesSnoc(log: seq<ControlEvent>, e: ControlEvent)
    ensures ControlEntries(log + [e]) == ControlEntries(log) + [Entry(e.action, e.binding, e.outcome)]
    ensures SettledCount(log + [e]) == SettledCount(log) + if e.outcome == Settled then 1 else 0
  {
    Snoc(ControlEntries(log), Entry(e.action, e.binding, e.outcome));
    assert ControlEntries(log + [e]) == ControlEntries(log) + [Entry(e.action, e.binding, e.outcome)];
  }

  lemma EntriesPrefix(log: seq<ControlEvent>, i: nat)
    requires i <= |log|
    ensures ControlEntries(log[..i]) == ControlEntries(log)[..i]
  {
  }

  lemma {:induction false} SequenceIsLength(log: seq<ControlEvent>)
    requires forall i | 0 <= i < |log| :: log[i].sequence == i + 1
    ensures MaxSequence(log) == |log|
  {
    if log != [] { SequenceIsLength(log[..|log| - 1]); }
  }

  lemma {:induction false} CountGrows(log: seq<ControlEvent>, i: nat, j: nat)
    requires i <= j <= |log|
    ensures SettledCount(log[..i]) <= SettledCount(log[..j])
    ensures i < j && log[i].outcome == Settled ==> SettledCount(log[..i]) < SettledCount(log[..j])
    decreases j
  {
    if i < j {
      assert log[..j] == log[..j - 1] + [log[j - 1]];
      EntriesSnoc(log[..j - 1], log[j - 1]);
      CountGrows(log, i, j - 1);
    }
  }

  /** Two events of one command belong to one action, and the earlier one is not its settlement. */
  lemma {:induction false} SameCommandSameAction(log: seq<ControlEvent>, i: nat, j: nat)
    requires LogSound(log) && i < j < |log|
    requires log[i].binding.kind == log[j].binding.kind
    ensures log[i].action == log[j].action && log[i].outcome != Settled
    decreases j - i
  {
    assert InOrder(log, i) && InOrder(log, j);
    CountGrows(log, i, j);
    assert Follows(ControlEntries(log)[i], ControlEntries(log)[i + 1]);
    if i + 1 < j {
      SameCommandSameAction(log, i + 1, j);
    }
  }

  lemma TagInOrder(log: seq<ControlEvent>, m: nat)
    requires LogSound(log) && m < SettledCount(log)
    ensures m < |COMMAND_ORDER| && SettledTags(ControlEntries(log))[m].kind == COMMAND_ORDER[m]
  {
    var i := SettledTagHasEntry(ControlEntries(log), m);
    EntriesPrefix(log, i);
    assert InOrder(log, i);
  }

  /** The settled commands are the first n of the fixed order, and the log never exceeds 36 events. */
  lemma LogShape(log: seq<ControlEvent>)
    requires LogSound(log)
    ensures BlockLog(ControlEntries(log))
    ensures SettledCount(log) <= |COMMAND_ORDER| && |log| <= 3 * |COMMAND_ORDER|
    ensures forall m | 0 <= m < SettledCount(log) ::
              SettledTags(ControlEntries(log))[m].kind == COMMAND_ORDER[m]
  {
    var entries := ControlEntries(log);
    BlockLogLength(entries);
    if SettledCount(log) > |COMMAND_ORDER| { TagInOrder(log, |COMMAND_ORDER|); }
    forall m | 0 <= m < SettledCount(log)
      ensures SettledTags(entries)[m].kind == COMMAND_ORDER[m]
    {
      TagInOrder(log, m);
    }
    if log != [] {
      var last := |log| - 1;
      assert InOrder(log, last);
      assert log == log[..last] + [log[last]];
      EntriesSnoc(log[..last], log[last]);
    }
  }

  /** A settled command is one of the first n of the order. */
  lemma SettledCommand(log: seq<ControlEvent>, kind: Command)
    requires LogSound(log) && CommandSettled(log, kind)
    ensures exists m | 0 <= m < SettledCount(log) && m < |COMMAND_ORDER| :: COMMAND_ORDER[m] == kind
  {
    var i :| 0 <= i < |log| && log[i].binding.kind == kind && log[i].outcome == Settled;
    assert InOrder(log, i);
    CountGrows(log, i, |log|);
    assert log[..|log|] == log;
    assert COMMAND_ORDER[SettledCount(log[..i])] == kind;
  }

  /** The two append rules of the event guard, without the parts that concern other tables. */
  ghost predicate Appendable(log: seq<ControlEvent>, e: ControlEvent) {
    && e.sequence == MaxSequence(log) + 1
    && !Recorded(ControlEntries(log), e.action, e.outcome)
    && if e.outcome == Pending then
         && SettledCount(log) < |COMMAND_ORDER| && e.binding.kind == COMMAND_ORDER[SettledCount(log)]
         && NothingUnsettled(ControlEntries(log))
       else
         && (exists i | 0 <= i < |log| ::
               log[i].action == e.action && log[i].outcome == Pending && log[i].binding == e.binding)
         && !Recorded(ControlEntries(log), e.action, Settled)
  }

  lemma GuardGivesAppendable(t: Tables, x: Id, e: ControlEvent)
    requires AcceptsControl(t, x, e)
    ensures Appendable(t.ControlLog(x), e)
  {
    if x !in t.control {
      assert t.ControlLog(x) == [];
    }
  }

  /** Appending keeps the block structure; an outcome goes to the action of the last event. */
  lemma AppendKeepsBlocks(log: seq<ControlEvent>, e: ControlEvent)
    requires BlockLog(ControlEntries(log)) && Distinct(ControlEntries(log)) && Appendable(log, e)
    ensures BlockLog(ControlEntries(log + [e])) && Distinct(ControlEntries(log + [e]))
    ensures e.outcome != Pending ==>
              log != [] && log[|log| - 1].outcome != Settled && log[|log| - 1].binding == e.binding
  {
    var entries := ControlEntries(log);
    var entry := Entry(e.action, e.binding, e.outcome);
    EntriesSnoc(log, e);
    if e.outcome == Pending {
      NothingUnsettledIsFinished(entries);
      OpenAction(entries, entry);
    } else {
      var p :| 0 <= p < |log| && log[p].action == e.action && log[p].outcome == Pending && log[p].binding == e.binding;
      RecordOutcome(entries, entry, p);
    }
  }

  /** The command of an accepted event is the one the log has reached. */
  lemma AppendIsInOrder(log: seq<ControlEvent>, e: ControlEvent)
    requires Appendable(log, e)
    requires forall i | 0 <= i < |log| :: InOrder(log, i)
    requires e.outcome != Pending ==>
               log != [] && log[|log| - 1].outcome != Settled && log[|log| - 1].binding == e.binding
    ensures SettledCount(log) < |COMMAND_ORDER| && e.binding.kind == COMMAND_ORDER[SettledCount(log)]
  {
    if e.outcome != Pending {
      var last := |log| - 1;
      assert InOrder(log, last);
      assert log == log[..last] + [log[last]];
      EntriesSnoc(log[..last], log[last]);
    }
  }

  lemma OrderExtends(log: seq<ControlEvent>, e: ControlEvent)
    requires forall i | 0 <= i < |log| :: InOrder(log, i)
    requires SettledCount(log) < |COMMAND_ORDER| && e.binding.kind == COMMAND_ORDER[SettledCount(log)]
    ensures forall i | 0 <= i < |log + [e]| :: InOrder(log + [e], i)
  {
    var after := log + [e];
    forall i | 0 <= i < |after|
      ensures InOrder(after, i)
    {
      assert after[..i] == log[..i];
      if i == |log| { assert log[..i] == log; } else { assert InOrder(log, i); }
    }
  }

  lemma AppendKeepsSound(log: seq<ControlEvent>, e: ControlEvent)
    requires LogSound(log) && Appendable(log, e)
    ensures LogSound(log + [e])
    ensures SettledCount(log) < |COMMAND_ORDER| && e.binding.kind == COMMAND_ORDER[SettledCount(log)]
  {
    AppendKeepsBlocks(log, e);
    AppendIsInOrder(log, e);
    OrderExtends(log, e);
    SequenceIsLength(log);
  }

  // ---------------------------------------------------------------- log and phase

  function Rank(p: EpochPhase): nat {
    match p
    case Prepared => 0
    case OldStopped => 1
    case OldRetired => 2
    case SecuredStarted => 3
    case Verified => 4
    case Receipted => 5
  }

  /** How many commands must be settled in a phase. */
  function MinSettled(p: EpochPhase): nat {
    match p
    case Prepared => 0
    case OldStopped => 2
    case OldRetired => 3
    case SecuredStarted => 11
    case Verified => 12
    case Receipted => 12
  }

  /** How an epoch's phase, the number n of settled commands and the presence of key events bound each other. */
  predicate Coupled(p: EpochPhase, n: nat, anyKey: bool) {
    && MinSettled(p) <= n <= 12
    && (anyKey || n >= 8 ==> Rank(p) >= Rank(OldRetired))
    && (Rank(p) >= Rank(Verified) ==> n == 12)
  }

  ghost predicate ExecutionCoupled(t: Tables, x: Id)
    requires x in t.executions
  {
    && t.executions[x].epoch in t.epochs
    && Coupled(t.epochs[t.executions[x].epoch].phase, SettledCount(t.ControlLog(x)), t.KeyLog(x) != [])
  }

  ghost predicate HasExecution(t: Tables, id: Id) {
    exists x | x in t.executions :: LinkedExecution(t, id, x)
  }

  /** No two executions belong to one epoch. */
  ghost predicate ExecutionsApart(executions: map<Id, Execution>) {
    forall x, y | x in executions && y in executions && x != y :: executions[x].epoch != executions[y].epoch
  }

  lemma NewExecutionApart(executions: map<Id, Execution>, id: Id, x: Execution)
    requires ExecutionsApart(executions) && id !in executions
    requires forall other | other in executions :: executions[other].epoch != x.epoch
    ensures ExecutionsApart(executions[id := x])
  {
  }

  ghost predicate CouplingInvariant(t: Tables) {
    && ExecutionsApart(t.executions)
    && t.control.Keys <= t.executions.Keys && t.keys.Keys <= t.executions.Keys
    && (forall x | x in t.executions :: ExecutionCoupled(t, x))
    && (forall id | id in t.epochs && t.epochs[id].phase != Prepared :: HasExecution(t, id))
  }

  ghost predicate LogsInvariant(t: Tables) {
    forall x :: LogSound(t.ControlLog(x))
  }

  lemma StillHasExecution(t: Tables, u: Tables, id: Id)
    requires HasExecution(t, id)
    requires forall x | x in t.executions :: x in u.executions && u.executions[x] == t.executions[x]
    ensures HasExecution(u, id)
  {
    var x :| x in t.executions && LinkedExecution(t, id, x);
    assert LinkedExecution(u, id, x);
  }

  /** A statement that adds no epoch, changes no phase and keeps the executions. */
  lemma LogStepKeepsCoupling(t: Tables, u: Tables)
    requires CouplingInvariant(t)
    requires u.epochs == t.epochs && u.executions == t.executions
    requires u.control.Keys <= u.executions.Keys && u.keys.Keys <= u.executions.Keys
    requires forall y | y in t.executions :: ExecutionCoupled(u, y)
    ensures CouplingInvariant(u)
  {
    forall o | o in u.epochs && u.epochs[o].phase != Prepared
      ensures HasExecution(u, o)
    {
      StillHasExecution(t, u, o);
    }
  }

  lemma SameLogsKeepCoupling(t: Tables, u: Tables)
    requires CouplingInvariant(t)
    requires u.epochs == t.epochs && u.executions == t.executions && u.control == t.control && u.keys == t.keys
    ensures CouplingInvariant(u)
  {
    forall y | y in t.executions
      ensures ExecutionCoupled(u, y)
    {
      assert ExecutionCoupled(t, y);
      assert u.ControlLog(y) == t.ControlLog(y) && u.KeyLog(y) == t.KeyLog(y);
    }
    LogStepKeepsCoupling(t, u);
  }

  /** An execution whose row, epoch and logs are the same stays coupled. */
  lemma StillCoupled(t: Tables, u: Tables, y: Id)
    requires y in t.executions && y in u.executions && ExecutionCoupled(t, y) && u.executions[y] == t.executions[y]
    requires t.executions[y].epoch in u.epochs && u.epochs[t.executions[y].epoch] == t.epochs[t.executions[y].epoch]
    requires u.ControlLog(y) == t.ControlLog(y) && u.KeyLog(y) == t.KeyLog(y)
    ensures ExecutionCoupled(u, y)
  {
  }

  lemma NewExecutionCoupled(t: Tables, id: Id, x: Execution)
    requires CouplingInvariant(t)
    requires id !in t.executions && x.epoch in t.epochs
    requires forall other | other in t.executions :: t.executions[other].epoch != x.epoch
    ensures ExecutionCoupled(t.(executions := t.executions[id := x]), id)
  {
    var u := t.(executions := t.executions[id := x]);
    assert u.ControlLog(id) == [] && u.KeyLog(id) == [];
    assert !HasExecution(t, x.epoch);
  }

  lemma ExecutionStepKeepsCoupling(t: Tables, id: Id, x: Execution)
    requires CouplingInvariant(t)
    requires id !in t.executions && x.epoch in t.epochs
    requires forall other | other in t.executions :: t.executions[other].epoch != x.epoch
    ensures CouplingInvariant(t.(executions := t.executions[id := x]))
  {
    var u := t.(executions := t.executions[id := x]);
    forall y | y in u.executions
      ensures ExecutionCoupled(u, y)
    {
      if y == id {
        NewExecutionCoupled(t, id, x);
      } else {
        assert ExecutionCoupled(t, y);
        StillCoupled(t, u, y);
      }
    }
    NewExecutionApart(t.executions, id, x);
    forall o | o in u.epochs && u.epochs[o].phase != Prepared
      ensures HasExecution(u, o)
    {
      StillHasExecution(t, u, o);
    }
  }

  /** What an accepted epoch insert or update does to the phase. */
  ghost predicate PhaseStep(t: Tables, id: Id, p: EpochPhase) {
    && (id !in t.epochs ==> p == Prepared)
    && (id in t.epochs ==> Rank(t.epochs[id].phase) <= Rank(p))
    && (p != Prepared ==> HasExecution(t, id))
    && (forall x | x in t.executions && LinkedExecution(t, id, x) :: SettledCount(t.ControlLog(x)) >= MinSettled(p))
  }

  lemma EpochStepKeepsExecution(t: Tables, id: Id, e: Epoch, y: Id)
    requires y in t.executions && ExecutionCoupled(t, y)
    requires id in t.epochs ==> Rank(t.epochs[id].phase) <= Rank(e.phase)
    requires LinkedExecution(t, id, y) ==> id in t.epochs && SettledCount(t.ControlLog(y)) >= MinSettled(e.phase)
    ensures ExecutionCoupled(t.(epochs := t.epochs[id := e]), y)
  {
    var u := t.(epochs := t.epochs[id := e]);
    assert u.ControlLog(y) == t.ControlLog(y) && u.KeyLog(y) == t.KeyLog(y);
  }

  lemma EpochStepKeepsCoupling(t: Tables, id: Id, e: Epoch)
    requires CouplingInvariant(t) && PhaseStep(t, id, e.phase)
    ensures CouplingInvariant(t.(epochs := t.epochs[id := e]))
  {
    var u := t.(epochs := t.epochs[id := e]);
    forall y | y in u.executions
      ensures ExecutionCoupled(u, y)
    {
      assert ExecutionCoupled(t, y);
      EpochStepKeepsExecution(t, id, e, y);
    }
    forall o | o in u.epochs && u.epochs[o].phase != Prepared
      ensures HasExecution(u, o)
    {
      assert HasExecution(t, o);
      var y :| y in t.executions && LinkedExecution(t, o, y);
      assert LinkedExecution(u, o, y);
    }
  }

  lemma InsertIsPhaseStep(t: Tables, id: Id, e: Epoch)
    requires CouplingInvariant(t) && AcceptsEpochInsert(t, id, e)
    ensures PhaseStep(t, id, e.phase)
  {
    forall x | x in t.executions && LinkedExecution(t, id, x)
      ensures SettledCount(t.ControlLog(x)) >= 0
    {
    }
  }

  /** The part of the epoch guard that ties a new phase to a settled command. */
  lemma UpdateNeedsCommand(t: Tables, id: Id, e: Epoch, now: Time)
    requires AcceptsEpochUpdate(t, id, e, now) && e.phase != t.epochs[id].phase
    ensures NextPhase(t.epochs[id].phase) == Some(e.phase)
    ensures RequiredCommand(e.phase).Some? ==>
              exists x | x in t.executions ::
                LinkedExecution(t, id, x) && CommandSettled(t.ControlLog(x), RequiredCommand(e.phase).value)
  {
  }

  lemma NextPhaseRanks(was: EpochPhase, p: EpochPhase)
    requires NextPhase(was) == Some(p)
    ensures Rank(was) <= Rank(p)
    ensures RequiredCommand(p) == None ==> was != Prepared && MinSettled(p) <= MinSettled(was)
  {
  }

  /** The execution whose settled command made an epoch's new phase possible. */
  lemma CommandExecution(t: Tables, id: Id, p: EpochPhase) returns (x: Id)
    requires LogsInvariant(t) && RequiredCommand(p).Some?
    requires exists x | x in t.executions ::
               LinkedExecution(t, id, x) && CommandSettled(t.ControlLog(x), RequiredCommand(p).value)
    ensures x in t.executions && LinkedExecution(t, id, x) && SettledCount(t.ControlLog(x)) >= MinSettled(p)
  {
    x :| x in t.executions && LinkedExecution(t, id, x) && CommandSettled(t.ControlLog(x), RequiredCommand(p).value);
    SettledMinimum(t.ControlLog(x), p);
  }

  /** The execution of an epoch past its first phase. */
  lemma LaterExecution(t: Tables, id: Id) returns (x: Id)
    requires CouplingInvariant(t) && id in t.epochs && t.epochs[id].phase != Prepared
    ensures x in t.executions && LinkedExecution(t, id, x)
    ensures SettledCount(t.ControlLog(x)) >= MinSettled(t.epochs[id].phase)
  {
    assert HasExecution(t, id);
    x :| x in t.executions && LinkedExecution(t, id, x);
    assert ExecutionCoupled(t, x);
  }

  /** The execution that made an epoch's new phase possible. */
  lemma UpdateExecution(t: Tables, id: Id, e: Epoch, now: Time) returns (x: Id)
    requires CouplingInvariant(t) && LogsInvariant(t) && AcceptsEpochUpdate(t, id, e, now)
    requires e.phase != t.epochs[id].phase
    ensures x in t.executions && LinkedExecution(t, id, x) && SettledCount(t.ControlLog(x)) >= MinSettled(e.phase)
    ensures Rank(t.epochs[id].phase) <= Rank(e.phase)
  {
    UpdateNeedsCommand(t, id, e, now);
    NextPhaseRanks(t.epochs[id].phase, e.phase);
    if RequiredCommand(e.phase).Some? {
      x := CommandExecution(t, id, e.phase);
    } else {
      x := LaterExecution(t, id);
    }
  }

  lemma UpdateIsPhaseStep(t: Tables, id: Id, e: Epoch, now: Time)
    requires CouplingInvariant(t) && LogsInvariant(t) && AcceptsEpochUpdate(t, id, e, now)
    ensures PhaseStep(t, id, e.phase)
  {
    if e.phase == t.epochs[id].phase {
      forall x | x in t.executions && LinkedExecution(t, id, x)
        ensures SettledCount(t.ControlLog(x)) >= MinSettled(e.phase)
      {
        assert ExecutionCoupled(t, x);
      }
    } else {
      var y := UpdateExecution(t, id, e, now);
      assert HasExecution(t, id);
    }
  }

  lemma EpochInsertKeepsCoupling(t: Tables, id: Id, e: Epoch)
    requires CouplingInvariant(t) && AcceptsEpochInsert(t, id, e)
    ensures CouplingInvariant(t.(epochs := t.epochs[id := e]))
  {
    InsertIsPhaseStep(t, id, e);
    EpochStepKeepsCoupling(t, id, e);
  }

  lemma EpochUpdateKeepsCoupling(t: Tables, id: Id, e: Epoch, now: Time)
    requires CouplingInvariant(t) && LogsInvariant(t) && AcceptsEpochUpdate(t, id, e, now)
    ensures CouplingInvariant(t.(epochs := t.epochs[id := e]))
  {
    UpdateIsPhaseStep(t, id, e, now);
    EpochStepKeepsCoupling(t, id, e);
  }

  lemma SettledMinimum(log: seq<ControlEvent>, p: EpochPhase)
    requires LogSound(log) && RequiredCommand(p).Some? && CommandSettled(log, RequiredCommand(p).value)
    ensures SettledCount(log) >= MinSettled(p)
  {
    SettledCommand(log, RequiredCommand(p).value);
  }

  lemma ControlStepKeepsCoupling(t: Tables, x: Id, e: ControlEvent)
    requires CouplingInvariant(t) && x in t.executions
    requires Rank(t.epochs[t.executions[x].epoch].phase) < Rank(Verified)
    requires SettledCount(t.ControlLog(x)) <= SettledCount(t.ControlLog(x) + [e]) <= 12
    requires SettledCount(t.ControlLog(x) + [e]) >= 8 ==> SettledCount(t.ControlLog(x)) >= 8 || t.KeyLog(x) != []
    ensures CouplingInvariant(t.(control := t.control[x := t.ControlLog(x) + [e]]))
  {
    var u := t.(control := t.control[x := t.ControlLog(x) + [e]]);
    forall y | y in u.executions
      ensures ExecutionCoupled(u, y)
    {
      assert ExecutionCoupled(t, y);
      assert u.ControlLog(y) == if y == x then t.ControlLog(x) + [e] else t.ControlLog(y);
      assert u.KeyLog(y) == t.KeyLog(y);
    }
    LogStepKeepsCoupling(t, u);
  }

  /** The parts of the event guard that concern the phase and the key log. */
  lemma GuardGivesBounds(t: Tables, x: Id, e: ControlEvent)
    requires AcceptsControl(t, x, e)
    ensures x in t.executions && t.executions[x].epoch in t.epochs
    ensures Rank(t.epochs[t.executions[x].epoch].phase) < Rank(Verified)
    ensures e.binding.kind == IssueRoleKey && e.outcome == Settled ==> t.KeyLog(x) != []
  {
    if e.binding.kind == IssueRoleKey && e.outcome == Settled {
      assert KeyGroupOf(x, t.KeyLog(x), e.action).Some?;
    }
  }

  lemma ControlStepKeepsLogs(t: Tables, x: Id, e: ControlEvent)
    requires LogsInvariant(t) && LogSound(t.ControlLog(x) + [e])
    ensures LogsInvariant(t.(control := t.control[x := t.ControlLog(x) + [e]]))
  {
    var u := t.(control := t.control[x := t.ControlLog(x) + [e]]);
    assert forall y :: u.ControlLog(y) == if y == x then t.ControlLog(x) + [e] else t.ControlLog(y);
  }

  /** What an accepted event does to its own log. */
  lemma AcceptedEvent(t: Tables, x: Id, e: ControlEvent)
    requires LogSound(t.ControlLog(x)) && AcceptsControl(t, x, e)
    ensures LogSound(t.ControlLog(x) + [e])
    ensures var n := SettledCount(t.ControlLog(x));
            && n < 12 && e.binding.kind == COMMAND_ORDER[n]
            && SettledCount(t.ControlLog(x) + [e]) == n + if e.outcome == Settled then 1 else 0
  {
    GuardGivesAppendable(t, x, e);
    AppendKeepsSound(t.ControlLog(x), e);
    EntriesSnoc(t.ControlLog(x), e);
  }

  lemma KeyEventKeepsCoupled(t: Tables, x: Id, e: KeyEvent)
    requires x in t.executions && ExecutionCoupled(t, x) && t.epochs[t.executions[x].epoch].phase == OldRetired
    ensures ExecutionCoupled(t.(keys := t.keys[x := t.KeyLog(x) + [e]]), x)
  {
    var u := t.(keys := t.keys[x := t.KeyLog(x) + [e]]);
    assert u.ControlLog(x) == t.ControlLog(x);
  }

  lemma KeyStepKeepsCoupling(t: Tables, x: Id, e: KeyEvent)
    requires CouplingInvariant(t)
    requires x in t.executions && t.epochs[t.executions[x].epoch].phase == OldRetired
    ensures CouplingInvariant(t.(keys := t.keys[x := t.KeyLog(x) + [e]]))
  {
    var u := t.(keys := t.keys[x := t.KeyLog(x) + [e]]);
    forall y | y in u.executions
      ensures ExecutionCoupled(u, y)
    {
      assert ExecutionCoupled(t, y);
      if y == x { KeyEventKeepsCoupled(t, x, e); } else { StillCoupled(t, u, y); }
    }
    LogStepKeepsCoupling(t, u);
  }

  /** What an accepted event does to the count of settled commands. */
  lemma EventBounds(t: Tables, x: Id, e: ControlEvent)
    requires LogSound(t.ControlLog(x)) && AcceptsControl(t, x, e)
    ensures x in t.executions && t.executions[x].epoch in t.epochs
    ensures Rank(t.epochs[t.executions[x].epoch].phase) < Rank(Verified)
    ensures LogSound(t.ControlLog(x) + [e])
    ensures SettledCount(t.ControlLog(x)) <= SettledCount(t.ControlLog(x) + [e]) <= 12
    ensures SettledCount(t.ControlLog(x) + [e]) >= 8 ==> SettledCount(t.ControlLog(x)) >= 8 || t.KeyLog(x) != []
  {
    AcceptedEvent(t, x, e);
    GuardGivesBounds(t, x, e);
  }

  lemma ControlStepKeepsInvariants(t: Tables, x: Id, e: ControlEvent)
    requires CouplingInvariant(t) && LogsInvariant(t) && AcceptsControl(t, x, e)
    ensures CouplingInvariant(t.(control := t.control[x := t.ControlLog(x) + [e]]))
    ensures LogsInvariant(t.(control := t.control[x := t.ControlLog(x) + [e]]))
  {
    EventBounds(t, x, e);
    ControlStepKeepsCoupling(t, x, e);
    ControlStepKeepsLogs(t, x, e);
  }

  lemma SameControlKeepsLogs(t: Tables, u: Tables)
    requires LogsInvariant(t) && u.control == t.control
    ensures LogsInvariant(u)
  {
    assert forall x :: u.ControlLog(x) == t.ControlLog(x);
  }

  lemma StepKeepsControl(t: Tables, s: Step)
    requires CouplingInvariant(t) && LogsInvariant(t) && Accepts(t, s)
    ensures CouplingInvariant(After(t, s)) && LogsInvariant(After(t, s))
  {
    if s.InsertControl? {
      ControlStepKeepsInvariants(t, s.x, s.control);
    } else {
      OtherStepKeepsCoupling(t, s);
      OtherStepKeepsLogs(t, s);
    }
  }

  lemma OtherStepKeepsLogs(t: Tables, s: Step)
    requires LogsInvariant(t) && !s.InsertControl?
    ensures LogsInvariant(After(t, s))
  {
    OnlyControlAppends(t, s);
    SameControlKeepsLogs(t, After(t, s));
  }

  lemma OnlyControlAppends(t: Tables, s: Step)
    requires !s.InsertControl?
    ensures After(t, s).control == t.control
  {
    match s
    case SetOwners(_) =>
    case InsertOperation(_, _) =>
    case UpdateOperation(_, _) =>
    case InsertGate(_, _) =>
    case UpdateGate(_, _) =>
    case InsertReceipt(_, _) =>
    case InsertEpoch(_, _) =>
    case UpdateEpoch(_, _, _) =>
    case InsertExecution(_, _) =>
    case InsertKey(_, _, _) =>
    case PutFloor(_, _) =>
    case RewriteHistory =>
  }

  lemma OtherStepKeepsCoupling(t: Tables, s: Step)
    requires CouplingInvariant(t) && LogsInvariant(t) && Accepts(t, s) && !s.InsertControl?
    ensures CouplingInvariant(After(t, s))
  {
    match s
    case InsertExecution(id, x) => ExecutionStepKeepsCoupling(t, id, x);
    case InsertEpoch(id, e) => EpochInsertKeepsCoupling(t, id, e);
    case UpdateEpoch(id, e, now) => EpochUpdateKeepsCoupling(t, id, e, now);
    case InsertKey(x, e, now) => KeyStepKeepsCoupling(t, x, e);
    case _ => SameLogsKeepCoupling(t, After(t, s));
  }

  lemma {:induction false} RunKeepsControl(start: Store, events: seq<Event>)
    requires Initial(start)
    ensures var s := Run(start, events);
            && CouplingInvariant(s.tables) && LogsInvariant(s.tables)
            && CouplingInvariant(s.saved) && LogsInvariant(s.saved)
    decreases |events|
  {
    if events != [] {
      var s, e := Run(start, events[..|events| - 1]), events[|events| - 1];
      RunKeepsControl(start, events[..|events| - 1]);
      if e.Statement? && Accepts(s.tables, e.step) { StepKeepsControl(s.tables, e.step); }
    }
  }

  lemma ReachableControl(s: Store)
    requires Reachable(s)
    ensures CouplingInvariant(s.tables) && LogsInvariant(s.tables)
    ensures CouplingInvariant(s.saved) && LogsInvariant(s.saved)
  {
    var start, events :| Initial(start) && s == Run(start, events);
    RunKeepsControl(start, events);
  }

  // ---------------------------------------------------------------- main results

  /** In every reachable state the control log of an execution is `(pending unknown? settled)*` with at most one
      unfinished block at the end, numbered 1, 2, ...; its settled commands are a prefix of the fixed order, and it
      has at most 36 events. */
  lemma ControlLogIsOrderedBlocks(s: Store, x: Id)
    requires Reachable(s)
    ensures var log := s.tables.ControlLog(x);
            && BlockLog(ControlEntries(log))
            && |log| <= 36
            && (forall i | 0 <= i < |log| :: log[i].sequence == i + 1)
            && SettledCount(log) <= 12
            && forall m | 0 <= m < SettledCount(log) :: SettledTags(ControlEntries(log))[m].kind == COMMAND_ORDER[m]
  {
    ReachableControl(s);
    LogShape(s.tables.ControlLog(x));
  }

  /** In every reachable state the phase of an epoch and the settled commands of its one execution bound each other. */
  lemma PhaseMatchesLog(s: Store, id: Id)
    requires Reachable(s) && id in s.tables.epochs
    ensures var t := s.tables; var p := t.epochs[id].phase;
            && (p != Prepared ==> exists x | x in t.executions :: LinkedExecution(t, id, x))
            && (forall x, y | LinkedExecution(t, id, x) && LinkedExecution(t, id, y) :: x == y)
            && forall x | LinkedExecution(t, id, x) ::
                 var n := SettledCount(t.ControlLog(x));
                 && n >= MinSettled(p)
                 && (Rank(p) >= Rank(Verified) ==> n == 12)
                 && (n >= 8 ==> Rank(p) >= Rank(OldRetired))
  {
    ReachableControl(s);
    var t := s.tables;
    assert t.epochs[id].phase != Prepared ==> HasExecution(t, id);
    forall x | LinkedExecution(t, id, x)
      ensures ExecutionCoupled(t, x)
    {
    }
  }
}
