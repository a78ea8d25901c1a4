/**
 What single events of the control and the role-key log repeat, over every run:
 each belongs to the generation of its execution, is numbered without gaps, and
 an outcome follows the pending event of its own action, not before it in time.
 */
module EventSafety {
  import opened Options
  import opened ActionLog
  import opened RecoveryTables

  // ---------------------------------------------------------------- one event

  /** Event i opens an action under its own number and without facts, or adds facts to an action opened before. */
  ghost predicate ControlBound(log: seq<ControlEvent>, i: nat, generation: Id)
    requires i < |log|
  {
    && log[i].sequence == i + 1 && log[i].binding.generation == generation
    && if log[i].outcome == Pending then log[i].binding.actionSequence == i + 1 && log[i].manifest == None
       else
         && log[i].manifest.Some?
         && exists p | 0 <= p < i ::
              && log[p].action == log[i].action && log[p].outcome == Pending && log[p].binding == log[i].binding
              && log[p].observedAt <= log[i].observedAt
  }

  ghost predicate KeyBound(log: seq<KeyEvent>, i: nat, generation: Id)
    requires i < |log|
  {
    && log[i].sequence == i + 1 && log[i].binding.generation == generation
    && if log[i].outcome == Pending then log[i].binding.actionSequence == i + 1 && log[i].facts == None
       else
         && log[i].facts.Some?
         && exists p | 0 <= p < i ::
              && log[p].action == log[i].action && log[p].outcome == Pending && log[p].binding == log[i].binding
              && log[p].observedAt <= log[i].observedAt
  }

  ghost predicate AllControlBound(log: seq<ControlEvent>, generation: Id) {
    forall i | 0 <= i < |log| :: ControlBound(log, i, generation)
  }

  ghost predicate AllKeyBound(log: seq<KeyEvent>, generation: Id) {
    forall i | 0 <= i < |log| :: KeyBound(log, i, generation)
  }

  /** Both logs of an execution. */
  ghost predicate LogsBound(t: Tables, x: Id) {
    if x in t.executions then
      && AllControlBound(t.ControlLog(x), t.executions[x].generation)
      && AllKeyBound(t.KeyLog(x), t.executions[x].generation)
    else t.ControlLog(x) == [] && t.KeyLog(x) == []
  }

  /** The two logs open no action in common. */
  ghost predicate ControlApart(a: seq<ControlEvent>, b: seq<ControlEvent>) {
    forall i, j | 0 <= i < |a| && 0 <= j < |b| && a[i].outcome == Pending && b[j].outcome == Pending ::
      a[i].action != b[j].action
  }

  ghost predicate KeysApart(a: seq<KeyEvent>, b: seq<KeyEvent>) {
    forall i, j | 0 <= i < |a| && 0 <= j < |b| && a[i].outcome == Pending && b[j].outcome == Pending ::
      a[i].action != b[j].action
  }

  /** No two executions open the same control action, nor the same key action. */
  ghost predicate OpenedApart(t: Tables) {
    forall x, y | x != y :: ControlApart(t.ControlLog(x), t.ControlLog(y)) && KeysApart(t.KeyLog(x), t.KeyLog(y))
  }

  ghost predicate EventInvariant(t: Tables) {
    (forall x :: LogsBound(t, x)) && OpenedApart(t)
  }

  // ---------------------------------------------------------------- appending

  lemma {:induction false} NumbersToMax(log: seq<ControlEvent>)
    requires forall i | 0 <= i < |log| :: log[i].sequence == i + 1
    ensures MaxSequence(log) == |log|
  {
    if log != [] { NumbersToMax(log[..|log| - 1]); }
  }

  lemma {:induction false} KeyNumbersToMax(log: seq<KeyEvent>)
    requires forall i | 0 <= i < |log| :: log[i].sequence == i + 1
    ensures MaxKeySequence(log) == |log|
  {
    if log != [] { KeyNumbersToMax(log[..|log| - 1]); }
  }

  lemma {:induction false} ControlAppended(log: seq<ControlEvent>, e: ControlEvent, generation: Id)
    requires AllControlBound(log, generation) && ControlBound(log + [e], |log|, generation)
    ensures AllControlBound(log + [e], generation)
  {
    var more := log + [e];
    forall i | 0 <= i < |more|
      ensures ControlBound(more, i, generation)
    {
      if i < |log| {
        assert ControlBound(log, i, generation);
        assert forall p | 0 <= p <= i :: more[p] == log[p];
      }
    }
  }

  lemma {:induction false} KeyAppended(log: seq<KeyEvent>, e: KeyEvent, generation: Id)
    requires AllKeyBound(log, generation) && KeyBound(log + [e], |log|, generation)
    ensures AllKeyBound(log + [e], generation)
  {
    var more := log + [e];
    forall i | 0 <= i < |more|
      ensures KeyBound(more, i, generation)
    {
      if i < |log| {
        assert KeyBound(log, i, generation);
        assert forall p | 0 <= p <= i :: more[p] == log[p];
      }
    }
  }

  lemma AcceptedControlBound(t: Tables, x: Id, e: ControlEvent)
    requires AcceptsControl(t, x, e) && AllControlBound(t.ControlLog(x), t.executions[x].generation)
    ensures ControlBound(t.ControlLog(x) + [e], |t.ControlLog(x)|, t.executions[x].generation)
  {
    var log := t.ControlLog(x);
    forall i | 0 <= i < |log|
      ensures log[i].sequence == i + 1
    {
      assert ControlBound(log, i, t.executions[x].generation);
    }
    NumbersToMax(log);
    if e.outcome != Pending {
      var p :| 0 <= p < |log| && log[p].action == e.action && log[p].outcome == Pending
               && log[p].binding == e.binding && e.observedAt >= log[p].observedAt;
      assert (log + [e])[p] == log[p];
    }
  }

  lemma AcceptedKeyBound(t: Tables, x: Id, e: KeyEvent, now: Time)
    requires AcceptsKey(t, x, e, now) && AllKeyBound(t.KeyLog(x), t.executions[x].generation)
    ensures KeyBound(t.KeyLog(x) + [e], |t.KeyLog(x)|, t.executions[x].generation)
  {
    var log := t.KeyLog(x);
    forall i | 0 <= i < |log|
      ensures log[i].sequence == i + 1
    {
      assert KeyBound(log, i, t.executions[x].generation);
    }
    KeyNumbersToMax(log);
    if e.outcome != Pending {
      var p :| 0 <= p < |log| && log[p].action == e.action && log[p].outcome == Pending
               && log[p].binding == e.binding && e.observedAt >= log[p].observedAt;
      assert (log + [e])[p] == log[p];
    }
  }

  // ---------------------------------------------------------------- statements

  lemma ControlStepKeepsEvents(t: Tables, x: Id, e: ControlEvent)
    requires EventInvariant(t) && AcceptsControl(t, x, e)
    ensures EventInvariant(t.(control := t.control[x := t.ControlLog(x) + [e]]))
  {
    var u := t.(control := t.control[x := t.ControlLog(x) + [e]]);
    assert LogsBound(t, x);
    AcceptedControlBound(t, x, e);
    ControlAppended(t.ControlLog(x), e, t.executions[x].generation);
    ControlStays(t, u, x, e);
    NewControlApart(t, x, e);
    ControlStaysApart(t, u, x, e);
  }

  lemma ControlStays(t: Tables, u: Tables, x: Id, e: ControlEvent)
    requires forall y :: LogsBound(t, y)
    requires x in t.executions && AllControlBound(t.ControlLog(x) + [e], t.executions[x].generation)
    requires u == t.(control := t.control[x := t.ControlLog(x) + [e]])
    ensures forall y :: LogsBound(u, y)
  {
    forall y
      ensures LogsBound(u, y)
    {
      assert LogsBound(t, y);
      assert u.KeyLog(y) == t.KeyLog(y);
      assert u.ControlLog(y) == if y == x then t.ControlLog(x) + [e] else t.ControlLog(y);
    }
  }

  /** The guard looks for the action in every execution. */
  lemma NewControlApart(t: Tables, x: Id, e: ControlEvent)
    requires AcceptsControl(t, x, e)
    ensures forall y, j | 0 <= j < |t.ControlLog(y)| && t.ControlLog(y)[j].outcome == e.outcome ::
              t.ControlLog(y)[j].action != e.action
  {
    forall y, j | 0 <= j < |t.ControlLog(y)| && t.ControlLog(y)[j].outcome == e.outcome
      ensures t.ControlLog(y)[j].action != e.action
    {
      assert y in t.control && t.control[y] == t.ControlLog(y);
      assert !Recorded(ControlEntries(t.control[y]), e.action, e.outcome);
      assert ControlEntries(t.control[y])[j].outcome == e.outcome;
    }
  }

  lemma ControlStaysApart(t: Tables, u: Tables, x: Id, e: ControlEvent)
    requires OpenedApart(t) && u == t.(control := t.control[x := t.ControlLog(x) + [e]])
    requires forall y, j | 0 <= j < |t.ControlLog(y)| && t.ControlLog(y)[j].outcome == e.outcome ::
               t.ControlLog(y)[j].action != e.action
    ensures OpenedApart(u)
  {
    forall y, z | y != z
      ensures ControlApart(u.ControlLog(y), u.ControlLog(z)) && KeysApart(u.KeyLog(y), u.KeyLog(z))
    {
      assert ControlApart(t.ControlLog(y), t.ControlLog(z)) && KeysApart(t.KeyLog(y), t.KeyLog(z));
      assert u.KeyLog(y) == t.KeyLog(y) && u.KeyLog(z) == t.KeyLog(z);
      assert u.ControlLog(y) == if y == x then t.ControlLog(x) + [e] else t.ControlLog(y);
      assert u.ControlLog(z) == if z == x then t.ControlLog(x) + [e] else t.ControlLog(z);
    }
  }

  lemma KeyStepKeepsEvents(t: Tables, x: Id, e: KeyEvent, now: Time)
    requires EventInvariant(t) && AcceptsKey(t, x, e, now)
    ensures EventInvariant(t.(keys := t.keys[x := t.KeyLog(x) + [e]]))
  {
    var u := t.(keys := t.keys[x := t.KeyLog(x) + [e]]);
    assert LogsBound(t, x);
    AcceptedKeyBound(t, x, e, now);
    KeyAppended(t.KeyLog(x), e, t.executions[x].generation);
    KeysStay(t, u, x, e);
    NewKeyApart(t, x, e, now);
    KeysStayApart(t, u, x, e);
  }

  lemma KeysStay(t: Tables, u: Tables, x: Id, e: KeyEvent)
    requires forall y :: LogsBound(t, y)
    requires x in t.executions && AllKeyBound(t.KeyLog(x) + [e], t.executions[x].generation)
    requires u == t.(keys := t.keys[x := t.KeyLog(x) + [e]])
    ensures forall y :: LogsBound(u, y)
  {
    forall y
      ensures LogsBound(u, y)
    {
      assert LogsBound(t, y);
      assert u.ControlLog(y) == t.ControlLog(y);
      assert u.KeyLog(y) == if y == x then t.KeyLog(x) + [e] else t.KeyLog(y);
    }
  }

  lemma NewKeyApart(t: Tables, x: Id, e: KeyEvent, now: Time)
    requires AcceptsKey(t, x, e, now)
    ensures forall y, j | 0 <= j < |t.KeyLog(y)| && t.KeyLog(y)[j].outcome == e.outcome :: t.KeyLog(y)[j].action != e.action
  {
    forall y, j | 0 <= j < |t.KeyLog(y)| && t.KeyLog(y)[j].outcome == e.outcome
      ensures t.KeyLog(y)[j].action != e.action
    {
      assert y in t.keys && t.keys[y] == t.KeyLog(y);
      assert !Recorded(KeyEntries(t.keys[y]), e.action, e.outcome);
      assert KeyEntries(t.keys[y])[j].outcome == e.outcome;
    }
  }

  lemma KeysStayApart(t: Tables, u: Tables, x: Id, e: KeyEvent)
    requires OpenedApart(t) && u == t.(keys := t.keys[x := t.KeyLog(x) + [e]])
    requires forall y, j | 0 <= j < |t.KeyLog(y)| && t.KeyLog(y)[j].outcome == e.outcome :: t.KeyLog(y)[j].action != e.action
    ensures OpenedApart(u)
  {
    forall y, z | y != z
      ensures ControlApart(u.ControlLog(y), u.ControlLog(z)) && KeysApart(u.KeyLog(y), u.KeyLog(z))
    {
      assert ControlApart(t.ControlLog(y), t.ControlLog(z)) && KeysApart(t.KeyLog(y), t.KeyLog(z));
      assert u.ControlLog(y) == t.ControlLog(y) && u.ControlLog(z) == t.ControlLog(z);
      assert u.KeyLog(y) == if y == x then t.KeyLog(x) + [e] else t.KeyLog(y);
      assert u.KeyLog(z) == if z == x then t.KeyLog(x) + [e] else t.KeyLog(z);
    }
  }

  lemma OtherStepKeepsEvents(t: Tables, u: Tables)
    requires EventInvariant(t) && u.control == t.control && u.keys == t.keys
    requires forall x | x in t.executions :: x in u.executions && u.executions[x] == t.executions[x]
    ensures EventInvariant(u)
  {
    forall x
      ensures LogsBound(u, x)
    {
      assert LogsBound(t, x);
      assert u.ControlLog(x) == t.ControlLog(x) && u.KeyLog(x) == t.KeyLog(x);
    }
    forall x, y | x != y
      ensures ControlApart(u.ControlLog(x), u.ControlLog(y)) && KeysApart(u.KeyLog(x), u.KeyLog(y))
    {
      assert ControlApart(t.ControlLog(x), t.ControlLog(y)) && KeysApart(t.KeyLog(x), t.KeyLog(y));
      assert u.ControlLog(x) == t.ControlLog(x) && u.ControlLog(y) == t.ControlLog(y);
      assert u.KeyLog(x) == t.KeyLog(x) && u.KeyLog(y) == t.KeyLog(y);
    }
  }

  lemma StepKeepsEvents(t: Tables, s: Step)
    requires EventInvariant(t) && Accepts(t, s)
    ensures EventInvariant(After(t, s))
  {
    match s
    case InsertControl(x, e) => ControlStepKeepsEvents(t, x, e);
    case InsertKey(x, e, now) => KeyStepKeepsEvents(t, x, e, now);
    case InsertExecution(id, x) => OtherStepKeepsEvents(t, After(t, s));
    case _ => OtherStepKeepsEvents(t, After(t, s));
  }

  lemma {:induction false} RunKeepsEvents(start: Store, events: seq<Event>)
    requires Initial(start)
    ensures EventInvariant(Run(start, events).tables) && EventInvariant(Run(start, events).saved)
    decreases |events|
  {
    if events != [] {
      var s, e := Run(start, events[..|events| - 1]), events[|events| - 1];
      RunKeepsEvents(start, events[..|events| - 1]);
      if e.Statement? && Accepts(s.tables, e.step) { StepKeepsEvents(s.tables, e.step); }
    }
  }

  lemma ReachableEvents(s: Store)
    requires Reachable(s)
    ensures EventInvariant(s.tables) && EventInvariant(s.saved)
  {
    var start, events :| Initial(start) && s == Run(start, events);
    RunKeepsEvents(start, events);
  }

  // ---------------------------------------------------------------- main results

  /** In every state every event of both logs belongs to the generation of its execution, carries the next number, and
      either opens its action or adds facts to it, not before the action was opened. */
  lemma EveryEventIsBound(s: Store, x: Id)
    requires Reachable(s)
    ensures LogsBound(s.tables, x) && LogsBound(s.saved, x)
  {
    ReachableEvents(s);
  }

  /** In every state an action belongs to one execution. */
  lemma ActionsApart(s: Store, x: Id, y: Id, i: nat, j: nat)
    requires Reachable(s) && x != y
    ensures i < |s.tables.ControlLog(x)| && j < |s.tables.ControlLog(y)| ==>
              s.tables.ControlLog(x)[i].action != s.tables.ControlLog(y)[j].action
    ensures i < |s.tables.KeyLog(x)| && j < |s.tables.KeyLog(y)| ==>
              s.tables.KeyLog(x)[i].action != s.tables.KeyLog(y)[j].action
  {
    ReachableEvents(s);
    var t := s.tables;
    assert LogsBound(t, x) && LogsBound(t, y);
    assert ControlApart(t.ControlLog(x), t.ControlLog(y)) && KeysApart(t.KeyLog(x), t.KeyLog(y));
    if i < |t.ControlLog(x)| && j < |t.ControlLog(y)| {
      assert ControlBound(t.ControlLog(x), i, t.executions[x].generation);
      assert ControlBound(t.ControlLog(y), j, t.executions[y].generation);
    }
    if i < |t.KeyLog(x)| && j < |t.KeyLog(y)| {
      assert KeyBound(t.KeyLog(x), i, t.executions[x].generation);
      assert KeyBound(t.KeyLog(y), j, t.executions[y].generation);
    }
  }
}
