/**
 Safety of role-key issuance over every run. The final result combines both
 logs: the control log shows that an execution has a single `issue_role_key`
 action, the key log shows what was issued and invalidated under it.
 */
module RoleKeySafety {
  import opened Options
  import opened ActionLog
  import opened RecoveryTables
  import opened ControlSafety

  // ---------------------------------------------------------------- one key log

  /** A settled event repeats its binding and says what came of it. */
  predicate EventSound(e: KeyEvent) {
    e.outcome == Settled ==>
      && e.facts.Some? && e.facts.value.PublicFacts?
      && var f := e.facts.value;
      && (f.role, f.issuance, f.permissions) == (e.binding.role, e.binding.issuance, e.binding.permissions)
      && (e.binding.kind == Issue ==> f.result in {Issued, IssuedInaccessible})
      && (e.binding.kind == Invalidate ==> f.result == Invalidated && Some(f.key) == e.binding.key)
  }

  /** Settled issue i was never usable, and exactly its key has been invalidated. */
  predicate Retired(log: seq<KeyEvent>, i: nat)
    requires i < |log| && SettledIssue(log[i])
  {
    && SettledAs(log[i], IssuedInaccessible)
    && InvalidatedExactly(log, log[i].binding.issuance, log[i].facts.value.key)
  }

  ghost predicate BlocksSound(log: seq<KeyEvent>) {
    && BlockLog(KeyEntries(log)) && Distinct(KeyEntries(log))
    && forall i | 0 <= i < |log| :: EventSound(log[i])
  }

  /** No issuance is opened twice. */
  ghost predicate IssuancesDistinct(log: seq<KeyEvent>) {
    forall i, j | 0 <= i < j < |log| && log[i].outcome == Pending && log[j].outcome == Pending
                  && log[i].binding.kind == Issue && log[j].binding.kind == Issue ::
      log[i].binding.issuance != log[j].binding.issuance
  }

  ghost predicate KeysDistinct(log: seq<KeyEvent>) {
    forall i, j | 0 <= i < j < |log| && SettledIssue(log[i]) && SettledIssue(log[j]) ::
      log[i].facts.value.key != log[j].facts.value.key
  }

  /** Every settled issue but the latest of its role is retired; so is the latest while a new one is under way. */
  ghost predicate EarlierRetired(log: seq<KeyEvent>) {
    forall i, j | 0 <= i < j < |log| && SettledIssue(log[i]) && log[j].binding.kind == Issue
                  && log[i].binding.role == log[j].binding.role :: Retired(log, i)
  }

  /** An invalidation names the key of an issue that was settled as inaccessible. */
  ghost predicate InvalidationBound(log: seq<KeyEvent>, i: nat)
    requires i < |log|
  {
    log[i].binding.kind == Invalidate ==>
      exists j | 0 <= j < |log| ::
        && SettledIssue(log[j]) && SettledAs(log[j], IssuedInaccessible)
        && log[i].binding.key == Some(log[j].facts.value.key)
  }

  ghost predicate InvalidationsBound(log: seq<KeyEvent>) {
    forall i | 0 <= i < |log| :: InvalidationBound(log, i)
  }

  ghost predicate KeyLogSound(log: seq<KeyEvent>) {
    && BlocksSound(log) && IssuancesDistinct(log) && KeysDistinct(log)
    && EarlierRetired(log) && InvalidationsBound(log)
  }

  lemma KeyEntriesSnoc(log: seq<KeyEvent>, e: KeyEvent)
    ensures KeyEntries(log + [e]) == KeyEntries(log) + [Entry(e.action, e.binding, e.outcome)]
  {
    var entry := Entry(e.action, e.binding, e.outcome);
    assert |KeyEntries(log + [e])| == |KeyEntries(log) + [entry]|;
  }

  /** The part of the key guard that concerns the execution's own key log. */
  ghost predicate KeyAppendable(log: seq<KeyEvent>, e: KeyEvent) {
    && !Recorded(KeyEntries(log), e.action, e.outcome)
    && if e.outcome == Pending then
         && !LatestUnsettled(log, None)
         && (e.binding.kind == Issue ==>
               && ReplacementAllowed(log, e.binding)
               && forall i | 0 <= i < |log| && log[i].outcome == Pending && log[i].binding.kind == Issue ::
                    log[i].binding.issuance != e.binding.issuance)
         && (e.binding.kind == Invalidate ==> InvalidationAllowed(log, e.binding))
       else
         && (exists i | 0 <= i < |log| ::
               log[i].action == e.action && log[i].outcome == Pending && log[i].binding == e.binding)
         && !Recorded(KeyEntries(log), e.action, Settled)
         && KeyFactsAllowed(log, e)
  }

  lemma GuardGivesKeyAppendable(t: Tables, x: Id, e: KeyEvent, now: Time)
    requires AcceptsKey(t, x, e, now)
    ensures KeyAppendable(t.KeyLog(x), e)
  {
    var log := t.KeyLog(x);
    if x !in t.keys {
      assert log == [];
    } else {
      assert log == t.keys[x];
      assert e.outcome == Pending && e.binding.kind == Issue ==>
          forall i | 0 <= i < |log| && log[i].outcome == Pending && log[i].binding.kind == Issue ::
            log[i].binding.issuance != e.binding.issuance;
    }
  }

  /** When no action's latest event is open, the last event is settled. */
  lemma NothingOpen(log: seq<KeyEvent>)
    ensures !LatestUnsettled(log, None) ==> Finished(KeyEntries(log))
  {
    if log != [] && log[|log| - 1].outcome != Settled {
      assert Under(log[|log| - 1], None);
    }
  }

  lemma AppendKeepsKeyBlocks(log: seq<KeyEvent>, e: KeyEvent)
    requires BlocksSound(log) && KeyAppendable(log, e)
    ensures BlocksSound(log + [e])
    ensures e.outcome != Pending ==>
              log != [] && log[|log| - 1].outcome != Settled
              && log[|log| - 1].action == e.action && log[|log| - 1].binding == e.binding
  {
    var entries, entry := KeyEntries(log), Entry(e.action, e.binding, e.outcome);
    KeyEntriesSnoc(log, e);
    if e.outcome == Pending {
      NothingOpen(log);
      OpenAction(entries, entry);
    } else {
      var p :| 0 <= p < |log| && log[p].action == e.action && log[p].outcome == Pending && log[p].binding == e.binding;
      RecordOutcome(entries, entry, p);
    }
  }

  lemma InvalidatedStays(log: seq<KeyEvent>, e: KeyEvent, issuance: Id, key: string)
    requires InvalidatedExactly(log, issuance, key)
    ensures InvalidatedExactly(log + [e], issuance, key)
  {
    var i :| 0 <= i < |log| && log[i].binding.kind == Invalidate && log[i].binding.issuance == issuance
             && SettledAs(log[i], Invalidated) && log[i].facts.value.key == key;
    assert (log + [e])[i] == log[i];
  }

  predicate IssueOf(e: KeyEvent, parent: Option<Id>, role: Role) {
    SettledIssue(e) && Under(e, parent) && e.binding.role == role
  }

  /** Event k is the last settled issue of the role. */
  ghost predicate LastIssueAt(log: seq<KeyEvent>, parent: Option<Id>, role: Role, k: nat) {
    && k < |log| && IssueOf(log[k], parent, role)
    && forall i | k < i < |log| :: !IssueOf(log[i], parent, role)
  }

  /** What LatestIssue finds: the last settled issue of the role, or nothing when there is none. */
  lemma {:induction false} LatestIssueIsLast(log: seq<KeyEvent>, parent: Option<Id>, role: Role) returns (k: nat)
    ensures var latest := LatestIssue(log, parent, role);
            if latest == None then forall i | 0 <= i < |log| :: !IssueOf(log[i], parent, role)
            else LastIssueAt(log, parent, role, k) && log[k] == latest.value
  {
    k := 0;
    if log != [] {
      var front, last := log[..|log| - 1], log[|log| - 1];
      if IssueOf(last, parent, role) {
        k := |front|;
      } else {
        k := LatestIssueIsLast(front, parent, role);
        assert forall i | 0 <= i < |front| :: log[i] == front[i];
      }
    }
  }

  /** When a new issue of a role is opened, every settled issue of that role is retired. */
  lemma ReplacementMeansRetired(log: seq<KeyEvent>, b: KeyBinding, i: nat)
    requires EarlierRetired(log) && ReplacementAllowed(log, b)
    requires i < |log| && SettledIssue(log[i]) && log[i].binding.role == b.role
    ensures Retired(log, i)
  {
    var k := LatestIssueIsLast(log, None, b.role);
    assert IssueOf(log[i], None, b.role);
    assert i <= k;
  }

  lemma AppendKeepsRetired(log: seq<KeyEvent>, e: KeyEvent)
    requires EarlierRetired(log)
    requires forall i | 0 <= i < |log| && SettledIssue(log[i]) && e.binding.kind == Issue
                        && log[i].binding.role == e.binding.role :: Retired(log, i)
    ensures EarlierRetired(log + [e])
  {
    var after := log + [e];
    forall i, j | 0 <= i < j < |after| && SettledIssue(after[i]) && after[j].binding.kind == Issue
                  && after[i].binding.role == after[j].binding.role
      ensures Retired(after, i)
    {
      assert after[i] == log[i];
      assert j < |log| ==> after[j] == log[j];
      InvalidatedStays(log, e, log[i].binding.issuance, log[i].facts.value.key);
    }
  }

  /** An accepted event finds every settled issue of its own role retired. */
  lemma AcceptedFindsRetired(log: seq<KeyEvent>, e: KeyEvent, i: nat)
    requires EarlierRetired(log) && KeyAppendable(log, e) && e.binding.kind == Issue
    requires e.outcome != Pending ==>
               log != [] && log[|log| - 1].outcome != Settled && log[|log| - 1].binding == e.binding
    requires i < |log| && SettledIssue(log[i]) && log[i].binding.role == e.binding.role
    ensures Retired(log, i)
  {
    if e.outcome == Pending { ReplacementMeansRetired(log, e.binding, i); }
  }

  lemma AppendKeepsKeysDistinct(log: seq<KeyEvent>, e: KeyEvent)
    requires BlocksSound(log) && IssuancesDistinct(log) && KeysDistinct(log) && KeyAppendable(log, e)
    ensures KeysDistinct(log + [e])
  {
    var after, entries := log + [e], KeyEntries(log);
    forall i, j | 0 <= i < j < |after| && SettledIssue(after[i]) && SettledIssue(after[j])
      ensures after[i].facts.value.key != after[j].facts.value.key
    {
      assert after[i] == log[i];
      if j < |log| {
        assert after[j] == log[j];
      } else {
        var p :| 0 <= p < |log| && log[p].action == e.action && log[p].outcome == Pending && log[p].binding == e.binding;
        BlockStart(entries, i);
        var q := Start(entries, i);
        assert log[q].outcome == Pending && log[q].binding == log[i].binding && log[q].action == log[i].action;
        assert log[i].action != e.action;
        assert p != q;
      }
    }
  }

  lemma AppendKeepsInvalidations(log: seq<KeyEvent>, e: KeyEvent)
    requires InvalidationsBound(log) && KeyAppendable(log, e)
    ensures InvalidationsBound(log + [e])
  {
    var after := log + [e];
    forall i | 0 <= i < |after|
      ensures InvalidationBound(after, i)
    {
      if after[i].binding.kind == Invalidate {
        var j := BoundIssue(log, e, i);
        assert after[j] == log[j];
      }
    }
  }

  /** The inaccessible issue that an old or newly accepted invalidation is bound to. */
  lemma BoundIssue(log: seq<KeyEvent>, e: KeyEvent, i: nat) returns (j: nat)
    requires InvalidationsBound(log) && KeyAppendable(log, e)
    requires i <= |log| && (log + [e])[i].binding.kind == Invalidate
    ensures j < |log| && SettledIssue(log[j]) && SettledAs(log[j], IssuedInaccessible)
    ensures (log + [e])[i].binding.key == Some(log[j].facts.value.key)
  {
    if i < |log| {
      assert InvalidationBound(log, i);
      j :| 0 <= j < |log| && SettledIssue(log[j]) && SettledAs(log[j], IssuedInaccessible)
           && log[i].binding.key == Some(log[j].facts.value.key);
    } else if e.outcome == Pending {
      j :| 0 <= j < |log| && SettledIssue(log[j]) && log[j].binding.issuance == e.binding.issuance
           && SettledAs(log[j], IssuedInaccessible)
           && (e.binding.role, e.binding.permissions, e.binding.key)
                == (log[j].binding.role, log[j].binding.permissions, Some(log[j].facts.value.key));
    } else {
      var p :| 0 <= p < |log| && log[p].action == e.action && log[p].outcome == Pending && log[p].binding == e.binding;
      assert InvalidationBound(log, p);
      j :| 0 <= j < |log| && SettledIssue(log[j]) && SettledAs(log[j], IssuedInaccessible)
           && log[p].binding.key == Some(log[j].facts.value.key);
    }
  }

  lemma AppendKeepsKeyLog(log: seq<KeyEvent>, e: KeyEvent)
    requires KeyLogSound(log) && KeyAppendable(log, e)
    ensures KeyLogSound(log + [e])
  {
    AppendKeepsKeyBlocks(log, e);
    AppendKeepsKeysDistinct(log, e);
    AppendKeepsInvalidations(log, e);
    forall i | 0 <= i < |log| && SettledIssue(log[i]) && e.binding.kind == Issue
               && log[i].binding.role == e.binding.role
      ensures Retired(log, i)
    {
      AcceptedFindsRetired(log, e, i);
    }
    AppendKeepsRetired(log, e);
    assert IssuancesDistinct(log + [e]);
  }

  // ---------------------------------------------------------------- both logs

  /** Key events hang off a control event for `issue_role_key`. */
  ghost predicate ParentKnown(t: Tables, x: Id) {
    forall i | 0 <= i < |t.KeyLog(x)| ::
      exists c | 0 <= c < |t.ControlLog(x)| ::
        t.ControlLog(x)[c].action == t.KeyLog(x)[i].binding.parent
        && t.ControlLog(x)[c].binding.kind == IssueRoleKey
  }

  /** A settled `issue_role_key` names the group of live keys, and still does. */
  ghost predicate GroupFixed(t: Tables, x: Id) {
    forall c | 0 <= c < |t.ControlLog(x)| && RoleKeySettled(t.ControlLog(x)[c]) ::
      && KeyGroupOf(x, t.KeyLog(x), t.ControlLog(x)[c].action).Some?
      && t.ControlLog(x)[c].manifest == Some(RoleKeys(KeyGroupOf(x, t.KeyLog(x), t.ControlLog(x)[c].action).value))
  }

  predicate RoleKeySettled(e: ControlEvent) {
    e.binding.kind == IssueRoleKey && e.outcome == Settled
  }

  ghost predicate KeyInvariant(t: Tables) {
    && (forall x :: KeyLogSound(t.KeyLog(x)))
    && (forall x :: ParentKnown(t, x))
    && (forall x :: GroupFixed(t, x))
  }

  lemma OtherStepKeepsKeys(t: Tables, u: Tables)
    requires KeyInvariant(t) && u.control == t.control && u.keys == t.keys
    ensures KeyInvariant(u)
  {
    forall x
      ensures KeyLogSound(u.KeyLog(x)) && ParentKnown(u, x) && GroupFixed(u, x)
    {
      assert u.ControlLog(x) == t.ControlLog(x) && u.KeyLog(x) == t.KeyLog(x);
      assert KeyLogSound(t.KeyLog(x)) && ParentKnown(t, x) && GroupFixed(t, x);
    }
  }

  lemma GuardGivesGroup(t: Tables, x: Id, e: ControlEvent)
    requires AcceptsControl(t, x, e) && RoleKeySettled(e)
    ensures KeyGroupOf(x, t.KeyLog(x), e.action).Some?
    ensures e.manifest == Some(RoleKeys(KeyGroupOf(x, t.KeyLog(x), e.action).value))
  {
  }

  lemma ControlStepKeepsKeys(t: Tables, x: Id, e: ControlEvent)
    requires KeyInvariant(t)
    requires RoleKeySettled(e) ==>
               && KeyGroupOf(x, t.KeyLog(x), e.action).Some?
               && e.manifest == Some(RoleKeys(KeyGroupOf(x, t.KeyLog(x), e.action).value))
    ensures KeyInvariant(t.(control := t.control[x := t.ControlLog(x) + [e]]))
  {
    var u := t.(control := t.control[x := t.ControlLog(x) + [e]]);
    forall y
      ensures KeyLogSound(u.KeyLog(y)) && ParentKnown(u, y) && GroupFixed(u, y)
    {
      assert u.KeyLog(y) == t.KeyLog(y);
      assert u.ControlLog(y) == if y == x then t.ControlLog(x) + [e] else t.ControlLog(y);
      assert KeyLogSound(t.KeyLog(y)) && ParentKnown(t, y) && GroupFixed(t, y);
      forall i | 0 <= i < |u.KeyLog(y)|
        ensures exists c | 0 <= c < |u.ControlLog(y)| ::
                  u.ControlLog(y)[c].action == u.KeyLog(y)[i].binding.parent
                  && u.ControlLog(y)[c].binding.kind == IssueRoleKey
      {
        var c :| 0 <= c < |t.ControlLog(y)| && t.ControlLog(y)[c].action == t.KeyLog(y)[i].binding.parent
                 && t.ControlLog(y)[c].binding.kind == IssueRoleKey;
        assert u.ControlLog(y)[c] == t.ControlLog(y)[c];
      }
    }
  }

  /** A key event is accepted only while the execution's last control event is an open `issue_role_key`. */
  lemma GuardGivesParent(t: Tables, x: Id, e: KeyEvent, now: Time)
    requires AcceptsKey(t, x, e, now)
    ensures var control := t.ControlLog(x);
            && control != [] && control[|control| - 1].action == e.binding.parent
            && control[|control| - 1].binding.kind == IssueRoleKey && control[|control| - 1].outcome != Settled
  {
  }

  /** While `issue_role_key` is the open command it has not been settled before. */
  lemma OpenMeansUnsettled(control: seq<ControlEvent>, c: nat)
    requires LogSound(control) && control != [] && c < |control|
    requires control[|control| - 1].binding.kind == IssueRoleKey && control[|control| - 1].outcome != Settled
    ensures !RoleKeySettled(control[c])
  {
    if c < |control| - 1 && control[c].binding.kind == IssueRoleKey {
      SameCommandSameAction(control, c, |control| - 1);
    }
  }

  lemma KeyStepKeepsKeys(t: Tables, x: Id, e: KeyEvent)
    requires KeyInvariant(t) && KeyLogSound(t.KeyLog(x) + [e]) && LogSound(t.ControlLog(x))
    requires var control := t.ControlLog(x);
             && control != [] && control[|control| - 1].action == e.binding.parent
             && control[|control| - 1].binding.kind == IssueRoleKey && control[|control| - 1].outcome != Settled
    ensures KeyInvariant(t.(keys := t.keys[x := t.KeyLog(x) + [e]]))
  {
    var u := t.(keys := t.keys[x := t.KeyLog(x) + [e]]);
    assert u.KeyLog(x) == t.KeyLog(x) + [e];
    forall y
      ensures KeyLogSound(u.KeyLog(y)) && ParentKnown(u, y) && GroupFixed(u, y)
    {
      assert KeyLogSound(t.KeyLog(y)) && ParentKnown(t, y) && GroupFixed(t, y);
      if y == x { ParentStillKnown(t, u, x, e); } else { SameLogsKeepKeys(t, u, y); }
    }
  }

  lemma SameLogsKeepKeys(t: Tables, u: Tables, y: Id)
    requires KeyLogSound(t.KeyLog(y)) && ParentKnown(t, y) && GroupFixed(t, y)
    requires u.ControlLog(y) == t.ControlLog(y) && u.KeyLog(y) == t.KeyLog(y)
    ensures KeyLogSound(u.KeyLog(y)) && ParentKnown(u, y) && GroupFixed(u, y)
  {
  }

  lemma ParentStillKnown(t: Tables, u: Tables, x: Id, e: KeyEvent)
    requires ParentKnown(t, x) && LogSound(t.ControlLog(x))
    requires u.ControlLog(x) == t.ControlLog(x) && u.KeyLog(x) == t.KeyLog(x) + [e]
    requires var control := t.ControlLog(x);
             && control != [] && control[|control| - 1].action == e.binding.parent
             && control[|control| - 1].binding.kind == IssueRoleKey && control[|control| - 1].outcome != Settled
    ensures ParentKnown(u, x) && GroupFixed(u, x)
  {
    forall c | 0 <= c < |t.ControlLog(x)|
      ensures !RoleKeySettled(t.ControlLog(x)[c])
    {
      OpenMeansUnsettled(t.ControlLog(x), c);
    }
  }

  lemma StepKeepsKeys(t: Tables, s: Step)
    requires KeyInvariant(t) && LogsInvariant(t) && Accepts(t, s)
    ensures KeyInvariant(After(t, s))
  {
    match s
    case InsertControl(x, e) =>
      if RoleKeySettled(e) { GuardGivesGroup(t, x, e); }
      ControlStepKeepsKeys(t, x, e);
    case InsertKey(x, e, now) =>
      GuardGivesKeyAppendable(t, x, e, now);
      AppendKeepsKeyLog(t.KeyLog(x), e);
      GuardGivesParent(t, x, e, now);
      KeyStepKeepsKeys(t, x, e);
    case _ => OtherStepKeepsKeys(t, After(t, s));
  }

  lemma {:induction false} RunKeepsKeys(start: Store, events: seq<Event>)
    requires Initial(start)
    ensures KeyInvariant(Run(start, events).tables) && KeyInvariant(Run(start, events).saved)
    decreases |events|
  {
    if events != [] {
      var s, e := Run(start, events[..|events| - 1]), events[|events| - 1];
      RunKeepsKeys(start, events[..|events| - 1]);
      RunKeepsControl(start, events[..|events| - 1]);
      if e.Statement? && Accepts(s.tables, e.step) { StepKeepsKeys(s.tables, e.step); }
    }
  }

  lemma ReachableKeys(s: Store)
    requires Reachable(s)
    ensures KeyInvariant(s.tables) && KeyInvariant(s.saved)
  {
    var start, events :| Initial(start) && s == Run(start, events);
    RunKeepsKeys(start, events);
  }

  // ---------------------------------------------------------------- main results

  lemma {:induction false} OneParentSameLatest(log: seq<KeyEvent>, parent: Id, role: Role)
    requires forall i | 0 <= i < |log| :: log[i].binding.parent == parent
    ensures LatestIssue(log, Some(parent), role) == LatestIssue(log, None, role)
  {
    if log != [] { OneParentSameLatest(log[..|log| - 1], parent, role); }
  }

  /** Everything an execution's keys hang off is the one action of its settled `issue_role_key`. */
  lemma KeysHaveOneParent(t: Tables, x: Id, c: nat)
    requires KeyInvariant(t) && LogsInvariant(t)
    requires c < |t.ControlLog(x)| && RoleKeySettled(t.ControlLog(x)[c])
    ensures forall i | 0 <= i < |t.KeyLog(x)| :: t.KeyLog(x)[i].binding.parent == t.ControlLog(x)[c].action
  {
    var control := t.ControlLog(x);
    assert LogSound(control) && ParentKnown(t, x);
    forall i | 0 <= i < |t.KeyLog(x)|
      ensures t.KeyLog(x)[i].binding.parent == control[c].action
    {
      var d :| 0 <= d < |control| && control[d].action == t.KeyLog(x)[i].binding.parent
               && control[d].binding.kind == IssueRoleKey;
      if d < c {
        SameCommandSameAction(control, d, c);
      } else if c < d {
        SameCommandSameAction(control, c, d);
      }
    }
  }

  /** An issue that was settled as usable. */
  predicate Usable(e: KeyEvent) {
    SettledIssue(e) && SettledAs(e, Issued)
  }

  /** In every state, committed or not, a role has at most one usable key: once it has been issued, no issue of the role is
      even opened any more, every issue of the role settled before was never usable and its key is invalidated, and the
      usable key itself is never invalidated. */
  lemma AtMostOneUsableKey(s: Store, x: Id, k: nat)
    requires Reachable(s) && k < |s.tables.KeyLog(x)| && Usable(s.tables.KeyLog(x)[k])
    ensures var log := s.tables.KeyLog(x);
            && (forall i | k < i < |log| && log[i].binding.kind == Issue :: log[i].binding.role != log[k].binding.role)
            && (forall i | 0 <= i < k && SettledIssue(log[i]) && log[i].binding.role == log[k].binding.role :: Retired(log, i))
            && (forall i | 0 <= i < |log| && Usable(log[i]) && log[i].binding.role == log[k].binding.role :: i == k)
            && (forall i | 0 <= i < |log| && log[i].binding.kind == Invalidate ::
                  log[i].binding.key != Some(log[k].facts.value.key))
  {
    ReachableKeys(s);
    var log := s.tables.KeyLog(x);
    assert KeyLogSound(log);
    UsableIsAlone(log, k);
    NeverInvalidated(log, k);
  }

  lemma UsableIsAlone(log: seq<KeyEvent>, k: nat)
    requires EarlierRetired(log) && k < |log| && Usable(log[k])
    ensures forall i | k < i < |log| && log[i].binding.kind == Issue :: log[i].binding.role != log[k].binding.role
    ensures forall i | 0 <= i < k && SettledIssue(log[i]) && log[i].binding.role == log[k].binding.role :: Retired(log, i)
    ensures forall i | 0 <= i < |log| && Usable(log[i]) && log[i].binding.role == log[k].binding.role :: i == k
  {
    assert !Retired(log, k);
  }

  /** Event i settled the issue of this key under these facts. */
  ghost predicate IssuedAs(e: KeyEvent, result: KeyResult, role: Role, key: string, issuance: Id, permissions: string) {
    && e.outcome == Settled && e.binding.kind == Issue
    && e.binding.role == role && e.binding.issuance == issuance && e.binding.permissions == permissions
    && e.facts == Some(PublicFacts(result, key, role, issuance, permissions))
  }

  /** Event i settled the issue of an inaccessible key, and another event settled the invalidation of exactly that key of
      that issuance. */
  ghost predicate WasWithdrawn(log: seq<KeyEvent>, i: nat)
    requires i < |log|
  {
    && log[i].facts.Some? && log[i].facts.value.PublicFacts? && log[i].facts.value.result == IssuedInaccessible
    && exists j | 0 <= j < |log| ::
         && log[j].outcome == Settled && log[j].binding.kind == Invalidate
         && log[j].binding.issuance == log[i].binding.issuance
         && log[j].facts.Some? && log[j].facts.value.PublicFacts? && log[j].facts.value.result == Invalidated
         && log[j].facts.value.key == log[i].facts.value.key
  }

  /** The live key of a role: issued as usable under this issuance and these permissions, never invalidated, and every
      other key that was issued for the role is withdrawn. */
  ghost predicate LiveKey(log: seq<KeyEvent>, role: Role, key: string, issuance: Id, permissions: string) {
    && (exists i | 0 <= i < |log| :: IssuedAs(log[i], Issued, role, key, issuance, permissions))
    && (forall i | 0 <= i < |log| && log[i].outcome == Settled && log[i].binding.kind == Issue
                   && log[i].binding.role == role && !IssuedAs(log[i], Issued, role, key, issuance, permissions) ::
          WasWithdrawn(log, i))
    && (forall i | 0 <= i < |log| && log[i].binding.kind == Invalidate :: log[i].binding.key != Some(key))
  }

  lemma RetiredIsWithdrawn(log: seq<KeyEvent>, i: nat)
    requires i < |log| && SettledIssue(log[i]) && Retired(log, i)
    ensures WasWithdrawn(log, i)
  {
  }

  lemma LatestIsLive(log: seq<KeyEvent>, role: Role)
    requires KeyLogSound(log) && LatestIsIssued(log, None, role)
    ensures var latest := LatestIssue(log, None, role).value;
            && SettledIssue(latest)
            && LiveKey(log, role, latest.facts.value.key, latest.binding.issuance, latest.binding.permissions)
  {
    var k := LatestIssueIsLast(log, None, role);
    var latest := LatestIssue(log, None, role).value;
    var key, issuance, permissions := latest.facts.value.key, latest.binding.issuance, latest.binding.permissions;
    assert EventSound(log[k]);
    assert IssuedAs(log[k], Issued, role, key, issuance, permissions);
    forall i | 0 <= i < |log| && log[i].outcome == Settled && log[i].binding.kind == Issue
               && log[i].binding.role == role && !IssuedAs(log[i], Issued, role, key, issuance, permissions)
      ensures WasWithdrawn(log, i)
    {
      assert EventSound(log[i]);
      assert IssueOf(log[i], None, role);
      assert i <= k && log[i] != log[k];
      RetiredIsWithdrawn(log, i);
    }
    NeverInvalidated(log, k);
  }

  lemma NeverInvalidated(log: seq<KeyEvent>, k: nat)
    requires InvalidationsBound(log) && KeysDistinct(log) && k < |log| && Usable(log[k])
    ensures forall i | 0 <= i < |log| && log[i].binding.kind == Invalidate ::
              log[i].binding.key != Some(log[k].facts.value.key)
  {
    forall i | 0 <= i < |log| && log[i].binding.kind == Invalidate
      ensures log[i].binding.key != Some(log[k].facts.value.key)
    {
      assert InvalidationBound(log, i);
      var j :| 0 <= j < |log| && SettledIssue(log[j]) && SettledAs(log[j], IssuedInaccessible)
               && log[i].binding.key == Some(log[j].facts.value.key);
      assert j != k;
    }
  }

  /** Three distinct keys, one live key per role, none ever invalidated; every other key ever issued was
      inaccessible and has been invalidated by exactly its key id. */
  ghost predicate LiveGroup(log: seq<KeyEvent>, g: KeyGroup) {
    && g.keys.Keys == {Reader, Writer, Collector}
    && g.issuances.Keys == {Reader, Writer, Collector} && g.permissions.Keys == {Reader, Writer, Collector}
    && g.keys[Reader] != g.keys[Writer] && g.keys[Writer] != g.keys[Collector] && g.keys[Reader] != g.keys[Collector]
    && LiveKey(log, Reader, g.keys[Reader], g.issuances[Reader], g.permissions[Reader])
    && LiveKey(log, Writer, g.keys[Writer], g.issuances[Writer], g.permissions[Writer])
    && LiveKey(log, Collector, g.keys[Collector], g.issuances[Collector], g.permissions[Collector])
  }

  lemma GroupIsLive(x: Id, log: seq<KeyEvent>, parent: Id)
    requires KeyLogSound(log) && KeyGroupOf(x, log, parent).Some?
    requires forall i | 0 <= i < |log| :: log[i].binding.parent == parent
    ensures LiveGroup(log, KeyGroupOf(x, log, parent).value)
    ensures KeyGroupOf(x, log, parent).value.execution == x && KeyGroupOf(x, log, parent).value.parent == parent
  {
    var g := KeyGroupOf(x, log, parent).value;
    OneParentSameLatest(log, parent, Reader);
    OneParentSameLatest(log, parent, Writer);
    OneParentSameLatest(log, parent, Collector);
    LatestIsLive(log, Reader);
    LatestIsLive(log, Writer);
    LatestIsLive(log, Collector);
    ThreeDistinct(g.keys[Reader], g.keys[Writer], g.keys[Collector]);
  }

  /** Control event c names the live group of the execution. */
  ghost predicate NamesLiveGroup(t: Tables, x: Id, c: nat)
    requires c < |t.ControlLog(x)|
  {
    exists g ::
      && t.ControlLog(x)[c].manifest == Some(RoleKeys(g))
      && g.execution == x && g.parent == t.ControlLog(x)[c].action
      && LiveGroup(t.KeyLog(x), g)
  }

  lemma SettledNamesLiveGroup(t: Tables, x: Id, c: nat)
    requires KeyInvariant(t) && LogsInvariant(t)
    requires c < |t.ControlLog(x)| && RoleKeySettled(t.ControlLog(x)[c])
    ensures NamesLiveGroup(t, x, c)
  {
    KeysHaveOneParent(t, x, c);
    assert KeyLogSound(t.KeyLog(x)) && GroupFixed(t, x);
    GroupIsLive(x, t.KeyLog(x), t.ControlLog(x)[c].action);
  }

  /** Once `issue_role_key` is settled its manifest names the live keys, in every later state, committed or not. */
  lemma SettledKeysAreLive(s: Store, x: Id, c: nat)
    requires Reachable(s)
    ensures c < |s.tables.ControlLog(x)| && RoleKeySettled(s.tables.ControlLog(x)[c]) ==> NamesLiveGroup(s.tables, x, c)
    ensures c < |s.saved.ControlLog(x)| && RoleKeySettled(s.saved.ControlLog(x)[c]) ==> NamesLiveGroup(s.saved, x, c)
  {
    ReachableKeys(s);
    ReachableControl(s);
    if c < |s.tables.ControlLog(x)| && RoleKeySettled(s.tables.ControlLog(x)[c]) {
      SettledNamesLiveGroup(s.tables, x, c);
    }
    if c < |s.saved.ControlLog(x)| && RoleKeySettled(s.saved.ControlLog(x)[c]) {
      SettledNamesLiveGroup(s.saved, x, c);
    }
  }

  lemma ThreeDistinct(a: string, b: string, c: string)
    ensures |{a, b, c}| == 3 ==> a != b && b != c && a != c
  {
    if a == b {
      assert {a, b, c} == {a, c};
    } else if b == c {
      assert {a, b, c} == {a, c};
    } else if a == c {
      assert {a, b, c} == {a, b};
    }
  }

  /** Once `issue_role_key` is settled, no key event of the execution is ever accepted again. */
  lemma NoKeyEventFollows(s: Store, x: Id, c: nat, e: KeyEvent, now: Time)
    requires Reachable(s)
    requires c < |s.tables.ControlLog(x)| && RoleKeySettled(s.tables.ControlLog(x)[c])
    ensures !Accepts(s.tables, InsertKey(x, e, now))
  {
    ReachableControl(s);
    NoKeyEventIn(s.tables, x, c, e, now);
  }

  lemma NoKeyEventIn(t: Tables, x: Id, c: nat, e: KeyEvent, now: Time)
    requires LogsInvariant(t) && c < |t.ControlLog(x)| && RoleKeySettled(t.ControlLog(x)[c])
    ensures !Accepts(t, InsertKey(x, e, now))
  {
    if AcceptsKey(t, x, e, now) {
      GuardGivesParent(t, x, e, now);
      OpenMeansUnsettled(t.ControlLog(x), c);
    }
  }
}
