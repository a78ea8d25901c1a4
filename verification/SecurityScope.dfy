/**
 The scope that pins files, creates an account profile, grants it access and
 lowers a label, and undoes all of it. Every native call may fail at any point
 and other programs may edit the pinned objects' lists and labels between any
 two native calls, so also between the read and the write of one grant or of one
 undo action; rollback is described by the log of the undo actions it ran.
 */
module SecurityScope {
  import opened Options
  import opened AccessEntries

  type Handle = nat

  /** An integrity label: its text and whether it is exactly low with no-write-up. */
  datatype Label = Label(sddl: string, lowNoWriteUp: bool)

  const LOW := Label("S:(ML;;NW;;;LW)", true)

  /** What native calls act on: open handles with the list and label of the object each one pins (a null list is None),
      open lock files, and the account profile. */
  datatype State = State(
    open: set<Handle>, dacls: map<Handle, Option<seq<Ace>>>, labels: map<Handle, Label>, locks: set<nat>, profile: bool)

  /** The registered undo actions. */
  datatype Undo =
    | CloseHandle(handle: Handle)
    | DisposeLock(lock: nat)
    | DeleteProfile
    | RemoveEntry(handle: Handle, ace: Ace)
    | RestoreLabel(handle: Handle, original: Label)

  // ---------------------------------------------------------------- what an undo action does

  predicate Uses(u: Undo, h: Handle) {
    match u
    case RemoveEntry(handle, _) => handle == h
    case RestoreLabel(handle, _) => handle == h
    case _ => false
  }

  predicate HasList(s: State, h: Handle) {
    h in s.dacls && s.dacls[h].Some?
  }

  /** The action's own reasons not to refuse, failed telling whether an earlier one failed. */
  predicate Permitted(s: State, u: Undo, failed: bool) {
    match u
    case DeleteProfile => !failed
    case RemoveEntry(h, ace) => ace.Known? && HasList(s, h) && Removed(s.dacls[h].value, ace).Some?
    case RestoreLabel(h, original) => h in s.labels && (s.labels[h].sddl == original.sddl || s.labels[h].lowNoWriteUp)
    case _ => true
  }

  /** The state after a successful action: what it computed from the state it read, written over the state of that moment. */
  function Written(seen: State, current: State, u: Undo, failed: bool): State
    requires Permitted(seen, u, failed)
  {
    match u
    case CloseHandle(h) => current.(open := current.open - {h})
    case DisposeLock(l) => current.(locks := current.locks - {l})
    case DeleteProfile => current.(profile := false)
    case RemoveEntry(h, ace) => current.(dacls := current.dacls[h := Removed(seen.dacls[h].value, ace)])
    case RestoreLabel(h, original) =>
      if seen.labels[h].sddl == original.sddl then current else current.(labels := current.labels[h := original])
  }

  /** The state after a successful action that nothing came between. */
  function Undone(s: State, u: Undo, failed: bool): State
    requires Permitted(s, u, failed)
  {
    Written(s, s, u, failed)
  }

  /** Other programs may have edited lists and labels, but not our handles, locks and profile. */
  predicate Interfered(before: State, after: State) {
    after == before.(dacls := after.dacls, labels := after.labels)
    && after.dacls.Keys == before.dacls.Keys && after.labels.Keys == before.labels.Keys
  }

  /** One executed undo action: the state it read, the states around its write, whether a native call in it failed, and
      its outcome. */
  datatype Entry = Entry(undo: Undo, seen: State, before: State, after: State, fault: bool, ok: bool)

  predicate EntryValid(e: Entry, failed: bool) {
    && Interfered(e.seen, e.before)
    && e.ok == (!e.fault && Permitted(e.seen, e.undo, failed))
    && e.after == if e.ok then Written(e.seen, e.before, e.undo, failed) else e.before
  }

  predicate AnyFailed(log: seq<Entry>, n: nat)
    requires n <= |log|
  {
    exists i | 0 <= i < n :: !log[i].ok
  }

  /** Action i is as its entry says. */
  predicate ValidAt(log: seq<Entry>, failed: bool, i: nat)
    requires i < |log|
  {
    EntryValid(log[i], failed || AnyFailed(log, i))
  }

  /** Only other programs changed the state between action i and the next one. */
  predicate LinkedAt(log: seq<Entry>, i: nat)
    requires i + 1 < |log|
  {
    Interfered(log[i].after, log[i + 1].seen)
  }

  /** A run of undo actions: each as its entry says, in a state that only other programs changed since the last one. */
  ghost predicate LogValid(log: seq<Entry>, failed: bool) {
    && (forall i | 0 <= i < |log| :: ValidAt(log, failed, i))
    && forall i | 0 <= i < |log| - 1 :: LinkedAt(log, i)
  }

  /** The log undoes the stack: each action once, last registered first. */
  predicate Reverses(log: seq<Entry>, actions: seq<Undo>) {
    |log| == |actions| && forall i | 0 <= i < |log| :: log[i].undo == actions[|actions| - 1 - i]
  }

  /** Whatever an action uses is still open when it runs. */
  ghost predicate HandlesOpen(log: seq<Entry>) {
    forall i, h | 0 <= i < |log| && Uses(log[i].undo, h) :: h in log[i].seen.open
  }

  lemma LogSnoc(log: seq<Entry>, e: Entry, initially: bool, failed: bool)
    requires LogValid(log, initially) && EntryValid(e, failed) && failed == (initially || AnyFailed(log, |log|))
    requires log != [] ==> Interfered(log[|log| - 1].after, e.seen)
    ensures LogValid(log + [e], initially)
    ensures AnyFailed(log + [e], |log| + 1) == (AnyFailed(log, |log|) || !e.ok)
  {
    var more := log + [e];
    forall i | 0 <= i <= |log|
      ensures AnyFailed(more, i) == AnyFailed(log, i)
    {
      if j :| 0 <= j < i && !log[j].ok { assert !more[j].ok; }
      if j :| 0 <= j < i && !more[j].ok { assert !log[j].ok; }
    }
    assert more[|log|] == e;
    if AnyFailed(log, |log|) { assert AnyFailed(more, |log|); }
    forall i | 0 <= i < |more|
      ensures ValidAt(more, initially, i)
    {
      assert i < |log| ==> more[i] == log[i] && ValidAt(log, initially, i);
    }
    forall i | 0 <= i < |more| - 1
      ensures LinkedAt(more, i)
    {
      assert i + 1 < |log| ==> LinkedAt(log, i);
    }
  }

  /** The state after the first n actions. */
  function StateAt(start: State, log: seq<Entry>, n: nat): State
    requires n <= |log|
  {
    if n == 0 then start else log[n - 1].after
  }

  /** No other program edited anything since the start. */
  ghost predicate Quiet(start: State, log: seq<Entry>) {
    forall i {:trigger StateAt(start, log, i)} | 0 <= i < |log| ::
      log[i].seen == StateAt(start, log, i) && log[i].before == log[i].seen
  }

  lemma QuietSnoc(start: State, log: seq<Entry>, e: Entry)
    ensures Quiet(start, log + [e])
            <==> Quiet(start, log) && e.seen == StateAt(start, log, |log|) && e.before == e.seen
  {
    var more := log + [e];
    forall i | 0 <= i <= |log|
      ensures StateAt(start, more, i) == StateAt(start, log, i)
    {
    }
    if Quiet(start, more) {
      forall i | 0 <= i < |log|
        ensures log[i].seen == StateAt(start, log, i) && log[i].before == log[i].seen
      {
        assert log[i] == more[i] && more[i].seen == StateAt(start, more, i);
      }
      assert e == more[|log|] && more[|log|].seen == StateAt(start, more, |log|);
    }
    if Quiet(start, log) && e.seen == StateAt(start, log, |log|) && e.before == e.seen {
      forall i | 0 <= i < |more|
        ensures more[i].seen == StateAt(start, more, i) && more[i].before == more[i].seen
      {
        assert i < |log| ==> more[i] == log[i] && log[i].seen == StateAt(start, log, i);
      }
    }
  }

  // ---------------------------------------------------------------- the stack invariant

  /** Actions that use a handle are registered after the action that closes it; each handle is closed once and is open
      as long as that action waits; entries for the profile's account are registered after the action that deletes the profile. */
  ghost predicate StackValid(actions: seq<Undo>, s: State) {
    && (forall i, h | 0 <= i < |actions| && Uses(actions[i], h) :: ClosedBefore(actions, i, h))
    && (forall i, j | 0 <= i < j < |actions| && actions[i].CloseHandle? :: actions[i] != actions[j])
    && (forall i | 0 <= i < |actions| && actions[i].CloseHandle? :: actions[i].handle in s.open)
    && (forall h | h in s.open :: h in s.dacls && h in s.labels)
    && (forall i | 0 <= i < |actions| && actions[i].RemoveEntry? :: actions[i].ace.Known? && ProfileBefore(actions, i))
  }

  predicate ProfileBefore(actions: seq<Undo>, i: int)
    requires i <= |actions|
  {
    exists j | 0 <= j < i :: actions[j] == DeleteProfile
  }

  predicate ClosedBefore(actions: seq<Undo>, i: int, h: Handle)
    requires i <= |actions|
  {
    exists j | 0 <= j < i :: actions[j] == Undo.CloseHandle(h)
  }

  /** What was registered before an action stays registered before it. */
  lemma PushKeeps(actions: seq<Undo>, u: Undo, i: nat)
    requires i <= |actions|
    ensures forall h | ClosedBefore(actions, i, h) :: ClosedBefore(actions + [u], i, h)
    ensures ProfileBefore(actions, i) ==> ProfileBefore(actions + [u], i)
  {
    var more := actions + [u];
    forall h | ClosedBefore(actions, i, h)
      ensures ClosedBefore(more, i, h)
    {
      var j :| 0 <= j < i && actions[j] == Undo.CloseHandle(h);
      assert more[j] == Undo.CloseHandle(h);
    }
    if ProfileBefore(actions, i) {
      var j :| 0 <= j < i && actions[j] == DeleteProfile;
      assert more[j] == DeleteProfile;
    }
  }

  /** Registering an action whose handle is to be closed later and whose account is to be deleted later. */
  lemma Push(actions: seq<Undo>, s: State, u: Undo)
    requires StackValid(actions, s)
    requires u.CloseHandle? ==> u.handle in s.open && u !in actions
    requires u.RemoveEntry? ==> u.ace.Known? && DeleteProfile in actions
    requires forall h | Uses(u, h) :: Undo.CloseHandle(h) in actions
    ensures StackValid(actions + [u], s)
  {
    var more := actions + [u];
    assert forall h | Undo.CloseHandle(h) in actions :: ClosedBefore(actions, |actions|, h);
    assert DeleteProfile in actions ==> ProfileBefore(actions, |actions|);
    forall i | 0 <= i < |more|
      ensures forall h | Uses(more[i], h) :: ClosedBefore(more, i, h)
      ensures more[i].RemoveEntry? ==> more[i].ace.Known? && ProfileBefore(more, i)
    {
      PushKeeps(actions, u, i);
    }
  }

  lemma StackStays(actions: seq<Undo>, before: State, after: State)
    requires StackValid(actions, before) && before.open <= after.open
    requires forall h | h in after.open :: h in after.dacls && h in after.labels
    ensures StackValid(actions, after)
  {
  }

  lemma Pop(actions: seq<Undo>, seen: State, before: State, failed: bool, ok: bool, after: State)
    requires StackValid(actions, seen) && actions != [] && Interfered(seen, before)
    requires var u := actions[|actions| - 1];
             if ok then Permitted(seen, u, failed) && after == Written(seen, before, u, failed) else after == before
    ensures StackValid(actions[..|actions| - 1], after)
  {
    var n := |actions| - 1;
    var u, rest := actions[n], actions[..n];
    forall i, g | 0 <= i < n && Uses(rest[i], g)
      ensures ClosedBefore(rest, i, g)
    {
      assert ClosedBefore(actions, i, g);
      var j :| 0 <= j < i && actions[j] == Undo.CloseHandle(g);
      assert rest[j] == Undo.CloseHandle(g);
    }
    forall i | 0 <= i < n && rest[i].RemoveEntry?
      ensures ProfileBefore(rest, i)
    {
      assert ProfileBefore(actions, i);
      var j :| 0 <= j < i && actions[j] == DeleteProfile;
      assert rest[j] == DeleteProfile;
    }
  }

  /** Whatever a waiting action uses is still open. */
  lemma UsedOpen(actions: seq<Undo>, s: State, i: nat)
    requires StackValid(actions, s) && i < |actions|
    ensures forall h | Uses(actions[i], h) :: h in s.open
    ensures actions[i].RemoveEntry? ==> actions[i].ace.Known?
  {
    forall h | Uses(actions[i], h)
      ensures h in s.open
    {
      assert ClosedBefore(actions, i, h);
    }
  }

  /** How far a rollback of all actions has come: what it has logged, which actions wait, and the state and flag by now. */
  ghost predicate Ran(
      log: seq<Entry>, all: seq<Undo>, start: State, initially: bool, waiting: seq<Undo>, current: State, failed: bool) {
    && waiting <= all && |log| + |waiting| == |all|
    && (forall i | 0 <= i < |log| :: log[i].undo == all[|all| - 1 - i])
    && LogValid(log, initially) && HandlesOpen(log)
    && failed == (initially || AnyFailed(log, |log|))
    && (log != [] ==> Interfered(start, log[0].seen)) && current == StateAt(start, log, |log|)
  }

  lemma RanNext(log: seq<Entry>, all: seq<Undo>, start: State, initially: bool, waiting: seq<Undo>, current: State,
      failed: bool, e: Entry)
    requires Ran(log, all, start, initially, waiting, current, failed) && waiting != []
    requires e.undo == waiting[|waiting| - 1] && EntryValid(e, failed) && Interfered(current, e.seen)
    requires forall h | Uses(e.undo, h) :: h in e.seen.open
    ensures Ran(log + [e], all, start, initially, waiting[..|waiting| - 1], e.after, failed || !e.ok)
  {
    LogSnoc(log, e, initially, failed);
  }

  // ---------------------------------------------------------------- what the stack gives back

  /** The list and label that pinning an object found. */
  datatype Found = Found(list: Option<seq<Ace>>, tag: Label)

  predicate Removes(u: Undo, h: Handle) {
    u.RemoveEntry? && u.handle == h
  }

  predicate Relabels(u: Undo, h: Handle) {
    u.RestoreLabel? && u.handle == h
  }

  /** Running the waiting actions on a list, none refusing, gives back the one found. */
  predicate ListRestores(actions: seq<Undo>, h: Handle, list: Option<seq<Ace>>, found: Option<seq<Ace>>)
    decreases |actions|
  {
    if actions == [] then list == found
    else
      var u, rest := actions[|actions| - 1], actions[..|actions| - 1];
      if Removes(u, h) then
        && u.ace.Known? && list.Some? && Removed(list.value, u.ace).Some?
        && ListRestores(rest, h, Removed(list.value, u.ace), found)
      else ListRestores(rest, h, list, found)
  }

  /** Running the waiting actions on a label, none refusing, gives back the text of the one found. */
  predicate LabelRestores(actions: seq<Undo>, h: Handle, l: Label, found: Label)
    decreases |actions|
  {
    if actions == [] then l.sddl == found.sddl
    else
      var u, rest := actions[|actions| - 1], actions[..|actions| - 1];
      if !Relabels(u, h) then LabelRestores(rest, h, l, found)
      else if l.sddl == u.original.sddl then LabelRestores(rest, h, l, found)
      else l.lowNoWriteUp && LabelRestores(rest, h, u.original, found)
  }

  /** Running the waiting actions gives back every list and label found. */
  ghost predicate Restores(actions: seq<Undo>, s: State, found: map<Handle, Found>) {
    forall h | h in found ::
      && h in s.dacls && ListRestores(actions, h, s.dacls[h], found[h].list)
      && h in s.labels && LabelRestores(actions, h, s.labels[h], found[h].tag)
  }

  /** The stack gives everything back from a state exactly if its top action is permitted and leaves a state from which the
      rest of the stack does. */
  lemma RestoresTop(actions: seq<Undo>, u: Undo, s: State, failed: bool, found: map<Handle, Found>)
    requires forall h | Uses(u, h) :: h in found
    requires u == DeleteProfile ==> !failed
    requires u.RemoveEntry? ==> u.ace.Known?
    ensures Restores(actions + [u], s, found) <==> Permitted(s, u, failed) && Restores(actions, Undone(s, u, failed), found)
  {
    var more := actions + [u];
    assert more[..|more| - 1] == actions;
    if !Permitted(s, u, failed) {
      assert Uses(u, u.handle);
    } else {
      var after := Undone(s, u, failed);
      forall h | h in found
        ensures (h in s.dacls && ListRestores(more, h, s.dacls[h], found[h].list))
                <==> (h in after.dacls && ListRestores(actions, h, after.dacls[h], found[h].list))
        ensures (h in s.labels && LabelRestores(more, h, s.labels[h], found[h].tag))
                <==> (h in after.labels && LabelRestores(actions, h, after.labels[h], found[h].tag))
      {
      }
    }
  }

  /** A newly pinned object has what pinning found, and no waiting action uses it. */
  lemma PinRestores(actions: seq<Undo>, before: State, after: State, h: Handle, found: map<Handle, Found>)
    requires Restores(actions, before, found) && h !in found && StackValid(actions, before) && before.open <= found.Keys
    requires h in after.dacls && after.dacls == before.dacls[h := after.dacls[h]]
    requires h in after.labels && after.labels == before.labels[h := after.labels[h]]
    ensures Restores(actions, after, found[h := Found(after.dacls[h], after.labels[h])])
  {
    forall i | 0 <= i < |actions|
      ensures !Uses(actions[i], h)
    {
      UsedOpen(actions, before, i);
    }
    UnusedRestores(actions, h, after.dacls[h], after.labels[h]);
  }

  lemma {:induction false} UnusedRestores(actions: seq<Undo>, h: Handle, list: Option<seq<Ace>>, l: Label)
    requires forall i | 0 <= i < |actions| :: !Uses(actions[i], h)
    ensures ListRestores(actions, h, list, list) && LabelRestores(actions, h, l, l)
    decreases |actions|
  {
    if actions != [] {
      assert !Uses(actions[|actions| - 1], h);
      UnusedRestores(actions[..|actions| - 1], h, list, l);
    }
  }

  /** The low label is as good as any label of its text. */
  lemma {:induction false} LowRestores(actions: seq<Undo>, h: Handle, l: Label, found: Label)
    requires LabelRestores(actions, h, l, found) && l.sddl == LOW.sddl
    ensures LabelRestores(actions, h, LOW, found)
    decreases |actions|
  {
    if actions != [] && (!Relabels(actions[|actions| - 1], h) || l.sddl == actions[|actions| - 1].original.sddl) {
      LowRestores(actions[..|actions| - 1], h, l, found);
    }
  }

  /** Registering the removal of an entry the list does not have yet changes nothing. */
  lemma GrantPending(actions: seq<Undo>, s: State, h: Handle, ace: Ace, found: map<Handle, Found>)
    requires Restores(actions, s, found) && h in found && ace.Known?
    requires HasList(s, h) && Fresh(s.dacls[h].value, ace.sid)
    ensures Restores(actions + [RemoveEntry(h, ace)], s, found)
  {
    OthersOfFresh(s.dacls[h].value, ace.sid);
    var u := RemoveEntry(h, ace);
    assert Undone(s, u, false).dacls == s.dacls;
    RestoresTop(actions, u, s, false, found);
  }

  /** Once the entry is in the list, its removal gives back the list from before. */
  lemma GrantWritten(actions: seq<Undo>, s: State, h: Handle, ace: Ace, found: map<Handle, Found>)
    requires Restores(actions, s, found) && h in found && ace.Known?
    requires HasList(s, h) && Added(s.dacls[h].value, ace).Some?
    ensures Restores(actions + [RemoveEntry(h, ace)], s.(dacls := s.dacls[h := Added(s.dacls[h].value, ace)]), found)
  {
    var u, after := RemoveEntry(h, ace), s.(dacls := s.dacls[h := Added(s.dacls[h].value, ace)]);
    RemoveUndoesAdd(s.dacls[h].value, ace);
    assert Undone(after, u, false).dacls == s.dacls;
    RestoresTop(actions, u, after, false, found);
  }

  /** The restoration of a label gives it back, before and after the low label is written. */
  lemma LabelPending(actions: seq<Undo>, s: State, h: Handle, found: map<Handle, Found>)
    requires Restores(actions, s, found) && h in found
    ensures Restores(actions + [RestoreLabel(h, s.labels[h])], s, found)
    ensures Restores(actions + [RestoreLabel(h, s.labels[h])], s.(labels := s.labels[h := LOW]), found)
  {
    var u, after := RestoreLabel(h, s.labels[h]), s.(labels := s.labels[h := LOW]);
    RestoresTop(actions, u, s, false, found);
    if s.labels[h].sddl == LOW.sddl {
      LowRestores(actions, h, s.labels[h], found[h].tag);
    } else {
      assert Undone(after, u, false).labels == s.labels;
    }
    RestoresTop(actions, u, after, false, found);
  }

  // ---------------------------------------------------------------- the order of preparation

  /** Pins and locks only: what is registered before the profile exists. */
  ghost predicate Setup(actions: seq<Undo>) {
    forall i | 0 <= i < |actions| :: actions[i].CloseHandle? || actions[i].DisposeLock?
  }

  /** The rights granted on the run directory, the program and the scratch file. */
  const GRANTED: seq<int> := [0x1200A9, 0x1200A9, 0x12019F]

  /** Once the profile exists: its deletion, then up to three grants in order, then the label. */
  ghost predicate Granting(actions: seq<Undo>, account: Sid) {
    && 1 <= |actions| <= 5 && actions[0] == DeleteProfile
    && (forall i | 1 <= i < |actions| && i < 4 ::
          actions[i].RemoveEntry? && actions[i].ace == OwnedAce(account, GRANTED[i - 1]))
    && (|actions| == 5 ==> actions[4].RestoreLabel? && actions[3].RemoveEntry? && actions[4].handle == actions[3].handle)
  }

  /** The first n actions are the setup, the others the granting. */
  ghost predicate SplitAt(actions: seq<Undo>, n: nat, account: Sid) {
    n < |actions| && Setup(actions[..n]) && Granting(actions[n..], account)
  }

  /** What any run of the preparation has registered when it stops. */
  ghost predicate Prepared(actions: seq<Undo>, account: Sid) {
    Setup(actions) || exists n: nat :: SplitAt(actions, n, account)
  }

  lemma SetupSnoc(actions: seq<Undo>, u: Undo)
    requires Setup(actions) && (u.CloseHandle? || u.DisposeLock?)
    ensures Setup(actions + [u])
  {
  }

  lemma ProfileRegistered(actions: seq<Undo>, account: Sid)
    requires Setup(actions)
    ensures SplitAt(actions + [DeleteProfile], |actions|, account)
  {
    assert (actions + [DeleteProfile])[..|actions|] == actions;
  }

  /** The next action of the granting. */
  predicate NextGrant(actions: seq<Undo>, n: nat, u: Undo, account: Sid)
    requires n < |actions|
  {
    var m := |actions| - n;
    if m <= 3 then u.RemoveEntry? && u.ace == OwnedAce(account, GRANTED[m - 1])
    else m == 4 && u.RestoreLabel? && actions[n + 3].RemoveEntry? && u.handle == actions[n + 3].handle
  }

  lemma GrantRegistered(actions: seq<Undo>, n: nat, u: Undo, account: Sid)
    requires SplitAt(actions, n, account) && NextGrant(actions, n, u, account)
    ensures SplitAt(actions + [u], n, account)
  {
    var more := actions + [u];
    assert more[..n] == actions[..n];
    assert more[n..] == actions[n..] + [u];
    assert forall i | n <= i < |actions| :: actions[n..][i - n] == actions[i];
  }

  /** Every entry to be removed belongs to the account, whichever step the preparation stopped at. */
  lemma PreparedOwns(actions: seq<Undo>, account: Sid, i: nat)
    requires Prepared(actions, account) && i < |actions| && actions[i].RemoveEntry?
    ensures actions[i].ace.Known? && actions[i].ace.sid == account
  {
    var n: nat :| SplitAt(actions, n, account);
    assert forall k | 0 <= k < n :: actions[..n][k] == actions[k];
    assert forall k | n <= k < |actions| :: actions[n..][k - n] == actions[k];
  }

  // ---------------------------------------------------------------- scope

  /** OwnedChanges: the stack of undo actions and the failure flag. */
  class OwnedChanges {
    var actions: seq<Undo>
    var cleanupFailed: bool

    constructor ()
      ensures actions == [] && !cleanupFailed
    {
      actions, cleanupFailed := [], false;
    }

    method Add(u: Undo)
      modifies this
      ensures actions == old(actions) + [u] && cleanupFailed == old(cleanupFailed)
    {
      actions := actions + [u];
    }
  }

  class Scope {
    const changes: OwnedChanges
    var state: State
    var next: Handle // the system hands out handles it has not used
    var sid: Option<Sid>
    ghost var found: map<Handle, Found> // each pinned object as pinning found it
    ghost var quiet: bool // no other program has edited anything so far

    ghost predicate Valid()
      reads this, changes
    {
      StackValid(changes.actions, state) && state.open <= found.Keys && forall h | h in found :: h < next
    }

    /** Unless others edit something, the stack gives back every list and label as it was found. */
    ghost predicate Intact()
      reads this, changes
    {
      quiet ==> Restores(changes.actions, state, found)
    }

    /** The object is open and its close is registered. */
    ghost predicate Pinned(h: Handle)
      reads this, changes
    {
      h in state.open && Undo.CloseHandle(h) in changes.actions
    }

    constructor ()
      ensures Valid() && fresh(changes) && changes.actions == [] && !changes.cleanupFailed && sid == None
      ensures quiet && found == map[] && state == State({}, map[], map[], {}, false)
    {
      changes := new OwnedChanges();
      state := State({}, map[], map[], {}, false);
      next, sid, found, quiet := 0, None, map[], true;
    }

    /** Other programs edit lists and labels of pinned objects. */
    method Interfere()
      requires Valid()
      modifies this`state, this`quiet
      ensures Valid() && Interfered(old(state), state)
      ensures quiet == (old(quiet) && state == old(state))
    {
      var lists: map<Handle, Option<seq<Ace>>>, labels: map<Handle, Label> := *, *;
      if lists.Keys == state.dacls.Keys && labels.Keys == state.labels.Keys {
        state := state.(dacls := lists, labels := labels);
      }
      quiet := quiet && state == old(state);
      StackStays(changes.actions, old(state), state);
    }

    method Register(u: Undo)
      requires Valid()
      requires u.CloseHandle? ==> u.handle in state.open && u !in changes.actions
      requires u.RemoveEntry? ==> u.ace.Known? && DeleteProfile in changes.actions
      requires forall h | Uses(u, h) :: Undo.CloseHandle(h) in changes.actions
      modifies changes
      ensures Valid() && changes.actions == old(changes.actions) + [u]
      ensures changes.cleanupFailed == old(changes.cleanupFailed)
    {
      Push(changes.actions, state, u);
      changes.Add(u);
    }

    /** Opens an object and registers its close; the checks on it may still fail afterwards. */
    method Pin() returns (h: Handle, ok: bool)
      requires Valid() && Intact()
      modifies this`state, this`next, this`found, changes
      ensures Valid() && Intact() && changes.cleanupFailed == old(changes.cleanupFailed)
      ensures old(changes.actions) <= changes.actions && (Setup(old(changes.actions)) ==> Setup(changes.actions))
      ensures (ok ==> Pinned(h)) && old(state.open) <= state.open && forall g | old(Pinned(g)) :: Pinned(g)
      ensures found == old(found) || (h !in old(found) && h in state.dacls && h in state.labels
                                      && found == old(found)[h := Found(state.dacls[h], state.labels[h])])
    {
      var opens: bool := *;
      h, ok := next, false;
      if !opens { return; }
      var list: Option<seq<Ace>>, l: Label := *, *;
      state := state.(open := state.open + {h}, dacls := state.dacls[h := list], labels := state.labels[h := l]);
      next, found := next + 1, found[h := Found(list, l)];
      StackStays(changes.actions, old(state), state);
      if Setup(changes.actions) { SetupSnoc(changes.actions, Undo.CloseHandle(h)); }
      if quiet { PinRestores(changes.actions, old(state), state, h, old(found)); }
      Register(Undo.CloseHandle(h));
      assert changes.actions[|changes.actions| - 1] == Undo.CloseHandle(h);
      if quiet { RestoresTop(old(changes.actions), Undo.CloseHandle(h), state, false, found); }
      ok := *;
    }

    /** Creates a lock file and registers its disposal. */
    method Lock(l: nat) returns (ok: bool)
      requires Valid() && Intact()
      modifies this`state, changes
      ensures Valid() && Intact() && changes.cleanupFailed == old(changes.cleanupFailed)
      ensures old(changes.actions) <= changes.actions && (Setup(old(changes.actions)) ==> Setup(changes.actions))
      ensures state.open == old(state.open) && forall g | old(Pinned(g)) :: Pinned(g)
    {
      ok := *;
      if !ok { return; }
      state := state.(locks := state.locks + {l});
      StackStays(changes.actions, old(state), state);
      if Setup(changes.actions) { SetupSnoc(changes.actions, DisposeLock(l)); }
      Register(DisposeLock(l));
      if quiet { RestoresTop(old(changes.actions), DisposeLock(l), state, false, found); }
    }

    method CreateProfile(account: Sid) returns (ok: bool)
      requires Valid() && Intact()
      modifies this`state, this`sid, changes
      ensures Valid() && Intact() && changes.cleanupFailed == old(changes.cleanupFailed)
      ensures changes.actions == old(changes.actions) + (if ok then [DeleteProfile] else [])
      ensures (ok ==> sid == Some(account)) && state.open == old(state.open) && forall g | old(Pinned(g)) :: Pinned(g)
    {
      ok := *;
      if !ok { return; }
      state := state.(profile := true);
      sid := Some(account);
      StackStays(changes.actions, old(state), state);
      Register(DeleteProfile);
      assert changes.actions[|changes.actions| - 1] == DeleteProfile;
      if quiet { RestoresTop(old(changes.actions), DeleteProfile, state, false, found); }
    }

    /** Reads the list, adds the owned entry to the copy, registers the removal, writes the copy back. The read or the
        write may fail, and others may edit the list between them; a refusal to add leaves nothing registered. */
    method Grant(h: Handle, rights: int, canRead: bool, canWrite: bool) returns (ok: bool, ghost before: State)
      requires Valid() && Intact() && sid.Some? && h in state.open && Undo.CloseHandle(h) in changes.actions
      requires DeleteProfile in changes.actions
      modifies this`state, this`quiet, changes
      ensures Valid() && Intact() && changes.cleanupFailed == old(changes.cleanupFailed)
      ensures Interfered(old(state), before)
      ensures var ace := OwnedAce(sid.value, rights);
              var readable := canRead && HasList(old(state), h) && Added(old(state).dacls[h].value, ace).Some?;
              && changes.actions == old(changes.actions) + (if readable then [RemoveEntry(h, ace)] else [])
              && ok == (readable && canWrite)
              && state == if ok then before.(dacls := before.dacls[h := Added(old(state).dacls[h].value, ace)]) else before
    {
      var ace := OwnedAce(sid.value, rights);
      before := state;
      if !canRead { return false, before; }
      var acl: RawAcl? := null;
      if state.dacls[h].Some? { acl := new RawAcl(state.dacls[h].value); }
      var added := AddOwnedAce(acl, ace);
      if !added { return false, before; }
      if quiet { GrantPending(changes.actions, state, h, ace, found); }
      Register(RemoveEntry(h, ace));
      Interfere();
      before := state;
      if !canWrite { return false, before; }
      if quiet { GrantWritten(old(changes.actions), before, h, ace, found); }
      state := state.(dacls := state.dacls[h := Some(acl.aces)]);
      StackStays(changes.actions, before, state);
      return true, before;
    }

    /** Registers the restoration of the label as read, writes the low label and reads the label back; others may edit it
        before each of the last two. */
    method LowIntegrity(h: Handle, canRead: bool, canWrite: bool, canVerify: bool) returns (ok: bool, ghost before: State)
      requires Valid() && Intact() && h in state.open && Undo.CloseHandle(h) in changes.actions
      modifies this`state, this`quiet, changes
      ensures Valid() && Intact() && changes.cleanupFailed == old(changes.cleanupFailed)
      ensures Interfered(old(state), before) && h in state.labels
      ensures changes.actions == old(changes.actions) + (if canRead then [RestoreLabel(h, old(state).labels[h])] else [])
      ensures ok == (canRead && canWrite && canVerify && state.labels[h].lowNoWriteUp)
      ensures if canRead && canWrite then Interfered(before.(labels := before.labels[h := LOW]), state) else state == before
    {
      before := state;
      if !canRead { return false, before; }
      if quiet { LabelPending(changes.actions, state, h, found); }
      Register(RestoreLabel(h, state.labels[h]));
      Interfere();
      before := state;
      if !canWrite { return false, before; }
      state := state.(labels := state.labels[h := LOW]);
      StackStays(changes.actions, before, state);
      Interfere();
      return canVerify && state.labels[h].lowNoWriteUp, before;
    }

    /** Grant number m amid the edits of other programs, failing or not. */
    method TryGrant(h: Handle, m: nat, ghost n: nat) returns (ok: bool)
      requires Valid() && Intact() && sid.Some? && h in state.open && Undo.CloseHandle(h) in changes.actions
      requires m < 3 && SplitAt(changes.actions, n, sid.value) && |changes.actions| == n + m + 1
      modifies this`state, this`quiet, changes
      ensures Valid() && Intact() && changes.cleanupFailed == old(changes.cleanupFailed) && state.open == old(state.open)
      ensures SplitAt(changes.actions, n, sid.value) && old(changes.actions) <= changes.actions
      ensures ok ==> |changes.actions| == n + m + 2
      ensures ok ==> changes.actions[n + m + 1].RemoveEntry? && changes.actions[n + m + 1].handle == h
    {
      var canRead: bool, canWrite: bool := *, *;
      Interfere();
      assert changes.actions[n..][0] == DeleteProfile;
      assert changes.actions[n] == DeleteProfile;
      ghost var registered := changes.actions;
      GrantRegistered(registered, n, RemoveEntry(h, OwnedAce(sid.value, GRANTED[m])), sid.value);
      ghost var before;
      ok, before := Grant(h, GRANTED[m], canRead, canWrite);
      assert changes.actions == registered
             || changes.actions == registered + [RemoveEntry(h, OwnedAce(sid.value, GRANTED[m]))];
    }

    /** The ancestors of the run directory. */
    method PinAncestors(ancestors: nat) returns (ok: bool)
      requires Valid() && Intact() && Setup(changes.actions)
      modifies this`state, this`next, this`found, changes
      ensures Valid() && Intact() && changes.cleanupFailed == old(changes.cleanupFailed) && Setup(changes.actions)
    {
      for i := 0 to ancestors
        invariant Valid() && Intact() && changes.cleanupFailed == old(changes.cleanupFailed) && Setup(changes.actions)
      {
        var ancestor, pinned := Pin();
        if !pinned { return false; }
      }
      return true;
    }

    /** The run directory and the two locks in it. */
    method PinDirectory() returns (directory: Handle, ok: bool)
      requires Valid() && Intact() && Setup(changes.actions)
      modifies this`state, this`next, this`found, changes
      ensures Valid() && Intact() && changes.cleanupFailed == old(changes.cleanupFailed) && Setup(changes.actions)
      ensures ok ==> Pinned(directory)
    {
      directory := 0;
      ok := *; // the run directory is created
      if !ok { return; }
      directory, ok := Pin();
      if !ok { return; }
      ok := Lock(0);
      if !ok { return; }
      ok := Lock(1);
      if !ok { return; }
      ok := *; // the hash of the copied program matches
    }

    /** The steps before the profile, ending with the three handles to grant access to. */
    method PinAll(ancestors: nat) returns (directory: Handle, executable: Handle, scratch: Handle, ok: bool)
      requires Valid() && Intact() && Setup(changes.actions)
      modifies this`state, this`next, this`found, changes
      ensures Valid() && Intact() && changes.cleanupFailed == old(changes.cleanupFailed) && Setup(changes.actions)
      ensures ok ==> Pinned(directory) && Pinned(executable) && Pinned(scratch)
    {
      directory, executable, scratch := 0, 0, 0;
      ok := PinAncestors(ancestors);
      if !ok { return; }
      directory, ok := PinDirectory();
      if !ok { return; }
      executable, ok := Pin();
      if !ok { return; }
      scratch, ok := Pin();
      if !ok { return; }
      var guarded;
      guarded, ok := Pin();
    }

    /** The three grants and the label. */
    method GrantAll(directory: Handle, executable: Handle, scratch: Handle, ghost n: nat) returns (ok: bool)
      requires Valid() && Intact() && sid.Some? && Pinned(directory) && Pinned(executable) && Pinned(scratch)
      requires SplitAt(changes.actions, n, sid.value) && |changes.actions| == n + 1
      modifies this`state, this`quiet, changes
      ensures Valid() && Intact() && changes.cleanupFailed == old(changes.cleanupFailed)
      ensures SplitAt(changes.actions, n, sid.value) && (ok ==> |changes.actions| == n + 5)
    {
      ok := TryGrant(directory, 0, n);
      if !ok { return; }
      ok := TryGrant(executable, 1, n);
      if !ok { return; }
      ok := TryGrant(scratch, 2, n);
      if !ok { return; }
      ok := TryLower(scratch, n);
    }

    /** The label, after the grants. */
    method TryLower(scratch: Handle, ghost n: nat) returns (ok: bool)
      requires Valid() && Intact() && sid.Some? && scratch in state.open && Undo.CloseHandle(scratch) in changes.actions
      requires SplitAt(changes.actions, n, sid.value) && |changes.actions| == n + 4
      requires changes.actions[n + 3].RemoveEntry? && changes.actions[n + 3].handle == scratch
      modifies this`state, this`quiet, changes
      ensures Valid() && Intact() && changes.cleanupFailed == old(changes.cleanupFailed)
      ensures SplitAt(changes.actions, n, sid.value) && (ok ==> |changes.actions| == n + 5)
    {
      var canRead: bool, canWrite: bool, canVerify: bool := *, *, *;
      Interfere();
      ghost var registered, undo := changes.actions, RestoreLabel(scratch, state.labels[scratch]);
      GrantRegistered(registered, n, undo, sid.value);
      ghost var before;
      ok, before := LowIntegrity(scratch, canRead, canWrite, canVerify);
      assert changes.actions == registered || changes.actions == registered + [undo];
    }

    /** Every step in order; any of them may be the last one taken. */
    method Prepare(ancestors: nat, account: Sid) returns (ok: bool)
      requires Valid() && Intact() && changes.actions == []
      modifies this`state, this`next, this`sid, this`found, this`quiet, changes
      ensures Valid() && Intact() && changes.cleanupFailed == old(changes.cleanupFailed)
      ensures Prepared(changes.actions, account)
      ensures ok ==> |changes.actions| >= 5 && SplitAt(changes.actions, |changes.actions| - 5, account)
    {
      var directory, executable, scratch;
      directory, executable, scratch, ok := PinAll(ancestors);
      if !ok { return; }
      ProfileRegistered(changes.actions, account);
      ghost var n := |changes.actions|;
      ok := CreateProfile(account);
      if !ok { return; }
      ok := GrantAll(directory, executable, scratch, n);
    }

    /** Runs one undo action; fault says whether a native call in it fails. Others may edit lists and labels between its
        read and its write. */
    method RunUndo(u: Undo, fault: bool) returns (ok: bool, ghost before: State)
      requires Valid()
      requires forall h | Uses(u, h) :: h in state.open && h in state.dacls && h in state.labels
      requires u.RemoveEntry? ==> u.ace.Known?
      modifies this`state, this`quiet
      ensures EntryValid(Entry(u, old(state), before, state, fault, ok), changes.cleanupFailed)
      ensures quiet == (old(quiet) && before == old(state))
    {
      before := state;
      if fault { return false, before; }
      match u {
        case CloseHandle(h) => state := state.(open := state.open - {h});
        case DisposeLock(l) => state := state.(locks := state.locks - {l});
        case DeleteProfile =>
          if changes.cleanupFailed { return false, before; }
          state := state.(profile := false);
        case RemoveEntry(h, ace) =>
          assert Uses(u, h);
          var acl: RawAcl? := null;
          if state.dacls[h].Some? { acl := new RawAcl(state.dacls[h].value); }
          var removed := RemoveOwnedAce(acl, ace);
          if !removed { return false, before; }
          Interfere();
          before := state;
          state := state.(dacls := state.dacls[h := Some(acl.aces)]);
        case RestoreLabel(h, original) =>
          assert Uses(u, h);
          if state.labels[h].sddl == original.sddl { return true, before; }
          if !state.labels[h].lowNoWriteUp { return false, before; }
          Interfere();
          before := state;
          state := state.(labels := state.labels[h := original]);
      }
      return true, before;
    }

    /** Pops the action registered last and runs it, after edits of other programs; a failure is recorded, not raised. */
    method PopAndRun() returns (ghost entry: Entry)
      requires Valid() && changes.actions != []
      modifies this`state, this`quiet, changes
      ensures Valid() && changes.actions == old(changes.actions)[..|old(changes.actions)| - 1]
      ensures entry.undo == old(changes.actions)[|old(changes.actions)| - 1]
      ensures EntryValid(entry, old(changes.cleanupFailed))
      ensures Interfered(old(state), entry.seen) && entry.after == state
      ensures quiet == (old(quiet) && entry.seen == old(state) && entry.before == entry.seen)
      ensures changes.cleanupFailed == (old(changes.cleanupFailed) || !entry.ok)
      ensures forall h | Uses(entry.undo, h) :: h in entry.seen.open
    {
      Interfere();
      ghost var seen := state;
      var top := |changes.actions| - 1;
      var u := changes.actions[top];
      UsedOpen(changes.actions, seen, top);
      var fault: bool := *;
      var ok;
      ghost var before;
      ok, before := RunUndo(u, fault);
      Pop(changes.actions, seen, before, changes.cleanupFailed, ok, state);
      entry := Entry(u, seen, before, state, fault, ok);
      changes.actions := changes.actions[..top];
      if !ok { changes.cleanupFailed := true; }
    }

    /** OwnedChanges.Dispose: pops and runs actions until none is left, going on after failures, while other programs
        may edit between any two native calls. */
    method Dispose() returns (ghost log: seq<Entry>)
      requires Valid()
      modifies this`state, this`sid, this`quiet, changes
      ensures changes.actions == [] && sid == None
      ensures Reverses(log, old(changes.actions)) && LogValid(log, old(changes.cleanupFailed))
      ensures changes.cleanupFailed == (old(changes.cleanupFailed) || AnyFailed(log, |log|))
      ensures HandlesOpen(log)
      ensures (log != [] ==> Interfered(old(state), log[0].seen)) && state == StateAt(old(state), log, |log|)
      ensures quiet == (old(quiet) && Quiet(old(state), log))
    {
      log := [];
      ghost var all, start, initially := changes.actions, state, changes.cleanupFailed;
      while changes.actions != []
        invariant Valid() && Ran(log, all, start, initially, changes.actions, state, changes.cleanupFailed)
        invariant quiet == (old(quiet) && Quiet(start, log))
        decreases |changes.actions|
      {
        ghost var waiting, current, failed := changes.actions, state, changes.cleanupFailed;
        ghost var entry := PopAndRun();
        RanNext(log, all, start, initially, waiting, current, failed, entry);
        QuietSnoc(start, log, entry);
        log := log + [entry];
      }
      sid := None;
    }
  }
}
