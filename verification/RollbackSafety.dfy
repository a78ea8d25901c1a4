/** What the log of any rollback shows, from whatever point preparation stopped at. */
module RollbackSafety {
  import opened Options
  import opened AccessEntries
  import opened SecurityScope

  // ---------------------------------------------------------------- single actions

  /** The profile is deleted only if nothing failed before and every cleanup registered after it succeeded. */
  lemma ProfileOnlyAfterCleanCleanup(log: seq<Entry>, failed: bool, p: nat)
    requires LogValid(log, failed) && p < |log| && log[p].undo == DeleteProfile && log[p].ok
    ensures !failed && forall k | 0 <= k < p :: log[k].ok
    ensures !log[p].after.profile
  {
    assert ValidAt(log, failed, p);
    assert !AnyFailed(log, p);
  }

  /** Undo actions that use a list or label are registered after the action that closes its handle, so that in the log
      they come first; an action on an account's entry comes before the deletion of the profile. */
  lemma UsedBeforeReleased(log: seq<Entry>, actions: seq<Undo>, s: State, k: nat)
    requires Reverses(log, actions) && StackValid(actions, s) && k < |log|
    ensures forall h | Uses(log[k].undo, h) :: exists c | k < c < |log| :: log[c].undo == Undo.CloseHandle(h)
    ensures log[k].undo.RemoveEntry? ==> exists c | k < c < |log| :: log[c].undo == DeleteProfile
  {
    var i := |actions| - 1 - k;
    forall h | Uses(log[k].undo, h)
      ensures exists c | k < c < |log| :: log[c].undo == Undo.CloseHandle(h)
    {
      assert ClosedBefore(actions, i, h);
      var j :| 0 <= j < i && actions[j] == Undo.CloseHandle(h);
      assert log[|actions| - 1 - j].undo == actions[j];
    }
    if log[k].undo.RemoveEntry? {
      assert ProfileBefore(actions, i);
      var j :| 0 <= j < i && actions[j] == DeleteProfile;
      assert log[|actions| - 1 - j].undo == actions[j];
    }
  }

  /** The list after a removal, and nothing else, is the list as it was read minus exactly the owned entry; a removal
      that is refused or fails touches nothing and its failure is recorded. */
  lemma EntryRemovedOrReported(log: seq<Entry>, failed: bool, k: nat)
    requires LogValid(log, failed) && k < |log| && log[k].undo.RemoveEntry?
    ensures ValidAt(log, failed, k)
    ensures var h, ace, seen, before, after := log[k].undo.handle, log[k].undo.ace, log[k].seen, log[k].before, log[k].after;
            if log[k].ok then
              && HasList(seen, h) && h in after.dacls && after == before.(dacls := before.dacls[h := after.dacls[h]])
              && after.dacls[h] == Some(Others(seen.dacls[h].value, ace.sid))
              && Fresh(after.dacls[h].value, ace.sid)
              && forall a | !Of(a, ace.sid) ::
                   multiset(after.dacls[h].value)[a] == multiset(seen.dacls[h].value)[a]
            else after == before && AnyFailed(log, |log|)
  {
    assert ValidAt(log, failed, k);
    if log[k].ok {
      RemoveKeepsOthers(log[k].seen.dacls[log[k].undo.handle].value, log[k].undo.ace.sid);
    }
  }

  /** The list without the entries of an account; a null list has none. */
  function Without(list: Option<seq<Ace>>, sid: Sid): Option<seq<Ace>> {
    if list == None then None else Some(Others(list.value, sid))
  }

  /** Walking both lists in step and passing over the entries of the account, the entries met are the same. */
  predicate InStep(a: seq<Ace>, b: seq<Ace>, sid: Sid)
    decreases |a| + |b|
  {
    if a != [] && Of(a[0], sid) then InStep(a[1..], b, sid)
    else if b != [] && Of(b[0], sid) then InStep(a, b[1..], sid)
    else if a != [] && b != [] then a[0] == b[0] && InStep(a[1..], b[1..], sid)
    else a == b
  }

  /** Two lists that agree apart from the entries of an account. */
  predicate AgreeElsewhere(a: Option<seq<Ace>>, b: Option<seq<Ace>>, sid: Sid) {
    a.Some? && b.Some? && InStep(a.value, b.value, sid)
  }

  lemma {:induction false} OthersFirst(aces: seq<Ace>, sid: Sid)
    requires aces != []
    ensures Others(aces, sid) == (if Of(aces[0], sid) then [] else [aces[0]]) + Others(aces[1..], sid)
  {
    assert aces == [aces[0]] + aces[1..];
    OthersConcat([aces[0]], aces[1..], sid);
  }

  lemma {:induction false} InStepIsSameOthers(a: seq<Ace>, b: seq<Ace>, sid: Sid)
    ensures InStep(a, b, sid) <==> Others(a, sid) == Others(b, sid)
    decreases |a| + |b|
  {
    if a != [] { OthersFirst(a, sid); }
    if b != [] { OthersFirst(b, sid); }
    if a != [] && Of(a[0], sid) {
      InStepIsSameOthers(a[1..], b, sid);
    } else if b != [] && Of(b[0], sid) {
      InStepIsSameOthers(a, b[1..], sid);
    } else if a != [] && b != [] {
      InStepIsSameOthers(a[1..], b[1..], sid);
      var x, y := Others(a, sid), Others(b, sid);
      assert x[1..] == Others(a[1..], sid) && y[1..] == Others(b[1..], sid);
      assert x[0] == a[0] && y[0] == b[0];
    }
  }

  /** A removal takes only the owned entry out of the list it overwrites exactly if that list agrees, apart from entries of
      the account, with the list that was read; an edit made in between is lost, entry by entry. */
  lemma RemovalExactWhen(log: seq<Entry>, failed: bool, k: nat)
    requires LogValid(log, failed) && k < |log| && log[k].undo.RemoveEntry? && log[k].ok
    ensures ValidAt(log, failed, k)
    ensures var h, sid := log[k].undo.handle, log[k].undo.ace.sid;
            && HasList(log[k].seen, h) && h in log[k].before.dacls && HasList(log[k].after, h)
            && var seen, before, after := log[k].seen.dacls[h], log[k].before.dacls[h], log[k].after.dacls[h];
            && (after == Without(before, sid) <==> AgreeElsewhere(seen, before, sid))
            && (before.Some? ==> forall a | !Of(a, sid) ::
                  multiset(after.value)[a] == multiset(before.value)[a]
                  <==> multiset(seen.value)[a] == multiset(before.value)[a])
  {
    EntryRemovedOrReported(log, failed, k);
    assert ValidAt(log, failed, k);
    var h, sid := log[k].undo.handle, log[k].undo.ace.sid;
    if HasList(log[k].before, h) {
      InStepIsSameOthers(log[k].seen.dacls[h].value, log[k].before.dacls[h].value, sid);
    }
  }

  /** A grant has the effect it would have at the moment of writing exactly if the list has not changed since it was read;
      otherwise the number of each other entry is set back to what was read. */
  lemma GrantExactWhen(seen: seq<Ace>, current: seq<Ace>, owned: Ace)
    requires owned.Known? && Added(seen, owned).Some?
    ensures Added(current, owned) == Added(seen, owned) <==> current == seen
    ensures forall a | a != owned ::
              multiset(Added(seen, owned).value)[a] == multiset(current)[a] <==> multiset(seen)[a] == multiset(current)[a]
  {
    RemoveUndoesAdd(seen, owned);
    if Added(current, owned).Some? { RemoveUndoesAdd(current, owned); }
    var k := FirstInherited(seen);
    assert seen == seen[..k] + seen[k..];
  }

  /** A label restored keeps the text it was read with if that was the original, and otherwise gets the original back; a
      restoration that is refused or fails touches nothing and its failure is recorded. It is refused only for a label
      read as neither the original nor the low one. */
  lemma LabelRestoredOrReported(log: seq<Entry>, failed: bool, k: nat)
    requires LogValid(log, failed) && k < |log| && log[k].undo.RestoreLabel?
    ensures var h, original, seen, before, after := log[k].undo.handle, log[k].undo.original, log[k].seen, log[k].before, log[k].after;
            if log[k].ok then
              && h in seen.labels && h in before.labels
              && after == if seen.labels[h].sddl == original.sddl then before else before.(labels := before.labels[h := original])
            else
              && after == before && AnyFailed(log, |log|)
              && (log[k].fault || h !in seen.labels || Foreign(seen.labels[h], original))
  {
    assert ValidAt(log, failed, k);
  }

  /** Neither the original label nor the low one: set by another program. */
  predicate Foreign(l: Label, original: Label) {
    l.sddl != original.sddl && !l.lowNoWriteUp
  }

  /** A restoration overwrites a foreign label, although it refuses those it reads, exactly if it read another text than the
      original and a foreign label was set after that; it leaves the original text exactly if it read another one or the
      original is still there. */
  lemma RestorationExactWhen(log: seq<Entry>, failed: bool, k: nat)
    requires LogValid(log, failed) && k < |log| && log[k].undo.RestoreLabel? && log[k].ok
    ensures var h, original := log[k].undo.handle, log[k].undo.original;
            && h in log[k].seen.labels && h in log[k].before.labels && h in log[k].after.labels
            && var seen, before, after := log[k].seen.labels[h], log[k].before.labels[h], log[k].after.labels[h];
            && (Foreign(before, original) && after != before <==> seen.sddl != original.sddl && Foreign(before, original))
            && (after.sddl == original.sddl <==> seen.sddl != original.sddl || before.sddl == original.sddl)
  {
    LabelRestoredOrReported(log, failed, k);
  }

  /** A lowering and its restoration, amid no edits after the lowering, leave the label that the lowering overwrote if and
      only if it has the text of the label that the lowering read. */
  lemma LoweringExactWhen(read: State, current: State, h: Handle, e: Entry, failed: bool)
    requires h in read.labels && h in current.labels
    requires e.undo == RestoreLabel(h, read.labels[h]) && EntryValid(e, failed) && !e.fault && e.before == e.seen
    requires h in e.seen.labels && e.seen.labels[h] == LOW
    ensures e.ok && h in e.after.labels
    ensures e.after.labels[h].sddl == current.labels[h].sddl <==> read.labels[h].sddl == current.labels[h].sddl
  {
    assert e.after.labels[h].sddl == read.labels[h].sddl;
  }

  // ---------------------------------------------------------------- lost edits

  /** A whole rollback after one grant, in which every action succeeds and no failure is reported, that erases an entry of
      another account: it was added between the read and the write of the removal. */
  lemma EntryEditLost(sid: Sid, other: Ace) returns (actions: seq<Undo>, start: State, log: seq<Entry>)
    requires !Of(other, sid)
    ensures Prepared(actions, sid) && StackValid(actions, start) && Reverses(log, actions)
    ensures log != [] && LogValid(log, false) && log[0].seen == start && !AnyFailed(log, |log|)
    ensures HasList(log[0].before, 0) && other in log[0].before.dacls[0].value
    ensures log[|log| - 1].after.dacls == map[0 := Some([])]
  {
    var owned := OwnedAce(sid, GRANTED[0]);
    actions := [Undo.CloseHandle(0), DeleteProfile, RemoveEntry(0, owned)];
    var labels := map[0 := Label("", false)];
    start := State({0}, map[0 := Some([owned])], labels, {}, true);
    var edited := start.(dacls := map[0 := Some([owned, other])]);
    var removed := start.(dacls := map[0 := Some([])]);
    var deleted := removed.(profile := false);
    var closed := deleted.(open := {});
    log := [Entry(actions[2], start, edited, removed, false, true),
            Entry(actions[1], removed, removed, deleted, false, true),
            Entry(actions[0], deleted, deleted, closed, false, true)];
    assert EntryValid(log[0], false) by {
      OthersOfOne([owned], 0, sid);
      assert edited.dacls[0 := Removed([owned], owned)] == removed.dacls;
    }
    assert actions[..1] == [Undo.CloseHandle(0)];
    assert actions[1..] == [DeleteProfile, RemoveEntry(0, owned)];
    assert SplitAt(actions, 1, sid);
    assert actions[0] == Undo.CloseHandle(0) && actions[1] == DeleteProfile;
    assert ClosedBefore(actions, 2, 0) && ProfileBefore(actions, 2);
  }

  /** A grant that erases an entry of another account: it was added between the read and the write. */
  lemma GrantEditLost(sid: Sid, other: Ace) returns (read: State, current: State, after: State)
    requires !Of(other, sid)
    ensures Interfered(read, current) && HasList(read, 0) && HasList(current, 0) && other in current.dacls[0].value
    ensures var added := Added(read.dacls[0].value, OwnedAce(sid, GRANTED[0]));
            added.Some? && after == current.(dacls := current.dacls[0 := added]) && other !in added.value
  {
    read := State({0}, map[0 := Some([])], map[0 := LOW], {}, true);
    current := read.(dacls := map[0 := Some([other])]);
    after := current.(dacls := map[0 := Some([OwnedAce(sid, GRANTED[0])])]);
    var none: seq<Ace> := [];
    assert none[..0] + [OwnedAce(sid, GRANTED[0])] + none[0..] == [OwnedAce(sid, GRANTED[0])];
  }

  /** A lowering and its restoration, both successful and without edits after the lowering, that erase a label another
      program set between the read and the write of the lowering. */
  lemma LoweringEditLost(original: Label, foreign: Label) returns (read: State, current: State, e: Entry)
    requires foreign.sddl != original.sddl
    ensures Interfered(read, current) && read.labels == map[0 := original] && current.labels == map[0 := foreign]
    ensures e.seen == current.(labels := current.labels[0 := LOW]) && LOW.lowNoWriteUp
    ensures e.undo == RestoreLabel(0, original) && EntryValid(e, false) && e.ok && e.before == e.seen
    ensures 0 in e.after.labels && e.after.labels[0].sddl == original.sddl
  {
    read := State({0}, map[0 := None], map[0 := original], {}, true);
    current := read.(labels := map[0 := foreign]);
    var lowered, restored := current.(labels := map[0 := LOW]), current.(labels := map[0 := original]);
    assert lowered.labels[0 := original] == restored.labels && current.labels[0 := LOW] == lowered.labels;
    var after := if original.sddl == LOW.sddl then lowered else restored;
    e := Entry(RestoreLabel(0, original), lowered, lowered, after, false, true);
  }

  /** A restoration that succeeds and erases a label another program set after it read the low one. */
  lemma LabelEditLost(original: Label, foreign: Label) returns (log: seq<Entry>)
    requires Foreign(foreign, original) && original.sddl != LOW.sddl
    ensures LogValid(log, false) && |log| == 1 && log[0].ok && log[0].undo == RestoreLabel(0, original)
    ensures log[0].before.labels == map[0 := foreign] && log[0].after.labels == map[0 := original]
  {
    var seen := State({0}, map[0 := None], map[0 := LOW], {}, false);
    var edited, restored := seen.(labels := map[0 := foreign]), seen.(labels := map[0 := original]);
    log := [Entry(RestoreLabel(0, original), seen, edited, restored, false, true)];
    assert edited.labels[0 := original] == restored.labels;
  }

  // ---------------------------------------------------------------- whole rollbacks

  ghost predicate OwnedBy(log: seq<Entry>, sid: Sid) {
    forall i | 0 <= i < |log| && log[i].undo.RemoveEntry? :: log[i].undo.ace.Known? && log[i].undo.ace.sid == sid
  }

  /** Whichever step the preparation stopped at, a rollback removes entries of its own account only. */
  lemma RollbackIsOwned(log: seq<Entry>, actions: seq<Undo>, account: Sid)
    requires Prepared(actions, account) && Reverses(log, actions)
    ensures OwnedBy(log, account)
  {
    forall i | 0 <= i < |log| && log[i].undo.RemoveEntry?
      ensures log[i].undo.ace.Known? && log[i].undo.ace.sid == account
    {
      PreparedOwns(actions, account, |actions| - 1 - i);
    }
  }

  lemma QuietStep(start: State, log: seq<Entry>, k: nat)
    requires LogValid(log, false) && Quiet(start, log) && k < |log|
    ensures EntryValid(log[k], AnyFailed(log, k))
    ensures log[k].seen == StateAt(start, log, k) && log[k].before == log[k].seen
    ensures AnyFailed(log, k + 1) <==> AnyFailed(log, k) || !log[k].ok
  {
    assert ValidAt(log, false, k);
    if !log[k].ok { assert AnyFailed(log, k + 1); }
  }

  /** Every waiting action is on a pinned object. */
  ghost predicate UsesFound(actions: seq<Undo>, found: map<Handle, Found>) {
    forall i | 0 <= i < |actions| ::
      (forall h | Uses(actions[i], h) :: h in found) && (actions[i].RemoveEntry? ==> actions[i].ace.Known?)
  }

  /** One action amid no edits and faults: it succeeds, and the rest of the stack gives everything back. */
  lemma UndoRestores(actions: seq<Undo>, i: nat, e: Entry, found: map<Handle, Found>)
    requires UsesFound(actions, found) && i < |actions| && e.undo == actions[i]
    requires EntryValid(e, false) && e.before == e.seen && !e.fault
    requires Restores(actions[..i + 1], e.seen, found)
    ensures e.ok && Restores(actions[..i], e.after, found)
  {
    assert actions[..i + 1] == actions[..i] + [actions[i]];
    RestoresTop(actions[..i], e.undo, e.seen, false, found);
  }

  /** After n actions none has failed, and those that remain give everything back. */
  ghost predicate Restoring(start: State, log: seq<Entry>, actions: seq<Undo>, found: map<Handle, Found>, n: nat)
    requires n <= |log| == |actions|
  {
    !AnyFailed(log, n) && Restores(actions[..|actions| - n], StateAt(start, log, n), found)
  }

  lemma RestoringNext(start: State, log: seq<Entry>, actions: seq<Undo>, found: map<Handle, Found>, n: nat)
    requires n < |log| == |actions| && UsesFound(actions, found) && Restoring(start, log, actions, found, n)
    requires log[n].undo == actions[|actions| - 1 - n] && !log[n].fault && EntryValid(log[n], AnyFailed(log, n))
    requires log[n].seen == StateAt(start, log, n) && log[n].before == log[n].seen
    requires AnyFailed(log, n + 1) <==> AnyFailed(log, n) || !log[n].ok
    ensures Restoring(start, log, actions, found, n + 1)
  {
    UndoRestores(actions, |actions| - 1 - n, log[n], found);
  }

  lemma {:induction false} RunRestores(start: State, log: seq<Entry>, actions: seq<Undo>, found: map<Handle, Found>, n: nat)
    requires LogValid(log, false) && Quiet(start, log) && Reverses(log, actions) && UsesFound(actions, found)
    requires n <= |log| && Restoring(start, log, actions, found, 0)
    requires forall i | 0 <= i < n :: !log[i].fault
    ensures Restoring(start, log, actions, found, n)
  {
    if n > 0 {
      RunRestores(start, log, actions, found, n - 1);
      QuietStep(start, log, n - 1);
      RestoringNext(start, log, actions, found, n - 1);
    }
  }

  /** Rollback is the inverse of preparation: without edits of others and native failures every action succeeds, and each
      leaves a state from which the remaining ones give back every list and label found. */
  lemma {:induction false} RollbackRestores(start: State, log: seq<Entry>, actions: seq<Undo>, found: map<Handle, Found>, n: nat)
    requires LogValid(log, false) && Quiet(start, log) && Reverses(log, actions) && n <= |log|
    requires UsesFound(actions, found) && Restores(actions, start, found)
    requires forall i | 0 <= i < n :: !log[i].fault
    ensures !AnyFailed(log, n)
    ensures Restores(actions[..|actions| - n], StateAt(start, log, n), found)
  {
    assert actions[..|actions|] == actions;
    RunRestores(start, log, actions, found, n);
  }

  // ---------------------------------------------------------------- edits that survive

  /** What other programs do to the entries of other accounts in a list. */
  type Edit = Option<seq<Ace>> -> Option<seq<Ace>>

  /** The entries of other accounts on an object; nothing for an object that is not pinned. */
  function OthersOn(s: State, h: Handle, sid: Sid): Option<seq<Ace>> {
    if h in s.dacls then Without(s.dacls[h], sid) else None
  }

  /** The edits made before action i and between its read and its write. */
  ghost predicate EditedAt(start: State, log: seq<Entry>, h: Handle, sid: Sid, edits: seq<(Edit, Edit)>, i: nat)
    requires i < |log| == |edits|
  {
    && OthersOn(log[i].seen, h, sid) == edits[i].0(OthersOn(StateAt(start, log, i), h, sid))
    && OthersOn(log[i].before, h, sid) == edits[i].1(OthersOn(log[i].seen, h, sid))
  }

  ghost predicate EditedBy(start: State, log: seq<Entry>, h: Handle, sid: Sid, edits: seq<(Edit, Edit)>) {
    |edits| == |log| && forall i | 0 <= i < |log| :: EditedAt(start, log, h, sid, edits, i)
  }

  /** A list after the first n pairs of edits and nothing else. */
  function Replayed(list: Option<seq<Ace>>, edits: seq<(Edit, Edit)>, n: nat): Option<seq<Ace>>
    requires n <= |edits|
  {
    if n == 0 then list else edits[n - 1].1(edits[n - 1].0(Replayed(list, edits, n - 1)))
  }

  /** A removal of this object that succeeds overwrites a list that agrees with the one it read. */
  ghost predicate OverwritesAsRead(e: Entry, h: Handle, sid: Sid) {
    Removes(e.undo, h) && e.ok ==>
      h in e.seen.dacls && h in e.before.dacls && AgreeElsewhere(e.seen.dacls[h], e.before.dacls[h], sid)
  }

  /** No action of a rollback touches an entry of another account then. */
  lemma ActionKeepsOthers(e: Entry, failed: bool, h: Handle, sid: Sid)
    requires EntryValid(e, failed) && OverwritesAsRead(e, h, sid)
    requires e.undo.RemoveEntry? ==> e.undo.ace.Known? && e.undo.ace.sid == sid
    ensures OthersOn(e.after, h, sid) == OthersOn(e.before, h, sid)
  {
    if Removes(e.undo, h) && e.ok {
      InStepIsSameOthers(e.seen.dacls[h].value, e.before.dacls[h].value, sid);
      RemoveKeepsOthers(e.seen.dacls[h].value, sid);
    }
  }

  /** The edits of other programs survive a whole rollback: if no list is edited between the read and the write of a
      removal, at least not in entries of other accounts, then after every action, and at the end, these entries are what
      the edits alone make of those at the start. */
  lemma {:induction false} EditsSurvive(
    start: State, log: seq<Entry>, failed: bool, h: Handle, sid: Sid, edits: seq<(Edit, Edit)>, n: nat)
    requires LogValid(log, failed) && OwnedBy(log, sid) && EditedBy(start, log, h, sid, edits) && n <= |log|
    requires forall i | 0 <= i < n :: OverwritesAsRead(log[i], h, sid)
    ensures OthersOn(StateAt(start, log, n), h, sid) == Replayed(OthersOn(start, h, sid), edits, n)
  {
    if n > 0 {
      EditsSurvive(start, log, failed, h, sid, edits, n - 1);
      assert EditedAt(start, log, h, sid, edits, n - 1) && ValidAt(log, failed, n - 1);
      ActionKeepsOthers(log[n - 1], failed || AnyFailed(log, n - 1), h, sid);
    }
  }

  /** No entry of the account is on the object. */
  predicate Cleared(s: State, h: Handle, sid: Sid) {
    HasList(s, h) && Fresh(s.dacls[h].value, sid)
  }

  /** Others add no entry of the account to a cleared list and do not take the list away. */
  ghost predicate StaysCleared(start: State, log: seq<Entry>, h: Handle, sid: Sid, i: nat)
    requires i < |log|
  {
    && (Cleared(StateAt(start, log, i), h, sid) ==> Cleared(log[i].seen, h, sid))
    && (Cleared(log[i].seen, h, sid) ==> Cleared(log[i].before, h, sid))
  }

  /** After its removal the account's entry does not come back unless others bring it back. */
  lemma {:induction false} OwnedStaysGone(
    start: State, log: seq<Entry>, failed: bool, h: Handle, sid: Sid, k: nat, n: nat)
    requires LogValid(log, failed) && OwnedBy(log, sid) && k < n <= |log|
    requires Removes(log[k].undo, h) && log[k].ok
    requires forall i | k < i < n :: StaysCleared(start, log, h, sid, i)
    ensures Cleared(StateAt(start, log, n), h, sid)
  {
    if n == k + 1 {
      EntryRemovedOrReported(log, failed, k);
    } else {
      OwnedStaysGone(start, log, failed, h, sid, k, n - 1);
      assert StaysCleared(start, log, h, sid, n - 1) && ValidAt(log, failed, n - 1);
      if Removes(log[n - 1].undo, h) && log[n - 1].ok { EntryRemovedOrReported(log, failed, n - 1); }
    }
  }

  /** At the end of a rollback that removed the account's entry from a list amid such edits, the list is exactly what the
      edits alone make of its entries of other accounts. */
  lemma ListEndsAsEdited(
    start: State, log: seq<Entry>, failed: bool, h: Handle, sid: Sid, edits: seq<(Edit, Edit)>, k: nat)
    requires LogValid(log, failed) && OwnedBy(log, sid) && EditedBy(start, log, h, sid, edits)
    requires k < |log| && Removes(log[k].undo, h) && log[k].ok
    requires forall i | 0 <= i < |log| :: OverwritesAsRead(log[i], h, sid)
    requires forall i | k < i < |log| :: StaysCleared(start, log, h, sid, i)
    ensures var end := StateAt(start, log, |log|);
            h in end.dacls && end.dacls[h] == Replayed(OthersOn(start, h, sid), edits, |log|)
  {
    EditsSurvive(start, log, failed, h, sid, edits, |log|);
    OwnedStaysGone(start, log, failed, h, sid, k, |log|);
    OthersOfFresh(StateAt(start, log, |log|).dacls[h].value, sid);
  }

  // ---------------------------------------------------------------- whole preparations and rollbacks

  /** If the rollback reports no failure, every registered handle is closed and the profile, if created, is deleted. */
  lemma {:induction false} NothingLeft(start: State, log: seq<Entry>, failed: bool, n: nat)
    requires LogValid(log, failed) && n <= |log| && !AnyFailed(log, |log|)
    ensures forall i | 0 <= i < n && log[i].undo.CloseHandle? :: log[i].undo.handle !in StateAt(start, log, n).open
    ensures (exists i | 0 <= i < n :: log[i].undo == DeleteProfile) ==> !StateAt(start, log, n).profile
  {
    if n > 0 {
      NothingLeft(start, log, failed, n - 1);
      assert log[n - 1].ok;
      assert ValidAt(log, failed, n - 1);
      if n > 1 { assert LinkedAt(log, n - 2); }
    }
  }

  /** What Supervisor does with a scope: prepares it and, whichever step that stopped at, disposes of it. If no failure is
      reported, all it registered is closed and deleted; if moreover no other program edited a list or label meanwhile,
      every list and label is as pinning found it, and without such edits only a native failure makes the rollback fail. */
  method PrepareAndDispose(scope: Scope, ancestors: nat, account: Sid) returns (prepared: bool, ghost log: seq<Entry>)
    requires scope.Valid() && scope.Intact() && scope.changes.actions == [] && !scope.changes.cleanupFailed
    modifies scope, scope.changes
    ensures LogValid(log, false) && OwnedBy(log, account)
    ensures scope.changes.cleanupFailed == AnyFailed(log, |log|)
    ensures !scope.changes.cleanupFailed ==> forall i | 0 <= i < |log| && log[i].undo.CloseHandle? ::
              log[i].undo.handle !in scope.state.open
    ensures !scope.changes.cleanupFailed && (exists i | 0 <= i < |log| :: log[i].undo == DeleteProfile) ==> !scope.state.profile
    ensures scope.quiet && scope.changes.cleanupFailed ==> exists i | 0 <= i < |log| :: log[i].fault
    ensures scope.quiet && !scope.changes.cleanupFailed ==>
              forall h | h in scope.found ::
                && h in scope.state.dacls && scope.state.dacls[h] == scope.found[h].list
                && h in scope.state.labels && scope.state.labels[h].sddl == scope.found[h].tag.sddl
  {
    prepared := scope.Prepare(ancestors, account);
    ghost var actions, start, found := scope.changes.actions, scope.state, scope.found;
    forall i | 0 <= i < |actions|
      ensures (forall h | Uses(actions[i], h) :: h in found) && (actions[i].RemoveEntry? ==> actions[i].ace.Known?)
    {
      UsedOpen(actions, start, i);
    }
    log := scope.Dispose();
    RollbackIsOwned(log, actions, account);
    if !scope.changes.cleanupFailed { NothingLeft(start, log, false, |log|); }
    if scope.quiet && forall i | 0 <= i < |log| :: !log[i].fault {
      RollbackRestores(start, log, actions, found, |log|);
    } else if scope.quiet {
      var i :| 0 <= i < |log| && log[i].fault;
      assert ValidAt(log, false, i);
    }
  }
}
