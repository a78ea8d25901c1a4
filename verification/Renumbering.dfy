/**
 The one-time renumbering of issues: every issue, in key order, gets the next
 number whose key is not already in use, old keys stay as aliases, and the
 identifier table maps every old and new key to its one issue. Afterwards a
 trigger keeps that table exact.
 */
module Renumbering {
  import opened CanonicalJson
  import opened Counting
  import opened IssueKeys
  import opened Options

  type Id = nat

  datatype Issue = Issue(key: string, legacy: seq<string>, revision: int)
  datatype Row = Row(id: Id, key: string, revision: int)
  /** The width of issues.issue_key and issue_identifiers.key. */
  const KEY_WIDTH := 100

  datatype Event = Event(issue: Id, oldKey: string, newKey: string, before: int, after: int)

  // ---------------------------------------------------------------- specification

  /** The rows of the ordered query: every issue once, sorted by key. */
  ghost predicate Listed(rows: seq<Row>, issues: map<Id, Issue>) {
    && (forall i | 0 <= i < |rows| ::
          rows[i].id in issues && rows[i].key == issues[rows[i].id].key && rows[i].revision == issues[rows[i].id].revision)
    && (forall i, j | 0 <= i < j < |rows| :: rows[i].id != rows[j].id)
    && (forall id | id in issues :: exists i | 0 <= i < |rows| :: rows[i].id == id)
    && (forall i, j | 0 <= i < j < |rows| :: !Before(rows[j].key, rows[i].key))
  }

  /** UNIQUE(issue_key). */
  ghost predicate KeysUnique(issues: map<Id, Issue>) {
    forall a, b | a in issues && b in issues && a != b :: issues[a].key != issues[b].key
  }

  ghost predicate Increasing(numbers: seq<nat>) {
    forall i, j | 0 <= i < j < |numbers| :: numbers[i] < numbers[j]
  }

  /** The numbers are the smallest positive ones whose keys are free: each is free, and every smaller number that was
      passed over has a key in use. */
  ghost predicate SmallestFree(numbers: seq<nat>, used: set<string>, next: nat) {
    && Increasing(numbers)
    && (forall i | 0 <= i < |numbers| :: 1 <= numbers[i] < next && Key(numbers[i]) !in used)
    && forall m: nat | 1 <= m < next && m !in numbers :: Key(m) in used
  }

  /** No other list of free numbers is anywhere smaller. */
  lemma {:induction false} NothingSmaller(numbers: seq<nat>, used: set<string>, next: nat, other: seq<nat>, i: nat)
    requires SmallestFree(numbers, used, next) && i < |numbers| && i < |other|
    requires Increasing(other) && forall j | 0 <= j < |other| :: other[j] >= 1 && Key(other[j]) !in used
    ensures numbers[i] <= other[i]
  {
    if other[i] < numbers[i] {
      assert other[i] in numbers;
      var j :| 0 <= j < |numbers| && numbers[j] == other[i];
      assert j < i;
      NothingSmaller(numbers, used, next, other, j);
    }
  }

  function UsedKeys(rows: seq<Row>): set<string> {
    set i | 0 <= i < |rows| :: rows[i].key
  }

  lemma {:induction false} UsedKeysSize(rows: seq<Row>)
    ensures |UsedKeys(rows)| <= |rows|
  {
    if rows != [] {
      UsedKeysSize(rows[..|rows| - 1]);
      assert UsedKeys(rows) == UsedKeys(rows[..|rows| - 1]) + {rows[|rows| - 1].key};
    }
  }

  ghost predicate Renumbered(rows: seq<Row>, numbers: seq<nat>, n: nat, issues: map<Id, Issue>)
    requires n <= |rows| && n <= |numbers|
  {
    forall i | 0 <= i < n ::
      rows[i].id in issues && issues[rows[i].id] == Issue(Key(numbers[i]), [rows[i].key], rows[i].revision + 1)
  }

  ghost predicate Recorded(rows: seq<Row>, numbers: seq<nat>, events: seq<Event>)
    requires |events| <= |rows| && |events| <= |numbers|
  {
    forall i | 0 <= i < |events| ::
      events[i] == Event(rows[i].id, rows[i].key, Key(numbers[i]), rows[i].revision, rows[i].revision + 1)
  }

  // ---------------------------------------------------------------- identifiers

  /** Key k names issue id: its current key or one of its old ones. */
  predicate NamedBy(issue: Issue, k: string) {
    issue.key == k || k in issue.legacy
  }

  /** The table holds exactly the names of the issues, and each name belongs to one issue only. */
  ghost predicate Exact(issues: map<Id, Issue>, identifiers: map<string, Id>) {
    && (forall k | k in identifiers :: identifiers[k] in issues && NamedBy(issues[identifiers[k]], k))
    && (forall id, k | id in issues && NamedBy(issues[id], k) :: k in identifiers && identifiers[k] == id)
  }

  ghost predicate NamesUnique(issues: map<Id, Issue>) {
    forall a, b, k | a in issues && b in issues && NamedBy(issues[a], k) && NamedBy(issues[b], k) :: a == b
  }

  function Names(issue: Issue): set<string> {
    {issue.key} + set i | 0 <= i < |issue.legacy| :: issue.legacy[i]
  }

  lemma NamesAreNames(issue: Issue, k: string)
    ensures k in Names(issue) <==> NamedBy(issue, k)
  {
  }

  /** The identifiers with the names of one more issue. */
  function WithNames(identifiers: map<string, Id>, id: Id, issue: Issue): map<string, Id> {
    identifiers + map k | k in Names(issue) :: id
  }

  lemma WithNamesLookup(identifiers: map<string, Id>, id: Id, issue: Issue, k: string)
    ensures k in WithNames(identifiers, id, issue) <==> k in identifiers || NamedBy(issue, k)
    ensures NamedBy(issue, k) ==> WithNames(identifiers, id, issue)[k] == id
    ensures k in identifiers && !NamedBy(issue, k) ==> WithNames(identifiers, id, issue)[k] == identifiers[k]
  {
    NamesAreNames(issue, k);
  }

  /** The identifiers hold exactly the names of the issues in some set. */
  ghost predicate ExactFor(issues: map<Id, Issue>, done: set<Id>, identifiers: map<string, Id>) {
    && (forall k | k in identifiers ::
          identifiers[k] in issues && identifiers[k] in done && NamedBy(issues[identifiers[k]], k))
    && (forall id, k | id in issues && id in done && NamedBy(issues[id], k) :: k in identifiers && identifiers[k] == id)
  }

  lemma OneMoreExact(issues: map<Id, Issue>, done: set<Id>, identifiers: map<string, Id>, id: Id)
    requires ExactFor(issues, done, identifiers) && id in issues
    requires forall k | k in identifiers && NamedBy(issues[id], k) :: identifiers[k] == id
    ensures ExactFor(issues, done + {id}, WithNames(identifiers, id, issues[id]))
  {
    var more := WithNames(identifiers, id, issues[id]);
    forall k
      ensures k in more <==> k in identifiers || NamedBy(issues[id], k)
      ensures NamedBy(issues[id], k) ==> more[k] == id
      ensures k in identifiers && !NamedBy(issues[id], k) ==> more[k] == identifiers[k]
    {
      WithNamesLookup(identifiers, id, issues[id], k);
    }
  }

  lemma NamesApart(a: Issue, b: Issue, k: string)
    requires |a.legacy| == 1 && |b.legacy| == 1
    requires a.key != b.key && a.key != b.legacy[0] && a.legacy[0] != b.key && a.legacy[0] != b.legacy[0]
    ensures !(NamedBy(a, k) && NamedBy(b, k))
  {
  }

  lemma NewAndOldApart(rows: seq<Row>, numbers: seq<nat>, next: nat, i: nat, j: nat)
    requires SmallestFree(numbers, UsedKeys(rows), next) && i < |numbers| == |rows| && j < |rows| && i != j
    ensures Key(numbers[i]) != Key(numbers[j]) && Key(numbers[i]) != rows[j].key && Key(numbers[j]) != rows[i].key
  {
    KeysDiffer(numbers[i], numbers[j]);
    assert rows[i].key in UsedKeys(rows) && rows[j].key in UsedKeys(rows);
  }

  lemma OldApart(rows: seq<Row>, issues: map<Id, Issue>, i: nat, j: nat)
    requires Listed(rows, issues) && KeysUnique(issues) && i < |rows| && j < |rows| && i != j
    ensures rows[i].key != rows[j].key
  {
    assert rows[if i < j then i else j].id != rows[if i < j then j else i].id;
  }

  lemma RowOf(rows: seq<Row>, issues: map<Id, Issue>, id: Id) returns (i: nat)
    requires Listed(rows, issues) && id in issues
    ensures i < |rows| && rows[i].id == id
  {
    i :| 0 <= i < |rows| && rows[i].id == id;
  }

  /** Old keys are unique and new keys are distinct and free, so no key names two issues. */
  lemma RenumberedNamesUnique(rows: seq<Row>, numbers: seq<nat>, next: nat, before: map<Id, Issue>, after: map<Id, Issue>)
    requires Listed(rows, before) && KeysUnique(before) && after.Keys == before.Keys && |numbers| == |rows|
    requires SmallestFree(numbers, UsedKeys(rows), next) && Renumbered(rows, numbers, |rows|, after)
    ensures NamesUnique(after)
  {
    forall a, b, k | a in after && b in after && NamedBy(after[a], k) && NamedBy(after[b], k)
      ensures a == b
    {
      var i := RowOf(rows, before, a);
      var j := RowOf(rows, before, b);
      if i != j {
        OldApart(rows, before, i, j);
        NamesOfTwo(rows, numbers, next, after[a], after[b], i, j, k);
      }
    }
  }

  lemma NamesOfTwo(rows: seq<Row>, numbers: seq<nat>, next: nat, a: Issue, b: Issue, i: nat, j: nat, k: string)
    requires SmallestFree(numbers, UsedKeys(rows), next) && |numbers| == |rows| && i < |rows| && j < |rows|
    requires a == Issue(Key(numbers[i]), [rows[i].key], a.revision) && b == Issue(Key(numbers[j]), [rows[j].key], b.revision)
    requires i != j && rows[i].key != rows[j].key
    ensures !(NamedBy(a, k) && NamedBy(b, k))
  {
    NewAndOldApart(rows, numbers, next, i, j);
    NamesApart(a, b, k);
  }

  // ---------------------------------------------------------------- progress of the loops

  /** What is known while numbers are handed out: every number below the current one was assigned or skipped because its
      key is in use. */
  ghost predicate Progress(numbers: seq<nat>, used: set<string>, number: nat, skipped: set<string>) {
    && number >= 1 && SmallestFree(numbers, used, number)
    && skipped <= used && |skipped| + |numbers| == number - 1
    && forall k | k in skipped :: KeyBelow(k, number)
  }

  ghost predicate KeyBelow(k: string, number: nat) {
    exists m: nat | m < number :: k == Key(m)
  }

  lemma NotBelowItself(number: nat)
    ensures !KeyBelow(Key(number), number)
  {
    forall m: nat | m < number
      ensures Key(number) != Key(m)
    {
      KeysDiffer(number, m);
    }
  }

  lemma StillBelow(k: string, number: nat)
    requires KeyBelow(k, number) || k == Key(number)
    ensures KeyBelow(k, number + 1)
  {
    if KeyBelow(k, number) {
      var m: nat :| m < number && k == Key(m);
      assert m < number + 1 && k == Key(m);
    }
  }

  lemma Skip(numbers: seq<nat>, used: set<string>, number: nat, skipped: set<string>)
    requires Progress(numbers, used, number, skipped) && Key(number) in used
    ensures Key(number) !in skipped && Progress(numbers, used, number + 1, skipped + {Key(number)})
  {
    NotBelowItself(number);
    FreeNumberSkipped(numbers, used, number);
    forall k | k in skipped + {Key(number)}
      ensures KeyBelow(k, number + 1)
    {
      StillBelow(k, number);
    }
  }

  lemma FewerLeft(used: set<string>, more: set<string>, k: string)
    requires k in used && k !in more
    ensures |used - (more + {k})| < |used - more|
  {
    assert used - (more + {k}) == (used - more) - {k};
  }

  lemma Take(numbers: seq<nat>, used: set<string>, number: nat, skipped: set<string>)
    requires Progress(numbers, used, number, skipped) && Key(number) !in used
    ensures Progress(numbers + [number], used, number + 1, skipped)
  {
    FreeNumberAdded(numbers, used, number);
    forall k | k in skipped
      ensures KeyBelow(k, number + 1)
    {
      StillBelow(k, number);
    }
  }

  lemma FreeNumberSkipped(numbers: seq<nat>, used: set<string>, number: nat)
    requires SmallestFree(numbers, used, number) && Key(number) in used
    ensures SmallestFree(numbers, used, number + 1)
  {
  }

  lemma FreeNumberAdded(numbers: seq<nat>, used: set<string>, number: nat)
    requires SmallestFree(numbers, used, number) && number >= 1 && Key(number) !in used
    ensures SmallestFree(numbers + [number], used, number + 1)
  {
    var more := numbers + [number];
    assert more[|numbers|] == number;
    assert forall m | m in numbers :: m in more;
  }

  lemma ProgressBound(rows: seq<Row>, numbers: seq<nat>, number: nat, skipped: set<string>)
    requires Progress(numbers, UsedKeys(rows), number, skipped) && |numbers| == |rows|
    ensures number <= 2 * |rows| + 1
  {
    UsedKeysSize(rows);
    SubsetSize(skipped, UsedKeys(rows));
  }

  function Waiting(row: Row, temporary: Id -> string): Issue {
    Issue(temporary(row.id), [row.key], row.revision)
  }

  /** Issues that wait for their number. */
  ghost predicate Freed(rows: seq<Row>, temporary: Id -> string, n: nat, issues: map<Id, Issue>) {
    forall i | n <= i < |rows| :: rows[i].id in issues && issues[rows[i].id] == Waiting(rows[i], temporary)
  }

  /** The first n issues wait for their number, the others have their revision still. */
  ghost predicate Freeing(rows: seq<Row>, temporary: Id -> string, n: nat, issues: map<Id, Issue>) {
    && (forall i | 0 <= i < |rows| :: rows[i].id in issues && issues[rows[i].id].revision == rows[i].revision)
    && (forall i | 0 <= i < |rows| && i < n :: issues[rows[i].id] == Waiting(rows[i], temporary))
  }

  lemma FreeOne(rows: seq<Row>, temporary: Id -> string, n: nat, issues: map<Id, Issue>)
    requires DistinctRows(rows) && n < |rows| && Freeing(rows, temporary, n, issues)
    ensures var row := rows[n];
            Freeing(rows, temporary, n + 1, issues[row.id := issues[row.id].(key := temporary(row.id), legacy := [row.key])])
  {
  }

  ghost predicate DistinctRows(rows: seq<Row>) {
    forall i, j | 0 <= i < j < |rows| :: rows[i].id != rows[j].id
  }

  lemma AssignOne(
    rows: seq<Row>, temporary: Id -> string, numbers: seq<nat>, number: nat, issues: map<Id, Issue>, after: map<Id, Issue>)
    requires |numbers| < |rows| && DistinctRows(rows)
    requires Renumbered(rows, numbers, |numbers|, issues) && Freed(rows, temporary, |numbers|, issues)
    requires var row := rows[|numbers|]; after == issues[row.id := Issue(Key(number), [row.key], row.revision + 1)]
    ensures Renumbered(rows, numbers + [number], |numbers| + 1, after) && Freed(rows, temporary, |numbers| + 1, after)
  {
  }

  /** The rows the trigger deletes first. */
  function NamesOf(identifiers: map<string, Id>, id: Id): set<string> {
    set k | k in identifiers && identifiers[k] == id
  }

  /** Without the names of one issue the table is exact for the others, whatever that issue becomes. */
  lemma OthersExact(issues: map<Id, Issue>, identifiers: map<string, Id>, id: Id, issue: Issue)
    requires Exact(issues, identifiers)
    ensures ExactFor(issues[id := issue], issues.Keys - {id}, identifiers - NamesOf(identifiers, id))
  {
  }

  lemma SavedExact(issues: map<Id, Issue>, identifiers: map<string, Id>, id: Id, issue: Issue)
    requires Exact(issues, identifiers)
    requires forall k | k in identifiers - NamesOf(identifiers, id) :: !NamedBy(issue, k)
    ensures Exact(issues[id := issue], WithNames(identifiers - NamesOf(identifiers, id), id, issue))
  {
    var others, after := identifiers - NamesOf(identifiers, id), issues[id := issue];
    OthersExact(issues, identifiers, id, issue);
    OneMoreExact(after, issues.Keys - {id}, others, id);
    assert issues.Keys - {id} + {id} == after.Keys;
  }

  lemma RecordOne(rows: seq<Row>, numbers: seq<nat>, number: nat, events: seq<Event>, e: Event)
    requires |events| == |numbers| < |rows| && Recorded(rows, numbers, events)
    requires var row := rows[|events|]; e == Event(row.id, row.key, Key(number), row.revision, row.revision + 1)
    ensures Recorded(rows, numbers + [number], events + [e])
  {
  }

  /** The first issues have their numbers, revisions and events, the others wait. */
  ghost predicate Assigning(
    rows: seq<Row>, temporary: Id -> string, numbers: seq<nat>, events: seq<Event>, issues: map<Id, Issue>) {
    && |numbers| == |events| <= |rows|
    && Renumbered(rows, numbers, |numbers|, issues) && Recorded(rows, numbers, events)
    && Freed(rows, temporary, |numbers|, issues)
  }

  lemma AssignNext(
    rows: seq<Row>, temporary: Id -> string, numbers: seq<nat>, number: nat, events: seq<Event>, issues: map<Id, Issue>)
    requires DistinctRows(rows) && |numbers| < |rows| && Assigning(rows, temporary, numbers, events, issues)
    ensures var row, key := rows[|numbers|], Key(number);
            && row.id in issues
            && Assigning(rows, temporary, numbers + [number],
                 events + [Event(row.id, row.key, key, row.revision, row.revision + 1)],
                 issues[row.id := issues[row.id].(key := key, revision := issues[row.id].revision + 1)])
  {
    var row, key := rows[|numbers|], Key(number);
    assert issues[row.id] == Waiting(row, temporary);
    AssignOne(rows, temporary, numbers, number, issues, issues[row.id := Issue(key, [row.key], row.revision + 1)]);
    RecordOne(rows, numbers, number, events, Event(row.id, row.key, key, row.revision, row.revision + 1));
  }

  // ---------------------------------------------------------------- the migration and the trigger

  class Tracker {
    var issues: map<Id, Issue>
    var identifiers: map<string, Id>
    var events: seq<Event>
    var nextValue: nat

    constructor (issues: map<Id, Issue>)
      ensures this.issues == issues && identifiers == map[] && events == [] && nextValue == 0
    {
      this.issues, identifiers, events, nextValue := issues, map[], [], 0;
    }

    /** Frees the canonical keys: every issue gets a temporary key and keeps its old one as an alias. */
    method FreeKeys(rows: seq<Row>, temporary: Id -> string)
      requires Listed(rows, issues)
      modifies this`issues
      ensures issues.Keys == old(issues.Keys) && Freed(rows, temporary, 0, issues)
    {
      for n := 0 to |rows|
        invariant issues.Keys == old(issues.Keys) && Freeing(rows, temporary, n, issues)
      {
        var row := rows[n];
        FreeOne(rows, temporary, n, issues);
        issues := issues[row.id := issues[row.id].(key := temporary(row.id), legacy := [row.key])];
      }
    }

    /** The inner loop: passes over the numbers whose keys are in use. */
    method NextFree(used: set<string>, start: nat, ghost numbers: seq<nat>, ghost skipped: set<string>)
      returns (number: nat, ghost more: set<string>)
      requires Progress(numbers, used, start, skipped)
      ensures Progress(numbers, used, number, more) && Key(number) !in used
    {
      number, more := start, skipped;
      while Key(number) in used
        invariant Progress(numbers, used, number, more)
        decreases |used - more|
      {
        Skip(numbers, used, number, more);
        FewerLeft(used, more, Key(number));
        more := more + {Key(number)};
        number := number + 1;
      }
    }

    /** Gives an issue its new key, raises its revision and records the event. */
    method AssignKey(rows: seq<Row>, temporary: Id -> string, n: nat, number: nat, ghost numbers: seq<nat>)
      requires DistinctRows(rows) && n == |numbers| < |rows| && Assigning(rows, temporary, numbers, events, issues)
      modifies this`issues, this`events
      ensures issues.Keys == old(issues.Keys) && Assigning(rows, temporary, numbers + [number], events, issues)
    {
      var row, key := rows[n], Key(number);
      AssignNext(rows, temporary, numbers, number, events, issues);
      issues := issues[row.id := issues[row.id].(key := key, revision := issues[row.id].revision + 1)];
      events := events + [Event(row.id, row.key, key, row.revision, row.revision + 1)];
    }

    /** The outer loop: n issues get the n smallest free numbers in key order, with one history event each. */
    method Assign(rows: seq<Row>, temporary: Id -> string) returns (ghost numbers: seq<nat>, number: nat)
      requires DistinctRows(rows) && Freed(rows, temporary, 0, issues) && events == []
      modifies this`issues, this`events
      ensures issues.Keys == old(issues.Keys) && |numbers| == |events| == |rows|
      ensures SmallestFree(numbers, UsedKeys(rows), number) && 1 <= number <= 2 * |rows| + 1
      ensures Renumbered(rows, numbers, |rows|, issues) && Recorded(rows, numbers, events)
    {
      var reserved := UsedKeys(rows);
      ghost var skipped: set<string> := {};
      number, numbers := 1, [];
      for n := 0 to |rows|
        invariant |numbers| == n && issues.Keys == old(issues.Keys)
        invariant Progress(numbers, reserved, number, skipped) && Assigning(rows, temporary, numbers, events, issues)
      {
        number, skipped := NextFree(reserved, number, numbers, skipped);
        Take(numbers, reserved, number, skipped);
        AssignKey(rows, temporary, n, number, numbers);
        numbers := numbers + [number];
        number := number + 1;
      }
      ProgressBound(rows, numbers, number, skipped);
    }

    /** The INSERT of all identifiers; its primary key holds because no key names two issues. */
    method Identify()
      requires NamesUnique(issues)
      modifies this`identifiers
      ensures Exact(issues, identifiers)
    {
      identifiers := map[];
      var left := issues.Keys;
      ghost var done: set<Id> := {};
      while left != {}
        invariant left <= issues.Keys && done == issues.Keys - left
        invariant ExactFor(issues, done, identifiers)
        decreases |left|
      {
        var id :| id in left;
        OneMoreExact(issues, done, identifiers, id);
        identifiers := WithNames(identifiers, id, issues[id]);
        left := left - {id};
        done := done + {id};
      }
    }

    /** The whole upgrade. */
    method Upgrade(rows: seq<Row>, temporary: Id -> string) returns (ghost numbers: seq<nat>)
      requires Listed(rows, issues) && KeysUnique(issues) && events == []
      modifies this
      ensures issues.Keys == old(issues.Keys) && |numbers| == |events| == |rows|
      ensures SmallestFree(numbers, UsedKeys(rows), nextValue) && 1 <= nextValue <= 2 * |rows| + 1
      ensures Renumbered(rows, numbers, |rows|, issues) && Recorded(rows, numbers, events)
      ensures Exact(issues, identifiers)
    {
      ghost var before := issues;
      FreeKeys(rows, temporary);
      var number;
      numbers, number := Assign(rows, temporary);
      nextValue := number;
      RenumberedNamesUnique(rows, numbers, number, before, issues);
      Identify();
    }

    /** An INSERT or UPDATE of an issue with the trigger that rewrites its identifiers: refused when a name does not fit its
        column or already belongs to another issue. */
    method Save(id: Id, issue: Issue) returns (accepted: bool)
      requires Exact(issues, identifiers)
      modifies this`issues, this`identifiers
      ensures Exact(issues, identifiers)
      ensures accepted == (Neutral(issue.key) && (forall k | NamedBy(issue, k) :: |k| <= KEY_WIDTH)
                           && forall k | k in old(identifiers) && NamedBy(issue, k) :: old(identifiers)[k] == id)
      ensures issues == if accepted then old(issues)[id := issue] else old(issues)
    {
      if !Neutral(issue.key) || |issue.key| > KEY_WIDTH { return false; }
      if exists i | 0 <= i < |issue.legacy| :: |issue.legacy[i]| > KEY_WIDTH { return false; }
      assert forall k | NamedBy(issue, k) :: |k| <= KEY_WIDTH;
      var others := identifiers - NamesOf(identifiers, id);
      if exists k | k in others :: NamedBy(issue, k) { return false; }
      SavedExact(issues, identifiers, id, issue);
      issues := issues[id := issue];
      identifiers := WithNames(others, id, issue);
      return true;
    }
  }

  /** New keys are pairwise distinct, disjoint from every old key, and below the stored next number. */
  lemma NewKeysAreNew(rows: seq<Row>, numbers: seq<nat>, next: nat, i: nat, j: nat)
    requires SmallestFree(numbers, UsedKeys(rows), next) && i < |numbers|
    ensures Neutral(Key(numbers[i])) && numbers[i] < next
    ensures j < |numbers| && i != j ==> Key(numbers[i]) != Key(numbers[j])
    ensures j < |rows| ==> Key(numbers[i]) != rows[j].key
  {
    if j < |numbers| { KeysDiffer(numbers[i], numbers[j]); } else { KeysDiffer(numbers[i], 0); }
    if j < |rows| { assert rows[j].key in UsedKeys(rows); }
  }
}
