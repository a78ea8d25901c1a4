/**
 The shape shared by the two append-only action logs of an access-epoch
 execution (control events and role-key events): every action is recorded as
 `pending`, optionally `unknown`, then `settled`, and a new action may be
 opened only when nothing is left unsettled.

 The two append rules below are what the two insert guards check; the lemmas
 show that they keep a log a sequence of finished blocks followed by at most
 one unfinished block.
 */
module ActionLog {
  datatype Outcome = Pending | Unknown | Settled

  /** An action id, what the action is bound to, and one recorded outcome. */
  datatype Entry<T> = Entry(action: nat, tag: T, outcome: Outcome)

  /** What may come right after an entry: its own next outcome, or after `settled` a new action. */
  predicate Follows<T(==)>(prior: Entry<T>, next: Entry<T>) {
    match prior.outcome
    case Settled => next.outcome == Pending
    case Unknown => next == prior.(outcome := Settled)
    case Pending => next == prior.(outcome := Unknown) || next == prior.(outcome := Settled)
  }

  /** Blocks `pending unknown? settled`, with at most one unfinished block at the end. */
  predicate BlockLog<T(==)>(log: seq<Entry<T>>) {
    && (log != [] ==> log[0].outcome == Pending)
    && forall i | 0 <= i < |log| - 1 :: Follows(log[i], log[i + 1])
  }

  /** No block is left unfinished. */
  predicate Finished<T>(log: seq<Entry<T>>) {
    log != [] ==> log[|log| - 1].outcome == Settled
  }

  predicate Recorded<T>(log: seq<Entry<T>>, action: nat, outcome: Outcome) {
    exists i | 0 <= i < |log| :: log[i].action == action && log[i].outcome == outcome
  }

  /** UNIQUE(action_id, outcome) inside one log. */
  predicate Distinct<T>(log: seq<Entry<T>>) {
    forall i, j | 0 <= i < j < |log| :: log[i].action != log[j].action || log[i].outcome != log[j].outcome
  }

  predicate NothingUnsettled<T>(log: seq<Entry<T>>) {
    forall i | 0 <= i < |log| && log[i].outcome == Pending :: Recorded(log, log[i].action, Settled)
  }

  /** Where the block that holds entry i starts. */
  function Start<T>(log: seq<Entry<T>>, i: nat): nat
    requires i < |log|
  {
    if i > 0 && log[i].outcome != Pending then Start(log, i - 1) else i
  }

  /** What the settled entries were bound to, in order. */
  function SettledTags<T>(log: seq<Entry<T>>): seq<T> {
    if log == [] then []
    else
      var front := SettledTags(log[..|log| - 1]);
      if log[|log| - 1].outcome == Settled then front + [log[|log| - 1].tag] else front
  }

  lemma Snoc<T>(log: seq<Entry<T>>, e: Entry<T>)
    ensures (log + [e])[..|log|] == log
    ensures SettledTags(log + [e]) == SettledTags(log) + if e.outcome == Settled then [e.tag] else []
  {
    assert (log + [e])[..|log + [e]| - 1] == log;
  }

  /** Every entry belongs to the block that its pending entry opens, at most two places before it. */
  lemma BlockStart<T>(log: seq<Entry<T>>, i: nat)
    requires BlockLog(log) && i < |log|
    ensures Start(log, i) <= i <= Start(log, i) + 2
    ensures log[Start(log, i)] == log[i].(outcome := Pending)
    ensures log[i].outcome != Settled ==> i <= Start(log, i) + 1
  {
    if i > 0 && log[i].outcome != Pending {
      assert Follows(log[i - 1], log[i]);
      if log[i - 1].outcome == Unknown {
        assert i - 1 > 0;
        assert Follows(log[i - 2], log[i - 1]);
      }
    }
  }

  /** A pending entry with something after its block has been settled. */
  lemma BlockEnd<T>(log: seq<Entry<T>>, p: nat)
    requires BlockLog(log) && p < |log| && log[p].outcome == Pending
    ensures !Recorded(log, log[p].action, Settled) ==>
              || p == |log| - 1
              || (p == |log| - 2 && log[p + 1] == log[p].(outcome := Unknown))
  {
    if p + 1 < |log| {
      assert Follows(log[p], log[p + 1]);
      if p + 2 < |log| {
        assert Follows(log[p + 1], log[p + 2]);
      }
    }
  }

  /** The unfinished block at the end is the only action without a settled entry. */
  lemma UnfinishedIsUnsettled<T>(log: seq<Entry<T>>)
    requires BlockLog(log) && Distinct(log) && !Finished(log)
    ensures !Recorded(log, log[|log| - 1].action, Settled)
  {
    var last := |log| - 1;
    BlockStart(log, last);
    if Recorded(log, log[last].action, Settled) {
      var j :| 0 <= j < |log| && log[j].action == log[last].action && log[j].outcome == Settled;
      BlockStart(log, j);
      assert false;
    }
  }

  /** A log with nothing unsettled ends in a finished block. */
  lemma NothingUnsettledIsFinished<T>(log: seq<Entry<T>>)
    requires BlockLog(log) && Distinct(log) && NothingUnsettled(log)
    ensures Finished(log)
  {
    if !Finished(log) {
      UnfinishedIsUnsettled(log);
      BlockStart(log, |log| - 1);
      assert false;
    }
  }

  /** Opening an action on a finished log leaves a block log. */
  lemma OpenAction<T>(log: seq<Entry<T>>, e: Entry<T>)
    requires BlockLog(log) && Finished(log) && e.outcome == Pending
    ensures BlockLog(log + [e])
  {
    var after := log + [e];
    forall i | 0 <= i < |after| - 1
      ensures Follows(after[i], after[i + 1])
    {
      if i < |log| - 1 { assert Follows(log[i], log[i + 1]); }
    }
  }

  /** An outcome can only extend the unfinished block at the end; the log stays a block log. */
  lemma RecordOutcome<T>(log: seq<Entry<T>>, e: Entry<T>, p: nat)
    requires BlockLog(log) && e.outcome != Pending
    requires p < |log| && log[p] == e.(outcome := Pending)
    requires !Recorded(log, e.action, Settled) && !Recorded(log, e.action, e.outcome)
    ensures !Finished(log) && log[|log| - 1].action == e.action && log[|log| - 1].tag == e.tag
    ensures BlockLog(log + [e])
  {
    BlockEnd(log, p);
    var after := log + [e];
    forall i | 0 <= i < |after| - 1
      ensures Follows(after[i], after[i + 1])
    {
      if i < |log| - 1 { assert Follows(log[i], log[i + 1]); }
    }
  }

  /** A block log with n settled actions has between 2n and 3n + 2 entries, and at most 3n when finished. */
  lemma BlockLogLength<T>(log: seq<Entry<T>>)
    requires BlockLog(log)
    ensures 2 * |SettledTags(log)| <= |log| <= 3 * |SettledTags(log)| + 2
    ensures Finished(log) ==> |log| <= 3 * |SettledTags(log)|
  {
    if log != [] {
      LastBlockStart(log);
      BlockStart(log, |log| - 1);
    }
  }

  /** The last block starts after 2m to 3m entries, m being the number of blocks before it. */
  lemma {:induction false} LastBlockStart<T>(log: seq<Entry<T>>)
    requires BlockLog(log) && log != []
    ensures var m := |SettledTags(log)| - (if Finished(log) then 1 else 0);
            2 * m <= Start(log, |log| - 1) <= 3 * m
  {
    var n := |log| - 1;
    var front := log[..n];
    assert log == front + [log[n]];
    Snoc(front, log[n]);
    if n > 0 {
      assert forall i | 0 <= i < n :: front[i] == log[i];
      LastBlockStart(front);
      assert Follows(log[n - 1], log[n]);
      StartOfPrefix(log, n, n - 1);
      BlockStart(log, n - 1);
    }
  }

  lemma StartOfPrefix<T>(log: seq<Entry<T>>, n: nat, i: nat)
    requires i < n <= |log|
    ensures Start(log[..n], i) == Start(log, i)
  {
  }

  /** Every settled tag comes from a settled entry. */
  lemma {:induction false} SettledTagHasEntry<T>(log: seq<Entry<T>>, m: nat) returns (i: nat)
    requires m < |SettledTags(log)|
    ensures i < |log| && log[i].outcome == Settled && log[i].tag == SettledTags(log)[m]
    ensures m == |SettledTags(log[..i])|
  {
    var n := |log| - 1;
    var front := log[..n];
    if m < |SettledTags(front)| {
      i := SettledTagHasEntry(front, m);
      assert front[..i] == log[..i];
    } else {
      i := n;
    }
  }

  /** Every settled entry has its place among the settled tags. */
  lemma {:induction false} SettledEntryHasTag<T>(log: seq<Entry<T>>, i: nat)
    requires i < |log| && log[i].outcome == Settled
    ensures |SettledTags(log[..i])| < |SettledTags(log)|
    ensures SettledTags(log)[|SettledTags(log[..i])|] == log[i].tag
  {
    var n := |log| - 1;
    var front := log[..n];
    if i < n {
      SettledEntryHasTag(front, i);
      assert front[..i] == log[..i];
    } else {
      assert log[..i] == front;
    }
  }
}
