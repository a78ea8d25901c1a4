/**
 The generative tables, updated in place behind their guards, with the deferred
 cancellation check at commit. Every method is proved to accept and to change
 exactly what the statement model says, so the run results hold of every store.
 */
module GenerativeStore {
  import opened Options
  import opened GenerativeTables

  ghost predicate Reachable(s: Store) {
    exists start, events :: Initial(start) && s == Run(start, events)
  }

  lemma ReachableStep(s: Store, e: Event)
    requires Reachable(s)
    ensures Reachable(Apply(s, e))
  {
    var start, events :| Initial(start) && s == Run(start, events);
    RunAppend(start, events, [e]);
    assert Run(s, [e]) == Run(Apply(s, e), []);
  }

  class Database {
    var world: World
    var datasets: map<Id, Id>
    var cases: map<Id, map<Id, Case>>
    var policies: map<Id, Policy>
    var runs: map<Id, GenerativeRun>
    var attempts: map<Id, Attempt>
    var saved: Tables   // the last committed state
    var checks: set<Id> // runs with a deferred check queued

    function Current(): Tables
      reads this
    {
      Tables(world, datasets, cases, policies, runs, attempts)
    }

    function Contents(): Store
      reads this
    {
      Store(Current(), saved, checks)
    }

    ghost predicate Valid()
      reads this
    {
      Reachable(Contents())
    }

    constructor (world: World, datasets: map<Id, Id>, cases: map<Id, map<Id, Case>>)
      ensures Valid() && Initial(Contents())
      ensures Current() == Tables(world, datasets, cases, map[], map[], map[])
    {
      this.world, this.datasets, this.cases := world, datasets, cases;
      policies, runs, attempts := map[], map[], map[];
      saved := Tables(world, datasets, cases, map[], map[], map[]);
      checks := {};
      new;
      assert Contents() == Run(Contents(), []);
    }

    /** Rows of other guards, datasets, their cases and policies. */
    method Insert(s: Step) returns (accepted: bool)
      requires Valid() && (s.SetWorld? || s.InsertDataset? || s.InsertCase? || s.InsertPolicy?)
      modifies this
      ensures Valid() && accepted == Accepts(old(Current()), s)
      ensures Contents() == Apply(old(Contents()), Statement(s))
    {
      ReachableStep(Contents(), Statement(s));
      accepted := Accepts(Current(), s);
      if !accepted { return; }
      match s
      case SetWorld(w) => world := w;
      case InsertDataset(id, owner) => datasets := datasets[id := owner];
      case InsertCase(d, id, c) => cases := cases[d := Current().Cases(d)[id := c]];
      case InsertPolicy(id, p) => policies := policies[id := p];
    }

    method InsertRun(id: Id, r: GenerativeRun) returns (accepted: bool)
      requires Valid()
      modifies this
      ensures Valid() && accepted == Accepts(old(Current()), Step.InsertRun(id, r))
      ensures Contents() == Apply(old(Contents()), Statement(Step.InsertRun(id, r)))
    {
      ReachableStep(Contents(), Statement(Step.InsertRun(id, r)));
      if id in runs || r.status == Cancelled || !Owned(Current(), r) || !RunRowAllowed(r) { return false; }
      if exists other | other in runs ::
           runs[other].inputs.owner == r.inputs.owner && runs[other].inputs.request == r.inputs.request { return false; }
      runs := runs[id := r];
      return true;
    }

    /** The run guard: a cancelled run is immutable, and only an unstarted run of its owner can be cancelled. */
    method UpdateRun(id: Id, r: GenerativeRun) returns (accepted: bool)
      requires Valid()
      modifies this
      ensures Valid() && accepted == Accepts(old(Current()), Step.UpdateRun(id, r))
      ensures Contents() == Apply(old(Contents()), Statement(Step.UpdateRun(id, r)))
    {
      ReachableStep(Contents(), Statement(Step.UpdateRun(id, r)));
      if id !in runs { return false; }
      var was := runs[id];
      if was.status == Cancelled { return false; }
      if r.status == Cancelled {
        if was.status != Pending || was.token != None || was.claimedAt != None || was.finishedAt != None
           || was.environment != None { return false; }
        if r.cancelledBy != Some(r.inputs.owner) || r.inputs.owner !in world.owners { return false; }
        if exists a | a in attempts :: OfRun(Current(), a, id) && !Unstarted(Current(), a) { return false; }
      }
      if r.inputs != was.inputs || !Owned(Current(), r) || !RunRowAllowed(r) { return false; }
      runs := runs[id := r];
      checks := checks + Queued(Step.UpdateRun(id, r));
      return true;
    }

    method InsertAttempt(id: Id, a: Attempt) returns (accepted: bool)
      requires Valid()
      modifies this
      ensures Valid() && accepted == Accepts(old(Current()), Step.InsertAttempt(id, a))
      ensures Contents() == Apply(old(Contents()), Statement(Step.InsertAttempt(id, a)))
    {
      ReachableStep(Contents(), Statement(Step.InsertAttempt(id, a)));
      if id in attempts || a.key.run !in runs { return false; }
      var parent := runs[a.key.run];
      if a.status == Withdrawn || parent.status == Cancelled { return false; }
      if !InsideInputs(Current(), parent, a.key) || !AttemptRowAllowed(a) { return false; }
      if exists other | other in attempts ::
           SameAttempt(attempts[other].key, a.key) || attempts[other].key.execution == a.key.execution { return false; }
      attempts := attempts[id := a];
      return true;
    }

    /** The attempt guard, its cancellation rules first. */
    method UpdateAttempt(id: Id, a: Attempt) returns (accepted: bool)
      requires Valid()
      modifies this
      ensures Valid() && accepted == Accepts(old(Current()), Step.UpdateAttempt(id, a))
      ensures Contents() == Apply(old(Contents()), Statement(Step.UpdateAttempt(id, a)))
    {
      ReachableStep(Contents(), Statement(Step.UpdateAttempt(id, a)));
      if id !in attempts || a.key.run !in runs { return false; }
      var was, parent := attempts[id], runs[a.key.run];
      if was.status == Withdrawn { return false; }
      if a.status == Withdrawn {
        if parent.status != Cancelled || !Untouched(was) || a.finishedAt != parent.cancelledAt
           || a != was.(status := Withdrawn, finishedAt := a.finishedAt) { return false; }
      } else {
        if !InsideInputs(Current(), parent, a.key) { return false; }
        if was.status in {Done, Broken, Interrupted} || a.key != was.key { return false; }
        if parent.status != Running || a.token != parent.token { return false; }
      }
      if !AttemptRowAllowed(a) { return false; }
      attempts := attempts[id := a];
      return true;
    }

    /** Runs the deferred checks; the transaction is kept when all of them pass and undone otherwise. */
    method Commit() returns (kept: bool)
      requires Valid()
      modifies this
      ensures Valid() && Contents() == Apply(old(Contents()), Event.Commit)
      ensures kept == forall r | r in old(checks) :: CancelComplete(old(Current()), r)
    {
      ReachableStep(Contents(), Event.Commit);
      ghost var before := Contents();
      kept := true;
      var pending := checks;
      while pending != {} && kept
        invariant pending <= checks && Contents() == before
        invariant kept ==> forall r | r in checks - pending :: CancelComplete(Current(), r)
        invariant !kept ==> exists r :: r in checks && !CancelComplete(Current(), r)
        decreases pending, kept
      {
        var r :| r in pending;
        kept := CancelComplete(Current(), r);
        pending := pending - {r};
      }
      if kept { saved := Current(); } else { Undo(); }
      checks := {};
    }

    method Rollback()
      requires Valid()
      modifies this
      ensures Valid() && Contents() == Apply(old(Contents()), Event.Rollback)
    {
      ReachableStep(Contents(), Event.Rollback);
      Undo();
      checks := {};
    }

    /** Restores the last committed rows. */
    method Undo()
      modifies this
      ensures Contents() == Store(old(saved), old(saved), old(checks))
    {
      world, datasets, cases := saved.world, saved.datasets, saved.cases;
      policies, runs, attempts := saved.policies, saved.runs, saved.attempts;
    }
  }
}
