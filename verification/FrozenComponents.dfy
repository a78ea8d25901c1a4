/**
 Technical components: profiles, their model bindings and model definitions,
 and the configuration versions that pin them. The guards keep everything a
 version pins as it was; the proof is that the set of referenced profiles only
 grows and every path to their rows checks it.
 */
module FrozenComponents {
  import opened Options

  type Id = nat

  datatype Profile = Profile(kind: string, name: string, number: int, config: string, state: string, isDefault: bool)
  datatype Model = Model(kind: string, name: string, number: int, config: string)
  datatype Binding = Binding(profile: Id, role: string, model: Id)
  datatype Components = Components(indexing: Id, retrieval: Id, generation: Option<Id>, answerPolicy: Id)
  datatype Version = Version(configuration: Id, number: int, components: Components, state: string, isDefault: bool)

  /** `held` and `heldVersions` are the profile and version ids that rows of other tables refer to; they may change in
      any way. */
  datatype Tables = Tables(
    profiles: map<Id, Profile>, models: map<Id, Model>, bindings: map<Id, Binding>, versions: map<Id, Version>,
    held: set<Id>, heldVersions: set<Id>)

  /** Updates name the row by its old id, give its new id and its whole new row. */
  datatype Step =
    | InsertProfile(profile: Id, profileRow: Profile)
    | UpdateProfile(profile: Id, newProfile: Id, profileRow: Profile)
    | DeleteProfile(profile: Id)
    | InsertModel(model: Id, modelRow: Model)
    | UpdateModel(model: Id, newModel: Id, modelRow: Model)
    | DeleteModel(model: Id)
    | InsertBinding(binding: Id, bindingRow: Binding)
    | UpdateBinding(binding: Id, newBinding: Id, bindingRow: Binding)
    | DeleteBinding(binding: Id)
    | InsertVersion(version: Id, versionRow: Version)
    | UpdateVersion(version: Id, newVersion: Id, versionRow: Version)
    | DeleteVersion(version: Id)
    | SetReferences(profiles: set<Id>, versions: set<Id>)

  // ---------------------------------------------------------------- guards

  predicate Names(c: Components, p: Id) {
    c.indexing == p || c.retrieval == p || c.generation == Some(p)
  }

  /** rag_profile_is_referenced. */
  predicate ProfileReferenced(t: Tables, p: Id) {
    p in t.held || exists v | v in t.versions :: Names(t.versions[v].components, p)
  }

  /** rag_model_is_referenced. */
  predicate ModelReferenced(t: Tables, m: Id) {
    exists b | b in t.bindings :: t.bindings[b].model == m && ProfileReferenced(t, t.bindings[b].profile)
  }

  predicate ProfileBound(t: Tables, p: Id) {
    exists b | b in t.bindings :: t.bindings[b].profile == p
  }

  predicate ModelBound(t: Tables, m: Id) {
    exists b | b in t.bindings :: t.bindings[b].model == m
  }

  predicate ProfileRowFree(t: Tables, except: Option<Id>, p: Profile) {
    forall other | other in t.profiles && Some(other) != except ::
      var q := t.profiles[other];
      !((q.kind, q.name, q.number) == (p.kind, p.name, p.number)) && !(q.kind == p.kind && q.isDefault && p.isDefault)
  }

  predicate ModelRowFree(t: Tables, except: Option<Id>, m: Model) {
    forall other | other in t.models && Some(other) != except ::
      (t.models[other].kind, t.models[other].name, t.models[other].number) != (m.kind, m.name, m.number)
  }

  predicate BindingRowAllowed(t: Tables, except: Option<Id>, b: Binding) {
    && b.profile in t.profiles && b.model in t.models
    && forall other | other in t.bindings && Some(other) != except :: t.bindings[other] != b
  }

  predicate VersionRowAllowed(t: Tables, except: Option<Id>, v: Version) {
    && v.number > 0 && v.components.indexing in t.profiles && v.components.retrieval in t.profiles
    && (v.components.generation.Some? ==> v.components.generation.value in t.profiles)
    && forall other | other in t.versions && Some(other) != except ::
         t.versions[other].configuration != v.configuration || t.versions[other].number != v.number
  }

  predicate AcceptsProfileUpdate(t: Tables, id: Id, newId: Id, p: Profile) {
    && id in t.profiles && !ProfileReferenced(t, id) && ProfileRowFree(t, Some(id), p)
    && (newId != id ==> newId !in t.profiles && !ProfileBound(t, id))
  }

  predicate AcceptsModelUpdate(t: Tables, id: Id, newId: Id, m: Model) {
    && id in t.models && !ModelReferenced(t, id) && ModelRowFree(t, Some(id), m)
    && (newId != id ==> newId !in t.models && !ModelBound(t, id))
  }

  predicate AcceptsBindingUpdate(t: Tables, id: Id, newId: Id, b: Binding) {
    && id in t.bindings && !ProfileReferenced(t, t.bindings[id].profile) && !ProfileReferenced(t, b.profile)
    && BindingRowAllowed(t, Some(id), b) && (newId != id ==> newId !in t.bindings)
  }

  predicate AcceptsVersionUpdate(t: Tables, id: Id, newId: Id, v: Version) {
    && id in t.versions
    && var was := t.versions[id];
    && v.configuration == was.configuration && v.number == was.number && v.components == was.components
    && VersionRowAllowed(t, Some(id), v)
    && (newId != id ==> newId !in t.versions && id !in t.heldVersions)
  }

  predicate Accepts(t: Tables, s: Step) {
    match s
    case InsertProfile(id, p) => id !in t.profiles && ProfileRowFree(t, None, p)
    case UpdateProfile(id, newId, p) => AcceptsProfileUpdate(t, id, newId, p)
    case DeleteProfile(id) => id in t.profiles && !ProfileReferenced(t, id)
    case InsertModel(id, m) => id !in t.models && ModelRowFree(t, None, m)
    case UpdateModel(id, newId, m) => AcceptsModelUpdate(t, id, newId, m)
    case DeleteModel(id) => id in t.models && !ModelReferenced(t, id) && !ModelBound(t, id)
    case InsertBinding(id, b) => id !in t.bindings && !ProfileReferenced(t, b.profile) && BindingRowAllowed(t, None, b)
    case UpdateBinding(id, newId, b) => AcceptsBindingUpdate(t, id, newId, b)
    case DeleteBinding(id) => id in t.bindings && !ProfileReferenced(t, t.bindings[id].profile)
    case InsertVersion(id, v) => id !in t.versions && VersionRowAllowed(t, None, v)
    case UpdateVersion(id, newId, v) => AcceptsVersionUpdate(t, id, newId, v)
    case DeleteVersion(_) => false
    case SetReferences(_, _) => true
  }

  /** Deleting a profile cascades to its bindings. */
  function BindingsOf(bindings: map<Id, Binding>, p: Id): set<Id> {
    set b | b in bindings && bindings[b].profile == p
  }

  function After(t: Tables, s: Step): Tables {
    match s
    case InsertProfile(id, p) => t.(profiles := t.profiles[id := p])
    case UpdateProfile(id, newId, p) => t.(profiles := Moved(t.profiles, id, newId, p))
    case DeleteProfile(id) =>
      t.(profiles := t.profiles - {id}, bindings := t.bindings - BindingsOf(t.bindings, id))
    case InsertModel(id, m) => t.(models := t.models[id := m])
    case UpdateModel(id, newId, m) => t.(models := Moved(t.models, id, newId, m))
    case DeleteModel(id) => t.(models := t.models - {id})
    case InsertBinding(id, b) => t.(bindings := t.bindings[id := b])
    case UpdateBinding(id, newId, b) => t.(bindings := Moved(t.bindings, id, newId, b))
    case DeleteBinding(id) => t.(bindings := t.bindings - {id})
    case InsertVersion(id, v) => t.(versions := t.versions[id := v])
    case UpdateVersion(id, newId, v) => t.(versions := Moved(t.versions, id, newId, v))
    case DeleteVersion(_) => t
    case SetReferences(profiles, versions) => t.(held := profiles, heldVersions := versions)
  }

  function Apply(t: Tables, s: Step): Tables {
    if Accepts(t, s) then After(t, s) else t
  }

  function Run(t: Tables, steps: seq<Step>): Tables
    decreases |steps|
  {
    if steps == [] then t else Run(Apply(t, steps[0]), steps[1..])
  }

  // ---------------------------------------------------------------- what a version pins

  /** Foreign keys: bindings and versions name rows that exist. */
  ghost predicate ReferencesOk(t: Tables) {
    && (forall b | b in t.bindings :: t.bindings[b].profile in t.profiles && t.bindings[b].model in t.models)
    && (forall v, p | v in t.versions && Names(t.versions[v].components, p) :: p in t.profiles)
  }

  /** Profile p, its full binding set and the models bound to it are the same in both states. */
  ghost predicate SameProfile(t: Tables, u: Tables, p: Id) {
    && p in t.profiles && p in u.profiles && u.profiles[p] == t.profiles[p]
    && (forall b | b in t.bindings && t.bindings[b].profile == p :: SameBinding(t, u, b))
    && (forall b | b in u.bindings && u.bindings[b].profile == p :: SameBinding(t, u, b))
  }

  ghost predicate SameBinding(t: Tables, u: Tables, b: Id) {
    && b in t.bindings && b in u.bindings && u.bindings[b] == t.bindings[b]
    && t.bindings[b].model in t.models && t.bindings[b].model in u.models
    && u.models[t.bindings[b].model] == t.models[t.bindings[b].model]
  }

  ghost predicate ReferencedByVersion(t: Tables, p: Id) {
    exists v | v in t.versions :: Names(t.versions[v].components, p)
  }

  // ---------------------------------------------------------------- single statements

  /** The profiles that versions refer to only become more. */
  lemma ReferencedGrows(t: Tables, s: Step, p: Id)
    requires ReferencedByVersion(t, p)
    ensures ReferencedByVersion(Apply(t, s), p)
  {
    if Accepts(t, s) {
      var v :| v in t.versions && Names(t.versions[v].components, p);
      var u := After(t, s);
      var now := if s.UpdateVersion? && s.version == v then s.newVersion else v;
      assert Names(u.versions[now].components, p);
    }
  }

  lemma KeepsReferences(t: Tables, s: Step)
    requires ReferencesOk(t)
    ensures ReferencesOk(Apply(t, s))
  {
    if Accepts(t, s) {
      match s
      case UpdateProfile(id, newId, p) =>
        forall v, q | v in t.versions && Names(t.versions[v].components, q)
          ensures q != id
        {
        }
        if newId != id { assert forall b | b in t.bindings :: t.bindings[b].profile != id; }
      case DeleteProfile(id) =>
        assert forall v, q | v in t.versions && Names(t.versions[v].components, q) :: q != id;
        assert forall b | b in After(t, s).bindings :: t.bindings[b].profile != id;
      case UpdateModel(id, newId, m) =>
        if newId != id { assert forall b | b in t.bindings :: t.bindings[b].model != id; }
      case DeleteModel(id) => assert forall b | b in t.bindings :: t.bindings[b].model != id;
      case _ =>
    }
  }

  /** Every mutation path leaves a profile that a version or a row of another table refers to, its bindings and its models
      alone. */
  lemma ReferencedIsFrozen(t: Tables, s: Step, p: Id)
    requires ReferencesOk(t) && p in t.profiles && (ReferencedByVersion(t, p) || p in t.held)
    ensures SameProfile(t, Apply(t, s), p)
  {
    assert ProfileReferenced(t, p);
    if Accepts(t, s) {
      forall b | b in t.bindings && t.bindings[b].profile == p
        ensures SameBinding(t, After(t, s), b)
      {
        BindingIsFrozen(t, s, p, b);
      }
      forall b | b in After(t, s).bindings && After(t, s).bindings[b].profile == p
        ensures SameBinding(t, After(t, s), b)
      {
        NoNewBinding(t, s, p, b);
        BindingIsFrozen(t, s, p, b);
      }
      ProfileRowIsFrozen(t, s, p);
    }
  }

  lemma ProfileRowIsFrozen(t: Tables, s: Step, p: Id)
    requires Accepts(t, s) && p in t.profiles && ProfileReferenced(t, p)
    ensures p in After(t, s).profiles && After(t, s).profiles[p] == t.profiles[p]
  {
  }

  lemma NoNewBinding(t: Tables, s: Step, p: Id, b: Id)
    requires Accepts(t, s) && ProfileReferenced(t, p)
    requires b in After(t, s).bindings && After(t, s).bindings[b].profile == p
    ensures b in t.bindings && t.bindings[b].profile == p
  {
  }

  lemma BindingIsFrozen(t: Tables, s: Step, p: Id, b: Id)
    requires ReferencesOk(t) && Accepts(t, s) && ProfileReferenced(t, p)
    requires b in t.bindings && t.bindings[b].profile == p
    ensures SameBinding(t, After(t, s), b)
  {
    assert ModelReferenced(t, t.bindings[b].model);
  }

  // ---------------------------------------------------------------- runs

  lemma SameProfileTransitive(t: Tables, u: Tables, w: Tables, p: Id)
    requires SameProfile(t, u, p) && SameProfile(u, w, p)
    ensures SameProfile(t, w, p)
  {
    forall b | b in t.bindings && t.bindings[b].profile == p
      ensures SameBinding(t, w, b)
    {
      assert SameBinding(t, u, b) && SameBinding(u, w, b);
    }
    forall b | b in w.bindings && w.bindings[b].profile == p
      ensures SameBinding(t, w, b)
    {
      assert SameBinding(u, w, b);
      assert SameBinding(t, u, b);
    }
  }

  lemma {:induction false} RunKeepsReferences(t: Tables, steps: seq<Step>)
    requires ReferencesOk(t)
    ensures ReferencesOk(Run(t, steps))
    decreases |steps|
  {
    if steps != [] {
      KeepsReferences(t, steps[0]);
      RunKeepsReferences(Apply(t, steps[0]), steps[1..]);
    }
  }

  lemma {:induction false} PinnedProfileStays(t: Tables, steps: seq<Step>, p: Id)
    requires ReferencesOk(t) && p in t.profiles && ReferencedByVersion(t, p)
    ensures SameProfile(t, Run(t, steps), p)
    decreases |steps|
  {
    if steps == [] {
      assert forall b | b in t.bindings && t.bindings[b].profile == p :: SameBinding(t, t, b);
    } else {
      var u := Apply(t, steps[0]);
      ReferencedIsFrozen(t, steps[0], p);
      ReferencedGrows(t, steps[0], p);
      KeepsReferences(t, steps[0]);
      PinnedProfileStays(u, steps[1..], p);
      SameProfileTransitive(t, u, Run(t, steps), p);
    }
  }

  /** The id under which a version row lives after a run. */
  function Follow(t: Tables, steps: seq<Step>, id: Id): Id
    decreases |steps|
  {
    if steps == [] then id
    else
      var s := steps[0];
      Follow(Apply(t, s), steps[1..], if s.UpdateVersion? && s.version == id && Accepts(t, s) then s.newVersion else id)
  }

  lemma {:induction false} VersionStays(t: Tables, steps: seq<Step>, id: Id)
    requires id in t.versions
    ensures var u, now := Run(t, steps), Follow(t, steps, id);
            && now in u.versions && u.versions[now].components == t.versions[id].components
            && u.versions[now].configuration == t.versions[id].configuration
            && u.versions[now].number == t.versions[id].number
    decreases |steps|
  {
    if steps != [] {
      var s := steps[0];
      var next := if s.UpdateVersion? && s.version == id && Accepts(t, s) then s.newVersion else id;
      VersionStays(Apply(t, s), steps[1..], next);
    }
  }

  /** The tables as the configuration migration finds them: no version yet, and every binding names its rows. */
  ghost predicate Initial(t: Tables) {
    t.versions == map[] && forall b | b in t.bindings :: t.bindings[b].profile in t.profiles && t.bindings[b].model in t.models
  }

  /** In every run: from the moment a version exists, its components stay the ones it names, and each profile it names,
      the full binding set of that profile and every model bound to it are the same in every later state. */
  lemma PinnedGraphNeverChanges(start: Tables, before: seq<Step>, later: seq<Step>, id: Id)
    requires Initial(start) && id in Run(start, before).versions
    ensures var t := Run(start, before);
            var u, now := Run(t, later), Follow(t, later, id);
            && now in u.versions && u.versions[now].components == t.versions[id].components
            && forall p | Names(t.versions[id].components, p) :: SameProfile(t, u, p)
  {
    var t := Run(start, before);
    RunKeepsReferences(start, before);
    VersionStays(t, later, id);
    forall p | Names(t.versions[id].components, p)
      ensures SameProfile(t, Run(t, later), p)
    {
      PinnedProfileStays(t, later, p);
    }
  }

  // ---------------------------------------------------------------- the tables in place

  class Registry {
    var profiles: map<Id, Profile>
    var models: map<Id, Model>
    var bindings: map<Id, Binding>
    var versions: map<Id, Version>
    var held: set<Id>
    var heldVersions: set<Id>

    function Current(): Tables
      reads this
    {
      Tables(profiles, models, bindings, versions, held, heldVersions)
    }

    ghost predicate Valid()
      reads this
    {
      exists start, steps :: Initial(start) && Current() == Run(start, steps)
    }

    constructor (profiles: map<Id, Profile>, models: map<Id, Model>, bindings: map<Id, Binding>)
      requires forall b | b in bindings :: bindings[b].profile in profiles && bindings[b].model in models
      ensures Valid() && Current() == Tables(profiles, models, bindings, map[], {}, {})
    {
      this.profiles, this.models, this.bindings, versions := profiles, models, bindings, map[];
      held, heldVersions := {}, {};
      new;
      assert Current() == Run(Current(), []);
    }

    /** rag_protect_referenced_profile, UPDATE. */
    method UpdateProfile(id: Id, newId: Id, p: Profile) returns (accepted: bool)
      requires Valid()
      modifies this
      ensures Valid() && accepted == Accepts(old(Current()), Step.UpdateProfile(id, newId, p))
      ensures Current() == Apply(old(Current()), Step.UpdateProfile(id, newId, p))
    {
      Extend(Current(), Step.UpdateProfile(id, newId, p));
      if id !in profiles || ProfileReferenced(Current(), id) { return false; }
      if !ProfileRowFree(Current(), Some(id), p) { return false; }
      if newId != id && (newId in profiles || ProfileBound(Current(), id)) { return false; }
      profiles := Moved(profiles, id, newId, p);
      return true;
    }

    /** rag_protect_referenced_profile, DELETE, with the cascade to the bindings. */
    method DeleteProfile(id: Id) returns (accepted: bool)
      requires Valid()
      modifies this
      ensures Valid() && accepted == Accepts(old(Current()), Step.DeleteProfile(id))
      ensures Current() == Apply(old(Current()), Step.DeleteProfile(id))
    {
      Extend(Current(), Step.DeleteProfile(id));
      if id !in profiles || ProfileReferenced(Current(), id) { return false; }
      profiles := profiles - {id};
      bindings := bindings - BindingsOf(bindings, id);
      return true;
    }

    /** rag_protect_referenced_profile_binding: the profile before and the profile after must both be free. */
    method UpdateBinding(id: Id, newId: Id, b: Binding) returns (accepted: bool)
      requires Valid()
      modifies this
      ensures Valid() && accepted == Accepts(old(Current()), Step.UpdateBinding(id, newId, b))
      ensures Current() == Apply(old(Current()), Step.UpdateBinding(id, newId, b))
    {
      Extend(Current(), Step.UpdateBinding(id, newId, b));
      if id !in bindings || ProfileReferenced(Current(), bindings[id].profile) { return false; }
      if ProfileReferenced(Current(), b.profile) { return false; }
      if !BindingRowAllowed(Current(), Some(id), b) || (newId != id && newId in bindings) { return false; }
      bindings := Moved(bindings, id, newId, b);
      return true;
    }

    method DeleteBinding(id: Id) returns (accepted: bool)
      requires Valid()
      modifies this
      ensures Valid() && accepted == Accepts(old(Current()), Step.DeleteBinding(id))
      ensures Current() == Apply(old(Current()), Step.DeleteBinding(id))
    {
      Extend(Current(), Step.DeleteBinding(id));
      if id !in bindings || ProfileReferenced(Current(), bindings[id].profile) { return false; }
      bindings := bindings - {id};
      return true;
    }

    /** rag_protect_referenced_model, UPDATE. */
    method UpdateModel(id: Id, newId: Id, m: Model) returns (accepted: bool)
      requires Valid()
      modifies this
      ensures Valid() && accepted == Accepts(old(Current()), Step.UpdateModel(id, newId, m))
      ensures Current() == Apply(old(Current()), Step.UpdateModel(id, newId, m))
    {
      Extend(Current(), Step.UpdateModel(id, newId, m));
      if id !in models || ModelReferenced(Current(), id) || !ModelRowFree(Current(), Some(id), m) { return false; }
      if newId != id && (newId in models || ModelBound(Current(), id)) { return false; }
      models := Moved(models, id, newId, m);
      return true;
    }

    method DeleteModel(id: Id) returns (accepted: bool)
      requires Valid()
      modifies this
      ensures Valid() && accepted == Accepts(old(Current()), Step.DeleteModel(id))
      ensures Current() == Apply(old(Current()), Step.DeleteModel(id))
    {
      Extend(Current(), Step.DeleteModel(id));
      if id !in models || ModelReferenced(Current(), id) || ModelBound(Current(), id) { return false; }
      models := models - {id};
      return true;
    }

    /** rag_protect_configuration_version_components. */
    method UpdateVersion(id: Id, newId: Id, v: Version) returns (accepted: bool)
      requires Valid()
      modifies this
      ensures Valid() && accepted == Accepts(old(Current()), Step.UpdateVersion(id, newId, v))
      ensures Current() == Apply(old(Current()), Step.UpdateVersion(id, newId, v))
    {
      Extend(Current(), Step.UpdateVersion(id, newId, v));
      if id !in versions { return false; }
      var was := versions[id];
      if v.configuration != was.configuration || v.number != was.number || v.components != was.components {
        return false;
      }
      if !VersionRowAllowed(Current(), Some(id), v) { return false; }
      if newId != id && (newId in versions || id in heldVersions) { return false; }
      versions := Moved(versions, id, newId, v);
      return true;
    }

    /** Inserts, and the references held by other tables. */
    method Insert(s: Step) returns (accepted: bool)
      requires Valid()
      requires s.InsertProfile? || s.InsertModel? || s.InsertBinding? || s.InsertVersion? || s.SetReferences?
      modifies this
      ensures Valid() && accepted == Accepts(old(Current()), s)
      ensures Current() == Apply(old(Current()), s)
    {
      Extend(Current(), s);
      accepted := Accepts(Current(), s);
      if !accepted { return; }
      match s
      case InsertProfile(id, p) => profiles := profiles[id := p];
      case InsertModel(id, m) => models := models[id := m];
      case InsertBinding(id, b) => bindings := bindings[id := b];
      case InsertVersion(id, v) => versions := versions[id := v];
      case SetReferences(ps, vs) => held, heldVersions := ps, vs;
    }
  }

  lemma {:induction false} RunSnoc(t: Tables, steps: seq<Step>, s: Step)
    ensures Run(t, steps + [s]) == Apply(Run(t, steps), s)
    decreases |steps|
  {
    if steps == [] {
      assert (steps + [s])[1..] == [];
    } else {
      assert (steps + [s])[0] == steps[0] && (steps + [s])[1..] == steps[1..] + [s];
      RunSnoc(Apply(t, steps[0]), steps[1..], s);
    }
  }

  /** One more statement from a state that a run leads to. */
  lemma Extend(t: Tables, s: Step)
    requires exists start, steps :: Initial(start) && t == Run(start, steps)
    ensures exists start, steps :: Initial(start) && Apply(t, s) == Run(start, steps)
  {
    var start, steps :| Initial(start) && t == Run(start, steps);
    RunSnoc(start, steps, s);
  }
}
