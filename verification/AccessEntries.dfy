/**
 The access-control entries a scope owns: adding one to an access-control list
 and removing exactly that one from whatever list is read later.
 */
module AccessEntries {
  import opened Options

  type Sid = nat

  /** An entry: one with a readable account, or one of another layout. Equality is binary equality. */
  datatype Ace =
    | Known(sid: Sid, inherited: bool, mask: int, kind: int)
    | Custom(inherited: bool, bytes: seq<int>)

  /** SecurityContract.OwnedAce: an explicit allow entry. */
  function OwnedAce(sid: Sid, rights: int): Ace {
    Known(sid, false, rights, 0)
  }

  // ---------------------------------------------------------------- specification

  predicate Of(a: Ace, sid: Sid) {
    a.Known? && a.sid == sid
  }

  predicate Fresh(aces: seq<Ace>, sid: Sid) {
    forall i | 0 <= i < |aces| :: !Of(aces[i], sid)
  }

  /** Where the inherited entries start. */
  function FirstInherited(aces: seq<Ace>): (k: nat)
    ensures k <= |aces|
  {
    if aces == [] || aces[0].inherited then 0 else 1 + FirstInherited(aces[1..])
  }

  /** The list after adding an owned entry, None when the account already has one. */
  function Added(aces: seq<Ace>, owned: Ace): Option<seq<Ace>>
    requires owned.Known?
  {
    if Fresh(aces, owned.sid) then
      Some(aces[..FirstInherited(aces)] + [owned] + aces[FirstInherited(aces)..])
    else None
  }

  /** The entries of all other accounts, in order. */
  function Others(aces: seq<Ace>, sid: Sid): seq<Ace> {
    if aces == [] then []
    else
      var front, last := Others(aces[..|aces| - 1], sid), aces[|aces| - 1];
      if Of(last, sid) then front else front + [last]
  }

  /** Every entry of the account is the owned one, and there is at most one. */
  predicate Unchanged(aces: seq<Ace>, owned: Ace)
    requires owned.Known?
  {
    && (forall i | 0 <= i < |aces| && Of(aces[i], owned.sid) :: aces[i] == owned)
    && forall i, j | 0 <= i < j < |aces| :: !(Of(aces[i], owned.sid) && Of(aces[j], owned.sid))
  }

  /** The list after removing the owned entry, None when it was changed or repeated. */
  function Removed(aces: seq<Ace>, owned: Ace): Option<seq<Ace>>
    requires owned.Known?
  {
    if Unchanged(aces, owned) then Some(Others(aces, owned.sid)) else None
  }

  // ---------------------------------------------------------------- the list in place

  class RawAcl {
    var aces: seq<Ace>

    constructor (aces: seq<Ace>)
      ensures this.aces == aces
    {
      this.aces := aces;
    }

    method InsertAce(index: nat, ace: Ace)
      requires index <= |aces|
      modifies this
      ensures aces == old(aces[..index]) + [ace] + old(aces[index..])
    {
      aces := aces[..index] + [ace] + aces[index..];
    }

    method RemoveAce(index: nat)
      requires index < |aces|
      modifies this
      ensures aces == old(aces[..index]) + old(aces[index + 1..])
    {
      aces := aces[..index] + aces[index + 1..];
    }
  }

  lemma FirstInheritedAt(aces: seq<Ace>, k: nat)
    requires k <= |aces| && forall i | 0 <= i < k :: !aces[i].inherited
    requires k < |aces| ==> aces[k].inherited
    ensures FirstInherited(aces) == k
  {
    if k > 0 { FirstInheritedAt(aces[1..], k - 1); }
  }

  lemma {:induction false} OthersOfFresh(aces: seq<Ace>, sid: Sid)
    requires Fresh(aces, sid)
    ensures Others(aces, sid) == aces
  {
    if aces != [] {
      assert aces == aces[..|aces| - 1] + [aces[|aces| - 1]];
      OthersOfFresh(aces[..|aces| - 1], sid);
    }
  }

  lemma {:induction false} OthersConcat(a: seq<Ace>, b: seq<Ace>, sid: Sid)
    ensures Others(a + b, sid) == Others(a, sid) + Others(b, sid)
  {
    if b == [] {
      assert a + b == a;
    } else {
      assert (a + b)[..|a + b| - 1] == a + b[..|b| - 1];
      OthersConcat(a, b[..|b| - 1], sid);
    }
  }

  /** Taking out the only entry of an account leaves the others. */
  lemma OthersOfOne(aces: seq<Ace>, index: nat, sid: Sid)
    requires index < |aces| && Of(aces[index], sid)
    requires forall i | 0 <= i < |aces| && i != index :: !Of(aces[i], sid)
    ensures Others(aces, sid) == aces[..index] + aces[index + 1..]
  {
    var a, b := aces[..index], aces[index + 1..];
    assert aces == a + [aces[index]] + b;
    OthersConcat(a + [aces[index]], b, sid);
    OthersConcat(a, [aces[index]], sid);
    OthersOfFresh(a, sid);
    OthersOfFresh(b, sid);
  }

  /** SecurityContract.AddOwnedAce: a null list and a list that knows the account are refused. */
  method AddOwnedAce(acl: RawAcl?, owned: Ace) returns (ok: bool)
    requires owned.Known?
    modifies acl
    ensures ok == (acl != null && Added(old(acl.aces), owned).Some?)
    ensures acl != null ==> acl.aces == if ok then Added(old(acl.aces), owned).value else old(acl.aces)
  {
    if acl == null { return false; }
    var insertion: nat := |acl.aces|;
    for i := 0 to |acl.aces|
      invariant Fresh(acl.aces[..i], owned.sid) && acl.aces == old(acl.aces) && insertion <= |acl.aces|
      invariant if insertion == |acl.aces| then forall j | 0 <= j < i :: !acl.aces[j].inherited
                else insertion < i && acl.aces[insertion].inherited && forall j | 0 <= j < insertion :: !acl.aces[j].inherited
    {
      if Of(acl.aces[i], owned.sid) { return false; }
      if acl.aces[i].inherited && insertion == |acl.aces| { insertion := i; }
    }
    assert acl.aces[..|acl.aces|] == acl.aces;
    FirstInheritedAt(acl.aces, insertion);
    acl.InsertAce(insertion, owned);
    return true;
  }

  /** SecurityContract.RemoveOwnedAce: a null list and a changed or repeated entry are refused. */
  method RemoveOwnedAce(acl: RawAcl?, owned: Ace) returns (ok: bool)
    requires owned.Known?
    modifies acl
    ensures ok == (acl != null && Removed(old(acl.aces), owned).Some?)
    ensures acl != null ==> acl.aces == if ok then Removed(old(acl.aces), owned).value else old(acl.aces)
  {
    if acl == null { return false; }
    var index := -1;
    for i := 0 to |acl.aces|
      invariant -1 <= index < i && acl.aces == old(acl.aces)
      invariant index >= 0 ==> acl.aces[index] == owned
      invariant forall j | 0 <= j < i && j != index :: !Of(acl.aces[j], owned.sid)
    {
      if !Of(acl.aces[i], owned.sid) { continue; }
      if index != -1 || acl.aces[i] != owned { return false; }
      index := i;
    }
    if index >= 0 {
      OthersOfOne(acl.aces, index, owned.sid);
      acl.RemoveAce(index);
    } else {
      OthersOfFresh(acl.aces, owned.sid);
    }
    return true;
  }

  // ---------------------------------------------------------------- properties

  /** Removing undoes adding. */
  lemma RemoveUndoesAdd(aces: seq<Ace>, owned: Ace)
    requires owned.Known? && Added(aces, owned).Some?
    ensures Removed(Added(aces, owned).value, owned) == Some(aces)
  {
    var k := FirstInherited(aces);
    var after := Added(aces, owned).value;
    assert after[k] == owned;
    forall i | 0 <= i < |after| && i != k
      ensures !Of(after[i], owned.sid)
    {
      assert after[i] == aces[if i < k then i else i - 1];
    }
    OthersOfOne(after, k, owned.sid);
    assert after[..k] + after[k + 1..] == aces;
  }

  /** Of whatever list it is given, removal keeps every entry of another account, in order, and leaves none of the owned
      account. */
  lemma {:induction false} RemoveKeepsOthers(aces: seq<Ace>, sid: Sid)
    ensures Fresh(Others(aces, sid), sid)
    ensures forall a | !Of(a, sid) :: multiset(Others(aces, sid))[a] == multiset(aces)[a]
    ensures Others(Others(aces, sid), sid) == Others(aces, sid)
  {
    if aces != [] {
      var front, last := aces[..|aces| - 1], aces[|aces| - 1];
      assert aces == front + [last];
      RemoveKeepsOthers(front, sid);
      OthersOfFresh(Others(aces, sid), sid);
    }
  }

  /** No explicit entry stands behind an inherited one. */
  ghost predicate ExplicitFirst(aces: seq<Ace>) {
    forall i, j | 0 <= i < j < |aces| :: aces[i].inherited ==> aces[j].inherited
  }

  lemma {:induction false} BeforeFirstInherited(aces: seq<Ace>)
    ensures forall i | 0 <= i < FirstInherited(aces) :: !aces[i].inherited
    ensures FirstInherited(aces) < |aces| ==> aces[FirstInherited(aces)].inherited
  {
    if aces != [] && !aces[0].inherited { BeforeFirstInherited(aces[1..]); }
  }

  /** The owned entry goes right behind the explicit entries that come before the first inherited one, and nothing else
      moves; a list in which the account has an entry is refused. */
  lemma AddedBeforeInherited(aces: seq<Ace>, owned: Ace)
    requires owned.Known?
    ensures Added(aces, owned) == None <==> exists a :: a in aces && a.Known? && a.sid == owned.sid
    ensures Added(aces, owned).Some? ==>
              exists front, back ::
                && aces == front + back && Added(aces, owned).value == front + [owned] + back
                && (forall a | a in front :: !a.inherited) && (back != [] ==> back[0].inherited)
  {
    if Fresh(aces, owned.sid) {
      var k := FirstInherited(aces);
      var front, back := aces[..k], aces[k..];
      BeforeFirstInherited(aces);
      assert aces == front + back;
      forall a | a in front
        ensures !a.inherited
      {
        var i :| 0 <= i < k && aces[i] == a;
      }
    } else {
      var i :| 0 <= i < |aces| && Of(aces[i], owned.sid);
      assert aces[i] in aces;
    }
  }

  /** Adding keeps explicit entries before inherited ones. */
  lemma AddKeepsOrder(aces: seq<Ace>, owned: Ace)
    requires owned.Known? && !owned.inherited && ExplicitFirst(aces) && Added(aces, owned).Some?
    ensures ExplicitFirst(Added(aces, owned).value)
  {
    var k := FirstInherited(aces);
    var after := Added(aces, owned).value;
    BeforeFirstInherited(aces);
    assert forall i | 0 <= i < |after| :: after[i] == if i < k then aces[i] else if i == k then owned else aces[i - 1];
  }
}
