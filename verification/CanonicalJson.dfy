/**
 The canonical JSON text that generative digests are taken over: members sorted
 by key, no white space, strings escaped as in section 7 of RFC 8259. A parser
 undoes the printer, so two values have the same text exactly when they are
 equal up to the order of members at every depth.
 */
module CanonicalJson {
  import opened Options

  /** A number keeps its text; a jsonb object lists its members in some order, each key once. */
  datatype Json = Null | Bool(value: bool) | Num(text: string) | Str(chars: string) | Arr(items: Items) | Obj(members: Members)
  datatype Items = NoItems | Item(first: Json, others: Items)
  datatype Members = NoMembers | Member(key: string, value: Json, others: Members)

  // ---------------------------------------------------------------- printing

  function HexDigit(n: nat): char
    requires n < 16
  {
    if n < 10 then '0' + n as char else 'a' + (n - 10) as char
  }

  /** Quotation mark, reverse solidus and control characters are escaped, the rest stands for itself. */
  function EscapeChar(c: char): string {
    if c == '"' then ['\\', '"']
    else if c == '\\' then ['\\', '\\']
    else if c as int == 8 then ['\\', 'b']
    else if c as int == 9 then ['\\', 't']
    else if c as int == 10 then ['\\', 'n']
    else if c as int == 12 then ['\\', 'f']
    else if c as int == 13 then ['\\', 'r']
    else if c as int < 32 then ['\\', 'u', '0', '0', HexDigit(c as int / 16), HexDigit(c as int % 16)]
    else [c]
  }

  function Escape(s: string): string {
    if s == [] then [] else EscapeChar(s[0]) + Escape(s[1..])
  }

  function Quote(s: string): string {
    ['"'] + Escape(s) + ['"']
  }

  /** Order of keys under the C collation. */
  predicate Before(a: string, b: string) {
    b != [] && (a == [] || a[0] < b[0] || (a[0] == b[0] && Before(a[1..], b[1..])))
  }

  /** The rendered members of an object, to be joined in key order. */
  datatype Rendered = Done | More(key: string, text: string, others: Rendered)

  function InsertRendered(key: string, text: string, sorted: Rendered): Rendered {
    match sorted
    case Done => More(key, text, Done)
    case More(k, t, others) =>
      if Before(key, k) then More(key, text, sorted) else More(k, t, InsertRendered(key, text, others))
  }

  function Join(r: Rendered): string {
    match r
    case Done => []
    case More(k, t, Done) => Quote(k) + [':'] + t
    case More(k, t, others) => Quote(k) + [':'] + t + [','] + Join(others)
  }

  /** rag_generative_canonical. */
  function Canonical(v: Json): string {
    match v
    case Null => "null"
    case Bool(b) => if b then "true" else "false"
    case Num(text) => text
    case Str(s) => Quote(s)
    case Arr(items) => ['['] + CanonicalItems(items) + [']']
    case Obj(members) => ['{'] + Join(RenderMembers(members)) + ['}']
  }

  function CanonicalItems(items: Items): string {
    match items
    case NoItems => []
    case Item(v, NoItems) => Canonical(v)
    case Item(v, others) => Canonical(v) + [','] + CanonicalItems(others)
  }

  function RenderMembers(members: Members): Rendered {
    match members
    case NoMembers => Done
    case Member(k, v, others) => InsertRendered(k, Canonical(v), RenderMembers(others))
  }

  // ---------------------------------------------------------------- equality up to member order

  predicate NumberChar(c: char) {
    '0' <= c <= '9' || c == '-' || c == '+' || c == '.' || c == 'e' || c == 'E'
  }

  predicate NumberText(text: string) {
    && text != [] && ('0' <= text[0] <= '9' || text[0] == '-')
    && forall i | 0 <= i < |text| :: NumberChar(text[i])
  }

  function Lookup(members: Members, key: string): Option<Json> {
    match members
    case NoMembers => None
    case Member(k, v, others) => if k == key then Some(v) else Lookup(others, key)
  }

  /** Number texts are number texts and no object repeats a key. */
  predicate WellFormed(v: Json) {
    match v
    case Num(text) => NumberText(text)
    case Arr(items) => WellFormedItems(items)
    case Obj(members) => WellFormedMembers(members)
    case _ => true
  }

  predicate WellFormedItems(items: Items) {
    match items
    case NoItems => true
    case Item(v, others) => WellFormed(v) && WellFormedItems(others)
  }

  predicate WellFormedMembers(members: Members) {
    match members
    case NoMembers => true
    case Member(k, v, others) => WellFormed(v) && Lookup(others, k) == None && WellFormedMembers(others)
  }

  /** Equal up to the order of members, at every depth. */
  ghost predicate Same(v: Json, w: Json) {
    match v
    case Arr(items) => w.Arr? && SameItems(items, w.items)
    case Obj(members) =>
      w.Obj? && Included(members, w.members) && NoOtherKeys(members, w.members)
    case _ => v == w
  }

  ghost predicate NoOtherKeys(a: Members, b: Members) {
    forall k :: Lookup(a, k) == None ==> Lookup(b, k) == None
  }

  ghost predicate SameItems(a: Items, b: Items) {
    match a
    case NoItems => b == NoItems
    case Item(v, others) => b.Item? && Same(v, b.first) && SameItems(others, b.others)
  }

  /** Every member of a has one with the same key and the same value in b. */
  ghost predicate Included(a: Members, b: Members) {
    match a
    case NoMembers => true
    case Member(k, v, others) => Lookup(b, k).Some? && Same(v, Lookup(b, k).value) && Included(others, b)
  }

  // ---------------------------------------------------------------- normal forms

  function InsertMember(key: string, value: Json, sorted: Members): Members {
    match sorted
    case NoMembers => Member(key, value, NoMembers)
    case Member(k, v, others) =>
      if Before(key, k) then Member(key, value, sorted) else Member(k, v, InsertMember(key, value, others))
  }

  function Normalize(v: Json): Json {
    match v
    case Arr(items) => Arr(NormalizeItems(items))
    case Obj(members) => Obj(NormalizeMembers(members))
    case _ => v
  }

  function NormalizeItems(items: Items): Items {
    match items
    case NoItems => NoItems
    case Item(v, others) => Item(Normalize(v), NormalizeItems(others))
  }

  function NormalizeMembers(members: Members): Members {
    match members
    case NoMembers => NoMembers
    case Member(k, v, others) => InsertMember(k, Normalize(v), NormalizeMembers(others))
  }

  /** Prints members in the order they have. */
  function Print(v: Json): string {
    match v
    case Null => "null"
    case Bool(b) => if b then "true" else "false"
    case Num(text) => text
    case Str(s) => Quote(s)
    case Arr(items) => ['['] + PrintItems(items) + [']']
    case Obj(members) => ['{'] + PrintMembers(members) + ['}']
  }

  function PrintItems(items: Items): string {
    match items
    case NoItems => []
    case Item(v, NoItems) => Print(v)
    case Item(v, others) => Print(v) + [','] + PrintItems(others)
  }

  function PrintMembers(members: Members): string {
    match members
    case NoMembers => []
    case Member(k, v, NoMembers) => Quote(k) + [':'] + Print(v)
    case Member(k, v, others) => Quote(k) + [':'] + Print(v) + [','] + PrintMembers(others)
  }

  // ---------------------------------------------------------------- canonical text is the printed normal form

  function Render(members: Members): Rendered {
    match members
    case NoMembers => Done
    case Member(k, v, others) => More(k, Print(v), Render(others))
  }

  lemma {:induction false} JoinRendered(members: Members)
    ensures Join(Render(members)) == PrintMembers(members)
  {
    match members
    case NoMembers =>
    case Member(k, v, others) => JoinRendered(others);
  }

  lemma {:induction false} InsertCommutes(key: string, value: Json, sorted: Members)
    ensures InsertRendered(key, Print(value), Render(sorted)) == Render(InsertMember(key, value, sorted))
  {
    match sorted
    case NoMembers =>
    case Member(k, v, others) => InsertCommutes(key, value, others);
  }

  lemma {:induction false} CanonicalIsPrint(v: Json)
    ensures Canonical(v) == Print(Normalize(v))
  {
    match v
    case Arr(items) => CanonicalItemsIsPrint(items);
    case Obj(members) =>
      RenderIsNormal(members);
      JoinRendered(NormalizeMembers(members));
    case _ =>
  }

  lemma {:induction false} CanonicalItemsIsPrint(items: Items)
    ensures CanonicalItems(items) == PrintItems(NormalizeItems(items))
  {
    match items
    case NoItems =>
    case Item(v, others) =>
      CanonicalIsPrint(v);
      CanonicalItemsIsPrint(others);
  }

  lemma {:induction false} RenderIsNormal(members: Members)
    ensures RenderMembers(members) == Render(NormalizeMembers(members))
  {
    match members
    case NoMembers =>
    case Member(k, v, others) =>
      CanonicalIsPrint(v);
      RenderIsNormal(others);
      InsertCommutes(k, Normalize(v), NormalizeMembers(others));
  }

  // ---------------------------------------------------------------- sorting

  lemma {:induction false} BeforeIsTotal(a: string, b: string)
    ensures !(Before(a, b) && Before(b, a)) && !Before(a, a)
    ensures a == b || Before(a, b) || Before(b, a)
  {
    if a != [] && b != [] {
      BeforeIsTotal(a[1..], b[1..]);
      assert a == [a[0]] + a[1..] && b == [b[0]] + b[1..];
    } else if a != [] {
      BeforeIsTotal(a[1..], []);
    }
  }

  lemma {:induction false} BeforeIsTransitive(a: string, b: string, c: string)
    requires Before(a, b) && Before(b, c)
    ensures Before(a, c)
  {
    if a != [] && a[0] == b[0] == c[0] {
      BeforeIsTransitive(a[1..], b[1..], c[1..]);
    }
  }

  predicate SortedFrom(low: string, members: Members)
    decreases members
  {
    match members
    case NoMembers => true
    case Member(k, v, others) => Before(low, k) && SortedFrom(k, others)
  }

  predicate Sorted(members: Members) {
    match members
    case NoMembers => true
    case Member(k, v, others) => SortedFrom(k, others)
  }

  lemma {:induction false} AbsentBelow(low: string, members: Members, q: string)
    requires SortedFrom(low, members) && (q == low || Before(q, low))
    ensures Lookup(members, q) == None
    decreases members
  {
    match members
    case NoMembers =>
    case Member(k, v, others) =>
      if q != low { BeforeIsTransitive(q, low, k); }
      BeforeIsTotal(q, k);
      AbsentBelow(k, others, q);
  }

  lemma {:induction false} InsertKeepsSorted(low: string, key: string, value: Json, members: Members)
    requires SortedFrom(low, members) && Before(low, key) && Lookup(members, key) == None
    ensures SortedFrom(low, InsertMember(key, value, members))
    decreases members
  {
    match members
    case NoMembers =>
    case Member(k, v, others) =>
      BeforeIsTotal(key, k);
      if Before(k, key) { InsertKeepsSorted(k, key, value, others); }
  }

  lemma InsertKeepsOrder(key: string, value: Json, members: Members)
    requires Sorted(members) && Lookup(members, key) == None
    ensures Sorted(InsertMember(key, value, members))
  {
    match members
    case NoMembers =>
    case Member(k, v, others) =>
      BeforeIsTotal(key, k);
      if Before(k, key) { InsertKeepsSorted(k, key, value, others); }
  }

  lemma {:induction false} LookupInserted(key: string, value: Json, members: Members, q: string)
    requires Lookup(members, key) == None
    ensures Lookup(InsertMember(key, value, members), q) == if q == key then Some(value) else Lookup(members, q)
  {
    match members
    case NoMembers =>
    case Member(k, v, others) => LookupInserted(key, value, others, q);
  }

  /** A normal form has the same keys, each with its normalized value. */
  lemma {:induction false} LookupNormalized(members: Members, q: string)
    requires WellFormedMembers(members)
    ensures Lookup(NormalizeMembers(members), q)
            == match Lookup(members, q) case None => None case Some(v) => Some(Normalize(v))
  {
    match members
    case NoMembers =>
    case Member(k, v, others) =>
      LookupNormalized(others, q);
      LookupNormalized(others, k);
      LookupInserted(k, Normalize(v), NormalizeMembers(others), q);
  }

  lemma {:induction false} NormalizedIsSorted(members: Members)
    requires WellFormedMembers(members)
    ensures Sorted(NormalizeMembers(members))
  {
    match members
    case NoMembers =>
    case Member(k, v, others) =>
      NormalizedIsSorted(others);
      LookupNormalized(others, k);
      InsertKeepsOrder(k, Normalize(v), NormalizeMembers(others));
  }

  ghost predicate Agree(a: Members, b: Members) {
    forall q :: Lookup(a, q) == Lookup(b, q)
  }

  /** Sorted members are determined by their keys and values. */
  lemma {:induction false} SortedIsUnique(a: Members, b: Members)
    requires Sorted(a) && Sorted(b) && Agree(a, b)
    ensures a == b
  {
    match a
    case NoMembers =>
      var q := if b.Member? then b.key else [];
      assert Lookup(a, q) == Lookup(b, q);
    case Member(k, v, others) =>
      assert Lookup(a, k) == Lookup(b, k);
      assert Lookup(a, b.key) == Lookup(b, b.key);
      FirstKeyIsLeast(a, b.key);
      FirstKeyIsLeast(b, k);
      BeforeIsTotal(k, b.key);
      assert k == b.key;
      forall q
        ensures Lookup(others, q) == Lookup(b.others, q)
      {
        assert Lookup(a, q) == Lookup(b, q);
        if q == k {
          AbsentBelow(k, others, q);
          AbsentBelow(k, b.others, q);
        }
      }
      SortedTail(a);
      SortedTail(b);
      SortedIsUnique(others, b.others);
  }

  lemma SortedTail(members: Members)
    requires Sorted(members) && members.Member?
    ensures Sorted(members.others)
  {
  }

  lemma FirstKeyIsLeast(members: Members, q: string)
    requires Sorted(members) && members.Member?
    ensures Lookup(members, q).Some? ==> q == members.key || Before(members.key, q)
  {
    BeforeIsTotal(members.key, q);
    if Before(q, members.key) { AbsentBelow(members.key, members.others, q); }
  }

  // ---------------------------------------------------------------- equal normal forms are equal values

  lemma {:induction false} LookupWellFormed(members: Members, k: string)
    requires WellFormedMembers(members) && Lookup(members, k).Some?
    ensures WellFormed(Lookup(members, k).value)
  {
    if members.key != k { LookupWellFormed(members.others, k); }
  }

  lemma {:induction false} NormalFormDecides(v: Json, w: Json)
    requires WellFormed(v) && WellFormed(w)
    ensures Normalize(v) == Normalize(w) <==> Same(v, w)
    decreases v
  {
    match v
    case Arr(items) =>
      if w.Arr? { NormalItemsDecide(items, w.items); }
    case Obj(members) =>
      if w.Obj? { NormalMembersDecide(members, w.members); }
    case _ =>
  }

  lemma {:induction false} NormalItemsDecide(a: Items, b: Items)
    requires WellFormedItems(a) && WellFormedItems(b)
    ensures NormalizeItems(a) == NormalizeItems(b) <==> SameItems(a, b)
    decreases a
  {
    match a
    case NoItems =>
    case Item(v, others) =>
      if b.Item? {
        NormalFormDecides(v, b.first);
        NormalItemsDecide(others, b.others);
      }
  }

  ghost predicate SameNormal(a: Members, b: Members, q: string) {
    Lookup(a, q).Some? ==> Lookup(b, q).Some? && Normalize(Lookup(a, q).value) == Normalize(Lookup(b, q).value)
  }

  /** Members are included in others exactly when these give their keys the same normal forms. */
  lemma {:induction false} InclusionByNormalForm(a: Members, b: Members)
    requires WellFormedMembers(a) && WellFormedMembers(b)
    ensures Included(a, b) <==> forall q :: SameNormal(a, b, q)
    decreases a, 0
  {
    match a
    case NoMembers =>
    case Member(k, v, others) =>
      InclusionByNormalForm(others, b);
      if Lookup(b, k).Some? {
        LookupWellFormed(b, k);
        NormalFormDecides(v, Lookup(b, k).value);
      }
      forall q
        ensures SameNormal(a, b, q) <==> if q == k then SameNormal(a, b, k) else SameNormal(others, b, q)
        ensures SameNormal(others, b, k)
      {
      }
      assert SameNormal(a, b, k) <==> Lookup(b, k).Some? && Same(v, Lookup(b, k).value);
  }

  lemma NormalLookups(a: Members, b: Members, q: string)
    requires WellFormedMembers(a) && WellFormedMembers(b)
    ensures Lookup(NormalizeMembers(a), q) == Lookup(NormalizeMembers(b), q) <==>
              SameNormal(a, b, q) && (Lookup(a, q) == None ==> Lookup(b, q) == None)
  {
    LookupNormalized(a, q);
    LookupNormalized(b, q);
  }

  lemma {:induction false} NormalMembersDecide(a: Members, b: Members)
    requires WellFormedMembers(a) && WellFormedMembers(b)
    ensures NormalizeMembers(a) == NormalizeMembers(b) <==> Included(a, b) && NoOtherKeys(a, b)
    decreases a, 1
  {
    InclusionByNormalForm(a, b);
    NormalizedIsSorted(a);
    NormalizedIsSorted(b);
    if NormalizeMembers(a) == NormalizeMembers(b) {
      forall q
        ensures SameNormal(a, b, q) && (Lookup(a, q) == None ==> Lookup(b, q) == None)
      {
        NormalLookups(a, b, q);
      }
    }
    if Included(a, b) && NoOtherKeys(a, b) {
      forall q
        ensures Lookup(NormalizeMembers(a), q) == Lookup(NormalizeMembers(b), q)
      {
        assert SameNormal(a, b, q);
        NormalLookups(a, b, q);
      }
      SortedIsUnique(NormalizeMembers(a), NormalizeMembers(b));
    }
  }

  // ---------------------------------------------------------------- the order of keys

  /** The first place where the strings differ has the smaller character in p, or p ends there. */
  ghost predicate SmallerAt(p: string, q: string, n: nat) {
    && n <= |p| && n < |q| && p[..n] == q[..n]
    && (n == |p| || p[n] < q[n])
  }

  /** Lexicographic order by character code. */
  ghost predicate CodeOrder(p: string, q: string) {
    exists n: nat :: SmallerAt(p, q, n)
  }

  lemma {:induction false} BeforeIsCodeOrder(p: string, q: string) returns (n: nat)
    requires Before(p, q)
    ensures SmallerAt(p, q, n)
  {
    if p == [] || p[0] < q[0] {
      n := 0;
    } else {
      var m := BeforeIsCodeOrder(p[1..], q[1..]);
      n := m + 1;
      assert p[..n] == [p[0]] + p[1..][..m] && q[..n] == [q[0]] + q[1..][..m];
    }
  }

  /** The keys of an object in the order in which it lists them. */
  function KeysOf(members: Members): seq<string> {
    match members
    case NoMembers => []
    case Member(k, _, others) => [k] + KeysOf(others)
  }

  ghost predicate Ascending(keys: seq<string>) {
    forall i, j | 0 <= i < j < |keys| :: CodeOrder(keys[i], keys[j])
  }

  /** Every object in a value, at every depth, lists its keys in ascending order. */
  ghost predicate KeysAscend(v: Json) {
    match v
    case Arr(items) => ItemsAscend(items)
    case Obj(members) => Ascending(KeysOf(members)) && ValuesAscend(members)
    case _ => true
  }

  ghost predicate ItemsAscend(items: Items) {
    match items
    case NoItems => true
    case Item(v, others) => KeysAscend(v) && ItemsAscend(others)
  }

  ghost predicate ValuesAscend(members: Members) {
    match members
    case NoMembers => true
    case Member(_, v, others) => KeysAscend(v) && ValuesAscend(others)
  }

  lemma {:induction false} SortedFromAscends(low: string, members: Members)
    requires SortedFrom(low, members)
    ensures forall i | 0 <= i < |KeysOf(members)| :: Before(low, KeysOf(members)[i])
    ensures Ascending(KeysOf(members))
    decreases members
  {
    match members
    case NoMembers =>
    case Member(k, v, others) =>
      SortedFromAscends(k, others);
      var keys, rest := KeysOf(members), KeysOf(others);
      forall i | 0 <= i < |keys|
        ensures Before(low, keys[i])
      {
        if i > 0 { BeforeIsTransitive(low, k, rest[i - 1]); }
      }
      forall i, j | 0 <= i < j < |keys|
        ensures CodeOrder(keys[i], keys[j])
      {
        if i == 0 {
          var n := BeforeIsCodeOrder(k, rest[j - 1]);
        } else {
          assert CodeOrder(rest[i - 1], rest[j - 1]);
        }
      }
  }

  lemma SortedAscends(members: Members)
    requires Sorted(members)
    ensures Ascending(KeysOf(members))
  {
    match members
    case NoMembers =>
    case Member(k, v, others) =>
      SortedFromAscends(k, others);
      var keys, rest := KeysOf(members), KeysOf(others);
      forall i, j | 0 <= i < j < |keys|
        ensures CodeOrder(keys[i], keys[j])
      {
        if i == 0 {
          var n := BeforeIsCodeOrder(k, rest[j - 1]);
        } else {
          assert CodeOrder(rest[i - 1], rest[j - 1]);
        }
      }
  }

  lemma {:induction false} NormalFormAscends(v: Json)
    requires WellFormed(v)
    ensures KeysAscend(Normalize(v))
  {
    match v
    case Arr(items) => NormalItemsAscend(items);
    case Obj(members) =>
      NormalizedIsSorted(members);
      SortedAscends(NormalizeMembers(members));
      NormalValuesAscend(members);
    case _ =>
  }

  lemma {:induction false} NormalItemsAscend(items: Items)
    requires WellFormedItems(items)
    ensures ItemsAscend(NormalizeItems(items))
  {
    match items
    case NoItems =>
    case Item(v, others) =>
      NormalFormAscends(v);
      NormalItemsAscend(others);
  }

  lemma {:induction false} NormalValuesAscend(members: Members)
    requires WellFormedMembers(members)
    ensures ValuesAscend(NormalizeMembers(members))
  {
    match members
    case NoMembers =>
    case Member(k, v, others) =>
      NormalFormAscends(v);
      NormalValuesAscend(others);
      InsertedAscends(k, Normalize(v), NormalizeMembers(others));
  }

  lemma {:induction false} InsertedAscends(key: string, value: Json, members: Members)
    requires KeysAscend(value) && ValuesAscend(members)
    ensures ValuesAscend(InsertMember(key, value, members))
  {
    match members
    case NoMembers =>
    case Member(k, v, others) => InsertedAscends(key, value, others);
  }
}
