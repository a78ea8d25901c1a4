/**
 A parser for compact JSON texts. It undoes the printer, so canonical texts
 determine their values.
 */
module JsonParser {
  import opened CanonicalJson
  import opened Options

  datatype Parsed<+T> = Fail | Got(value: T, rest: string)

  // ---------------------------------------------------------------- parsing

  function HexValue(c: char): int {
    if '0' <= c <= '9' then c as int - '0' as int
    else if 'a' <= c <= 'f' then c as int - 'a' as int + 10
    else if 'A' <= c <= 'F' then c as int - 'A' as int + 10
    else -1
  }

  /** Four hexadecimal digits that name a character outside the surrogate range. */
  function ParseHex(t: string): (r: Parsed<char>)
    ensures r.Got? ==> |r.rest| < |t|
  {
    if |t| < 4 then Fail
    else
      var a, b, c, d := HexValue(t[0]), HexValue(t[1]), HexValue(t[2]), HexValue(t[3]);
      if a < 0 || b < 0 || c < 0 || d < 0 then Fail
      else
        var code := a * 4096 + b * 256 + c * 16 + d;
        if 0xD800 <= code < 0xE000 then Fail else Got(code as char, t[4..])
  }

  /** One character of a string: as it stands, or an escape. */
  function ParseChar(t: string): (r: Parsed<char>)
    ensures r.Got? ==> |r.rest| < |t|
  {
    if t == [] || t[0] as int < 32 then Fail
    else if t[0] != '\\' then Got(t[0], t[1..])
    else if |t| < 2 then Fail
    else
      match t[1]
      case '"' => Got('"', t[2..])
      case '\\' => Got('\\', t[2..])
      case '/' => Got('/', t[2..])
      case 'b' => Got(8 as char, t[2..])
      case 't' => Got(9 as char, t[2..])
      case 'n' => Got(10 as char, t[2..])
      case 'f' => Got(12 as char, t[2..])
      case 'r' => Got(13 as char, t[2..])
      case 'u' => ParseHex(t[2..])
      case _ => Fail
  }

  /** The characters up to the closing quotation mark. */
  function ParseChars(t: string): (r: Parsed<string>)
    ensures r.Got? ==> |r.rest| < |t|
    decreases |t|
  {
    if t == [] then Fail
    else if t[0] == '"' then Got([], t[1..])
    else
      match ParseChar(t)
      case Fail => Fail
      case Got(c, rest) =>
        match ParseChars(rest)
        case Fail => Fail
        case Got(s, after) => Got([c] + s, after)
  }

  function NumberLength(t: string): (n: nat)
    ensures n <= |t|
  {
    if t == [] || !NumberChar(t[0]) then 0 else 1 + NumberLength(t[1..])
  }

  predicate StartsWith(t: string, word: string) {
    |word| <= |t| && t[..|word|] == word
  }

  function ParseValue(t: string): (r: Parsed<Json>)
    ensures r.Got? ==> |r.rest| < |t|
    decreases |t|, 0
  {
    if t == [] then Fail
    else if StartsWith(t, "null") then Got(Null, t[4..])
    else if StartsWith(t, "true") then Got(Bool(true), t[4..])
    else if StartsWith(t, "false") then Got(Bool(false), t[5..])
    else if t[0] == '"' then
      match ParseChars(t[1..])
      case Fail => Fail
      case Got(s, rest) => Got(Str(s), rest)
    else if t[0] == '[' then
      if |t| > 1 && t[1] == ']' then Got(Arr(NoItems), t[2..])
      else
        match ParseItems(t[1..])
        case Fail => Fail
        case Got(items, rest) => Got(Arr(items), rest)
    else if t[0] == '{' then
      if |t| > 1 && t[1] == '}' then Got(Obj(NoMembers), t[2..])
      else
        match ParseMembers(t[1..])
        case Fail => Fail
        case Got(members, rest) => Got(Obj(members), rest)
    else
      var n := NumberLength(t);
      if n > 0 && NumberText(t[..n]) then Got(Num(t[..n]), t[n..]) else Fail
  }

  /** One or more items and the closing bracket. */
  function ParseItems(t: string): (r: Parsed<Items>)
    ensures r.Got? ==> |r.rest| < |t|
    decreases |t|, 1
  {
    match ParseValue(t)
    case Fail => Fail
    case Got(v, rest) =>
      if rest == [] then Fail
      else if rest[0] == ']' then Got(Item(v, NoItems), rest[1..])
      else if rest[0] == ',' then
        match ParseItems(rest[1..])
        case Fail => Fail
        case Got(others, after) => Got(Item(v, others), after)
      else Fail
  }

  /** A key, a colon and a value. */
  function ParseMember(t: string): (r: Parsed<(string, Json)>)
    ensures r.Got? ==> |r.rest| < |t|
    decreases |t|, 1
  {
    if t == [] || t[0] != '"' then Fail
    else
      match ParseChars(t[1..])
      case Fail => Fail
      case Got(k, rest) =>
        if rest == [] || rest[0] != ':' then Fail
        else
          match ParseValue(rest[1..])
          case Fail => Fail
          case Got(v, after) => Got((k, v), after)
  }

  /** One or more members and the closing brace. */
  function ParseMembers(t: string): (r: Parsed<Members>)
    ensures r.Got? ==> |r.rest| < |t|
    decreases |t|, 2
  {
    match ParseMember(t)
    case Fail => Fail
    case Got(m, rest) =>
      if rest == [] then Fail
      else if rest[0] == '}' then Got(Member(m.0, m.1, NoMembers), rest[1..])
      else if rest[0] == ',' then
        match ParseMembers(rest[1..])
        case Fail => Fail
        case Got(others, after) => Got(Member(m.0, m.1, others), after)
      else Fail
  }

  // ---------------------------------------------------------------- strings

  lemma HexRoundTrip(n: nat)
    requires n < 16
    ensures HexValue(HexDigit(n)) == n
  {
  }

  lemma CharRoundTrip(c: char, t: string, rest: string)
    requires t == EscapeChar(c) + rest
    ensures t != [] && t[0] != '"' && ParseChar(t) == Got(c, rest)
  {
    var e := EscapeChar(c);
    assert t[|e|..] == rest;
    assert forall i | 0 <= i < |e| :: t[i] == e[i];
    if c as int < 32 && |e| == 6 {
      HexRoundTrip(c as int / 16);
      HexRoundTrip(c as int % 16);
      ControlRoundTrip(c, t[2..], rest);
    }
  }

  lemma ControlRoundTrip(c: char, t: string, rest: string)
    requires c as int < 32
    requires t == ['0', '0', HexDigit(c as int / 16), HexDigit(c as int % 16)] + rest
    ensures ParseHex(t) == Got(c, rest)
  {
    HexRoundTrip(c as int / 16);
    HexRoundTrip(c as int % 16);
    assert t[4..] == rest;
  }

  lemma Regroup(a: string, b: string, c: string, d: string)
    ensures a + b + c + d == a + (b + c + d)
  {
  }

  lemma FirstAndRest(s: string)
    requires s != []
    ensures [s[0]] + s[1..] == s
  {
  }

  lemma {:induction false} CharsRoundTrip(s: string, t: string, rest: string)
    requires t == Escape(s) + ['"'] + rest
    ensures ParseChars(t) == Got(s, rest)
    decreases |s|
  {
    if s == [] {
      assert t == ['"'] + rest;
    } else {
      var tail := Escape(s[1..]) + ['"'] + rest;
      Regroup(EscapeChar(s[0]), Escape(s[1..]), ['"'], rest);
      CharRoundTrip(s[0], t, tail);
      CharsRoundTrip(s[1..], tail, rest);
      FirstAndRest(s);
    }
  }

  // ---------------------------------------------------------------- numbers

  /** What may follow a value in a text. */
  predicate Stops(rest: string) {
    rest == [] || !NumberChar(rest[0])
  }

  lemma {:induction false} NumberLengthOf(text: string, rest: string)
    requires (forall i | 0 <= i < |text| :: NumberChar(text[i])) && Stops(rest)
    ensures NumberLength(text + rest) == |text|
  {
    if text == [] {
      assert text + rest == rest;
    } else {
      assert (text + rest)[1..] == text[1..] + rest;
      NumberLengthOf(text[1..], rest);
    }
  }

  lemma StartsWithFirst(t: string, word: string)
    requires word != [] && StartsWith(t, word)
    ensures t[0] == word[0]
  {
    assert t[..|word|][0] == t[0];
  }

  lemma NotAWord(t: string, c: char)
    requires t != [] && t[0] == c && c !in {'n', 't', 'f'}
    ensures !StartsWith(t, "null") && !StartsWith(t, "true") && !StartsWith(t, "false")
  {
    if StartsWith(t, "null") { StartsWithFirst(t, "null"); }
    if StartsWith(t, "true") { StartsWithFirst(t, "true"); }
    if StartsWith(t, "false") { StartsWithFirst(t, "false"); }
  }

  lemma NumberRoundTrip(text: string, t: string, rest: string)
    requires NumberText(text) && Stops(rest) && t == text + rest
    ensures ParseValue(t) == Got(Num(text), rest)
  {
    NumberLengthOf(text, rest);
    assert t[0] == text[0];
    NotAWord(t, text[0]);
    assert t[..|text|] == text && t[|text|..] == rest;
  }

  // ---------------------------------------------------------------- values

  lemma WordRoundTrip(v: Json, t: string, rest: string)
    requires (v.Null? || v.Bool?) && t == Print(v) + rest
    ensures ParseValue(t) == Got(v, rest)
  {
    var word := Print(v);
    assert t[..|word|] == word && t[|word|..] == rest;
    if |t| >= 4 {
      assert t[0] == t[..4][0];
    }
  }

  lemma StringRoundTrip(s: string, t: string, rest: string)
    requires t == Quote(s) + rest
    ensures t != [] && t[0] == '"' && ParseChars(t[1..]) == Got(s, rest)
    ensures ParseValue(t) == Got(Str(s), rest)
  {
    assert t == ['"'] + (Escape(s) + ['"'] + rest);
    assert t[1..] == Escape(s) + ['"'] + rest;
    CharsRoundTrip(s, t[1..], rest);
    NotAWord(t, '"');
  }

  /** No value starts like the end of an array or object. */
  lemma FirstOfPrint(v: Json)
    requires WellFormed(v)
    ensures Print(v) != [] && Print(v)[0] != ']' && Print(v)[0] != '}'
  {
  }

  lemma Bracketed(open: char, body: string, close: char, t: string, rest: string)
    requires t == [open] + body + [close] + rest
    ensures t != [] && t[0] == open && t[1..] == body + ([close] + rest)
    ensures body != [] ==> t[1] == body[0]
    ensures body == [] ==> t[1] == close && t[2..] == rest
  {
  }

  /** Parsing what was printed gives the value back and leaves the rest. */
  lemma {:induction false} RoundTrip(v: Json, t: string, rest: string)
    requires WellFormed(v) && Stops(rest) && t == Print(v) + rest
    ensures ParseValue(t) == Got(v, rest)
    decreases v, 0
  {
    match v
    case Null => WordRoundTrip(v, t, rest);
    case Bool(_) => WordRoundTrip(v, t, rest);
    case Num(text) => NumberRoundTrip(text, t, rest);
    case Str(s) => StringRoundTrip(s, t, rest);
    case Arr(items) =>
      Bracketed('[', PrintItems(items), ']', t, rest);
      NotAWord(t, '[');
      if items != NoItems {
        FirstOfPrint(items.first);
        ItemsRoundTrip(items, t[1..], rest);
      }
    case Obj(members) =>
      Bracketed('{', PrintMembers(members), '}', t, rest);
      NotAWord(t, '{');
      if members != NoMembers {
        MembersRoundTrip(members, t[1..], rest);
      }
  }

  lemma {:induction false} ItemsRoundTrip(items: Items, t: string, rest: string)
    requires items.Item? && WellFormedItems(items) && t == PrintItems(items) + ([']'] + rest)
    ensures ParseItems(t) == Got(items, rest)
    decreases items
  {
    if items.others == NoItems {
      RoundTrip(items.first, t, [']'] + rest);
    } else {
      var tail := PrintItems(items.others) + ([']'] + rest);
      assert t == Print(items.first) + ([','] + tail);
      RoundTrip(items.first, t, [','] + tail);
      assert ([','] + tail)[1..] == tail;
      ItemsRoundTrip(items.others, tail, rest);
    }
  }

  lemma {:induction false} MemberRoundTrip(k: string, v: Json, t: string, rest: string)
    requires WellFormed(v) && Stops(rest) && t == Quote(k) + ([':'] + (Print(v) + rest))
    ensures ParseMember(t) == Got((k, v), rest)
    decreases v, 1
  {
    StringRoundTrip(k, t, [':'] + (Print(v) + rest));
    assert ([':'] + (Print(v) + rest))[1..] == Print(v) + rest;
    RoundTrip(v, Print(v) + rest, rest);
  }

  lemma LastMemberText(key: string, value: string, t: string, rest: string)
    requires t == key + [':'] + value + rest
    ensures t == key + ([':'] + (value + rest))
  {
  }

  lemma MemberText(key: string, value: string, others: string, t: string, rest: string)
    requires t == key + [':'] + value + [','] + others + rest
    ensures t == key + ([':'] + (value + ([','] + (others + rest))))
  {
    assert [','] + others + rest == [','] + (others + rest);
    LastMemberText(key, value, t, [','] + others + rest);
  }

  lemma {:induction false} MembersRoundTrip(members: Members, t: string, rest: string)
    requires members.Member? && WellFormedMembers(members) && t == PrintMembers(members) + (['}'] + rest)
    ensures ParseMembers(t) == Got(members, rest)
    decreases members
  {
    var k, v := members.key, members.value;
    if members.others == NoMembers {
      LastMemberText(Quote(k), Print(v), t, ['}'] + rest);
      MemberRoundTrip(k, v, t, ['}'] + rest);
    } else {
      var tail := PrintMembers(members.others) + (['}'] + rest);
      MemberText(Quote(k), Print(v), PrintMembers(members.others), t, ['}'] + rest);
      MemberRoundTrip(k, v, t, [','] + tail);
      assert ([','] + tail)[1..] == tail;
      MembersRoundTrip(members.others, tail, rest);
    }
  }

  // ---------------------------------------------------------------- main results

  lemma {:induction false} NormalIsWellFormed(v: Json)
    requires WellFormed(v)
    ensures WellFormed(Normalize(v))
    decreases v
  {
    match v
    case Arr(items) => NormalItemsWellFormed(items);
    case Obj(members) => NormalMembersWellFormed(members);
    case _ =>
  }

  lemma {:induction false} NormalItemsWellFormed(items: Items)
    requires WellFormedItems(items)
    ensures WellFormedItems(NormalizeItems(items))
    decreases items
  {
    match items
    case NoItems =>
    case Item(v, others) =>
      NormalIsWellFormed(v);
      NormalItemsWellFormed(others);
  }

  lemma {:induction false} NormalMembersWellFormed(members: Members)
    requires WellFormedMembers(members)
    ensures WellFormedMembers(NormalizeMembers(members))
    decreases members
  {
    match members
    case NoMembers =>
    case Member(k, v, others) =>
      NormalIsWellFormed(v);
      NormalMembersWellFormed(others);
      LookupNormalized(others, k);
      InsertedWellFormed(k, Normalize(v), NormalizeMembers(others));
  }

  lemma {:induction false} InsertedWellFormed(key: string, value: Json, members: Members)
    requires WellFormed(value) && WellFormedMembers(members) && Lookup(members, key) == None
    ensures WellFormedMembers(InsertMember(key, value, members))
    decreases members
  {
    match members
    case NoMembers =>
    case Member(k, v, others) =>
      InsertedWellFormed(key, value, others);
      LookupInserted(key, value, others, k);
  }

  /** The parser undoes the canonical printer, up to member order. */
  lemma ParseUndoesCanonical(v: Json)
    requires WellFormed(v)
    ensures ParseValue(Canonical(v)) == Got(Normalize(v), [])
  {
    CanonicalIsPrint(v);
    NormalIsWellFormed(v);
    assert Print(Normalize(v)) == Print(Normalize(v)) + [];
    RoundTrip(Normalize(v), Canonical(v), []);
  }

  /** Two values have the same canonical text exactly when they are equal up to the order of members at every depth. */
  lemma CanonicalDecides(v: Json, w: Json)
    requires WellFormed(v) && WellFormed(w)
    ensures Canonical(v) == Canonical(w) <==> Same(v, w)
  {
    ParseUndoesCanonical(v);
    ParseUndoesCanonical(w);
    CanonicalIsPrint(v);
    CanonicalIsPrint(w);
    NormalFormDecides(v, w);
  }

  /** Every object in a canonical text, at every depth, lists its keys in ascending order of their character codes. */
  lemma CanonicalKeysAscend(v: Json)
    requires WellFormed(v)
    ensures ParseValue(Canonical(v)).Got? && KeysAscend(ParseValue(Canonical(v)).value)
  {
    ParseUndoesCanonical(v);
    NormalFormAscends(v);
  }

  /** What one object looks like in canonical text: for any two of its members, key p before key q, the keys first differ
      where p has the smaller character or ends. */
  lemma CanonicalObjectAscends(members: Members, i: nat, j: nat) returns (keys: seq<string>, n: nat)
    requires WellFormed(Obj(members))
    requires var parsed := ParseValue(Canonical(Obj(members)));
             parsed.Got? && parsed.value.Obj? ==> i < j < |KeysOf(parsed.value.members)|
    ensures var parsed := ParseValue(Canonical(Obj(members)));
            parsed.Got? && parsed.value.Obj? && keys == KeysOf(parsed.value.members)
    ensures i < j < |keys|
    ensures var p, q := keys[i], keys[j];
            && n <= |p| && n <= |q| && p[..n] == q[..n]
            && ((n == |p| && |p| < |q|) || (n < |p| && n < |q| && p[n] < q[n]))
  {
    CanonicalKeysAscend(Obj(members));
    ParseUndoesCanonical(Obj(members));
    keys := KeysOf(ParseValue(Canonical(Obj(members))).value.members);
    assert CodeOrder(keys[i], keys[j]);
    n :| SmallerAt(keys[i], keys[j], n);
  }

  // ---------------------------------------------------------------- the texts of characters

  /** Lower-case hexadecimal digits. */
  predicate LowerHex(c: char) {
    '0' <= c <= '9' || 'a' <= c <= 'f'
  }

  /** No text that the parser reads as a character is shorter than the one printed for it, and a character that is printed
      with its code has lower-case digits. */
  lemma EscapeIsShortest(c: char, t: string)
    ensures ParseChar(t).Got? && ParseChar(t).value == c && c != '"' ==>
              |t| - |ParseChar(t).rest| >= |EscapeChar(c)|
    ensures EscapeChar('"') == ['\\', '"']
    ensures |EscapeChar(c)| == 6 ==> EscapeChar(c)[..4] == ['\\', 'u', '0', '0']
                                     && LowerHex(EscapeChar(c)[4]) && LowerHex(EscapeChar(c)[5])
  {
  }
}
