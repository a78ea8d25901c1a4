/** Issue keys: the number, zero-padded to at least five digits, after a fixed prefix. */
module IssueKeys {
  function Digit(n: nat): char
    requires n < 10
  {
    '0' + n as char
  }

  /** Decimal digits without leading zeros, empty for 0. */
  function Digits(n: nat): string {
    if n == 0 then [] else Digits(n / 10) + [Digit(n % 10)]
  }

  function Pad(s: string): string
    decreases 5 - |s|
  {
    if |s| >= 5 then s else Pad(['0'] + s)
  }

  const PREFIX := "ISSUE-"

  function Key(n: nat): string {
    PREFIX + Pad(Digits(n))
  }

  function Value(s: string): int {
    if s == [] then 0 else Value(s[..|s| - 1]) * 10 + (s[|s| - 1] as int - '0' as int)
  }

  lemma {:induction false} ValueOfDigits(n: nat)
    ensures Value(Digits(n)) == n
  {
    if n > 0 {
      ValueOfDigits(n / 10);
      assert Digits(n)[..|Digits(n)| - 1] == Digits(n / 10);
    }
  }

  lemma {:induction false} LeadingZero(s: string)
    ensures Value(['0'] + s) == Value(s)
  {
    if s == [] {
      assert (['0'] + s)[..0] == [];
    } else {
      assert (['0'] + s)[..|s|] == ['0'] + s[..|s| - 1];
      LeadingZero(s[..|s| - 1]);
    }
  }

  lemma {:induction false} ValueOfPadded(s: string)
    ensures Value(Pad(s)) == Value(s)
    decreases 5 - |s|
  {
    if |s| < 5 {
      LeadingZero(s);
      ValueOfPadded(['0'] + s);
    }
  }

  predicate AllDigits(s: string) {
    forall i | 0 <= i < |s| :: '0' <= s[i] <= '9'
  }

  lemma {:induction false} PaddedDigits(s: string)
    requires AllDigits(s)
    ensures AllDigits(Pad(s)) && |Pad(s)| >= 5
    decreases 5 - |s|
  {
    if |s| < 5 { PaddedDigits(['0'] + s); }
  }

  lemma {:induction false} DigitsAreDigits(n: nat)
    ensures AllDigits(Digits(n))
  {
    if n > 0 { DigitsAreDigits(n / 10); }
  }

  /** The CHECK on neutral keys: the prefix and at least five digits. */
  predicate Neutral(key: string) {
    |key| >= |PREFIX| + 5 && key[..|PREFIX|] == PREFIX && AllDigits(key[|PREFIX|..])
  }

  /** Different numbers have different keys, and every key is neutral. */
  lemma KeysDiffer(a: nat, b: nat)
    ensures Key(a) == Key(b) ==> a == b
    ensures Neutral(Key(a))
  {
    assert Key(a)[|PREFIX|..] == Pad(Digits(a)) && Key(b)[|PREFIX|..] == Pad(Digits(b));
    ValueOfDigits(a);
    ValueOfDigits(b);
    ValueOfPadded(Digits(a));
    ValueOfPadded(Digits(b));
    DigitsAreDigits(a);
    PaddedDigits(Digits(a));
  }

  lemma {:induction false} NoLeadingZero(n: nat)
    ensures n > 0 ==> Digits(n) != [] && Digits(n)[0] != '0'
  {
    if n >= 10 { NoLeadingZero(n / 10); }
  }

  lemma {:induction false} PaddedToFive(s: string)
    ensures |s| >= 5 ==> Pad(s) == s
    ensures |s| < 5 ==> |Pad(s)| == 5
    decreases 5 - |s|
  {
    if |s| < 5 { PaddedToFive(['0'] + s); }
  }

  /** A key is the prefix and the decimal number, in five digits or, when they do not suffice, without leading zero. */
  lemma KeyIsPadded(n: nat)
    ensures var key := Key(n);
            exists digits ::
              && key == "ISSUE-" + digits && AllDigits(digits) && Value(digits) == n && |digits| >= 5
              && (|digits| > 5 ==> digits[0] != '0')
  {
    var digits := Pad(Digits(n));
    assert Key(n) == "ISSUE-" + digits;
    ValueOfDigits(n);
    ValueOfPadded(Digits(n));
    DigitsAreDigits(n);
    PaddedDigits(Digits(n));
    PaddedToFive(Digits(n));
    NoLeadingZero(n);
  }
}
