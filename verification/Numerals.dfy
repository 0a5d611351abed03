/** Positional numerals without leading zeros, in base 10 and base 36, and reading them back. */
module Numerals {
  import opened Basics

  /** The two bases of mangled names: decimal lengths and base-36 sequence ids. */
  predicate IsBase(b: nat) {
    b == 10 || b == 36
  }

  function Digit(d: nat): char
    requires d < 36
  {
    if d < 10 then '0' + d as char else 'A' + (d - 10) as char
  }

  /** The value of a digit character, or 36 for any other character. */
  function DigitValue(c: char): (d: nat)
    ensures d <= 36
  {
    if '0' <= c <= '9' then (c - '0') as nat
    else if 'A' <= c <= 'Z' then 10 + (c - 'A') as nat
    else 36
  }

  predicate IsDigit(c: char, b: nat) {
    DigitValue(c) < b
  }

  lemma DigitValueOfDigit(d: nat)
    requires d < 36
    ensures DigitValue(Digit(d)) == d
  {
  }

  lemma DigitOfDigitValue(c: char)
    requires DigitValue(c) < 36
    ensures Digit(DigitValue(c)) == c
  {
  }

  /** The numeral of n. */
  function Digits(n: nat, b: nat): (s: string)
    requires IsBase(b)
    ensures s != ""
    decreases n
  {
    if n < b then [Digit(n)] else Digits(n / b, b) + [Digit(n % b)]
  }

  predicate AllDigits(s: string, b: nat) {
    forall i :: 0 <= i < |s| ==> IsDigit(s[i], b)
  }

  /** The value of a digit string, leading zeros allowed. */
  function Value(s: string, b: nat): nat {
    if s == "" then 0 else Value(s[..|s| - 1], b) * b + DigitValue(s[|s| - 1])
  }

  lemma ValueSnoc(s: string, c: char, b: nat)
    ensures Value(s + [c], b) == Value(s, b) * b + DigitValue(c)
  {
    assert (s + [c])[..|s|] == s;
  }

  lemma SnocValue(s: string, q: nat, d: nat, b: nat)
    requires d < 36 && Value(s, b) == q
    ensures Value(s + [Digit(d)], b) == q * b + d
  {
    DigitValueOfDigit(d);
    ValueSnoc(s, Digit(d), b);
  }

  lemma EmptyValue(b: nat)
    ensures Value("", b) == 0
  {
  }

  lemma DivMod(n: nat, b: nat)
    requires IsBase(b)
    ensures n == (n / b) * b + n % b
  {
    if b == 10 {
    } else {
    }
  }

  lemma DivModUnique(q: nat, d: nat, b: nat)
    requires IsBase(b) && d < b
    ensures (q * b + d) / b == q && (q * b + d) % b == d && (0 < q ==> b <= q * b + d)
  {
    if b == 10 {
    } else {
    }
  }

  lemma {:induction false} ValueOfDigits(n: nat, b: nat)
    requires IsBase(b)
    ensures AllDigits(Digits(n, b), b) && Value(Digits(n, b), b) == n
    ensures Digits(n, b)[0] == '0' ==> n == 0
    decreases n
  {
    hide Value, DigitValue;
    if n < b {
      assert Value("", b) == 0 by { EmptyValue(b); }
      DigitValueOfDigit(n);
      SnocValue("", 0, n, b);
      assert "" + [Digit(n)] == [Digit(n)];
    } else {
      DigitValueOfDigit(n % b);
      ValueOfDigits(n / b, b);
      SnocValue(Digits(n / b, b), n / b, n % b, b);
      DivMod(n, b);
    }
  }

  /** A numeral has no leading zero unless it is "0". */
  predicate Canonical(s: string, b: nat) {
    s != "" && AllDigits(s, b) && (s[0] == '0' ==> |s| == 1)
  }

  lemma {:induction false} PositiveValue(s: string, b: nat)
    requires IsBase(b) && s != "" && AllDigits(s, b) && s[0] != '0'
    ensures 0 < Value(s, b)
  {
    if |s| > 1 {
      PositiveValue(s[..|s| - 1], b);
      DivModUnique(Value(s[..|s| - 1], b), DigitValue(s[|s| - 1]), b);
    } else {
      assert s[..0] == "";
    }
  }

  /** Every canonical digit string is the numeral of its value. */
  lemma {:induction false} DigitsOfValue(s: string, b: nat)
    requires IsBase(b) && Canonical(s, b)
    ensures Digits(Value(s, b), b) == s
  {
    var c := s[|s| - 1];
    DigitOfDigitValue(c);
    var init := s[..|s| - 1];
    assert s == init + [c];
    ValueSnoc(init, c, b);
    DivModUnique(Value(init, b), DigitValue(c), b);
    if |s| > 1 {
      hide Value;
      PositiveValue(init, b);
      DigitsOfValue(init, b);
    }
  }

  lemma DigitsAreCanonical(n: nat, b: nat)
    requires IsBase(b)
    ensures Canonical(Digits(n, b), b)
  {
    ValueOfDigits(n, b);
  }

  /** How many digits a text starts with. */
  function Run(s: string, b: nat): (k: nat)
    ensures k <= |s|
  {
    if s == "" || !IsDigit(s[0], b) then 0 else 1 + Run(s[1..], b)
  }

  /** The number at the front of a text and what follows it. */
  function ReadNumber(s: string, b: nat): (r: Option<(nat, string)>)
    ensures r.Some? ==> |r.value.1| < |s|
  {
    var k := Run(s, b);
    if k == 0 then None else Some((Value(s[..k], b), s[k..]))
  }

  lemma {:induction false} RunOf(d: string, rest: string, b: nat)
    requires AllDigits(d, b) && (rest == "" || !IsDigit(rest[0], b))
    ensures Run(d + rest, b) == |d|
    decreases |d|
  {
    if d == "" {
      assert d + rest == rest;
    } else {
      assert (d + rest)[1..] == d[1..] + rest;
      RunOf(d[1..], rest, b);
    }
  }

  /** Reading a numeral that no digit follows gives the number back. */
  lemma ReadNumberOf(n: nat, rest: string, b: nat)
    requires IsBase(b) && (rest == "" || !IsDigit(rest[0], b))
    ensures ReadNumber(Digits(n, b) + rest, b) == Some((n, rest))
  {
    ValueOfDigits(n, b);
    RunOf(Digits(n, b), rest, b);
    var s := Digits(n, b) + rest;
    assert s[..|Digits(n, b)|] == Digits(n, b) && s[|Digits(n, b)|..] == rest;
  }

  lemma FirstDigit(n: nat, rest: string, b: nat)
    requires IsBase(b)
    ensures (Digits(n, b) + rest)[0] == Digits(n, b)[0] && IsDigit(Digits(n, b)[0], b)
  {
    ValueOfDigits(n, b);
  }
}
