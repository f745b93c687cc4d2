/**
 * Strings as byte sequences: replacing characters, decimal numbers, and the
 * small reading steps used to check what a printer wrote.
 */
module Text {

  import opened Wrappers

  // ---------------------------------------------------------------------
  // Replacing characters
  // ---------------------------------------------------------------------

  function Replace(s: string, c: char, with: string): string {
    if s == [] then [] else (if s[0] == c then with else [s[0]]) + Replace(s[1..], c, with)
  }

  lemma {:induction false} ReplaceConcat(a: string, b: string, c: char, with: string)
    ensures Replace(a + b, c, with) == Replace(a, c, with) + Replace(b, c, with)
  {
    if a == [] {
      assert a + b == b;
    } else {
      assert (a + b)[1..] == a[1..] + b;
      ReplaceConcat(a[1..], b, c, with);
    }
  }

  lemma Assoc(a: string, b: string, c: string)
    ensures a + b + c == a + (b + c)
  {
  }

  lemma ReplaceOne(x: char, c: char, with: string)
    ensures Replace([x], c, with) == if x == c then with else [x]
  {
  }

  // ---------------------------------------------------------------------
  // Decimal numbers
  // ---------------------------------------------------------------------

  predicate IsDigit(c: char) {
    '0' <= c <= '9'
  }

  predicate AllDigits(s: string) {
    forall i :: 0 <= i < |s| ==> IsDigit(s[i])
  }

  function Digit(d: nat): (c: char)
    requires d < 10
    ensures IsDigit(c) && c as int - '0' as int == d
  {
    ('0' as int + d) as char
  }

  function Dec(n: nat): (s: string)
    ensures s != [] && AllDigits(s)
  {
    if n < 10 then [Digit(n)] else Dec(n / 10) + [Digit(n % 10)]
  }

  /** The number a string of digits stands for. */
  function Value(s: string): nat
    requires AllDigits(s)
  {
    if s == [] then 0 else Value(s[..|s| - 1]) * 10 + (s[|s| - 1] as int - '0' as int)
  }

  lemma {:induction false} ValueOfDec(n: nat)
    ensures Value(Dec(n)) == n
  {
    if n >= 10 {
      ValueOfDec(n / 10);
      assert Dec(n)[..|Dec(n)| - 1] == Dec(n / 10);
    }
  }

  function Zeros(n: nat): (s: string)
    ensures |s| == n && AllDigits(s)
  {
    if n == 0 then [] else Zeros(n - 1) + ['0']
  }

  lemma {:induction false} ValueOfPadded(n: nat, s: string)
    requires AllDigits(s)
    ensures Value(Zeros(n) + s) == Value(s)
  {
    if s != [] {
      assert (Zeros(n) + s)[..n + |s| - 1] == Zeros(n) + s[..|s| - 1];
      ValueOfPadded(n, s[..|s| - 1]);
    } else {
      assert Zeros(n) + s == Zeros(n);
      ValueOfZeros(n);
    }
  }

  lemma {:induction false} ValueOfZeros(n: nat)
    ensures Value(Zeros(n)) == 0
  {
    if n > 0 {
      assert Zeros(n)[..n - 1] == Zeros(n - 1);
      ValueOfZeros(n - 1);
    }
  }

  function Pow10(k: nat): nat {
    if k == 0 then 1 else 10 * Pow10(k - 1)
  }

  lemma {:induction false} DecLength(n: nat, k: nat)
    requires k >= 1
    ensures |Dec(n)| <= k <==> n < Pow10(k)
    decreases n
  {
    if n < 10 {
      Pow10Positive(k - 1);
    } else if k > 1 {
      DecLength(n / 10, k - 1);
    }
  }

  lemma {:induction false} Pow10Positive(k: nat)
    ensures Pow10(k) >= 1
  {
    if k > 0 {
      Pow10Positive(k - 1);
    }
  }

  /** `{:010}`: at least ten digits. */
  function Pad10(n: nat): (s: string)
    ensures AllDigits(s) && |s| >= 10
  {
    if |Dec(n)| >= 10 then Dec(n) else Zeros(10 - |Dec(n)|) + Dec(n)
  }

  predicate TenDigits(n: nat) {
    n < 10_000_000_000
  }

  lemma TenDigitsMeans(n: nat)
    ensures |Dec(n)| <= 10 <==> TenDigits(n)
  {
    hide Dec;
    DecLength(n, 10);
    assert Pow10(10) == 10_000_000_000;
  }

  lemma Pad10Is(n: nat)
    ensures Value(Pad10(n)) == n
    ensures |Pad10(n)| == 10 <==> TenDigits(n)
  {
    ValueOfDec(n);
    TenDigitsMeans(n);
    hide Dec, TenDigits, Value;
    if |Dec(n)| < 10 {
      ValueOfPadded(10 - |Dec(n)|, Dec(n));
    }
  }

  // ---------------------------------------------------------------------
  // Reading
  // ---------------------------------------------------------------------

  /** The text after `lit`, if `s` starts with it. */
  function Expect(lit: string, s: string): Option<string> {
    if |lit| <= |s| && s[..|lit|] == lit then Some(s[|lit|..]) else None
  }

  lemma ExpectFinds(lit: string, rest: string)
    ensures Expect(lit, lit + rest) == Some(rest)
  {
    assert (lit + rest)[..|lit|] == lit && (lit + rest)[|lit|..] == rest;
  }

  function LeadingDigits(s: string): (n: nat)
    ensures n <= |s| && AllDigits(s[..n])
  {
    if s == [] || !IsDigit(s[0]) then 0 else 1 + LeadingDigits(s[1..])
  }

  /** A decimal number and what follows it. */
  function ReadNat(s: string): (nat, string) {
    (Value(s[..LeadingDigits(s)]), s[LeadingDigits(s)..])
  }

  ghost predicate StartsNonDigit(s: string) {
    s == [] || !IsDigit(s[0])
  }

  ghost predicate OpensNonDigit(s: string) {
    s != [] && !IsDigit(s[0])
  }

  lemma OpensConcat(s: string, rest: string)
    requires OpensNonDigit(s)
    ensures StartsNonDigit(s + rest)
  {
  }

  lemma {:induction false} LeadingDigitsOf(digits: string, rest: string)
    requires AllDigits(digits) && StartsNonDigit(rest)
    ensures LeadingDigits(digits + rest) == |digits|
  {
    if digits == [] {
      assert digits + rest == rest;
    } else {
      assert (digits + rest)[1..] == digits[1..] + rest;
      LeadingDigitsOf(digits[1..], rest);
    }
  }

  lemma ReadNatFinds(n: nat, rest: string)
    requires StartsNonDigit(rest)
    ensures ReadNat(Dec(n) + rest) == (n, rest)
  {
    LeadingDigitsOf(Dec(n), rest);
    assert (Dec(n) + rest)[..|Dec(n)|] == Dec(n) && (Dec(n) + rest)[|Dec(n)|..] == rest;
    ValueOfDec(n);
  }

  function TrailingDigits(s: string): (n: nat)
    ensures n <= |s| && AllDigits(s[|s| - n..])
  {
    if s == [] || !IsDigit(s[|s| - 1]) then 0 else 1 + TrailingDigits(s[..|s| - 1])
  }

  lemma {:induction false} TrailingDigitsOf(before: string, digits: string)
    requires AllDigits(digits) && (before == [] || !IsDigit(before[|before| - 1]))
    ensures TrailingDigits(before + digits) == |digits|
  {
    if digits == [] {
      assert before + digits == before;
    } else {
      assert (before + digits)[..|before + digits| - 1] == before + digits[..|digits| - 1];
      TrailingDigitsOf(before, digits[..|digits| - 1]);
    }
  }

  /** One more character in front of what a reader found. */
  function Push(c: char, r: Option<(string, string)>): Option<(string, string)> {
    match r
    case None => None
    case Some((content, rest)) => Some(([c] + content, rest))
  }
}
