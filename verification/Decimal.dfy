/** Decimal numerals: request ids are printed with them and observed revisions are read from them. */
module Decimal {
  import opened Wrappers

  const U64_LIMIT: nat := 0x1_0000_0000_0000_0000
  const U64_MAX_TEXT := "18446744073709551615"

  predicate IsDigit(c: char) { '0' <= c <= '9' }

  predicate AllDigits(s: string) { forall i :: 0 <= i < |s| ==> IsDigit(s[i]) }

  function DigitValue(c: char): nat
    requires IsDigit(c)
  {
    c as nat - '0' as nat
  }

  function Digit(d: nat): (c: char)
    requires d < 10
    ensures IsDigit(c) && DigitValue(c) == d
  {
    ('0' as nat + d) as char
  }

  /** The number a digit run denotes, leading zeros allowed. */
  function Value(s: string): nat
    requires AllDigits(s)
  {
    if s == "" then 0
    else 10 * Value(s[..|s| - 1]) + DigitValue(s[|s| - 1])
  }

  /** The shortest numeral of `n`: what `String(n)` prints for a non-negative integer. */
  function Print(n: nat): (s: string)
    ensures s != "" && AllDigits(s)
  {
    if n < 10 then [Digit(n)] else Print(n / 10) + [Digit(n % 10)]
  }

  /** No leading zero, except the numeral of zero itself. */
  predicate Canonical(s: string) {
    s != "" && AllDigits(s) && (s[0] == '0' ==> s == "0")
  }

  lemma {:induction false} PrintThenRead(n: nat)
    ensures Canonical(Print(n)) && Value(Print(n)) == n
    ensures n > 0 ==> Print(n)[0] != '0'
  {
    if n < 10 {
      assert Print(n)[..0] == "";
    } else {
      PrintThenRead(n / 10);
      assert Print(n)[..|Print(n)| - 1] == Print(n / 10);
    }
  }

  lemma {:induction false} ReadThenPrint(s: string)
    requires Canonical(s)
    ensures Print(Value(s)) == s
  {
    var front := s[..|s| - 1];
    if |s| == 1 {
      assert front == "" && s == [s[0]];
    } else {
      assert Canonical(front);
      ReadThenPrint(front);
      PositiveWithoutLeadingZero(front);
      assert s == front + [s[|s| - 1]];
    }
  }

  lemma {:induction false} PositiveWithoutLeadingZero(s: string)
    requires s != "" && AllDigits(s) && s[0] != '0'
    ensures Value(s) > 0
  {
    if |s| > 1 {
      PositiveWithoutLeadingZero(s[..|s| - 1]);
    }
  }

  /** Distinct numbers have distinct numerals, so request ids never collide. */
  lemma {:induction false} PrintInjective(m: nat, n: nat)
    requires Print(m) == Print(n)
    ensures m == n
  {
    PrintThenRead(m);
    PrintThenRead(n);
  }

  // ---------------------------------------------------------------- string comparison

  /** JavaScript's `a > b` on strings: first differing unit decides, else the longer one is greater. */
  predicate Greater(a: string, b: string)
    decreases |a|
  {
    if a == "" then false
    else if b == "" then true
    else if a[0] != b[0] then a[0] > b[0]
    else Greater(a[1..], b[1..])
  }

  /** For equal lengths the comparison can also be read from the right end. */
  lemma {:induction false} GreaterFromTheRight(a: string, b: string)
    requires |a| == |b| > 0
    ensures Greater(a, b) <==>
            var m := |a| - 1;
            Greater(a[..m], b[..m]) || (a[..m] == b[..m] && a[m] > b[m])
    decreases |a|
  {
    var m := |a| - 1;
    if m == 0 {
      assert a[..0] == b[..0] == "";
    } else {
      GreaterFromTheRight(a[1..], b[1..]);
      assert a[..m] == [a[0]] + a[1..][..m - 1];
      assert b[..m] == [b[0]] + b[1..][..m - 1];
      assert a[..m][1..] == a[1..][..m - 1] && b[..m][1..] == b[1..][..m - 1];
    }
  }

  /** Lexicographic order on digit runs of one length is numeric order. */
  lemma {:induction false} GreaterIsNumeric(a: string, b: string)
    requires |a| == |b| && AllDigits(a) && AllDigits(b)
    ensures Greater(a, b) <==> Value(a) > Value(b)
    ensures a == b <==> Value(a) == Value(b)
    decreases |a|
  {
    if a != "" {
      var m := |a| - 1;
      GreaterIsNumeric(a[..m], b[..m]);
      GreaterFromTheRight(a, b);
      assert a == a[..m] + [a[m]] && b == b[..m] + [b[m]];
    }
  }

  // ---------------------------------------------------------------- magnitude by length

  function Pow10(k: nat): (p: nat)
    ensures p > 0
  {
    if k == 0 then 1 else 10 * Pow10(k - 1)
  }

  lemma {:induction false} LengthBounds(s: string)
    requires s != "" && AllDigits(s)
    ensures Value(s) < Pow10(|s|)
    ensures s[0] != '0' ==> Pow10(|s| - 1) <= Value(s)
  {
    var front := s[..|s| - 1];
    if front == "" {
      assert Pow10(1) == 10 * Pow10(0);
    } else {
      LengthBounds(front);
    }
  }

  lemma {:induction false} Pow10Monotone(j: nat, k: nat)
    requires j <= k
    ensures Pow10(j) <= Pow10(k)
  {
    if j < k {
      Pow10Monotone(j, k - 1);
    }
  }

  lemma U64MaxMagnitude()
    ensures Pow10(19) < U64_LIMIT <= Pow10(20)
  {
    assert Pow10(5) == 100000;
    assert Pow10(10) == 10000000000;
    assert Pow10(15) == 1000000000000000;
    assert Pow10(19) == 10000000000000000000;
  }

  lemma ReadOneMore(s: string, k: nat)
    requires k < |s| && AllDigits(s)
    ensures Value(s[..k + 1]) == 10 * Value(s[..k]) + DigitValue(s[k])
  {
    assert s[..k + 1][..k] == s[..k];
  }

  /** The number five consecutive digits denote. */
  function Five(s: string, k: nat): nat
    requires k + 5 <= |s| && AllDigits(s)
  {
    10000 * DigitValue(s[k]) + 1000 * DigitValue(s[k + 1]) + 100 * DigitValue(s[k + 2])
    + 10 * DigitValue(s[k + 3]) + DigitValue(s[k + 4])
  }

  lemma ReadFiveMore(s: string, k: nat)
    requires k + 5 <= |s| && AllDigits(s)
    ensures Value(s[..k + 5]) == 100000 * Value(s[..k]) + Five(s, k)
  {
    ReadOneMore(s, k);
    ReadOneMore(s, k + 1);
    ReadOneMore(s, k + 2);
    ReadOneMore(s, k + 3);
    ReadOneMore(s, k + 4);
  }

  lemma ReadTwenty(s: string)
    requires |s| == 20 && AllDigits(s)
    ensures Value(s) == 1000000000000000 * Five(s, 0) + 10000000000 * Five(s, 5) + 100000 * Five(s, 10) + Five(s, 15)
  {
    ReadFiveMore(s, 0);
    ReadFiveMore(s, 5);
    ReadFiveMore(s, 10);
    ReadFiveMore(s, 15);
    assert s[..20] == s;
  }

  lemma U64MaxDigits()
    ensures AllDigits(U64_MAX_TEXT) && |U64_MAX_TEXT| == 20
    ensures Five(U64_MAX_TEXT, 0) == 18446 && Five(U64_MAX_TEXT, 5) == 74407
    ensures Five(U64_MAX_TEXT, 10) == 37095 && Five(U64_MAX_TEXT, 15) == 51615
  {
  }

  lemma U64MaxNumeral()
    ensures AllDigits(U64_MAX_TEXT) && |U64_MAX_TEXT| == 20 && Value(U64_MAX_TEXT) == U64_LIMIT - 1
  {
    U64MaxDigits();
    ReadTwenty(U64_MAX_TEXT);
  }

  // ---------------------------------------------------------------- observed revisions

  /** A revision is read only when it is the canonical numeral of a 64-bit number. */
  function ParseObservedRevision(value: string): Option<nat> {
    if |value| == 0 || |value| > 20 then None
    else if !AllDigits(value) then None
    else if value != "0" && value[0] == '0' then None
    else if |value| == 20 && Greater(value, U64_MAX_TEXT) then None
    else Some(Value(value))
  }

  lemma {:induction false} RevisionReadsExactlyU64(value: string, n: nat)
    ensures ParseObservedRevision(value) == Some(n) <==> value == Print(n) && n < U64_LIMIT
  {
    U64MaxNumeral();
    U64MaxMagnitude();
    PrintThenRead(n);
    if Canonical(value) {
      ReadThenPrint(value);
      LengthBounds(value);
      if |value| < 20 {
        Pow10Monotone(|value|, 19);
      } else if |value| == 20 {
        GreaterIsNumeric(value, U64_MAX_TEXT);
      } else {
        Pow10Monotone(20, |value| - 1);
      }
    }
  }

  /** Printing and reading are inverse on the accepted revisions. */
  lemma RevisionRoundTrip(value: string, n: nat)
    ensures n < U64_LIMIT ==> ParseObservedRevision(Print(n)) == Some(n)
    ensures ParseObservedRevision(value).Some? ==> Print(ParseObservedRevision(value).value) == value
    ensures ParseObservedRevision(value).Some? ==> ParseObservedRevision(value).value < U64_LIMIT
  {
    RevisionReadsExactlyU64(Print(n), n);
    if ParseObservedRevision(value).Some? {
      RevisionReadsExactlyU64(value, ParseObservedRevision(value).value);
    }
  }
}
