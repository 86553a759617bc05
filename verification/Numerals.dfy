/** Decimal numerals as Python formats them, and the string order that sorting by name
    uses. */
module Numerals {

  const DIGITS := "0123456789"

  /** str(n) */
  function Digits(n: nat): (r: string)
    ensures |r| > 0
  {
    if n < 10 then [DIGITS[n]] else Digits(n / 10) + [DIGITS[n % 10]]
  }

  /** The zero-padded form of a numeral shorter than `width`, as format code 0<width>d. */
  function Zeros(k: nat): (r: string)
    ensures |r| == k && forall i :: 0 <= i < k ==> r[i] == '0'
  {
    seq(k, _ => '0')
  }

  function Padded(n: nat): string {
    var d := Digits(n);
    Zeros(if |d| < 4 then 4 - |d| else 0) + d
  }

  function DigitValue(c: char): int {
    c as int - '0' as int
  }

  function Value(s: string): int {
    if s == "" then 0 else 10 * Value(s[..|s| - 1]) + DigitValue(s[|s| - 1])
  }

  ghost predicate IsNumeral(s: string) {
    forall i :: 0 <= i < |s| ==> '0' <= s[i] <= '9'
  }

  lemma {:induction false} ValueSnoc(s: string, c: char)
    ensures Value(s + [c]) == 10 * Value(s) + DigitValue(c)
  {
    assert (s + [c])[..|s|] == s;
  }

  lemma {:induction false} DigitAt(d: nat)
    requires d < 10
    ensures '0' <= DIGITS[d] <= '9' && DigitValue(DIGITS[d]) == d
  {
  }

  lemma {:induction false} NumeralSnoc(s: string, d: nat)
    requires IsNumeral(s) && d < 10
    ensures IsNumeral(s + [DIGITS[d]]) && Value(s + [DIGITS[d]]) == 10 * Value(s) + d
  {
    hide Value, DigitValue;
    DigitAt(d);
    ValueSnoc(s, DIGITS[d]);
  }

  lemma {:induction false} ValueOfDigits(n: nat)
    ensures IsNumeral(Digits(n)) && Value(Digits(n)) == n
  {
    hide Value, IsNumeral;
    if n < 10 {
      EmptyValue();
      NumeralSnoc("", n);
      assert "" + [DIGITS[n]] == [DIGITS[n]];
    } else {
      ValueOfDigits(n / 10);
      NumeralSnoc(Digits(n / 10), n % 10);
    }
  }

  lemma {:induction false} EmptyValue()
    ensures Value("") == 0 && IsNumeral("")
  {
  }

  lemma {:induction false} ZerosAddNothing(k: nat, s: string)
    ensures Value(Zeros(k) + s) == Value(s)
    decreases |s|, k
  {
    var z := Zeros(k) + s;
    if s != "" {
      assert z[..|z| - 1] == Zeros(k) + s[..|s| - 1];
      ZerosAddNothing(k, s[..|s| - 1]);
    } else if k > 0 {
      assert z[..|z| - 1] == Zeros(k - 1) + "";
      ZerosAddNothing(k - 1, "");
    }
  }

  /** Padding never makes two numbers look alike, however many digits they have. */
  lemma {:induction false} PaddedInjective(m: nat, n: nat)
    ensures Padded(m) == Padded(n) <==> m == n
  {
    ValueOfPadded(m);
    ValueOfPadded(n);
  }

  lemma {:induction false} ValueOfPadded(n: nat)
    ensures IsNumeral(Padded(n)) && Value(Padded(n)) == n
  {
    ValueOfDigits(n);
    ZerosAddNothing(if |Digits(n)| < 4 then 4 - |Digits(n)| else 0, Digits(n));
  }

  // ---------- String order ----------

  predicate StrLess(a: string, b: string) {
    if b == "" then false
    else if a == "" then true
    else if a[0] != b[0] then a[0] < b[0]
    else StrLess(a[1..], b[1..])
  }

  lemma {:induction false} StrIrreflexive(a: string)
    ensures !StrLess(a, a)
  {
    if a != "" {
      StrIrreflexive(a[1..]);
    }
  }

  lemma {:induction false} StrTotal(a: string, b: string)
    ensures a == b || StrLess(a, b) || StrLess(b, a)
    ensures !(StrLess(a, b) && StrLess(b, a)) && !StrLess(a, a)
  {
    if a != "" && b != "" && a[0] == b[0] {
      StrTotal(a[1..], b[1..]);
      assert a == [a[0]] + a[1..] && b == [b[0]] + b[1..];
    }
    if a != "" {
      StrIrreflexive(a);
    }
  }

  lemma {:induction false} StrTransitive(a: string, b: string, c: string)
    requires StrLess(a, b) && StrLess(b, c)
    ensures StrLess(a, c)
  {
    if a != "" && a[0] == b[0] && b[0] == c[0] {
      StrTransitive(a[1..], b[1..], c[1..]);
    }
  }

  lemma {:induction false} CommonPrefix(p: string, a: string, b: string)
    ensures StrLess(p + a, p + b) <==> StrLess(a, b)
  {
    if p == "" {
      assert p + a == a && p + b == b;
    } else {
      assert (p + a)[1..] == p[1..] + a && (p + b)[1..] == p[1..] + b;
      CommonPrefix(p[1..], a, b);
    }
  }

  /** Between strings of one length that differ, what follows does not matter. */
  lemma {:induction false} TailsIgnored(a: string, b: string, x: string, y: string)
    requires |a| == |b| && a != b
    ensures StrLess(a + x, b + y) <==> StrLess(a, b)
  {
    assert (a + x)[1..] == a[1..] + x && (b + y)[1..] == b[1..] + y;
    if a[0] == b[0] {
      assert a == [a[0]] + a[1..] && b == [b[0]] + b[1..];
      TailsIgnored(a[1..], b[1..], x, y);
    }
  }

  /** Numerals of one length are ordered by value. */
  lemma {:induction false} SameLengthByValue(a: string, b: string)
    requires |a| == |b| && IsNumeral(a) && IsNumeral(b)
    ensures StrLess(a, b) <==> Value(a) < Value(b)
    ensures a == b <==> Value(a) == Value(b)
  {
    if a != "" {
      var n := |a| - 1;
      SameLengthByValue(a[..n], b[..n]);
      assert a == a[..n] + [a[n]] && b == b[..n] + [b[n]];
      if a[..n] == b[..n] {
        CommonPrefix(a[..n], [a[n]], [b[n]]);
      } else {
        TailsIgnored(a[..n], b[..n], [a[n]], [b[n]]);
      }
    }
  }

  /** A number with fewer digits is smaller. */
  lemma {:induction false} FewerDigitsSmaller(m: nat, n: nat)
    requires |Digits(m)| < |Digits(n)|
    ensures m < n
  {
    if m >= 10 {
      FewerDigitsSmaller(m / 10, n / 10);
    }
  }

  // ---------- Numerals of nines ----------

  function Nines(k: nat): (r: string)
    ensures |r| == k && forall i :: 0 <= i < k ==> r[i] == '9'
  {
    seq(k, _ => '9')
  }

  /** No numeral is above the nines of its length. */
  lemma {:induction false} NinesAreGreatest(s: string)
    requires IsNumeral(s) && s != Nines(|s|)
    ensures StrLess(s, Nines(|s|))
  {
    assert Nines(0) == "";
    var t := Nines(|s|);
    assert t[1..] == Nines(|s| - 1);
    if s[0] == '9' {
      assert s == ['9'] + s[1..] && t == ['9'] + t[1..];
      NinesAreGreatest(s[1..]);
    }
  }

  lemma {:induction false} DigitsOfNines(k: nat) returns (n: nat)
    requires k > 0
    ensures Digits(n) == Nines(k)
  {
    if k == 1 {
      n := 9;
      assert Nines(1) == "9";
    } else {
      var m := DigitsOfNines(k - 1);
      n := 10 * m + 9;
      ValueOfDigits(m);
      assert Digits(m)[0] == '9';
      assert n / 10 == m && n % 10 == 9;
      assert Nines(k) == Nines(k - 1) + ['9'];
    }
  }
}
