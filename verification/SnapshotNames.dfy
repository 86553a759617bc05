/** Snapshot file names and the two orders of them: by version and by name
    (state/store.py, reliability/injection.py). */
module SnapshotNames {
  import opened Numerals

  const PREFIX := "state-v"
  const SUFFIX := ".json"

  function SnapshotName(version: nat): string {
    PREFIX + (Padded(version) + SUFFIX)
  }

  /** Between prefix and suffix. */
  function Middle(name: string): string
    requires |name| >= 12
  {
    name[7..|name| - 5]
  }

  /** The prefix, four or more digits, the suffix. */
  predicate IsSnapshotName(name: string) {
    && |name| >= 16
    && name[..7] == PREFIX
    && name[|name| - 5..] == SUFFIX
    && forall i :: 0 <= i < |Middle(name)| ==> '0' <= Middle(name)[i] <= '9'
  }

  function VersionOf(name: string): int
    requires IsSnapshotName(name)
  {
    Value(Middle(name))
  }

  ghost predicate Spelled(name: string, digits: string, version: int) {
    && name == "state-v" + digits + ".json" && |digits| >= 4
    && (forall i :: 0 <= i < |digits| ==> '0' <= digits[i] <= '9') && version == Value(digits)
  }

  /** The snapshot files are those named by four or more digits, and the digits say the version. */
  lemma {:induction false} SnapshotNameIff(name: string, version: int)
    ensures IsSnapshotName(name) && VersionOf(name) == version <==> exists digits :: Spelled(name, digits, version)
  {
    hide Value;
    if IsSnapshotName(name) {
      assert name == name[..7] + Middle(name) + name[|name| - 5..];
      assert Spelled(name, Middle(name), VersionOf(name));
    }
    if digits :| Spelled(name, digits, version) {
      assert name[..7] == PREFIX && name[|name| - 5..] == SUFFIX && Middle(name) == digits;
    }
  }

  lemma {:induction false} NumeralsAreNotNegative(s: string)
    requires IsNumeral(s)
    ensures Value(s) >= 0
  {
    if s != "" {
      NumeralsAreNotNegative(s[..|s| - 1]);
    }
  }

  lemma {:induction false} PaddedIsWide(n: nat)
    ensures |Padded(n)| >= 4
  {
    hide Digits;
  }

  lemma {:induction false} VersionOfName(n: nat)
    ensures IsSnapshotName(SnapshotName(n)) && VersionOf(SnapshotName(n)) == n
  {
    hide Padded, Value;
    ValueOfPadded(n);
    PaddedIsWide(n);
    assert Middle(SnapshotName(n)) == Padded(n);
    assert SnapshotName(n)[..7] == PREFIX;
    assert SnapshotName(n)[|SnapshotName(n)| - 5..] == SUFFIX;
  }

  lemma {:induction false} NamesDiffer(m: nat, n: nat)
    ensures SnapshotName(m) == SnapshotName(n) <==> m == n
  {
    VersionOfName(m);
    VersionOfName(n);
  }

  // ---------- Name order ----------

  lemma {:induction false} SameWidthNames(a: string, b: string)
    requires |a| == |b| && IsNumeral(a) && IsNumeral(b)
    ensures StrLess(PREFIX + (a + SUFFIX), PREFIX + (b + SUFFIX)) <==> Value(a) < Value(b)
  {
    CommonPrefix(PREFIX, a + SUFFIX, b + SUFFIX);
    SameLengthByValue(a, b);
    if a == b {
      StrIrreflexive(a + SUFFIX);
    } else {
      TailsIgnored(a, b, SUFFIX, SUFFIX);
    }
  }

  /** A shorter numeral is compared with as many leading digits; where they agree it comes
      first, since the dot sorts before every digit. */
  lemma {:induction false} ShorterName(a: string, b: string)
    requires |a| < |b| && IsNumeral(a) && IsNumeral(b)
    ensures StrLess(PREFIX + (a + SUFFIX), PREFIX + (b + SUFFIX)) <==> Value(a) <= Value(b[..|a|])
  {
    var head, rest := b[..|a|], b[|a|..] + SUFFIX;
    CommonPrefix(PREFIX, a + SUFFIX, b + SUFFIX);
    assert b + SUFFIX == head + rest;
    SameLengthByValue(a, head);
    if a == head {
      CommonPrefix(a, SUFFIX, rest);
      assert rest[0] == b[|a|];
    } else {
      TailsIgnored(a, head, SUFFIX, rest);
    }
  }

  lemma {:induction false} FourDigits(n: nat)
    ensures n <= 9999 <==> |Digits(n)| <= 4
  {
    assert n / 10 / 10 / 10 / 10 == n / 10000;
    assert n >= 10 ==> |Digits(n)| == |Digits(n / 10)| + 1;
    assert n >= 100 ==> |Digits(n / 10)| == |Digits(n / 10 / 10)| + 1;
    assert n >= 1000 ==> |Digits(n / 10 / 10)| == |Digits(n / 10 / 10 / 10)| + 1;
    assert n >= 10000 ==> |Digits(n / 10 / 10 / 10)| == |Digits(n / 10 / 10 / 10 / 10)| + 1;
  }

  lemma {:induction false} PaddedWidth(n: nat)
    ensures n <= 9999 ==> |Padded(n)| == 4
    ensures n > 9999 ==> Padded(n) == Digits(n) && |Padded(n)| > 4
    ensures IsNumeral(Padded(n)) && Value(Padded(n)) == n
  {
    FourDigits(n);
    ValueOfPadded(n);
  }

  /** In name order the name of version `n` comes after all those of versions 1 to n - 1. */
  ghost predicate NewestSortsLast(n: nat) {
    forall k: nat :: 1 <= k < n ==> StrLess(SnapshotName(k), SnapshotName(n))
  }

  /** All digits but the last are nines. */
  predicate NinesButTheLast(n: nat) {
    Digits(n / 10) == Nines(|Digits(n / 10)|)
  }

  lemma {:induction false} WithinFourDigits(n: nat)
    requires n <= 9999
    ensures NewestSortsLast(n)
  {
    forall k: nat | 1 <= k < n ensures StrLess(SnapshotName(k), SnapshotName(n)) {
      PaddedWidth(k);
      PaddedWidth(n);
      SameWidthNames(Padded(k), Padded(n));
    }
  }

  lemma {:induction false} LongDigits(n: nat)
    requires n > 9999
    ensures |Digits(n)| == |Digits(n / 10)| + 1 && Digits(n)[..|Digits(n / 10)|] == Digits(n / 10)
    ensures |Digits(n / 10)| >= 4
  {
    FourDigits(n);
  }

  lemma {:induction false} NumeralIsAtMostNines(s: string)
    requires IsNumeral(s)
    ensures Value(s) <= Value(Nines(|s|)) && (Value(s) == Value(Nines(|s|)) ==> s == Nines(|s|))
  {
    SameLengthByValue(s, Nines(|s|));
    if s != Nines(|s|) {
      NinesAreGreatest(s);
    }
  }

  /** A numeral as wide as the nines or narrower sorts before nines followed by a digit. */
  lemma {:induction false} BeforeNines(a: string, b: string)
    requires IsNumeral(a) && IsNumeral(b) && |a| < |b| && b[..|b| - 1] == Nines(|b| - 1)
    ensures StrLess(PREFIX + (a + SUFFIX), PREFIX + (b + SUFFIX))
  {
    assert b[..|a|] == b[..|b| - 1][..|a|];
    assert b[..|a|] == Nines(|a|);
    NumeralIsAtMostNines(a);
    ShorterName(a, b);
  }

  lemma {:induction false} NotWider(k: nat, n: nat)
    requires k < n && n > 9999
    ensures |Padded(k)| <= |Padded(n)|
  {
    PaddedWidth(k);
    PaddedWidth(n);
    if |Digits(n)| < |Digits(k)| { FewerDigitsSmaller(n, k); }
  }

  lemma {:induction false} NinesSortLast(n: nat)
    requires n > 9999 && NinesButTheLast(n)
    ensures NewestSortsLast(n)
  {
    LongDigits(n);
    PaddedWidth(n);
    forall k: nat | 1 <= k < n ensures StrLess(SnapshotName(k), SnapshotName(n)) {
      hide Padded, Digits, StrLess, Value;
      PaddedWidth(k);
      NotWider(k, n);
      if |Padded(k)| < |Padded(n)| {
        BeforeNines(Padded(k), Padded(n));
      } else {
        SameWidthNames(Padded(k), Padded(n));
      }
    }
  }

  lemma {:induction false} OthersAreOvertaken(n: nat)
    requires n > 9999 && !NinesButTheLast(n)
    ensures !NewestSortsLast(n)
  {
    hide StrLess, Value;
    LongDigits(n);
    PaddedWidth(n);
    var head := Digits(n / 10);
    var k := DigitsOfNines(|head|);
    ValueOfDigits(n / 10);
    ValueOfDigits(k);
    FewerDigitsSmaller(k, n);
    FourDigits(k);
    PaddedWidth(k);
    assert Padded(k) == Nines(|head|) by {
      if |Digits(k)| == 4 { assert Zeros(0) + Digits(k) == Digits(k); }
    }
    NumeralIsAtMostNines(head);
    ShorterName(Padded(k), Padded(n));
    assert Digits(0) == "0";
    assert !StrLess(SnapshotName(k), SnapshotName(n));
  }

  /** Name order finds the newest of versions 1 to n exactly for n up to 9999 and, beyond,
      while every digit but the last is a nine; it first fails at 10000. */
  lemma {:induction false} NewestSortsLastIff(n: nat)
    ensures NewestSortsLast(n) <==> n <= 9999 || NinesButTheLast(n)
    ensures !NewestSortsLast(10000)
  {
    if n <= 9999 {
      WithinFourDigits(n);
    } else if NinesButTheLast(n) {
      NinesSortLast(n);
    } else {
      OthersAreOvertaken(n);
    }
    assert Digits(1000)[3] == '0';
    assert !NinesButTheLast(10000);
    OthersAreOvertaken(10000);
  }
}
