/** The handful of Python string operations the scripts rely on, written out over `seq<char>`. */
module Text {
  import opened Base

  /** `s` begins with `prefix`. */
  predicate StartsWith(s: string, prefix: string)
  {
    |prefix| <= |s| && s[..|prefix|] == prefix
  }

  /** `s` ends with `suffix`. */
  predicate EndsWith(s: string, suffix: string)
  {
    |suffix| <= |s| && s[|s| - |suffix|..] == suffix
  }

  /** `s[len(prefix):]` once `s.startswith(prefix)` is known; the inverse of prepending. */
  function DropPrefix(s: string, prefix: string): (r: string)
    requires StartsWith(s, prefix)
    ensures prefix + r == s
    ensures |r| == |s| - |prefix|
  {
    s[|prefix|..]
  }

  lemma DropPrefixOfConcat(prefix: string, r: string)
    ensures StartsWith(prefix + r, prefix) && DropPrefix(prefix + r, prefix) == r
  {
    assert (prefix + r)[..|prefix|] == prefix;
  }

  /** The parts joined with single spaces between them. */
  function JoinSpaces(parts: seq<string>): string
  {
    if |parts| == 0 then ""
    else if |parts| == 1 then parts[0]
    else parts[0] + " " + JoinSpaces(parts[1..])
  }

  // ---------------------------------------------------------------------------
  // Python's ordering of `str` values: lexicographic by code point.
  // (Dafny's own `<` on sequences is the proper-prefix relation, so it is defined here.)
  // ---------------------------------------------------------------------------

  predicate LexLess(a: string, b: string)
    decreases |a|
  {
    if |a| == 0 then |b| > 0
    else if |b| == 0 then false
    else if a[0] == b[0] then LexLess(a[1..], b[1..])
    else a[0] < b[0]
  }

  lemma LexIrreflexive(a: string)
    ensures !LexLess(a, a)
  {
    if |a| > 0 {
      LexIrreflexive(a[1..]);
    }
  }

  lemma LexTransitive(a: string, b: string, c: string)
    requires LexLess(a, b) && LexLess(b, c)
    ensures LexLess(a, c)
    decreases |a|
  {
    if |a| > 0 && a[0] == b[0] && b[0] == c[0] {
      LexTransitive(a[1..], b[1..], c[1..]);
    }
  }

  lemma LexTotal(a: string, b: string)
    requires a != b
    ensures LexLess(a, b) || LexLess(b, a)
    decreases |a|
  {
    if |a| > 0 && |b| > 0 && a[0] == b[0] {
      assert a == [a[0]] + a[1..] && b == [b[0]] + b[1..];
      LexTotal(a[1..], b[1..]);
    }
  }

  lemma LexAsymmetric(a: string, b: string)
    requires LexLess(a, b)
    ensures !LexLess(b, a)
  {
    if LexLess(b, a) {
      LexTransitive(a, b, a);
      LexIrreflexive(a);
    }
  }

  /** The order `sorted` produces: each element strictly below the next, so no duplicates. */
  predicate StrictlySorted(s: seq<string>)
  {
    forall i, j :: 0 <= i < j < |s| ==> LexLess(s[i], s[j])
  }

  // ---------------------------------------------------------------------------
  // Decimal numerals: `int(text)` on a size field, and `f"{n:,}"` when printing one.
  // ---------------------------------------------------------------------------

  predicate IsDigit(c: char)
  {
    '0' <= c <= '9'
  }

  predicate AllDigits(s: string)
  {
    forall i :: 0 <= i < |s| ==> IsDigit(s[i])
  }

  function DigitChar(d: nat): char
    requires d < 10
  {
    ('0' as int + d) as char
  }

  /** The number a string of decimal digits denotes, most significant digit first. */
  function DigitsValue(s: string): nat
    requires AllDigits(s)
    decreases |s|
  {
    if |s| == 0 then 0 else DigitsValue(s[..|s| - 1]) * 10 + (s[|s| - 1] as int - '0' as int)
  }

  /** `int(text)` for the plain non-empty digit strings the listing tool prints; anything else fails. */
  function ParseDecimal(s: string): Option<nat>
  {
    if |s| > 0 && AllDigits(s) then Some(DigitsValue(s)) else None
  }

  /** `str(n)` for a natural number. */
  function ShowDecimal(n: nat): string
  {
    if n < 10 then [DigitChar(n)] else ShowDecimal(n / 10) + [DigitChar(n % 10)]
  }

  /** `f"{n:,}"`: the decimal digits in groups of three, separated by commas, from the right. */
  function GroupThousands(n: nat): string
  {
    if n < 1000 then ShowDecimal(n)
    else GroupThousands(n / 1000) + "," + ThreeDigits(n % 1000)
  }

  function ThreeDigits(m: nat): string
    requires m < 1000
  {
    [DigitChar(m / 100), DigitChar(m / 10 % 10), DigitChar(m % 10)]
  }

  function RemoveCommas(s: string): string
  {
    if |s| == 0 then "" else (if s[0] == ',' then "" else [s[0]]) + RemoveCommas(s[1..])
  }

  function Pow10(k: nat): nat
  {
    if k == 0 then 1 else 10 * Pow10(k - 1)
  }

  lemma AllDigitsAppend(a: string, b: string)
    requires AllDigits(a) && AllDigits(b)
    ensures AllDigits(a + b)
  {
    assert forall i :: 0 <= i < |a + b| ==> (a + b)[i] == if i < |a| then a[i] else b[i - |a|];
  }

  lemma ShiftDigit(x: int, p: int, y: int, d: int)
    ensures (x * p + y) * 10 + d == x * (p * 10) + (y * 10 + d)
  {
  }

  lemma {:induction false} DigitsValueAppend(a: string, b: string)
    requires AllDigits(a) && AllDigits(b)
    ensures AllDigits(a + b)
    ensures DigitsValue(a + b) == DigitsValue(a) * Pow10(|b|) + DigitsValue(b)
    decreases |b|
  {
    AllDigitsAppend(a, b);
    if |b| == 0 {
      assert a + b == a;
    } else {
      var b' := b[..|b| - 1];
      var ab := a + b;
      assert ab[..|ab| - 1] == a + b';
      assert ab[|ab| - 1] == b[|b| - 1];
      DigitsValueAppend(a, b');
      ShiftDigit(DigitsValue(a), Pow10(|b'|), DigitsValue(b'), b[|b| - 1] as int - '0' as int);
    }
  }

  lemma {:induction false} RemoveCommasAppend(a: string, b: string)
    ensures RemoveCommas(a + b) == RemoveCommas(a) + RemoveCommas(b)
    decreases |a|
  {
    if |a| == 0 {
      assert a + b == b;
    } else {
      assert (a + b)[1..] == a[1..] + b;
      RemoveCommasAppend(a[1..], b);
    }
  }

  lemma RemoveCommasOfDigits(s: string)
    requires AllDigits(s)
    ensures RemoveCommas(s) == s
  {
  }

  /** `str(n)` is a digit string with no superfluous leading zero, and `int` reads it back as `n`. */
  lemma {:induction false} ShowDecimalRoundTrip(n: nat)
    ensures |ShowDecimal(n)| > 0 && AllDigits(ShowDecimal(n))
    ensures ShowDecimal(n)[0] == '0' ==> n == 0
    ensures ParseDecimal(ShowDecimal(n)) == Some(n)
  {
    var s := ShowDecimal(n);
    if n < 10 {
      assert s[..0] == [];
      assert s[0] as int - '0' as int == n;
      assert AllDigits(s);
      assert DigitsValue(s) == DigitsValue(s[..0]) * 10 + n;
    } else {
      ShowDecimalRoundTrip(n / 10);
      assert s[0] == ShowDecimal(n / 10)[0];
      assert s[..|s| - 1] == ShowDecimal(n / 10);
      assert s[|s| - 1] as int - '0' as int == n % 10;
    }
  }

  /** Removing the separators from `f"{n:,}"` leaves a numeral that reads back as `n`. */
  lemma {:induction false} GroupThousandsRoundTrip(n: nat)
    ensures AllDigits(RemoveCommas(GroupThousands(n)))
    ensures ParseDecimal(RemoveCommas(GroupThousands(n))) == Some(n)
  {
    if n < 1000 {
      ShowDecimalRoundTrip(n);
      RemoveCommasOfDigits(ShowDecimal(n));
    } else {
      var q, m := n / 1000, n % 1000;
      GroupThousandsRoundTrip(q);
      var head := RemoveCommas(GroupThousands(q));
      var tail := ThreeDigits(m);
      RemoveCommasAppend(GroupThousands(q) + ",", tail);
      RemoveCommasAppend(GroupThousands(q), ",");
      RemoveCommasOfDigits(tail);
      assert RemoveCommas(GroupThousands(n)) == head + tail;
      DigitsValueAppend(head, tail);
      ThreeDigitsValue(m);
      assert Pow10(3) == 1000;
      assert DigitsValue(head) == q && DigitsValue(tail) == m;
      assert DigitsValue(head + tail) == q * 1000 + m;
    }
  }

  lemma ThreeDigitsArith(m: nat)
    requires m < 1000
    ensures m / 100 < 10 && (m / 100 * 10 + m / 10 % 10) * 10 + m % 10 == m
  {
    var q := m / 10;
    assert m == q * 10 + m % 10;
    assert q == q / 10 * 10 + q % 10;
    assert m / 100 == q / 10;
  }

  lemma ThreeDigitsValue(m: nat)
    requires m < 1000
    ensures AllDigits(ThreeDigits(m)) && DigitsValue(ThreeDigits(m)) == m
  {
    ThreeDigitsArith(m);
    var t := ThreeDigits(m);
    var d0, d1, d2 := m / 100, m / 10 % 10, m % 10;
    assert t[..2] == [DigitChar(d0), DigitChar(d1)];
    assert t[..2][..1] == [DigitChar(d0)];
    assert t[..2][..1][..0] == [];
    assert DigitsValue(t[..2][..1]) == d0;
    assert DigitsValue(t[..2]) == d0 * 10 + d1;
    assert DigitsValue(t) == (d0 * 10 + d1) * 10 + d2;
  }

  /** `s.rjust(width)`: pads on the left with spaces up to `width` characters, never truncates. */
  function RightJustify(s: string, width: nat): (r: string)
    ensures |r| == if |s| < width then width else |s|
    ensures EndsWith(r, s)
    ensures forall i :: 0 <= i < |r| - |s| ==> r[i] == ' '
  {
    if |s| >= width then s else seq(width - |s|, _ => ' ') + s
  }
}
