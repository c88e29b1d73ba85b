/** Decimal formatting (`f"{n:0Wd}"`) and parsing (`int(s)`) of whole numbers. */
module Numeric {
  import opened Wrappers
  import opened Text

  predicate AllDigits(s: string) {
    forall i :: 0 <= i < |s| ==> IsDigit(s[i])
  }

  function DigitChar(d: nat): (c: char)
    requires d < 10
    ensures IsDigit(c)
  {
    ('0' as int + d) as char
  }

  /** The value of a string of decimal digits. */
  function DigitsValue(s: string): nat
    requires AllDigits(s)
    decreases |s|
  {
    if |s| == 0 then 0 else DigitsValue(s[..|s| - 1]) * 10 + (s[|s| - 1] as int - '0' as int)
  }

  /** `str(n)` for a natural number: the shortest decimal spelling. */
  function Decimal(n: nat): (r: string)
    ensures |r| >= 1 && AllDigits(r)
    decreases n
  {
    if n < 10 then [DigitChar(n)] else Decimal(n / 10) + [DigitChar(n % 10)]
  }

  /** Reading back the decimal spelling gives the number. */
  lemma {:induction false} DecimalValue(n: nat)
    ensures DigitsValue(Decimal(n)) == n
    decreases n
  {
    if n >= 10 {
      DecimalValue(n / 10);
      var d := Decimal(n);
      assert d[..|d| - 1] == Decimal(n / 10);
    }
  }

  /** Different numbers are spelled differently. */
  lemma DecimalInjective(m: nat, n: nat)
    requires Decimal(m) == Decimal(n)
    ensures m == n
  {
    DecimalValue(m);
    DecimalValue(n);
  }

  function Pow10(k: nat): nat {
    if k == 0 then 1 else 10 * Pow10(k - 1)
  }

  /** A number below 10^k needs at most k digits. */
  lemma {:induction false} DecimalLength(n: nat, k: nat)
    requires 1 <= k && n < Pow10(k)
    ensures |Decimal(n)| <= k
    decreases n
  {
    if n >= 10 {
      assert Pow10(1) == 10;
      DecimalLength(n / 10, k - 1);
    }
  }

  function Zeros(k: nat): (r: string)
    ensures |r| == k && AllDigits(r)
  {
    seq(k, _ => '0')
  }

  /** `f"{n:0{width}d}"` for a natural number: zero-padded on the left up to `width` digits. */
  function FormatNat(n: nat, width: nat): (r: string)
    ensures AllDigits(r) && |r| >= width && |r| >= 1
  {
    var d := Decimal(n);
    if |d| >= width then d else Zeros(width - |d|) + d
  }

  /** Leading zeros do not change the value. */
  lemma {:induction false} ZerosValue(k: nat, s: string)
    requires AllDigits(s)
    ensures AllDigits(Zeros(k) + s) && DigitsValue(Zeros(k) + s) == DigitsValue(s)
    decreases |s|, k
  {
    var z := Zeros(k) + s;
    if |s| == 0 {
      assert z == Zeros(k);
      if k > 0 {
        assert z[..|z| - 1] == Zeros(k - 1) + s;
        ZerosValue(k - 1, s);
      }
    } else {
      assert z[..|z| - 1] == Zeros(k) + s[..|s| - 1];
      ZerosValue(k, s[..|s| - 1]);
    }
  }

  lemma FormatNatValue(n: nat, width: nat)
    ensures DigitsValue(FormatNat(n, width)) == n
  {
    DecimalValue(n);
    var d := Decimal(n);
    if |d| < width {
      ZerosValue(width - |d|, d);
      assert FormatNat(n, width) == Zeros(width - |d|) + d;
    } else {
      assert FormatNat(n, width) == d;
    }
  }

  /** A number below 10^width is written with exactly `width` characters. */
  lemma FormatNatWidth(n: nat, width: nat)
    requires 1 <= width && n < Pow10(width)
    ensures |FormatNat(n, width)| == width
  {
    DecimalLength(n, width);
  }

  /** Digits with single underscores between them, the form `int()` accepts after an optional sign. */
  predicate IsDigitGroups(s: string) {
    && |s| > 0 && IsDigit(s[0]) && IsDigit(s[|s| - 1])
    && (forall i :: 0 <= i < |s| ==> IsDigit(s[i]) || s[i] == '_')
    && (forall i :: 0 <= i < |s| - 1 ==> IsDigit(s[i]) || IsDigit(s[i + 1]))
  }

  /** The digits of `s`, underscores removed. */
  function DropUnderscores(s: string): (r: string)
    requires forall i :: 0 <= i < |s| ==> IsDigit(s[i]) || s[i] == '_'
    ensures AllDigits(r)
    ensures AllDigits(s) ==> r == s
    decreases |s|
  {
    if |s| == 0 then ""
    else if s[0] == '_' then DropUnderscores(s[1..])
    else [s[0]] + DropUnderscores(s[1..])
  }

  /** Dropping the underscores is `"".join(s.split("_"))`. */
  lemma {:induction false} DropUnderscoresJoins(s: string)
    requires forall i :: 0 <= i < |s| ==> IsDigit(s[i]) || s[i] == '_'
    ensures DropUnderscores(s) == Join("", SplitOn(s, '_'))
    decreases |s|
  {
    if |s| > 0 {
      var rest := SplitOn(s[1..], '_');
      DropUnderscoresJoins(s[1..]);
      if s[0] == '_' {
        assert Join("", [""] + rest) == "" + "" + Join("", rest);
      } else if |rest| == 1 {
        assert Join("", rest) == rest[0];
      } else {
        var parts := [[s[0]] + rest[0]] + rest[1..];
        assert parts[1..] == rest[1..];
        assert Join("", rest) == rest[0] + "" + Join("", rest[1..]);
      }
    }
  }

  /** Dropping the underscores keeps every digit as often as it occurs and removes every
      underscore. */
  lemma {:induction false} DropUnderscoresKeepsDigits(s: string)
    requires forall i :: 0 <= i < |s| ==> IsDigit(s[i]) || s[i] == '_'
    ensures multiset(DropUnderscores(s)) == multiset(s)['_' := 0]
    decreases |s|
  {
    if |s| > 0 {
      DropUnderscoresKeepsDigits(s[1..]);
      assert s == [s[0]] + s[1..];
      assert multiset(s) == multiset{s[0]} + multiset(s[1..]);
    }
  }

  /** Python's `int(s)` on an already stripped ASCII string: an optional sign followed by
      digit groups; `None` stands for the `ValueError` it raises on anything else. */
  function ParseInt(s: string): Option<int> {
    if |s| > 0 && (s[0] == '+' || s[0] == '-') then
      if IsDigitGroups(s[1..]) then
        var v: int := DigitsValue(DropUnderscores(s[1..]));
        Some(if s[0] == '-' then -v else v)
      else None
    else if IsDigitGroups(s) then Some(DigitsValue(DropUnderscores(s)))
    else None
  }

  /** Formatting a number and parsing the text back gives the number: the round trip the
      organizer relies on when it reads a prompted year or month back. */
  lemma ParseFormatNat(n: nat, width: nat)
    ensures ParseInt(FormatNat(n, width)) == Some(n)
  {
    var s := FormatNat(n, width);
    FormatNatValue(n, width);
    assert IsDigitGroups(s);
  }

  /** `int()` raises on an empty string, on a string that does not end in a digit ("12_",
      "+", "7a"), and on a string holding a character that is neither a digit nor `_` past
      its sign. */
  lemma ParseIntRejects(s: string, i: nat)
    requires i < |s|
    requires !IsDigit(s[i]) && s[i] != '_' && (i > 0 || (s[0] != '+' && s[0] != '-'))
    ensures ParseInt(s) == None
    ensures ParseInt("") == None && ParseInt(s + "_") == None
  {
  }
}
