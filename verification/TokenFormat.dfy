/** Printing six-decimal token amounts with trailing zeros trimmed, and reading them back. */
module TokenFormat {

  const UNITS: nat := 1_000_000

  function Digit(d: nat): (c: char)
    requires d < 10
    ensures '0' <= c <= '9'
  {
    '0' + d as char
  }

  function Value(c: char): (r: nat) {
    if '0' <= c <= '9' then (c - '0') as nat else 0
  }

  /** Plain decimal, as printed by "{}". */
  function Decimal(n: nat): (s: string)
    ensures s != [] && forall i :: 0 <= i < |s| ==> '0' <= s[i] <= '9'
  {
    if n < 10 then [Digit(n)] else Decimal(n / 10) + [Digit(n % 10)]
  }

  function Read(s: string): (r: nat) {
    if s == [] then 0 else Read(s[..|s| - 1]) * 10 + Value(s[|s| - 1])
  }

  function Zeros(n: nat): (s: string)
    ensures |s| == n && forall i :: 0 <= i < n ==> s[i] == '0'
  {
    if n == 0 then [] else ['0'] + Zeros(n - 1)
  }

  /** "{:06}" */
  function PadLeft(s: string): (r: string) {
    if |s| < 6 then Zeros(6 - |s|) + s else s
  }

  function PadRight(s: string): (r: string) {
    if |s| < 6 then s + Zeros(6 - |s|) else s
  }

  function TrimZeros(s: string): (r: string)
    ensures r <= s
    ensures forall i :: |r| <= i < |s| ==> s[i] == '0'
    ensures r != [] ==> r[|r| - 1] != '0'
  {
    if s != [] && s[|s| - 1] == '0' then TrimZeros(s[..|s| - 1]) else s
  }

  function FormatTokenBalance(wei: nat): (s: string) {
    var trimmed := TrimZeros(PadLeft(Decimal(wei % UNITS)));
    if trimmed == [] then Decimal(wei / UNITS) else Decimal(wei / UNITS) + ['.'] + trimmed
  }

  /** Where the point is, or the length if there is none. */
  function Point(s: string): (k: nat)
    ensures k <= |s| && (forall i :: 0 <= i < k ==> s[i] != '.') && (k < |s| ==> s[k] == '.')
  {
    if s == [] || s[0] == '.' then 0 else 1 + Point(s[1..])
  }

  /** Split at the point and right-pad the fraction to six digits. */
  function ParseTokenBalance(s: string): (r: nat) {
    var k := Point(s);
    Read(s[..k]) * UNITS + (if k < |s| then Read(PadRight(s[k + 1..])) else 0)
  }

  // ----- the round trip

  lemma {:induction false} ReadDecimal(n: nat)
    ensures Read(Decimal(n)) == n
  {
    if n >= 10 {
      ReadDecimal(n / 10);
      var s := Decimal(n / 10);
      assert (s + [Digit(n % 10)])[..|s|] == s;
    } else {
      assert [Digit(n)][..0] == [];
    }
  }

  lemma {:induction false} ReadLeadingZeros(k: nat, s: string)
    ensures Read(Zeros(k) + s) == Read(s)
  {
    if s == [] {
      assert Zeros(k) + s == Zeros(k);
      ReadZeros(k);
    } else {
      var front := s[..|s| - 1];
      ReadLeadingZeros(k, front);
      assert (Zeros(k) + s)[..k + |s| - 1] == Zeros(k) + front;
    }
  }

  lemma {:induction false} ReadZeros(k: nat)
    ensures Read(Zeros(k)) == 0
  {
    if k > 0 {
      ReadZeros(k - 1);
      assert Zeros(k)[..k - 1] == Zeros(k - 1);
    }
  }

  /** Below ten to the k, at most k digits. */
  lemma {:induction false} Short(n: nat, k: nat)
    requires 1 <= k && n < Power(k)
    ensures |Decimal(n)| <= k
    decreases k
  {
    if n >= 10 && k > 1 {
      Short(n / 10, k - 1);
    }
  }

  function Power(k: nat): (r: nat) {
    if k == 0 then 1 else 10 * Power(k - 1)
  }

  lemma PowerOfSix()
    ensures Power(6) == UNITS
  {
    assert Power(1) == 10;
    assert Power(2) == 100;
    assert Power(3) == 1000;
    assert Power(4) == 10_000;
    assert Power(5) == 100_000;
  }

  lemma PadToSix(s: string)
    requires |s| <= 6
    ensures |PadLeft(s)| == 6 && Read(PadLeft(s)) == Read(s)
  {
    if |s| < 6 { ReadLeadingZeros(6 - |s|, s); }
  }

  lemma SixDigits(n: nat)
    requires n < UNITS
    ensures |PadLeft(Decimal(n))| == 6 && Read(PadLeft(Decimal(n))) == n
  {
    PowerOfSix();
    Short(n, 6);
    ReadDecimal(n);
    PadToSix(Decimal(n));
  }

  lemma TrimThenPad(s: string)
    requires |s| == 6
    ensures PadRight(TrimZeros(s)) == s
  {
    var t := TrimZeros(s);
    assert s == s[..|t|] + s[|t|..];
    assert s[|t|..] == Zeros(6 - |t|);
  }

  lemma {:induction false} PointAfter(a: string, b: string)
    requires forall i :: 0 <= i < |a| ==> a[i] != '.'
    ensures Point(a + ['.'] + b) == |a| && Point(a) == |a|
  {
    if a != [] {
      PointAfter(a[1..], b);
      assert (a + ['.'] + b)[1..] == a[1..] + ['.'] + b;
    }
  }

  /** Reading text with and without a point. */
  lemma ParsePrinted(whole: string, fraction: string)
    requires forall i :: 0 <= i < |whole| ==> '0' <= whole[i] <= '9'
    ensures ParseTokenBalance(whole) == Read(whole) * UNITS
    ensures ParseTokenBalance(whole + ['.'] + fraction) == Read(whole) * UNITS + Read(PadRight(fraction))
  {
    PointAfter(whole, fraction);
    var s := whole + ['.'] + fraction;
    assert whole[..|whole|] == whole && s[..|whole|] == whole && s[|whole| + 1..] == fraction;
  }

  /** Nothing is lost in print: every amount is read back exactly. */
  lemma FormatRoundTrip(wei: nat)
    ensures ParseTokenBalance(FormatTokenBalance(wei)) == wei
  {
    var whole, padded := Decimal(wei / UNITS), PadLeft(Decimal(wei % UNITS));
    var trimmed := TrimZeros(padded);
    SixDigits(wei % UNITS);
    TrimThenPad(padded);
    ReadDecimal(wei / UNITS);
    ParsePrinted(whole, trimmed);
    if trimmed == [] {
      assert padded == Zeros(6);
      ReadZeros(6);
    }
  }

  /** So no two amounts print alike, despite the trimming. */
  lemma FormatIsInjective(a: nat, b: nat)
    requires FormatTokenBalance(a) == FormatTokenBalance(b)
    ensures a == b
  {
    FormatRoundTrip(a);
    FormatRoundTrip(b);
  }

  /** The print is canonical: no trailing zero after a point, and no bare point. */
  lemma FormatIsCanonical(wei: nat)
    ensures var s := FormatTokenBalance(wei);
            && s != [] && s[|s| - 1] != '.'
            && (Point(s) < |s| ==> s[|s| - 1] != '0' && |s| - Point(s) - 1 <= 6)
  {
    var whole, padded := Decimal(wei / UNITS), PadLeft(Decimal(wei % UNITS));
    SixDigits(wei % UNITS);
    PaddedDigits(Decimal(wei % UNITS));
    EndsRight(whole, TrimZeros(padded));
  }

  // ----- the only print

  predicate Digits(s: string) {
    forall i :: 0 <= i < |s| ==> '0' <= s[i] <= '9'
  }

  /** Digits without a leading zero, then nothing, or a point and one to six digits of
      which the last is not zero. */
  predicate IsPrint(s: string) {
    var k := Point(s);
    && k > 0 && Digits(s[..k]) && (s[0] == '0' ==> k == 1)
    && (k < |s| ==> 1 <= |s| - k - 1 <= 6 && Digits(s[k + 1..]) && s[|s| - 1] != '0')
  }

  lemma {:induction false} ReadBelow(s: string)
    requires Digits(s)
    ensures Read(s) < Power(|s|)
  {
    if s != [] {
      ReadBelow(s[..|s| - 1]);
    }
  }

  /** Digits of the same number, equally many, are the same. */
  lemma {:induction false} ReadIsInjective(s: string, t: string)
    requires Digits(s) && Digits(t) && |s| == |t| && Read(s) == Read(t)
    ensures s == t
  {
    if s != [] {
      var n := |s| - 1;
      LastDigit(s[..n], s[n], t[..n], t[n]);
      ReadIsInjective(s[..n], t[..n]);
      assert s == s[..n] + [s[n]] && t == t[..n] + [t[n]];
    }
  }

  lemma LastDigit(s: string, c: char, t: string, d: char)
    requires '0' <= c <= '9' && '0' <= d <= '9' && Read(s) * 10 + Value(c) == Read(t) * 10 + Value(d)
    ensures Read(s) == Read(t) && c == d
  {
    assert Value(c) < 10 && Value(d) < 10;
    assert Read(s) == Read(t);
    assert (c - '0') as nat == (d - '0') as nat;
  }

  lemma {:induction false} NoLeadingZero(s: string)
    requires Digits(s) && s != [] && s[0] != '0'
    ensures Read(s) >= 1
  {
    var n := |s| - 1;
    if n > 0 {
      NoLeadingZero(s[..n]);
    } else {
      assert Value(s[0]) >= 1;
    }
  }

  /** Decimal gives the only digits of a number without a leading zero. */
  lemma {:induction false} DecimalIsOnly(s: string)
    requires Digits(s) && s != [] && (s[0] == '0' ==> |s| == 1)
    ensures Decimal(Read(s)) == s
  {
    var n := |s| - 1;
    var front, v := s[..n], Value(s[n]);
    assert Digit(v) == s[n];
    if n == 0 {
      assert Read(front) == 0;
      assert s == [Digit(v)];
    } else {
      NoLeadingZero(front);
      DecimalIsOnly(front);
      assert Read(s) / 10 == Read(front) && Read(s) % 10 == v;
      assert s == front + [s[n]];
    }
  }

  lemma {:induction false} NoZeroToTrim(s: string, n: nat)
    requires s != [] ==> s[|s| - 1] != '0'
    ensures TrimZeros(s + Zeros(n)) == s
  {
    if n == 0 {
      assert s + Zeros(0) == s;
    } else {
      ZerosEnd(n);
      assert (s + Zeros(n))[..|s| + n - 1] == s + Zeros(n - 1);
      NoZeroToTrim(s, n - 1);
    }
  }

  lemma ZerosEnd(n: nat)
    requires n > 0
    ensures Zeros(n)[..n - 1] == Zeros(n - 1) && Zeros(n)[n - 1] == '0'
  {
  }

  lemma TrimsBack(fraction: string)
    requires |fraction| <= 6 && (fraction != [] ==> fraction[|fraction| - 1] != '0')
    ensures TrimZeros(PadRight(fraction)) == fraction
  {
    NoZeroToTrim(fraction, 6 - |fraction|);
    assert fraction + Zeros(0) == fraction;
  }

  /** A fraction that reads as n, padded, is the padded print of n; trimmed, itself. */
  lemma FractionIsOnly(fraction: string, n: nat)
    requires Digits(fraction) && |fraction| <= 6 && (fraction != [] ==> fraction[|fraction| - 1] != '0')
    requires n < UNITS && Read(PadRight(fraction)) == n
    ensures TrimZeros(PadLeft(Decimal(n))) == fraction
  {
    SixDigits(n);
    PaddedDigits(Decimal(n));
    PaddedFraction(fraction);
    ReadIsInjective(PadRight(fraction), PadLeft(Decimal(n)));
    TrimsBack(fraction);
  }

  lemma WholeAndFraction(w: nat, f: nat, wei: nat)
    requires f < UNITS && w * UNITS + f == wei
    ensures wei / UNITS == w && wei % UNITS == f
  {
  }

  function FractionOf(s: string): (r: string) {
    if Point(s) < |s| then s[Point(s) + 1..] else []
  }

  /** A print taken apart. */
  lemma PrintParts(s: string)
    requires IsPrint(s)
    ensures var whole, fraction := s[..Point(s)], FractionOf(s);
            && s == (if fraction == [] then whole else whole + ['.'] + fraction)
            && Digits(fraction) && |fraction| <= 6 && (fraction != [] ==> fraction[|fraction| - 1] != '0')
            && ParseTokenBalance(s) == Read(whole) * UNITS + Read(PadRight(fraction))
  {
    if Point(s) == |s| {
      ReadZeros(6);
      assert [] + Zeros(6) == Zeros(6);
    }
  }

  lemma OnlyPrint(s: string)
    requires IsPrint(s)
    ensures s == FormatTokenBalance(ParseTokenBalance(s))
  {
    var whole, fraction := s[..Point(s)], FractionOf(s);
    PrintParts(s);
    DecimalIsOnly(whole);
    PaddedFraction(fraction);
    var f := Read(PadRight(fraction));
    WholeAndFraction(Read(whole), f, ParseTokenBalance(s));
    FractionIsOnly(fraction, f);
  }

  lemma PaddedFraction(fraction: string)
    requires Digits(fraction) && |fraction| <= 6
    ensures |PadRight(fraction)| == 6 && Digits(PadRight(fraction)) && Read(PadRight(fraction)) < UNITS
  {
    PowerOfSix();
    ReadBelow(PadRight(fraction));
  }

  lemma FormatIsPrint(wei: nat)
    ensures IsPrint(FormatTokenBalance(wei))
  {
    var whole, padded := Decimal(wei / UNITS), PadLeft(Decimal(wei % UNITS));
    SixDigits(wei % UNITS);
    PaddedDigits(Decimal(wei % UNITS));
    DecimalLeads(wei / UNITS);
    PrintShape(whole, TrimZeros(padded));
  }

  lemma PrintShape(whole: string, fraction: string)
    requires Digits(whole) && whole != [] && (whole[0] == '0' ==> |whole| == 1)
    requires Digits(fraction) && |fraction| <= 6 && (fraction != [] ==> fraction[|fraction| - 1] != '0')
    ensures IsPrint(whole)
    ensures fraction != [] ==> IsPrint(whole + ['.'] + fraction)
  {
    EndsRight(whole, fraction);
    var s := whole + ['.'] + fraction;
    assert whole[..|whole|] == whole;
    assert s[..|whole|] == whole && s[|whole| + 1..] == fraction && s[0] == whole[0];
  }

  lemma {:induction false} DecimalLeads(n: nat)
    ensures Decimal(n)[0] == '0' ==> n == 0 && |Decimal(n)| == 1
  {
    if n >= 10 {
      DecimalLeads(n / 10);
      assert Decimal(n)[0] == Decimal(n / 10)[0];
    } else {
      assert Decimal(n) == [Digit(n)];
    }
  }

  /** The format of an amount is the one print that reads back as it: no other text of
      that shape does. */
  lemma FormatIsTheOnlyPrint(s: string, wei: nat)
    ensures s == FormatTokenBalance(wei) <==> IsPrint(s) && ParseTokenBalance(s) == wei
  {
    if IsPrint(s) {
      OnlyPrint(s);
    }
    FormatIsPrint(wei);
    FormatRoundTrip(wei);
  }

  lemma PaddedDigits(s: string)
    requires forall i :: 0 <= i < |s| ==> '0' <= s[i] <= '9'
    ensures forall i :: 0 <= i < |PadLeft(s)| ==> '0' <= PadLeft(s)[i] <= '9'
  {
  }

  lemma EndsRight(whole: string, fraction: string)
    requires whole != [] && forall i :: 0 <= i < |whole| ==> '0' <= whole[i] <= '9'
    ensures Point(whole) == |whole| && whole[|whole| - 1] != '.'
    ensures var s := whole + ['.'] + fraction;
            Point(s) == |whole| && |s| == |whole| + 1 + |fraction|
            && (fraction != [] ==> s[|s| - 1] == fraction[|fraction| - 1])
  {
    PointAfter(whole, fraction);
  }
}
