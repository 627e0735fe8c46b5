/**
 * What an amount text is taken to mean, by the place of its sign.  A text without a sign,
 * or with the sign first, means what it says.  A sign anywhere else is taken too, but then
 * the first character is skipped in its place.
 */
module AmountSigns {
  import opened Wrappers
  import opened Prices
  import opened AmountText

  /** The largest precision an asset can have. */
  const MAX_PRECISION := 12

  /** The position of the sign, or the length if there is none. */
  function SignAt(s: string): (p: nat)
    ensures p <= |s| && (forall i :: 0 <= i < p ==> s[i] != '-') && (p < |s| ==> s[p] == '-')
  {
    if s == "" || s[0] == '-' then 0 else 1 + SignAt(s[1..])
  }

  /** The text has no sign, or starts with it. */
  predicate SignInOrder(s: string) {
    SignAt(s) == |s| || SignAt(s) == 0
  }

  /** What stands after the point. */
  function AfterPoint(s: string): string {
    if PointAt(s) < |s| then s[PointAt(s) + 1..] else ""
  }

  /** Digits between two positions. */
  lemma DigitsBetween(s: string, i: nat, j: nat)
    requires WellFormed(s) && i <= j <= |s|
    requires !(i <= SignAt(s) < j) && !(i <= PointAt(s) < j)
    ensures AllDigits(s[i..j])
  {
    forall k | 0 <= k < j - i ensures IsDigit(s[i..j][k]) {
      OnlyOneSign(s, i + k);
    }
  }

  /** The sign and the point are where they are found and nowhere else. */
  lemma OnlyOneSign(s: string, k: nat)
    requires WellFormed(s) && k < |s|
    ensures IsDigit(s[k]) || k == SignAt(s) || k == PointAt(s)
  {
  }

  /** Digits that something else follows are what is read of a text. */
  lemma {:induction false} PrefixIs(s: string, n: nat)
    requires n <= |s| && AllDigits(s[..n]) && (n < |s| ==> !IsDigit(s[n]))
    ensures DigitPrefix(s) == s[..n]
    decreases n
  {
    if n > 0 {
      assert s[0] == s[..n][0];
      assert s[1..][..n - 1] == s[..n][1..];
      PrefixIs(s[1..], n - 1);
      assert s[..n] == [s[0]] + s[1..][..n - 1];
    }
  }

  lemma {:induction false} ValueIsBelow(s: string)
    requires AllDigits(s)
    ensures Value(s) < Pow10(|s|)
  {
    if s != "" { ValueIsBelow(s[..|s| - 1]); }
  }

  /** Digits followed by zeros. */
  function Padded(s: string, precision: nat): (v: nat)
    requires AllDigits(s) && |s| <= precision
  {
    Value(s) * Pow10(precision - |s|)
  }

  lemma PaddedValue(s: string, n: nat)
    requires AllDigits(s)
    ensures AllDigits(s + Zeros(n)) && Value(s + Zeros(n)) == Value(s) * Pow10(n)
  {
    ZerosAreNothing(Zeros(n));
    ValueOfParts(s, Zeros(n));
  }

  /** Digits alone, or with something after them, are read as their value. */
  lemma ReadDigits(s: string, n: nat)
    requires 0 < n <= |s| && AllDigits(s[..n]) && (n < |s| ==> !IsDigit(s[n]))
    ensures ReadInt(s) == Checked(Value(s[..n]))
  {
    hide DigitPrefix, Value;
    assert IsDigit(s[..n][0]) && s[0] == s[..n][0];
    PrefixIs(s, n);
  }

  /** A sign and digits are read as the negative value, a sign without digits as nothing. */
  lemma ReadSigned(s: string, n: nat)
    requires n < |s| && s[0] == '-' && AllDigits(s[1..n + 1]) && (n + 1 < |s| ==> !IsDigit(s[n + 1]))
    ensures ReadInt(s) == if n == 0 then None else Checked(0 - Value(s[1..n + 1]))
  {
    hide DigitPrefix, Value;
    assert s[1..][..n] == s[1..n + 1];
    PrefixIs(s[1..], n);
  }

  lemma ReadNothing(s: string)
    requires s != "" && !IsDigit(s[0]) && s[0] != '-'
    ensures ReadInt(s) == None
  {
  }

  // Texts that say what they mean

  /** The digits before the point. */
  function Body(s: string): string {
    var start := if SignAt(s) == 0 < |s| then 1 else 0;
    if start <= PointAt(s) then s[start..PointAt(s)] else ""
  }

  /**
   * The meaning of a text whose sign is in order: the signed decimal value, if there are not
   * too many places and it is within the limit.  Only a sign directly before a point is refused.
   */
  function Meaning(precision: nat, s: string): Option<int>
    requires AllDigits(Body(s)) && AllDigits(AfterPoint(s))
  {
    if |AfterPoint(s)| > precision || (SignAt(s) == 0 && PointAt(s) == 1 < |s|) then None
    else
      var t := Value(Body(s)) * Pow10(precision) + Padded(AfterPoint(s), precision);
      if t > MAX_SHARE_SUPPLY then None else Some(if SignAt(s) == 0 < |s| then 0 - t else t)
  }

  lemma PartsAreDigits(s: string)
    requires WellFormed(s) && SignInOrder(s)
    ensures AllDigits(Body(s)) && AllDigits(AfterPoint(s))
  {
    var point := PointAt(s);
    var start := if SignAt(s) == 0 < |s| then 1 else 0;
    if start <= point { DigitsBetween(s, start, point); }
    if point < |s| { DigitsBetween(s, point + 1, |s|); }
  }

  lemma SignIsFound(s: string)
    ensures '-' in s <==> SignAt(s) < |s|
  {
  }

  /** A text without a sign, or with the sign first, is read as what it says, or refused. */
  lemma {:induction false} ReadsWhatItSays(precision: nat, s: string)
    requires WellFormed(s) && SignInOrder(s)
    ensures AllDigits(Body(s)) && AllDigits(AfterPoint(s)) && Parse(precision, s) == Meaning(precision, s)
  {
    hide WellFormed, PointAt, SignAt, Value, Pow10, WholePart, Fraction, Body, AfterPoint, Padded, Parse, AllDigits, Meaning;
    PartsAreDigits(s);
    SignIsFound(s);
    ReadsWhole(precision, s);
    ReadsFraction(precision, s);
    Combined(precision, s, Value(Body(s)) * Pow10(precision));
  }

  /** What follows from how the two parts are read. */
  lemma {:induction false} Combined(precision: nat, s: string, whole: nat)
    requires WellFormed(s) && SignInOrder(s) && AllDigits(Body(s)) && AllDigits(AfterPoint(s))
    requires '-' in s <==> SignAt(s) == 0 < |s|
    requires whole == Value(Body(s)) * Pow10(precision)
    requires WholePart(precision, s) == if SignAt(s) == 0 && PointAt(s) == 1 < |s| then None else Checked(whole)
    requires Fraction(precision, s) == if |AfterPoint(s)| > precision then None else Checked(Padded(AfterPoint(s), precision))
    ensures Parse(precision, s) == Meaning(precision, s)
  {
    hide WellFormed, PointAt, SignAt, Value, Pow10, WholePart, Fraction, Body, AfterPoint, Padded, AllDigits;
  }

  lemma {:induction false} ReadsWhole(precision: nat, s: string)
    requires WellFormed(s) && SignInOrder(s) && AllDigits(Body(s))
    ensures WholePart(precision, s)
            == if SignAt(s) == 0 && PointAt(s) == 1 < |s| then None else Checked(Value(Body(s)) * Pow10(precision))
  {
    hide WellFormed, PointAt, SignAt, Value, Pow10, ReadInt;
    SignIsFound(s);
    var point := PointAt(s);
    var start := if SignAt(s) == 0 < |s| then 1 else 0;
    var end := if point < |s| && start + point < |s| then start + point else |s|;
    var lhs := if start <= end then s[start..end] else "";
    var body := Body(s);
    assert start <= point by { if start == 1 { assert s[0] == '-'; } }
    if body != "" {
      assert lhs[..|body|] == body && (|body| < |lhs| ==> lhs[|body|] == '.');
      ReadDigits(lhs, |body|);
      ScaledIs(Value(body), precision);
    } else if lhs != "" {
      assert lhs[0] == '.';
      ReadNothing(lhs);
    } else {
      ZerosAreNothing(body);
    }
  }

  /** A whole number in the smallest unit, if both fit in 64 bits. */
  function Scaled(v: int, precision: nat): Option<int> {
    if Checked(v).None? then None else Checked(v * Pow10(precision))
  }

  lemma {:induction false} ScaledIs(v: nat, precision: nat)
    ensures Scaled(v, precision) == Checked(v * Pow10(precision))
  {
    MulMono(1, Pow10(precision), v);
  }

  lemma {:induction false} ReadsFraction(precision: nat, s: string)
    requires WellFormed(s) && AllDigits(AfterPoint(s))
    ensures Fraction(precision, s)
            == if |AfterPoint(s)| > precision then None else Checked(Padded(AfterPoint(s), precision))
  {
    hide WellFormed, PointAt, Value, Pow10, ReadInt;
    var rhs := AfterPoint(s);
    if |rhs| <= precision {
      PaddedValue(rhs, precision - |rhs|);
      if rhs == "" { ZerosAreNothing(rhs); }
      if PointAt(s) < |s| && precision > 0 {
        var t := rhs + Zeros(precision - |rhs|);
        assert t[..|t|] == t;
        ReadDigits(t, |t|);
      }
    }
  }

  // Texts with the sign in the wrong place

  /** Where the digits after the first character end: at the sign, the point or the end. */
  function FirstStop(s: string): nat {
    if SignAt(s) < PointAt(s) then SignAt(s) else PointAt(s)
  }

  /** Parts of a text whose sign is not first, as far as they are digits. */
  lemma MisplacedParts(s: string)
    requires WellFormed(s) && 0 < SignAt(s) < |s|
    ensures PointAt(s) != SignAt(s)
    ensures 0 < PointAt(s) ==> IsDigit(s[0]) && AllDigits(s[1..FirstStop(s)])
    ensures SignAt(s) < PointAt(s) ==> AllDigits(s[SignAt(s) + 1..PointAt(s)]) && AllDigits(AfterPoint(s))
    ensures PointAt(s) < SignAt(s) ==> AllDigits(s[PointAt(s) + 1..SignAt(s)]) && AllDigits(s[SignAt(s) + 1..])
  {
    hide AllDigits, WellFormed, PointAt, SignAt;
    if SignAt(s) < PointAt(s) { SignBeforePoint(s); } else { PointBeforeSign(s); }
  }

  lemma {:induction false} SignBeforePoint(s: string)
    requires WellFormed(s) && 0 < SignAt(s) < |s| && SignAt(s) < PointAt(s)
    ensures IsDigit(s[0]) && AllDigits(s[1..SignAt(s)])
    ensures AllDigits(s[SignAt(s) + 1..PointAt(s)]) && AllDigits(AfterPoint(s))
  {
    hide WellFormed, PointAt, SignAt;
    var sign, point := SignAt(s), PointAt(s);
    DigitsBetween(s, 0, sign);
    DigitsBetween(s, 1, sign);
    DigitsBetween(s, sign + 1, point);
    if point < |s| { DigitsBetween(s, point + 1, |s|); }
    assert s[0] == s[0..sign][0];
  }

  lemma {:induction false} PointBeforeSign(s: string)
    requires WellFormed(s) && 0 < SignAt(s) < |s| && PointAt(s) <= SignAt(s)
    ensures PointAt(s) < SignAt(s)
    ensures 0 < PointAt(s) ==> IsDigit(s[0]) && AllDigits(s[1..PointAt(s)])
    ensures AllDigits(s[PointAt(s) + 1..SignAt(s)]) && AllDigits(s[SignAt(s) + 1..])
  {
    hide WellFormed, PointAt, SignAt;
    var sign, point := SignAt(s), PointAt(s);
    assert s[sign] == '-' && s[point] == '.';
    if point > 0 {
      DigitsBetween(s, 0, point);
      DigitsBetween(s, 1, point);
      assert s[0] == s[0..point][0];
    }
    DigitsBetween(s, point + 1, sign);
    DigitsBetween(s, sign + 1, |s|);
  }

  /**
   * What is read as the whole part: the digits after the first character; without any, the
   * digits after the sign, as a negative number, if the sign follows the first character.
   */
  function MisreadWhole(precision: nat, s: string): Option<int>
    requires WellFormed(s) && 0 < SignAt(s) < |s|
  {
    MisplacedParts(s);
    if PointAt(s) == 0 then Some(0)
    else if FirstStop(s) > 1 then Scaled(Value(s[1..FirstStop(s)]), precision)
    else if SignAt(s) == 1 && PointAt(s) > 2 then Scaled(0 - Value(s[2..PointAt(s)]), precision)
    else None
  }

  /**
   * What is read as the fraction: all of it, if the sign is before the point; otherwise the
   * digits before the sign, as a whole number of smallest units, or, if there are none, the
   * digits after it, as a negative number.
   */
  function MisreadFraction(precision: nat, s: string): Option<int>
    requires WellFormed(s) && 0 < SignAt(s) < |s|
  {
    MisplacedParts(s);
    var sign, point := SignAt(s), PointAt(s);
    if |AfterPoint(s)| > precision then None
    else if sign < point then Checked(Padded(AfterPoint(s), precision))
    else if sign > point + 1 then Checked(Value(s[point + 1..sign]))
    else if precision == 1 then None
    else Checked(0 - Padded(s[sign + 1..], precision - 1))
  }

  /** A text with the sign in the wrong place is read as this, negated. */
  function Misread(precision: nat, s: string): Option<int>
    requires WellFormed(s) && 0 < SignAt(s) < |s|
  {
    Total(MisreadWhole(precision, s), MisreadFraction(precision, s), true)
  }

  lemma {:induction false} MisplacedSign(precision: nat, s: string)
    requires WellFormed(s) && 0 < SignAt(s) < |s|
    ensures Parse(precision, s) == Misread(precision, s)
  {
    hide WellFormed, PointAt, SignAt, Value, Pow10, WholePart, Fraction, MisreadWhole, MisreadFraction;
    SignIsFound(s);
    WholeIsMisread(precision, s);
    FractionIsMisread(precision, s);
  }

  lemma PartOfPart(s: string, a: nat, b: nat, i: nat, j: nat)
    requires a <= b <= |s| && i <= j <= b - a
    ensures s[a..b][i..j] == s[a + i..a + j]
  {
    var t, u := s[a..b][i..j], s[a + i..a + j];
    assert |t| == |u|;
    forall k | 0 <= k < |t| ensures t[k] == u[k] {
      assert t[k] == s[a..b][i + k] == s[a + i + k];
    }
  }

  lemma {:induction false} WholeIsMisread(precision: nat, s: string)
    requires WellFormed(s) && 0 < SignAt(s) < |s|
    ensures WholePart(precision, s) == MisreadWhole(precision, s)
  {
    hide WellFormed, PointAt, SignAt, ReadWhole, MisreadWhole;
    SignIsFound(s);
    var point := PointAt(s);
    var end := if point < |s| && 1 + point < |s| then 1 + point else |s|;
    WholeFrom(precision, s, end);
  }

  lemma {:induction false} WholeFrom(precision: nat, s: string, end: nat)
    requires WellFormed(s) && 0 < SignAt(s) < |s|
    requires end == if PointAt(s) < |s| && 1 + PointAt(s) < |s| then 1 + PointAt(s) else |s|
    ensures ReadWhole(precision, s[1..end]) == MisreadWhole(precision, s)
  {
    hide WellFormed, PointAt, SignAt, Value, Pow10, ReadInt, AllDigits;
    MisplacedParts(s);
    var sign, point, stop, lhs := SignAt(s), PointAt(s), FirstStop(s), s[1..end];
    if point == 0 {
      assert lhs == "";
    } else if stop > 1 {
      PartOfPart(s, 1, end, 0, stop - 1);
      assert lhs[..stop - 1] == s[1..stop] && (stop - 1 < |lhs| ==> lhs[stop - 1] == s[stop]);
      ReadDigits(lhs, stop - 1);
    } else if sign == 1 {
      PartOfPart(s, 1, end, 1, point - 1);
      assert lhs[0] == s[1] && (point - 1 < |lhs| ==> lhs[point - 1] == s[point]);
      ReadSigned(lhs, point - 2);
    } else {
      assert lhs[0] == s[1];
      ReadNothing(lhs);
    }
  }

  lemma {:induction false} FractionIsMisread(precision: nat, s: string)
    requires WellFormed(s) && 0 < SignAt(s) < |s|
    ensures Fraction(precision, s) == MisreadFraction(precision, s)
  {
    hide WellFormed, PointAt, SignAt, Value, Pow10, ReadInt;
    MisplacedParts(s);
    var sign, point, rhs := SignAt(s), PointAt(s), AfterPoint(s);
    if sign < point {
      ReadsFraction(precision, s);
    } else if |rhs| <= precision {
      var t := rhs + Zeros(precision - |rhs|);
      if sign > point + 1 {
        assert t[..sign - point - 1] == s[point + 1..sign];
        ReadDigits(t, sign - point - 1);
      } else {
        var v := s[sign + 1..];
        assert rhs == [s[sign]] + v;
        assert t == [s[sign]] + (v + Zeros(precision - |rhs|));
        PaddedValue(v, precision - |rhs|);
        assert t[1..precision] == t[1..];
        ReadSigned(t, precision - 1);
      }
    }
  }

  /** With the sign in the wrong place, it does not matter which digit the text starts with. */
  lemma {:induction false} FirstDigitIsIgnored(precision: nat, c: char, d: char, t: string)
    requires IsDigit(c) && IsDigit(d) && '-' in t
    ensures Parse(precision, [c] + t) == Parse(precision, [d] + t)
  {
    hide WellFormed, WholePart, Fraction, PointAt, ReadWhole, Total;
    FirstDigitForm(c, d, t);
    FirstDigitParts(precision, c, t);
    FirstDigitParts(precision, d, t);
  }

  /** What the parts are read from when the text starts with a digit and the sign is in the rest. */
  lemma {:induction false} FirstDigitParts(precision: nat, c: char, t: string)
    requires IsDigit(c) && '-' in t
    ensures '-' in [c] + t && Fraction(precision, [c] + t) == Fraction(precision, t)
    ensures WholePart(precision, [c] + t) == ReadWhole(precision, t[..if PointAt(t) < |t| then PointAt(t) + 1 else |t|])
  {
    hide ReadWhole, PointAt, Fraction;
    var s := [c] + t;
    PointAfterDigit(c, t);
    FractionAfterDigit(precision, c, t);
    var k :| 0 <= k < |t| && t[k] == '-';
    assert s[k + 1] == '-';
    var point, p := PointAt(s), PointAt(t);
    var end := if point < |s| && 1 + point < |s| then 1 + point else |s|;
    assert s[1..end] == t[..if p < |t| then p + 1 else |t|];
  }

  lemma {:induction false} FractionAfterDigit(precision: nat, c: char, t: string)
    requires IsDigit(c)
    ensures Fraction(precision, [c] + t) == Fraction(precision, t)
  {
    hide ReadInt, Zeros, PointAt;
    PointAfterDigit(c, t);
    if PointAt(t) < |t| { assert ([c] + t)[PointAt([c] + t) + 1..] == t[PointAt(t) + 1..]; }
  }

  lemma PointAfterDigit(c: char, t: string)
    requires IsDigit(c)
    ensures PointAt([c] + t) == 1 + PointAt(t)
  {
    assert ([c] + t)[1..] == t;
  }

  lemma {:induction false} FirstDigitForm(c: char, d: char, t: string)
    requires IsDigit(c) && IsDigit(d)
    ensures WellFormed([c] + t) == WellFormed([d] + t)
  {
    FormOfRest(c, t);
    FormOfRest(d, t);
  }

  lemma {:induction false} FormOfRest(c: char, t: string)
    requires IsDigit(c)
    ensures WellFormed([c] + t) == WellFormed(t)
  {
    var s := [c] + t;
    assert forall i :: 0 <= i < |t| ==> s[i + 1] == t[i];
    if WellFormed(t) {
      forall i, j | 0 <= i < j < |s| && s[i] == s[j] ensures IsDigit(s[i]) {
        if i > 0 { assert t[i - 1] == t[j - 1]; }
      }
    }
  }

  // The limit

  /** The sign follows a digit that the text starts with. */
  predicate SignSecond(s: string) {
    |s| > 1 && IsDigit(s[0]) && s[1] == '-'
  }

  lemma {:induction false} Pow10Mono(j: nat, k: nat)
    requires j <= k
    ensures Pow10(j) <= Pow10(k)
    decreases k
  {
    if j < k { Pow10Mono(j, k - 1); }
  }

  lemma PaddedIsBelow(s: string, precision: nat)
    requires AllDigits(s) && |s| <= precision
    ensures Padded(s, precision) < Pow10(precision)
  {
    PaddedValue(s, precision - |s|);
    ValueIsBelow(s + Zeros(precision - |s|));
  }

  lemma LargestScale(precision: nat)
    requires precision <= MAX_PRECISION
    ensures Pow10(precision) <= 1_000_000_000_000
  {
    Pow10Mono(precision, MAX_PRECISION);
    assert Pow10(12) == 1000 * Pow10(9) && Pow10(9) == 1000 * Pow10(6) && Pow10(6) == 1000 * Pow10(3) && Pow10(3) == 1000;
  }

  /** Unless the sign follows a first digit, every accepted amount is within the limit. */
  lemma {:induction false} WithinLimit(precision: nat, s: string)
    requires precision <= MAX_PRECISION && WellFormed(s) && !SignSecond(s)
    ensures Parse(precision, s).Some? ==> 0 - MAX_SHARE_SUPPLY <= Parse(precision, s).value <= MAX_SHARE_SUPPLY
  {
    hide WellFormed, PointAt, SignAt, Parse, Value, Pow10, MisreadWhole, MisreadFraction, SignSecond, Body, AfterPoint, Padded;
    if SignInOrder(s) {
      ReadsWhatItSays(precision, s);
    } else {
      MisplacedSign(precision, s);
      MisreadIsLow(precision, s);
    }
  }

  lemma {:induction false} MisreadIsLow(precision: nat, s: string)
    requires precision <= MAX_PRECISION && WellFormed(s) && 0 < SignAt(s) < |s| && !SignSecond(s)
    ensures Misread(precision, s).Some? ==> Misread(precision, s).value <= MAX_SHARE_SUPPLY
  {
    hide PointAt, SignAt, Value, Pow10;
    MisplacedParts(s);
    var sign, point := SignAt(s), PointAt(s);
    assert sign == 1 ==> point == 0;
    LargestScale(precision);
    if point < sign && sign == point + 1 && |AfterPoint(s)| <= precision && precision > 1 {
      PaddedIsBelow(s[sign + 1..], precision - 1);
      LargestScale(precision - 1);
    }
  }

  /** With it there, after any digit and at any precision, an amount above the limit is accepted. */
  lemma {:induction false} LimitIsPassed(precision: nat, c: char)
    requires precision <= MAX_PRECISION && IsDigit(c)
    ensures var s := [c] + "-" + Digits(MAX_SHARE_SUPPLY / Pow10(precision) + 1);
            WellFormed(s) && SignSecond(s) && Parse(precision, s).Some? && Parse(precision, s).value > MAX_SHARE_SUPPLY
  {
    hide Parse, Digits, Value, Pow10, WellFormed, SignSecond, AllDigits;
    LargestScale(precision);
    var n := JustAbove(Pow10(precision));
    ValueOfDigits(n);
    SignBeforeDigits(precision, c, Digits(n));
  }

  lemma JustAbove(scale: nat) returns (n: nat)
    requires 0 < scale <= 1_000_000_000_000
    ensures n == MAX_SHARE_SUPPLY / scale + 1 && MAX_SHARE_SUPPLY < n * scale <= MAX_INT64
  {
    n := MAX_SHARE_SUPPLY / scale + 1;
    assert n * scale == MAX_SHARE_SUPPLY / scale * scale + scale;
  }

  /** A digit, the sign and digits: the value after the sign, without any limit but that of 64 bits. */
  lemma {:induction false} SignBeforeDigits(precision: nat, c: char, t: string)
    requires IsDigit(c) && AllDigits(t) && t != "" && Value(t) * Pow10(precision) <= MAX_INT64
    ensures var s := [c] + "-" + t;
            WellFormed(s) && SignSecond(s) && Parse(precision, s) == Some(Value(t) * Pow10(precision))
  {
    hide Parse, Value, Pow10, PointAt, SignAt, WellFormed, AllDigits;
    var s := [c] + "-" + t;
    SignBeforeForm(c, t);
    assert s[2..|s|] == t;
    MulMono(1, Pow10(precision), Value(t));
    Opposite(Value(t), Pow10(precision));
    MisplacedSign(precision, s);
    MisplacedParts(s);
    assert AfterPoint(s) == "";
    ZerosAreNothing("");
  }

  lemma Opposite(x: nat, y: nat)
    ensures (0 - x) * y == 0 - x * y
  {
  }

  lemma {:induction false} SignBeforeForm(c: char, t: string)
    requires IsDigit(c) && AllDigits(t)
    ensures var s := [c] + "-" + t;
            WellFormed(s) && SignSecond(s) && SignAt(s) == 1 && PointAt(s) == |s|
  {
    var s := [c] + "-" + t;
    assert s[0] == c && s[1] == '-' && forall i :: 2 <= i < |s| ==> s[i] == t[i - 2];
    assert SignAt(s) == 1 by { assert s[1..][0] == '-'; }
    assert PointAt(s) == |s|;
  }
}
