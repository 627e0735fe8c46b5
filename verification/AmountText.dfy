/** Printing amounts as decimal numbers, and reading them back. */
module AmountText {
  import opened Wrappers
  import opened Prices

  predicate IsDigit(c: char) {
    '0' <= c <= '9'
  }

  predicate AllDigits(s: string) {
    forall i :: 0 <= i < |s| ==> IsDigit(s[i])
  }

  function DigitChar(d: nat): (c: char)
    requires d < 10
    ensures IsDigit(c) && DigitValue(c) == d && (d > 0 ==> c != '0')
  {
    ('0' as int + d) as char
  }

  function DigitValue(c: char): (d: nat)
    requires IsDigit(c)
    ensures d < 10
  {
    c as int - '0' as int
  }

  function Pow10(k: nat): (r: nat)
    ensures r > 0
  {
    if k == 0 then 1 else 10 * Pow10(k - 1)
  }

  /** A number in decimal. */
  function Digits(n: nat): (s: string)
    ensures AllDigits(s) && |s| > 0 && (|s| > 1 ==> s[0] != '0')
    ensures n > 0 ==> s[0] != '0'
  {
    if n < 10 then [DigitChar(n)] else Digits(n / 10) + [DigitChar(n % 10)]
  }

  /** The number that digits stand for. */
  function Value(s: string): nat
    requires AllDigits(s)
  {
    if s == "" then 0 else Value(s[..|s| - 1]) * 10 + DigitValue(s[|s| - 1])
  }

  lemma {:induction false} ValueOfDigits(n: nat)
    ensures Value(Digits(n)) == n
  {
    if n >= 10 {
      ValueOfDigits(n / 10);
      assert Digits(n)[..|Digits(n)| - 1] == Digits(n / 10);
    }
  }

  lemma TimesTen(x: nat, y: nat, z: nat)
    ensures (x * y + z) * 10 == x * (10 * y) + z * 10
  {
  }

  lemma {:induction false} ValueOfParts(s: string, t: string)
    requires AllDigits(s) && AllDigits(t)
    ensures AllDigits(s + t) && Value(s + t) == Value(s) * Pow10(|t|) + Value(t)
  {
    if t == "" {
      assert s + t == s;
    } else {
      var u := t[..|t| - 1];
      ValueOfParts(s, u);
      assert (s + t)[..|s + t| - 1] == s + u;
      TimesTen(Value(s), Pow10(|u|), Value(u));
    }
  }

  /** Adding a power of ten in front and dropping the first digit pads with zeros. */
  lemma {:induction false} PaddedDigits(d: nat, p: nat)
    requires d < Pow10(p)
    ensures var s := Digits(Pow10(p) + d);
            |s| == p + 1 && AllDigits(s[1..]) && Value(s[1..]) == d
  {
    var n := Pow10(p) + d;
    if p > 0 {
      PaddedDigits(d / 10, p - 1);
      assert n / 10 == Pow10(p - 1) + d / 10 && n % 10 == d % 10;
      var s := Digits(n / 10);
      assert Digits(n)[1..] == s[1..] + [DigitChar(n % 10)];
      assert Digits(n)[1..][..p - 1] == s[1..];
    } else {
      assert Digits(n)[1..] == "";
    }
  }

  lemma {:induction false} ZerosAreNothing(s: string)
    requires forall i :: 0 <= i < |s| ==> s[i] == '0'
    ensures AllDigits(s) && Value(s) == 0
  {
    if s != "" { ZerosAreNothing(s[..|s| - 1]); }
  }

  // Signed amounts

  /** Division and remainder that round toward zero. */
  function TruncDiv(x: int, d: nat): int
    requires d > 0
  {
    if x >= 0 then x / d else -(-x / d)
  }

  function TruncMod(x: int, d: nat): int
    requires d > 0
  {
    x - TruncDiv(x, d) * d
  }

  function Abs(x: int): nat {
    if x >= 0 then x else -x
  }

  function IntText(n: int): string {
    if n >= 0 then Digits(n) else "-" + Digits(-n)
  }

  /** Prints an amount of the smallest unit as a decimal with up to `precision` places. */
  function ToText(precision: nat, amount: int): string {
    var scaled := Pow10(precision);
    var whole := IntText(TruncDiv(amount, scaled));
    var decimals := Abs(TruncMod(amount, scaled));
    if decimals == 0 then whole
    else (if amount < 0 && whole == "0" then "-0" else whole) + "." + Digits(scaled + decimals)[1..]
  }

  const MAX_INT64: int := 0x7FFF_FFFF_FFFF_FFFF

  function Checked(x: int): Option<int> {
    if -MAX_INT64 - 1 <= x <= MAX_INT64 then Some(x) else None
  }

  function DigitPrefix(s: string): (r: string)
    ensures AllDigits(r) && r <= s
    ensures |r| < |s| ==> !IsDigit(s[|r|])
  {
    if s == "" || !IsDigit(s[0]) then "" else [s[0]] + DigitPrefix(s[1..])
  }

  /** Reads a number at the start of a string, ignoring what follows it. */
  function ReadInt(s: string): Option<int> {
    var negative := s != "" && s[0] == '-';
    var digits := DigitPrefix(if negative then s[1..] else s);
    if digits == "" then None else Checked(if negative then 0 - Value(digits) else Value(digits))
  }

  /** Nothing but digits and at most one sign and one point, wherever they are. */
  predicate WellFormed(s: string) {
    && (forall i :: 0 <= i < |s| ==> IsDigit(s[i]) || s[i] == '-' || s[i] == '.')
    && (forall i, j :: 0 <= i < j < |s| && s[i] == s[j] ==> IsDigit(s[i]))
  }

  /** The position of the point, or the length if there is none. */
  function PointAt(s: string): (p: nat)
    ensures p <= |s| && (forall i :: 0 <= i < p ==> s[i] != '.') && (p < |s| ==> s[p] == '.')
  {
    if s == "" || s[0] == '.' then 0 else 1 + PointAt(s[1..])
  }

  function Zeros(n: nat): (s: string)
    ensures |s| == n && forall i :: 0 <= i < n ==> s[i] == '0'
  {
    seq(n, _ => '0')
  }

  /** A whole number in the smallest unit; no text counts as zero. */
  function ReadWhole(precision: nat, s: string): (r: Option<int>)
    ensures r.Some? ==> Checked(r.value) == r
  {
    if s == "" then Some(0)
    else match ReadInt(s)
         case None => None
         case Some(v) => Checked(v * Pow10(precision))
  }

  function WholePart(precision: nat, s: string): (r: Option<int>)
    ensures r.Some? ==> Checked(r.value) == r
  {
    var point := PointAt(s);
    var start := if '-' in s then 1 else 0;
    var end := if point < |s| && start + point < |s| then start + point else |s|;
    var lhs := if start <= end then s[start..end] else "";
    ReadWhole(precision, lhs)
  }

  function Fraction(precision: nat, s: string): Option<int> {
    var point := PointAt(s);
    if point == |s| then Some(0)
    else
      var rhs := s[point + 1..];
      if |rhs| > precision then None
      else if precision == 0 then Some(0)
      else ReadInt(rhs + Zeros(precision - |rhs|))
  }

  /** The two parts together, if they are within the limit, and negated if there is a sign; the least 64-bit number has no opposite. */
  function Total(whole: Option<int>, fraction: Option<int>, negative: bool): Option<int> {
    match (whole, fraction)
    case (Some(w), Some(f)) =>
      (match Checked(w + f)
       case None => None
       case Some(t) => if t > MAX_SHARE_SUPPLY then None else if negative then Checked(-t) else Some(t))
    case _ => None
  }

  /** The amount a text stands for, if it is accepted. */
  function Parse(precision: nat, s: string): Option<int> {
    if !WellFormed(s) then None else Total(WholePart(precision, s), Fraction(precision, s), '-' in s)
  }

  /** Scans a text for anything but digits, a sign and a point. */
  method Scan(s: string) returns (ok: bool, negative: bool, point: bool)
    ensures ok == WellFormed(s)
    ensures ok ==> negative == ('-' in s) && point == ('.' in s)
  {
    negative, point := false, false;
    for i := 0 to |s|
      invariant WellFormed(s[..i]) && negative == ('-' in s[..i]) && point == ('.' in s[..i])
    {
      var c := s[i];
      assert s[..i + 1] == s[..i] + [c];
      if IsDigit(c) {
      } else if c == '-' && !negative {
        negative := true;
      } else if c == '.' && !point {
        point := true;
      } else {
        NotWellFormed(s, i);
        return false, negative, point;
      }
    }
    assert s[..|s|] == s;
    ok := true;
  }

  lemma NotWellFormed(s: string, i: nat)
    requires i < |s| && !IsDigit(s[i]) && (s[i] in s[..i] || (s[i] != '-' && s[i] != '.'))
    ensures !WellFormed(s)
  {
    if s[i] in s[..i] {
      var j :| 0 <= j < i && s[..i][j] == s[i];
      assert s[j] == s[i];
    }
  }

  /** Reads an amount, padding the fraction with zeros. */
  method FromText(precision: nat, s: string) returns (r: Option<int>)
    ensures r == Parse(precision, s)
  {
    hide PointAt, WellFormed, WholePart, ReadInt, Pow10;
    var ok, negative, point := Scan(s);
    if !ok { return None; }
    var whole := WholePart(precision, s);
    if whole.None? { return None; }
    var total := whole.value;
    PointIsFound(s);
    if point {
      var rhs := s[PointAt(s) + 1..];
      if |rhs| > precision { return None; }
      ghost var given := rhs;
      while |rhs| < precision
        invariant |given| <= |rhs| <= precision && rhs == given + Zeros(|rhs| - |given|)
      {
        rhs := rhs + "0";
      }
      if rhs != "" {
        var f := ReadInt(rhs);
        if f.None? { return None; }
        var sum := Checked(total + f.value);
        if sum.None? { return None; }
        total := sum.value;
      }
    }
    if total > MAX_SHARE_SUPPLY { return None; }
    if negative { return Checked(-total); }
    return Some(total);
  }

  lemma PointIsFound(s: string)
    ensures '.' in s <==> PointAt(s) < |s|
  {
  }

  /** A text made of a sign, digits and perhaps a fraction. */
  ghost function Layout(negative: bool, body: string, fraction: string): string {
    (if negative then "-" else "") + body + (if fraction == "" then "" else "." + fraction)
  }

  lemma {:induction false} LayoutIsRead(precision: nat, negative: bool, body: string, fraction: string)
    requires AllDigits(body) && body != "" && AllDigits(fraction) && (fraction == "" || |fraction| == precision)
    requires Value(body) * Pow10(precision) + Value(fraction) <= MAX_SHARE_SUPPLY
    ensures var t := Value(body) * Pow10(precision) + Value(fraction);
            Parse(precision, Layout(negative, body, fraction)) == Some(if negative then 0 - t else t)
  {
    hide Layout, WellFormed, WholePart, Fraction, Value, Pow10, AllDigits, PointAt;
    LayoutIsWellFormed(negative, body, fraction);
    LayoutWhole(precision, negative, body, fraction);
    LayoutFraction(precision, negative, body, fraction);
  }

  lemma {:induction false} LayoutIsWellFormed(negative: bool, body: string, fraction: string)
    requires AllDigits(body) && AllDigits(fraction)
    ensures var s := Layout(negative, body, fraction);
            && WellFormed(s) && ('-' in s <==> negative)
            && PointAt(s) == |body| + if negative then 1 else 0
  {
    hide PointAt;
    var s := Layout(negative, body, fraction);
    var head := (if negative then "-" else "") + body;
    assert forall i :: 0 <= i < |head| ==> s[i] == head[i] && s[i] != '.';
    assert fraction != "" ==> s[|head|] == '.';
    assert forall i :: |head| < i < |s| ==> s[i] == fraction[i - |head| - 1];
    if negative { assert s[0] == '-'; }
  }

  lemma {:induction false} LayoutWhole(precision: nat, negative: bool, body: string, fraction: string)
    requires AllDigits(body) && body != "" && AllDigits(fraction) && Value(body) * Pow10(precision) <= MAX_SHARE_SUPPLY
    ensures WholePart(precision, Layout(negative, body, fraction)) == Some(Value(body) * Pow10(precision))
  {
    hide PointAt, WellFormed, Pow10, DigitPrefix, Value;
    var s := Layout(negative, body, fraction);
    LayoutIsWellFormed(negative, body, fraction);
    var start := if negative then 1 else 0;
    var point := PointAt(s);
    var end := if point < |s| && start + point < |s| then start + point else |s|;
    var lhs := s[start..end];
    assert lhs == body || lhs == body + ".";
    ReadBody(lhs, body);
    MulMono(1, Pow10(precision), Value(body));
  }

  lemma {:induction false} ReadBody(s: string, body: string)
    requires AllDigits(body) && body != "" && (s == body || s == body + ".") && Value(body) <= MAX_INT64
    ensures ReadInt(s) == Some(Value(body))
  {
    hide Value;
    PrefixIsBody(s, body);
    assert s[0] == body[0];
  }

  lemma {:induction false} PrefixIsBody(s: string, body: string)
    requires AllDigits(body) && (s == body || s == body + ".")
    ensures DigitPrefix(s) == body
    decreases |body|
  {
    if body != "" {
      PrefixIsBody(s[1..], body[1..]);
      assert s[0] == body[0];
    }
  }

  lemma {:induction false} LayoutFraction(precision: nat, negative: bool, body: string, fraction: string)
    requires AllDigits(body) && AllDigits(fraction) && (fraction == "" || |fraction| == precision)
    requires Value(fraction) <= MAX_SHARE_SUPPLY
    ensures Fraction(precision, Layout(negative, body, fraction)) == Some(Value(fraction))
  {
    hide PointAt, WellFormed, Pow10, ReadInt, Value, Zeros;
    var s := Layout(negative, body, fraction);
    LayoutIsWellFormed(negative, body, fraction);
    if fraction == "" {
      ZerosAreNothing(fraction);
    } else {
      var rhs := s[PointAt(s) + 1..];
      assert rhs == fraction;
      assert fraction + Zeros(0) == fraction;
      ReadBody(fraction, fraction);
    }
  }

  lemma {:induction false} TruncParts(x: int, d: nat)
    requires d > 0
    ensures Abs(TruncDiv(x, d)) == Abs(x) / d && Abs(TruncMod(x, d)) == Abs(x) % d
    ensures TruncDiv(x, d) == if x >= 0 then Abs(x) / d else 0 - Abs(x) / d
  {
    var q, r := Abs(x) / d, Abs(x) % d;
    assert Abs(x) == q * d + r;
    assert (0 - q) * d == 0 - q * d;
  }

  /** The digits after the point. */
  function FractionText(precision: nat, decimals: nat): string
    requires decimals < Pow10(precision)
  {
    if decimals == 0 then "" else Digits(Pow10(precision) + decimals)[1..]
  }

  lemma {:induction false} FractionValue(precision: nat, decimals: nat)
    requires decimals < Pow10(precision)
    ensures var f := FractionText(precision, decimals);
            AllDigits(f) && Value(f) == decimals && (f == "" || |f| == precision) && (f == "" <==> decimals == 0)
  {
    PaddedDigits(decimals, precision);
  }

  lemma {:induction false} PrintedLayout(precision: nat, amount: int, whole: nat, decimals: nat)
    requires whole == Abs(amount) / Pow10(precision) && decimals == Abs(amount) % Pow10(precision)
    ensures ToText(precision, amount) == Layout(amount < 0, Digits(whole), FractionText(precision, decimals))
  {
    hide Digits, Pow10, TruncDiv, TruncMod;
    TruncParts(amount, Pow10(precision));
    FractionValue(precision, decimals);
    DivideBack(Abs(amount), Pow10(precision));
    assert Digits(0) == "0" by { ZeroDigits(); }
    OnlyZeroPrintsZero(whole);
  }

  lemma ZeroDigits()
    ensures Digits(0) == "0"
  {
  }

  lemma {:induction false} OnlyZeroPrintsZero(n: nat)
    ensures Digits(n) == "0" ==> n == 0
  {
    ValueOfDigits(n);
    if Digits(n) == "0" { ZerosAreNothing(Digits(n)); }
  }

  lemma {:induction false} DivideBack(x: nat, d: nat)
    requires d > 0
    ensures x == x / d * d + x % d && x % d < d && (x / d == 0 && x % d == 0 ==> x == 0)
  {
  }

  /** Every amount is read back as it was printed. */
  lemma {:induction false} RoundTrip(precision: nat, amount: int)
    requires 0 - MAX_SHARE_SUPPLY <= amount <= MAX_SHARE_SUPPLY
    ensures Parse(precision, ToText(precision, amount)) == Some(amount)
  {
    hide Parse, ToText, Layout, Digits, Pow10, Value, FractionText, AllDigits;
    DivideBack(Abs(amount), Pow10(precision));
    var whole: nat, decimals: nat := Abs(amount) / Pow10(precision), Abs(amount) % Pow10(precision);
    FractionValue(precision, decimals);
    ValueOfDigits(whole);
    PrintedLayout(precision, amount, whole, decimals);
    LayoutIsRead(precision, amount < 0, Digits(whole), FractionText(precision, decimals));
  }

  // Large unsigned amounts

  /** The position of the last digit other than zero. */
  method LastNonZero(s: string) returns (pos: nat)
    requires exists i :: 0 <= i < |s| && s[i] != '0'
    ensures pos < |s| && s[pos] != '0' && forall i :: pos < i < |s| ==> s[i] == '0'
  {
    pos := |s| - 1;
    while s[pos] == '0'
      invariant pos < |s| && forall i :: pos < i < |s| ==> s[i] == '0'
      decreases pos
    {
      pos := pos - 1;
    }
  }

  /** The decimal with these digits before and after the point is `amount` divided by a power of ten. */
  ghost predicate Denotes(whole: string, fraction: string, amount: nat, precision: nat) {
    && AllDigits(whole) && AllDigits(fraction) && |fraction| <= precision
    && Value(whole) * Pow10(precision) + Value(fraction) * Pow10(precision - |fraction|) == amount
  }

  /** The text has no superfluous zero at either end. */
  ghost predicate IsShortest(text: string, whole: string, fraction: string) {
    && text == (if fraction == "" then whole else whole + "." + fraction)
    && whole != "" && (|whole| > 1 ==> whole[0] != '0')
    && (fraction != "" ==> fraction[|fraction| - 1] != '0')
  }

  /**
   * Prints exactly `amount` divided by ten to the `precision`, with no zero in front of
   * the whole part other than a single one and none at the end of the fraction.
   */
  method UintToText(amount: nat, precision: nat) returns (text: string)
    ensures exists whole, fraction :: IsShortest(text, whole, fraction) && Denotes(whole, fraction, amount, precision)
  {
    hide Digits, Value, Pow10;
    var s := Digits(amount);
    ValueOfDigits(amount);
    ghost var whole, fraction := s, "";
    if precision == 0 || amount == 0 {
      WholeAlone(s, amount, precision);
      assert IsShortest(s, s, "");
      return s;
    }
    var pos := LastNonZero(s);
    if |s| > precision {
      var left := |s| - precision;
      whole := s[..left];
      text := s[..left];
      if pos >= left {
        text := text + "." + s[left..pos + 1];
        fraction := s[left..pos + 1];
      }
      SplitDenotes(s, left, pos, precision);
    } else {
      text := "0.";
      var zeros := "";
      for i := 0 to precision - |s|
        invariant |zeros| == i && forall j :: 0 <= j < i ==> zeros[j] == '0'
      {
        zeros := zeros + "0";
      }
      text := text + zeros + s[..pos + 1];
      whole, fraction := "0", zeros + s[..pos + 1];
      AllFraction(s, zeros, pos, precision);
    }
    assert IsShortest(text, whole, fraction);
  }

  lemma {:induction false} WholeAlone(s: string, amount: nat, precision: nat)
    requires AllDigits(s) && Value(s) == amount && (precision == 0 || amount == 0)
    ensures Denotes(s, "", amount, precision)
  {
  }

  /** Dropping zeros at the end divides by ten each. */
  lemma {:induction false} TrailingZeros(s: string, n: nat)
    requires AllDigits(s) && n <= |s| && forall i :: n <= i < |s| ==> s[i] == '0'
    ensures Value(s) == Value(s[..n]) * Pow10(|s| - n)
  {
    ValueOfParts(s[..n], s[n..]);
    ZerosAreNothing(s[n..]);
    assert s[..n] + s[n..] == s;
  }

  lemma {:induction false} SplitDenotes(s: string, left: nat, pos: nat, precision: nat)
    requires AllDigits(s) && left + precision == |s| && pos < |s| && forall i :: pos < i < |s| ==> s[i] == '0'
    ensures Denotes(s[..left], if pos >= left then s[left..pos + 1] else "", Value(s), precision)
  {
    var rest := s[left..];
    ValueOfParts(s[..left], rest);
    assert s[..left] + rest == s;
    var n := if pos >= left then pos + 1 - left else 0;
    TrailingZeros(rest, n);
    assert rest[..n] == if pos >= left then s[left..pos + 1] else "";
  }

  lemma {:induction false} AllFraction(s: string, zeros: string, pos: nat, precision: nat)
    requires AllDigits(s) && |zeros| + |s| == precision && pos < |s| && forall i :: pos < i < |s| ==> s[i] == '0'
    requires forall i :: 0 <= i < |zeros| ==> zeros[i] == '0'
    ensures Denotes("0", zeros + s[..pos + 1], Value(s), precision)
  {
    ZerosAreNothing("0");
    ZerosAreNothing(zeros);
    ValueOfParts(zeros, s[..pos + 1]);
    TrailingZeros(s, pos + 1);
  }
}
