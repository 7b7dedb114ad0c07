/**
  Reading and printing decimal text at scale 1e8 (src/core/fixed.cc).

  The parser and the printer work on machine integers: `int64` and `uint64` are
  bounded types, so every intermediate value is checked to stay in range.
*/
module Decimal {
  import opened Levels
  import opened Fixed

  newtype int64 = x: int | -0x8000_0000_0000_0000 <= x < 0x8000_0000_0000_0000
  newtype uint64 = x: int | 0 <= x < 0x1_0000_0000_0000_0000

  const SCALE_DIGITS: nat := 8
  const MAX_INTEGER_PART: int := INT64_MAX / SCALE

  // ----- digits

  predicate IsDigit(c: char) {
    '0' <= c <= '9'
  }

  function DigitOf(c: char): (d: int)
    requires IsDigit(c)
    ensures 0 <= d <= 9
  {
    c as int - '0' as int
  }

  function DigitChar(d: int): (c: char)
    requires 0 <= d <= 9
    ensures IsDigit(c) && DigitOf(c) == d
  {
    ('0' as int + d) as char
  }

  predicate AllDigits(s: string) {
    forall i :: 0 <= i < |s| ==> IsDigit(s[i])
  }

  /** The number a string of digits denotes. */
  function NatOf(s: string): nat
    requires AllDigits(s)
  {
    if s == [] then 0 else 10 * NatOf(s[..|s| - 1]) + DigitOf(s[|s| - 1])
  }

  function Pow10(k: nat): nat {
    if k == 0 then 1 else 10 * Pow10(k - 1)
  }

  // ----- decimal numbers as written

  datatype Sign = NoSign | Plus | Minus

  /** A sign, digits, and optionally a point with more digits. */
  datatype Numeral = Numeral(sign: Sign, whole: string, point: bool, frac: string)

  predicate WellFormed(d: Numeral) {
    AllDigits(d.whole) && AllDigits(d.frac) && (!d.point ==> d.frac == []) && |d.whole| + |d.frac| > 0
  }

  function SignText(s: Sign): string {
    match s case NoSign => "" case Plus => "+" case Minus => "-"
  }

  function Text(d: Numeral): string {
    SignText(d.sign) + (d.whole + (if d.point then ['.'] + d.frac else []))
  }

  /** Fraction digits past the eighth are cut off. */
  function FirstEight(frac: string): string {
    if |frac| <= SCALE_DIGITS then frac else frac[..SCALE_DIGITS]
  }

  /** The fraction in units of 1e-8. */
  function FractionOf(frac: string): nat
    requires AllDigits(frac)
  {
    NatOf(FirstEight(frac)) * Pow10(SCALE_DIGITS - |FirstEight(frac)|)
  }

  /** The scaled magnitude, truncated to eight decimals. */
  function Magnitude(d: Numeral): nat
    requires WellFormed(d)
  {
    NatOf(d.whole) * SCALE + FractionOf(d.frac)
  }

  /** What a numeral means: its signed scaled value, if the magnitude fits. */
  function Meaning(d: Numeral): Option<int>
    requires WellFormed(d)
  {
    var m: int := Magnitude(d);
    if m > INT64_MAX then None else Some(if d.sign == Minus then -m else m)
  }

  // ----- the language the parser accepts

  /** How many characters from position i on are digits. */
  function Run(s: string, i: nat): (n: nat)
    requires i <= |s|
    ensures i + n <= |s|
    decreases |s| - i
  {
    if i == |s| || !IsDigit(s[i]) then 0 else Run(s, i + 1) + 1
  }

  lemma {:induction false} RunIsDigits(s: string, i: nat)
    requires i <= |s|
    ensures AllDigits(s[i..i + Run(s, i)])
    ensures forall k :: i <= k < i + Run(s, i) ==> IsDigit(s[k])
    ensures i + Run(s, i) < |s| ==> !IsDigit(s[i + Run(s, i)])
    decreases |s| - i
  {
    if i < |s| && IsDigit(s[i]) {
      RunIsDigits(s, i + 1);
    }
  }

  function SignOf(s: string): Sign {
    if s != [] && s[0] == '+' then Plus else if s != [] && s[0] == '-' then Minus else NoSign
  }

  function Start(s: string): (n: nat)
    ensures n <= |s|
  {
    if SignOf(s) == NoSign then 0 else 1
  }

  /** What may follow the integer digits: nothing, or a point and digits up to the end. */
  function Tail(s: string, j: nat): Option<(bool, string)>
    requires j <= |s|
  {
    if j == |s| then Some((false, []))
    else if s[j] == '.' && j + 1 + Run(s, j + 1) == |s| then Some((true, s[j + 1..]))
    else None
  }

  /** The numeral a string spells, if it spells one. */
  function Spelled(s: string): Option<Numeral> {
    var i := Start(s);
    var j := i + Run(s, i);
    match Tail(s, j)
    case None => None
    case Some((point, frac)) =>
      if j - i + |frac| == 0 then None else Some(Numeral(SignOf(s), s[i..j], point, frac))
  }

  /** The parser's result as a function of its input. */
  function Parsed(s: string): Option<int> {
    match Spelled(s)
    case None => None
    case Some(d) => if WellFormed(d) then Meaning(d) else None
  }

  lemma {:induction false} RunIs(s: string, i: nat, j: nat)
    requires i <= j <= |s| && (forall k :: i <= k < j ==> IsDigit(s[k])) && (j < |s| ==> !IsDigit(s[j]))
    ensures Run(s, i) == j - i
    decreases j - i
  {
    if i < j {
      RunIs(s, i + 1, j);
    }
  }

  lemma TailText(s: string, j: nat)
    requires j <= |s| && Tail(s, j).Some?
    ensures var (point, frac) := Tail(s, j).value;
            AllDigits(frac) && (!point ==> frac == []) && s[j..] == if point then ['.'] + frac else []
  {
    if j < |s| {
      RunIsDigits(s, j + 1);
      assert s[j + 1..|s|] == s[j + 1..];
      assert s[j..] == [s[j]] + s[j + 1..];
    }
  }

  lemma SpelledWellFormed(s: string)
    requires Spelled(s).Some?
    ensures WellFormed(Spelled(s).value)
  {
    RunIsDigits(s, Start(s));
    TailText(s, Start(s) + Run(s, Start(s)));
  }

  /** Whatever is read spells the input. */
  lemma SpelledIsText(s: string)
    requires Spelled(s).Some?
    ensures WellFormed(Spelled(s).value) && Text(Spelled(s).value) == s
  {
    SpelledWellFormed(s);
    var i := Start(s);
    var j := i + Run(s, i);
    TailText(s, j);
    assert s[..i] == SignText(SignOf(s));
    Rejoin(s, i, j);
  }

  lemma Rejoin(s: string, i: nat, j: nat)
    requires i <= j <= |s|
    ensures s[..i] + (s[i..j] + s[j..]) == s
  {
  }

  /** The sign of a numeral is read off its first character. */
  lemma SignIsRead(d: Numeral)
    requires WellFormed(d)
    ensures SignOf(Text(d)) == d.sign && Start(Text(d)) == |SignText(d.sign)|
  {
  }

  lemma PiecesOf(s: string, a: string, b: string, c: string)
    requires s == a + (b + c)
    ensures s[|a|..|a| + |b|] == b && s[|a| + |b|..] == c
  {
  }

  lemma TailIs(s: string, j: nat, point: bool, frac: string)
    requires j <= |s| && AllDigits(frac) && (!point ==> frac == [])
    requires s[j..] == if point then ['.'] + frac else []
    ensures Tail(s, j) == Some((point, frac))
    ensures j < |s| ==> !IsDigit(s[j])
  {
    if point {
      assert s[j] == s[j..][0];
      assert s[j + 1..] == s[j..][1..] == frac;
      forall k | j + 1 <= k < |s| ensures IsDigit(s[k]) {
        assert s[k] == s[j + 1..][k - j - 1];
      }
      RunIs(s, j + 1, |s|);
    }
  }

  lemma WholeIs(s: string, i: nat, whole: string)
    requires i + |whole| <= |s| && s[i..i + |whole|] == whole && AllDigits(whole)
    requires i + |whole| < |s| ==> !IsDigit(s[i + |whole|])
    ensures Run(s, i) == |whole|
  {
    forall k | i <= k < i + |whole| ensures IsDigit(s[k]) {
      assert s[k] == whole[k - i];
    }
    RunIs(s, i, i + |whole|);
  }

  /** Every well-formed numeral is read back as itself. */
  lemma TextIsSpelled(d: Numeral)
    requires WellFormed(d)
    ensures Spelled(Text(d)) == Some(d)
  {
    SignIsRead(d);
    PiecesOf(Text(d), SignText(d.sign), d.whole, if d.point then ['.'] + d.frac else []);
    SpelledFrom(Text(d), d);
  }

  lemma SpelledFrom(s: string, d: Numeral)
    requires WellFormed(d) && SignOf(s) == d.sign && Start(s) + |d.whole| <= |s|
    requires s[Start(s)..Start(s) + |d.whole|] == d.whole
    requires s[Start(s) + |d.whole|..] == if d.point then ['.'] + d.frac else []
    ensures Spelled(s) == Some(d)
  {
    TailIs(s, Start(s) + |d.whole|, d.point, d.frac);
    WholeIs(s, Start(s), d.whole);
  }

  /**
    The parser accepts exactly the well-formed numerals whose magnitude, truncated
    to eight decimals, is at most 2^63 - 1, and returns their value.
  */
  lemma ParsedIsMeaning(s: string)
    ensures forall d :: WellFormed(d) && Text(d) == s ==> Parsed(s) == Meaning(d)
    ensures Parsed(s).Some? ==> exists d :: WellFormed(d) && Text(d) == s && Meaning(d) == Parsed(s)
  {
    forall d | WellFormed(d) && Text(d) == s ensures Parsed(s) == Meaning(d) {
      TextMeans(d);
    }
    if Parsed(s).Some? {
      SpelledIsText(s);
    }
  }

  // ----- the parser

  lemma NatOfPush(s: string, i: nat, j: nat)
    requires i <= j < |s| && AllDigits(s[i..j]) && IsDigit(s[j])
    ensures AllDigits(s[i..j + 1]) && NatOf(s[i..j + 1]) == 10 * NatOf(s[i..j]) + DigitOf(s[j])
  {
    assert s[i..j + 1] == s[i..j] + [s[j]];
    assert s[i..j + 1][..j - i] == s[i..j];
  }

  lemma {:induction false} NatOfGrows(s: string, i: nat, j: nat, k: nat)
    requires i <= j <= k <= |s| && AllDigits(s[i..k])
    ensures AllDigits(s[i..j]) && NatOf(s[i..j]) <= NatOf(s[i..k])
    decreases k - j
  {
    assert forall x :: i <= x < k ==> s[x] == s[i..k][x - i];
    if j < k {
      NatOfPush(s, i, j);
      NatOfGrows(s, i, j + 1, k);
    }
  }

  /** A run of digits that is already too large settles the matter. */
  lemma TooLarge(s: string, j: nat)
    requires Start(s) <= j <= |s| && AllDigits(s[Start(s)..j])
    requires NatOf(s[Start(s)..j]) > MAX_INTEGER_PART
    ensures Parsed(s) == None
  {
    var i := Start(s);
    var k := i + Run(s, i);
    RunIsDigits(s, i);
    assert forall x :: i <= x < j ==> s[x] == s[i..j][x - i];
    NatOfGrows(s, i, j, k);
    if Spelled(s).Some? {
      assert Spelled(s).value.whole == s[i..k];
    }
  }

  /** The digits before the point; fails as soon as they exceed the largest integer part. */
  method ReadWhole(s: string, start: nat) returns (ok: bool, value: int64, end: nat)
    requires start == Start(s)
    ensures ok ==> end == start + Run(s, start) && AllDigits(s[start..end])
    ensures ok ==> value as int == NatOf(s[start..end]) <= MAX_INTEGER_PART
    ensures !ok ==> Parsed(s) == None
  {
    value, end := 0, start;
    while end < |s| && '0' <= s[end] <= '9'
      invariant start <= end <= |s| && forall k :: start <= k < end ==> IsDigit(s[k])
      invariant AllDigits(s[start..end]) && value as int == NatOf(s[start..end]) <= MAX_INTEGER_PART
    {
      NatOfPush(s, start, end);
      if value as int > MAX_INTEGER_PART / 10 {
        TooLarge(s, end + 1);
        return false, value, end;
      }
      value := value * 10 + DigitOf(s[end]) as int64;
      if value as int > MAX_INTEGER_PART {
        TooLarge(s, end + 1);
        return false, value, end;
      }
      end := end + 1;
    }
    RunIs(s, start, end);
    ok := true;
  }

  lemma FirstEightPush(s: string, i: nat, j: nat)
    requires i <= j < |s| && AllDigits(s[i..j]) && IsDigit(s[j])
    ensures AllDigits(s[i..j + 1])
    ensures FirstEight(s[i..j + 1]) == if j - i < SCALE_DIGITS then s[i..j + 1] else FirstEight(s[i..j])
    ensures j - i < SCALE_DIGITS ==> FirstEight(s[i..j]) == s[i..j]
  {
    NatOfPush(s, i, j);
    if j - i >= SCALE_DIGITS {
      assert s[i..j + 1][..SCALE_DIGITS] == s[i..j][..SCALE_DIGITS] == s[i..i + SCALE_DIGITS];
    }
  }

  lemma {:induction false} NatOfBound(s: string)
    requires AllDigits(s)
    ensures NatOf(s) < Pow10(|s|)
  {
    if s != [] {
      NatOfBound(s[..|s| - 1]);
    }
  }

  lemma Pow10Eight()
    ensures Pow10(8) == SCALE && Pow10(7) == 10_000_000
  {
  }

  /** Fewer than eight digits leave room for one more. */
  lemma ShortIsSmall(s: string)
    requires AllDigits(s) && |s| < SCALE_DIGITS
    ensures NatOf(s) < 10_000_000
  {
    NatOfBound(s);
    Pow10Mono(|s|, 7);
    Pow10Eight();
  }

  /** The digits after the point: eight are kept, the rest are skipped. */
  method ReadFraction(s: string, start: nat) returns (fraction: int64, digits: nat, end: nat)
    requires start <= |s|
    ensures end == start + Run(s, start) && AllDigits(s[start..end])
    ensures digits == |FirstEight(s[start..end])| && fraction as int == NatOf(FirstEight(s[start..end]))
    ensures digits <= SCALE_DIGITS && fraction as int < Pow10(digits)
  {
    fraction, digits, end := 0, 0, start;
    while end < |s| && '0' <= s[end] <= '9'
      invariant start <= end <= |s| && AllDigits(s[start..end]) && forall k :: start <= k < end ==> IsDigit(s[k])
      invariant digits == |FirstEight(s[start..end])| && fraction as int == NatOf(FirstEight(s[start..end]))
    {
      FirstEightPush(s, start, end);
      if digits < SCALE_DIGITS {
        NatOfPush(s, start, end);
        ShortIsSmall(s[start..end]);
        fraction := fraction * 10 + DigitOf(s[end]) as int64;
        digits := digits + 1;
      }
      end := end + 1;
    }
    NatOfBound(FirstEight(s[start..end]));
    RunIs(s, start, end);
  }

  lemma {:induction false} Pow10Mono(k: nat, n: nat)
    requires k <= n
    ensures Pow10(k) <= Pow10(n)
    decreases n
  {
    if k < n {
      Pow10Mono(k, n - 1);
    }
  }

  /** Scales a short fraction up to eight digits. */
  method PadFraction(fraction0: int64, digits0: nat) returns (fraction: int64)
    requires digits0 <= SCALE_DIGITS && 0 <= fraction0 as int < Pow10(digits0)
    ensures fraction as int == fraction0 as int * Pow10(SCALE_DIGITS - digits0)
    ensures 0 <= fraction as int < SCALE
  {
    fraction := fraction0;
    var digits := digits0;
    Pow10Eight();
    while digits < SCALE_DIGITS
      invariant digits0 <= digits <= SCALE_DIGITS
      invariant 0 <= fraction as int < Pow10(digits)
      invariant fraction as int * Pow10(SCALE_DIGITS - digits) == fraction0 as int * Pow10(SCALE_DIGITS - digits0)
    {
      Pow10Mono(digits, 7);
      fraction := fraction * 10;
      digits := digits + 1;
    }
  }

  /** The point and what follows it, if anything does. */
  method ReadTail(s: string, j: nat) returns (fraction: int64, digits: nat, end: nat)
    requires j <= |s|
    ensures j <= end <= |s| && (end == |s| <==> Tail(s, j).Some?)
    ensures digits <= SCALE_DIGITS && 0 <= fraction as int < Pow10(digits)
    ensures Tail(s, j).Some? ==>
            var frac := Tail(s, j).value.1;
            && AllDigits(frac) && digits == |FirstEight(frac)| && fraction as int == NatOf(FirstEight(frac))
            && (digits > 0 <==> |frac| > 0)
  {
    fraction, digits, end := 0, 0, j;
    if j < |s| && s[j] == '.' {
      fraction, digits, end := ReadFraction(s, j + 1);
      assert end == |s| ==> s[j + 1..end] == s[j + 1..];
    }
  }

  /** What is read, in terms of the pieces found on the way. */
  lemma PiecesDecide(s: string, j: nat, w: int, f: int)
    requires j == Start(s) + Run(s, Start(s)) && Tail(s, j).Some?
    requires j > Start(s) || |Tail(s, j).value.1| > 0
    requires AllDigits(s[Start(s)..j]) && w == NatOf(s[Start(s)..j])
    requires AllDigits(Tail(s, j).value.1) && f == FractionOf(Tail(s, j).value.1)
    ensures Parsed(s) == Combined(SignOf(s) == Minus, w, f)
  {
    var d := Numeral(SignOf(s), s[Start(s)..j], Tail(s, j).value.0, Tail(s, j).value.1);
    assert Spelled(s) == Some(d);
    SpelledWellFormed(s);
    assert Meaning(d) == Combined(SignOf(s) == Minus, w, f);
  }

  function Combined(negative: bool, w: int, f: int): Option<int> {
    var m := w * SCALE + f;
    if m > INT64_MAX then None else Some(if negative then -m else m)
  }

  function AsInt(r: Option<int64>): Option<int> {
    match r case None => None case Some(v) => Some(v as int)
  }

  /** Puts the two parts together unless the result would not fit. */
  method Combine(negative: bool, integerPart: int64, fraction: int64) returns (r: Option<int64>)
    requires integerPart >= 0 && 0 <= fraction as int < SCALE
    ensures AsInt(r) == Combined(negative, integerPart as int, fraction as int)
  {
    if integerPart > (0x7FFF_FFFF_FFFF_FFFF - fraction) / 100_000_000 {
      return None;
    }
    var value := integerPart * 100_000_000 + fraction;
    r := Some(if negative then -value else value);
  }

  /** The parser: no intermediate value leaves 64 bits, and the result is the numeral's meaning. */
  method ParseFixed(s: string) returns (r: Option<int64>)
    ensures AsInt(r) == Parsed(s)
  {
    if |s| == 0 {
      return None;
    }
    var i := 0;
    var negative := false;
    if s[i] == '+' || s[i] == '-' {
      negative := s[i] == '-';
      i := i + 1;
    }
    r := ParseUnsigned(s, i, negative);
  }

  /** Everything after the sign. */
  method ParseUnsigned(s: string, i: nat, negative: bool) returns (r: Option<int64>)
    requires i == Start(s) && (negative <==> SignOf(s) == Minus)
    ensures AsInt(r) == Parsed(s)
  {
    var ok, integerPart, j := ReadWhole(s, i);
    if !ok {
      return None;
    }
    var fraction, digits, end := ReadTail(s, j);
    var sawDigit := j > i || digits > 0;
    if end != |s| || !sawDigit {
      return None;
    }
    PiecesDecide(s, j, NatOf(s[i..j]), FractionOf(Tail(s, j).value.1));
    fraction := PadFraction(fraction, digits);
    r := Combine(negative, integerPart, fraction);
  }

  // ----- the printer

  /** A number in decimal without leading zeros. */
  function NatText(n: nat): (s: string)
    ensures AllDigits(s) && |s| > 0
  {
    if n < 10 then [DigitChar(n)] else NatText(n / 10) + [DigitChar(n % 10)]
  }

  /** Exactly n digits, the low ones of x. */
  function FixedText(x: nat, n: nat): (s: string)
    ensures |s| == n && AllDigits(s)
  {
    if n == 0 then [] else FixedText(x / 10, n - 1) + [DigitChar(x % 10)]
  }

  /** How many of the first k digits remain once trailing zeros beyond the minimum are cut. */
  function Kept(digits: string, minDecimals: int, k: nat): (r: nat)
    requires k <= |digits|
    ensures r <= k && (k >= minDecimals ==> r >= minDecimals) && (k < minDecimals ==> r == k)
    ensures forall i :: r <= i < k ==> digits[i] == '0'
    ensures r > 0 && r > minDecimals ==> digits[r - 1] != '0'
  {
    if k > 0 && k > minDecimals && digits[k - 1] == '0' then Kept(digits, minDecimals, k - 1) else k
  }

  /** The numeral printed for a value. */
  function Printed(v: int, minDecimals: int): Numeral {
    var m := if v < 0 then -v else v;
    var digits := FixedText(m % SCALE, SCALE_DIGITS);
    var keep := Kept(digits, minDecimals, SCALE_DIGITS);
    Numeral(if v < 0 then Minus else NoSign, NatText(m / SCALE), keep > 0, digits[..keep])
  }

  /** The part of a value behind the point. */
  function FractionPart(v: int): (r: nat)
    ensures r < SCALE
  {
    (if v < 0 then -v else v) % SCALE
  }

  predicate AllZeros(s: string) {
    forall i :: 0 <= i < |s| ==> s[i] == '0'
  }

  lemma ZerosPush(t: string, c: char)
    ensures AllZeros(t + [c]) <==> AllZeros(t) && c == '0'
  {
    var s := t + [c];
    if AllZeros(s) {
      assert s[|t|] == c;
      assert forall i :: 0 <= i < |t| ==> t[i] == s[i];
    }
  }

  lemma {:induction false} FixedTextZero(x: nat, n: nat)
    requires x < Pow10(n)
    ensures AllZeros(FixedText(x, n)) <==> x == 0
  {
    if n > 0 {
      FixedTextZero(x / 10, n - 1);
      ZerosPush(FixedText(x / 10, n - 1), DigitChar(x % 10));
    }
  }

  /**
    The scan for zeros would read in front of its digit buffer exactly when a
    negative number of decimals is asked for and every fraction digit is zero.
  */
  lemma ScanLeavesBufferIff(v: int, minDecimals: int)
    ensures Kept(FixedText(FractionPart(v), SCALE_DIGITS), minDecimals, SCALE_DIGITS) == 0 > minDecimals <==>
            minDecimals < 0 && FractionPart(v) == 0
  {
    Pow10Eight();
    FixedTextZero(FractionPart(v), 8);
  }

  method FormatFixed(v: int64, minDecimals: int) returns (out: string)
    requires minDecimals >= 0 || FractionPart(v as int) != 0
    ensures out == Text(Printed(v as int, minDecimals))
  {
    var negative := v < 0;
    // Negated as an unsigned number, where the most negative value has a magnitude.
    var bits: uint64 := if negative then (v as int + 0x1_0000_0000_0000_0000) as uint64 else v as uint64;
    var magnitude: uint64 := if negative then (0xFFFF_FFFF_FFFF_FFFF - bits) + 1 else bits;
    var integerPart := magnitude / 100_000_000;
    var fraction := magnitude % 100_000_000;
    var fracDigits := FillDigits(fraction);
    var keep := SCALE_DIGITS;
    ScanLeavesBufferIff(v as int, minDecimals);
    while keep > minDecimals && fracDigits[keep - 1] == '0'
      invariant 0 <= keep <= SCALE_DIGITS && (keep == 0 ==> minDecimals >= 0)
      invariant Kept(fracDigits, minDecimals, keep) == Kept(fracDigits, minDecimals, SCALE_DIGITS)
    {
      keep := keep - 1;
    }
    out := Assemble(negative, integerPart as nat, keep, fracDigits);
  }

  /** Sign, integer part, point and the kept digits. */
  method Assemble(negative: bool, integerPart: nat, keep: nat, fracDigits: string) returns (out: string)
    requires keep <= |fracDigits|
    ensures out == Text(Numeral(if negative then Minus else NoSign, NatText(integerPart), keep > 0, fracDigits[..keep]))
  {
    out := "";
    if negative {
      out := out + "-";
    }
    out := out + NatText(integerPart);
    if keep > 0 {
      out := out + ".";
      out := out + fracDigits[..keep];
    }
  }

  /** Fills the digit buffer from its last position to its first. */
  method FillDigits(fraction0: uint64) returns (digits: string)
    ensures digits == FixedText(fraction0 as nat, SCALE_DIGITS)
  {
    var buffer := new char[8](i => '0');
    var fraction := fraction0;
    var i := 8;
    while i > 0
      invariant 0 <= i <= 8
      invariant FixedText(fraction as nat, i) + buffer[i..] == FixedText(fraction0 as nat, 8)
    {
      i := i - 1;
      ghost var tail := buffer[i + 1..];
      buffer[i] := DigitChar((fraction % 10) as int);
      assert buffer[i + 1..] == tail;
      assert buffer[i..] == [DigitChar((fraction % 10) as int)] + tail;
      fraction := fraction / 10;
    }
    digits := buffer[..];
    assert buffer[0..] == buffer[..];
  }

  // ----- round trip

  lemma {:induction false} NatTextNat(n: nat)
    ensures NatOf(NatText(n)) == n
  {
    var s := NatText(n);
    if n < 10 {
      assert s[..0] == [];
    } else {
      NatTextNat(n / 10);
      assert s[..|s| - 1] == NatText(n / 10);
    }
  }

  lemma {:induction false} FixedTextNat(x: nat, n: nat)
    requires x < Pow10(n)
    ensures NatOf(FixedText(x, n)) == x
  {
    if n > 0 {
      FixedTextNat(x / 10, n - 1);
      var s := FixedText(x, n);
      assert s[..n - 1] == FixedText(x / 10, n - 1);
    }
  }

  /** Cutting zeros off the end of a fraction does not change it. */
  lemma {:induction false} CutZeros(digits: string, keep: nat, k: nat)
    requires AllDigits(digits) && keep <= k <= |digits| <= SCALE_DIGITS
    requires forall i :: keep <= i < k ==> digits[i] == '0'
    ensures NatOf(digits[..keep]) * Pow10(SCALE_DIGITS - keep) == NatOf(digits[..k]) * Pow10(SCALE_DIGITS - k)
    decreases k - keep
  {
    if keep < k {
      CutZeros(digits, keep, k - 1);
      NatOfPush(digits, 0, k - 1);
      assert digits[0..k] == digits[..k] && digits[0..k - 1] == digits[..k - 1];
      assert NatOf(digits[..k]) == 10 * NatOf(digits[..k - 1]);
      TenTimes(NatOf(digits[..k - 1]), Pow10(SCALE_DIGITS - k));
    }
  }

  lemma TenTimes(a: int, b: int)
    ensures a * (10 * b) == (10 * a) * b
  {
  }

  /** The printed numeral is well formed and has the value's magnitude. */
  lemma PrintedMagnitude(v: int, minDecimals: int)
    ensures WellFormed(Printed(v, minDecimals))
    ensures Magnitude(Printed(v, minDecimals)) == if v < 0 then -v else v
  {
    var m := if v < 0 then -v else v;
    NatTextNat(m / SCALE);
    KeptFraction(m % SCALE, minDecimals);
  }

  /** The kept digits still spell the whole fraction. */
  lemma KeptFraction(x: nat, minDecimals: int)
    requires x < SCALE
    ensures var digits := FixedText(x, SCALE_DIGITS);
            FractionOf(digits[..Kept(digits, minDecimals, SCALE_DIGITS)]) == x
  {
    var digits := FixedText(x, SCALE_DIGITS);
    Pow10Eight();
    FixedTextNat(x, 8);
    CutFraction(digits, Kept(digits, minDecimals, SCALE_DIGITS));
  }

  /** Eight digits mean the same fraction without zeros at their end. */
  lemma CutFraction(digits: string, keep: nat)
    requires AllDigits(digits) && keep <= |digits| == SCALE_DIGITS
    requires forall i :: keep <= i < |digits| ==> digits[i] == '0'
    ensures FractionOf(digits[..keep]) == NatOf(digits)
  {
    CutZeros(digits, keep, SCALE_DIGITS);
    assert digits[..SCALE_DIGITS] == digits;
    assert FirstEight(digits[..keep]) == digits[..keep];
    assert Pow10(0) == 1;
  }

  /**
    Reading what was printed gives the value back, for every number of decimals,
    exactly when the value is not -2^63: its magnitude does not fit and is refused.
  */
  lemma RoundTrip(v: int, minDecimals: int)
    requires FitsInt64(v)
    ensures Parsed(Text(Printed(v, minDecimals))) == Some(v) <==> v != INT64_MIN
    ensures v == INT64_MIN ==> Parsed(Text(Printed(v, minDecimals))) == None
  {
    MeaningOfPrinted(v, minDecimals);
    TextMeans(Printed(v, minDecimals));
  }

  lemma TextMeans(d: Numeral)
    requires WellFormed(d)
    ensures Parsed(Text(d)) == Meaning(d)
  {
    TextIsSpelled(d);
  }

  lemma MeaningOfPrinted(v: int, minDecimals: int)
    requires FitsInt64(v)
    ensures WellFormed(Printed(v, minDecimals))
    ensures Meaning(Printed(v, minDecimals)) == if v == INT64_MIN then None else Some(v)
  {
    PrintedMagnitude(v, minDecimals);
  }

  /** The printer keeps at least the requested decimals (up to eight) and no zeros beyond them. */
  lemma PrintedDecimals(v: int, minDecimals: int)
    ensures var d := Printed(v, minDecimals);
            && |d.frac| <= SCALE_DIGITS && (d.point <==> d.frac != [])
            && (minDecimals <= SCALE_DIGITS ==> |d.frac| >= minDecimals)
            && (minDecimals > SCALE_DIGITS ==> |d.frac| == SCALE_DIGITS)
            && (|d.frac| > 0 && |d.frac| > minDecimals ==> d.frac[|d.frac| - 1] != '0')
  {
  }

  /** The integer digits of a number have no zero in front, unless they are the number zero. */
  lemma {:induction false} NatTextCanonical(n: nat)
    ensures NatText(n)[0] == '0' <==> n == 0
    ensures n == 0 ==> NatText(n) == "0"
  {
    if n >= 10 {
      NatTextCanonical(n / 10);
      assert NatText(n)[0] == NatText(n / 10)[0];
    }
  }

  /** A printed value starts with a minus when it is negative and with a digit otherwise, and has no needless zero in front. */
  lemma PrintedIsCanonical(v: int, minDecimals: int)
    ensures var text, whole := Text(Printed(v, minDecimals)), Printed(v, minDecimals).whole;
            && text != [] && (v < 0 ==> text[0] == '-') && (v >= 0 ==> IsDigit(text[0]))
            && AllDigits(whole) && whole != [] && (whole[0] == '0' ==> whole == "0")
            && NatOf(whole) == (if v < 0 then -v else v) / SCALE
  {
    var n := (if v < 0 then -v else v) / SCALE;
    NatTextCanonical(n);
    NatTextNat(n);
    assert IsDigit(NatText(n)[0]);
  }

  // ----- sequence numbers and levels (src/net/json.h)

  function Digits(text: string): string {
    if text != [] && text[0] == '-' then text[1..] else text
  }

  /** The 64-bit number a string spells: an optional minus and at least one digit. */
  function NumberOf(text: string): Option<int> {
    var body := Digits(text);
    if body == [] || !AllDigits(body) then None
    else
      var n: int := NatOf(body);
      var v := if body != text then -n else n;
      if FitsInt64(v) then Some(v) else None
  }

  /** Every 64-bit number in plain decimal is read back as itself. */
  lemma NumberRoundTrip(v: int)
    requires FitsInt64(v)
    ensures NumberOf((if v < 0 then "-" else "") + NatText(if v < 0 then -v else v)) == Some(v)
  {
    var n := if v < 0 then -v else v;
    var text := (if v < 0 then "-" else "") + NatText(n);
    NatTextNat(n);
    assert IsDigit(NatText(n)[0]);
    assert Digits(text) == NatText(n);
  }

  /** A prefix that has already outgrown 64 bits settles the matter. */
  lemma NumberTooLarge(text: string, k: nat)
    requires k <= |Digits(text)| && AllDigits(Digits(text)[..k])
    requires NatOf(Digits(text)[..k]) > INT64_MAX + 1 || (k < |Digits(text)| && 10 * NatOf(Digits(text)[..k]) > INT64_MAX + 1)
    ensures NumberOf(text) == None
  {
    var body := Digits(text);
    if AllDigits(body) {
      assert body[0..k] == body[..k] && body[0..|body|] == body;
      NatOfGrows(body, 0, k, |body|);
      if k < |body| {
        NatOfPush(body, 0, k);
        assert body[0..k + 1] == body[..k + 1];
        NatOfGrows(body, 0, k + 1, |body|);
      }
    }
  }

  lemma DigitsPush(s: string, k: nat)
    requires k < |s| && AllDigits(s[..k]) && IsDigit(s[k])
    ensures AllDigits(s[..k + 1]) && NatOf(s[..k + 1]) == 10 * NatOf(s[..k]) + DigitOf(s[k])
  {
    NatOfPush(s, 0, k);
    assert s[0..k] == s[..k] && s[0..k + 1] == s[..k + 1];
  }

  /** The digit loop for sequence numbers sent as strings; accepts exactly the 64-bit numbers. */
  method ReadNumber(text: string) returns (r: Option<int64>)
    ensures AsInt(r) == NumberOf(text)
  {
    if |text| == 0 {
      return None;
    }
    var negative := text[0] == '-';
    var body := if negative then text[1..] else text;
    if |body| == 0 {
      return None;
    }
    var parsed: int64 := 0;
    for k := 0 to |body|
      invariant AllDigits(body[..k]) && parsed as int == NatOf(body[..k])
    {
      if !('0' <= body[k] <= '9') {
        return None;
      }
      DigitsPush(body, k);
      var digit := DigitOf(body[k]) as int64;
      if parsed > (0x7FFF_FFFF_FFFF_FFFF - digit) / 10 {
        if negative && k + 1 == |body| && parsed == 0x7FFF_FFFF_FFFF_FFFF / 10 && digit == 8 {
          assert body[..k + 1] == body;
          return Some(-0x8000_0000_0000_0000);
        }
        if k + 1 < |body| {
          NumberTooLarge(text, k + 1);
        } else {
          assert body[..k + 1] == body;
        }
        return None;
      }
      parsed := parsed * 10 + digit;
    }
    assert body[..|body|] == body;
    r := Some(if negative then -parsed else parsed);
  }

  /** A JSON array entry: its fields, None for a field that is not a string. */
  type Entry = seq<Option<string>>

  /** The level an entry spells, if it passes the gate: a positive price, a quantity not negative. */
  function LevelOf(e: Entry): Option<Level> {
    if |e| < 2 || e[0].None? || e[1].None? then None
    else
      match (Parsed(e[0].value), Parsed(e[1].value))
      case (Some(px), Some(qty)) => if px <= 0 || qty < 0 then None else Some(Level(px, qty))
      case _ => None
  }

  /** The first field of an entry is its price and the second its quantity; further fields do not matter. */
  lemma LevelIsPriceThenQuantity(px: Numeral, qty: Numeral, more: Entry)
    requires WellFormed(px) && WellFormed(qty)
    ensures var e := [Some(Text(px)), Some(Text(qty))] + more;
            forall x :: LevelOf(e) == Some(x) <==>
              Meaning(px) == Some(x.px) && Meaning(qty) == Some(x.qty) && x.px > 0 && x.qty >= 0
  {
    TextMeans(px);
    TextMeans(qty);
    var e := [Some(Text(px)), Some(Text(qty))] + more;
    assert e[0] == Some(Text(px)) && e[1] == Some(Text(qty));
  }

  /** A level printed field by field is read back. */
  lemma LevelRoundTrip(x: Level, decimals: nat, more: Entry)
    requires 0 < x.px <= INT64_MAX && 0 <= x.qty <= INT64_MAX
    ensures LevelOf([Some(Text(Printed(x.px, decimals))), Some(Text(Printed(x.qty, decimals)))] + more) == Some(x)
  {
    MeaningOfPrinted(x.px, decimals);
    MeaningOfPrinted(x.qty, decimals);
    LevelIsPriceThenQuantity(Printed(x.px, decimals), Printed(x.qty, decimals), more);
  }

  method ParseEntry(pair: Entry) returns (r: Option<Level>)
    ensures r == LevelOf(pair)
    ensures r.Some? ==> r.value.px > 0 && r.value.qty >= 0
  {
    if |pair| < 2 || pair[0].None? || pair[1].None? {
      return None;
    }
    var px := ParseFixed(pair[0].value);
    if px.None? {
      return None;
    }
    var qty := ParseFixed(pair[1].value);
    if qty.None? {
      return None;
    }
    if px.value <= 0 || qty.value < 0 {
      return None;
    }
    r := Some(Level(px.value as int, qty.value as int));
  }

  lemma GatedPush(out: seq<Level>, x: Level)
    requires Gated(out) && x.px > 0 && x.qty >= 0
    ensures Gated(out + [x])
  {
  }

  /**
    A level array is read whole or not at all: every entry must spell a level, extra
    fields are ignored, and what is read is fit to enter a book.
  */
  method ParseLevelArray(entries: seq<Entry>) returns (r: Option<seq<Level>>)
    ensures r.Some? <==> forall i :: 0 <= i < |entries| ==> LevelOf(entries[i]).Some?
    ensures r.Some? ==> |r.value| == |entries| && Gated(r.value)
    ensures r.Some? ==> forall i :: 0 <= i < |entries| ==> LevelOf(entries[i]) == Some(r.value[i])
  {
    var out: seq<Level> := [];
    for i := 0 to |entries|
      invariant |out| == i && Gated(out)
      invariant forall j :: 0 <= j < i ==> LevelOf(entries[j]) == Some(out[j])
    {
      var level := ParseEntry(entries[i]);
      if level.None? {
        return None;
      }
      GatedPush(out, level.value);
      out := out + [level.value];
    }
    r := Some(out);
  }
}
