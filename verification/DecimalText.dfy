/**
 * Decimal text: the strict grammar accepted by `parseDecimal` (packages/pricing/src/money.ts)
 * and the two printers whose output the engine parses back (packages/pricing/src/proposal.ts).
 */
module DecimalText {
  import opened Outcomes
  import opened Money

  const MAX_INTEGER_DIGITS: nat := 20

  predicate AllDigits(s: string) {
    forall i :: 0 <= i < |s| ==> '0' <= s[i] <= '9'
  }

  /** Value of a run of digits, read from the left. */
  function DigitsValue(s: string): int {
    if s == [] then 0
    else 10 * DigitsValue(s[..|s| - 1]) + (s[|s| - 1] as int - '0' as int)
  }

  /** Length of the prefix of `s` before its first decimal point. */
  function IntegerLength(s: string): (n: nat)
    ensures n <= |s|
    ensures forall i :: 0 <= i < n ==> s[i] != '.'
    ensures n < |s| ==> s[n] == '.'
  {
    if s == [] || s[0] == '.' then 0 else 1 + IntegerLength(s[1..])
  }

  /** The value of an integer part and of the digits after the point. */
  function DecimalValue(whole: string, fraction: string): real {
    DigitsValue(whole) as real + DigitsValue(fraction) as real / Shift(|fraction|)
  }

  /** A text split at its sign and at its first decimal point. */
  datatype Parts = Parts(negative: bool, whole: string, point: bool, fraction: string)

  function SplitBody(negative: bool, body: string): Parts {
    var n := IntegerLength(body);
    if n < |body| then Parts(negative, body[..n], true, body[n + 1..]) else Parts(negative, body, false, [])
  }

  function Split(s: string): Parts {
    var negative := s != [] && s[0] == '-';
    SplitBody(negative, if negative then s[1..] else s)
  }

  predicate WellFormed(p: Parts) {
    && 1 <= |p.whole| <= MAX_INTEGER_DIGITS
    && AllDigits(p.whole)
    && AllDigits(p.fraction)
    && (p.point ==> p.fraction != [])
  }

  function Value(p: Parts): real {
    var v := DecimalValue(p.whole, p.fraction);
    if p.negative then -v else v
  }

  /** No exponent, comma, blank, ".5" or "1.": an ambiguous text is refused, not interpreted. */
  function ParseDecimal(s: string, maxScale: nat, allowNegative: bool): Result<real> {
    var p := Split(s);
    if !WellFormed(p) || (p.negative && !allowNegative) || |p.fraction| > maxScale then Err(INVALID_DECIMAL)
    else Ok(Value(p))
  }

  /** Digits of a natural number, as JavaScript prints an integer. */
  function NatText(n: nat): (s: string)
    ensures |s| >= 1 && AllDigits(s)
    ensures DigitsValue(s) == n
  {
    var digit := [('0' as int + n % 10) as char];
    if n < 10 then digit else
      var s := NatText(n / 10) + digit;
      assert s[..|s| - 1] == NatText(n / 10);
      s
  }

  /** `centsToEuroString`: sign, euros, point, exactly two digits. */
  function CentsText(cents: int): string {
    var abs := if cents < 0 then -cents else cents;
    (if cents < 0 then "-" else "") + NatText(abs / 100) + "." + TwoDigits(abs % 100)
  }

  lemma {:induction false} NatTextLength(n: nat, digits: nat)
    requires digits >= 1
    ensures |NatText(n)| <= digits <==> n < Pow10(digits)
  {
    if digits == 1 {
      assert Pow10(1) == 10;
    } else if n >= 10 {
      NatTextLength(n / 10, digits - 1);
    } else {
      assert Pow10(digits) >= 10 * Pow10(digits - 1);
    }
  }

  lemma {:induction false} IntegerLengthOfDigits(s: string, rest: string)
    requires AllDigits(s) && (rest == [] || rest[0] == '.')
    ensures IntegerLength(s + rest) == |s|
  {
    if s == [] {
      assert s + rest == rest;
    } else {
      assert (s + rest)[1..] == s[1..] + rest;
      IntegerLengthOfDigits(s[1..], rest);
    }
  }

  lemma NatTextSplits(n: nat, rest: string)
    requires rest == [] || rest[0] == '.'
    ensures Split(NatText(n) + rest)
         == if rest == [] then Parts(false, NatText(n), false, []) else Parts(false, NatText(n), true, rest[1..])
  {
    var whole := NatText(n);
    assert (whole + rest)[0] == whole[0];
    IntegerLengthOfDigits(whole, rest);
    assert (whole + rest)[..|whole|] == whole;
    if rest == [] {
      assert whole + rest == whole;
    } else {
      assert (whole + rest)[|whole| + 1..] == rest[1..];
    }
  }

  /** A printed integer is parsed back exactly as long as it has at most twenty digits. */
  lemma NatTextParses(n: nat, maxScale: nat, allowNegative: bool)
    ensures ParseDecimal(NatText(n), maxScale, allowNegative)
         == if n < Pow10(MAX_INTEGER_DIGITS) then Ok(n as real) else Err(INVALID_DECIMAL)
  {
    hide NatText, DigitsValue, Split, Pow10, DecimalValue;
    assert NatText(n) + [] == NatText(n);
    NatTextSplits(n, []);
    NatTextLength(n, MAX_INTEGER_DIGITS);
    WholeValue(NatText(n));
  }

  lemma WholeValue(whole: string)
    ensures DecimalValue(whole, []) == DigitsValue(whole) as real
  {
  }

  /** The two digits of the cents. */
  function TwoDigits(n: nat): (s: string)
    requires n < 100
    ensures |s| == 2 && AllDigits(s) && DigitsValue(s) == n
  {
    var low := NatText(n);
    assert |low| <= 2 by { NatTextLength(n, 2); assert Pow10(2) == 100; }
    if |low| < 2 then
      assert low[..0] == [] && ("0" + low)[..1] == "0" && "0"[..0] == [];
      "0" + low
    else low
  }

  /**
   * Printed cents are parsed back to the same amount of euros: exactly when they are not negative
   * and their euros have at most twenty digits. Every other amount is refused, never altered.
   */
  lemma CentsTextParses(cents: int, maxScale: nat)
    requires maxScale >= 2
    ensures ParseDecimal(CentsText(cents), maxScale, false)
         == if 0 <= cents < 100 * Pow10(MAX_INTEGER_DIGITS) then Ok(CentsToEuros(cents)) else Err(INVALID_DECIMAL)
  {
    if cents < 0 {
      assert CentsText(cents)[0] == '-';
      assert Split(CentsText(cents)).negative;
    } else {
      var whole, fraction := NatText(cents / 100), TwoDigits(cents % 100);
      assert CentsText(cents) == whole + ("." + fraction);
      NatTextSplits(cents / 100, "." + fraction);
      assert Split(CentsText(cents)) == Parts(false, whole, true, fraction);
      NatTextLength(cents / 100, MAX_INTEGER_DIGITS);
      EurosAndCents(cents);
    }
  }

  lemma EurosAndCents(cents: int)
    requires cents >= 0
    ensures DecimalValue(NatText(cents / 100), TwoDigits(cents % 100)) == CentsToEuros(cents)
  {
    assert Shift(2) == 100.0 by { assert Pow10(2) == 100; }
  }

  lemma {:induction false} DigitsValueBound(s: string)
    requires AllDigits(s)
    ensures 0 <= DigitsValue(s) < Pow10(|s|)
  {
    if s != [] {
      DigitsValueBound(s[..|s| - 1]);
    }
  }

  lemma {:induction false} Pow10Grows(m: nat, n: nat)
    requires m <= n
    ensures Pow10(m) <= Pow10(n)
    decreases n - m
  {
    if m < n {
      Pow10Grows(m + 1, n);
    }
  }

  /** Every accepted decimal is a whole number of 10^-maxScale, below 10^20, and signed only if allowed. */
  lemma ParsedDecimal(s: string, maxScale: nat, allowNegative: bool)
    requires ParseDecimal(s, maxScale, allowNegative).Ok?
    ensures var v := ParseDecimal(s, maxScale, allowNegative).value;
            && Abs(v) < Pow10(MAX_INTEGER_DIGITS) as real
            && (allowNegative || v >= 0.0)
            && HasScale(v, maxScale)
  {
    var p := Split(s);
    PartsInRange(p);
    PartsScale(p, maxScale);
  }

  lemma PartsScale(p: Parts, maxScale: nat)
    requires |p.fraction| <= maxScale
    ensures HasScale(Value(p), maxScale)
  {
    DecimalValueScale(p.whole, p.fraction);
    ScaleGrows(DecimalValue(p.whole, p.fraction), |p.fraction|, maxScale);
    NegationScale(DecimalValue(p.whole, p.fraction), maxScale);
  }

  lemma PartsInRange(p: Parts)
    requires WellFormed(p)
    ensures Abs(Value(p)) < Pow10(MAX_INTEGER_DIGITS) as real
    ensures Value(p) >= 0.0 || p.negative
  {
    DecimalValueRange(p.whole, p.fraction);
    Pow10Grows(|p.whole|, MAX_INTEGER_DIGITS);
  }

  lemma DecimalValueRange(whole: string, fraction: string)
    requires AllDigits(whole) && AllDigits(fraction)
    ensures 0.0 <= DecimalValue(whole, fraction) < Pow10(|whole|) as real
  {
    DigitsValueBound(whole);
    DigitsValueBound(fraction);
    Proper(DigitsValue(fraction), Pow10(|fraction|));
    assert (DigitsValue(whole) + 1) as real <= Pow10(|whole|) as real;
  }

  lemma Proper(f: nat, p: nat)
    requires f < p
    ensures 0.0 <= f as real / p as real < 1.0
  {
  }

  lemma {:induction false} ScaleGrows(v: real, m: nat, n: nat)
    requires m <= n && HasScale(v, m)
    ensures HasScale(v, n)
    decreases n - m
  {
    if m < n {
      assert Shift(m + 1) == 10.0 * Shift(m);
      TenTimes(v, Shift(m), (v * Shift(m)).Floor);
      ScaledInteger(v, m + 1, 10 * (v * Shift(m)).Floor);
      ScaleGrows(v, m + 1, n);
    }
  }

  lemma TenTimes(v: real, p: real, n: int)
    requires v * p == n as real
    ensures v * (10.0 * p) == (10 * n) as real
  {
  }

  lemma DecimalValueScale(whole: string, fraction: string)
    ensures HasScale(DecimalValue(whole, fraction), |fraction|)
  {
    var w, f, p := DigitsValue(whole), DigitsValue(fraction), Pow10(|fraction|);
    ScaledDigits(w, f, p);
    ScaledInteger(DecimalValue(whole, fraction), |fraction|, w * p + f);
  }

  lemma ScaledDigits(w: int, f: int, p: int)
    requires p >= 1
    ensures (w as real + f as real / p as real) * p as real == (w * p + f) as real
  {
  }

  lemma NegationScale(v: real, scale: nat)
    requires HasScale(v, scale)
    ensures HasScale(-v, scale)
  {
    Opposite(v, Shift(scale));
    ScaledInteger(-v, scale, -(v * Shift(scale)).Floor);
  }

  lemma Opposite(v: real, p: real)
    ensures (-v) * p == -(v * p)
  {
  }

  // ---------------------------------------------------------- what a text means

  /** The text is written with these signs and digits: a minus or none, a whole part, a point only before digits. */
  ghost predicate Spelt(s: string, minus: bool, whole: string, fraction: string) {
    && s == (if minus then "-" else []) + whole + (if fraction == [] then [] else "." + fraction)
    && 1 <= |whole| <= 20 && AllDigits(whole) && AllDigits(fraction)
  }

  /** The digits, and the point before those of the fraction. */
  function Unsigned(whole: string, fraction: string): string { whole + if fraction == [] then [] else "." + fraction }

  lemma SignCut(minus: bool, body: string)
    requires body != [] && body[0] != '-'
    ensures var s := (if minus then "-" else []) + body; s != [] && (s[0] == '-' <==> minus) && (if minus then s[1..] else s) == body
  {
  }

  lemma BodyCut(whole: string, fraction: string)
    requires AllDigits(whole)
    ensures var body := Unsigned(whole, fraction);
            && IntegerLength(body) == |whole| && body[..|whole|] == whole && (fraction != [] <==> |whole| < |body|)
            && (fraction != [] ==> body[|whole| + 1..] == fraction)
  {
    IntegerLengthOfDigits(whole, if fraction == [] then [] else "." + fraction);
    hide IntegerLength, AllDigits;
  }

  lemma SplitSigned(minus: bool, body: string)
    requires body != [] && body[0] != '-'
    ensures Split((if minus then "-" else []) + body) == SplitBody(minus, body)
  {
    SignCut(minus, body);
    hide SplitBody;
  }

  lemma SpeltIsSigned(s: string, minus: bool, whole: string, fraction: string)
    requires Spelt(s, minus, whole, fraction)
    ensures s == (if minus then "-" else []) + Unsigned(whole, fraction)
    ensures AllDigits(whole) && Unsigned(whole, fraction) != [] && Unsigned(whole, fraction)[0] != '-'
  {
    Rejoined(if minus then "-" else [], whole, if fraction == [] then [] else "." + fraction);
    assert Unsigned(whole, fraction)[0] == whole[0];
  }

  lemma SplitOfSpelt(s: string, minus: bool, whole: string, fraction: string)
    requires Spelt(s, minus, whole, fraction)
    ensures Split(s) == Parts(minus, whole, fraction != [], fraction)
  {
    SpeltIsSigned(s, minus, whole, fraction);
    hide *;
    var body := Unsigned(whole, fraction);
    SplitSigned(minus, body);
    BodyCut(whole, fraction);
    BodySplits(minus, body, whole, fraction);
  }

  lemma BodySplits(minus: bool, body: string, whole: string, fraction: string)
    requires IntegerLength(body) == |whole| && body[..|whole|] == whole && (fraction != [] <==> |whole| < |body|)
    requires fraction != [] ==> body[|whole| + 1..] == fraction
    ensures SplitBody(minus, body) == Parts(minus, whole, fraction != [], fraction)
  {
    hide IntegerLength;
    assert |whole| == |body| ==> body[..|whole|] == body;
  }

  lemma BodyJoined(body: string)
    ensures var n := IntegerLength(body); body == body[..n] + if n < |body| then "." + body[n + 1..] else []
  {
    var n := IntegerLength(body);
    if n < |body| {
      CutAt(body, n);
    }
  }

  lemma SignJoined(s: string)
    ensures var minus := s != [] && s[0] == '-'; s == (if minus then "-" else []) + if minus then s[1..] else s
  {
  }

  lemma SpeltBySplit(s: string)
    requires WellFormed(Split(s))
    ensures var p := Split(s); Spelt(s, p.negative, p.whole, p.fraction)
  {
    hide *;
    var p := Split(s);
    var body := SignedSplit(s);
    PartsJoined(p, body);
    SpeltFrom(s, p, body);
  }

  lemma SignedSplit(s: string) returns (body: string)
    ensures var p := Split(s); p == SplitBody(p.negative, body) && s == (if p.negative then "-" else []) + body
  {
    SignJoined(s);
    hide IntegerLength;
    body := if Split(s).negative then s[1..] else s;
  }

  lemma SpeltFrom(s: string, p: Parts, body: string)
    requires WellFormed(p) && s == (if p.negative then "-" else []) + body
    requires body == p.whole + if p.fraction == [] then [] else "." + p.fraction
    ensures Spelt(s, p.negative, p.whole, p.fraction)
  {
    hide AllDigits;
    Rejoined(if p.negative then "-" else [], p.whole, if p.fraction == [] then [] else "." + p.fraction);
  }

  lemma PartsJoined(p: Parts, body: string)
    requires p == SplitBody(p.negative, body) && WellFormed(p)
    ensures body == p.whole + if p.fraction == [] then [] else "." + p.fraction
  {
    hide AllDigits;
    BodyJoined(body);
    hide IntegerLength;
  }

  lemma CutAt(s: string, n: nat)
    requires n < |s|
    ensures s == s[..n] + ([s[n]] + s[n + 1..])
  {
  }

  lemma Rejoined(a: string, b: string, c: string)
    ensures a + (b + c) == a + b + c
  {
  }

  /** What the digits are worth. */
  ghost predicate Worth(v: real, minus: bool, whole: string, fraction: string) {
    var size := DigitsValue(whole) as real + DigitsValue(fraction) as real / Pow10(|fraction|) as real;
    v == if minus then -size else size
  }

  /** The text is spelt within the limits, and the value is what it is worth. */
  ghost predicate ReadsAs(s: string, maxScale: nat, allowNegative: bool, v: real, minus: bool, whole: string, fraction: string) {
    Spelt(s, minus, whole, fraction) && |fraction| <= maxScale && (minus ==> allowNegative) && Worth(v, minus, whole, fraction)
  }

  lemma ValueIsWorth(p: Parts)
    ensures forall v :: v == Value(p) <==> Worth(v, p.negative, p.whole, p.fraction)
  {
    hide DigitsValue, Pow10;
  }

  lemma ReadAsParsed(s: string, maxScale: nat, allowNegative: bool, v: real, minus: bool, whole: string, fraction: string)
    requires ReadsAs(s, maxScale, allowNegative, v, minus, whole, fraction)
    ensures ParseDecimal(s, maxScale, allowNegative) == Ok(v)
  {
    SplitOfSpelt(s, minus, whole, fraction);
    hide Split, Value, DigitsValue, Pow10, AllDigits;
    ValueIsWorth(Split(s));
  }

  /**
   * A decimal is accepted exactly when it is spelt with up to twenty digits, then possibly a point and up to
   * `maxScale` digits, a minus only where allowed; its value is what those digits are worth.
   */
  lemma ParsesExactly(s: string, maxScale: nat, allowNegative: bool, v: real)
    ensures ParseDecimal(s, maxScale, allowNegative) == Ok(v)
            <==> exists minus, whole, fraction :: ReadsAs(s, maxScale, allowNegative, v, minus, whole, fraction)
  {
    hide Split, Value, Worth, Spelt;
    if ParseDecimal(s, maxScale, allowNegative) == Ok(v) {
      SpeltBySplit(s);
      var p := Split(s);
      ValueIsWorth(p);
      assert ReadsAs(s, maxScale, allowNegative, v, p.negative, p.whole, p.fraction);
    }
    forall minus, whole, fraction | ReadsAs(s, maxScale, allowNegative, v, minus, whole, fraction)
      ensures ParseDecimal(s, maxScale, allowNegative) == Ok(v)
    {
      ReadAsParsed(s, maxScale, allowNegative, v, minus, whole, fraction);
    }
  }

  /** The value of a run of digits, digit by digit from the right. */
  lemma {:induction false} DigitsCount(s: string, i: nat)
    requires i < |s|
    ensures DigitsValue(s) == DigitsValue(s[..i]) * Pow10(|s| - i) + (s[i] as int - '0' as int) * Pow10(|s| - 1 - i) + DigitsValue(s[i + 1..])
    decreases |s|
  {
    var init := s[..|s| - 1];
    if i == |s| - 1 {
      assert s[i + 1..] == [] && s[..i] == init && Pow10(1) == 10;
    } else {
      DigitsCount(init, i);
      assert init[..i] == s[..i] && s[i + 1..][..|s| - i - 2] == init[i + 1..];
      Decimal(DigitsValue(s[..i]), init[i] as int - '0' as int, DigitsValue(init[i + 1..]), Pow10(|init| - i), Pow10(|init| - 1 - i));
    }
  }

  lemma Decimal(a: int, d: int, rest: int, p: int, q: int)
    ensures 10 * (a * p + d * q + rest) == a * (10 * p) + d * (10 * q) + 10 * rest
  {
  }
}
