/** Exact costs, printed with ten decimals and without trailing zeros. */
module Decimals {
  import opened Wrappers

  const SCALE: nat := 10_000_000_000

  function Pow10(k: nat): (p: nat)
    ensures p > 0
  {
    if k == 0 then 1 else 10 * Pow10(k - 1)
  }

  // ----- Printing -----

  function Digit(d: nat): char
    requires d < 10
  {
    '0' + d as char
  }

  function Digits(n: nat): string {
    if n < 10 then [Digit(n)] else Digits(n / 10) + [Digit(n % 10)]
  }

  /** The last k digits of m, with leading zeros. */
  function Padded(m: nat, k: nat): (s: string)
    ensures |s| == k
  {
    if k == 0 then "" else Padded(m / 10, k - 1) + [Digit(m % 10)]
  }

  function Abs(x: real): real { if x < 0.0 then -x else x }

  /** |x| in units of the tenth decimal, rounded to the nearest, halves away from zero. */
  function Scaled(x: real): nat {
    (Abs(x) * SCALE as real + 0.5).Floor
  }

  /** big.Rat's FloatString(10). */
  function FloatString(x: real): string {
    var n := Scaled(x);
    (if x < 0.0 then "-" else "") + Digits(n / SCALE) + "." + Padded(n % SCALE, 10)
  }

  function TrimRight(s: string, c: char): string {
    if s != "" && s[|s| - 1] == c then TrimRight(s[..|s| - 1], c) else s
  }

  function DecimalFromRat(x: real): string {
    var text := TrimRight(TrimRight(FloatString(x), '0'), '.');
    if text == "" then "0" else text
  }

  // ----- Parsing -----

  predicate IsDigit(c: char) { '0' <= c <= '9' }

  predicate AllDigits(s: string) {
    forall i :: 0 <= i < |s| ==> IsDigit(s[i])
  }

  function ParseNat(s: string): nat
    requires AllDigits(s)
  {
    if s == "" then 0 else ParseNat(s[..|s| - 1]) * 10 + (s[|s| - 1] - '0') as nat
  }

  /** The position of the first dot, or the length if there is none. */
  function DotAt(s: string): (i: nat)
    ensures i <= |s|
  {
    if s == "" || s[0] == '.' then 0 else 1 + DotAt(s[1..])
  }

  function ParseParts(whole: string, fraction: string): Option<real> {
    if !AllDigits(whole) || !AllDigits(fraction) || whole + fraction == "" then None
    else Some(ParseNat(whole) as real + ParseNat(fraction) as real / Pow10(|fraction|) as real)
  }

  function ParseUnsigned(s: string): Option<real> {
    var dot := DotAt(s);
    ParseParts(s[..dot], if dot == |s| then "" else s[dot + 1..])
  }

  /** big.Rat's SetString on plain decimals. */
  function Parse(s: string): Option<real> {
    if s != "" && s[0] == '-' then
      match ParseUnsigned(s[1..])
      case None => None
      case Some(x) => Some(-x)
    else if s != "" && s[0] == '+' then ParseUnsigned(s[1..])
    else ParseUnsigned(s)
  }

  // ----- The services -----

  function Cost(tokens: int, price: real): real {
    price * tokens as real / 1_000_000.0
  }

  /** The estimate in dollars for tokens at a price per million; None for an unreadable catalogue price. */
  function EstimatedTokenCost(tokens: int, pricePerMillion: string): Option<string> {
    match Parse(pricePerMillion)
    case None => None
    case Some(price) => Some(DecimalFromRat(Cost(tokens, price)))
  }

  datatype Sum = NothingToAdd | Invalid | Total(text: string)

  ghost predicate Readable(values: seq<Option<string>>) {
    forall i :: 0 <= i < |values| && values[i].Some? ==> Parse(values[i].value).Some?
  }

  ghost predicate AnyGiven(values: seq<Option<string>>) {
    exists i :: 0 <= i < |values| && values[i].Some?
  }

  function ValueOf(value: Option<string>): real {
    if value.Some? && Parse(value.value).Some? then Parse(value.value).value else 0.0
  }

  function TotalOf(values: seq<Option<string>>): real {
    if values == [] then 0.0 else TotalOf(values[..|values| - 1]) + ValueOf(values[|values| - 1])
  }

  ghost function SumOf(values: seq<Option<string>>): Sum {
    if !Readable(values) then Invalid
    else if AnyGiven(values) then Total(DecimalFromRat(TotalOf(values)))
    else NothingToAdd
  }

  lemma OneMoreValue(values: seq<Option<string>>, i: nat)
    requires i < |values|
    ensures Readable(values[..i + 1]) <==>
              Readable(values[..i]) && (values[i].Some? ==> Parse(values[i].value).Some?)
    ensures AnyGiven(values[..i + 1]) <==> AnyGiven(values[..i]) || values[i].Some?
    ensures TotalOf(values[..i + 1]) == TotalOf(values[..i]) + ValueOf(values[i])
    ensures Readable(values) ==> Readable(values[..i + 1])
  {
    hide Parse;
    var before, now := values[..i], values[..i + 1];
    assert now[..i] == before && now[i] == values[i];
    assert forall k :: 0 <= k < i ==> now[k] == before[k];
  }

  lemma NoValues()
    ensures Readable([]) && !AnyGiven([]) && TotalOf([]) == 0.0
  {
  }

  /** Adds up the values that are there. */
  method SumDecimalPointers(values: seq<Option<string>>) returns (sum: Sum)
    ensures sum == SumOf(values)
  {
    hide Parse, DecimalFromRat, Readable, AnyGiven, TotalOf;
    var total, found := 0.0, false;
    NoValues();
    for i := 0 to |values|
      invariant total == TotalOf(values[..i]) && found == AnyGiven(values[..i]) && Readable(values[..i])
    {
      OneMoreValue(values, i);
      if values[i].None? {
        continue;
      }
      var parsed := Parse(values[i].value);
      if parsed.None? {
        return Invalid;
      }
      total := total + parsed.value;
      found := true;
    }
    assert values[..|values|] == values;
    return if found then Total(DecimalFromRat(total)) else NothingToAdd;
  }

  // ----- What a printed value reads as -----

  /** x rounded to ten decimals. */
  function Rounded(x: real): real {
    var n := Scaled(x) as real / SCALE as real;
    if x < 0.0 then -n else n
  }

  lemma {:induction false} DigitsRead(n: nat)
    ensures Digits(n) != "" && AllDigits(Digits(n)) && ParseNat(Digits(n)) == n
  {
    if n >= 10 {
      DigitsRead(n / 10);
      assert Digits(n)[..|Digits(n)| - 1] == Digits(n / 10);
    } else {
      assert Digits(n)[..0] == "";
    }
  }

  lemma OneMoreDigit(s: string, d: nat)
    requires AllDigits(s) && d < 10
    ensures AllDigits(s + [Digit(d)]) && ParseNat(s + [Digit(d)]) == ParseNat(s) * 10 + d
  {
    assert (s + [Digit(d)])[..|s|] == s;
  }

  lemma {:induction false} PaddedReads(m: nat, k: nat)
    requires m < Pow10(k)
    ensures AllDigits(Padded(m, k)) && ParseNat(Padded(m, k)) == m
  {
    if k > 0 {
      hide AllDigits, ParseNat, Digit;
      PaddedReads(m / 10, k - 1);
      OneMoreDigit(Padded(m / 10, k - 1), m % 10);
    }
  }

  /** The k digits of m without trailing zeros. */
  function Fraction(m: nat, k: nat): string {
    if k == 0 then "" else if m % 10 == 0 then Fraction(m / 10, k - 1) else Padded(m, k)
  }

  lemma {:induction false} TrimZeros(whole: string, m: nat, k: nat)
    ensures TrimRight(whole + "." + Padded(m, k), '0') == whole + "." + Fraction(m, k)
  {
    var text := whole + "." + Padded(m, k);
    if k > 0 {
      assert text[..|text| - 1] == whole + "." + Padded(m / 10, k - 1);
      TrimZeros(whole, m / 10, k - 1);
    }
  }

  lemma {:induction false} FractionReads(m: nat, k: nat)
    requires m < Pow10(k)
    ensures var f := Fraction(m, k);
            && AllDigits(f) && |f| <= k && ParseNat(f) * Pow10(k) == m * Pow10(|f|)
            && (f != "" ==> f[|f| - 1] != '0')
  {
    if k > 0 {
      if m % 10 == 0 {
        FractionReads(m / 10, k - 1);
        var f := Fraction(m, k);
        TimesTen(ParseNat(f), Pow10(k - 1), m / 10, Pow10(|f|));
      } else {
        PaddedReads(m, k);
      }
    }
  }

  lemma TimesTen(a: nat, b: nat, c: nat, d: nat)
    requires a * b == c * d
    ensures a * (10 * b) == (10 * c) * d
  {
  }

  lemma {:induction false} DotAfterDigits(whole: string, rest: string)
    requires AllDigits(whole) && (rest == "" || rest[0] == '.')
    ensures DotAt(whole + rest) == |whole|
  {
    if whole != "" {
      assert (whole + rest)[1..] == whole[1..] + rest;
      DotAfterDigits(whole[1..], rest);
    } else {
      assert whole + rest == rest;
    }
  }

  function Suffix(f: string): string { if f == "" then "" else "." + f }

  /** Sign, whole dollars, and the decimals that are left after dropping trailing zeros. */
  function Text(negative: bool, whole: nat, fraction: nat): string {
    (if negative then "-" else "") + (Digits(whole) + Suffix(Fraction(fraction, 10)))
  }

  lemma TenDecimals()
    ensures Pow10(10) == SCALE
  {
    assert Pow10(5) == 100_000;
    assert Pow10(10) == 10 * 10 * 10 * 10 * 10 * Pow10(5);
  }

  lemma TrimmedText(sign: string, whole: nat, fraction: nat)
    requires fraction < SCALE
    ensures TrimRight(TrimRight(sign + Digits(whole) + "." + Padded(fraction, 10), '0'), '.') ==
            sign + (Digits(whole) + Suffix(Fraction(fraction, 10)))
  {
    TenDecimals();
    hide Digits, Padded, Fraction, Pow10;
    var all := sign + Digits(whole);
    var f := Fraction(fraction, 10);
    TrimZeros(all, fraction, 10);
    FractionReads(fraction, 10);
    DigitsRead(whole);
    var text := all + "." + f;
    if f == "" {
      assert text[..|text| - 1] == all;
      assert IsDigit(all[|all| - 1]);
      assert all == sign + (Digits(whole) + Suffix(f));
    } else {
      assert text[|text| - 1] == f[|f| - 1] && IsDigit(f[|f| - 1]);
      assert text == sign + (Digits(whole) + Suffix(f));
    }
  }

  /** The text that DecimalFromRat produces. */
  lemma PrintedText(x: real)
    ensures DecimalFromRat(x) == Text(x < 0.0, Scaled(x) / SCALE, Scaled(x) % SCALE)
  {
    hide Digits, Padded, Fraction, Scaled, TrimRight;
    var n := Scaled(x);
    TrimmedText(if x < 0.0 then "-" else "", n / SCALE, n % SCALE);
    DigitsRead(n / SCALE);
  }

  lemma CrossDivide(p: real, q: real, m: real, s: real)
    requires q > 0.0 && s > 0.0 && p * s == m * q
    ensures p / q == m / s
  {
    assert p == (m * q) / s;
    assert p / q == m / s;
  }

  lemma FractionValue(f: string, m: nat)
    requires AllDigits(f) && ParseNat(f) * SCALE == m * Pow10(|f|)
    ensures ParseNat(f) as real / Pow10(|f|) as real == m as real / SCALE as real
  {
    hide ParseNat, Pow10;
    var p, q := ParseNat(f), Pow10(|f|);
    assert (p * SCALE) as real == p as real * SCALE as real;
    assert (m * q) as real == m as real * q as real;
    CrossDivide(p as real, q as real, m as real, SCALE as real);
  }

  lemma PartsOfText(w: string, f: string)
    requires AllDigits(w)
    ensures ParseUnsigned(w + Suffix(f)) == ParseParts(w, f)
  {
    hide ParseParts;
    var text := w + Suffix(f);
    DotAfterDigits(w, Suffix(f));
    assert text[..|w|] == w;
    if f == "" {
      assert text == w;
    } else {
      assert text[|w| + 1..] == f;
    }
  }

  lemma UnsignedReads(whole: nat, fraction: nat)
    requires fraction < SCALE
    ensures var text := Digits(whole) + Suffix(Fraction(fraction, 10));
            && ParseUnsigned(text) == Some(whole as real + fraction as real / SCALE as real)
            && text != "" && IsDigit(text[0])
  {
    TenDecimals();
    hide Digits, Fraction, ParseNat, Pow10, ParseUnsigned, Suffix;
    var w, f := Digits(whole), Fraction(fraction, 10);
    DigitsRead(whole);
    FractionReads(fraction, 10);
    FractionValue(f, fraction);
    PartsOfText(w, f);
    assert (w + Suffix(f))[0] == w[0];
    assert w + f != "";
  }

  lemma TextReads(negative: bool, whole: nat, fraction: nat)
    requires fraction < SCALE
    ensures var value := whole as real + fraction as real / SCALE as real;
            Parse(Text(negative, whole, fraction)) == Some(if negative then -value else value)
  {
    hide Digits, Fraction, ParseUnsigned;
    UnsignedReads(whole, fraction);
    var unsigned := Digits(whole) + Suffix(Fraction(fraction, 10));
    if negative {
      assert Text(negative, whole, fraction)[1..] == unsigned;
    } else {
      assert Text(negative, whole, fraction) == unsigned;
    }
  }

  lemma {:induction false} DigitsStart(n: nat)
    ensures Digits(n) != "" && AllDigits(Digits(n)) && (n > 0 ==> Digits(n)[0] != '0') && (n == 0 ==> Digits(n) == "0")
  {
    if n >= 10 {
      DigitsStart(n / 10);
    }
  }

  /**
   * A printed value is a sign for what is below zero, digits without a leading zero, and where there are decimals a dot
   * and at most ten of them, the last not a zero.
   */
  lemma PrintedIsTidy(x: real) returns (sign: string, whole: string, decimals: string)
    ensures DecimalFromRat(x) == sign + whole + (if decimals == "" then "" else "." + decimals)
    ensures sign == if x < 0.0 then "-" else ""
    ensures whole != "" && AllDigits(whole) && (whole[0] == '0' ==> whole == "0")
    ensures |decimals| <= 10 && AllDigits(decimals) && (decimals != "" ==> decimals[|decimals| - 1] != '0')
  {
    hide DecimalFromRat, Scaled, Digits, Fraction, AllDigits;
    var n := Scaled(x);
    PrintedText(x);
    DigitsStart(n / SCALE);
    TenDecimals();
    FractionReads(n % SCALE, 10);
    sign, whole, decimals := if x < 0.0 then "-" else "", Digits(n / SCALE), Fraction(n % SCALE, 10);
  }

  /** A printed value reads back as the value rounded to ten decimals. */
  lemma PrintThenParse(x: real)
    ensures Parse(DecimalFromRat(x)) == Some(Rounded(x))
  {
    hide Parse, DecimalFromRat, Scaled, Text;
    var n := Scaled(x);
    PrintedText(x);
    TextReads(x < 0.0, n / SCALE, n % SCALE);
    assert n == (n / SCALE) * SCALE + n % SCALE;
  }

  /** Rounding moves a value by at most half a unit of the tenth decimal. */
  lemma RoundingError(x: real)
    ensures Abs(Rounded(x) - x) <= 0.00000000005
  {
    var n := Scaled(x);
    var y := Abs(x) * SCALE as real;
    assert n as real <= y + 0.5 < n as real + 1.0;
    assert Abs(n as real / SCALE as real - Abs(x)) <= 0.5 / SCALE as real;
  }

  /** Exactly halfway between two decimals, rounding goes away from zero. */
  lemma TiesGoAwayFromZero(x: real, k: nat)
    requires x * 10000000000.0 == k as real + 0.5
    ensures Rounded(x) * 10000000000.0 == (k + 1) as real && Rounded(-x) == -Rounded(x)
  {
    assert x > 0.0;
    assert (k as real + 0.5 + 0.5).Floor == k + 1;
    assert Scaled(x) == k + 1 == Scaled(-x);
  }

  lemma ScaledOfRounded(x: real)
    ensures Scaled(Rounded(x)) == Scaled(x)
  {
    var n := Scaled(x);
    assert Abs(Rounded(x)) == n as real / SCALE as real;
    assert Abs(Rounded(x)) * SCALE as real == n as real;
    assert (n as real + 0.5).Floor == n;
  }

  /**
   * Printing what was read from a printed value gives the same text back, except for negative values
   * that round to zero: they print as minus zero.
   */
  lemma PrintParsePrint(x: real)
    ensures var text := DecimalFromRat(x);
            && Parse(text).Some?
            && (DecimalFromRat(Parse(text).value) == text <==> !(x < 0.0 && -x < 0.00000000005))
  {
    hide Parse, DecimalFromRat, Scaled, Digits, Fraction;
    var n := Scaled(x);
    PrintThenParse(x);
    PrintedText(x);
    PrintedText(Rounded(x));
    ScaledOfRounded(x);
    ScaledIsZero(x);
    assert Rounded(x) < 0.0 <==> x < 0.0 && n != 0;
    if x < 0.0 && n == 0 {
      assert |DecimalFromRat(x)| == |DecimalFromRat(Rounded(x))| + 1;
    }
  }

  lemma ScaledIsZero(x: real)
    ensures Scaled(x) == 0 <==> Abs(x) < 0.00000000005
  {
  }

  /** No estimate is affected: tokens and prices are not negative. */
  lemma EstimatesPrintStably(tokens: int, price: real)
    requires tokens >= 0 && price >= 0.0
    ensures var text := DecimalFromRat(Cost(tokens, price));
            Parse(text).Some? && DecimalFromRat(Parse(text).value) == text
  {
    hide Parse, DecimalFromRat;
    PrintParsePrint(Cost(tokens, price));
  }

  lemma {:induction false} LeadingZeros(zeros: string)
    requires forall i :: 0 <= i < |zeros| ==> zeros[i] == '0'
    ensures AllDigits(zeros) && ParseNat(zeros) == 0
  {
    if zeros != "" {
      LeadingZeros(zeros[..|zeros| - 1]);
    }
  }

  lemma TinyFractionReads()
    ensures AllDigits("00000000001") && ParseNat("00000000001") == 1
  {
    LeadingZeros("0000000000");
    assert "00000000001"[..10] == "0000000000";
  }

  lemma TinyAmountReads()
    ensures Parse("-0.00000000001") == Some(-0.00000000001)
  {
    hide ParseNat, AllDigits, DotAt, ParseParts;
    var text := "0.00000000001";
    assert "-0.00000000001"[1..] == text;
    TinyDot(text);
    assert text[..1] == "0" && text[2..] == "00000000001";
    TinyParts();
  }

  lemma TinyParts()
    ensures ParseParts("0", "00000000001") == Some(0.00000000001)
  {
    hide ParseNat, AllDigits, Pow10;
    TinyFractionReads();
    LeadingZeros("0");
    ElevenDecimals();
    assert |"00000000001"| == 11 && "0" + "00000000001" != "";
    assert 1.0 / (10 * SCALE) as real == 0.00000000001;
  }

  lemma ElevenDecimals()
    ensures Pow10(11) == 10 * SCALE
  {
    TenDecimals();
  }

  lemma TinyDot(text: string)
    requires |text| > 1 && text[0] != '.' && text[1] == '.'
    ensures DotAt(text) == 1
  {
    assert text[1..][0] == '.';
  }

  /** A runtime that reports a tiny negative cost makes the difference: the total is worked out as minus zero. */
  lemma MinusZeroIsNotStable()
    ensures SumOf([Some("-0.00000000001"), None]) == Total("-0")
    ensures Parse("-0") == Some(0.0) && DecimalFromRat(0.0) == "0"
  {
    hide Parse, DecimalFromRat, Fraction;
    TinyAmountReads();
    SumWithNone("-0.00000000001");
    ScaledIsZero(-0.00000000001);
    ScaledIsZero(0.0);
    PrintedText(-0.00000000001);
    PrintedText(0.0);
    ZeroFraction(10);
    PrintThenParse(-0.00000000001);
  }

  lemma SumWithNone(a: string)
    requires Parse(a).Some?
    ensures SumOf([Some(a), None]) == Total(DecimalFromRat(Parse(a).value))
  {
    hide Parse, DecimalFromRat;
    var values := [Some(a), None];
    var first := [Some(a)];
    assert values[..1] == first && first[..0] == [];
    assert TotalOf(first) == Parse(a).value;
    assert TotalOf(values) == Parse(a).value;
    assert values[0].Some?;
  }

  lemma {:induction false} ZeroFraction(k: nat)
    ensures Fraction(0, k) == ""
  {
    if k > 0 {
      ZeroFraction(k - 1);
    }
  }

  /** An estimate is within half a unit of the tenth decimal of price times tokens. */
  lemma EstimateError(tokens: int, pricePerMillion: string, price: real)
    requires Parse(pricePerMillion) == Some(price)
    ensures var text := EstimatedTokenCost(tokens, pricePerMillion);
            && text.Some? && Parse(text.value).Some?
            && Abs(Parse(text.value).value - price * tokens as real / 1_000_000.0) <= 0.00000000005
  {
    hide Parse, DecimalFromRat;
    PrintThenParse(Cost(tokens, price));
    RoundingError(Cost(tokens, price));
  }

  /** Multiples of the tenth decimal print exactly. */
  lemma MultiplesAreExact(x: real, n: int)
    requires x == n as real / SCALE as real
    ensures Rounded(x) == x
  {
    var m := if n < 0 then -n else n;
    assert Abs(x) * SCALE as real == m as real;
    assert (m as real + 0.5).Floor == m;
  }

  /** The total of two estimates is their exact sum, so it is within 10^-10 of the true total. */
  lemma TotalOfEstimatesIsExact(x: real, y: real, a: string, b: string)
    requires a == DecimalFromRat(x) && b == DecimalFromRat(y)
    ensures var sum := SumOf([Some(a), Some(b)]);
            && sum.Total? && Parse(a).Some? && Parse(b).Some? && Parse(sum.text).Some?
            && Parse(sum.text).value == Parse(a).value + Parse(b).value
            && Abs(Parse(sum.text).value - (x + y)) <= 0.0000000001
  {
    hide Parse, DecimalFromRat, Scaled, SumOf, Rounded;
    PrintThenParse(x);
    PrintThenParse(y);
    RoundingError(x);
    RoundingError(y);
    SumOfTwo(a, b);
    SumOfRounded(x, y);
    PrintThenParse(Rounded(x) + Rounded(y));
  }

  lemma SumOfTwo(a: string, b: string)
    requires Parse(a).Some? && Parse(b).Some?
    ensures SumOf([Some(a), Some(b)]) == Total(DecimalFromRat(Parse(a).value + Parse(b).value))
  {
    hide Parse, DecimalFromRat;
    var values := [Some(a), Some(b)];
    var first := [Some(a)];
    assert values[..1] == first && first[..0] == [];
    assert TotalOf(first) == Parse(a).value;
    assert TotalOf(values) == Parse(a).value + Parse(b).value;
    assert values[0].Some?;
  }

  /** Rounded values are whole multiples of the tenth decimal. */
  lemma RoundedIsMultiple(x: real) returns (n: int)
    ensures Rounded(x) == n as real / SCALE as real
  {
    n := if x < 0.0 then -(Scaled(x) as int) else Scaled(x);
  }

  lemma SumOfRounded(x: real, y: real)
    ensures Rounded(Rounded(x) + Rounded(y)) == Rounded(x) + Rounded(y)
  {
    hide Rounded;
    var i := RoundedIsMultiple(x);
    var j := RoundedIsMultiple(y);
    MultiplesAreExact(Rounded(x) + Rounded(y), i + j);
  }
}
