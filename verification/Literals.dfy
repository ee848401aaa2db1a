/** JSON number literals (section 6 of RFC 8259) and the rational parser that reads them. */
module Literals {
  import opened Wrappers
  import opened Text
  import opened Rational

  /**
   * The pieces of one literal: optional minus, integer part, fraction digits (empty when there is
   * no fraction), exponent mark with its sign, exponent digits.
   */
  datatype LiteralParts = LiteralParts(negative: bool, whole: string, fraction: string, mark: string, exponent: string)

  predicate AllDigits(s: string) {
    forall c :: c in s ==> IsDigit(c)
  }

  predicate ValidLiteral(l: LiteralParts) {
    && AllDigits(l.whole) && AllDigits(l.fraction) && AllDigits(l.exponent)
    && l.whole != "" && (l.whole[0] == '0' ==> l.whole == "0")
    && l.mark in {"", "e", "e+", "e-", "E", "E+", "E-"}
    && (l.mark == "" <==> l.exponent == "")
  }

  type Literal = l: LiteralParts | ValidLiteral(l) witness LiteralParts(false, "0", "", "", "")

  function LiteralText(l: Literal): string {
    (if l.negative then "-" else "") + l.whole
    + (if l.fraction == "" then "" else "." + l.fraction)
    + l.mark + l.exponent
  }

  /** All digits read as one signed integer. */
  function Mantissa(l: Literal): int {
    var digits: int := DecimalValue(l.whole + l.fraction);
    if l.negative then -digits else digits
  }

  /** The power of ten the mantissa is multiplied by. */
  function Scale(l: Literal): int {
    var e: int := DecimalValue(l.exponent);
    (if l.mark in {"e-", "E-"} then -e else e) - |l.fraction|
  }

  function Pow10(n: nat): (p: int)
    ensures p > 0
  {
    if n == 0 then 1 else 10 * Pow10(n - 1)
  }

  /** Exponents beyond this are refused by the rational parser of the standard library. */
  const MAX_SCALE := 1_000_000

  /** The written exponent is read as a 64-bit integer before anything else. */
  const MAX_INT64 := 0x7FFF_FFFF_FFFF_FFFF

  predicate ExponentFits(l: Literal) {
    var e: int := DecimalValue(l.exponent);
    if l.mark in {"e-", "E-"} then e <= MAX_INT64 + 1 else e <= MAX_INT64
  }

  predicate Accepted(l: Literal) {
    ExponentFits(l) && (Mantissa(l) == 0 || -MAX_SCALE <= Scale(l) <= MAX_SCALE)
  }

  /** big.Rat.SetString on a JSON literal. */
  function ParseRational(l: Literal): (r: Option<Rational>)
    ensures r.Some? <==> Accepted(l)
  {
    if !ExponentFits(l) then None
    else if Mantissa(l) == 0 then Some(Reduce(0, 1))
    else if !(-MAX_SCALE <= Scale(l) <= MAX_SCALE) then None
    else if Scale(l) >= 0 then Some(Reduce(Mantissa(l) * Pow10(Scale(l)), 1))
    else Some(Reduce(Mantissa(l), Pow10(-Scale(l))))
  }

  /** The number a literal denotes, independent of any normal form. */
  function LiteralValue(l: Literal): real {
    if Scale(l) >= 0 then Mantissa(l) as real * Pow10(Scale(l)) as real
    else Mantissa(l) as real / Pow10(-Scale(l)) as real
  }

  lemma ZeroKeepsItsValue(l: Literal)
    requires Accepted(l) && Mantissa(l) == 0
    ensures RealValue(ParseRational(l).value) == 0.0 == LiteralValue(l)
  {
    ReduceKeepsValue(0, 1);
  }

  lemma OverOne(n: int)
    ensures n as real / 1 as real == n as real
  {
  }

  lemma WholeProductKeepsItsValue(m: int, p: int)
    ensures RealValue(Reduce(m * p, 1)) == m as real * p as real
  {
    var n := m * p;
    IntegerProduct(m, p);
    ReduceKeepsValue(n, 1);
    OverOne(n);
  }

  lemma WholeKeepsItsValue(l: Literal)
    requires Accepted(l) && Mantissa(l) != 0 && Scale(l) >= 0
    ensures RealValue(ParseRational(l).value) == LiteralValue(l)
  {
    WholeProductKeepsItsValue(Mantissa(l), Pow10(Scale(l)));
  }

  lemma FractionKeepsItsValue(l: Literal)
    requires Accepted(l) && Mantissa(l) != 0 && Scale(l) < 0
    ensures RealValue(ParseRational(l).value) == LiteralValue(l)
  {
    ReduceKeepsValue(Mantissa(l), Pow10(-Scale(l)));
  }

  lemma ParsedLiteralKeepsItsValue(l: Literal)
    requires Accepted(l)
    ensures RealValue(ParseRational(l).value) == LiteralValue(l)
  {
    if Mantissa(l) == 0 {
      ZeroKeepsItsValue(l);
    } else if Scale(l) >= 0 {
      WholeKeepsItsValue(l);
    } else {
      FractionKeepsItsValue(l);
    }
  }

  /** Two accepted literals parse to the same fraction exactly when they denote the same number. */
  lemma LiteralsCompareByValue(a: Literal, b: Literal)
    requires Accepted(a) && Accepted(b)
    ensures ParseRational(a) == ParseRational(b) <==> LiteralValue(a) == LiteralValue(b)
  {
    ParsedLiteralKeepsItsValue(a);
    ParsedLiteralKeepsItsValue(b);
    RationalsAreTheirValues(ParseRational(a).value, ParseRational(b).value);
  }

  /** big.Rat.RatString. */
  function RationalText(r: Rational): string {
    if r.den == 1 then IntegerText(r.num) else IntegerText(r.num) + "/" + IntegerText(r.den)
  }

  lemma IntegerTextHasNoSlash(n: int)
    ensures '/' !in IntegerText(n)
  {
  }

  lemma SlashMarksDenominator(r: Rational)
    ensures '/' in RationalText(r) <==> r.den != 1
  {
    IntegerTextHasNoSlash(r.num);
    if r.den != 1 {
      assert RationalText(r)[|IntegerText(r.num)|] == '/';
    }
  }

  lemma RationalTextIsInjective(p: Rational, q: Rational)
    requires RationalText(p) == RationalText(q)
    ensures p == q
  {
    IntegerTextHasNoSlash(p.num);
    IntegerTextHasNoSlash(q.num);
    SlashMarksDenominator(p);
    SlashMarksDenominator(q);
    if p.den != 1 {
      SplitAtMark('/', IntegerText(p.num), IntegerText(p.den), IntegerText(q.num), IntegerText(q.den));
      IntegerTextIsInjective(p.den, q.den);
    }
    IntegerTextIsInjective(p.num, q.num);
  }

  // ---------- literals no machine float holds ----------

  function Pow2(n: nat): (p: int)
    ensures p > 0
  {
    if n == 0 then 1 else 2 * Pow2(n - 1)
  }

  /** From here on rounding to a 64-bit float overflows: halfway between the largest one and 2^1024. */
  function FloatLimit(): real {
    (Pow2(1024) - Pow2(970)) as real
  }

  /** Decoding into a plain value turns numbers into 64-bit floats, and fails on those too large. */
  predicate FitsFloat(l: Literal) {
    -FloatLimit() < LiteralValue(l) < FloatLimit()
  }

  lemma {:induction false} TenBeatsEight(n: nat)
    ensures Pow10(n) >= Pow2(3 * n)
  {
    if n > 0 {
      TenBeatsEight(n - 1);
      assert Pow2(3 * n) == 2 * Pow2(3 * n - 1) == 4 * Pow2(3 * n - 2) == 8 * Pow2(3 * n - 3);
    }
  }

  lemma {:induction false} Pow2Grows(n: nat, m: nat)
    requires n <= m
    ensures Pow2(n) <= Pow2(m)
  {
    if n < m {
      Pow2Grows(n, m - 1);
    }
  }

  /** The number 1e999. */
  function OverflowingLiteral(): Literal {
    LiteralParts(false, "1", "", "e", "999")
  }

  lemma OverflowingLiteralParts()
    ensures Mantissa(OverflowingLiteral()) == 1 && Scale(OverflowingLiteral()) == 999
  {
    assert "1" + "" == "1";
    assert DecimalValue("1") == 1 by { assert DecimalValue("") == 0; }
    assert "999"[..2] == "99" && "99"[..1] == "9" && "9"[..0] == "";
    assert DecimalValue("9") == 9;
    assert DecimalValue("99") == 99;
  }

  lemma OverflowingLiteralDoesNotFit()
    ensures !FitsFloat(OverflowingLiteral())
  {
    OverflowingLiteralParts();
    TenBeatsEight(999);
    Pow2Grows(1024, 2997);
  }
}
