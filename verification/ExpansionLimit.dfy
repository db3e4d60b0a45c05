/** The expansion limit: `output > base * factor` decided with 128-bit integers on a
    decoded binary64 factor (IEEE 754-2019, section 3.4), against the same comparison
    over the rationals. */
module ExpansionLimit {
  import opened Wrappers

  function Pow2(n: nat): (p: int)
    ensures p > 0
  {
    if n == 0 then 1 else 2 * Pow2(n - 1)
  }

  const U64_LIMIT := 0x1_0000_0000_0000_0000
  const U128_LIMIT := 0x1_0000_0000_0000_0000_0000_0000_0000_0000
  const FRACTION_LIMIT := 0x10_0000_0000_0000

  type u64 = x: int | 0 <= x < U64_LIMIT
  type u128 = x: int | 0 <= x < U128_LIMIT
  type Fraction = x: int | 0 <= x < FRACTION_LIMIT
  type RawExponent = x: int | 0 <= x < 2048

  /** The three fields of a binary64. */
  datatype Binary64 = Binary64(negative: bool, rawExponent: RawExponent, fraction: Fraction) {
    predicate IsFinite() { rawExponent != 2047 }

    predicate IsZero() { rawExponent == 0 && fraction == 0 }

    /** `!is_finite() || factor <= 0.0` fails. */
    predicate FinitePositive() { IsFinite() && !negative && !IsZero() }

    function Mantissa(): (m: u64)
      ensures m < 2 * FRACTION_LIMIT && (FinitePositive() ==> m > 0)
    {
      if rawExponent == 0 then fraction else fraction + FRACTION_LIMIT
    }

    function Exponent(): (e: int)
      ensures -1074 <= e <= 972
    {
      if rawExponent == 0 then -1074 else rawExponent - 1075
    }

    /** The real number a finite binary64 denotes, from its three fields: an implicit leading one
        and an exponent biased by 1023, or the subnormal scale. */
    function Value(): real {
      var magnitude :=
        if rawExponent == 0 then (fraction as real / 4503599627370496.0) / Pow2(1022) as real
        else (1.0 + fraction as real / 4503599627370496.0)
             * if rawExponent >= 1023 then Pow2(rawExponent - 1023) as real else 1.0 / Pow2(1023 - rawExponent) as real;
      if negative then -magnitude else magnitude
    }
  }

  function ScaledValue(m: int, e: int): real {
    m as real * PowReal(e)
  }

  function PowReal(e: int): (p: real)
    ensures p > 0.0
  {
    if e >= 0 then Pow2(e) as real else 1.0 / Pow2(-e) as real
  }

  // ----- what the fields denote

  lemma Pow2Of52()
    ensures Pow2(52) == 4503599627370496
  {
    assert Pow2(0) == 1 && Pow2(1) == 2;
    Pow2Square(1, 2);
    Pow2Square(2, 4);
    Pow2Square(4, 0x10);
    Pow2Square(8, 0x100);
    Pow2Square(16, 0x1_0000);
    Pow2Add(32, 16);
    Pow2Add(48, 4);
  }

  lemma ShiftUp(e: nat, n: nat)
    ensures PowReal(e) * Pow2(n) as real == PowReal(e + n)
  {
    hide Pow2;
    Pow2Add(e, n);
    CastMul(Pow2(e), Pow2(n));
  }

  lemma ShiftThrough(k: int, n: nat)
    requires 0 < k <= n
    ensures PowReal(-k) * Pow2(n) as real == PowReal(n - k)
  {
    hide Pow2;
    assert k + (n - k) == n;
    Pow2Add(k, n - k);
    CastMul(Pow2(k), Pow2(n - k));
    Inverse(Pow2(k) as real, Pow2(n - k) as real, Pow2(n) as real);
  }

  lemma ShiftBelow(k: int, n: nat)
    requires 0 < k
    ensures PowReal(-(k + n)) * Pow2(n) as real == PowReal(-k)
  {
    hide Pow2;
    Pow2Add(k, n);
    CastMul(Pow2(k), Pow2(n));
    PositiveProduct(Pow2(k) as real, Pow2(n) as real);
    InverseProduct(Pow2(k) as real, Pow2(n) as real);
  }

  /** Moving the exponent down by n is dividing by 2^n. */
  lemma PowShift(e: int, n: nat)
    ensures PowReal(e) * Pow2(n) as real == PowReal(e + n)
  {
    hide Pow2, PowReal;
    if e >= 0 {
      ShiftUp(e, n);
    } else if e + n >= 0 {
      ShiftThrough(-e, n);
    } else {
      var k := -e - n;
      ShiftBelow(k, n);
      assert -(k + n) == e && -k == e + n;
    }
  }

  lemma Inverse(a: real, b: real, c: real)
    requires a > 0.0 && a * b == c
    ensures (1.0 / a) * c == b
  {
    assert (1.0 / a) * a == 1.0;
    assert (1.0 / a) * (a * b) == ((1.0 / a) * a) * b;
  }

  lemma InverseProduct(a: real, c: real)
    requires a > 0.0 && c > 0.0 && a * c > 0.0
    ensures (1.0 / (a * c)) * c == 1.0 / a
  {
    var q := 1.0 / (a * c);
    assert q * (a * c) == 1.0;
    assert (q * c) * a == 1.0;
    assert (1.0 / a) * a == 1.0;
    assert (q * c - 1.0 / a) * a == 0.0;
  }

  /** The mantissa and exponent the code extracts denote the value of the fields. */
  lemma DecodedValue(factor: Binary64)
    requires !factor.negative
    ensures factor.Value() == ScaledValue(factor.Mantissa(), factor.Exponent())
  {
    hide Pow2;
    Pow2Of52();
    PowShift(factor.Exponent(), 52);
    var f := factor.fraction as real / 4503599627370496.0;
    Scaled(if factor.rawExponent == 0 then f else 1.0 + f, factor.Mantissa() as real, 4503599627370496.0,
           PowReal(factor.Exponent()), PowReal(factor.Exponent() + 52));
    if factor.rawExponent == 0 {
      Divided(f, Pow2(1022) as real);
    }
  }

  lemma Scaled(a: real, m: real, b: real, p: real, q: real)
    requires a * b == m && p * b == q
    ensures a * q == m * p
  {
    assert a * (p * b) == (a * b) * p;
  }

  lemma Divided(a: real, b: real)
    requires b > 0.0
    ensures a / b == a * (1.0 / b)
  {
  }

  /** The code's guard is that the factor is finite and its value positive. */
  lemma FinitePositiveMeans(factor: Binary64)
    ensures factor.FinitePositive() <==> factor.rawExponent < 2047 && factor.Value() > 0.0
  {
    var f := factor.fraction as real / 4503599627370496.0;
    if factor.rawExponent == 0 {
      Quotient(factor.fraction as real, 4503599627370496.0);
      Quotient(f, Pow2(1022) as real);
    } else {
      Quotient(factor.fraction as real, 4503599627370496.0);
      Quotient(1.0, Pow2(if factor.rawExponent >= 1023 then 0 else 1023 - factor.rawExponent) as real);
      PositiveProduct(1.0 + f, if factor.rawExponent >= 1023 then Pow2(factor.rawExponent - 1023) as real
                               else 1.0 / Pow2(1023 - factor.rawExponent) as real);
    }
  }

  lemma Quotient(a: real, b: real)
    requires a >= 0.0 && b > 0.0
    ensures a / b >= 0.0 && (a / b > 0.0 <==> a > 0.0)
  {
    assert (a / b) * b == a;
  }

  // ----- the machine operations

  function CheckedMul(a: u128, b: u128): Option<u128> {
    NonNegativeProduct(a, b);
    if a * b < U128_LIMIT then Some(a * b) else None
  }

  lemma NonNegativeProduct(a: int, b: int)
    requires a >= 0 && b >= 0
    ensures a * b >= 0
  {
  }

  /** Refuses only shift amounts of 128 and more; higher bits fall off. */
  function CheckedShl(x: u128, shift: nat): Option<u128> {
    if shift < 128 then Some((x * Pow2(shift)) % U128_LIMIT) else None
  }

  function BitLength(x: nat): nat {
    if x == 0 then 0 else 1 + BitLength(x / 2)
  }

  lemma {:induction false} BitLengthBound(x: nat, n: nat)
    ensures BitLength(x) <= n <==> x < Pow2(n)
  {
    if n > 0 && x > 0 {
      BitLengthBound(x / 2, n - 1);
    }
  }

  lemma {:induction false} Pow2Add(a: nat, b: nat)
    ensures Pow2(a + b) == Pow2(a) * Pow2(b)
  {
    if b > 0 {
      Pow2Add(a, b - 1);
      Double(Pow2(a), Pow2(b - 1));
      assert a + b - 1 == a + (b - 1);
    }
  }

  lemma Double(x: int, y: int)
    ensures x * (2 * y) == 2 * (x * y)
  {
  }

  lemma Pow2Square(n: nat, p: int)
    requires Pow2(n) == p
    ensures Pow2(2 * n) == p * p
  {
    Pow2Add(n, n);
    assert n + n == 2 * n;
  }

  lemma Pow2Of128()
    ensures Pow2(128) == U128_LIMIT
  {
    assert Pow2(0) == 1 && Pow2(1) == 2 && Pow2(2) == 4;
    Pow2Square(2, 4);
    Pow2Square(4, 0x10);
    Pow2Square(8, 0x100);
    Pow2Square(16, 0x1_0000);
    Pow2Square(32, 0x1_0000_0000);
    Pow2Square(64, U64_LIMIT);
  }

  function LeadingZeros(x: u128): (z: nat)
    ensures z <= 128
  {
    Pow2Of128();
    BitLengthBound(x, 128);
    128 - BitLength(x)
  }

  /** The guard on the leading zeros is exactly the absence of overflow. */
  lemma ShiftFits(x: u128, shift: nat)
    requires x > 0
    ensures shift < 128 && LeadingZeros(x) >= shift <==> x * Pow2(shift) < U128_LIMIT
  {
    Pow2Of128();
    if shift < 128 {
      BitLengthBound(x, 128 - shift);
      Pow2Add(128 - shift, shift);
      MulOrder(x, Pow2(128 - shift), Pow2(shift));
    } else {
      Pow2Add(shift - 128, 128);
      MulOrder(1, Pow2(shift - 128), Pow2(128));
      MulOrder(x, 1, Pow2(shift));
    }
  }

  lemma MulOrder(a: int, b: int, c: int)
    requires c > 0
    ensures a < b <==> a * c < b * c
    ensures a <= b <==> a * c <= b * c
  {
    if a < b { assert (b - a) * c > 0; }
    if b < a { assert (a - b) * c > 0; }
  }

  /** `checked_shl(shift).filter(|_| shift < 128 && x.leading_zeros() >= shift)`. */
  function GuardedShl(x: u128, shift: nat): Option<u128> {
    match CheckedShl(x, shift)
    case None => None
    case Some(y) => if shift < 128 && LeadingZeros(x) >= shift then Some(y) else None
  }

  /** The guarded shift is the exact product, or absent exactly when that leaves 128 bits. */
  lemma GuardedShlExact(x: u128, shift: nat)
    requires x > 0
    ensures GuardedShl(x, shift)
         == if x * Pow2(shift) < U128_LIMIT then Some(x * Pow2(shift)) else None
  {
    ShiftFits(x, shift);
    assert x * Pow2(shift) > 0 by { MulOrder(0, x, Pow2(shift)); }
  }

  // ----- the decision

  function ExpansionExceededWide(outputRows: u64, baseRows: u128, factor: Binary64): bool {
    if !factor.FinitePositive() then outputRows > 0
    else DecodedExceeded(outputRows, baseRows, factor.Mantissa(), factor.Exponent())
  }

  /** The decision once the factor is `mantissa * 2^exponent`. */
  function DecodedExceeded(outputRows: u64, baseRows: u128, mantissa: u128, exponent: int): bool {
    match CheckedMul(baseRows, mantissa)
    case None => true
    case Some(scaled) => ScaledExceeded(outputRows, scaled, exponent)
  }

  /** The comparison of the output with `scaled * 2^exponent`, by shifting one side. */
  function ScaledExceeded(outputRows: u64, scaled: u128, exponent: int): bool {
    if scaled == 0 then outputRows > 0
    else if exponent >= 0 then
      match GuardedShl(scaled, exponent) case None => false case Some(threshold) => outputRows > threshold
    else
      match GuardedShl(outputRows, -exponent) case None => outputRows != 0 case Some(shifted) => shifted > scaled
  }

  function ExpansionExceeded(outputRows: u64, baseRows: u64, factor: Binary64): bool {
    ExpansionExceededWide(outputRows, baseRows, factor)
  }

  /** `output > base * factor` over the rationals. */
  predicate ExceedsExactly(outputRows: u64, baseRows: u128, factor: Binary64) {
    outputRows as real > baseRows as real * factor.Value()
  }

  predicate AboveScaled(output: int, base: int, m: int, e: int) {
    output as real > base as real * ScaledValue(m, e)
  }

  lemma CastMul(a: int, b: int)
    ensures (a * b) as real == a as real * b as real
  {
  }

  lemma Associate(a: real, b: real, c: real)
    ensures a * (b * c) == (a * b) * c
  {
  }

  /** The rational comparison cleared of its denominator. */
  lemma ScaledComparison(output: int, base: int, m: int, e: int)
    ensures AboveScaled(output, base, m, e)
       <==> if e >= 0 then output > (base * m) * Pow2(e) else output * Pow2(-e) > base * m
  {
    CastMul(base, m);
    Associate(base as real, m as real, PowReal(e));
    if e >= 0 {
      CastMul(base * m, Pow2(e));
    } else {
      CastMul(output, Pow2(-e));
      QuotientOrder(output as real, (base * m) as real, Pow2(-e) as real);
    }
  }

  lemma QuotientOrder(a: real, b: real, c: real)
    requires c > 0.0
    ensures a > b * (1.0 / c) <==> a * c > b
  {
    var q := b * (1.0 / c);
    assert q * c == b;
    if a > q { assert (a - q) * c > 0.0; }
    if a <= q { assert (q - a) * c >= 0.0; }
  }

  lemma ShiftingIsExact(outputRows: u64, scaled: u128, exponent: int)
    ensures ScaledExceeded(outputRows, scaled, exponent)
       <==> if exponent >= 0 then outputRows > scaled * Pow2(exponent) else outputRows * Pow2(-exponent) > scaled
  {
    if scaled == 0 {
      if exponent < 0 { MulOrder(0, outputRows, Pow2(-exponent)); }
    } else if exponent >= 0 {
      GuardedShlExact(scaled, exponent);
    } else if outputRows > 0 {
      GuardedShlExact(outputRows, -exponent);
    } else {
      assert LeadingZeros(0) == 128;
      assert 0 * Pow2(-exponent) == 0;
    }
  }

  lemma DecodedExact(outputRows: u64, baseRows: u128, m: u128, e: int)
    ensures DecodedExceeded(outputRows, baseRows, m, e)
       <==> baseRows * m >= U128_LIMIT || AboveScaled(outputRows, baseRows, m, e)
  {
    NonNegativeProduct(baseRows, m);
    if baseRows * m < U128_LIMIT {
      ScaledComparison(outputRows, baseRows, m, e);
      ShiftingIsExact(outputRows, baseRows * m, e);
    }
  }

  /** The integer decision is the rational comparison wherever the product fits 128 bits;
      elsewhere it answers that the limit is exceeded. */
  lemma DecisionExact(outputRows: u64, baseRows: u128, factor: Binary64)
    requires factor.FinitePositive()
    ensures ExpansionExceededWide(outputRows, baseRows, factor)
       <==> baseRows * (factor.fraction + if factor.rawExponent == 0 then 0 else 0x10_0000_0000_0000) >= U128_LIMIT
            || ExceedsExactly(outputRows, baseRows, factor)
  {
    ExactlyDecoded(outputRows, baseRows, factor);
    DecodedExact(outputRows, baseRows, factor.Mantissa(), factor.Exponent());
  }

  lemma ExactlyDecoded(outputRows: u64, baseRows: u128, factor: Binary64)
    requires !factor.negative
    ensures ExceedsExactly(outputRows, baseRows, factor)
       <==> AboveScaled(outputRows, baseRows, factor.Mantissa(), factor.Exponent())
  {
    hide ScaledValue, Binary64.Mantissa, Binary64.Exponent, Binary64.Value;
    DecodedValue(factor);
  }

  const BASE_LIMIT := 0x4_0000_0000_0000_0000

  lemma ProductFits(baseRows: int, mantissa: int)
    requires 0 <= baseRows < BASE_LIMIT && 0 <= mantissa < 2 * FRACTION_LIMIT
    ensures baseRows * mantissa < U128_LIMIT
  {
    ProductBelow(baseRows, BASE_LIMIT, mantissa, 2 * FRACTION_LIMIT);
  }

  lemma ProductBelow(a: int, x: int, b: int, y: int)
    requires 0 <= a < x && 0 <= b < y
    ensures a * b < x * y
  {
    MulOrder(a, x, y);
    if a > 0 {
      assert (y - b) * a > 0;
    }
  }

  /** On the declared domain, the sum of two row counts, the decision is exact. */
  lemma DecisionExactOnDomain(outputRows: u64, baseRows: u128, factor: Binary64)
    requires baseRows < BASE_LIMIT && factor.FinitePositive()
    ensures CheckedMul(baseRows, factor.Mantissa()).Some?
    ensures ExpansionExceededWide(outputRows, baseRows, factor) <==> ExceedsExactly(outputRows, baseRows, factor)
  {
    ProductFits(baseRows, factor.Mantissa());
    DecisionExact(outputRows, baseRows, factor);
  }

  // ----- the constraints of binary operations

  /** `output > base * factor` over the rationals, or any output at all when the factor cannot be
      ordered. */
  predicate OverLimit(outputRows: u64, baseRows: u128, factor: Binary64) {
    if factor.rawExponent < 2047 && factor.Value() > 0.0 then ExceedsExactly(outputRows, baseRows, factor)
    else outputRows > 0
  }

  lemma WideIsOverLimit(outputRows: u64, baseRows: u128, factor: Binary64)
    requires baseRows < BASE_LIMIT
    ensures ExpansionExceededWide(outputRows, baseRows, factor) <==> OverLimit(outputRows, baseRows, factor)
  {
    hide ExceedsExactly, Binary64.Value;
    FinitePositiveMeans(factor);
    if factor.FinitePositive() {
      DecisionExactOnDomain(outputRows, baseRows, factor);
    }
  }

  /** The public decision is the rational comparison for every base; a factor that is not finite
      and positive refuses every non-empty output. */
  lemma PublicDecisionExact(outputRows: u64, baseRows: u64, factor: Binary64)
    ensures ExpansionExceeded(outputRows, baseRows, factor) <==> OverLimit(outputRows, baseRows, factor)
  {
    hide ExpansionExceededWide, OverLimit;
    WideIsOverLimit(outputRows, baseRows, factor);
  }

  datatype ExpansionConstraint = SumRelative | LeftRelative | RightRelative | MaxRelative | Custom(factor: Binary64) {
    function BindingThreshold(maxExpansionFactor: Binary64): Binary64 {
      match this
      case Custom(factor) => factor
      case _ => maxExpansionFactor
    }

    function Exceeded(outputRows: u64, leftRows: u64, rightRows: u64, maxExpansionFactor: Binary64): bool {
      var threshold := BindingThreshold(maxExpansionFactor);
      match this
      case SumRelative => ExpansionExceededWide(outputRows, leftRows + rightRows, threshold)
      case Custom(_) => ExpansionExceededWide(outputRows, leftRows + rightRows, threshold)
      case LeftRelative => ExpansionExceededWide(outputRows, leftRows, threshold)
      case RightRelative => ExpansionExceededWide(outputRows, rightRows, threshold)
      case MaxRelative =>
        ExpansionExceededWide(outputRows, leftRows, threshold)
        || ExpansionExceededWide(outputRows, rightRows, threshold)
    }
  }

  /** A reported metric, exact: a ratio or infinity. */
  datatype Metric = Finite(ratio: real) | Infinite {
    predicate Above(threshold: real) { Infinite? || ratio > threshold }

    function Larger(other: Metric): Metric {
      if Infinite? || other.Infinite? then Infinite
      else if ratio < other.ratio then other else this
    }
  }

  function Ratio(numerator: u64, denominator: u128): Metric {
    if denominator == 0 then (if numerator == 0 then Finite(0.0) else Infinite)
    else Finite(numerator as real / denominator as real)
  }

  datatype JoinExpansion = JoinExpansion(overSum: Metric, overLeft: Metric, overRight: Metric) {
    static function Compute(outputRows: u64, leftRows: u64, rightRows: u64): JoinExpansion {
      JoinExpansion(Ratio(outputRows, leftRows + rightRows), Ratio(outputRows, leftRows), Ratio(outputRows, rightRows))
    }

    function BindingMetric(constraint: ExpansionConstraint): Metric {
      match constraint
      case SumRelative => overSum
      case Custom(_) => overSum
      case LeftRelative => overLeft
      case RightRelative => overRight
      case MaxRelative => overSum.Larger(overLeft).Larger(overRight)
    }
  }

  lemma RatioOrder(n: real, d: real, t: real)
    requires d > 0.0
    ensures n / d > t <==> n > d * t
  {
    QuotientOrder(t, n, d);
    var q := n / d;
    assert q * d == n;
    if q > t { assert (q - t) * d > 0.0; }
    if q <= t { assert (t - q) * d >= 0.0; }
  }

  /** A single base: the decision compares the exact metric with the threshold. */
  lemma SingleBase(outputRows: u64, baseRows: u128, factor: Binary64)
    requires baseRows < BASE_LIMIT && factor.FinitePositive()
    ensures ExpansionExceededWide(outputRows, baseRows, factor) <==> Ratio(outputRows, baseRows).Above(factor.Value())
  {
    hide Binary64.Value, Ratio, ExpansionExceededWide;
    DecisionExactOnDomain(outputRows, baseRows, factor);
    ValuePositive(factor);
    RatioAbove(outputRows, baseRows, factor.Value());
  }

  lemma RatioAbove(outputRows: u64, baseRows: u128, v: real)
    requires v > 0.0
    ensures Ratio(outputRows, baseRows).Above(v) <==> outputRows as real > baseRows as real * v
  {
    if baseRows == 0 {
      assert 0.0 * v == 0.0;
    } else {
      RatioOrder(outputRows as real, baseRows as real, v);
    }
  }

  lemma PositiveProduct(a: real, b: real)
    requires a > 0.0 && b > 0.0
    ensures a * b > 0.0
  {
  }

  lemma ValuePositive(factor: Binary64)
    requires factor.FinitePositive()
    ensures factor.Value() > 0.0
  {
    FinitePositiveMeans(factor);
  }

  lemma RealMulOrder(a: real, b: real, c: real)
    requires a <= b && c >= 0.0
    ensures a * c <= b * c && c * a <= c * b
  {
  }

  lemma AboveLarger(output: real, small: real, large: real, v: real)
    requires small <= large && v > 0.0 && output > large * v
    ensures output > small * v
  {
    RealMulOrder(small, large, v);
  }

  /** A larger base never turns an accepted expansion into an exceeded one. */
  lemma LargerBase(outputRows: u64, small: u128, large: u128, factor: Binary64)
    requires small <= large < BASE_LIMIT
    requires ExpansionExceededWide(outputRows, large, factor)
    ensures ExpansionExceededWide(outputRows, small, factor)
  {
    if factor.FinitePositive() {
      DecisionExactOnDomain(outputRows, large, factor);
      LargerBaseExactly(outputRows, small, large, factor);
      DecisionExactOnDomain(outputRows, small, factor);
    }
  }

  lemma LargerBaseExactly(outputRows: u64, small: u128, large: u128, factor: Binary64)
    requires small <= large && factor.FinitePositive() && ExceedsExactly(outputRows, large, factor)
    ensures ExceedsExactly(outputRows, small, factor)
  {
    ValuePositive(factor);
    AboveLarger(outputRows as real, small as real, large as real, factor.Value());
  }

  /** A threshold that cannot be ordered refuses every non-empty output. */
  lemma UnorderedThreshold(c: ExpansionConstraint, outputRows: u64, leftRows: u64, rightRows: u64, maxFactor: Binary64)
    requires !c.BindingThreshold(maxFactor).FinitePositive()
    ensures c.Exceeded(outputRows, leftRows, rightRows, maxFactor) <==> outputRows > 0
  {
  }

  /** The decision agrees with the exact binding metric for every count, zero included, whenever
      the threshold can be ordered; otherwise it refuses every non-empty output. */
  lemma ExceededIsMetric(c: ExpansionConstraint, outputRows: u64, leftRows: u64, rightRows: u64, maxFactor: Binary64)
    ensures var threshold := c.BindingThreshold(maxFactor);
            c.Exceeded(outputRows, leftRows, rightRows, maxFactor) <==>
              if threshold.rawExponent < 2047 && threshold.Value() > 0.0 then
                JoinExpansion.Compute(outputRows, leftRows, rightRows).BindingMetric(c).Above(threshold.Value())
              else outputRows > 0
  {
    hide Binary64.Value;
    var factor := c.BindingThreshold(maxFactor);
    FinitePositiveMeans(factor);
    if factor.FinitePositive() {
      SingleBase(outputRows, leftRows, factor);
      SingleBase(outputRows, rightRows, factor);
      SingleBase(outputRows, leftRows + rightRows, factor);
      if c.MaxRelative? && ExpansionExceededWide(outputRows, leftRows + rightRows, factor) {
        LargerBase(outputRows, leftRows, leftRows + rightRows, factor);
      }
    } else {
      UnorderedThreshold(c, outputRows, leftRows, rightRows, maxFactor);
    }
  }

  /** What each constraint asks of the counts; a factor of its own makes the limit irrelevant. */
  lemma ConstraintMeans(outputRows: u64, leftRows: u64, rightRows: u64, maxFactor: Binary64, own: Binary64)
    ensures SumRelative.Exceeded(outputRows, leftRows, rightRows, maxFactor)
       <==> OverLimit(outputRows, leftRows + rightRows, maxFactor)
    ensures LeftRelative.Exceeded(outputRows, leftRows, rightRows, maxFactor)
       <==> OverLimit(outputRows, leftRows, maxFactor)
    ensures RightRelative.Exceeded(outputRows, leftRows, rightRows, maxFactor)
       <==> OverLimit(outputRows, rightRows, maxFactor)
    ensures MaxRelative.Exceeded(outputRows, leftRows, rightRows, maxFactor)
       <==> OverLimit(outputRows, leftRows, maxFactor) || OverLimit(outputRows, rightRows, maxFactor)
    ensures Custom(own).Exceeded(outputRows, leftRows, rightRows, maxFactor)
       <==> OverLimit(outputRows, leftRows + rightRows, own)
  {
    hide ExpansionExceededWide, OverLimit;
    WideIsOverLimit(outputRows, leftRows + rightRows, maxFactor);
    WideIsOverLimit(outputRows, leftRows, maxFactor);
    WideIsOverLimit(outputRows, rightRows, maxFactor);
    WideIsOverLimit(outputRows, leftRows + rightRows, own);
  }

  /** `MaxRelative` decides on the smaller side, whatever the threshold. */
  lemma MaxIsSmallerSide(outputRows: u64, leftRows: u64, rightRows: u64, maxFactor: Binary64)
    ensures MaxRelative.Exceeded(outputRows, leftRows, rightRows, maxFactor)
       <==> ExpansionExceededWide(outputRows, if leftRows < rightRows then leftRows else rightRows, maxFactor)
  {
    if ExpansionExceededWide(outputRows, leftRows, maxFactor) && rightRows <= leftRows {
      LargerBase(outputRows, rightRows, leftRows, maxFactor);
    }
    if ExpansionExceededWide(outputRows, rightRows, maxFactor) && leftRows < rightRows {
      LargerBase(outputRows, leftRows, rightRows, maxFactor);
    }
  }

  /** Exceeding on the sum of the inputs implies exceeding on each side and on the maximum. */
  lemma SumIsWeakest(outputRows: u64, leftRows: u64, rightRows: u64, maxFactor: Binary64)
    requires SumRelative.Exceeded(outputRows, leftRows, rightRows, maxFactor)
    ensures LeftRelative.Exceeded(outputRows, leftRows, rightRows, maxFactor)
    ensures RightRelative.Exceeded(outputRows, leftRows, rightRows, maxFactor)
    ensures MaxRelative.Exceeded(outputRows, leftRows, rightRows, maxFactor)
  {
    LargerBase(outputRows, leftRows, leftRows + rightRows, maxFactor);
    LargerBase(outputRows, rightRows, leftRows + rightRows, maxFactor);
  }

  /** A join with at most as many rows as both sides together never exceeds a factor of one or more. */
  lemma SumAcceptsUniqueKeys(outputRows: u64, leftRows: u64, rightRows: u64, maxFactor: Binary64)
    requires maxFactor.FinitePositive() && maxFactor.Value() >= 1.0 && outputRows <= leftRows + rightRows
    ensures !SumRelative.Exceeded(outputRows, leftRows, rightRows, maxFactor)
  {
    DecisionExactOnDomain(outputRows, leftRows + rightRows, maxFactor);
    AtMostBase(outputRows, leftRows + rightRows, maxFactor);
  }

  lemma AtMostBase(outputRows: u64, baseRows: u128, factor: Binary64)
    requires factor.Value() >= 1.0 && outputRows <= baseRows
    ensures !ExceedsExactly(outputRows, baseRows, factor)
  {
    NotAbove(outputRows as real, baseRows as real, factor.Value());
  }

  lemma NotAbove(output: real, base: real, v: real)
    requires 0.0 <= output <= base && v >= 1.0
    ensures !(output > base * v)
  {
    RealMulOrder(1.0, v, base);
    assert base * 1.0 == base;
  }
}
