/**
 The exact security bound B(Q, qS), its two-point floor test and the bit level it certifies.
 */
module Bound {
  import opened Rationals

  /** The denominator is stored as its predecessor, so that it cannot be zero. */
  datatype BoundTerm = BoundTerm(
    numerator: nat, denominatorPred: nat, workExponent: nat, signExponent: nat, denominatorBits: nat)

  type BoundCoeffs = seq<BoundTerm>

  function TwoTo(bits: nat): (r: real)
    ensures r >= 1.0
  {
    PowAtLeastOne(2.0, bits);
    Pow(2.0, bits)
  }

  function Weight(t: BoundTerm, qS: nat): real {
    t.numerator as real / (t.denominatorPred + 1) as real * Pow(qS as real, t.signExponent) / TwoTo(t.denominatorBits)
  }

  function Monomial(t: BoundTerm, qW: real, qS: nat): real {
    Weight(t, qS) * Pow(qW, t.workExponent)
  }

  function EvalBound(coeffs: BoundCoeffs, qW: real, qS: nat): real {
    if coeffs == [] then 0.0
    else Monomial(coeffs[0], qW, qS) + EvalBound(coeffs[1..], qW, qS)
  }

  /** The endpoint test. */
  predicate MeetsFloor(coeffs: BoundCoeffs, qS: nat, bits: nat) {
    EvalBound(coeffs, 1.0, qS) <= 1.0 / TwoTo(bits) && EvalBound(coeffs, TwoTo(bits), qS) <= 1.0
  }

  // ----- Signs and monotonicity -----

  lemma DivideMonotone(a: real, b: real, c: real)
    requires a <= b && c > 0.0
    ensures a / c <= b / c
  {
  }

  lemma WeightMonotone(t: BoundTerm, qS: nat, qT: nat)
    requires qS <= qT
    ensures 0.0 <= Weight(t, qS) <= Weight(t, qT)
  {
    var c := t.numerator as real / (t.denominatorPred + 1) as real;
    assert c >= 0.0;
    PowMonotone(qS as real, qT as real, t.signExponent);
    PowNonNegative(qS as real, t.signExponent);
    ScaleLess(Pow(qS as real, t.signExponent), Pow(qT as real, t.signExponent), c);
    ScaleLess(0.0, Pow(qS as real, t.signExponent), c);
    DivideMonotone(c * Pow(qS as real, t.signExponent), c * Pow(qT as real, t.signExponent), TwoTo(t.denominatorBits));
    DivideMonotone(0.0, c * Pow(qS as real, t.signExponent), TwoTo(t.denominatorBits));
  }

  lemma MonomialMonotone(t: BoundTerm, q: real, r: real, qS: nat, qT: nat)
    requires 0.0 <= q <= r && qS <= qT
    ensures 0.0 <= Monomial(t, q, qS) <= Monomial(t, r, qT)
  {
    WeightMonotone(t, qS, qT);
    PowMonotone(q, r, t.workExponent);
    PowNonNegative(q, t.workExponent);
    ScaleBoth(Weight(t, qS), Weight(t, qT), Pow(q, t.workExponent), Pow(r, t.workExponent));
  }

  /** The bound grows with the work and with the signing count. */
  lemma {:induction false} BoundMonotone(coeffs: BoundCoeffs, q: real, r: real, qS: nat, qT: nat)
    requires 0.0 <= q <= r && qS <= qT
    ensures 0.0 <= EvalBound(coeffs, q, qS) <= EvalBound(coeffs, r, qT)
  {
    if coeffs != [] {
      MonomialMonotone(coeffs[0], q, r, qS, qT);
      BoundMonotone(coeffs[1..], q, r, qS, qT);
    }
  }

  // ----- The chord -----

  /** `value` lies below the chord through `low` at 1 and `high` at m, taken at q. */
  ghost predicate BelowChord(m: real, q: real, low: real, value: real, high: real) {
    (m - 1.0) * value <= (m - q) * low + (q - 1.0) * high
  }

  lemma ChordStep(m: real, q: real, p: real, top: real, p': real, top': real)
    requires 1.0 <= q <= m && 1.0 <= top
    requires p' == q * p && top' == m * top
    requires BelowChord(m, q, 1.0, p, top)
    ensures BelowChord(m, q, 1.0, p', top')
  {
    var below, line := (m - 1.0) * p, (m - q) * 1.0 + (q - 1.0) * top;
    var slack := (m - q) * (q - 1.0);
    ScaleTo(below, line, q, below * q, line * q);
    ScaleBoth(0.0, m - q, 0.0, q - 1.0);
    ScaleBoth(0.0, slack, 0.0, top - 1.0);
    assert (m - 1.0) * p' == below * q;
    ChordIdentity(m, q, top, slack, line, top');
  }

  lemma ChordIdentity(m: real, q: real, top: real, slack: real, line: real, top': real)
    requires slack == (m - q) * (q - 1.0) && line == (m - q) * 1.0 + (q - 1.0) * top && top' == m * top
    ensures (m - q) * 1.0 + (q - 1.0) * top' == line * q + slack * (top - 1.0)
  {
    assert line * q == q * (m - q) + q * (q - 1.0) * top;
    assert slack * (top - 1.0) == (m - q) * (q - 1.0) * top - (m - q) * (q - 1.0);
    assert (m - q) * (q - 1.0) * top == m * (q - 1.0) * top - q * (q - 1.0) * top;
  }

  /** A power lies below the chord between 1 and m. */
  lemma {:induction false} PowBelowChord(m: real, q: real, a: nat)
    requires 1.0 <= q <= m
    ensures BelowChord(m, q, 1.0, Pow(q, a), Pow(m, a))
  {
    if a == 0 {
      ChordBase(m, q);
    } else {
      var p, top := Pow(q, a - 1), Pow(m, a - 1);
      PowBelowChord(m, q, a - 1);
      PowAtLeastOne(m, a - 1);
      ChordStep(m, q, p, top, Pow(q, a), Pow(m, a));
    }
  }

  lemma ChordBase(m: real, q: real)
    ensures BelowChord(m, q, 1.0, 1.0, 1.0)
  {
  }

  lemma WeighChord(w: real, m: real, q: real, p: real, top: real)
    requires 0.0 <= w
    requires BelowChord(m, q, 1.0, p, top)
    ensures BelowChord(m, q, w * 1.0, w * p, w * top)
  {
    ScaleLess((m - 1.0) * p, (m - q) + (q - 1.0) * top, w);
    assert w * ((m - 1.0) * p) == (m - 1.0) * (w * p);
    assert w * ((m - q) + (q - 1.0) * top) == (m - q) * w + (q - 1.0) * (w * top);
  }

  lemma AddChords(m: real, q: real, low: real, value: real, high: real, low': real, value': real, high': real)
    requires BelowChord(m, q, low, value, high) && BelowChord(m, q, low', value', high')
    ensures BelowChord(m, q, low + low', value + value', high + high')
  {
  }

  lemma MonomialBelowChord(t: BoundTerm, qS: nat, m: real, q: real)
    requires 1.0 <= q <= m
    ensures BelowChord(m, q, Monomial(t, 1.0, qS), Monomial(t, q, qS), Monomial(t, m, qS))
  {
    WeightMonotone(t, qS, qS);
    PowBelowChord(m, q, t.workExponent);
    PowOne(t.workExponent);
    WeighChord(Weight(t, qS), m, q, Pow(q, t.workExponent), Pow(m, t.workExponent));
  }

  /** The whole bound lies below its chord. */
  lemma {:induction false} BoundBelowChord(coeffs: BoundCoeffs, qS: nat, m: real, q: real)
    requires 1.0 <= q <= m
    ensures BelowChord(m, q, EvalBound(coeffs, 1.0, qS), EvalBound(coeffs, q, qS), EvalBound(coeffs, m, qS))
  {
    if coeffs != [] {
      var t, ts := coeffs[0], coeffs[1..];
      MonomialBelowChord(t, qS, m, q);
      BoundBelowChord(ts, qS, m, q);
      AddChords(m, q, Monomial(t, 1.0, qS), Monomial(t, q, qS), Monomial(t, m, qS),
                EvalBound(ts, 1.0, qS), EvalBound(ts, q, qS), EvalBound(ts, m, qS));
    }
  }

  lemma ScaleStrict(a: real, b: real, c: real)
    requires a < b && 0.0 < c
    ensures c * a < c * b
  {
    assert 0.0 < (b - a) * c;
  }

  lemma CancelScale(c: real, a: real, b: real)
    requires c > 0.0 && c * a <= c * b
    ensures a <= b
  {
    if b < a {
      ScaleStrict(b, a, c);
    }
  }

  lemma ChordBelowLine(m: real, q: real, low: real, high: real, value: real)
    requires 1.0 <= q <= m
    requires low <= 1.0 / m && high <= 1.0
    requires BelowChord(m, q, low, value, high)
    requires m == 1.0 ==> value == high
    ensures value <= q / m
  {
    if m > 1.0 {
      ScaleLess(low, 1.0 / m, m - q);
      ScaleLess(high, 1.0, q - 1.0);
      assert (m - q) * (1.0 / m) == 1.0 - q / m;
      assert (m - 1.0) * (q / m) == q - q / m;
      assert (m - 1.0) * value <= (m - 1.0) * (q / m);
      CancelScale(m - 1.0, value, q / m);
    }
  }

  lemma FloorSoundAtCap(coeffs: BoundCoeffs, cap: nat, bits: nat, q: real)
    requires MeetsFloor(coeffs, cap, bits) && 1.0 <= q <= TwoTo(bits)
    ensures EvalBound(coeffs, q, cap) <= q / TwoTo(bits)
  {
    var m := TwoTo(bits);
    BoundBelowChord(coeffs, cap, m, q);
    ChordBelowLine(m, q, EvalBound(coeffs, 1.0, cap), EvalBound(coeffs, m, cap), EvalBound(coeffs, q, cap));
  }

  /** The two endpoint checks suffice for every total work in between and every smaller signing cap. */
  lemma FloorSound(coeffs: BoundCoeffs, cap: nat, bits: nat, q: real, s: nat)
    requires MeetsFloor(coeffs, cap, bits)
    requires 1.0 <= q <= TwoTo(bits) && s <= cap
    ensures EvalBound(coeffs, q, s) <= q / TwoTo(bits)
  {
    FloorSoundAtCap(coeffs, cap, bits, q);
    BoundMonotone(coeffs, q, q, s, cap);
  }

  function Ratio(n: nat, d: nat): real
    requires d > 0
  {
    n as real / d as real
  }

  /** At every rational Q of the range and every signing count up to the cap, the bound is under Q / 2^bits. */
  ghost predicate UnderLine(coeffs: BoundCoeffs, cap: nat, bits: nat) {
    forall n: nat, d: nat, s: nat :: d > 0 && 1.0 <= Ratio(n, d) <= TwoTo(bits) && s <= cap ==>
      EvalBound(coeffs, Ratio(n, d), s) <= Ratio(n, d) / TwoTo(bits)
  }

  lemma FloorExact(coeffs: BoundCoeffs, cap: nat, bits: nat)
    ensures MeetsFloor(coeffs, cap, bits) <==> UnderLine(coeffs, cap, bits)
  {
    if MeetsFloor(coeffs, cap, bits) {
      forall n: nat, d: nat, s: nat | d > 0 && 1.0 <= Ratio(n, d) <= TwoTo(bits) && s <= cap
        ensures EvalBound(coeffs, Ratio(n, d), s) <= Ratio(n, d) / TwoTo(bits)
      {
        FloorSound(coeffs, cap, bits, Ratio(n, d), s);
      }
    }
    if UnderLine(coeffs, cap, bits) {
      NatPowIsPow(2, bits);
      assert Ratio(1, 1) == 1.0 && Ratio(NatPow(2, bits), 1) == TwoTo(bits);
      assert EvalBound(coeffs, Ratio(1, 1), cap) <= 1.0 / TwoTo(bits);
      assert EvalBound(coeffs, Ratio(NatPow(2, bits), 1), cap) <= TwoTo(bits) / TwoTo(bits);
    }
  }

  /** What a claim concludes: an advantage below the declared bound is below the floor. */
  lemma AtFloor(coeffs: BoundCoeffs, cap: nat, bits: nat, advantage: real, qH: nat, qS: nat)
    requires MeetsFloor(coeffs, cap, bits)
    requires qS <= cap && 1 <= qH + qS && (qH + qS) as real <= TwoTo(bits)
    requires advantage <= EvalBound(coeffs, (qH + qS) as real, qS)
    ensures advantage <= (qH + qS) as real / TwoTo(bits)
  {
    FloorSound(coeffs, cap, bits, (qH + qS) as real, qS);
  }

  // ----- The declared caps on honest work -----

  lemma Doubling(bits: nat, value: nat)
    requires TwoTo(bits) == value as real
    ensures TwoTo(2 * bits) == (value * value) as real
  {
    PowSum(2.0, bits, bits);
  }

  lemma Powers()
    ensures TwoTo(20) == 1_048_576.0 && TwoTo(24) == 16_777_216.0 && TwoTo(32) == 4_294_967_296.0
    ensures TwoTo(36) == 68_719_476_736.0 && TwoTo(38) == 274_877_906_944.0
    ensures TwoTo(80) == 1_208_925_819_614_629_174_706_176.0
  {
    assert TwoTo(5) == 32.0;
    Doubling(5, 32);
    Doubling(10, 1024);
    assert TwoTo(12) == 4.0 * TwoTo(10);
    Doubling(12, 4096);
    assert TwoTo(16) == TwoTo(12) * 16.0;
    Doubling(16, 65_536);
    Doubling(20, 1_048_576);
    assert TwoTo(40) == 4.0 * TwoTo(38) && TwoTo(38) == 4.0 * TwoTo(36);
    Doubling(40, 1_099_511_627_776);
  }

  /**
   Honest work K + qS * (S + 1) + V, at the declared caps K = 2^38, S = 2^36 and V = 2^24, lies
   strictly inside both security ranges, at every signing count up to the extended budget 2^32.
   */
  lemma HonestWorkInside(qS: nat)
    requires qS as real <= TwoTo(32)
    ensures TwoTo(38) + qS as real * (TwoTo(36) + 1.0) + TwoTo(24) < TwoTo(100) <= TwoTo(124)
  {
    Powers();
    TwoToMonotone(80, 100);
    TwoToMonotone(100, 124);
    ScaleLess(qS as real, TwoTo(32), TwoTo(36) + 1.0);
  }

  // ----- The reported bit level -----

  datatype SecurityBits = BelowZero | Finite(bits: nat) | Unbounded

  datatype Fraction = Fraction(num: nat, den: nat)

  function Add(a: Fraction, b: Fraction): Fraction {
    Fraction(a.num * b.den + b.num * a.den, a.den * b.den)
  }

  function WeightFraction(t: BoundTerm, qS: nat): Fraction {
    Fraction(t.numerator * NatPow(qS, t.signExponent), (t.denominatorPred + 1) * NatPow(2, t.denominatorBits))
  }

  /** B(1, qS) as an exact fraction, the rational whose denominator the scan uses. */
  function AtOne(coeffs: BoundCoeffs, qS: nat): Fraction {
    if coeffs == [] then Fraction(0, 1) else Add(WeightFraction(coeffs[0], qS), AtOne(coeffs[1..], qS))
  }

  ghost predicate Denotes(f: Fraction, r: real) {
    f.den > 0 && r * f.den as real == f.num as real
  }

  lemma AddDenotes(a: Fraction, b: Fraction, x: real, y: real)
    requires Denotes(a, x) && Denotes(b, y)
    ensures Denotes(Add(a, b), x + y)
  {
    assert a.den * b.den > 0;
    var c, d := a.den as real, b.den as real;
    assert (a.den * b.den) as real == c * d;
    assert (a.num * b.den + b.num * a.den) as real == a.num as real * d + b.num as real * c;
    assert (x + y) * (c * d) == (x * c) * d + (y * d) * c;
  }

  lemma WeightDenotes(t: BoundTerm, qS: nat)
    ensures Denotes(WeightFraction(t, qS), Weight(t, qS))
  {
    var p, k := NatPow(qS, t.signExponent), NatPow(2, t.denominatorBits);
    NatPowIsPow(qS, t.signExponent);
    NatPowIsPow(2, t.denominatorBits);
    NatPowPositive(2, t.denominatorBits);
    QuotientDenotes(t.numerator, t.denominatorPred + 1, p, k);
  }

  lemma QuotientDenotes(n: nat, d: nat, p: nat, k: nat)
    requires d > 0 && k > 0
    ensures Denotes(Fraction(n * p, d * k), n as real / d as real * p as real / k as real)
  {
    assert d * k > 0;
    assert (n * p) as real == n as real * p as real;
    assert (d * k) as real == d as real * k as real;
    UndoDivision(n as real, d as real, p as real, k as real);
  }

  lemma UndoDivision(n: real, d: real, p: real, k: real)
    requires d > 0.0 && k > 0.0
    ensures (n / d * p / k) * (d * k) == n * p
  {
    var q := n / d;
    var r := q * p / k;
    assert q * d == n;
    assert r * k == q * p;
    assert r * (d * k) == (r * k) * d == (q * d) * p;
  }

  lemma {:induction false} AtOneDenotes(coeffs: BoundCoeffs, qS: nat)
    ensures Denotes(AtOne(coeffs, qS), EvalBound(coeffs, 1.0, qS))
  {
    if coeffs != [] {
      var t := coeffs[0];
      WeightDenotes(t, qS);
      AtOneDenotes(coeffs[1..], qS);
      PowOne(t.workExponent);
      AddDenotes(WeightFraction(t, qS), AtOne(coeffs[1..], qS), Weight(t, qS), EvalBound(coeffs[1..], 1.0, qS));
      assert Monomial(t, 1.0, qS) == Weight(t, qS);
    }
  }

  function Log2(n: nat): nat {
    if n < 2 then 0 else 1 + Log2(n / 2)
  }

  lemma {:induction false} Log2Bounds(n: nat, b: nat)
    requires NatPow(2, b) <= n
    ensures b <= Log2(n)
  {
    if b > 0 {
      NatPowPositive(2, b - 1);
      Log2Bounds(n / 2, b - 1);
    }
  }

  /** The largest level below `count` that meets the floor, by a left fold over the levels. */
  function Scan(coeffs: BoundCoeffs, qS: nat, count: nat): nat {
    if count == 0 then 0 else
      var best := Scan(coeffs, qS, count - 1);
      if MeetsFloor(coeffs, qS, count - 1) && best < count - 1 then count - 1 else best
  }

  function BitSecurity(coeffs: BoundCoeffs, qS: nat): SecurityBits {
    if EvalBound(coeffs, 1.0, qS) == 0.0 then Unbounded
    else if !MeetsFloor(coeffs, qS, 0) then BelowZero
    else
      AtOneDenotes(coeffs, qS);
      var f := AtOne(coeffs, qS);
      Finite(Scan(coeffs, qS, Log2(ReducedDenominator(f.num, f.den)) + 1))
  }

  lemma ReciprocalMonotone(a: real, b: real)
    requires 0.0 < a <= b
    ensures 1.0 / b <= 1.0 / a
  {
  }

  lemma TwoToMonotone(a: nat, b: nat)
    requires a <= b
    ensures TwoTo(a) <= TwoTo(b)
  {
    PowSum(2.0, a, b - a);
    ScaleLess(1.0, TwoTo(b - a), TwoTo(a));
  }

  /** A floor that is met is met at every lower level. */
  lemma FloorsDownward(coeffs: BoundCoeffs, qS: nat, low: nat, high: nat)
    requires low <= high && MeetsFloor(coeffs, qS, high)
    ensures MeetsFloor(coeffs, qS, low)
  {
    TwoToMonotone(low, high);
    ReciprocalMonotone(TwoTo(low), TwoTo(high));
    BoundMonotone(coeffs, TwoTo(low), TwoTo(high), qS, qS);
  }

  lemma {:induction false} ScanFinds(coeffs: BoundCoeffs, qS: nat, count: nat)
    requires MeetsFloor(coeffs, qS, 0)
    ensures MeetsFloor(coeffs, qS, Scan(coeffs, qS, count))
    ensures forall b: nat :: b < count && MeetsFloor(coeffs, qS, b) ==> b <= Scan(coeffs, qS, count)
  {
    if count > 0 {
      ScanFinds(coeffs, qS, count - 1);
    }
  }

  lemma PositiveAtLeastReciprocal(n: nat, d: nat, r: real)
    requires n > 0 && d > 0 && r == n as real / d as real
    ensures r >= 1.0 / d as real
  {
    DivideMonotone(1.0, n as real, d as real);
  }

  lemma ReciprocalOrder(a: real, b: real)
    requires a > 0.0 && b > 0.0 && 1.0 / a <= 1.0 / b
    ensures b <= a
  {
  }

  /** No level beyond log2 of the reduced denominator of B(1) can be met: the scan misses none. */
  lemma NoFloorBeyondScan(coeffs: BoundCoeffs, qS: nat, b: nat)
    requires MeetsFloor(coeffs, qS, b) && EvalBound(coeffs, 1.0, qS) != 0.0
    ensures AtOne(coeffs, qS).den > 0
    ensures b <= Log2(ReducedDenominator(AtOne(coeffs, qS).num, AtOne(coeffs, qS).den))
  {
    var f := AtOne(coeffs, qS);
    AtOneDenotes(coeffs, qS);
    AtLeastOneOver(f, EvalBound(coeffs, 1.0, qS));
    var d := ReducedDenominator(f.num, f.den);
    ReciprocalOrder(d as real, TwoTo(b));
    NatPowIsPow(2, b);
    Log2Bounds(d, b);
  }

  /** A non-zero fraction is at least one over its reduced denominator. */
  lemma AtLeastOneOver(f: Fraction, value: real)
    requires Denotes(f, value) && value != 0.0
    ensures ReducedDenominator(f.num, f.den) > 0
    ensures value >= 1.0 / ReducedDenominator(f.num, f.den) as real
  {
    assert value == f.num as real / f.den as real;
    var n := LowestTerms(f.num, f.den);
    PositiveAtLeastReciprocal(n, ReducedDenominator(f.num, f.den), value);
  }

  lemma {:induction false} ZeroAtOne(coeffs: BoundCoeffs, qS: nat, q: real)
    requires EvalBound(coeffs, 1.0, qS) == 0.0 && q >= 0.0
    ensures EvalBound(coeffs, q, qS) == 0.0
  {
    if coeffs != [] {
      var t := coeffs[0];
      WeightMonotone(t, qS, qS);
      PowOne(t.workExponent);
      BoundMonotone(coeffs[1..], 1.0, 1.0, qS, qS);
      assert Monomial(t, 1.0, qS) == Weight(t, qS);
      ZeroAtOne(coeffs[1..], qS, q);
    }
  }

  /** Which bit levels are met, as the report says it. */
  ghost predicate Levels(coeffs: BoundCoeffs, qS: nat, report: SecurityBits) {
    match report
    case Unbounded => forall b: nat :: MeetsFloor(coeffs, qS, b)
    case BelowZero => forall b: nat :: !MeetsFloor(coeffs, qS, b)
    case Finite(n) => forall b: nat :: MeetsFloor(coeffs, qS, b) <==> b <= n
  }

  lemma LevelsOfUnbounded(coeffs: BoundCoeffs, qS: nat)
    requires EvalBound(coeffs, 1.0, qS) == 0.0
    ensures Levels(coeffs, qS, Unbounded)
  {
    forall b: nat ensures MeetsFloor(coeffs, qS, b) {
      ZeroAtOne(coeffs, qS, TwoTo(b));
    }
  }

  lemma LevelsOfFinite(coeffs: BoundCoeffs, qS: nat, count: nat)
    requires MeetsFloor(coeffs, qS, 0)
    requires forall b: nat :: MeetsFloor(coeffs, qS, b) ==> b < count
    ensures Levels(coeffs, qS, Finite(Scan(coeffs, qS, count)))
  {
    var n := Scan(coeffs, qS, count);
    ScanFinds(coeffs, qS, count);
    forall b: nat ensures MeetsFloor(coeffs, qS, b) <==> b <= n {
      if b <= n {
        FloorsDownward(coeffs, qS, b, n);
      }
    }
  }

  lemma LevelsExclusive(coeffs: BoundCoeffs, qS: nat, a: SecurityBits, b: SecurityBits)
    requires Levels(coeffs, qS, a) && Levels(coeffs, qS, b)
    ensures a == b
  {
    assert MeetsFloor(coeffs, qS, 0) || !MeetsFloor(coeffs, qS, 0);
    if a.Finite? {
      assert !MeetsFloor(coeffs, qS, a.bits + 1) && MeetsFloor(coeffs, qS, a.bits);
    }
    if b.Finite? {
      assert !MeetsFloor(coeffs, qS, b.bits + 1) && MeetsFloor(coeffs, qS, b.bits);
    }
  }

  /** The report is exact: it is the one report that describes the levels met. */
  lemma BitSecurityExact(coeffs: BoundCoeffs, qS: nat, report: SecurityBits)
    ensures Levels(coeffs, qS, report) <==> report == BitSecurity(coeffs, qS)
  {
    var r := BitSecurity(coeffs, qS);
    assert Levels(coeffs, qS, r) by {
      if r.Unbounded? {
        LevelsOfUnbounded(coeffs, qS);
      } else if r.BelowZero? {
        forall b: nat ensures !MeetsFloor(coeffs, qS, b) {
          if MeetsFloor(coeffs, qS, b) {
            FloorsDownward(coeffs, qS, 0, b);
          }
        }
      } else {
        AtOneDenotes(coeffs, qS);
        var count := Log2(ReducedDenominator(AtOne(coeffs, qS).num, AtOne(coeffs, qS).den)) + 1;
        forall b: nat | MeetsFloor(coeffs, qS, b) ensures b < count {
          NoFloorBeyondScan(coeffs, qS, b);
        }
        LevelsOfFinite(coeffs, qS, count);
      }
    }
    if Levels(coeffs, qS, report) {
      LevelsExclusive(coeffs, qS, report, r);
    }
  }
}
