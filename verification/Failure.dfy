/**
 Survival envelopes for retried signing attempts.
 */
module Failure {
  import opened Rationals

  /** Each step keeps at most the share 1 - p of the surviving mass, up to that step's allowance. */
  ghost predicate Contracts(tail: nat -> real, bad: nat -> real, p: real) {
    && tail(0) <= 1.0
    && forall n: nat :: tail(n + 1) <= tail(n) * (1.0 - p) + bad(n)
  }

  ghost function Allowances(bad: nat -> real, attempts: nat): real {
    if attempts == 0 then 0.0 else Allowances(bad, attempts - 1) + bad(attempts - 1)
  }

  lemma {:induction false} AllowancesNonNegative(bad: nat -> real, attempts: nat)
    requires forall n: nat :: bad(n) >= 0.0
    ensures Allowances(bad, attempts) >= 0.0
  {
    if attempts > 0 {
      AllowancesNonNegative(bad, attempts - 1);
    }
  }

  lemma EnvelopeStep(mass: real, share: real, power: real, sum: real, scaled: real, decayed: real)
    requires 0.0 <= share <= 1.0 && 0.0 <= sum && mass <= power + sum
    requires scaled == mass * share && decayed == share * power
    ensures scaled <= decayed + sum
  {
    var excess, kept := (mass - power) * share, sum * share;
    ScaleTo(mass - power, sum, share, excess, kept);
    ScaleTo(share, 1.0, sum, kept, sum);
    assert excess == scaled - decayed;
  }

  /** The allowances add up undiscounted; the rest decays geometrically. */
  lemma {:induction false} Envelope(tail: nat -> real, bad: nat -> real, p: real, attempts: nat)
    requires 0.0 <= p <= 1.0 && forall n: nat :: bad(n) >= 0.0
    requires Contracts(tail, bad, p)
    ensures tail(attempts) <= Pow(1.0 - p, attempts) + Allowances(bad, attempts)
  {
    if attempts > 0 {
      var n := attempts - 1;
      Envelope(tail, bad, p, n);
      AllowancesNonNegative(bad, n);
      EnvelopeStep(tail(n), 1.0 - p, Pow(1.0 - p, n), Allowances(bad, n), tail(n) * (1.0 - p), Pow(1.0 - p, attempts));
      assert tail(n + 1) <= tail(n) * (1.0 - p) + bad(n);
    }
  }

  /** The envelope with allowances cannot be improved: without contraction it is attained at every step. */
  lemma EnvelopeAttained(bad: nat -> real) returns (tail: nat -> real)
    ensures Contracts(tail, bad, 0.0)
    ensures forall n: nat :: tail(n) == 1.0 + Allowances(bad, n)
  {
    tail := (n: nat) => 1.0 + Allowances(bad, n);
    forall n: nat ensures tail(n + 1) <= tail(n) * (1.0 - 0.0) + bad(n) {
      assert Allowances(bad, n + 1) <= Allowances(bad, n) + bad(n);
    }
  }

  function NoAllowance(): nat -> real {
    n => 0.0
  }

  /** Without allowances p may be anything up to one, even negative. */
  lemma {:induction false} PlainEnvelope(tail: nat -> real, p: real, attempts: nat)
    requires p <= 1.0 && Contracts(tail, NoAllowance(), p)
    ensures tail(attempts) <= Pow(1.0 - p, attempts)
  {
    if attempts > 0 {
      var n := attempts - 1;
      PlainEnvelope(tail, p, n);
      ScaleLess(tail(n), Pow(1.0 - p, n), 1.0 - p);
      assert tail(n + 1) <= tail(n) * (1.0 - p) + NoAllowance()(n);
    }
  }

  /** Bernoulli's inequality. */
  lemma {:induction false} Bernoulli(p: real, m: nat)
    requires p >= 0.0
    ensures Pow(1.0 + p, m) >= 1.0 + m as real * p
  {
    if m > 0 {
      Bernoulli(p, m - 1);
      BernoulliStep((m - 1) as real, p, Pow(1.0 + p, m - 1), Pow(1.0 + p, m));
      assert m as real == (m - 1) as real + 1.0;
    }
  }

  lemma BernoulliStep(k: real, p: real, before: real, after: real)
    requires k >= 0.0 && p >= 0.0
    requires before >= 1.0 + k * p && after == (1.0 + p) * before
    ensures after >= 1.0 + (k + 1.0) * p
  {
    ScaleLess(1.0 + k * p, before, 1.0 + p);
    ScaleBoth(0.0, p, 0.0, k * p);
    assert (1.0 + p) * (1.0 + k * p) == 1.0 + p + k * p + p * (k * p);
    assert (k + 1.0) * p == k * p + p;
  }

  lemma {:induction false} PowProduct(x: real, y: real, z: real, n: nat)
    requires z == x * y
    ensures Pow(z, n) == Pow(x, n) * Pow(y, n)
  {
    if n > 0 {
      PowProduct(x, y, z, n - 1);
      Interchange(x, y, Pow(x, n - 1), Pow(y, n - 1));
    }
  }

  lemma Interchange(x: real, y: real, a: real, b: real)
    ensures (x * y) * (a * b) == (x * a) * (y * b)
  {
  }

  /** A block of m attempts with m * p >= 1 halves the surviving mass. */
  lemma BlockHalves(p: real, m: nat)
    requires 0.0 <= p <= 1.0 && m as real * p >= 1.0
    ensures 0.0 <= Pow(1.0 - p, m) <= 0.5
  {
    PowNonNegative(1.0 - p, m);
    Bernoulli(p, m);
    BelowOne(p);
    var z := (1.0 - p) * (1.0 + p);
    PowProduct(1.0 - p, 1.0 + p, z, m);
    PowMonotone(z, 1.0, m);
    PowOne(m);
    HalfOf(Pow(1.0 - p, m), Pow(1.0 + p, m));
  }

  lemma BelowOne(p: real)
    requires 0.0 <= p <= 1.0
    ensures 0.0 <= (1.0 - p) * (1.0 + p) <= 1.0
  {
    assert (1.0 - p) * (1.0 + p) == 1.0 - p * p;
    ScaleBoth(0.0, p, 0.0, p);
    ScaleBoth(0.0, 1.0 - p, 0.0, 1.0 + p);
  }

  lemma HalfOf(decay: real, growth: real)
    requires decay >= 0.0 && growth >= 2.0 && decay * growth <= 1.0
    ensures decay <= 0.5
  {
    ScaleLess(2.0, growth, decay);
  }

  lemma {:induction false} PowPower(x: real, m: nat, n: nat)
    ensures Pow(x, m * n) == Pow(Pow(x, m), n)
  {
    if n > 0 {
      PowPower(x, m, n - 1);
      PowSum(x, m, m * (n - 1));
      assert m * n == m + m * (n - 1);
    }
  }

  /** Attempts in `bits` such blocks leave at most 2^-bits. */
  lemma BlocksHalve(tail: nat -> real, p: real, m: nat, bits: nat)
    requires 0.0 <= p <= 1.0 && m as real * p >= 1.0
    requires Contracts(tail, NoAllowance(), p)
    ensures tail(m * bits) <= Pow(0.5, bits)
  {
    PlainEnvelope(tail, p, m * bits);
    PowPower(1.0 - p, m, bits);
    BlockHalves(p, m);
    PowMonotone(Pow(1.0 - p, m), 0.5, bits);
  }

  /** At success probability 2^-16 per attempt, 65536 * bits attempts fail with at most 2^-bits. */
  lemma EncodingFailure(tail: nat -> real, bits: nat)
    requires Contracts(tail, NoAllowance(), 1.0 / 65536.0)
    ensures tail(65536 * bits) <= Pow(0.5, bits)
  {
    BlocksHalve(tail, 1.0 / 65536.0, 65536, bits);
  }
}
