/**
 The declared metrics and bound of a submission: what the host accepts, and what it renders for Lean.

 A file is its sequence of bytes, each byte written as the character with that code.
 */
module Contract {
  import opened Bound
  import opened Rationals
  import opened Strings
  import opened Wrappers

  datatype Error =
    | NotCanonical | TooLarge | TooLong | BadList | BadTerm | BadComponent | NotReduced | BadExponent | Unsorted

  const MAX_TERMS: nat := 128
  const MAX_BYTES: nat := 65536
  const MAX_COMPONENT: nat := 0x7FFF_FFFF_FFFF_FFFF

  // ----- Decimals -----

  predicate IsDigit(c: char) {
    '0' <= c <= '9'
  }

  function DigitValue(c: char): nat
    requires IsDigit(c)
  {
    c as nat - '0' as nat
  }

  function DigitOf(d: nat): (c: char)
    requires d < 10
    ensures IsDigit(c) && DigitValue(c) == d
  {
    (d + '0' as nat) as char
  }

  predicate AllDigits(s: string) {
    forall i :: 0 <= i < |s| ==> IsDigit(s[i])
  }

  /** [1-9][0-9]* */
  predicate IsCanonical(s: string) {
    s != [] && s[0] != '0' && AllDigits(s)
  }

  function ValueOf(s: string): nat
    requires AllDigits(s)
  {
    if s == [] then 0 else 10 * ValueOf(s[..|s| - 1]) + DigitValue(s[|s| - 1])
  }

  /** str(n) */
  function Decimal(n: nat): string {
    if n < 10 then [DigitOf(n)] else Decimal(n / 10) + [DigitOf(n % 10)]
  }

  lemma {:induction false} DecimalReads(n: nat)
    ensures AllDigits(Decimal(n)) && ValueOf(Decimal(n)) == n
    ensures n > 0 ==> IsCanonical(Decimal(n))
  {
    var s := Decimal(n);
    if n < 10 {
      assert s[..0] == [];
    } else {
      DecimalReads(n / 10);
      assert s[..|s| - 1] == Decimal(n / 10);
    }
  }

  lemma {:induction false} CanonicalWrites(s: string)
    requires IsCanonical(s)
    ensures ValueOf(s) > 0 && Decimal(ValueOf(s)) == s
  {
    var t := s[..|s| - 1];
    if t == [] {
      assert s == [s[0]];
      assert ValueOf(t) == 0;
    } else {
      CanonicalWrites(t);
      assert s == t + [s[|s| - 1]];
    }
  }

  lemma {:induction false} DecimalLength(n: nat, k: nat)
    requires k > 0 && n < NatPow(10, k)
    ensures |Decimal(n)| <= k
  {
    if n >= 10 {
      assert k > 1;
      DecimalLength(n / 10, k - 1);
    }
  }

  lemma MaxLength(n: nat)
    requires n <= MAX_COMPONENT
    ensures |Decimal(n)| <= 19
  {
    assert NatPow(10, 5) == 100000;
    assert NatPow(10, 10) == 100000 * NatPow(10, 5);
    assert NatPow(10, 15) == 100000 * NatPow(10, 10);
    assert NatPow(10, 19) == 10000 * NatPow(10, 15);
    DecimalLength(n, 19);
  }

  // ----- scalar -----

  /** The text without its one optional final line feed. */
  function Body(data: string): string {
    if data != [] && data[|data| - 1] == '\n' then data[..|data| - 1] else data
  }

  function Scalar(data: string): Result<nat, Error> {
    if |data| > 32 || !IsCanonical(Body(data)) then Err(NotCanonical)
    else if ValueOf(Body(data)) > MAX_COMPONENT then Err(TooLarge)
    else Ok(ValueOf(Body(data)))
  }

  lemma BodyOfDecimal(v: nat)
    ensures Body(Decimal(v)) == Decimal(v) == Body(Decimal(v) + "\n")
  {
    DecimalReads(v);
    var s := Decimal(v);
    assert IsDigit(s[|s| - 1]);
    assert (s + "\n")[..|s|] == s;
  }

  /** Accepted are exactly the canonical decimals of 1 to 2^63-1, with at most one final line feed. */
  lemma ScalarExact(data: string, v: nat)
    ensures Scalar(data) == Ok(v) <==>
            1 <= v <= MAX_COMPONENT && (data == Decimal(v) || data == Decimal(v) + "\n")
  {
    if Scalar(data) == Ok(v) {
      CanonicalWrites(Body(data));
      assert data == Body(data) || data == Body(data) + "\n";
    }
    if 1 <= v <= MAX_COMPONENT && (data == Decimal(v) || data == Decimal(v) + "\n") {
      DecimalReads(v);
      MaxLength(v);
      BodyOfDecimal(v);
    }
  }

  // ----- parse_bound -----

  /** A decoded JSON value, as far as the bound distinguishes them. */
  datatype Json = Number(value: int) | List(items: seq<Json>) | Other

  /** numerator / denominator * Q^a * qS^b / 2^k */
  datatype Term = Term(num: nat, den: nat, a: nat, b: nat, k: nat)

  predicate IsComponent(j: Json) {
    j.Number? && 0 <= j.value <= MAX_COMPONENT
  }

  predicate HasShape(j: Json) {
    j.List? && |j.items| == 5 && forall i :: 0 <= i < 5 ==> IsComponent(j.items[i])
  }

  function TermOf(j: Json): Term
    requires HasShape(j)
  {
    Term(j.items[0].value, j.items[1].value, j.items[2].value, j.items[3].value, j.items[4].value)
  }

  predicate InLowestTerms(t: Term) {
    t.num > 0 && t.den > 0 && ReducedDenominator(t.num, t.den) == t.den
  }

  predicate SmallExponents(t: Term) {
    t.a <= 1024 && t.b <= 1024 && t.k <= 1024
  }

  /** (a, b, k) compared lexicographically, as Python compares tuples. */
  predicate KeyLess(t: Term, u: Term) {
    t.a < u.a || (t.a == u.a && (t.b < u.b || (t.b == u.b && t.k < u.k)))
  }

  ghost predicate ValidTerm(j: Json) {
    HasShape(j) && InLowestTerms(TermOf(j)) && SmallExponents(TermOf(j))
  }

  /** The first `n` items are valid terms with strictly increasing monomials. */
  ghost predicate ValidPrefix(items: seq<Json>, n: nat)
    requires n <= |items|
  {
    && (forall i :: 0 <= i < n ==> ValidTerm(items[i]))
    && (forall i :: 0 < i < n ==> KeyLess(TermOf(items[i - 1]), TermOf(items[i])))
  }

  ghost predicate ValidBound(j: Json) {
    j.List? && 1 <= |j.items| <= MAX_TERMS && ValidPrefix(j.items, |j.items|)
  }

  /** The first check that term `i` fails, after valid terms. */
  ghost function TermError(items: seq<Json>, i: nat): Option<Error>
    requires i < |items| && ValidPrefix(items, i)
  {
    var j := items[i];
    if !j.List? || |j.items| != 5 then Some(BadTerm)
    else if !HasShape(j) then Some(BadComponent)
    else if !InLowestTerms(TermOf(j)) then Some(NotReduced)
    else if !SmallExponents(TermOf(j)) then Some(BadExponent)
    else if i > 0 && !KeyLess(TermOf(items[i - 1]), TermOf(j)) then Some(Unsorted)
    else None
  }

  ghost predicate FailsAt(items: seq<Json>, i: nat, e: Error) {
    i < |items| && ValidPrefix(items, i) && TermError(items, i) == Some(e)
  }

  lemma FailsInvalid(items: seq<Json>, i: nat, e: Error, n: nat)
    requires FailsAt(items, i, e) && i < n <= |items|
    ensures !ValidPrefix(items, n)
  {
    assert !ValidTerm(items[i]) || (i > 0 && !KeyLess(TermOf(items[i - 1]), TermOf(items[i])));
  }

  /** A list that is refused fails at one term, with one error. */
  lemma FailureUnique(items: seq<Json>, i: nat, e: Error, j: nat, f: Error)
    requires FailsAt(items, i, e) && FailsAt(items, j, f)
    ensures i == j && e == f
  {
    if i < j {
      FailsInvalid(items, i, e, j);
    } else if j < i {
      FailsInvalid(items, j, f, i);
    }
  }

  /** The error of the first check that fails, reading the file in order. */
  ghost predicate Explains(size: nat, decoded: Json, e: Error) {
    if size > MAX_BYTES then e == TooLong
    else if !decoded.List? || !(1 <= |decoded.items| <= MAX_TERMS) then e == BadList
    else exists i :: FailsAt(decoded.items, i, e)
  }

  /** Reduced means what it should: no common divisor but one. */
  lemma LowestTermsMeans(t: Term)
    requires t.num > 0 && t.den > 0
    ensures InLowestTerms(t) <==> forall d: nat :: Divides(d, t.num) && Divides(d, t.den) ==> d == 1
  {
    var g := Gcd(t.num, t.den);
    GcdPositive(t.num, t.den);
    SelfDivides(g);
    GcdDivides(t.num, t.den, g);
    var k: nat :| g * k == t.den;
    QuotientOf(g, k, t.den);
    if InLowestTerms(t) {
      UnitFactor(g, k);
      forall d: nat | Divides(d, t.num) && Divides(d, t.den) ensures d == 1 {
        GcdDivides(t.num, t.den, d);
        var j: nat :| d * j == 1;
        UnitProduct(d, j);
      }
    }
  }

  lemma UnitFactor(g: nat, k: nat)
    requires g * k == k && k > 0
    ensures g == 1
  {
    if g > 1 {
      NatScale(k, 2, g);
    }
  }

  lemma UnitProduct(d: nat, j: nat)
    requires d * j == 1
    ensures d == 1
  {
    if d > 1 {
      NatScale(d, 1, j);
    }
  }

  /** Checking neighbours is enough: every two monomials of an accepted bound differ and are in order. */
  lemma {:induction false} MonomialsOrdered(items: seq<Json>, i: nat, j: nat)
    requires ValidPrefix(items, |items|) && i < j < |items|
    ensures KeyLess(TermOf(items[i]), TermOf(items[j]))
  {
    assert KeyLess(TermOf(items[j - 1]), TermOf(items[j]));
    if i < j - 1 {
      MonomialsOrdered(items, i, j - 1);
    }
  }

  // ----- What a legal declaration is, item by item -----

  ghost predicate IsLegalTerm(j: Json) {
    && j.List? && |j.items| == 5
    && (forall n :: 0 <= n < 5 ==> j.items[n].Number? && 0 <= j.items[n].value <= 9_223_372_036_854_775_807)
    && j.items[0].value > 0 && j.items[1].value > 0
    && (forall d: nat :: Divides(d, j.items[0].value) && Divides(d, j.items[1].value) ==> d == 1)
    && j.items[2].value <= 1024 && j.items[3].value <= 1024 && j.items[4].value <= 1024
  }

  /** The exponents (a, b, k) are smaller at the first place where they differ, and do differ. */
  predicate Precedes(x: Json, y: Json)
    requires HasShape(x) && HasShape(y)
  {
    || x.items[2].value < y.items[2].value
    || (x.items[2].value == y.items[2].value && x.items[3].value < y.items[3].value)
    || (x.items[2].value == y.items[2].value && x.items[3].value == y.items[3].value &&
        x.items[4].value < y.items[4].value)
  }

  ghost predicate IsLegal(decoded: Json) {
    && decoded.List? && 1 <= |decoded.items| <= 128
    && (forall i :: 0 <= i < |decoded.items| ==> IsLegalTerm(decoded.items[i]))
    && (forall i, j :: 0 <= i < j < |decoded.items| ==>
          HasShape(decoded.items[i]) && HasShape(decoded.items[j]) && Precedes(decoded.items[i], decoded.items[j]))
  }

  lemma TermLegal(j: Json)
    ensures ValidTerm(j) <==> IsLegalTerm(j)
  {
    if HasShape(j) && j.items[0].value > 0 && j.items[1].value > 0 {
      LowestTermsMeans(TermOf(j));
    }
  }

  lemma BoundLegal(decoded: Json)
    ensures ValidBound(decoded) <==> IsLegal(decoded)
  {
    if decoded.List? {
      var items := decoded.items;
      forall i | 0 <= i < |items| ensures ValidTerm(items[i]) <==> IsLegalTerm(items[i]) {
        TermLegal(items[i]);
      }
      if ValidBound(decoded) {
        forall i, j | 0 <= i < j < |items|
          ensures HasShape(items[i]) && HasShape(items[j]) && Precedes(items[i], items[j])
        {
          assert ValidTerm(items[i]) && ValidTerm(items[j]);
          MonomialsOrdered(items, i, j);
        }
      }
      if IsLegal(decoded) {
        forall i | 0 < i < |items| ensures KeyLess(TermOf(items[i - 1]), TermOf(items[i])) {
          assert Precedes(items[i - 1], items[i]);
        }
      }
    }
  }

  /** Each term is the five items in their places. */
  predicate IsTerm(j: Json, t: Term) {
    && j.List? && |j.items| == 5
    && (forall n :: 0 <= n < 5 ==> j.items[n].Number?)
    && t.num == j.items[0].value && t.den == j.items[1].value
    && t.a == j.items[2].value && t.b == j.items[3].value && t.k == j.items[4].value
  }

  method ParseBound(size: nat, decoded: Json) returns (r: Result<seq<Term>, Error>)
    ensures r.Ok? <==> size <= MAX_BYTES && ValidBound(decoded)
    ensures r.Ok? <==> size <= 65536 && IsLegal(decoded)
    ensures r.Err? ==> Explains(size, decoded, r.error)
    ensures r.Ok? ==>
              |r.value| == |decoded.items| && forall i :: 0 <= i < |r.value| ==> IsTerm(decoded.items[i], r.value[i])
  {
    BoundLegal(decoded);
    if size > MAX_BYTES {
      return Err(TooLong);
    }
    if !decoded.List? || !(1 <= |decoded.items| <= MAX_TERMS) {
      return Err(BadList);
    }
    var items := decoded.items;
    var terms: seq<Term> := [];
    for i := 0 to |items|
      invariant ValidPrefix(items, i)
      invariant |terms| == i && forall j :: 0 <= j < i ==> terms[j] == TermOf(items[j])
    {
      var term := items[i];
      if !term.List? || |term.items| != 5 {
        assert FailsAt(items, i, BadTerm);
        FailsInvalid(items, i, BadTerm, |items|);
        return Err(BadTerm);
      }
      if !(forall n :: 0 <= n < 5 ==> IsComponent(term.items[n])) {
        assert FailsAt(items, i, BadComponent);
        FailsInvalid(items, i, BadComponent, |items|);
        return Err(BadComponent);
      }
      var t := TermOf(term);
      if !InLowestTerms(t) {
        assert FailsAt(items, i, NotReduced);
        FailsInvalid(items, i, NotReduced, |items|);
        return Err(NotReduced);
      }
      if !SmallExponents(t) {
        assert FailsAt(items, i, BadExponent);
        FailsInvalid(items, i, BadExponent, |items|);
        return Err(BadExponent);
      }
      if i > 0 && !KeyLess(terms[i - 1], t) {
        assert FailsAt(items, i, Unsorted);
        return Err(Unsorted);
      }
      terms := terms + [t];
    }
    return Ok(terms);
  }

  // ----- lean_bound: the value -----

  function Encode(t: Term): BoundTerm
    requires t.den > 0
  {
    BoundTerm(t.num, t.den - 1, t.a, t.b, t.k)
  }

  predicate Positive(terms: seq<Term>) {
    forall i :: 0 <= i < |terms| ==> terms[i].den > 0
  }

  function EncodeAll(terms: seq<Term>): BoundCoeffs
    requires Positive(terms)
  {
    if terms == [] then [] else [Encode(terms[0])] + EncodeAll(terms[1..])
  }

  /** The documented rational of one term. */
  function Documented(t: Term, Q: real, qS: nat): real
    requires t.den > 0
  {
    t.num as real / t.den as real * Pow(Q, t.a) * Pow(qS as real, t.b) / TwoTo(t.k)
  }

  function DocumentedSum(terms: seq<Term>, Q: real, qS: nat): real
    requires Positive(terms)
  {
    if terms == [] then 0.0 else Documented(terms[0], Q, qS) + DocumentedSum(terms[1..], Q, qS)
  }

  lemma Reorder(c: real, x: real, y: real, d: real)
    requires d > 0.0
    ensures c * x / d * y == c * y * x / d
  {
    var r := c * x / d;
    assert r * d == c * x;
    assert (r * y) * d == (r * d) * y == c * y * x;
  }

  /** The predecessor encoding denotes, in Lean, the rational the file format documents. */
  lemma {:induction false} EncodingDenotes(terms: seq<Term>, Q: real, qS: nat)
    requires Positive(terms)
    ensures EvalBound(EncodeAll(terms), Q, qS) == DocumentedSum(terms, Q, qS)
  {
    if terms != [] {
      var t := terms[0];
      Reorder(t.num as real / t.den as real, Pow(qS as real, t.b), Pow(Q, t.a), TwoTo(t.k));
      assert Monomial(Encode(t), Q, qS) == Documented(t, Q, qS);
      EncodingDenotes(terms[1..], Q, qS);
      assert EncodeAll(terms)[1..] == EncodeAll(terms[1..]);
    }
  }

  /** At every rational Q of the range and every signing count up to the cap, the declared sum is under Q / 2^bits. */
  ghost predicate DeclaredUnderLine(terms: seq<Term>, cap: nat, bits: nat)
    requires Positive(terms)
  {
    forall n: nat, d: nat, s: nat :: d > 0 && 1.0 <= Ratio(n, d) <= TwoTo(bits) && s <= cap ==>
      DocumentedSum(terms, Ratio(n, d), s) <= Ratio(n, d) / TwoTo(bits)
  }

  /** Lean's two-point test of the rendered terms decides the inequality the declaration file documents. */
  lemma DeclaredFloorExact(terms: seq<Term>, cap: nat, bits: nat)
    requires Positive(terms)
    ensures MeetsFloor(EncodeAll(terms), cap, bits) <==> DeclaredUnderLine(terms, cap, bits)
  {
    var coeffs := EncodeAll(terms);
    forall q: real, s: nat ensures EvalBound(coeffs, q, s) == DocumentedSum(terms, q, s) {
      EncodingDenotes(terms, q, s);
    }
    FloorExact(coeffs, cap, bits);
  }

  // ----- lean_bound and render: the text -----

  const OPEN: char := '\U{27E8}'
  const CLOSE: char := '\U{27E9}'

  lemma Marks()
    ensures OPEN as int == 10216 && CLOSE as int == 10217
  {
  }

  /** ", ".join(parts) */
  function Join(parts: seq<string>): string {
    if parts == [] then "" else if |parts| == 1 then parts[0] else parts[0] + ", " + Join(parts[1..])
  }

  function Decimals(ns: seq<nat>): seq<string> {
    if ns == [] then [] else [Decimal(ns[0])] + Decimals(ns[1..])
  }

  function Fields(t: BoundTerm): seq<nat> {
    [t.numerator, t.denominatorPred, t.workExponent, t.signExponent, t.denominatorBits]
  }

  /** One anonymous-constructor literal. */
  function TermText(t: BoundTerm): string {
    [OPEN] + Join(Decimals(Fields(t))) + [CLOSE]
  }

  function TermTexts(ts: BoundCoeffs): seq<string> {
    if ts == [] then [] else [TermText(ts[0])] + TermTexts(ts[1..])
  }

  function LeanBound(ts: BoundCoeffs): string {
    "[" + Join(TermTexts(ts)) + "]"
  }

  /** The declaration, for a fixed template text before and after the three declared values. */
  function Render(head: string, tail: string, sigma: nat, hverify: nat, terms: seq<Term>): string
    requires Positive(terms)
  {
    head + Decimal(sigma) + " " + Decimal(hverify) + " " + LeanBound(EncodeAll(terms)) + tail
  }

  lemma Regroup(a: string, b: string, c: string, d: string, e: string)
    ensures a + b + c == a + (b + c)
    ensures a + b + c + d == a + (b + c + d)
    ensures a + b + c + d + e == a + (b + c + d + e)
  {
  }

  lemma DigitsEnd(x: string, y: string, s: string, t: string)
    requires AllDigits(x) && AllDigits(y)
    requires s != [] && t != [] && !IsDigit(s[0]) && !IsDigit(t[0])
    requires x + s == y + t
    ensures x == y && s == t
  {
    var w := x + s;
    assert w == y + t;
    assert forall i :: 0 <= i < |x| ==> w[i] == x[i];
    assert forall i :: 0 <= i < |y| ==> w[i] == y[i];
    assert w[|x|] == s[0] && w[|y|] == t[0];
    assert x == w[..|x|] && y == w[..|y|];
    CancelHead(x, s, t);
  }

  /** A decimal followed by a non-digit is read back uniquely. */
  lemma DecimalEnds(a: nat, b: nat, s: string, t: string)
    requires s != [] && t != [] && !IsDigit(s[0]) && !IsDigit(t[0])
    requires Decimal(a) + s == Decimal(b) + t
    ensures a == b && s == t
  {
    DecimalReads(a);
    DecimalReads(b);
    DigitsEnd(Decimal(a), Decimal(b), s, t);
  }

  lemma JoinStep(ns: seq<nat>, s: string)
    requires |ns| > 1
    ensures Join(Decimals(ns)) + s == Decimal(ns[0]) + (", " + (Join(Decimals(ns[1..])) + s))
  {
    JoinDecimals(ns);
    Regroup(Decimal(ns[0]), ", ", Join(Decimals(ns[1..])), s, "");
    Regroup(", ", Join(Decimals(ns[1..])), s, "", "");
  }

  lemma JoinDecimals(ns: seq<nat>)
    requires |ns| > 1
    ensures Join(Decimals(ns)) == Decimal(ns[0]) + ", " + Join(Decimals(ns[1..]))
  {
    assert Decimals(ns)[1..] == Decimals(ns[1..]);
    assert Decimals(ns[1..]) != [];
  }

  lemma {:induction false} FieldsEnd(ns: seq<nat>, ms: seq<nat>, s: string, t: string)
    requires |ns| == |ms| > 0
    requires s != [] && t != [] && !IsDigit(s[0]) && !IsDigit(t[0])
    requires Join(Decimals(ns)) + s == Join(Decimals(ms)) + t
    ensures ns == ms && s == t
  {
    if |ns| == 1 {
      assert Decimals(ns) == [Decimal(ns[0])] && Decimals(ms) == [Decimal(ms[0])];
      DecimalEnds(ns[0], ms[0], s, t);
    } else {
      JoinStep(ns, s);
      JoinStep(ms, t);
      var s', t' := Join(Decimals(ns[1..])) + s, Join(Decimals(ms[1..])) + t;
      DecimalEnds(ns[0], ms[0], ", " + s', ", " + t');
      CancelHead(", ", s', t');
      FieldsEnd(ns[1..], ms[1..], s, t);
      assert ns == [ns[0]] + ns[1..] && ms == [ms[0]] + ms[1..];
    }
  }

  lemma TermEnds(t: BoundTerm, u: BoundTerm, x: string, y: string)
    requires TermText(t) + x == TermText(u) + y
    ensures t == u && x == y
  {
    var f, g := Join(Decimals(Fields(t))), Join(Decimals(Fields(u)));
    assert TermText(t) + x == [OPEN] + (f + ([CLOSE] + x));
    assert TermText(u) + y == [OPEN] + (g + ([CLOSE] + y));
    CancelHead([OPEN], f + ([CLOSE] + x), g + ([CLOSE] + y));
    FieldsEnd(Fields(t), Fields(u), [CLOSE] + x, [CLOSE] + y);
    CancelHead([CLOSE], x, y);
    assert Fields(t)[0] == Fields(u)[0] && Fields(t)[1] == Fields(u)[1] && Fields(t)[2] == Fields(u)[2];
    assert Fields(t)[3] == Fields(u)[3] && Fields(t)[4] == Fields(u)[4];
  }

  function Rest(ts: BoundCoeffs, x: string): string {
    if ts == [] then "]" + x else ", " + Join(TermTexts(ts)) + "]" + x
  }

  lemma JoinTerms(ts: BoundCoeffs)
    requires ts != []
    ensures Join(TermTexts(ts)) ==
            if |ts| == 1 then TermText(ts[0]) else TermText(ts[0]) + ", " + Join(TermTexts(ts[1..]))
  {
    assert TermTexts(ts)[1..] == TermTexts(ts[1..]);
    assert |ts| > 1 ==> TermTexts(ts[1..]) != [];
    assert |ts| == 1 ==> TermTexts(ts[1..]) == [];
  }

  lemma ListStep(ts: BoundCoeffs, x: string)
    requires ts != []
    ensures Join(TermTexts(ts)) + "]" + x == TermText(ts[0]) + Rest(ts[1..], x)
  {
    JoinTerms(ts);
    if |ts| == 1 {
      Regroup(TermText(ts[0]), "]", x, "", "");
    } else {
      Regroup(TermText(ts[0]), ", ", Join(TermTexts(ts[1..])), "]", x);
    }
  }

  lemma {:induction false} ListEnds(ts: BoundCoeffs, us: BoundCoeffs, x: string, y: string)
    requires Rest(ts, x) == Rest(us, y)
    ensures ts == us && x == y
  {
    RestFirst(ts, x);
    RestFirst(us, y);
    if ts == [] {
      CancelHead("]", x, y);
    } else {
      RestIs(ts, x);
      RestIs(us, y);
      CancelHead(", ", Join(TermTexts(ts)) + "]" + x, Join(TermTexts(us)) + "]" + y);
      ListStep(ts, x);
      ListStep(us, y);
      TermEnds(ts[0], us[0], Rest(ts[1..], x), Rest(us[1..], y));
      ListEnds(ts[1..], us[1..], x, y);
      assert ts == [ts[0]] + ts[1..] && us == [us[0]] + us[1..];
    }
  }

  lemma RestFirst(ts: BoundCoeffs, x: string)
    ensures Rest(ts, x)[0] == if ts == [] then ']' else ','
  {
  }

  lemma BoundEnds(ts: BoundCoeffs, us: BoundCoeffs, x: string, y: string)
    requires LeanBound(ts) + x == LeanBound(us) + y
    ensures ts == us && x == y
  {
    var s, t := Join(TermTexts(ts)) + "]" + x, Join(TermTexts(us)) + "]" + y;
    Regroup("[", Join(TermTexts(ts)), "]", x, "");
    Regroup("[", Join(TermTexts(us)), "]", y, "");
    CancelHead("[", s, t);
    FirstOfList(ts, x);
    FirstOfList(us, y);
    if ts == [] {
      assert us == [];
      assert s == "]" + x && t == "]" + y;
      CancelHead("]", x, y);
    } else {
      RestIs(ts, x);
      RestIs(us, y);
      ListEnds(ts, us, x, y);
    }
  }

  lemma RestIs(ts: BoundCoeffs, x: string)
    requires ts != []
    ensures Rest(ts, x) == ", " + (Join(TermTexts(ts)) + "]" + x)
  {
    Regroup(", ", Join(TermTexts(ts)), "]", x, "");
  }

  lemma FirstOfList(ts: BoundCoeffs, x: string)
    ensures (Join(TermTexts(ts)) + "]" + x)[0] == if ts == [] then ']' else OPEN
  {
    if ts != [] {
      ListStep(ts, x);
    }
  }

  // ----- Reading the text back by position -----

  datatype Read<T> = Read(value: T, rest: string)

  /** How many digits the text begins with. */
  function DigitRun(s: string): (n: nat)
    ensures n <= |s|
  {
    if s != "" && IsDigit(s[0]) then 1 + DigitRun(s[1..]) else 0
  }

  lemma {:induction false} DigitRunAll(s: string)
    ensures AllDigits(s[..DigitRun(s)])
  {
    if s != "" && IsDigit(s[0]) {
      DigitRunAll(s[1..]);
      forall i | 0 <= i < DigitRun(s) ensures IsDigit(s[..DigitRun(s)][i]) {
        assert i > 0 ==> s[i] == s[1..][..DigitRun(s[1..])][i - 1];
      }
    }
  }

  function ReadNat(s: string): (r: Read<nat>)
    ensures |r.rest| <= |s|
  {
    DigitRunAll(s);
    Read(ValueOf(s[..DigitRun(s)]), s[DigitRun(s)..])
  }

  function Expect(mark: string, s: string): (rest: Option<string>)
    ensures rest.Some? ==> |rest.value| + |mark| == |s|
  {
    if |mark| <= |s| && s[..|mark|] == mark then Some(s[|mark|..]) else None
  }

  /** Items with ", " between them, up to the closing mark. */
  function ReadList<T>(item: string -> Option<Read<T>>, close: string, most: nat, s: string): Option<Read<seq<T>>> {
    if most == 0 then None
    else
      match item(s)
      case None => None
      case Some(first) =>
        if Expect(close, first.rest).Some? then Some(Read([first.value], Expect(close, first.rest).value))
        else
          match Expect(", ", first.rest)
          case None => None
          case Some(more) =>
            match ReadList(item, close, most - 1, more)
            case None => None
            case Some(others) => Some(Read([first.value] + others.value, others.rest))
  }

  function ReadItem(s: string): Option<Read<nat>> {
    Some(ReadNat(s))
  }

  /** An anonymous constructor: its arguments are the fields of the structure in the order declared. */
  function ReadTerm(s: string): Option<Read<BoundTerm>> {
    match Expect([OPEN], s)
    case None => None
    case Some(inside) =>
      match ReadList(ReadItem, [CLOSE], 5, inside)
      case None => None
      case Some(args) =>
        var x := args.value;
        if |x| != 5 then None
        else
          Some(Read(BoundTerm(numerator := x[0], denominatorPred := x[1], workExponent := x[2],
                              signExponent := x[3], denominatorBits := x[4]), args.rest))
  }

  function ReadBound(s: string): Option<Read<BoundCoeffs>> {
    match Expect("[", s)
    case None => None
    case Some(inside) =>
      if Expect("]", inside).Some? then Some(Read([], Expect("]", inside).value))
      else ReadList(ReadTerm, "]", |inside|, inside)
  }

  lemma {:induction false} DigitRunIs(x: string, s: string)
    requires AllDigits(x) && (s != "" ==> !IsDigit(s[0]))
    ensures DigitRun(x + s) == |x|
  {
    if x == "" {
      assert x + s == s;
    } else {
      DigitRunIs(x[1..], s);
      assert (x + s)[1..] == x[1..] + s;
    }
  }

  lemma ReadNatOf(n: nat, s: string)
    requires s != "" ==> !IsDigit(s[0])
    ensures ReadNat(Decimal(n) + s) == Read(n, s)
  {
    DecimalReads(n);
    DigitRunIs(Decimal(n), s);
    assert (Decimal(n) + s)[..|Decimal(n)|] == Decimal(n);
  }

  lemma ExpectHead(mark: string, s: string)
    ensures Expect(mark, mark + s) == Some(s)
  {
    assert (mark + s)[..|mark|] == mark && (mark + s)[|mark|..] == s;
  }

  function Writer(): nat -> string {
    (n: nat) => Decimal(n)
  }

  function TermWriter(): BoundTerm -> string {
    t => TermText(t)
  }

  function Listed<T>(text: T -> string, xs: seq<T>, tail: string): string
    requires xs != []
  {
    text(xs[0]) + if |xs| == 1 then tail else ", " + Listed(text, xs[1..], tail)
  }

  /** The reader undoes the writer before a separator and before the closing mark. */
  ghost predicate Undoes<T(!new)>(item: string -> Option<Read<T>>, text: T -> string, close: string)
    requires close != ""
  {
    forall t: T, rest: string {:trigger item(text(t) + rest)} ::
      rest != "" && (rest[0] == ',' || rest[0] == close[0]) ==> item(text(t) + rest) == Some(Read(t, rest))
  }

  lemma {:induction false} ReadListOf<T(!new)>(item: string -> Option<Read<T>>, text: T -> string, close: string,
                                         most: nat, xs: seq<T>, x: string)
    requires close != "" && close[0] != ',' && Undoes(item, text, close)
    requires 0 < |xs| <= most
    ensures ReadList(item, close, most, Listed(text, xs, close + x)) == Some(Read(xs, x))
    decreases |xs|
  {
    if |xs| == 1 {
      assert item(text(xs[0]) + (close + x)) == Some(Read(xs[0], close + x));
      ExpectHead(close, x);
      assert xs == [xs[0]];
    } else {
      var more := Listed(text, xs[1..], close + x);
      assert item(text(xs[0]) + (", " + more)) == Some(Read(xs[0], ", " + more));
      NotYet(close, more);
      ExpectHead(", ", more);
      ReadListOf(item, text, close, most - 1, xs[1..], x);
      assert xs == [xs[0]] + xs[1..];
    }
  }

  lemma NotYet(close: string, more: string)
    requires close != "" && close[0] != ','
    ensures Expect(close, ", " + more).None?
  {
    var s := ", " + more;
    assert s[0] == ',';
    if |close| <= |s| {
      assert s[..|close|][0] == ',';
    }
  }

  lemma {:induction false} ListedLength<T>(text: T -> string, xs: seq<T>, tail: string)
    requires xs != [] && tail != ""
    ensures |Listed(text, xs, tail)| >= |xs|
  {
    if |xs| > 1 {
      ListedLength(text, xs[1..], tail);
    }
  }

  lemma {:induction false} DecimalsListed(ns: seq<nat>, s: string)
    requires ns != []
    ensures Join(Decimals(ns)) + s == Listed(Writer(), ns, s)
  {
    if |ns| == 1 {
      assert Decimals(ns) == [Decimal(ns[0])];
    } else {
      JoinStep(ns, s);
      DecimalsListed(ns[1..], s);
    }
  }

  lemma {:induction false} TermsListed(ts: BoundCoeffs, x: string)
    requires ts != []
    ensures Join(TermTexts(ts)) + "]" + x == Listed(TermWriter(), ts, "]" + x)
  {
    ListStep(ts, x);
    if |ts| > 1 {
      RestIs(ts[1..], x);
      TermsListed(ts[1..], x);
    }
  }

  lemma ReadTermOf(t: BoundTerm, x: string)
    ensures ReadTerm(TermText(t) + x) == Some(Read(t, x))
  {
    var inside := Join(Decimals(Fields(t))) + ([CLOSE] + x);
    assert TermText(t) + x == [OPEN] + inside;
    ExpectHead([OPEN], inside);
    forall n: nat, rest: string | rest != "" && (rest[0] == ',' || rest[0] == [CLOSE][0])
      ensures ReadItem(Writer()(n) + rest) == Some(Read(n, rest))
    {
      ReadNatOf(n, rest);
    }
    DecimalsListed(Fields(t), [CLOSE] + x);
    ReadListOf(ReadItem, Writer(), [CLOSE], 5, Fields(t), x);
  }

  /** Read by position, the rendered bound is the list of terms it was made from. */
  lemma BoundReadsBack(ts: BoundCoeffs, x: string)
    ensures ReadBound(LeanBound(ts) + x) == Some(Read(ts, x))
  {
    var inside := Join(TermTexts(ts)) + "]" + x;
    assert LeanBound(ts) + x == "[" + inside;
    ExpectHead("[", inside);
    if ts == [] {
      assert inside == "]" + x;
      ExpectHead("]", x);
    } else {
      FirstOfList(ts, x);
      forall t: BoundTerm, rest: string ensures ReadTerm(TermWriter()(t) + rest) == Some(Read(t, rest)) {
        ReadTermOf(t, rest);
      }
      TermsListed(ts, x);
      ListedLength(TermWriter(), ts, "]" + x);
      ReadListOf(ReadTerm, TermWriter(), "]", |inside|, ts, x);
    }
  }

  /** The template states sigma, then hverify, then the encoded terms. */
  lemma RenderReadsBack(head: string, tail: string, sigma: nat, hverify: nat, ts: seq<Term>)
    requires Positive(ts)
    ensures var whole := Render(head, tail, sigma, hverify, ts);
            && Expect(head, whole).Some?
            && var first := ReadNat(Expect(head, whole).value);
               && first.value == sigma && Expect(" ", first.rest).Some?
               && var second := ReadNat(Expect(" ", first.rest).value);
                  && second.value == hverify && Expect(" ", second.rest).Some?
                  && ReadBound(Expect(" ", second.rest).value) == Some(Read(EncodeAll(ts), tail))
  {
    var bound := LeanBound(EncodeAll(ts)) + tail;
    RenderIs(head, tail, sigma, hverify, ts);
    ExpectHead(head, Decimal(sigma) + (" " + (Decimal(hverify) + (" " + bound))));
    ReadNatOf(sigma, " " + (Decimal(hverify) + (" " + bound)));
    ExpectHead(" ", Decimal(hverify) + (" " + bound));
    ReadNatOf(hverify, " " + bound);
    ExpectHead(" ", bound);
    BoundReadsBack(EncodeAll(ts), tail);
  }

  lemma {:induction false} EncodeInjective(ts: seq<Term>, us: seq<Term>)
    requires Positive(ts) && Positive(us) && EncodeAll(ts) == EncodeAll(us)
    ensures ts == us
  {
    if ts != [] && us != [] {
      assert Encode(ts[0]) == EncodeAll(ts)[0] == EncodeAll(us)[0] == Encode(us[0]);
      assert EncodeAll(ts)[1..] == EncodeAll(ts[1..]) && EncodeAll(us)[1..] == EncodeAll(us[1..]);
      EncodeInjective(ts[1..], us[1..]);
      assert ts == [ts[0]] + ts[1..] && us == [us[0]] + us[1..];
    }
  }

  /** Two declarations render alike only if they declare the same metrics and the same terms. */
  lemma RenderInjective(head: string, tail: string, sigma: nat, hverify: nat, ts: seq<Term>,
                        sigma': nat, hverify': nat, us: seq<Term>)
    requires Positive(ts) && Positive(us)
    requires Render(head, tail, sigma, hverify, ts) == Render(head, tail, sigma', hverify', us)
    ensures sigma == sigma' && hverify == hverify' && ts == us
  {
    var b, c := LeanBound(EncodeAll(ts)), LeanBound(EncodeAll(us));
    RenderIs(head, tail, sigma, hverify, ts);
    RenderIs(head, tail, sigma', hverify', us);
    MetricsEnd(head, sigma, hverify, b + tail, sigma', hverify', c + tail);
    BoundEnds(EncodeAll(ts), EncodeAll(us), tail, tail);
    EncodeInjective(ts, us);
  }

  lemma RenderIs(head: string, tail: string, sigma: nat, hverify: nat, ts: seq<Term>)
    requires Positive(ts)
    ensures Render(head, tail, sigma, hverify, ts) ==
            head + (Decimal(sigma) + (" " + (Decimal(hverify) + (" " + (LeanBound(EncodeAll(ts)) + tail)))))
  {
    Nest(head, Decimal(sigma), Decimal(hverify), LeanBound(EncodeAll(ts)), tail);
  }

  lemma Nest(a: string, b: string, c: string, d: string, e: string)
    ensures a + b + " " + c + " " + d + e == a + (b + (" " + (c + (" " + (d + e)))))
  {
  }

  lemma MetricsEnd(head: string, m: nat, n: nat, b: string, m': nat, n': nat, c: string)
    requires head + (Decimal(m) + (" " + (Decimal(n) + (" " + b)))) ==
             head + (Decimal(m') + (" " + (Decimal(n') + (" " + c))))
    ensures m == m' && n == n' && b == c
  {
    var x, y := Decimal(n) + (" " + b), Decimal(n') + (" " + c);
    CancelHead(head, Decimal(m) + (" " + x), Decimal(m') + (" " + y));
    DecimalEnds(m, m', " " + x, " " + y);
    CancelHead(" ", x, y);
    DecimalEnds(n, n', " " + b, " " + c);
    CancelHead(" ", b, c);
  }
}
