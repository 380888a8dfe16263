/**
 Truncated bivariate counting polynomials, and what their coefficients count.

 A polynomial maps an exponent (hash cost, disclosed values) to the number of ways one
 component of a graph can be disclosed at that exponent.  A word picks one way per component;
 `Count` is the cardinality of the set of words with a given total, a definition that mentions
 neither multiplication nor truncation.
 */
module Counting {
  import opened FiniteSums

  datatype Exponent = Exponent(cost: nat, values: nat)

  type Poly = map<Exponent, nat>

  /** One way to disclose a component: an exponent, and which of its `count` copies. */
  datatype Choice = Choice(at: Exponent, copy: nat)

  const ZERO := Exponent(0, 0)

  function Plus(a: Exponent, b: Exponent): Exponent {
    Exponent(a.cost + b.cost, a.values + b.values)
  }

  predicate Below(a: Exponent, b: Exponent) {
    a.cost <= b.cost && a.values <= b.values
  }

  function Minus(a: Exponent, b: Exponent): Exponent
    requires Below(b, a)
  {
    Exponent(a.cost - b.cost, a.values - b.values)
  }

  predicate InCaps(e: Exponent, maxCost: int, maxValues: int) {
    e.cost <= maxCost && e.values <= maxValues
  }

  function Coeff(p: Poly, e: Exponent): nat {
    if e in p then p[e] else 0
  }

  // ----- Words and their number -----

  function Cost(w: seq<Choice>): nat {
    if w == [] then 0 else w[0].at.cost + Cost(w[1..])
  }

  function Values(w: seq<Choice>): nat {
    if w == [] then 0 else w[0].at.values + Values(w[1..])
  }

  function Total(w: seq<Choice>): Exponent {
    Exponent(Cost(w), Values(w))
  }

  ghost predicate IsChoice(p: Poly, c: Choice) {
    c.at in p && c.copy < p[c.at]
  }

  ghost predicate IsWord(ps: seq<Poly>, w: seq<Choice>) {
    && |w| == |ps|
    && forall i :: 0 <= i < |w| ==> IsChoice(ps[i], w[i])
  }

  ghost function Choices(p: Poly): set<Choice> {
    set x, k | x in p && 0 <= k < p[x] :: Choice(x, k)
  }

  ghost function Words(ps: seq<Poly>): set<seq<Choice>> {
    if ps == [] then {[]} else set c, w | c in Choices(ps[0]) && w in Words(ps[1..]) :: [c] + w
  }

  lemma ChoicesAre(p: Poly, c: Choice)
    ensures c in Choices(p) <==> IsChoice(p, c)
  {
  }

  lemma IsWordCons(ps: seq<Poly>, w: seq<Choice>)
    requires ps != [] && w != []
    ensures IsWord(ps, w) <==> IsChoice(ps[0], w[0]) && IsWord(ps[1..], w[1..])
  {
    var qs, v := ps[1..], w[1..];
    if IsWord(ps, w) {
      forall i | 0 <= i < |v| ensures IsChoice(qs[i], v[i]) {
        assert IsChoice(ps[i + 1], w[i + 1]);
      }
    }
    if IsChoice(ps[0], w[0]) && IsWord(qs, v) {
      forall i | 0 <= i < |w| ensures IsChoice(ps[i], w[i]) {
        assert i > 0 ==> IsChoice(qs[i - 1], v[i - 1]);
      }
    }
  }

  lemma {:induction false} WordsAre(ps: seq<Poly>, w: seq<Choice>)
    ensures w in Words(ps) <==> IsWord(ps, w)
  {
    if ps != [] && w != [] {
      var c, v := w[0], w[1..];
      assert w == [c] + v;
      ChoicesAre(ps[0], c);
      WordsAre(ps[1..], v);
      IsWordCons(ps, w);
      if w in Words(ps) {
        var c', v' :| c' in Choices(ps[0]) && v' in Words(ps[1..]) && w == [c'] + v';
        assert v == v';
      }
    }
  }

  ghost function WordsAt(ps: seq<Poly>, e: Exponent): set<seq<Choice>> {
    set w | w in Words(ps) && Total(w) == e
  }

  /** The number of choice words, one choice per polynomial, whose exponents add up to `e`. */
  ghost function Count(ps: seq<Poly>, e: Exponent): nat {
    |WordsAt(ps, e)|
  }

  lemma {:induction false} TotalConcat(u: seq<Choice>, v: seq<Choice>)
    ensures Cost(u + v) == Cost(u) + Cost(v) && Values(u + v) == Values(u) + Values(v)
  {
    if u == [] {
      assert u + v == v;
    } else {
      TotalConcat(u[1..], v);
      assert (u + v)[1..] == u[1..] + v;
    }
  }

  // ----- The convolution theorem -----

  lemma WordsAtAre(ps: seq<Poly>, e: Exponent, w: seq<Choice>)
    ensures w in WordsAt(ps, e) <==> IsWord(ps, w) && Total(w) == e
  {
    WordsAre(ps, w);
  }

  lemma IsWordConcat(ps: seq<Poly>, qs: seq<Poly>, u: seq<Choice>, v: seq<Choice>)
    requires |u| == |ps|
    ensures IsWord(ps + qs, u + v) <==> IsWord(ps, u) && IsWord(qs, v)
  {
    var rs, w := ps + qs, u + v;
    if IsWord(rs, w) {
      forall i | 0 <= i < |u| ensures IsChoice(ps[i], u[i]) {
        assert IsChoice(rs[i], w[i]);
      }
      forall i | 0 <= i < |v| ensures IsChoice(qs[i], v[i]) {
        assert IsChoice(rs[|ps| + i], w[|ps| + i]);
      }
    }
    if IsWord(ps, u) && IsWord(qs, v) {
      forall i | 0 <= i < |w| ensures IsChoice(rs[i], w[i]) {
        if i < |u| {
          assert IsChoice(ps[i], u[i]);
        } else {
          assert IsChoice(qs[i - |u|], v[i - |u|]);
        }
      }
    }
  }

  ghost function Appended(us: set<seq<Choice>>, v: seq<Choice>): set<seq<Choice>> {
    set u | u in us :: u + v
  }

  ghost function Concats(us: set<seq<Choice>>, vs: set<seq<Choice>>): set<seq<Choice>> {
    set u, v | u in us && v in vs :: u + v
  }

  lemma {:induction false} AppendedSize(us: set<seq<Choice>>, v: seq<Choice>)
    ensures |Appended(us, v)| == |us|
  {
    if us != {} {
      var u :| u in us;
      AppendedSize(us - {u}, v);
      var rest := Appended(us - {u}, v);
      assert Appended(us, v) == rest + {u + v};
      assert u + v !in rest by {
        assert forall u': seq<Choice> :: u' + v == u + v ==> u' == (u' + v)[..|u + v| - |v|] == u;
      }
    }
  }

  lemma SuffixesDiffer(us: set<seq<Choice>>, vs: set<seq<Choice>>, v: seq<Choice>, n: nat)
    requires forall u :: u in us ==> |u| == n
    requires v !in vs
    ensures Concats(us, vs) !! Appended(us, v)
  {
    forall w | w in Concats(us, vs) ensures w !in Appended(us, v) {
      var u, v' :| u in us && v' in vs && w == u + v';
      assert w[n..] == v';
      assert forall u' :: u' in us ==> (u' + v)[n..] == v;
    }
  }

  lemma {:induction false} ConcatsSize(us: set<seq<Choice>>, vs: set<seq<Choice>>, n: nat)
    requires forall u :: u in us ==> |u| == n
    ensures |Concats(us, vs)| == Times(|us|, |vs|)
    decreases vs
  {
    if vs == {} {
      assert Concats(us, vs) == {};
    } else {
      var v :| v in vs;
      ConcatsSize(us, vs - {v}, n);
      ConcatsRemove(us, vs, v, n);
      assert |vs| == |vs - {v}| + 1;
      TimesSum(|us|, |vs - {v}|, 1);
    }
  }

  lemma ConcatsRemove(us: set<seq<Choice>>, vs: set<seq<Choice>>, v: seq<Choice>, n: nat)
    requires forall u :: u in us ==> |u| == n
    requires v in vs
    ensures |Concats(us, vs)| == |Concats(us, vs - {v})| + |us|
  {
    AppendedSize(us, v);
    SuffixesDiffer(us, vs - {v}, v, n);
    assert Concats(us, vs) == Concats(us, vs - {v}) + Appended(us, v);
    DisjointSize(Concats(us, vs - {v}), Appended(us, v));
  }

  ghost function Box(e: Exponent): set<Exponent> {
    set c, f | 0 <= c <= e.cost && 0 <= f <= e.values :: Exponent(c, f)
  }

  lemma InBox(e: Exponent, x: Exponent)
    ensures x in Box(e) <==> Below(x, e)
  {
    assert x == Exponent(x.cost, x.values);
  }

  ghost function SplitCount(ps: seq<Poly>, qs: seq<Poly>, e: Exponent, x: Exponent): nat {
    if Below(x, e) then Times(Count(ps, x), Count(qs, Minus(e, x))) else 0
  }

  ghost function SplitTerm(ps: seq<Poly>, qs: seq<Poly>, e: Exponent): Exponent -> nat {
    x => SplitCount(ps, qs, e, x)
  }

  /** The words whose first `n` choices total an element of `d`. */
  ghost function StartingIn(ws: set<seq<Choice>>, n: nat, d: set<Exponent>): set<seq<Choice>> {
    set w | w in ws && n <= |w| && Total(w[..n]) in d
  }

  lemma StartingInOne(ps: seq<Poly>, qs: seq<Poly>, e: Exponent, x: Exponent)
    requires Below(x, e)
    ensures StartingIn(WordsAt(ps + qs, e), |ps|, {x}) == Concats(WordsAt(ps, x), WordsAt(qs, Minus(e, x)))
  {
    var left := StartingIn(WordsAt(ps + qs, e), |ps|, {x});
    var right := Concats(WordsAt(ps, x), WordsAt(qs, Minus(e, x)));
    forall w | w in left ensures w in right {
      SplitOne(ps, qs, e, x, w);
      assert w == w[..|ps|] + w[|ps|..];
    }
    forall w | w in right ensures w in left {
      var u, v :| u in WordsAt(ps, x) && v in WordsAt(qs, Minus(e, x)) && w == u + v;
      JoinOne(ps, qs, e, x, u, v);
    }
  }

  lemma SplitOne(ps: seq<Poly>, qs: seq<Poly>, e: Exponent, x: Exponent, w: seq<Choice>)
    requires Below(x, e) && |ps| <= |w| && Total(w[..|ps|]) == x
    requires w in WordsAt(ps + qs, e)
    ensures w[..|ps|] in WordsAt(ps, x) && w[|ps|..] in WordsAt(qs, Minus(e, x))
  {
    var u, v := w[..|ps|], w[|ps|..];
    assert w == u + v;
    TotalConcat(u, v);
    WordsAtAre(ps + qs, e, w);
    IsWordConcat(ps, qs, u, v);
    WordsAtAre(ps, x, u);
    WordsAtAre(qs, Minus(e, x), v);
  }

  lemma JoinOne(ps: seq<Poly>, qs: seq<Poly>, e: Exponent, x: Exponent, u: seq<Choice>, v: seq<Choice>)
    requires Below(x, e)
    requires u in WordsAt(ps, x) && v in WordsAt(qs, Minus(e, x))
    ensures u + v in WordsAt(ps + qs, e) && |ps| <= |u + v| && Total((u + v)[..|ps|]) == x
  {
    TotalConcat(u, v);
    WordsAtAre(ps, x, u);
    WordsAtAre(qs, Minus(e, x), v);
    IsWordConcat(ps, qs, u, v);
    WordsAtAre(ps + qs, e, u + v);
    assert (u + v)[..|ps|] == u;
  }

  lemma StartingInSize(ps: seq<Poly>, qs: seq<Poly>, e: Exponent, x: Exponent)
    requires Below(x, e)
    ensures |StartingIn(WordsAt(ps + qs, e), |ps|, {x})| == SplitCount(ps, qs, e, x)
  {
    StartingInOne(ps, qs, e, x);
    forall u | u in WordsAt(ps, x) ensures |u| == |ps| {
      WordsAtAre(ps, x, u);
    }
    ConcatsSize(WordsAt(ps, x), WordsAt(qs, Minus(e, x)), |ps|);
  }

  lemma StartingInRemove(ws: set<seq<Choice>>, n: nat, d: set<Exponent>, x: Exponent)
    requires x in d
    ensures |StartingIn(ws, n, d)| == |StartingIn(ws, n, d - {x})| + |StartingIn(ws, n, {x})|
  {
    assert StartingIn(ws, n, d) == StartingIn(ws, n, d - {x}) + StartingIn(ws, n, {x});
    DisjointSize(StartingIn(ws, n, d - {x}), StartingIn(ws, n, {x}));
  }

  lemma {:induction false} StartingInSum(ps: seq<Poly>, qs: seq<Poly>, e: Exponent, d: set<Exponent>)
    requires forall x :: x in d ==> Below(x, e)
    ensures |StartingIn(WordsAt(ps + qs, e), |ps|, d)| == SumOver(d, SplitTerm(ps, qs, e))
    decreases d
  {
    if d == {} {
      assert StartingIn(WordsAt(ps + qs, e), |ps|, d) == {};
    } else {
      var x :| x in d;
      StartingInSum(ps, qs, e, d - {x});
      SumRemove(d, SplitTerm(ps, qs, e), x);
      StartingInSize(ps, qs, e, x);
      StartingInRemove(WordsAt(ps + qs, e), |ps|, d, x);
    }
  }

  /** Counting words of a concatenation is the Cauchy product of the two counts. */
  lemma CountConcat(ps: seq<Poly>, qs: seq<Poly>, e: Exponent)
    ensures Count(ps + qs, e) == SumOver(Box(e), SplitTerm(ps, qs, e))
  {
    forall x | x in Box(e) ensures Below(x, e) {
      InBox(e, x);
    }
    StartingInSum(ps, qs, e, Box(e));
    forall w | w in WordsAt(ps + qs, e) ensures |ps| <= |w| && Total(w[..|ps|]) in Box(e) {
      WordsAtAre(ps + qs, e, w);
      assert w == w[..|ps|] + w[|ps|..];
      TotalConcat(w[..|ps|], w[|ps|..]);
      InBox(e, Total(w[..|ps|]));
    }
    assert StartingIn(WordsAt(ps + qs, e), |ps|, Box(e)) == WordsAt(ps + qs, e);
  }

  ghost function Copies(x: Exponent, n: nat): set<seq<Choice>> {
    set k | 0 <= k < n :: [Choice(x, k)]
  }

  lemma {:induction false} CopiesSize(x: Exponent, n: nat)
    ensures |Copies(x, n)| == n
  {
    if n > 0 {
      CopiesSize(x, n - 1);
      assert Copies(x, n) == Copies(x, n - 1) + {[Choice(x, n - 1)]};
    }
  }

  lemma CountOne(p: Poly, e: Exponent)
    ensures Count([p], e) == Coeff(p, e)
  {
    var n := Coeff(p, e);
    CopiesSize(e, n);
    forall w: seq<Choice> ensures w in WordsAt([p], e) <==> w in Copies(e, n) {
      WordsAtAre([p], e, w);
      if |w| == 1 {
        var c := w[0];
        assert w == [c] && w[1..] == [];
        assert Cost(w[1..]) == 0 && Values(w[1..]) == 0;
        assert Total(w) == c.at;
        assert IsWord([p], w) <==> IsChoice(p, c);
        assert c == Choice(c.at, c.copy);
      }
    }
    assert WordsAt([p], e) == Copies(e, n);
  }

  lemma CountNone(e: Exponent)
    ensures Count([], e) == if e == ZERO then 1 else 0
  {
    assert WordsAt([], e) == if e == ZERO then {[]} else {};
  }

  // ----- The dictionary loops -----

  /** A dictionary holds, within the caps, exactly the word counts of `ps`, and nothing outside. */
  ghost predicate Represents(m: Poly, ps: seq<Poly>, maxCost: int, maxValues: int) {
    forall e :: Coeff(m, e) == if InCaps(e, maxCost, maxValues) then Count(ps, e) else 0
  }

  ghost function RowTerm(x: Exponent, count: nat, right: Poly, ys: set<Exponent>, e: Exponent): nat {
    if Below(x, e) && Minus(e, x) in ys && Minus(e, x) in right then Times(count, right[Minus(e, x)]) else 0
  }

  ghost predicate RowHas(x: Exponent, ys: set<Exponent>, e: Exponent) {
    Below(x, e) && Minus(e, x) in ys
  }

  ghost function ProductTerm(left: Poly, right: Poly, e: Exponent): Exponent -> nat {
    x => RowTerm(x, Coeff(left, x), right, right.Keys, e)
  }

  /** The coefficient of `e` in the product, over the left exponents in `xs`. */
  ghost function Product(left: Poly, right: Poly, xs: set<Exponent>, e: Exponent): nat {
    SumOver(xs, ProductTerm(left, right, e))
  }

  ghost predicate ProductHas(right: Poly, xs: set<Exponent>, e: Exponent) {
    exists x :: x in xs && RowHas(x, right.Keys, e)
  }

  lemma RowStep(x: Exponent, count: nat, right: Poly, ys: set<Exponent>, y: Exponent, e: Exponent)
    requires y in right && y !in ys
    ensures RowTerm(x, count, right, ys + {y}, e) ==
            RowTerm(x, count, right, ys, e) + if e == Plus(x, y) then Times(count, right[y]) else 0
    ensures RowHas(x, ys + {y}, e) <==> RowHas(x, ys, e) || e == Plus(x, y)
  {
    if Below(x, e) {
      assert Minus(e, x) == y <==> e == Plus(x, y);
    }
  }

  lemma ProductStep(left: Poly, right: Poly, xs: set<Exponent>, x: Exponent, e: Exponent)
    requires x !in xs
    ensures Product(left, right, xs + {x}, e) ==
            Product(left, right, xs, e) + RowTerm(x, Coeff(left, x), right, right.Keys, e)
    ensures ProductHas(right, xs + {x}, e) <==> ProductHas(right, xs, e) || RowHas(x, right.Keys, e)
  {
    SumAdd(xs, ProductTerm(left, right, e), x);
  }

  /** The inner loop: add the products of one left term with every right term. */
  method MultiplyRow(x: Exponent, count: nat, right: Poly, maxCost: int, maxValues: int, before: Poly)
    returns (result: Poly)
    ensures forall e :: Coeff(result, e) == Coeff(before, e) +
                        if InCaps(e, maxCost, maxValues) then RowTerm(x, count, right, right.Keys, e) else 0
    ensures forall e :: e in result <==>
                        (e in before || (InCaps(e, maxCost, maxValues) && RowHas(x, right.Keys, e)))
  {
    result := before;
    var others := right.Keys;
    while others != {}
      invariant others <= right.Keys
      invariant forall e :: Coeff(result, e) == Coeff(before, e) +
                            if InCaps(e, maxCost, maxValues)
                            then RowTerm(x, count, right, right.Keys - others, e) else 0
      invariant forall e :: e in result <==>
                            (e in before || (InCaps(e, maxCost, maxValues) && RowHas(x, right.Keys - others, e)))
      decreases |others|
    {
      var y :| y in others;
      Visit(right.Keys, others, y);
      forall e {
        RowStep(x, count, right, right.Keys - others, y, e);
      }
      if InCaps(Plus(x, y), maxCost, maxValues) {
        result := result[Plus(x, y) := Coeff(result, Plus(x, y)) + Times(count, right[y])];
      }
      others := others - {y};
    }
    assert right.Keys - others == right.Keys;
  }

  /** The coefficients of the product, cut off at the caps. */
  ghost predicate IsProduct(m: Poly, left: Poly, right: Poly, maxCost: int, maxValues: int) {
    forall e :: Coeff(m, e) == if InCaps(e, maxCost, maxValues) then Product(left, right, left.Keys, e) else 0
  }

  method Multiply(left: Poly, right: Poly, maxCost: int, maxValues: int) returns (result: Poly)
    ensures IsProduct(result, left, right, maxCost, maxValues)
    ensures forall e :: e in result <==> (InCaps(e, maxCost, maxValues) && ProductHas(right, left.Keys, e))
  {
    result := map[];
    var todo := left.Keys;
    ghost var done: set<Exponent> := {};
    while todo != {}
      invariant done + todo == left.Keys && done !! todo
      invariant forall e :: Coeff(result, e) ==
                            if InCaps(e, maxCost, maxValues) then Product(left, right, done, e) else 0
      invariant forall e :: e in result <==> (InCaps(e, maxCost, maxValues) && ProductHas(right, done, e))
      decreases |todo|
    {
      var x :| x in todo;
      result := MultiplyRow(x, left[x], right, maxCost, maxValues, result);
      forall e {
        ProductStep(left, right, done, x, e);
      }
      done := done + {x};
      todo := todo - {x};
    }
    assert done == left.Keys;
  }

  // ----- Truncated products and powers count words -----

  /** Within the caps the coefficients of `m` are the word counts of `ps`. */
  ghost predicate Agrees(m: Poly, ps: seq<Poly>, maxCost: int, maxValues: int) {
    forall e :: InCaps(e, maxCost, maxValues) ==> Coeff(m, e) == Count(ps, e)
  }

  lemma ProductTermIs(left: Poly, right: Poly, e: Exponent, x: Exponent)
    requires Below(x, e)
    ensures ProductTerm(left, right, e)(x) == Times(Coeff(left, x), Coeff(right, Minus(e, x)))
  {
  }

  /** Everything a coefficient within the caps depends on lies within the caps. */
  lemma ProductCounts(left: Poly, right: Poly, ps: seq<Poly>, qs: seq<Poly>, maxCost: int, maxValues: int, e: Exponent)
    requires Agrees(left, ps, maxCost, maxValues) && Agrees(right, qs, maxCost, maxValues)
    requires InCaps(e, maxCost, maxValues)
    ensures Product(left, right, left.Keys, e) == Count(ps + qs, e)
  {
    var f := ProductTerm(left, right, e);
    var both := left.Keys + Box(e);
    forall x ensures x in both - left.Keys ==> f(x) == 0
             ensures x in both - Box(e) ==> f(x) == 0
             ensures x in Box(e) ==> f(x) == SplitTerm(ps, qs, e)(x)
    {
      InBox(e, x);
      if Below(x, e) {
        ProductTermIs(left, right, e, x);
      }
    }
    SumSupport(left.Keys, both, f);
    SumSupport(Box(e), both, f);
    SumCongruent(Box(e), f, SplitTerm(ps, qs, e));
    CountConcat(ps, qs, e);
  }

  /** The product of two truncated dictionaries, itself truncated, counts the joined words. */
  lemma ProductRepresents(m: Poly, left: Poly, right: Poly, ps: seq<Poly>, qs: seq<Poly>, maxCost: int, maxValues: int)
    requires IsProduct(m, left, right, maxCost, maxValues)
    requires Agrees(left, ps, maxCost, maxValues) && Agrees(right, qs, maxCost, maxValues)
    ensures Represents(m, ps + qs, maxCost, maxValues)
  {
    forall e | InCaps(e, maxCost, maxValues) ensures Coeff(m, e) == Count(ps + qs, e) {
      ProductCounts(left, right, ps, qs, maxCost, maxValues, e);
    }
  }

  ghost function Repeat(p: Poly, n: nat): seq<Poly> {
    seq(n, _ => p)
  }

  lemma OneAgrees(p: Poly, maxCost: int, maxValues: int)
    ensures Agrees(p, [p], maxCost, maxValues)
  {
    forall e ensures Coeff(p, e) == Count([p], e) {
      CountOne(p, e);
    }
  }

  lemma UnitAgrees(maxCost: int, maxValues: int)
    ensures Agrees(map[ZERO := 1], [], maxCost, maxValues)
    ensures InCaps(ZERO, maxCost, maxValues) ==> Represents(map[ZERO := 1], [], maxCost, maxValues)
  {
    forall e ensures Coeff(map[ZERO := 1], e) == Count([], e) {
      CountNone(e);
    }
    assert forall e :: InCaps(e, maxCost, maxValues) ==> InCaps(ZERO, maxCost, maxValues);
  }

  /**
   Truncating after every multiplication loses nothing: within the caps each coefficient is the
   number of length-`exponent` choice words with that total, and outside there is nothing.  The one
   exception is the empty power under a negative cap, whose single word the code keeps.
   */
  method Power(poly: Poly, exponent: nat, maxCost: int, maxValues: int) returns (result: Poly)
    ensures Represents(result, Repeat(poly, exponent), maxCost, maxValues) <==>
            exponent > 0 || InCaps(ZERO, maxCost, maxValues)
    ensures Agrees(result, Repeat(poly, exponent), maxCost, maxValues)
  {
    result := map[ZERO := 1];
    UnitAgrees(maxCost, maxValues);
    OneAgrees(poly, maxCost, maxValues);
    for i := 0 to exponent
      invariant i == 0 ==> result == map[ZERO := 1]
      invariant i > 0 ==> Represents(result, Repeat(poly, i), maxCost, maxValues)
      invariant Agrees(result, Repeat(poly, i), maxCost, maxValues)
    {
      var next := Multiply(result, poly, maxCost, maxValues);
      ProductRepresents(next, result, poly, Repeat(poly, i), [poly], maxCost, maxValues);
      result := next;
      assert Repeat(poly, i) + [poly] == Repeat(poly, i + 1);
    }
    if exponent == 0 {
      assert Repeat(poly, 0) == [];
      assert Coeff(result, ZERO) == 1;
    }
  }

  // ----- Bounds on the exponents of words -----

  ghost predicate WordsWithin(ps: seq<Poly>, cost: nat, low: nat, high: nat) {
    forall w :: IsWord(ps, w) ==> Cost(w) <= cost && low <= Values(w) <= high
  }

  ghost predicate ExponentsWithin(p: Poly, cost: nat, low: nat, high: nat) {
    forall x :: x in p ==> x.cost <= cost && low <= x.values <= high
  }

  lemma WithinConcat(ps: seq<Poly>, qs: seq<Poly>, c: nat, f: nat, h: nat, d: nat, g: nat, k: nat)
    requires WordsWithin(ps, c, f, h) && WordsWithin(qs, d, g, k)
    ensures WordsWithin(ps + qs, c + d, f + g, h + k)
  {
    forall w | IsWord(ps + qs, w) ensures Cost(w) <= c + d && f + g <= Values(w) <= h + k {
      var u, v := w[..|ps|], w[|ps|..];
      assert w == u + v;
      IsWordConcat(ps, qs, u, v);
      TotalConcat(u, v);
    }
  }

  lemma WithinOne(p: Poly, c: nat, f: nat, h: nat)
    requires ExponentsWithin(p, c, f, h)
    ensures WordsWithin([p], c, f, h)
  {
    forall w | IsWord([p], w) ensures Cost(w) <= c && f <= Values(w) <= h {
      var x := w[0];
      assert IsChoice([p][0], x);
      assert w == [x] && w[1..] == [];
      assert Cost(w[1..]) == 0 && Values(w[1..]) == 0;
    }
  }

  /** An n-fold power never exceeds n times the bounds of its component. */
  lemma {:induction false} WithinRepeat(p: Poly, n: nat, c: nat, f: nat, h: nat)
    requires ExponentsWithin(p, c, f, h)
    ensures WordsWithin(Repeat(p, n), Times(n, c), Times(n, f), Times(n, h))
  {
    if n > 0 {
      WithinRepeat(p, n - 1, c, f, h);
      WithinOne(p, c, f, h);
      WithinConcat(Repeat(p, n - 1), [p], Times(n - 1, c), Times(n - 1, f), Times(n - 1, h), c, f, h);
      assert Repeat(p, n) == Repeat(p, n - 1) + [p];
      TimesSum(c, n - 1, 1);
      TimesSum(f, n - 1, 1);
      TimesSum(h, n - 1, 1);
    }
  }

  /** Beyond the bounds of its words nothing is counted, so caps at or above them drop nothing. */
  lemma CountBeyond(ps: seq<Poly>, c: nat, f: nat, h: nat, e: Exponent)
    requires WordsWithin(ps, c, f, h)
    requires c < e.cost || e.values < f || h < e.values
    ensures Count(ps, e) == 0
  {
    forall w ensures w !in WordsAt(ps, e) {
      WordsAtAre(ps, e, w);
    }
  }

  // ----- Words of one cost, cumulatively in the values disclosed -----

  ghost function Disclosures(ps: seq<Poly>, cost: nat, cap: int): set<seq<Choice>> {
    set w | w in Words(ps) && Cost(w) == cost && Values(w) <= cap
  }

  /** The number of choice words of exactly this cost that disclose at most `cap` values. */
  ghost function Eligible(ps: seq<Poly>, cost: nat, cap: int): nat {
    |Disclosures(ps, cost, cap)|
  }

  lemma EligibleNext(ps: seq<Poly>, cost: nat, cap: nat)
    ensures Eligible(ps, cost, cap) == Eligible(ps, cost, cap - 1) + Count(ps, Exponent(cost, cap))
  {
    var below, at := Disclosures(ps, cost, cap - 1), WordsAt(ps, Exponent(cost, cap));
    assert Disclosures(ps, cost, cap) == below + at;
    DisjointSize(below, at);
  }

  lemma EligibleMonotone(ps: seq<Poly>, cost: nat, low: int, high: int)
    requires low <= high
    ensures Eligible(ps, cost, low) <= Eligible(ps, cost, high)
  {
    SubsetSize(Disclosures(ps, cost, low), Disclosures(ps, cost, high));
  }

  lemma EligibleBeyond(ps: seq<Poly>, c: nat, f: nat, h: nat, cost: nat, cap: int)
    requires WordsWithin(ps, c, f, h)
    requires c < cost || cap < f
    ensures Eligible(ps, cost, cap) == 0
  {
    forall w ensures w !in Disclosures(ps, cost, cap) {
      WordsAre(ps, w);
    }
  }
}
