/**
 The size/verification frontier of a candidate list, and the objectives minimised over it.
 */
module Frontier {
  import opened Wrappers

  datatype Candidate = Candidate(reconstruction: nat, verification: nat, cap: nat, size: nat, eligible: nat)

  // ----- Python's stable sort on (size, verification) -----

  predicate Precedes(c: Candidate, d: Candidate) {
    c.size < d.size || (c.size == d.size && c.verification <= d.verification)
  }

  function Insert(c: Candidate, cs: seq<Candidate>): seq<Candidate> {
    if cs == [] || Precedes(c, cs[0]) then [c] + cs else [cs[0]] + Insert(c, cs[1..])
  }

  function Sorted(cs: seq<Candidate>): seq<Candidate> {
    if cs == [] then [] else Insert(cs[0], Sorted(cs[1..]))
  }

  ghost predicate InOrder(cs: seq<Candidate>) {
    forall i, j :: 0 <= i < j < |cs| ==> Precedes(cs[i], cs[j])
  }

  lemma {:induction false} InsertKeeps(c: Candidate, cs: seq<Candidate>)
    ensures multiset(Insert(c, cs)) == multiset(cs) + multiset{c}
  {
    if cs != [] && !Precedes(c, cs[0]) {
      InsertKeeps(c, cs[1..]);
      assert cs == [cs[0]] + cs[1..];
    }
  }

  lemma {:induction false} InsertOrders(c: Candidate, cs: seq<Candidate>)
    requires InOrder(cs)
    ensures InOrder(Insert(c, cs))
  {
    if cs != [] && !Precedes(c, cs[0]) {
      var rest := Insert(c, cs[1..]);
      InsertOrders(c, cs[1..]);
      InsertKeeps(c, cs[1..]);
      forall j | 0 <= j < |rest| ensures Precedes(cs[0], rest[j]) {
        assert rest[j] in multiset(rest);
        assert rest[j] == c || rest[j] in cs[1..];
      }
    }
  }

  lemma {:induction false} SortedOrders(cs: seq<Candidate>)
    ensures InOrder(Sorted(cs)) && multiset(Sorted(cs)) == multiset(cs)
  {
    if cs != [] {
      SortedOrders(cs[1..]);
      InsertOrders(cs[0], Sorted(cs[1..]));
      InsertKeeps(cs[0], Sorted(cs[1..]));
      assert cs == [cs[0]] + cs[1..];
    }
  }

  lemma SortedSame(cs: seq<Candidate>, c: Candidate)
    ensures c in Sorted(cs) <==> c in cs
  {
    SortedOrders(cs);
    assert c in Sorted(cs) <==> c in multiset(Sorted(cs));
  }

  // ----- The frontier -----

  predicate WeaklyDominates(c: Candidate, d: Candidate) {
    c.size <= d.size && c.verification <= d.verification
  }

  predicate SameMetrics(c: Candidate, d: Candidate) {
    c.size == d.size && c.verification == d.verification
  }

  ghost predicate Covers(fs: seq<Candidate>, c: Candidate) {
    exists f :: f in fs && WeaklyDominates(f, c)
  }

  ghost predicate Staircase(fs: seq<Candidate>) {
    forall i, j :: 0 <= i < j < |fs| ==> fs[i].size < fs[j].size && fs[i].verification > fs[j].verification
  }

  ghost predicate IsFrontier(cs: seq<Candidate>, fs: seq<Candidate>) {
    && (forall f :: f in fs ==> f in cs)
    && Staircase(fs)
    && (forall c :: c in cs ==> Covers(fs, c))
  }

  /** One pass over the sorted candidates, keeping each that beats the best verification so far. */
  method Pareto(candidates: seq<Candidate>) returns (result: seq<Candidate>)
    ensures IsFrontier(candidates, result)
  {
    result := [];
    var best := None;
    var sorted := Sorted(candidates);
    SortedOrders(candidates);
    for i := 0 to |sorted|
      invariant IsFrontier(sorted[..i], result)
      invariant best == if result == [] then None else Some(result[|result| - 1].verification)
    {
      var candidate := sorted[i];
      assert sorted[..i + 1] == sorted[..i] + [candidate];
      FrontierStep(sorted[..i], result, candidate);
      if best.None? || candidate.verification < best.value {
        result := result + [candidate];
        best := Some(candidate.verification);
      }
    }
    assert sorted[..|sorted|] == sorted;
    FrontierOfSorted(candidates, result);
  }

  lemma FrontierOfSorted(cs: seq<Candidate>, fs: seq<Candidate>)
    requires IsFrontier(Sorted(cs), fs)
    ensures IsFrontier(cs, fs)
  {
    forall c {
      SortedSame(cs, c);
    }
  }

  lemma FrontierStep(cs: seq<Candidate>, fs: seq<Candidate>, next: Candidate)
    requires IsFrontier(cs, fs)
    requires forall c :: c in cs ==> Precedes(c, next)
    ensures IsFrontier(cs + [next],
                       if fs == [] || next.verification < fs[|fs| - 1].verification then fs + [next] else fs)
  {
    if fs == [] || next.verification < fs[|fs| - 1].verification {
      StaircaseGrows(cs, fs, next);
      assert WeaklyDominates(next, next) && next in fs + [next];
      CoversPrefix(cs, fs, fs + [next]);
    } else {
      assert fs[|fs| - 1] in cs;
      assert WeaklyDominates(fs[|fs| - 1], next);
    }
  }

  lemma StaircaseGrows(cs: seq<Candidate>, fs: seq<Candidate>, next: Candidate)
    requires Staircase(fs) && forall f :: f in fs ==> f in cs
    requires forall c :: c in cs ==> Precedes(c, next)
    requires fs != [] ==> next.verification < fs[|fs| - 1].verification
    ensures Staircase(fs + [next])
  {
    forall i | 0 <= i < |fs| ensures fs[i].size < next.size && fs[i].verification > next.verification {
      assert fs[i] in cs && fs[|fs| - 1] in cs;
    }
  }

  lemma CoversPrefix(cs: seq<Candidate>, fs: seq<Candidate>, gs: seq<Candidate>)
    requires forall c :: c in cs ==> Covers(fs, c)
    requires forall f :: f in fs ==> f in gs
    ensures forall c :: c in cs ==> Covers(gs, c)
  {
    forall c | c in cs ensures Covers(gs, c) {
      var f :| f in fs && WeaklyDominates(f, c);
    }
  }

  /** No input dominates this one, except inputs with the very same metrics. */
  ghost predicate Undominated(cs: seq<Candidate>, c: Candidate) {
    forall d :: d in cs && WeaklyDominates(d, c) ==> SameMetrics(d, c)
  }

  ghost predicate Shown(fs: seq<Candidate>, c: Candidate) {
    exists f :: f in fs && SameMetrics(f, c)
  }

  lemma NoneCoversAnother(fs: seq<Candidate>, f: Candidate, g: Candidate)
    requires Staircase(fs) && f in fs && g in fs && WeaklyDominates(g, f)
    ensures f == g
  {
    var i :| 0 <= i < |fs| && fs[i] == f;
    var j :| 0 <= j < |fs| && fs[j] == g;
    assert i == j;
  }

  /** A frontier shows exactly the undominated metrics. */
  lemma FrontierExact(cs: seq<Candidate>, fs: seq<Candidate>, c: Candidate)
    requires IsFrontier(cs, fs) && c in cs
    ensures Shown(fs, c) <==> Undominated(cs, c)
  {
    if Undominated(cs, c) {
      assert Covers(fs, c);
    }
    if Shown(fs, c) {
      var f :| f in fs && SameMetrics(f, c);
      forall d | d in cs && WeaklyDominates(d, c) ensures SameMetrics(d, c) {
        assert Covers(fs, d);
        var g :| g in fs && WeaklyDominates(g, d);
        NoneCoversAnother(fs, f, g);
      }
    }
  }

  // ----- Selection -----

  datatype Objective = Product | Verification | Additive(price: real)

  function Value(o: Objective, c: Candidate): real {
    match o
    case Product => (c.size * c.verification) as real
    case Verification => c.verification as real
    case Additive(price) => price * c.size as real + c.verification as real
  }

  /** The key tuple (value, size, verification), compared lexicographically. */
  predicate AtMost(o: Objective, c: Candidate, d: Candidate) {
    || Value(o, c) < Value(o, d)
    || (Value(o, c) == Value(o, d) && Precedes(c, d))
  }

  /** Written out: product, verification, or price * size + verification; then size; then verification. */
  lemma AtMostMeans(o: Objective, c: Candidate, d: Candidate)
    ensures var tie := c.size < d.size || (c.size == d.size && c.verification <= d.verification);
            AtMost(o, c, d) <==>
            match o
            case Product =>
              || c.verification * c.size < d.verification * d.size
              || (c.verification * c.size == d.verification * d.size && tie)
            case Verification => c.verification < d.verification || (c.verification == d.verification && tie)
            case Additive(price) =>
              var x := price * c.size as real + c.verification as real;
              var y := price * d.size as real + d.verification as real;
              x < y || (x == y && tie)
  {
    assert c.size * c.verification == c.verification * c.size;
    assert d.size * d.verification == d.verification * d.size;
  }

  ghost predicate IsLeast(o: Objective, cs: seq<Candidate>, best: Candidate) {
    best in cs && forall c {:trigger AtMost(o, best, c)} :: c in cs ==> AtMost(o, best, c)
  }

  method Select(candidates: seq<Candidate>, o: Objective) returns (best: Candidate)
    requires candidates != []
    ensures IsLeast(o, candidates, best)
  {
    best := candidates[0];
    for i := 1 to |candidates|
      invariant best in candidates
      invariant forall j :: 0 <= j < i ==> AtMost(o, best, candidates[j])
    {
      if !AtMost(o, best, candidates[i]) {
        best := candidates[i];
      }
    }
  }

  lemma ValueMonotone(o: Objective, c: Candidate, d: Candidate)
    requires WeaklyDominates(c, d)
    requires o.Additive? ==> o.price > 0.0
    ensures Value(o, c) <= Value(o, d)
  {
    match o
    case Product =>
      assert c.size * c.verification <= d.size * c.verification <= d.size * d.verification;
    case Verification =>
    case Additive(price) =>
      assert price * (d.size as real - c.size as real) >= 0.0;
  }

  /** Every objective's minimum, with its tie-breaks, lies on the frontier. */
  lemma SelectedOnFrontier(cs: seq<Candidate>, fs: seq<Candidate>, o: Objective, best: Candidate)
    requires IsFrontier(cs, fs)
    requires o.Additive? ==> o.price > 0.0
    requires IsLeast(o, cs, best)
    ensures Shown(fs, best)
  {
    assert Covers(fs, best);
    var f :| f in fs && WeaklyDominates(f, best);
    ValueMonotone(o, f, best);
    assert AtMost(o, best, f);
  }
}
