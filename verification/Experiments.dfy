/**
 The experiment driver: four graph families, one search per cost layer, a frontier and a selection.
 */
module Experiments {
  import opened Counting
  import opened Disclosures
  import opened FiniteSums
  import opened Frontier
  import HashGraph
  import SharedRows
  import opened Wrappers

  datatype Error = OutOfRange | MissingPrice | BadPrice

  /** Oracle units for hashing this many 16-byte blocks behind a 16-byte address. */
  function HashCost(blocks: nat, profile: Profile): nat
    requires blocks >= 1
  {
    match profile
    case Paper => (blocks + 3) / 4
    case Rom32 => (16 + 16 * blocks + 31) / 32
    case Rom32Input64 => (16 + 16 * blocks + 63) / 64
  }

  lemma HashCostLeast(blocks: nat, profile: Profile)
    requires blocks >= 1
    ensures IsCost(profile, blocks, HashCost(blocks, profile))
  {
  }

  /** The current profile charges a gate exactly what the Lean meter charges its oracle query. */
  lemma PlannerChargesGate(gate: HashGraph.Gate, known: HashGraph.Values)
    requires |gate.inputs| >= 1
    ensures HashCost(|gate.inputs|, Rom32Input64) == HashGraph.HashWeight(|HashGraph.QueryInput(gate, known)|)
  {
    HashGraph.QueryLength(gate, known);
  }

  // ----- One cost layer at a time -----

  datatype Layers = Layers(localCost: nat, rootCost: nat, encoding: nat, target: nat, maxValues: nat)

  /** The words of `ps` all cost at most the local cost and disclose at least one value each. */
  ghost predicate Admits(ps: seq<Poly>, l: Layers) {
    exists high: nat :: WordsWithin(ps, l.localCost, 1, high)
  }

  /** `cap` is the least number of disclosed values at which the layer reaches the target. */
  ghost predicate LeastCap(ps: seq<Poly>, l: Layers, cost: nat, cap: nat) {
    && 1 <= cap <= l.maxValues
    && Eligible(ps, cost, cap) >= l.target
    && Eligible(ps, cost, cap - 1) < l.target
  }

  function CandidateAt(l: Layers, cost: nat, cap: nat, eligible: nat): Candidate {
    Candidate(cost + l.rootCost, cost + l.rootCost + l.encoding, cap, (2 + cap) * 16, eligible)
  }

  ghost predicate IsCandidate(ps: seq<Poly>, l: Layers, cost: nat, c: Candidate) {
    LeastCap(ps, l, cost, c.cap) && c == CandidateAt(l, cost, c.cap, Eligible(ps, cost, c.cap))
  }

  /** The search of one layer: accumulate over the disclosed values until the target is met. */
  method SearchLayer(choices: Poly, l: Layers, cost: nat, ghost ps: seq<Poly>) returns (found: Option<Candidate>)
    requires Represents(choices, ps, l.localCost, l.maxValues) && Admits(ps, l)
    requires cost <= l.localCost && l.target >= 1
    ensures found.None? <==> Eligible(ps, cost, l.maxValues) < l.target
    ensures found.Some? ==> IsCandidate(ps, l, cost, found.value)
  {
    var available := 0;
    var values := 1;
    ghost var high :| WordsWithin(ps, l.localCost, 1, high);
    EligibleBeyond(ps, l.localCost, 1, high, cost, 0);
    while values <= l.maxValues
      invariant 1 <= values <= l.maxValues + 1
      invariant available == Eligible(ps, cost, values - 1) < l.target
    {
      EligibleNext(ps, cost, values);
      available := available + Coeff(choices, Exponent(cost, values));
      if available >= l.target {
        EligibleMonotone(ps, cost, values, l.maxValues);
        return Some(CandidateAt(l, cost, values, available));
      }
      values := values + 1;
    }
    return None;
  }

  /** The candidates of the layers below `below`, in order of cost: no layer missing, none invented. */
  ghost predicate Exact(ps: seq<Poly>, l: Layers, below: nat, cs: seq<Candidate>) {
    && (forall i :: 0 <= i < |cs| ==> FromLayer(ps, l, below, cs[i]))
    && (forall cost: nat :: cost < below && Eligible(ps, cost, l.maxValues) >= l.target ==> Covered(ps, l, cost, cs))
    && (forall i, j :: 0 <= i < j < |cs| ==> cs[i].reconstruction < cs[j].reconstruction)
  }

  ghost predicate FromLayer(ps: seq<Poly>, l: Layers, below: nat, c: Candidate) {
    l.rootCost <= c.reconstruction < l.rootCost + below && IsCandidate(ps, l, c.reconstruction - l.rootCost, c)
  }

  ghost predicate Covered(ps: seq<Poly>, l: Layers, cost: nat, cs: seq<Candidate>) {
    exists i :: 0 <= i < |cs| && IsCandidate(ps, l, cost, cs[i])
  }

  method SearchLayers(choices: Poly, l: Layers, ghost ps: seq<Poly>) returns (candidates: seq<Candidate>)
    requires Represents(choices, ps, l.localCost, l.maxValues) && Admits(ps, l)
    requires l.target >= 1
    ensures Exact(ps, l, l.localCost + 1, candidates)
  {
    candidates := [];
    for cost := 0 to l.localCost + 1
      invariant Exact(ps, l, cost, candidates)
    {
      var found := SearchLayer(choices, l, cost, ps);
      ExactNext(ps, l, cost, candidates, found);
      if found.Some? {
        candidates := candidates + [found.value];
      }
    }
  }

  lemma CoveredStill(ps: seq<Poly>, l: Layers, cost: nat, cs: seq<Candidate>, ds: seq<Candidate>)
    requires Covered(ps, l, cost, cs) && cs <= ds
    ensures Covered(ps, l, cost, ds)
  {
    var i :| 0 <= i < |cs| && IsCandidate(ps, l, cost, cs[i]);
    assert ds[i] == cs[i];
  }

  lemma ExactNext(ps: seq<Poly>, l: Layers, cost: nat, cs: seq<Candidate>, found: Option<Candidate>)
    requires Exact(ps, l, cost, cs)
    requires found.None? <==> Eligible(ps, cost, l.maxValues) < l.target
    requires found.Some? ==> IsCandidate(ps, l, cost, found.value)
    ensures Exact(ps, l, cost + 1, cs + if found.Some? then [found.value] else [])
  {
    var ds := cs + if found.Some? then [found.value] else [];
    forall i | 0 <= i < |ds| ensures FromLayer(ps, l, cost + 1, ds[i]) {
      assert i < |cs| ==> FromLayer(ps, l, cost, cs[i]);
    }
    forall c: nat | c < cost + 1 && Eligible(ps, c, l.maxValues) >= l.target ensures Covered(ps, l, c, ds) {
      if c < cost {
        CoveredStill(ps, l, c, cs, ds);
      } else {
        assert ds[|cs|] == found.value;
      }
    }
    forall i, j | 0 <= i < j < |ds| ensures ds[i].reconstruction < ds[j].reconstruction {
      assert FromLayer(ps, l, cost, cs[i]);
    }
  }

  /** The local cost cap loses no layer: at any cost whatever, a reachable target is listed. */
  lemma NoLayerBeyond(ps: seq<Poly>, l: Layers, cs: seq<Candidate>, cost: nat)
    requires Exact(ps, l, l.localCost + 1, cs) && Admits(ps, l) && l.target >= 1
    ensures Eligible(ps, cost, l.maxValues) >= l.target <==> Covered(ps, l, cost, cs)
  {
    if Eligible(ps, cost, l.maxValues) >= l.target {
      var high :| WordsWithin(ps, l.localCost, 1, high);
      if cost > l.localCost {
        EligibleBeyond(ps, l.localCost, 1, high, cost, l.maxValues);
      }
    }
    if Covered(ps, l, cost, cs) {
      var i :| 0 <= i < |cs| && IsCandidate(ps, l, cost, cs[i]);
      EligibleMonotone(ps, cost, cs[i].cap, l.maxValues);
    }
  }

  lemma LeastCapUnique(ps: seq<Poly>, l: Layers, m: Layers, cost: nat, a: nat, b: nat)
    requires l.target == m.target
    requires LeastCap(ps, l, cost, a) && LeastCap(ps, m, cost, b)
    ensures a == b
  {
    if a < b {
      EligibleMonotone(ps, cost, a, b - 1);
    } else if b < a {
      EligibleMonotone(ps, cost, b, a - 1);
    }
  }

  /** Raising the cap on disclosed values never changes a candidate already found. */
  lemma RaisingMaxValues(ps: seq<Poly>, l: Layers, maxValues: nat, cs: seq<Candidate>, ds: seq<Candidate>, c: Candidate)
    requires l.maxValues <= maxValues
    requires Exact(ps, l, l.localCost + 1, cs)
    requires Exact(ps, l.(maxValues := maxValues), l.localCost + 1, ds)
    requires c in cs
    ensures c in ds
  {
    var m := l.(maxValues := maxValues);
    var i :| 0 <= i < |cs| && cs[i] == c;
    assert FromLayer(ps, l, l.localCost + 1, cs[i]);
    var cost := c.reconstruction - l.rootCost;
    EligibleMonotone(ps, cost, c.cap, maxValues);
    CandidateKept(ps, l, m, cost, c, ds);
  }

  lemma CandidateKept(ps: seq<Poly>, l: Layers, m: Layers, cost: nat, c: Candidate, ds: seq<Candidate>)
    requires m == l.(maxValues := m.maxValues)
    requires IsCandidate(ps, l, cost, c) && Covered(ps, m, cost, ds)
    ensures c in ds
  {
    var j :| 0 <= j < |ds| && IsCandidate(ps, m, cost, ds[j]);
    LeastCapUnique(ps, l, m, cost, c.cap, ds[j].cap);
  }

  // ----- The four graph families -----

  datatype Family = Family(name: Name, poly: Option<Poly>, count: nat, componentCost: nat, roots: nat)

  const CHAIN1: Poly := map[Exponent(0, 1) := 1, Exponent(1, 1) := 1]
  const CHAIN2: Poly := map[Exponent(0, 1) := 1, Exponent(1, 1) := 1, Exponent(2, 1) := 1]

  function LocalCost(f: Family): nat {
    if f.poly.None? then f.componentCost else Times(f.count, f.componentCost)
  }

  /** One polynomial per component of the graph. */
  ghost function FamilyWords(f: Family): seq<Poly> {
    match f.poly
    case None => Repeat(CHAIN2, 23) + Repeat(CHAIN1, 93)
    case Some(p) => Repeat(p, f.count)
  }

  /** No component of the four graphs discloses more values than this. */
  const COMPONENT_VALUES: nat := 16

  /** The declared component cost really bounds the component. */
  ghost predicate Bounded(f: Family) {
    && f.roots >= 1
    && f.count >= 1
    && match f.poly
       case None => f.componentCost == 139
       case Some(p) => ExponentsWithin(p, f.componentCost, 1, COMPONENT_VALUES)
  }

  /** The whole graph's cost cap drops no disclosure of the graph. */
  lemma FamilyAdmits(f: Family, l: Layers)
    requires Bounded(f) && l.localCost == LocalCost(f)
    ensures Admits(FamilyWords(f), l)
  {
    match f.poly
    case None =>
      WithinRepeat(CHAIN2, 23, 2, 1, 1);
      WithinRepeat(CHAIN1, 93, 1, 1, 1);
      WithinConcat(Repeat(CHAIN2, 23), Repeat(CHAIN1, 93), 46, 23, 23, 93, 93, 93);
      assert WordsWithin(FamilyWords(f), 139, 1, 116);
    case Some(p) =>
      WithinRepeat(p, f.count, f.componentCost, 1, COMPONENT_VALUES);
      assert Times(f.count, 1) >= 1;
      assert WordsWithin(FamilyWords(f), LocalCost(f), 1, Times(f.count, COMPONENT_VALUES));
  }

  method Choices(f: Family, maxValues: nat) returns (choices: Poly)
    requires Bounded(f)
    ensures Represents(choices, FamilyWords(f), LocalCost(f), maxValues)
  {
    var localCost := LocalCost(f);
    match f.poly
    case None =>
      var left := Power(CHAIN2, 23, localCost, maxValues);
      var right := Power(CHAIN1, 93, localCost, maxValues);
      choices := Multiply(left, right, localCost, maxValues);
      ProductRepresents(choices, left, right, Repeat(CHAIN2, 23), Repeat(CHAIN1, 93), localCost, maxValues);
    case Some(p) =>
      choices := Power(p, f.count, localCost, maxValues);
  }

  /** A component is either disclosed whole, or merged over one of the inner disclosures. */
  function Component(inner: Poly, merge: nat): Poly
    requires merge >= 1
  {
    map[Exponent(0, 1) := 1] + map e | e in Shifted(inner.Keys, merge) :: Coeff(inner, Lowered(e, merge))
  }

  function Shifted(keys: set<Exponent>, merge: nat): set<Exponent> {
    set x | x in keys :: Exponent(x.cost + merge, x.values)
  }

  function Lowered(e: Exponent, merge: nat): Exponent {
    if e.cost < merge then e else Exponent(e.cost - merge, e.values)
  }

  function Recomputed(merge: nat): Poly {
    map[Exponent(merge, 4) := SharedRows.Comb(4, 0), Exponent(merge + 1, 4) := SharedRows.Comb(4, 1),
        Exponent(merge + 2, 4) := SharedRows.Comb(4, 2), Exponent(merge + 3, 4) := SharedRows.Comb(4, 3),
        Exponent(merge + 4, 4) := SharedRows.Comb(4, 4)]
  }

  function Forest(merge: nat): Poly {
    map[Exponent(0, 1) := 1] + Recomputed(merge)
  }

  function Expansion(rows: nat, profile: Profile): nat {
    if profile == Paper then 1 else (rows + 1) / 2
  }

  function RowShape(rows: nat, profile: Profile): SharedRows.Shape {
    SharedRows.Shape(rows, HashCost(4, profile), Expansion(rows, profile))
  }

  lemma ComponentWithin(inner: Poly, merge: nat, cost: nat, high: nat)
    requires merge >= 1 && high >= 1 && ExponentsWithin(inner, cost, 1, high)
    ensures ExponentsWithin(Component(inner, merge), cost + merge, 1, high)
  {
  }

  function ChainsFamily(): Family {
    Family(Chains, None, 116, 139, 116)
  }

  function ForestFamily(profile: Profile): Family {
    var merge := HashCost(4, profile);
    Family(Branching, Some(Forest(merge)), 32, 4 + merge, 32)
  }

  lemma ForestBounded(profile: Profile)
    ensures Bounded(ForestFamily(profile))
  {
  }

  /** `m` counts the pairs of entries of `p`, none of them cut off. */
  ghost predicate SquareOf(m: Poly, p: Poly) {
    forall e :: Coeff(m, e) == Count([p, p], e)
  }

  /** Caps above the bounds of the factors leave the square whole. */
  lemma SquareWhole(m: Poly, p: Poly, maxCost: nat, maxValues: nat, cost: nat, high: nat)
    requires IsProduct(m, p, p, maxCost, maxValues) && ExponentsWithin(p, cost, 1, high)
    requires cost + cost <= maxCost && high + high <= maxValues
    ensures SquareOf(m, p)
  {
    OneAgrees(p, maxCost, maxValues);
    ProductRepresents(m, p, p, [p], [p], maxCost, maxValues);
    WithinOne(p, cost, 1, high);
    WithinConcat([p], [p], cost, 1, high, cost, 1, high);
    assert [p] + [p] == [p, p];
    forall e | !InCaps(e, maxCost, maxValues) ensures Count([p, p], e) == 0 {
      CountBeyond([p, p], cost + cost, 2, high + high, e);
    }
  }

  lemma SquareWithin(m: Poly, p: Poly, maxCost: int, maxValues: int, cost: nat, high: nat)
    requires forall e :: e in m <==> (InCaps(e, maxCost, maxValues) && ProductHas(p, p.Keys, e))
    requires ExponentsWithin(p, cost, 1, high)
    ensures ExponentsWithin(m, cost + cost, 1, high + high)
  {
    forall e | e in m ensures e.cost <= cost + cost && 1 <= e.values <= high + high {
      assert ProductHas(p, p.Keys, e);
      var x :| x in p.Keys && RowHas(x, p.Keys, e);
      assert Minus(e, x) in p;
    }
  }

  function PairsOver(profile: Profile, pairs: Poly): Family {
    var merge := HashCost(4, profile);
    Family(Pairs, Some(Component(pairs, merge)), 12, 8 + 5 * merge, 12)
  }

  function FourOver(profile: Profile, shared: Poly): Family {
    var merge := HashCost(4, profile);
    Family(Four, Some(Component(shared, merge)), 18, 4 * Expansion(4, profile) + 5 * merge, 18)
  }

  /** `pairs` counts the pairs of cuts of two blocks of two rows. */
  ghost predicate PairsOfCuts(profile: Profile, shared: Poly, pairs: Poly) {
    SharedRows.CountsDisclosures(RowShape(2, profile), shared) && SquareOf(pairs, shared)
  }

  ghost predicate IsPairs(profile: Profile, f: Family) {
    exists shared, pairs :: PairsOfCuts(profile, shared, pairs) && f == PairsOver(profile, pairs)
  }

  ghost predicate IsFour(profile: Profile, f: Family) {
    exists shared :: SharedRows.CountsDisclosures(RowShape(4, profile), shared) && f == FourOver(profile, shared)
  }

  lemma PairsBounded(profile: Profile, shared: Poly, pairs: Poly)
    requires SharedRows.KeysFrom(RowShape(2, profile), shared)
    requires IsProduct(pairs, shared, shared, 1000, 128)
    requires forall e :: e in pairs <==> (InCaps(e, 1000, 128) && ProductHas(shared, shared.Keys, e))
    ensures SquareOf(pairs, shared)
    ensures Bounded(PairsOver(profile, pairs))
  {
    var merge, g := HashCost(4, profile), RowShape(2, profile);
    var inner := SharedRows.AllDerived(g).cost;
    SharedRows.EntriesWithin(g, shared);
    PairsCost(profile);
    SquareWhole(pairs, shared, 1000, 128, inner, 8);
    SquareWithin(pairs, shared, 1000, 128, inner, 8);
    ComponentWithin(pairs, merge, inner + inner, 16);
  }

  lemma PairsCost(profile: Profile)
    ensures SharedRows.AllDerived(RowShape(2, profile)).cost == 2 * HashCost(4, profile) + 4
    ensures HashCost(4, profile) <= 3
  {
  }

  lemma FourBounded(profile: Profile, shared: Poly)
    requires SharedRows.KeysFrom(RowShape(4, profile), shared)
    ensures Bounded(FourOver(profile, shared))
  {
    var merge, g := HashCost(4, profile), RowShape(4, profile);
    var inner := SharedRows.AllDerived(g).cost;
    SharedRows.EntriesWithin(g, shared);
    assert inner == 4 * merge + 4 * Expansion(4, profile);
    ComponentWithin(shared, merge, inner, 16);
  }

  // ----- What the families are -----

  lemma ChainsGraph(profile: Profile, merge: nat)
    ensures IsGraph(Chains, profile, merge, FamilyWords(ChainsFamily()))
  {
    var ps := FamilyWords(ChainsFamily());
    assert IsChain(CHAIN1, 1) && IsChain(CHAIN2, 2);
    forall i | 0 <= i < 116 ensures IsChain(ps[i], if i < 23 then 2 else 1) {
      assert ps[i] == if i < 23 then CHAIN2 else CHAIN1;
    }
  }

  lemma LeavesCounted(merge: nat, e: Exponent)
    ensures |LeavesAt(merge, e)| ==
            if e.values == 4 && merge <= e.cost <= merge + 4 then SharedRows.Comb(4, e.cost - merge) else 0
  {
    if e.values == 4 && merge <= e.cost {
      var k := e.cost - merge;
      assert LeavesAt(merge, e) == SharedRows.OfWeight(SharedRows.Masks(4), k);
      SharedRows.MasksOfWeight(4, k);
      if k > 4 {
        forall m | m in SharedRows.Masks(4) {
          SharedRows.WeightWithin(4, m);
        }
        assert LeavesAt(merge, e) == {};
      }
    } else {
      assert LeavesAt(merge, e) == {};
    }
  }

  lemma RecomputedCoeff(merge: nat, e: Exponent)
    ensures Coeff(Recomputed(merge), e) ==
            if e.values == 4 && merge <= e.cost <= merge + 4 then SharedRows.Comb(4, e.cost - merge) else 0
  {
    assert e == Exponent(e.cost, e.values);
  }

  lemma ForestIsTree(merge: nat)
    requires merge >= 1
    ensures IsTree(Forest(merge), merge)
  {
    forall e ensures Coeff(Forest(merge), e) == (if e == Exponent(0, 1) then 1 else 0) + |LeavesAt(merge, e)| {
      LeavesCounted(merge, e);
      RecomputedCoeff(merge, e);
    }
  }

  lemma ComponentIsMerge(inner: Poly, merge: nat, ps: seq<Poly>)
    requires merge >= 1 && forall e :: Coeff(inner, e) == Count(ps, e)
    ensures IsMergeOver(Component(inner, merge), merge, ps)
  {
    forall e ensures Coeff(Component(inner, merge), e) == (if e == Exponent(0, 1) then 1 else 0) +
                       (if e.cost >= merge then Count(ps, Exponent(e.cost - merge, e.values)) else 0)
    {
      if e.cost >= merge {
        var x := Exponent(e.cost - merge, e.values);
        assert Coeff(inner, x) == Count(ps, x);
        assert e in Shifted(inner.Keys, merge) <==> x in inner.Keys by {
          assert e == Exponent(x.cost + merge, x.values);
        }
      }
    }
  }

  /** One row of the table of families: its name, its components, its declared cost and its roots. */
  ghost predicate IsFamilyOf(name: Name, profile: Profile, merge: nat, f: Family) {
    && f.name == name && f.roots == Roots(name)
    && IsGraph(name, profile, merge, FamilyWords(f))
    && DeclaredCost(f) == GraphCost(name, profile, merge)
  }

  /** The source's local cost, written out. */
  function DeclaredCost(f: Family): nat {
    match f.poly
    case None => f.componentCost
    case Some(_) => f.count * f.componentCost
  }

  lemma ChainsMeaning(profile: Profile, merge: nat)
    ensures IsFamilyOf(Chains, profile, merge, ChainsFamily())
  {
    ChainsGraph(profile, merge);
  }

  lemma ForestMeaning(profile: Profile)
    ensures IsFamilyOf(Branching, profile, HashCost(4, profile), ForestFamily(profile))
  {
    ForestIsTree(HashCost(4, profile));
  }

  lemma PairsMeaning(profile: Profile, shared: Poly, pairs: Poly)
    requires PairsOfCuts(profile, shared, pairs)
    ensures IsPair(profile, HashCost(4, profile), Component(pairs, HashCost(4, profile)))
  {
    ComponentIsMerge(pairs, HashCost(4, profile), [shared, shared]);
    assert IsBlock(profile, HashCost(4, profile), 2, shared);
  }

  lemma FourMeaning(profile: Profile, shared: Poly)
    requires SharedRows.CountsDisclosures(RowShape(4, profile), shared)
    ensures IsQuad(profile, HashCost(4, profile), Component(shared, HashCost(4, profile)))
  {
    forall e ensures Coeff(shared, e) == Count([shared], e) {
      CountOne(shared, e);
    }
    ComponentIsMerge(shared, HashCost(4, profile), [shared]);
    assert IsBlock(profile, HashCost(4, profile), 4, shared);
  }

  lemma PairsComponents(profile: Profile, merge: nat, p: Poly, f: Family)
    requires IsPair(profile, merge, p) && f == Family(Pairs, Some(p), 12, 8 + 5 * merge, 12)
    ensures IsFamilyOf(Pairs, profile, merge, f)
  {
  }

  lemma FourComponents(profile: Profile, merge: nat, p: Poly, f: Family)
    requires IsQuad(profile, merge, p)
    requires f == Family(Four, Some(p), 18, (if profile == Paper then 4 else 8) + 5 * merge, 18)
    ensures IsFamilyOf(Four, profile, merge, f)
  {
  }

  lemma PairsFamilyMeaning(profile: Profile, f: Family)
    requires IsPairs(profile, f)
    ensures IsFamilyOf(Pairs, profile, HashCost(4, profile), f)
  {
    var shared, pairs :| PairsOfCuts(profile, shared, pairs) && f == PairsOver(profile, pairs);
    PairsMeaning(profile, shared, pairs);
    PairsComponents(profile, HashCost(4, profile), f.poly.value, f);
  }

  lemma FourFamilyMeaning(profile: Profile, f: Family)
    requires IsFour(profile, f)
    ensures IsFamilyOf(Four, profile, HashCost(4, profile), f)
  {
    var shared :| SharedRows.CountsDisclosures(RowShape(4, profile), shared) && f == FourOver(profile, shared);
    FourMeaning(profile, shared);
    FourComponents(profile, HashCost(4, profile), f.poly.value, f);
  }

  method PairsFamily(profile: Profile) returns (f: Family)
    ensures IsPairs(profile, f) && Bounded(f)
  {
    var shared := SharedRows.Build(RowShape(2, profile));
    var pairs := Multiply(shared, shared, 1000, 128);
    PairsBounded(profile, shared, pairs);
    f := PairsOver(profile, pairs);
    assert PairsOfCuts(profile, shared, pairs);
  }

  method FourFamily(profile: Profile) returns (f: Family)
    ensures IsFour(profile, f) && Bounded(f)
  {
    var shared := SharedRows.Build(RowShape(4, profile));
    FourBounded(profile, shared);
    f := FourOver(profile, shared);
  }

  ghost predicate AreFamilies(profile: Profile, fs: seq<Family>) {
    && |fs| == 4
    && fs[0] == ChainsFamily()
    && fs[1] == ForestFamily(profile)
    && IsPairs(profile, fs[2])
    && IsFour(profile, fs[3])
  }

  /** The four named graphs, in order. */
  ghost predicate NamesFamilies(profile: Profile, merge: nat, fs: seq<Family>) {
    && |fs| == 4
    && IsFamilyOf(Chains, profile, merge, fs[0]) && IsFamilyOf(Branching, profile, merge, fs[1])
    && IsFamilyOf(Pairs, profile, merge, fs[2]) && IsFamilyOf(Four, profile, merge, fs[3])
  }

  /** The families the driver searches are the four named graphs. */
  lemma FamiliesNamed(profile: Profile, fs: seq<Family>)
    requires AreFamilies(profile, fs)
    ensures IsCost(profile, 4, HashCost(4, profile)) && NamesFamilies(profile, HashCost(4, profile), fs)
  {
    HashCostLeast(4, profile);
    ChainsMeaning(profile, HashCost(4, profile));
    ForestMeaning(profile);
    PairsFamilyMeaning(profile, fs[2]);
    FourFamilyMeaning(profile, fs[3]);
  }

  ghost predicate AllBounded(fs: seq<Family>) {
    forall i :: 0 <= i < |fs| ==> Bounded(fs[i])
  }

  lemma FourListed(profile: Profile, pairs: Family, four: Family)
    requires IsPairs(profile, pairs) && IsFour(profile, four)
    ensures AreFamilies(profile, [ChainsFamily(), ForestFamily(profile), pairs, four])
  {
  }

  lemma FourBoundedAll(a: Family, b: Family, c: Family, d: Family)
    requires Bounded(a) && Bounded(b) && Bounded(c) && Bounded(d)
    ensures AllBounded([a, b, c, d])
  {
    var fs := [a, b, c, d];
    forall i | 0 <= i < |fs| ensures Bounded(fs[i]) {
      assert fs[i] == a || fs[i] == b || fs[i] == c || fs[i] == d;
    }
  }

  /** The four fixed graphs: each declared component cost bounds its component, for every profile. */
  method Families(profile: Profile) returns (fs: seq<Family>)
    ensures AreFamilies(profile, fs) && AllBounded(fs)
  {
    var chains := ChainsFamily();
    var forest := ForestFamily(profile);
    ForestBounded(profile);
    var pairs := PairsFamily(profile);
    var four := FourFamily(profile);
    fs := [chains, forest, pairs, four];
    FourBoundedAll(chains, forest, pairs, four);
    FourListed(profile, pairs, four);
  }

  // ----- The driver -----

  function Check(q: Request): Option<Error> {
    if !(1 <= q.bits <= 127 && 1 <= q.maxValues <= 128) then Some(OutOfRange)
    else if q.selection.ByAdditive? && q.price.None? then Some(MissingPrice)
    else if q.selection.ByAdditive? && q.price.value <= 0.0 then Some(BadPrice)
    else None
  }

  function ObjectiveOf(q: Request): Objective
    requires Check(q).None? && q.selection != FrontierOnly
  {
    match q.selection
    case ByProduct => Product
    case ByVerification => Verification
    case ByAdditive => Additive(q.price.value)
  }

  function LayersOf(q: Request, f: Family): Layers
    requires Check(q).None? && f.roots >= 1
  {
    Layers(LocalCost(f), HashCost(f.roots, q.profile), HashCost(4, q.profile), SharedRows.Pow2(q.bits), q.maxValues)
  }

  /** What a row says about its candidates: a least one, and their frontier, as asked. */
  ghost predicate Summarises(q: Request, row: Row, cs: seq<Candidate>)
    requires Check(q).None?
  {
    && (row.found <==> cs != [])
    && (row.selected.Some? <==> cs != [] && q.selection != FrontierOnly)
    && (row.selected.Some? ==> IsLeast(ObjectiveOf(q), cs, row.selected.value))
    && (row.frontier.Some? <==> q.includeFrontier || q.selection == FrontierOnly)
    && (row.frontier.Some? ==> IsFrontier(cs, row.frontier.value))
  }

  /** The candidates summarised are exactly the reachable layers of the family. */
  ghost predicate Reports(q: Request, f: Family, row: Row, cs: seq<Candidate>)
    requires Check(q).None? && f.roots >= 1
  {
    var l := LayersOf(q, f);
    && Exact(FamilyWords(f), l, l.localCost + 1, cs)
    && row.family == f.name
    && row.keygen == l.localCost + l.rootCost
    && Summarises(q, row, cs)
  }

  ghost predicate Reported(q: Request, f: Family, row: Row)
    requires Check(q).None? && f.roots >= 1
  {
    exists cs :: Reports(q, f, row, cs)
  }

  // ----- The same, in terms of the request -----

  /** The layers ask for what the request asks for. */
  ghost predicate AsksFor(q: Request, x: Search, l: Layers)
    requires q.bits >= 0
  {
    && l.rootCost == x.root && l.encoding == x.merge
    && l.target == |SharedRows.Masks(q.bits)| && l.maxValues == q.maxValues
  }

  lemma CandidateDescribes(q: Request, x: Search, l: Layers, cost: nat, c: Candidate)
    requires q.bits >= 0 && AsksFor(q, x, l)
    ensures IsCandidate(x.ps, l, cost, c) <==> Describes(q, x, cost, c)
  {
  }

  lemma ExactLists(q: Request, x: Search, l: Layers, cs: seq<Candidate>)
    requires q.bits >= 0 && AsksFor(q, x, l) && l.target >= 1
    requires Exact(x.ps, l, l.localCost + 1, cs) && Admits(x.ps, l)
    ensures ListsReachable(q, x, cs)
  {
    forall i | 0 <= i < |cs| ensures Described(q, x, cs[i]) {
      assert FromLayer(x.ps, l, l.localCost + 1, cs[i]);
      CandidateDescribes(q, x, l, cs[i].reconstruction - l.rootCost, cs[i]);
    }
    forall cost: nat | Reaches(q, x, cost, q.maxValues) ensures Listed(q, x, cost, cs) {
      NoLayerBeyond(x.ps, l, cs, cost);
      var i :| 0 <= i < |cs| && IsCandidate(x.ps, l, cost, cs[i]);
      CandidateDescribes(q, x, l, cost, cs[i]);
    }
  }

  lemma LeastIsBest(q: Request, cs: seq<Candidate>, best: Candidate)
    requires Check(q).None? && q.selection != FrontierOnly && IsLeast(ObjectiveOf(q), cs, best)
    ensures IsBest(q, cs, best)
  {
    forall c | c in cs ensures NoWorse(q, best, c) {
      assert AtMost(ObjectiveOf(q), best, c);
      ValueIsObjective(q, best);
      ValueIsObjective(q, c);
    }
  }

  lemma ValueIsObjective(q: Request, c: Candidate)
    requires Check(q).None? && q.selection != FrontierOnly
    ensures Value(ObjectiveOf(q), c) == Measure(q, c)
  {
    assert c.size * c.verification == c.verification * c.size;
  }

  lemma SummaryIsTrue(q: Request, x: Search, cs: seq<Candidate>, row: Row)
    requires Check(q).None? && q.bits >= 0 && ListsReachable(q, x, cs) && Summarises(q, row, cs)
    ensures TrueRow(q, x, cs, row)
  {
    if row.selected.Some? {
      LeastIsBest(q, cs, row.selected.value);
    }
  }

  /** A true row for the family's components, at the profile's prices. */
  ghost predicate AnswersOf(q: Request, f: Family, row: Row)
    requires q.bits >= 0
  {
    exists merge: nat, root: nat :: IsCost(q.profile, 4, merge) && IsCost(q.profile, f.roots, root) &&
      row.family == f.name && row.keygen == DeclaredCost(f) + root &&
      Answers(q, Search(FamilyWords(f), merge, root), row)
  }

  lemma ReportAnswers(q: Request, f: Family, row: Row, cs: seq<Candidate>)
    requires Check(q).None? && Bounded(f) && Reports(q, f, row, cs)
    ensures AnswersOf(q, f, row)
  {
    var l := LayersOf(q, f);
    var x := Search(FamilyWords(f), HashCost(4, q.profile), HashCost(f.roots, q.profile));
    SharedRows.MasksSize(q.bits);
    FamilyAdmits(f, l);
    ExactLists(q, x, l, cs);
    SummaryIsTrue(q, x, cs, row);
    HashCostLeast(4, q.profile);
    HashCostLeast(f.roots, q.profile);
    assert Answers(q, x, row);
  }

  method Explore(q: Request, f: Family) returns (row: Row)
    requires Check(q).None? && Bounded(f)
    ensures Reported(q, f, row) && AnswersOf(q, f, row)
  {
    var l := LayersOf(q, f);
    var choices := Choices(f, l.maxValues);
    FamilyAdmits(f, l);
    var candidates := SearchLayers(choices, l, FamilyWords(f));
    var selected := None;
    if candidates != [] && q.selection != FrontierOnly {
      var best := Select(candidates, ObjectiveOf(q));
      selected := Some(best);
    }
    var frontier := None;
    if q.includeFrontier || q.selection == FrontierOnly {
      var shown := Pareto(candidates);
      frontier := Some(shown);
    }
    row := Row(f.name, l.localCost + l.rootCost, selected, candidates != [], frontier);
    assert Reports(q, f, row, candidates);
    ReportAnswers(q, f, row, candidates);
  }

  ghost predicate ReportedAll(q: Request, fs: seq<Family>, rows: seq<Row>)
    requires Check(q).None?
  {
    && |rows| == |fs|
    && forall i :: 0 <= i < |fs| ==> Bounded(fs[i]) && Reported(q, fs[i], rows[i]) && AnswersOf(q, fs[i], rows[i])
  }

  /** One row for each of the four graphs, in order. */
  ghost predicate IsOutput(q: Request, rows: seq<Row>)
    requires Check(q).None?
  {
    exists fs :: AreFamilies(q.profile, fs) && ReportedAll(q, fs, rows)
  }

  method ExploreAll(q: Request, fs: seq<Family>) returns (output: seq<Row>)
    requires Check(q).None? && AllBounded(fs)
    ensures ReportedAll(q, fs, output)
  {
    output := [];
    for i := 0 to |fs|
      invariant ReportedAll(q, fs[..i], output)
    {
      var row := Explore(q, fs[i]);
      assert fs[..i + 1] == fs[..i] + [fs[i]];
      output := output + [row];
    }
    assert fs[..|fs|] == fs;
  }

  lemma FamilyAnswers(q: Request, name: Name, f: Family, row: Row)
    requires q.bits >= 0 && AnswersOf(q, f, row)
    requires IsFamilyOf(name, q.profile, HashCost(4, q.profile), f)
    ensures AnswersFor(q, name, row)
  {
    var merge: nat, root: nat :| IsCost(q.profile, 4, merge) && IsCost(q.profile, f.roots, root) &&
      row.family == f.name && row.keygen == DeclaredCost(f) + root &&
      Answers(q, Search(FamilyWords(f), merge, root), row);
    HashCostLeast(4, q.profile);
    assert merge == HashCost(4, q.profile);
    var x := Search(FamilyWords(f), merge, root);
    assert Answers(q, x, row);
  }

  lemma OutputIsTrue(q: Request, fs: seq<Family>, rows: seq<Row>)
    requires Check(q).None? && AreFamilies(q.profile, fs) && ReportedAll(q, fs, rows)
    ensures TrueOutput(q, rows)
  {
    FamiliesNamed(q.profile, fs);
    FamilyAnswers(q, Chains, fs[0], rows[0]);
    FamilyAnswers(q, Branching, fs[1], rows[1]);
    FamilyAnswers(q, Pairs, fs[2], rows[2]);
    FamilyAnswers(q, Four, fs[3], rows[3]);
  }

  method Answer(q: Request) returns (rows: seq<Row>)
    requires Check(q).None?
    ensures TrueOutput(q, rows) && IsOutput(q, rows)
  {
    var families := Families(q.profile);
    rows := ExploreAll(q, families);
    OutputIsTrue(q, families, rows);
  }

  /** The bits and the cap on values are in the supported range. */
  predicate InRange(q: Request) {
    1 <= q.bits <= 127 && 1 <= q.maxValues <= 128
  }

  lemma CheckMeans(q: Request)
    ensures Check(q) == Some(OutOfRange) <==> !InRange(q)
    ensures Check(q) == Some(MissingPrice) <==> InRange(q) && q.selection == ByAdditive && q.price == None
    ensures Check(q) == Some(BadPrice) <==>
            InRange(q) && q.selection == ByAdditive && q.price.Some? && q.price.value <= 0.0
  {
  }

  method Run(q: Request) returns (r: Result<seq<Row>, Error>)
    ensures r == Err(OutOfRange) <==> !InRange(q)
    ensures r == Err(MissingPrice) <==> InRange(q) && q.selection == ByAdditive && q.price == None
    ensures r == Err(BadPrice) <==>
            InRange(q) && q.selection == ByAdditive && q.price.Some? && q.price.value <= 0.0
    ensures r.Ok? ==> q.bits >= 1 && TrueOutput(q, r.value)
    ensures r.Ok? ==> Check(q).None? && IsOutput(q, r.value)
  {
    CheckMeans(q);
    if Check(q).Some? {
      return Err(Check(q).value);
    }
    var rows := Answer(q);
    r := Ok(rows);
  }

  // ----- What a row determines -----

  lemma ExactContains(ps: seq<Poly>, l: Layers, cs: seq<Candidate>, ds: seq<Candidate>)
    requires Exact(ps, l, l.localCost + 1, cs) && Exact(ps, l, l.localCost + 1, ds)
    ensures forall c :: c in cs ==> c in ds
  {
    forall c | c in cs ensures c in ds {
      RaisingMaxValues(ps, l, l.maxValues, cs, ds, c);
    }
  }

  ghost predicate Rising(cs: seq<Candidate>) {
    forall i, j :: 0 <= i < j < |cs| ==> cs[i].reconstruction < cs[j].reconstruction
  }

  lemma {:induction false} RisingSame(cs: seq<Candidate>, ds: seq<Candidate>)
    requires Rising(cs) && Rising(ds)
    requires forall c :: c in cs <==> c in ds
    ensures cs == ds
  {
    if cs != [] {
      NotEmpty(cs, ds);
      RisingFirst(cs, ds);
      forall c ensures c in cs[1..] <==> c in ds[1..] {
        assert c in cs[1..] <==> c in cs && c != cs[0];
        assert c in ds[1..] <==> c in ds && c != ds[0];
      }
      RisingSame(cs[1..], ds[1..]);
      assert cs == [cs[0]] + cs[1..] && ds == [ds[0]] + ds[1..];
    } else if ds != [] {
      NotEmpty(ds, cs);
    }
  }

  lemma NotEmpty(cs: seq<Candidate>, ds: seq<Candidate>)
    requires cs != [] && forall c :: c in cs ==> c in ds
    ensures ds != [] && cs[0] in ds
  {
    assert cs[0] in ds;
  }

  lemma RisingFirst(cs: seq<Candidate>, ds: seq<Candidate>)
    requires cs != [] && ds != [] && Rising(cs) && Rising(ds)
    requires cs[0] in ds && ds[0] in cs
    ensures cs[0] == ds[0]
  {
    var i :| 0 <= i < |ds| && ds[i] == cs[0];
    var j :| 0 <= j < |cs| && cs[j] == ds[0];
    assert ds[0].reconstruction <= ds[i].reconstruction;
    assert cs[0].reconstruction <= cs[j].reconstruction;
  }

  /** There is one exact candidate list: the graph and the request determine it. */
  lemma ExactUnique(ps: seq<Poly>, l: Layers, cs: seq<Candidate>, ds: seq<Candidate>)
    requires Exact(ps, l, l.localCost + 1, cs) && Exact(ps, l, l.localCost + 1, ds)
    ensures cs == ds
  {
    ExactContains(ps, l, cs, ds);
    ExactContains(ps, l, ds, cs);
    RisingSame(cs, ds);
  }

  lemma SameVerification(ps: seq<Poly>, l: Layers, below: nat, cs: seq<Candidate>, c: Candidate, d: Candidate)
    requires Exact(ps, l, below, cs) && c in cs && d in cs
    requires c.verification == d.verification
    ensures c == d
  {
    var i :| 0 <= i < |cs| && cs[i] == c;
    var j :| 0 <= j < |cs| && cs[j] == d;
    assert FromLayer(ps, l, below, cs[i]) && FromLayer(ps, l, below, cs[j]);
    assert c.reconstruction == d.reconstruction;
    assert i == j;
  }

  lemma ShownListed(ps: seq<Poly>, l: Layers, below: nat, cs: seq<Candidate>, fs: seq<Candidate>, best: Candidate)
    requires Exact(ps, l, below, cs) && best in cs
    requires (forall f :: f in fs ==> f in cs) && Shown(fs, best)
    ensures best in fs
  {
    var g :| g in fs && SameMetrics(g, best);
    SameVerification(ps, l, below, cs, g, best);
  }

  lemma SelectedListed(ps: seq<Poly>, l: Layers, below: nat, cs: seq<Candidate>, fs: seq<Candidate>,
                       o: Objective, best: Candidate)
    requires Exact(ps, l, below, cs) && IsFrontier(cs, fs) && IsLeast(o, cs, best)
    requires o.Additive? ==> o.price > 0.0
    ensures best in fs
  {
    SelectedOnFrontier(cs, fs, o, best);
    ShownListed(ps, l, below, cs, fs, best);
  }

  lemma SummaryShowsSelection(q: Request, ps: seq<Poly>, l: Layers, row: Row, cs: seq<Candidate>)
    requires Check(q).None? && Exact(ps, l, l.localCost + 1, cs) && Summarises(q, row, cs)
    requires row.selected.Some? && row.frontier.Some?
    ensures row.selected.value in row.frontier.value
  {
    var o, best, fs := ObjectiveOf(q), row.selected.value, row.frontier.value;
    PriceIsPositive(q);
    SelectedListed(ps, l, l.localCost + 1, cs, fs, o, best);
  }

  lemma PriceIsPositive(q: Request)
    requires Check(q).None? && q.selection != FrontierOnly
    ensures ObjectiveOf(q).Additive? ==> ObjectiveOf(q).price > 0.0
  {
  }

  /** In every reported row the selected candidate is itself a point of the row's frontier. */
  lemma SelectionIsOnFrontier(q: Request, f: Family, row: Row)
    requires Check(q).None? && f.roots >= 1 && Reported(q, f, row)
    requires row.selected.Some? && row.frontier.Some?
    ensures row.selected.value in row.frontier.value
  {
    var cs :| Reports(q, f, row, cs);
    SummaryShowsSelection(q, FamilyWords(f), LayersOf(q, f), row, cs);
  }
}
