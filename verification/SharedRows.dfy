/**
 The disclosure polynomial of a block of rows that share four seeds.

 A cut merges a non-empty set of rows and discloses a proper subset of the seeds.  `Build` runs the
 source's double loop over binomial products; `CutsAt` is the set of cuts themselves.
 */
module SharedRows {
  import opened FiniteSums
  import opened Counting

  const SEEDS: nat := 4

  /** math.comb */
  function Comb(n: nat, k: nat): nat {
    if k == 0 then 1 else if n == 0 then 0 else Comb(n - 1, k - 1) + Comb(n - 1, k)
  }

  function Pow2(n: nat): (p: nat)
    ensures p >= 1
  {
    if n == 0 then 1 else 2 * Pow2(n - 1)
  }

  datatype Shape = Shape(rows: nat, merge: nat, expansion: nat)

  /** Rows merged and seeds disclosed. */
  datatype Pick = Pick(chosen: nat, seeds: nat)

  /** Cost and disclosed values once `chosen` rows are merged and `seeds` seeds disclosed. */
  function Key(g: Shape, p: Pick): Exponent
    requires p.chosen <= g.rows && p.seeds <= SEEDS
  {
    Exponent(Times(p.chosen, g.merge) + Times(p.seeds, g.expansion),
             g.rows - p.chosen + p.seeds + Times(p.chosen, SEEDS - p.seeds))
  }

  function NoneMerged(g: Shape): Exponent {
    Exponent(0, g.rows)
  }

  function AllDerived(g: Shape): Exponent {
    Exponent(Times(g.rows, g.merge) + Times(SEEDS, g.expansion), SEEDS)
  }

  ghost predicate InGrid(g: Shape, p: Pick) {
    1 <= p.chosen <= g.rows && p.seeds < SEEDS
  }

  ghost function Grid(g: Shape): set<Pick> {
    set c, s | 1 <= c <= g.rows && 0 <= s < SEEDS :: Pick(c, s)
  }

  ghost function Ways(g: Shape, p: Pick, e: Exponent): nat {
    if InGrid(g, p) && Key(g, p) == e then Times(Comb(g.rows, p.chosen), Comb(SEEDS, p.seeds)) else 0
  }

  ghost function WaysTerm(g: Shape, e: Exponent): Pick -> nat {
    p => Ways(g, p, e)
  }

  function One(b: bool): nat {
    if b then 1 else 0
  }

  /** The two entries of the initial dictionary. */
  function Fixed(g: Shape, e: Exponent): nat {
    One(e == NoneMerged(g)) + One(e == AllDerived(g))
  }

  lemma WaysStep(g: Shape, done: set<Pick>, p: Pick, e: Exponent)
    requires p !in done && InGrid(g, p)
    ensures SumOver(done + {p}, WaysTerm(g, e)) == SumOver(done, WaysTerm(g, e)) +
            if e == Key(g, p) then Times(Comb(g.rows, p.chosen), Comb(SEEDS, p.seeds)) else 0
  {
    SumAdd(done, WaysTerm(g, e), p);
  }

  ghost predicate Holds(g: Shape, m: Poly, done: set<Pick>) {
    forall e :: Coeff(m, e) == Fixed(g, e) + SumOver(done, WaysTerm(g, e))
  }

  /** Every exponent is one of the two initial ones or comes from the grid. */
  ghost predicate KeysFrom(g: Shape, m: Poly) {
    forall x :: x in m ==> x == NoneMerged(g) || x == AllDerived(g) || exists p :: InGrid(g, p) && Key(g, p) == x
  }

  method AddPick(g: Shape, p: Pick, before: Poly, ghost done: set<Pick>) returns (result: Poly)
    requires InGrid(g, p) && p !in done
    requires Holds(g, before, done) && KeysFrom(g, before)
    ensures Holds(g, result, done + {p}) && KeysFrom(g, result)
  {
    var key := Key(g, p);
    result := before[key := Coeff(before, key) + Times(Comb(g.rows, p.chosen), Comb(SEEDS, p.seeds))];
    forall e {
      WaysStep(g, done, p, e);
    }
  }

  ghost function DonePicks(chosen: nat, seeds: nat): set<Pick> {
    (set c, s | 1 <= c < chosen && 0 <= s < SEEDS :: Pick(c, s)) + (set s | 0 <= s < seeds :: Pick(chosen, s))
  }

  lemma DoneNext(chosen: nat, seeds: nat)
    requires seeds < SEEDS && chosen >= 1
    ensures DonePicks(chosen, seeds + 1) == DonePicks(chosen, seeds) + {Pick(chosen, seeds)}
    ensures Pick(chosen, seeds) !in DonePicks(chosen, seeds)
    ensures DonePicks(chosen + 1, 0) == DonePicks(chosen, SEEDS)
  {
  }

  method Build(g: Shape) returns (result: Poly)
    requires g.merge >= 1
    ensures CountsDisclosures(g, result)
    ensures CountsCuts(g, result) && KeysFrom(g, result)
  {
    assert g.rows >= 1 ==> Times(g.rows, g.merge) >= 1 by {
      TimesSum(g.rows, 1, g.merge - 1);
      assert Times(g.rows, 1) == g.rows;
    }
    assert NoneMerged(g) != AllDerived(g);
    result := map[NoneMerged(g) := 1, AllDerived(g) := 1];
    for chosen := 1 to g.rows + 1
      invariant Holds(g, result, DonePicks(chosen, 0)) && KeysFrom(g, result)
    {
      for seeds := 0 to SEEDS
        invariant Holds(g, result, DonePicks(chosen, seeds)) && KeysFrom(g, result)
      {
        DoneNext(chosen, seeds);
        result := AddPick(g, Pick(chosen, seeds), result, DonePicks(chosen, seeds));
      }
      DoneNext(chosen, SEEDS - 1);
    }
    assert DonePicks(g.rows + 1, 0) == Grid(g);
    forall e ensures Coeff(result, e) == |CutsAt(g, e)| + Fixed(g, e) {
      HoldsCuts(g, result, e);
    }
    AllDisclosures(g, result);
  }

  // ----- The cuts the coefficients count -----

  /** For each row whether it is merged, and for each seed whether it is disclosed. */
  datatype Cut = Cut(rows: seq<bool>, seeds: seq<bool>)

  ghost function Prepended(b: bool, ms: set<seq<bool>>): set<seq<bool>> {
    set m | m in ms :: [b] + m
  }

  ghost function Masks(n: nat): set<seq<bool>> {
    if n == 0 then {[]} else Prepended(false, Masks(n - 1)) + Prepended(true, Masks(n - 1))
  }

  ghost function Weight(m: seq<bool>): nat {
    if m == [] then 0 else (if m[0] then 1 else 0) + Weight(m[1..])
  }

  ghost function OfWeight(ms: set<seq<bool>>, k: int): set<seq<bool>> {
    set m | m in ms && Weight(m) == k
  }

  lemma {:induction false} MasksAre(n: nat, m: seq<bool>)
    ensures m in Masks(n) <==> |m| == n
  {
    if n > 0 && m != [] {
      var b, t := m[0], m[1..];
      assert m == [b] + t;
      MasksAre(n - 1, t);
      if t in Masks(n - 1) {
        assert m in Prepended(b, Masks(n - 1));
      }
      if m in Masks(n) {
        var b', t' :| t' in Masks(n - 1) && m == [b'] + t';
        assert t == t';
      }
    }
  }

  lemma {:induction false} WeightBound(m: seq<bool>)
    ensures Weight(m) <= |m|
  {
    if m != [] {
      WeightBound(m[1..]);
    }
  }

  lemma {:induction false} PrependedSize(b: bool, ms: set<seq<bool>>)
    ensures |Prepended(b, ms)| == |ms|
  {
    if ms != {} {
      var m :| m in ms;
      PrependedSize(b, ms - {m});
      assert Prepended(b, ms) == Prepended(b, ms - {m}) + {[b] + m};
      assert forall t :: [b] + t == [b] + m ==> t == ([b] + t)[1..] == m;
    }
  }

  lemma WeightPrepend(b: bool, m: seq<bool>)
    ensures Weight([b] + m) == (if b then 1 else 0) + Weight(m)
  {
    assert ([b] + m)[1..] == m;
  }

  lemma OfWeightPrepended(b: bool, ms: set<seq<bool>>, k: int)
    ensures OfWeight(Prepended(b, ms), k) == Prepended(b, OfWeight(ms, k - if b then 1 else 0))
  {
    forall m | m in ms {
      WeightPrepend(b, m);
    }
  }

  /** There are Comb(n, k) ways to choose k of n rows. */
  lemma {:induction false} MasksOfWeight(n: nat, k: int)
    ensures |OfWeight(Masks(n), k)| == if k < 0 then 0 else Comb(n, k)
  {
    if n == 0 {
      assert OfWeight(Masks(0), k) == if k == 0 then {[]} else {};
    } else {
      MasksOfWeight(n - 1, k);
      MasksOfWeight(n - 1, k - 1);
      OfWeightSplit(Masks(n - 1), k);
      CombZero(n - 1);
    }
  }

  lemma OfWeightSplit(ms: set<seq<bool>>, k: int)
    ensures |OfWeight(Prepended(false, ms) + Prepended(true, ms), k)| == |OfWeight(ms, k)| + |OfWeight(ms, k - 1)|
  {
    OfWeightPrepended(false, ms, k);
    OfWeightPrepended(true, ms, k);
    assert OfWeight(Prepended(false, ms) + Prepended(true, ms), k) ==
           Prepended(false, OfWeight(ms, k)) + Prepended(true, OfWeight(ms, k - 1));
    BothPrependedSize(OfWeight(ms, k), OfWeight(ms, k - 1));
  }

  lemma BothPrependedSize(ms: set<seq<bool>>, ns: set<seq<bool>>)
    ensures |Prepended(false, ms) + Prepended(true, ns)| == |ms| + |ns|
  {
    var a, b := Prepended(false, ms), Prepended(true, ns);
    assert forall m :: m in a ==> m[0] == false;
    assert forall m :: m in b ==> m[0] == true;
    DisjointSize(a, b);
    PrependedSize(false, ms);
    PrependedSize(true, ns);
  }

  lemma CombZero(n: nat)
    ensures Comb(n, 0) == 1
  {
  }

  lemma {:induction false} MasksSize(n: nat)
    ensures |Masks(n)| == Pow2(n)
  {
    if n > 0 {
      MasksSize(n - 1);
      BothPrependedSize(Masks(n - 1), Masks(n - 1));
    }
  }

  ghost function Pairs(ms: set<seq<bool>>, ss: set<seq<bool>>): set<Cut> {
    set m, s | m in ms && s in ss :: Cut(m, s)
  }

  lemma {:induction false} PairsOneSize(ms: set<seq<bool>>, s: seq<bool>)
    ensures |Pairs(ms, {s})| == |ms|
  {
    if ms == {} {
      assert Pairs(ms, {s}) == {};
    } else {
      var m :| m in ms;
      PairsOneSize(ms - {m}, s);
      assert Pairs(ms, {s}) == Pairs(ms - {m}, {s}) + {Cut(m, s)};
    }
  }

  lemma {:induction false} PairsSize(ms: set<seq<bool>>, ss: set<seq<bool>>)
    ensures |Pairs(ms, ss)| == Times(|ms|, |ss|)
    decreases ss
  {
    if ss == {} {
      assert Pairs(ms, ss) == {};
    } else {
      var s :| s in ss;
      PairsSize(ms, ss - {s});
      PairsOneSize(ms, s);
      assert Pairs(ms, ss) == Pairs(ms, ss - {s}) + Pairs(ms, {s});
      DisjointSize(Pairs(ms, ss - {s}), Pairs(ms, {s}));
      assert |ss| == |ss - {s}| + 1;
      TimesSum(|ms|, |ss - {s}|, 1);
    }
  }

  ghost function PickOf(cut: Cut): Pick {
    Pick(Weight(cut.rows), Weight(cut.seeds))
  }

  /** One amount for every item the mask marks, another for every item it does not. */
  function Tally(mask: seq<bool>, marked: nat, unmarked: nat): nat {
    if mask == [] then 0 else (if mask[0] then marked else unmarked) + Tally(mask[1..], marked, unmarked)
  }

  lemma {:induction false} TallyIs(mask: seq<bool>, marked: nat, unmarked: nat)
    ensures Weight(mask) <= |mask|
    ensures Tally(mask, marked, unmarked) == Times(Weight(mask), marked) + Times(|mask| - Weight(mask), unmarked)
  {
    if mask != [] {
      var w, rest := Weight(mask[1..]), |mask| - 1;
      TallyIs(mask[1..], marked, unmarked);
      TimesSum(marked, w, 1);
      TimesSum(unmarked, rest - w, 1);
    }
  }

  /** A merged row costs one merge, a disclosed seed one expansion. */
  function CutCost(g: Shape, cut: Cut): nat {
    Tally(cut.rows, g.merge, 0) + Tally(cut.seeds, g.expansion, 0)
  }

  /** A merged row shows one leaf per hidden seed, any other row its own value, a disclosed seed itself. */
  function CutValues(cut: Cut): nat {
    Tally(cut.rows, Tally(cut.seeds, 0, 1), 1) + Tally(cut.seeds, 1, 0)
  }

  /** The key that counts a cut is what the cut costs and shows, row by row and seed by seed. */
  lemma KeyOfCut(g: Shape, cut: Cut)
    requires |cut.rows| == g.rows && |cut.seeds| == SEEDS
    ensures Weight(cut.rows) <= g.rows && Weight(cut.seeds) <= SEEDS
    ensures Key(g, PickOf(cut)) == Exponent(CutCost(g, cut), CutValues(cut))
  {
    TallyIs(cut.seeds, 0, 1);
    TallyIs(cut.seeds, 1, 0);
    TallyIs(cut.seeds, g.expansion, 0);
    TallyIs(cut.rows, g.merge, 0);
    TallyIs(cut.rows, SEEDS - Weight(cut.seeds), 1);
    assert forall n: nat :: Times(n, 0) == 0 && Times(n, 1) == n;
  }

  /** The cuts that merge at least one row and leave at least one seed undisclosed. */
  ghost function Cuts(g: Shape): set<Cut> {
    set cut | cut in Pairs(Masks(g.rows), Masks(SEEDS)) && InGrid(g, PickOf(cut))
  }

  ghost function CutsAt(g: Shape, e: Exponent): set<Cut> {
    set cut | cut in Cuts(g) && Key(g, PickOf(cut)) == e
  }

  ghost function CutsPicked(cuts: set<Cut>, d: set<Pick>): set<Cut> {
    set cut | cut in cuts && PickOf(cut) in d
  }

  lemma CutsPickedOne(g: Shape, e: Exponent, p: Pick)
    requires InGrid(g, p)
    ensures |CutsPicked(CutsAt(g, e), {p})| == Ways(g, p, e)
  {
    var ms, ss := OfWeight(Masks(g.rows), p.chosen), OfWeight(Masks(SEEDS), p.seeds);
    if Key(g, p) == e {
      assert CutsPicked(CutsAt(g, e), {p}) == Pairs(ms, ss);
      PairsSize(ms, ss);
      MasksOfWeight(g.rows, p.chosen);
      MasksOfWeight(SEEDS, p.seeds);
    } else {
      assert CutsPicked(CutsAt(g, e), {p}) == {};
    }
  }

  lemma {:induction false} CutsPickedSum(g: Shape, e: Exponent, d: set<Pick>)
    requires forall p :: p in d ==> InGrid(g, p)
    ensures |CutsPicked(CutsAt(g, e), d)| == SumOver(d, WaysTerm(g, e))
    decreases d
  {
    var cuts := CutsAt(g, e);
    if d == {} {
      assert CutsPicked(cuts, d) == {};
    } else {
      var p :| p in d;
      CutsPickedSum(g, e, d - {p});
      SumRemove(d, WaysTerm(g, e), p);
      CutsPickedOne(g, e, p);
      CutsPickedRemove(cuts, d, p);
    }
  }

  lemma CutsPickedRemove(cuts: set<Cut>, d: set<Pick>, p: Pick)
    requires p in d
    ensures |CutsPicked(cuts, d)| == |CutsPicked(cuts, d - {p})| + |CutsPicked(cuts, {p})|
  {
    assert CutsPicked(cuts, d) == CutsPicked(cuts, d - {p}) + CutsPicked(cuts, {p});
    DisjointSize(CutsPicked(cuts, d - {p}), CutsPicked(cuts, {p}));
  }

  /** What the finished dictionary counts. */
  ghost predicate CountsCuts(g: Shape, m: Poly) {
    forall e :: Coeff(m, e) == |CutsAt(g, e)| + Fixed(g, e)
  }

  /** The grid of binomial products counts the cuts at each exponent, and the two fixed disclosures. */
  lemma HoldsCuts(g: Shape, m: Poly, e: Exponent)
    requires Holds(g, m, Grid(g))
    ensures Coeff(m, e) == |CutsAt(g, e)| + Fixed(g, e)
  {
    CutsPickedSum(g, e, Grid(g));
    forall cut | cut in CutsAt(g, e) ensures PickOf(cut) in Grid(g) {
      assert PickOf(cut) == Pick(Weight(cut.rows), Weight(cut.seeds));
    }
    assert CutsPicked(CutsAt(g, e), Grid(g)) == CutsAt(g, e);
  }

  // ----- All disclosures of the block -----

  /**
   A disclosure merges some rows and shows some seeds, or merges no row and shows no seed, or merges
   every row and shows every seed.
   */
  predicate IsDisclosure(g: Shape, cut: Cut) {
    && |cut.rows| == g.rows && |cut.seeds| == 4
    && (|| (true in cut.rows && false in cut.seeds)
        || (true !in cut.rows && true !in cut.seeds)
        || (false !in cut.rows && false !in cut.seeds))
  }

  ghost function DisclosuresAt(g: Shape, e: Exponent): set<Cut> {
    set cut | cut in Pairs(Masks(g.rows), Masks(4)) && IsDisclosure(g, cut) && CutCost(g, cut) == e.cost &&
              CutValues(cut) == e.values
  }

  /** Every coefficient is the number of disclosures that cost and show that much. */
  ghost predicate CountsDisclosures(g: Shape, m: Poly) {
    forall e :: Coeff(m, e) == |DisclosuresAt(g, e)|
  }

  lemma DisclosuresAtAre(g: Shape, e: Exponent, cut: Cut)
    ensures cut in DisclosuresAt(g, e) <==>
            IsDisclosure(g, cut) && CutCost(g, cut) == e.cost && CutValues(cut) == e.values
  {
    MasksAre(g.rows, cut.rows);
    MasksAre(4, cut.seeds);
    assert cut == Cut(cut.rows, cut.seeds);
  }

  function Uniform(n: nat, b: bool): seq<bool> {
    seq(n, _ => b)
  }

  function NoCut(g: Shape): Cut {
    Cut(Uniform(g.rows, false), Uniform(4, false))
  }

  function FullCut(g: Shape): Cut {
    Cut(Uniform(g.rows, true), Uniform(4, true))
  }

  lemma {:induction false} WeightExtremes(m: seq<bool>)
    ensures Weight(m) <= |m|
    ensures Weight(m) == 0 <==> true !in m
    ensures Weight(m) == |m| <==> false !in m
  {
    if m != [] {
      WeightExtremes(m[1..]);
      assert m == [m[0]] + m[1..];
    }
  }

  lemma UniformOnly(m: seq<bool>, b: bool)
    ensures !b !in m <==> m == Uniform(|m|, b)
  {
    if !b !in m {
      forall i | 0 <= i < |m| ensures m[i] == b {
        assert m[i] in m;
      }
    }
  }

  lemma NoCutExponent(g: Shape)
    ensures Exponent(CutCost(g, NoCut(g)), CutValues(NoCut(g))) == NoneMerged(g)
  {
    var rows, seeds := Uniform(g.rows, false), Uniform(4, false);
    WeightExtremes(rows);
    WeightExtremes(seeds);
    TallyIs(rows, g.merge, 0);
    TallyIs(seeds, g.expansion, 0);
    TallyIs(seeds, 0, 1);
    TallyIs(seeds, 1, 0);
    TallyIs(rows, Tally(seeds, 0, 1), 1);
    assert forall n: nat :: Times(n, 0) == 0 == Times(0, n) && Times(n, 1) == n;
  }

  lemma FullCutExponent(g: Shape)
    ensures Exponent(CutCost(g, FullCut(g)), CutValues(FullCut(g))) == AllDerived(g)
  {
    var rows, seeds := Uniform(g.rows, true), Uniform(4, true);
    WeightExtremes(rows);
    WeightExtremes(seeds);
    TallyIs(rows, g.merge, 0);
    TallyIs(seeds, g.expansion, 0);
    TallyIs(seeds, 0, 1);
    TallyIs(seeds, 1, 0);
    TallyIs(rows, Tally(seeds, 0, 1), 1);
    assert forall n: nat :: Times(n, 0) == 0 == Times(0, n) && Times(n, 1) == n;
  }

  ghost function ExtremesAt(g: Shape, e: Exponent): set<Cut> {
    (if e == NoneMerged(g) then {NoCut(g)} else {}) + (if e == AllDerived(g) then {FullCut(g)} else {})
  }

  lemma ExtremesSize(g: Shape, e: Exponent)
    ensures |ExtremesAt(g, e)| == Fixed(g, e)
  {
    assert NoCut(g).seeds[0] != FullCut(g).seeds[0];
    assert NoCut(g) != FullCut(g);
  }

  lemma CutsAtAre(g: Shape, e: Exponent, cut: Cut)
    ensures cut in CutsAt(g, e) <==>
            && |cut.rows| == g.rows && |cut.seeds| == 4 && true in cut.rows && false in cut.seeds
            && CutCost(g, cut) == e.cost && CutValues(cut) == e.values
  {
    MasksAre(g.rows, cut.rows);
    MasksAre(SEEDS, cut.seeds);
    assert cut == Cut(cut.rows, cut.seeds);
    WeightExtremes(cut.rows);
    WeightExtremes(cut.seeds);
    if |cut.rows| == g.rows && |cut.seeds| == SEEDS {
      KeyOfCut(g, cut);
    }
  }

  lemma ExtremesAre(g: Shape, e: Exponent, cut: Cut)
    ensures cut in ExtremesAt(g, e) <==>
            && |cut.rows| == g.rows && |cut.seeds| == 4
            && ((true !in cut.rows && true !in cut.seeds) || (false !in cut.rows && false !in cut.seeds))
            && CutCost(g, cut) == e.cost && CutValues(cut) == e.values
  {
    NoCutExponent(g);
    FullCutExponent(g);
    UniformOnly(cut.rows, true);
    UniformOnly(cut.rows, false);
    UniformOnly(cut.seeds, true);
    UniformOnly(cut.seeds, false);
    assert cut == Cut(cut.rows, cut.seeds);
    assert e == Exponent(e.cost, e.values);
  }

  lemma DisclosuresSplit(g: Shape, e: Exponent)
    ensures DisclosuresAt(g, e) == CutsAt(g, e) + ExtremesAt(g, e) && CutsAt(g, e) !! ExtremesAt(g, e)
  {
    forall cut ensures cut in DisclosuresAt(g, e) <==> cut in CutsAt(g, e) + ExtremesAt(g, e)
               ensures !(cut in CutsAt(g, e) && cut in ExtremesAt(g, e))
    {
      DisclosuresAtAre(g, e, cut);
      CutsAtAre(g, e, cut);
      ExtremesAre(g, e, cut);
    }
  }

  /** The two initial entries are disclosures like the others; the coefficients count them all. */
  lemma AllDisclosures(g: Shape, m: Poly)
    requires CountsCuts(g, m)
    ensures CountsDisclosures(g, m)
  {
    forall e ensures Coeff(m, e) == |DisclosuresAt(g, e)| {
      DisclosuresSplit(g, e);
      DisjointSize(CutsAt(g, e), ExtremesAt(g, e));
      ExtremesSize(g, e);
    }
  }

  // ----- Conservation and bounds -----

  ghost function CoeffTerm(m: Poly): Exponent -> nat {
    e => Coeff(m, e)
  }

  ghost function CutsKeyed(g: Shape, d: set<Exponent>): set<Cut> {
    set cut | cut in Cuts(g) && Key(g, PickOf(cut)) in d
  }

  lemma {:induction false} KeyedSum(g: Shape, m: Poly, d: set<Exponent>)
    requires CountsCuts(g, m)
    ensures SumOver(d, CoeffTerm(m)) == |CutsKeyed(g, d)| + One(NoneMerged(g) in d) + One(AllDerived(g) in d)
    decreases d
  {
    if d == {} {
      assert CutsKeyed(g, d) == {};
    } else {
      var e :| e in d;
      KeyedSum(g, m, d - {e});
      SumRemove(d, CoeffTerm(m), e);
      CutsKeyedRemove(g, d, e);
      OneRemove(d, e, NoneMerged(g));
      OneRemove(d, e, AllDerived(g));
    }
  }

  lemma OneRemove(d: set<Exponent>, e: Exponent, x: Exponent)
    requires e in d
    ensures One(x in d) == One(x in d - {e}) + One(e == x)
  {
  }

  lemma CutsKeyedRemove(g: Shape, d: set<Exponent>, e: Exponent)
    requires e in d
    ensures |CutsKeyed(g, d)| == |CutsKeyed(g, d - {e})| + |CutsAt(g, e)|
  {
    assert CutsKeyed(g, d) == CutsKeyed(g, d - {e}) + CutsAt(g, e);
    DisjointSize(CutsKeyed(g, d - {e}), CutsAt(g, e));
  }

  lemma MasksOtherThan(n: nat, k: nat)
    requires k <= n && Comb(n, k) == 1
    ensures |Masks(n) - OfWeight(Masks(n), k)| == Pow2(n) - 1
  {
    MasksOfWeight(n, k);
    MasksSize(n);
    assert Masks(n) == OfWeight(Masks(n), k) + (Masks(n) - OfWeight(Masks(n), k));
    DisjointSize(OfWeight(Masks(n), k), Masks(n) - OfWeight(Masks(n), k));
  }

  lemma WeightWithin(n: nat, m: seq<bool>)
    requires m in Masks(n)
    ensures Weight(m) <= n
  {
    MasksAre(n, m);
    WeightBound(m);
  }

  lemma CutsArePairs(g: Shape)
    ensures Cuts(g) == Pairs(Masks(g.rows) - OfWeight(Masks(g.rows), 0), Masks(SEEDS) - OfWeight(Masks(SEEDS), SEEDS))
  {
    forall m | m in Masks(g.rows) {
      WeightWithin(g.rows, m);
    }
    forall s | s in Masks(SEEDS) {
      WeightWithin(SEEDS, s);
    }
  }

  lemma CutsSize(g: Shape)
    ensures |Cuts(g)| == Times(Pow2(g.rows) - 1, 15)
  {
    CutsArePairs(g);
    PairsSize(Masks(g.rows) - OfWeight(Masks(g.rows), 0), Masks(SEEDS) - OfWeight(Masks(SEEDS), SEEDS));
    CombZero(g.rows);
    MasksOtherThan(g.rows, 0);
    FourSeeds();
    MasksOtherThan(SEEDS, SEEDS);
  }

  lemma FourSeeds()
    ensures Comb(4, 4) == 1 && Pow2(4) == 16
  {
    assert Comb(1, 1) == 1 && Comb(2, 2) == 1 && Comb(3, 3) == 1;
    assert Pow2(2) == 4;
  }

  /** Colliding keys merge their counts: nothing is lost or counted twice. */
  lemma Conservation(g: Shape, m: Poly)
    requires CountsCuts(g, m)
    ensures SumOver(m.Keys, CoeffTerm(m)) == 2 + Times(Pow2(g.rows) - 1, 15)
  {
    KeyedSum(g, m, m.Keys);
    forall e ensures CutsAt(g, e) != {} || Fixed(g, e) > 0 ==> e in m.Keys {
      if cut :| cut in CutsAt(g, e) {
        assert |CutsAt(g, e)| > 0;
      }
    }
    forall cut | cut in Cuts(g) ensures Key(g, PickOf(cut)) in m.Keys {
      assert cut in CutsAt(g, Key(g, PickOf(cut)));
    }
    assert CutsKeyed(g, m.Keys) == Cuts(g);
    CutsSize(g);
  }

  lemma TimesMonotone(a: nat, b: nat, c: nat)
    requires a <= b
    ensures Times(a, c) <= Times(b, c) && Times(c, a) <= Times(c, b)
  {
    TimesSum(c, a, b - a);
  }

  lemma KeyWithin(g: Shape, p: Pick)
    requires InGrid(g, p)
    ensures Key(g, p).cost <= AllDerived(g).cost
    ensures g.rows <= Key(g, p).values <= SEEDS * g.rows
  {
    TimesMonotone(p.chosen, g.rows, g.merge);
    TimesMonotone(p.seeds, SEEDS, g.expansion);
    KeyValues(g.rows, p.chosen, p.seeds, Times(p.chosen, SEEDS - p.seeds));
  }

  lemma KeyValues(rows: nat, chosen: nat, seeds: nat, leaves: nat)
    requires 1 <= chosen <= rows && seeds < 4 && leaves == chosen * (4 - seeds)
    ensures rows <= rows - chosen + seeds + leaves <= 4 * rows
  {
    assert seeds == 0 || seeds == 1 || seeds == 2 || seeds == 3;
  }

  /** No entry costs more than merging every row after expanding every seed. */
  lemma EntriesWithin(g: Shape, m: Poly)
    requires KeysFrom(g, m) && g.rows >= 1
    ensures ExponentsWithin(m, Times(g.rows, g.merge) + Times(4, g.expansion), 1, 4 * g.rows)
  {
    forall x | x in m ensures x.cost <= AllDerived(g).cost && 1 <= x.values <= SEEDS * g.rows {
      if p :| InGrid(g, p) && Key(g, p) == x {
        KeyWithin(g, p);
      }
    }
  }
}
