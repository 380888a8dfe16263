/**
 What the experiment driver is asked and what a true answer is, in terms of the disclosures of the
 graphs: nothing here mentions how the driver computes it.
 */
module Disclosures {
  import opened Counting
  import opened Frontier
  import SharedRows
  import opened Wrappers

  datatype Profile = Paper | Rom32 | Rom32Input64

  datatype Name = Chains | Branching | Pairs | Four

  datatype Selection = ByProduct | ByVerification | ByAdditive | FrontierOnly

  datatype Request = Request(profile: Profile, bits: int, maxValues: int, selection: Selection,
                             includeFrontier: bool, price: Option<real>)

  datatype Row = Row(
    family: Name, keygen: nat, selected: Option<Candidate>, found: bool, frontier: Option<seq<Candidate>>)

  // ----- Oracle units -----

  /** This many units hold the 16-byte blocks; both ROM profiles add a 16-byte address. */
  predicate Fits(profile: Profile, blocks: nat, units: nat) {
    match profile
    case Paper => blocks <= 4 * units
    case Rom32 => 16 + 16 * blocks <= 32 * units
    case Rom32Input64 => 16 + 16 * blocks <= 64 * units
  }

  /** The least number of units that hold the blocks. */
  predicate IsCost(profile: Profile, blocks: nat, units: nat) {
    Fits(profile, blocks, units) && units > 0 && !Fits(profile, blocks, units - 1)
  }

  // ----- The components of the four graphs -----

  /** A chain of this many steps is disclosed at one of its positions, one value each. */
  ghost predicate IsChain(p: Poly, steps: nat) {
    forall e :: Coeff(p, e) == if e.values == 1 && e.cost <= steps then 1 else 0
  }

  /** The choices of `j` leaves out of four, recomputed from below a merge. */
  ghost function LeavesAt(merge: nat, e: Exponent): set<seq<bool>> {
    set m | m in SharedRows.Masks(4) && e.values == 4 && merge + SharedRows.Weight(m) == e.cost
  }

  /** The component is disclosed by its one value, or by four leaves of which some are recomputed. */
  ghost predicate IsTree(p: Poly, merge: nat) {
    forall e :: Coeff(p, e) == (if e == Exponent(0, 1) then 1 else 0) + |LeavesAt(merge, e)|
  }

  /** The component is disclosed by its one value, or one merge above an inner disclosure. */
  ghost predicate IsMergeOver(p: Poly, merge: nat, inner: seq<Poly>) {
    forall e :: Coeff(p, e) ==
      (if e == Exponent(0, 1) then 1 else 0) +
      (if e.cost >= merge then Count(inner, Exponent(e.cost - merge, e.values)) else 0)
  }

  ghost predicate IsBlock(profile: Profile, merge: nat, rows: nat, p: Poly) {
    SharedRows.CountsDisclosures(
      SharedRows.Shape(rows, merge, if profile == Paper then 1 else (rows + 1) / 2), p)
  }

  /** A merge over two independent blocks of two rows. */
  ghost predicate IsPair(profile: Profile, merge: nat, p: Poly) {
    exists block :: IsBlock(profile, merge, 2, block) && IsMergeOver(p, merge, [block, block])
  }

  /** A merge over one block of four rows. */
  ghost predicate IsQuad(profile: Profile, merge: nat, p: Poly) {
    exists block :: IsBlock(profile, merge, 4, block) && IsMergeOver(p, merge, [block])
  }

  /** The components of each graph, one dictionary per component. */
  ghost predicate IsGraph(name: Name, profile: Profile, merge: nat, ps: seq<Poly>) {
    match name
    case Chains => |ps| == 116 && forall i :: 0 <= i < 116 ==> IsChain(ps[i], if i < 23 then 2 else 1)
    case Branching => |ps| == 32 && forall i :: 0 <= i < 32 ==> IsTree(ps[i], merge)
    case Pairs => |ps| == 12 && forall i :: 0 <= i < 12 ==> IsPair(profile, merge, ps[i])
    case Four => |ps| == 18 && forall i :: 0 <= i < 18 ==> IsQuad(profile, merge, ps[i])
  }

  /** What computing the whole graph below its roots costs. */
  function GraphCost(name: Name, profile: Profile, merge: nat): nat {
    match name
    case Chains => 139
    case Branching => 32 * (4 + merge)
    case Pairs => 12 * (8 + 5 * merge)
    case Four => 18 * ((if profile == Paper then 4 else 8) + 5 * merge)
  }

  function Roots(name: Name): nat {
    match name
    case Chains => 116
    case Branching => 32
    case Pairs => 12
    case Four => 18
  }

  // ----- A true row -----

  /** The parameters of one search: the components, and the prices of a merge and of the root. */
  datatype Search = Search(ps: seq<Poly>, merge: nat, root: nat)

  ghost predicate Reaches(q: Request, x: Search, cost: nat, cap: int)
    requires q.bits >= 0
  {
    Eligible(x.ps, cost, cap) >= |SharedRows.Masks(q.bits)|
  }

  /** At this cost `c` discloses the fewest values for which 2^bits disclosures exist. */
  ghost predicate Describes(q: Request, x: Search, cost: nat, c: Candidate)
    requires q.bits >= 0
  {
    && c.reconstruction == cost + x.root
    && c.verification == cost + x.root + x.merge
    && 1 <= c.cap <= q.maxValues
    && c.size == 16 * c.cap + 32
    && c.eligible == Eligible(x.ps, cost, c.cap)
    && Reaches(q, x, cost, c.cap) && !Reaches(q, x, cost, c.cap - 1)
  }

  ghost predicate Described(q: Request, x: Search, c: Candidate)
    requires q.bits >= 0
  {
    exists cost: nat :: Describes(q, x, cost, c)
  }

  ghost predicate Listed(q: Request, x: Search, cost: nat, cs: seq<Candidate>)
    requires q.bits >= 0
  {
    exists i :: 0 <= i < |cs| && Describes(q, x, cost, cs[i])
  }

  /** Every cost at which 2^bits disclosures exist is listed, nothing else, in order. */
  ghost predicate ListsReachable(q: Request, x: Search, cs: seq<Candidate>)
    requires q.bits >= 0
  {
    && (forall i :: 0 <= i < |cs| ==> Described(q, x, cs[i]))
    && (forall cost: nat :: Reaches(q, x, cost, q.maxValues) ==> Listed(q, x, cost, cs))
    && (forall i, j :: 0 <= i < j < |cs| ==> cs[i].reconstruction < cs[j].reconstruction)
  }

  /** The objective as written down by the request: product, verification, or price * size + verification. */
  function Measure(q: Request, c: Candidate): real {
    match q.selection
    case ByProduct => (c.verification * c.size) as real
    case ByVerification => c.verification as real
    case ByAdditive => (if q.price.None? then 0.0 else q.price.value * c.size as real) + c.verification as real
    case FrontierOnly => 0.0
  }

  /** Compared by objective, then size, then verification. */
  predicate NoWorse(q: Request, c: Candidate, d: Candidate) {
    var x, y := Measure(q, c), Measure(q, d);
    x < y || (x == y && (c.size < d.size || (c.size == d.size && c.verification <= d.verification)))
  }

  ghost predicate IsBest(q: Request, cs: seq<Candidate>, best: Candidate) {
    best in cs && forall c {:trigger NoWorse(q, best, c)} :: c in cs ==> NoWorse(q, best, c)
  }

  ghost predicate TrueRow(q: Request, x: Search, cs: seq<Candidate>, row: Row)
    requires q.bits >= 0
  {
    && ListsReachable(q, x, cs)
    && (row.found <==> cs != [])
    && (row.selected.Some? <==> cs != [] && q.selection != FrontierOnly)
    && (row.selected.Some? ==> IsBest(q, cs, row.selected.value))
    && (row.frontier.Some? <==> q.includeFrontier || q.selection == FrontierOnly)
    && (row.frontier.Some? ==> IsFrontier(cs, row.frontier.value))
  }

  ghost predicate Answers(q: Request, x: Search, row: Row)
    requires q.bits >= 0
  {
    exists cs :: TrueRow(q, x, cs, row)
  }

  /** The row of one named graph: its disclosures, priced by the request's profile. */
  ghost predicate AnswersFor(q: Request, name: Name, row: Row)
    requires q.bits >= 0
  {
    exists x: Search {:trigger Answers(q, x, row)} ::
      && IsCost(q.profile, 4, x.merge) && IsCost(q.profile, Roots(name), x.root)
      && IsGraph(name, q.profile, x.merge, x.ps)
      && row.family == name
      && row.keygen == GraphCost(name, q.profile, x.merge) + x.root
      && Answers(q, x, row)
  }

  ghost predicate TrueOutput(q: Request, rows: seq<Row>)
    requires q.bits >= 0
  {
    && |rows| == 4
    && AnswersFor(q, Chains, rows[0]) && AnswersFor(q, Branching, rows[1])
    && AnswersFor(q, Pairs, rows[2]) && AnswersFor(q, Four, rows[3])
  }
}
