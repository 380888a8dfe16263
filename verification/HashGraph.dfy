/**
 Hash graphs: gates over 128-bit vertices, the schedule evaluator, its meter and its reference.

 Every oracle query is answered by a function of how many queries came before it and of the query
 itself.  A function that ignores the count is an oracle that answers equal queries equally; the
 metering results hold for all of them, the correctness results for the former.
 */
module HashGraph {
  import opened FiniteSums
  import opened Wrappers

  const SPACE: nat := 0x1_0000_0000_0000_0000_0000_0000_0000_0000

  type Value = v: nat | v < SPACE

  type Byte = b: nat | b < 256

  type Bytes = seq<Byte>

  /** A 256-bit oracle answer. */
  type HashOutput = n: nat | n < SPACE * SPACE

  datatype Vertex = Source(index: nat) | Output(gate: nat, second: bool)

  datatype Gate = Gate(address: Value, inputs: seq<Vertex>)

  datatype Graph = Graph(sources: nat, gates: seq<Gate>, root: Vertex)

  type Values = Vertex -> Option<Value>

  type Answers = (nat, Bytes) -> HashOutput

  // ----- Bytes -----

  function LittleEndian(v: nat, n: nat): Bytes {
    if n == 0 then [] else [v % 256] + LittleEndian(v / 256, n - 1)
  }

  function ValueBytes(v: Value): Bytes {
    LittleEndian(v, 16)
  }

  function FromBytes(bs: Bytes): nat {
    if bs == [] then 0 else bs[0] + 256 * FromBytes(bs[1..])
  }

  function Pow256(n: nat): nat {
    if n == 0 then 1 else 256 * Pow256(n - 1)
  }

  lemma {:induction false} LittleEndianReads(v: nat, n: nat)
    requires v < Pow256(n)
    ensures |LittleEndian(v, n)| == n && FromBytes(LittleEndian(v, n)) == v
  {
    if n > 0 {
      LittleEndianReads(v / 256, n - 1);
      assert LittleEndian(v, n)[1..] == LittleEndian(v / 256, n - 1);
    }
  }

  lemma Pow256Is()
    ensures Pow256(16) == SPACE
  {
    assert Pow256(4) == 0x1_0000_0000;
    assert Pow256(8) == 0x1_0000_0000 * Pow256(4);
    assert Pow256(12) == 0x1_0000_0000 * Pow256(8);
    assert Pow256(16) == 0x1_0000_0000 * Pow256(12);
  }

  /** Sixteen bytes, read back to the value: the encoding is injective. */
  lemma ValueBytesReads(v: Value)
    ensures |ValueBytes(v)| == 16 && FromBytes(ValueBytes(v)) == v
  {
    Pow256Is();
    LittleEndianReads(v, 16);
  }

  // ----- Queries -----

  function Known(known: Values, v: Vertex): Value {
    match known(v) case Some(x) => x case None => 0
  }

  function InputValues(inputs: seq<Vertex>, known: Values): Bytes {
    if inputs == [] then [] else ValueBytes(Known(known, inputs[0])) + InputValues(inputs[1..], known)
  }

  function QueryInput(g: Gate, known: Values): Bytes {
    ValueBytes(g.address) + InputValues(g.inputs, known)
  }

  /** ceil(bytes / 64) */
  function HashWeight(length: nat): nat {
    (length + 63) / 64
  }

  /** The least number of 64-byte units that hold the input. */
  lemma HashWeightLeast(length: nat)
    ensures length <= 64 * HashWeight(length)
    ensures HashWeight(length) > 0 ==> 64 * (HashWeight(length) - 1) < length
  {
  }

  function GateCost(g: Gate): nat {
    HashWeight(16 + 16 * |g.inputs|)
  }

  lemma {:induction false} InputValuesLength(inputs: seq<Vertex>, known: Values)
    ensures |InputValues(inputs, known)| == 16 * |inputs|
  {
    if inputs != [] {
      ValueBytesReads(Known(known, inputs[0]));
      InputValuesLength(inputs[1..], known);
    }
  }

  /** Every query has the length its gate is charged for. */
  lemma QueryLength(g: Gate, known: Values)
    ensures |QueryInput(g, known)| == 16 + 16 * |g.inputs|
    ensures HashWeight(|QueryInput(g, known)|) == GateCost(g) >= 1
  {
    ValueBytesReads(g.address);
    InputValuesLength(g.inputs, known);
  }

  lemma {:induction false} InputAt(inputs: seq<Vertex>, known: Values, k: nat)
    requires k < |inputs|
    ensures |InputValues(inputs, known)| == 16 * |inputs|
    ensures FromBytes(InputValues(inputs, known)[16 * k..16 * k + 16]) == Known(known, inputs[k])
  {
    var head, tail := ValueBytes(Known(known, inputs[0])), InputValues(inputs[1..], known);
    InputValuesLength(inputs, known);
    InputValuesLength(inputs[1..], known);
    ValueBytesReads(Known(known, inputs[0]));
    if k == 0 {
      assert InputValues(inputs, known)[0..16] == head;
    } else {
      InputAt(inputs[1..], known, k - 1);
      assert (head + tail)[16 * k..16 * k + 16] == tail[16 * (k - 1)..16 * (k - 1) + 16];
    }
  }

  /** The address in the first 16 bytes, then one 16-byte block per input in order, least significant byte first. */
  lemma QueryLayout(g: Gate, known: Values, k: nat)
    requires k < |g.inputs|
    ensures |QueryInput(g, known)| == 16 + 16 * |g.inputs|
    ensures FromBytes(QueryInput(g, known)[..16]) == g.address
    ensures FromBytes(QueryInput(g, known)[16 + 16 * k..32 + 16 * k]) == Known(known, g.inputs[k])
  {
    var address, values := ValueBytes(g.address), InputValues(g.inputs, known);
    ValueBytesReads(g.address);
    InputAt(g.inputs, known, k);
    assert (address + values)[..16] == address;
    assert (address + values)[16 + 16 * k..32 + 16 * k] == values[16 * k..16 * k + 16];
  }

  function ValuesOf(inputs: seq<Vertex>, known: Values): seq<Value> {
    if inputs == [] then [] else [Known(known, inputs[0])] + ValuesOf(inputs[1..], known)
  }

  lemma SplitBlock(u: Value, v: Value, x: Bytes, y: Bytes)
    ensures ValueBytes(u) + x == ValueBytes(v) + y <==> u == v && x == y
  {
    ValueBytesReads(u);
    ValueBytesReads(v);
    if ValueBytes(u) + x == ValueBytes(v) + y {
      assert ValueBytes(u) == (ValueBytes(u) + x)[..16] == (ValueBytes(v) + y)[..16] == ValueBytes(v);
      assert x == (ValueBytes(u) + x)[16..] == (ValueBytes(v) + y)[16..] == y;
    }
  }

  lemma {:induction false} InputValuesInjective(ins: seq<Vertex>, outs: seq<Vertex>, left: Values, right: Values)
    ensures InputValues(ins, left) == InputValues(outs, right) <==> ValuesOf(ins, left) == ValuesOf(outs, right)
  {
    InputValuesLength(ins, left);
    InputValuesLength(outs, right);
    if ins != [] && outs != [] {
      InputValuesInjective(ins[1..], outs[1..], left, right);
      SplitBlock(Known(left, ins[0]), Known(right, outs[0]),
                 InputValues(ins[1..], left), InputValues(outs[1..], right));
      var u, v := ValuesOf(ins, left), ValuesOf(outs, right);
      assert u[1..] == ValuesOf(ins[1..], left) && v[1..] == ValuesOf(outs[1..], right);
      assert u == [u[0]] + u[1..] && v == [v[0]] + v[1..];
    }
  }

  /** Two queries are equal exactly when their addresses and their lists of input values are. */
  lemma QueryInjective(g: Gate, h: Gate, left: Values, right: Values)
    ensures QueryInput(g, left) == QueryInput(h, right) <==>
            g.address == h.address && ValuesOf(g.inputs, left) == ValuesOf(h.inputs, right)
  {
    SplitBlock(g.address, h.address, InputValues(g.inputs, left), InputValues(h.inputs, right));
    InputValuesInjective(g.inputs, h.inputs, left, right);
  }

  // ----- Well-formed graphs and schedules -----

  predicate AvailableBefore(g: Graph, index: nat, v: Vertex) {
    match v
    case Source(i) => i < g.sources
    case Output(producer, _) => producer < index
  }

  predicate WellFormed(g: Graph) {
    && (forall i, j :: 0 <= i < |g.gates| && 0 <= j < |g.gates[i].inputs| ==>
          AvailableBefore(g, i, g.gates[i].inputs[j]))
    && (forall i, j :: 0 <= i < |g.gates| && 0 <= j < |g.gates| && g.gates[i].address == g.gates[j].address ==> i == j)
    && AvailableBefore(g, |g.gates|, g.root)
  }

  /** In a well-formed graph a query determines the gate that asked it. */
  lemma QueryDeterminesGate(g: Graph, i: nat, j: nat, left: Values, right: Values)
    requires WellFormed(g) && i < |g.gates| && j < |g.gates|
    requires QueryInput(g.gates[i], left) == QueryInput(g.gates[j], right)
    ensures i == j
  {
    QueryInjective(g.gates[i], g.gates[j], left, right);
  }

  predicate IsSchedule(g: Graph, schedule: seq<nat>) {
    forall k :: 0 <= k < |schedule| ==> schedule[k] < |g.gates|
  }

  predicate AllIn(inputs: seq<Vertex>, known: seq<Vertex>) {
    forall k :: 0 <= k < |inputs| ==> inputs[k] in known
  }

  function OutputsOf(i: nat): seq<Vertex> {
    [Output(i, false), Output(i, true)]
  }

  predicate Reconstructs(g: Graph, known: seq<Vertex>, schedule: seq<nat>)
    requires IsSchedule(g, schedule)
    decreases schedule
  {
    if schedule == [] then g.root in known
    else AllIn(g.gates[schedule[0]].inputs, known) && Reconstructs(g, OutputsOf(schedule[0]) + known, schedule[1..])
  }

  // ----- The evaluator -----

  predicate AllPresent(inputs: seq<Vertex>, known: Values) {
    forall k :: 0 <= k < |inputs| ==> known(inputs[k]).Some?
  }

  /** Slot 0 holds the 128 least significant bits, slot 1 the others. */
  function Half(output: HashOutput, second: bool): Value {
    HalfFits(output);
    if second then output / SPACE else output % SPACE
  }

  lemma HalfFits(output: HashOutput)
    ensures output / SPACE < SPACE && output % SPACE < SPACE
  {
  }

  function WriteOutputs(known: Values, index: nat, output: HashOutput): Values {
    (v: Vertex) => if v.Output? && v.gate == index then Some(Half(output, v.second)) else known(v)
  }

  /** What a run returns and the queries it made. */
  datatype Outcome = Outcome(value: Option<Value>, queries: seq<Bytes>)

  /** Run a schedule; `asked` queries were already made.  A missing input stops the run before hashing. */
  function Evaluate(g: Graph, known: Values, schedule: seq<nat>, answers: Answers, asked: nat): Outcome
    requires IsSchedule(g, schedule)
    decreases schedule
  {
    if schedule == [] then Outcome(known(g.root), [])
    else
      var gate := g.gates[schedule[0]];
      if !AllPresent(gate.inputs, known) then Outcome(None, [])
      else
        var query := QueryInput(gate, known);
        var written := WriteOutputs(known, schedule[0], answers(asked, query));
        var rest := Evaluate(g, written, schedule[1..], answers, asked + 1);
        Outcome(rest.value, [query] + rest.queries)
  }

  /** One gate run writes the low half of the answer to its first output and the high half to its second. */
  lemma GateOutputs(g: Graph, known: Values, i: nat, answers: Answers, asked: nat) returns (low: Value, high: Value)
    requires i < |g.gates| && AllPresent(g.gates[i].inputs, known)
    ensures low + SPACE * high == answers(asked, QueryInput(g.gates[i], known))
    ensures Evaluate(g.(root := Output(i, false)), known, [i], answers, asked).value == Some(low)
    ensures Evaluate(g.(root := Output(i, true)), known, [i], answers, asked).value == Some(high)
  {
    var output := answers(asked, QueryInput(g.gates[i], known));
    HalfFits(output);
    low, high := Half(output, false), Half(output, true);
    var written := WriteOutputs(known, i, output);
    assert [i][1..] == [];
    assert written(Output(i, false)) == Some(low) && written(Output(i, true)) == Some(high);
  }

  function Charge(queries: seq<Bytes>): nat {
    if queries == [] then 0 else HashWeight(|queries[0]|) + Charge(queries[1..])
  }

  function ScheduleCost(g: Graph, schedule: seq<nat>): nat
    requires IsSchedule(g, schedule)
  {
    if schedule == [] then 0 else GateCost(g.gates[schedule[0]]) + ScheduleCost(g, schedule[1..])
  }

  // ----- Fail-closed: which vertices are present decides everything but the values -----

  /** The vertices with a value are exactly the listed ones. */
  ghost predicate PresentExactly(known: Values, vertices: seq<Vertex>) {
    forall v :: known(v).Some? <==> v in vertices
  }

  lemma WriteKeepsPresence(known: Values, vertices: seq<Vertex>, i: nat, output: HashOutput)
    requires PresentExactly(known, vertices)
    ensures PresentExactly(WriteOutputs(known, i, output), OutputsOf(i) + vertices)
  {
    var after := WriteOutputs(known, i, output);
    forall v ensures after(v).Some? <==> v in OutputsOf(i) + vertices {
      if v.Output? && v.gate == i {
        assert v == Output(i, false) || v == Output(i, true);
      }
    }
  }

  lemma PresenceIsMembership(known: Values, vertices: seq<Vertex>, inputs: seq<Vertex>)
    requires PresentExactly(known, vertices)
    ensures AllPresent(inputs, known) <==> AllIn(inputs, vertices)
  {
  }

  /** On every stream of answers a run succeeds exactly when the schedule is accepted structurally. */
  lemma {:induction false} EvaluateFailsClosed(g: Graph, known: Values, vertices: seq<Vertex>, schedule: seq<nat>,
                                               answers: Answers, asked: nat)
    requires IsSchedule(g, schedule) && PresentExactly(known, vertices)
    ensures Evaluate(g, known, schedule, answers, asked).value.Some? <==> Reconstructs(g, vertices, schedule)
    decreases schedule
  {
    if schedule != [] {
      var i := schedule[0];
      PresenceIsMembership(known, vertices, g.gates[i].inputs);
      if AllPresent(g.gates[i].inputs, known) {
        var output := answers(asked, QueryInput(g.gates[i], known));
        WriteKeepsPresence(known, vertices, i, output);
        EvaluateFailsClosed(g, WriteOutputs(known, i, output), OutputsOf(i) + vertices,
                            schedule[1..], answers, asked + 1);
      }
    }
  }

  // ----- The meter -----

  ghost function PresentIn(known: Values): iset<Vertex> {
    iset v | known(v).Some?
  }

  ghost predicate AllAmong(inputs: seq<Vertex>, present: iset<Vertex>) {
    forall k :: 0 <= k < |inputs| ==> inputs[k] in present
  }

  /** How many gates run before the first with a missing input; no value is consulted. */
  ghost function RunLength(g: Graph, present: iset<Vertex>, schedule: seq<nat>): (n: nat)
    requires IsSchedule(g, schedule)
    ensures n <= |schedule|
    decreases schedule
  {
    if schedule == [] || !AllAmong(g.gates[schedule[0]].inputs, present) then 0
    else 1 + RunLength(g, present + iset{Output(schedule[0], false), Output(schedule[0], true)}, schedule[1..])
  }

  lemma WriteAddsPresence(known: Values, i: nat, output: HashOutput)
    ensures PresentIn(WriteOutputs(known, i, output)) == PresentIn(known) + iset{Output(i, false), Output(i, true)}
  {
    assert forall v: Vertex :: v.Output? && v.gate == i ==> v == Output(i, false) || v == Output(i, true);
  }

  /** On every stream of answers the charge is the cost of exactly the gates before the first missing input. */
  lemma {:induction false} ChargeExact(g: Graph, known: Values, schedule: seq<nat>, answers: Answers, asked: nat)
    requires IsSchedule(g, schedule)
    ensures Charge(Evaluate(g, known, schedule, answers, asked).queries) ==
            ScheduleCost(g, schedule[..RunLength(g, PresentIn(known), schedule)])
    decreases schedule
  {
    var n := RunLength(g, PresentIn(known), schedule);
    if schedule != [] {
      var i := schedule[0];
      assert AllPresent(g.gates[i].inputs, known) <==> AllAmong(g.gates[i].inputs, PresentIn(known));
      if AllPresent(g.gates[i].inputs, known) {
        var query := QueryInput(g.gates[i], known);
        var output := answers(asked, query);
        var after := WriteOutputs(known, i, output);
        WriteAddsPresence(known, i, output);
        ChargeExact(g, after, schedule[1..], answers, asked + 1);
        QueryLength(g.gates[i], known);
        var rest := Evaluate(g, after, schedule[1..], answers, asked + 1).queries;
        assert ([query] + rest)[1..] == rest;
        assert schedule[..n][1..] == schedule[1..][..n - 1];
      }
    }
  }

  lemma {:induction false} PrefixCost(g: Graph, schedule: seq<nat>, n: nat)
    requires IsSchedule(g, schedule) && n <= |schedule|
    ensures ScheduleCost(g, schedule[..n]) <= ScheduleCost(g, schedule)
    ensures ScheduleCost(g, schedule[..n]) == ScheduleCost(g, schedule) <==> n == |schedule|
  {
    if n == 0 {
      assert schedule[..0] == [];
      if schedule != [] {
        PrefixCost(g, schedule[1..], 0);
      }
    } else {
      PrefixCost(g, schedule[1..], n - 1);
      assert schedule[..n][1..] == schedule[1..][..n - 1];
    }
  }

  /** Never more than the schedule's cost, and exactly that when every gate ran. */
  lemma ChargeBound(g: Graph, known: Values, schedule: seq<nat>, answers: Answers, asked: nat)
    requires IsSchedule(g, schedule)
    ensures Charge(Evaluate(g, known, schedule, answers, asked).queries) <= ScheduleCost(g, schedule)
    ensures Charge(Evaluate(g, known, schedule, answers, asked).queries) == ScheduleCost(g, schedule) <==>
            RunLength(g, PresentIn(known), schedule) == |schedule|
  {
    ChargeExact(g, known, schedule, answers, asked);
    PrefixCost(g, schedule, RunLength(g, PresentIn(known), schedule));
  }

  ghost function CostTerm(g: Graph): nat -> nat {
    (i: nat) => if i < |g.gates| then GateCost(g.gates[i]) else 0
  }

  /** Each gate of a set, once. */
  ghost function ReconstructionCost(g: Graph, needed: set<nat>): nat {
    SumOver(needed, CostTerm(g))
  }

  function Range(low: nat, high: nat): seq<nat>
    decreases high - low
  {
    if high <= low then [] else [low] + Range(low + 1, high)
  }

  /** Every gate once, in index order. */
  function AllGates(g: Graph): seq<nat> {
    Range(0, |g.gates|)
  }

  ghost function KeygenCost(g: Graph): nat {
    ReconstructionCost(g, GatesIn(AllGates(g)))
  }

  ghost function GatesIn(schedule: seq<nat>): set<nat> {
    set i | i in schedule
  }

  predicate NoRepeats(schedule: seq<nat>) {
    forall i, j :: 0 <= i < j < |schedule| ==> schedule[i] != schedule[j]
  }

  lemma {:induction false} DistinctCost(g: Graph, schedule: seq<nat>)
    requires IsSchedule(g, schedule) && NoRepeats(schedule)
    ensures ScheduleCost(g, schedule) == ReconstructionCost(g, GatesIn(schedule))
  {
    if schedule == [] {
      assert GatesIn(schedule) == {};
    } else {
      var i, rest := schedule[0], schedule[1..];
      DistinctCost(g, rest);
      assert schedule == [i] + rest;
      assert GatesIn(schedule) == GatesIn(rest) + {i};
      assert i !in rest;
      SumAdd(GatesIn(rest), CostTerm(g), i);
    }
  }

  /** A schedule without repeats costs no more than generating the whole graph. */
  lemma DistinctWithinKeygen(g: Graph, schedule: seq<nat>)
    requires IsSchedule(g, schedule) && NoRepeats(schedule)
    ensures ScheduleCost(g, schedule) <= KeygenCost(g)
  {
    DistinctCost(g, schedule);
    forall i | i in schedule ensures i in AllGates(g) {
      RangeHolds(0, |g.gates|, i);
    }
    SumSubset(GatesIn(schedule), GatesIn(AllGates(g)), CostTerm(g));
  }

  lemma {:induction false} RangeHolds(low: nat, high: nat, i: nat)
    ensures i in Range(low, high) <==> low <= i < high
    decreases high - low
  {
    if low < high {
      RangeHolds(low + 1, high, i);
    }
  }

  lemma {:induction false} RangeOnce(low: nat, high: nat)
    ensures NoRepeats(Range(low, high))
    decreases high - low
  {
    if low < high {
      RangeOnce(low + 1, high);
      RangeHolds(low + 1, high, low);
    }
  }

  lemma AllGatesSchedule(g: Graph)
    ensures IsSchedule(g, AllGates(g)) && NoRepeats(AllGates(g))
  {
    RangeOnce(0, |g.gates|);
    forall k | 0 <= k < |AllGates(g)| ensures AllGates(g)[k] < |g.gates| {
      RangeHolds(0, |g.gates|, AllGates(g)[k]);
    }
  }

  // ----- Correctness against a reference assignment -----

  type Hash = Bytes -> HashOutput

  type Reference = Vertex -> Value

  /** An oracle that answers equal queries equally. */
  function Steady(h: Hash): Answers {
    (asked, query) => h(query)
  }

  function Lift(reference: Reference): Values {
    v => Some(reference(v))
  }

  ghost predicate AgreesOn(known: Values, vertices: seq<Vertex>, reference: Reference) {
    forall v :: v in vertices ==> known(v) == Some(reference(v))
  }

  function GateOutput(g: Gate, h: Hash, reference: Reference): HashOutput {
    h(QueryInput(g, Lift(reference)))
  }

  /** Every gate of the reference obeys the oracle. */
  ghost predicate Consistent(g: Graph, h: Hash, reference: Reference) {
    forall i, second :: 0 <= i < |g.gates| ==>
      reference(Output(i, second)) == Half(GateOutput(g.gates[i], h, reference), second)
  }

  /** In a consistent reference the two outputs of a gate make up the answer to its query. */
  lemma ReferenceHalves(g: Graph, h: Hash, reference: Reference, i: nat)
    requires Consistent(g, h, reference) && i < |g.gates|
    ensures reference(Output(i, false)) + SPACE * reference(Output(i, true)) ==
            h(QueryInput(g.gates[i], v => Some(reference(v))))
  {
    var output := GateOutput(g.gates[i], h, reference);
    assert reference(Output(i, false)) == Half(output, false) && reference(Output(i, true)) == Half(output, true);
    InputsAgree(g.gates[i].inputs, Lift(reference), v => Some(reference(v)));
  }

  lemma {:induction false} InputsAgree(inputs: seq<Vertex>, left: Values, right: Values)
    requires forall k :: 0 <= k < |inputs| ==> left(inputs[k]) == right(inputs[k])
    ensures InputValues(inputs, left) == InputValues(inputs, right)
  {
    if inputs != [] {
      InputsAgree(inputs[1..], left, right);
    }
  }

  lemma WriteAgrees(g: Graph, h: Hash, reference: Reference, known: Values, vertices: seq<Vertex>, i: nat)
    requires Consistent(g, h, reference) && AgreesOn(known, vertices, reference) && i < |g.gates|
    ensures AgreesOn(WriteOutputs(known, i, GateOutput(g.gates[i], h, reference)), OutputsOf(i) + vertices, reference)
  {
  }

  /** Any accepted schedule over correctly disclosed vertices returns the reference root. */
  lemma {:induction false} ReconstructsReference(g: Graph, h: Hash, reference: Reference, known: Values,
                                                 vertices: seq<Vertex>, schedule: seq<nat>, asked: nat)
    requires IsSchedule(g, schedule) && Consistent(g, h, reference)
    requires AgreesOn(known, vertices, reference) && Reconstructs(g, vertices, schedule)
    ensures Evaluate(g, known, schedule, Steady(h), asked).value == Some(reference(g.root))
    decreases schedule
  {
    if schedule != [] {
      var i := schedule[0];
      InputsAgree(g.gates[i].inputs, known, Lift(reference));
      assert QueryInput(g.gates[i], known) == QueryInput(g.gates[i], Lift(reference));
      var output := GateOutput(g.gates[i], h, reference);
      WriteAgrees(g, h, reference, known, vertices, i);
      ReconstructsReference(g, h, reference, WriteOutputs(known, i, output), OutputsOf(i) + vertices,
                            schedule[1..], asked + 1);
    }
  }

  // ----- The reference exists and is unique -----

  type Sources = nat -> Value

  /** The assignment after the first `n` gates, built from the source values. */
  function Built(g: Graph, h: Hash, sources: Sources, n: nat): Reference
    requires n <= |g.gates|
  {
    if n == 0 then (v: Vertex) => if v.Source? then sources(v.index) else 0
    else
      var before := Built(g, h, sources, n - 1);
      var output := GateOutput(g.gates[n - 1], h, before);
      (v: Vertex) => if v.Output? && v.gate == n - 1 then Half(output, v.second) else before(v)
  }

  lemma {:induction false} BuiltStable(g: Graph, h: Hash, sources: Sources, m: nat, n: nat, v: Vertex)
    requires m <= n <= |g.gates| && AvailableBefore(g, m, v)
    ensures Built(g, h, sources, n)(v) == Built(g, h, sources, m)(v)
    decreases n
  {
    if m < n {
      BuiltStable(g, h, sources, m, n - 1, v);
    }
  }

  lemma BuiltGate(g: Graph, h: Hash, sources: Sources, i: nat, second: bool)
    requires WellFormed(g) && i < |g.gates|
    ensures Built(g, h, sources, |g.gates|)(Output(i, second)) ==
            Half(GateOutput(g.gates[i], h, Built(g, h, sources, |g.gates|)), second)
  {
    var n, v := |g.gates|, Output(i, second);
    var early, late := Built(g, h, sources, i), Built(g, h, sources, n);
    BuiltStable(g, h, sources, i + 1, n, v);
    assert Built(g, h, sources, i + 1)(v) == Half(GateOutput(g.gates[i], h, early), second);
    forall k | 0 <= k < |g.gates[i].inputs|
      ensures Lift(late)(g.gates[i].inputs[k]) == Lift(early)(g.gates[i].inputs[k])
    {
      BuiltStable(g, h, sources, i, n, g.gates[i].inputs[k]);
    }
    InputsAgree(g.gates[i].inputs, Lift(late), Lift(early));
  }

  /** Every well-formed graph has, for each oracle and each choice of source values, a consistent reference. */
  lemma ReferenceExists(g: Graph, h: Hash, sources: Sources)
    requires WellFormed(g)
    ensures Consistent(g, h, Built(g, h, sources, |g.gates|))
    ensures forall i :: Built(g, h, sources, |g.gates|)(Source(i)) == sources(i)
  {
    forall i, second | 0 <= i < |g.gates|
      ensures Built(g, h, sources, |g.gates|)(Output(i, second)) ==
              Half(GateOutput(g.gates[i], h, Built(g, h, sources, |g.gates|)), second)
    {
      BuiltGate(g, h, sources, i, second);
    }
    forall i ensures Built(g, h, sources, |g.gates|)(Source(i)) == sources(i) {
      BuiltSource(g, h, sources, |g.gates|, i);
    }
  }

  lemma {:induction false} BuiltSource(g: Graph, h: Hash, sources: Sources, n: nat, i: nat)
    requires n <= |g.gates|
    ensures Built(g, h, sources, n)(Source(i)) == sources(i)
  {
    if n > 0 {
      BuiltSource(g, h, sources, n - 1, i);
    }
  }

  ghost predicate SameBefore(g: Graph, n: nat, r: Reference, s: Reference) {
    forall v :: AvailableBefore(g, n, v) ==> r(v) == s(v)
  }

  /** Two consistent references with the same sources agree on every available vertex. */
  lemma {:induction false} ReferenceUnique(g: Graph, h: Hash, r: Reference, s: Reference, n: nat)
    requires WellFormed(g) && n <= |g.gates|
    requires Consistent(g, h, r) && Consistent(g, h, s)
    requires forall i :: 0 <= i < g.sources ==> r(Source(i)) == s(Source(i))
    ensures SameBefore(g, n, r, s)
  {
    if n > 0 {
      ReferenceUnique(g, h, r, s, n - 1);
      var gate := g.gates[n - 1];
      forall k | 0 <= k < |gate.inputs| ensures Lift(r)(gate.inputs[k]) == Lift(s)(gate.inputs[k]) {
        assert AvailableBefore(g, n - 1, gate.inputs[k]);
      }
      InputsAgree(gate.inputs, Lift(r), Lift(s));
      forall v | AvailableBefore(g, n, v) ensures r(v) == s(v) {
        if v.Output? && v.gate == n - 1 {
          assert v == Output(n - 1, v.second);
        } else {
          assert AvailableBefore(g, n - 1, v);
        }
      }
    }
  }

  // ----- Key generation as a schedule -----

  function SourceVertices(n: nat): seq<Vertex> {
    if n == 0 then [] else SourceVertices(n - 1) + [Source(n - 1)]
  }

  lemma {:induction false} SourceVerticesAre(n: nat, v: Vertex)
    ensures v in SourceVertices(n) <==> v.Source? && v.index < n
  {
    if n > 0 {
      SourceVerticesAre(n - 1, v);
    }
  }

  /** Only the sources are known. */
  function SourcesOnly(g: Graph, sources: Sources): Values {
    (v: Vertex) => if v.Source? && v.index < g.sources then Some(sources(v.index)) else None
  }

  lemma {:induction false} RangeReconstructs(g: Graph, known: seq<Vertex>, k: nat)
    requires WellFormed(g) && k <= |g.gates| && IsSchedule(g, Range(k, |g.gates|))
    requires forall v :: AvailableBefore(g, k, v) ==> v in known
    ensures Reconstructs(g, known, Range(k, |g.gates|))
    decreases |g.gates| - k
  {
    if k < |g.gates| {
      var schedule := Range(k, |g.gates|);
      assert schedule[1..] == Range(k + 1, |g.gates|);
      forall v | AvailableBefore(g, k + 1, v) ensures v in OutputsOf(k) + known {
        if v.Output? && v.gate == k {
          assert v == Output(k, false) || v == Output(k, true);
        } else {
          assert AvailableBefore(g, k, v);
        }
      }
      RangeReconstructs(g, OutputsOf(k) + known, k + 1);
    }
  }

  lemma KeygenAccepted(g: Graph)
    requires WellFormed(g)
    ensures IsSchedule(g, AllGates(g)) && Reconstructs(g, SourceVertices(g.sources), AllGates(g))
  {
    AllGatesSchedule(g);
    forall v | AvailableBefore(g, 0, v) ensures v in SourceVertices(g.sources) {
      SourceVerticesAre(g.sources, v);
    }
    RangeReconstructs(g, SourceVertices(g.sources), 0);
  }

  /** Running all gates in index order from the sources returns the root of the reference. */
  lemma KeygenReturnsRoot(g: Graph, h: Hash, sources: Sources, asked: nat)
    requires WellFormed(g)
    ensures IsSchedule(g, AllGates(g))
    ensures Evaluate(g, SourcesOnly(g, sources), AllGates(g), Steady(h), asked).value ==
            Some(Built(g, h, sources, |g.gates|)(g.root))
  {
    var reference := Built(g, h, sources, |g.gates|);
    KeygenAccepted(g);
    ReferenceExists(g, h, sources);
    forall v | v in SourceVertices(g.sources) ensures SourcesOnly(g, sources)(v) == Some(reference(v)) {
      SourceVerticesAre(g.sources, v);
    }
    ReconstructsReference(g, h, reference, SourcesOnly(g, sources), SourceVertices(g.sources), AllGates(g), asked);
  }

  /** Whatever the answers, key generation is charged exactly the keygen cost. */
  lemma KeygenCharge(g: Graph, sources: Sources, answers: Answers, asked: nat)
    requires WellFormed(g)
    ensures IsSchedule(g, AllGates(g))
    ensures Charge(Evaluate(g, SourcesOnly(g, sources), AllGates(g), answers, asked).queries) == KeygenCost(g)
  {
    var known := SourcesOnly(g, sources);
    AllGatesSchedule(g);
    KeygenAccepted(g);
    forall v ensures v in SourceVertices(g.sources) <==> known(v).Some? {
      SourceVerticesAre(g.sources, v);
    }
    EvaluateFailsClosed(g, known, SourceVertices(g.sources), AllGates(g), answers, asked);
    SuccessRunsAll(g, known, AllGates(g), answers, asked);
    ChargeBound(g, known, AllGates(g), answers, asked);
    DistinctCost(g, AllGates(g));
  }

  lemma {:induction false} SuccessRunsAll(g: Graph, known: Values, schedule: seq<nat>, answers: Answers, asked: nat)
    requires IsSchedule(g, schedule) && Evaluate(g, known, schedule, answers, asked).value.Some?
    ensures RunLength(g, PresentIn(known), schedule) == |schedule|
    decreases schedule
  {
    if schedule != [] {
      var i := schedule[0];
      assert AllAmong(g.gates[i].inputs, PresentIn(known));
      var output := answers(asked, QueryInput(g.gates[i], known));
      WriteAddsPresence(known, i, output);
      SuccessRunsAll(g, WriteOutputs(known, i, output), schedule[1..], answers, asked + 1);
    }
  }

  /** Every honest disclosure, by any accepted schedule, reconstructs the root key generation computed. */
  lemma DisclosureReturnsKeygenRoot(g: Graph, h: Hash, sources: Sources, known: Values,
                                    vertices: seq<Vertex>, schedule: seq<nat>)
    requires WellFormed(g) && IsSchedule(g, schedule)
    requires AgreesOn(known, vertices, Built(g, h, sources, |g.gates|)) && Reconstructs(g, vertices, schedule)
    ensures IsSchedule(g, AllGates(g))
    ensures Evaluate(g, known, schedule, Steady(h), 0).value ==
            Evaluate(g, SourcesOnly(g, sources), AllGates(g), Steady(h), 0).value
    ensures Evaluate(g, known, schedule, Steady(h), 0).value.Some?
  {
    KeygenReturnsRoot(g, h, sources, 0);
    ReferenceExists(g, h, sources);
    ReconstructsReference(g, h, Built(g, h, sources, |g.gates|), known, vertices, schedule, 0);
  }
}
