/**
 One admitted verification run, statement by statement, under arbitrary faults.

 Each program point may raise: an exception the run catches, an interrupt, or something it lets
 escape.  A fault strikes before the point's own effect.  Points between two changes of the tracked
 fields are one point.
 */
module Receipts {
  import opened Wrappers

  datatype Fault = Quiet | Caught | Interrupt | Escape

  datatype Stage =
    | CaptureStage | SourcePolicy | Setup | SandboxPreflight | TrustedBuild
    | Compilation | ArtifactCapture | Comparison | IntegrityStage

  datatype Status = InfrastructureError | SourceRejected | VerificationFailed | Accepted | Interrupted

  datatype Point =
    | AtCapture | EnterPolicy | AtPolicy | EnterSetup | AtSetup | EnterPreflight | AtPreflight
    | EnterBuild | AtBuild | EnterCompilation | AtCompilation | NoteCompilation | NoteCompileFailed
    | EnterArtifacts | AtArtifacts | EnterComparison | AtComparison | NoteComparator
    | EnterIntegrity | AtIntegrity | NoteStatus | NoteMathematical | NoteScore | LeaveTry
    | InHandler | AtGates | AtPublication

  /** A declared metric: parsing has already refused zero. */
  type Metric = n: nat | n > 0 witness 1

  /** What the outside world does to one run: faults, exit codes, declared metrics, drift of the inputs. */
  datatype World = World(
    fault: Point -> Fault, insecure: bool, sigma: Metric, hverify: Metric,
    importExit: int, buildExit: int, axiomExit: int, compileExit: int, compareExit: int, drift: bool)

  /** The receipt fields that say what was verified. */
  datatype Receipt = Receipt(
    status: Status, stage: Stage, mathematical: bool, score: Option<nat>,
    compilation: Option<int>, comparator: Option<int>)

  class Report {
    var status: Status
    var stage: Stage
    var mathematical: bool
    var score: Option<nat>
    var compilation: Option<int>
    var comparator: Option<int>

    constructor ()
      ensures Snapshot() == Receipt(InfrastructureError, CaptureStage, false, None, None, None)
    {
      status, stage, mathematical := InfrastructureError, CaptureStage, false;
      score, compilation, comparator := None, None, None;
    }

    function Snapshot(): Receipt
      reads this
    {
      Receipt(status, stage, mathematical, score, compilation, comparator)
    }
  }

  predicate Still(w: World, p: Point) {
    w.fault(p) == Quiet
  }

  // ----- The first fault -----

  /** The exit code the run goes on with: the comparator's if the submission compiled, else the compiler's. */
  function Code(w: World): int {
    if w.compileExit != 0 then w.compileExit else w.compareExit
  }

  /** The run itself raises here: a failed import check, build or axiom audit, or inputs that drifted. */
  predicate Refuses(w: World, p: Point) {
    match p
    case AtPolicy => w.importExit != 0
    case AtBuild => w.buildExit != 0 || w.axiomExit != 0
    case AtIntegrity => w.drift
    case _ => false
  }

  function Strike(w: World, p: Point): Fault {
    if !Still(w, p) then w.fault(p) else if Refuses(w, p) then Caught else Quiet
  }

  /** This point if it is struck, else whatever is struck in the rest of the run. */
  function At(w: World, p: Point, rest: Option<Point>): Option<Point> {
    if Strike(w, p) == Quiet then rest else Some(p)
  }

  function InPreparation(w: World, rest: Option<Point>): Option<Point> {
    var build := At(w, EnterBuild, At(w, AtBuild, rest));
    var preflight := if w.insecure then build else At(w, EnterPreflight, At(w, AtPreflight, build));
    At(w, AtCapture, At(w, EnterPolicy, At(w, AtPolicy, At(w, EnterSetup, At(w, AtSetup, preflight)))))
  }

  function InComparison(w: World, rest: Option<Point>): Option<Point> {
    At(w, EnterArtifacts, At(w, AtArtifacts, At(w, EnterComparison, At(w, AtComparison, rest))))
  }

  function InExecution(w: World, rest: Option<Point>): Option<Point> {
    var outcome := if w.compileExit != 0 then At(w, NoteCompileFailed, rest) else InComparison(w, rest);
    At(w, EnterCompilation, At(w, AtCompilation, At(w, NoteCompilation, outcome)))
  }

  function InVerdict(w: World): Option<Point> {
    var leave := At(w, LeaveTry, None);
    At(w, NoteStatus, if Code(w) == 0 then At(w, NoteMathematical, At(w, NoteScore, leave)) else leave)
  }

  function InConclusion(w: World): Option<Point> {
    At(w, NoteComparator, At(w, EnterIntegrity, At(w, AtIntegrity, InVerdict(w))))
  }

  /** What follows the trusted build. */
  function InRest(w: World): Option<Point> {
    InExecution(w, InConclusion(w))
  }

  /** The first point of the try block that is struck, in the order the run passes them. */
  function Struck(w: World): Option<Point> {
    InPreparation(w, InRest(w))
  }

  function Raises(w: World, p: Option<Point>): Fault {
    match p
    case None => Quiet
    case Some(q) => Strike(w, q)
  }

  /** What the try block as a whole raises. */
  function Raised(w: World): Fault {
    Raises(w, Struck(w))
  }

  /** The stage named when this point is struck. */
  function StageOf(w: World, p: Point): Stage {
    match p
    case AtCapture | EnterPolicy => CaptureStage
    case AtPolicy | EnterSetup => SourcePolicy
    case AtSetup | EnterPreflight => Setup
    case AtPreflight => SandboxPreflight
    case EnterBuild => if w.insecure then Setup else SandboxPreflight
    case AtBuild | EnterCompilation => TrustedBuild
    case AtCompilation | NoteCompilation | NoteCompileFailed | EnterArtifacts => Compilation
    case AtArtifacts | EnterComparison => ArtifactCapture
    case AtComparison => Comparison
    case NoteComparator | EnterIntegrity => if w.compileExit != 0 then Compilation else Comparison
    case _ => IntegrityStage
  }

  function StageAt(w: World, p: Option<Point>, otherwise: Stage): Stage {
    match p
    case None => otherwise
    case Some(q) => StageOf(w, q)
  }

  predicate IsPreparation(p: Point) {
    match p
    case AtCapture | EnterPolicy | AtPolicy | EnterSetup | AtSetup => true
    case EnterPreflight | AtPreflight | EnterBuild | AtBuild => true
    case _ => false
  }

  /** No compiler exit code is on record when this point is struck. */
  predicate BeforeCompilation(p: Point) {
    IsPreparation(p) || p == EnterCompilation || p == AtCompilation || p == NoteCompilation
  }

  /** No final exit code is on record when this point is struck. */
  predicate BeforeComparator(p: Point) {
    match p
    case NoteCompileFailed | EnterArtifacts | AtArtifacts | EnterComparison | AtComparison | NoteComparator => true
    case _ => BeforeCompilation(p)
  }

  // ----- What the first fault is -----

  /** Program order. */
  function Rank(p: Point): nat {
    match p
    case AtCapture => 0 case EnterPolicy => 1 case AtPolicy => 2 case EnterSetup => 3 case AtSetup => 4
    case EnterPreflight => 5 case AtPreflight => 6 case EnterBuild => 7 case AtBuild => 8
    case EnterCompilation => 9 case AtCompilation => 10 case NoteCompilation => 11 case NoteCompileFailed => 12
    case EnterArtifacts => 13 case AtArtifacts => 14 case EnterComparison => 15 case AtComparison => 16
    case NoteComparator => 17 case EnterIntegrity => 18 case AtIntegrity => 19 case NoteStatus => 20
    case NoteMathematical => 21 case NoteScore => 22 case LeaveTry => 23
    case InHandler => 24 case AtGates => 25 case AtPublication => 26
  }

  /** The points of the try block that a run nothing strikes passes. */
  predicate OnPath(w: World, p: Point) {
    match p
    case EnterPreflight | AtPreflight => !w.insecure
    case NoteCompileFailed => w.compileExit != 0
    case EnterArtifacts | AtArtifacts | EnterComparison | AtComparison => w.compileExit == 0
    case NoteMathematical | NoteScore => Code(w) == 0
    case InHandler | AtGates | AtPublication => false
    case _ => true
  }

  lemma RankTells(p: Point, q: Point)
    ensures Rank(p) == Rank(q) ==> p == q
  {
  }

  /** Every point on the path from one rank up to another is quiet. */
  ghost predicate QuietFrom(w: World, low: nat, high: nat) {
    forall q {:trigger Strike(w, q)} :: OnPath(w, q) && low <= Rank(q) < high ==> Strike(w, q) == Quiet
  }

  /** Of the points on the path from this rank on, `p` strikes and all before it are quiet. */
  ghost predicate StrikesFirst(w: World, p: Point, low: nat) {
    OnPath(w, p) && low <= Rank(p) && Strike(w, p) != Quiet && QuietFrom(w, low, Rank(p))
  }

  ghost predicate IsFirst(w: World, found: Option<Point>, low: nat) {
    && (forall p :: found == Some(p) <==> StrikesFirst(w, p, low))
    && (found == None <==> QuietFrom(w, low, 24))
  }

  lemma QuietStep(w: World, q: Point, high: nat)
    requires Rank(q) < high
    ensures QuietFrom(w, Rank(q), high) <==>
            (OnPath(w, q) ==> Strike(w, q) == Quiet) && QuietFrom(w, Rank(q) + 1, high)
  {
    forall p {
      RankTells(p, q);
    }
  }

  lemma StrikesStep(w: World, q: Point, p: Point)
    ensures StrikesFirst(w, p, Rank(q)) <==>
            if OnPath(w, q) && Strike(w, q) != Quiet then p == q else StrikesFirst(w, p, Rank(q) + 1)
  {
    RankTells(p, q);
    if Rank(q) < Rank(p) {
      QuietStep(w, q, Rank(p));
    }
  }

  lemma AtStep(w: World, q: Point, rest: Option<Point>)
    requires OnPath(w, q) && IsFirst(w, rest, Rank(q) + 1)
    ensures IsFirst(w, At(w, q, rest), Rank(q))
  {
    QuietStep(w, q, 24);
    forall p {
      StrikesStep(w, q, p);
    }
  }

  lemma SkipStep(w: World, q: Point, rest: Option<Point>)
    requires !OnPath(w, q) && Rank(q) < 24 && IsFirst(w, rest, Rank(q) + 1)
    ensures IsFirst(w, rest, Rank(q))
  {
    QuietStep(w, q, 24);
    forall p {
      StrikesStep(w, q, p);
    }
  }

  lemma FirstInConclusion(w: World)
    ensures IsFirst(w, InConclusion(w), 17)
  {
    AtStep(w, LeaveTry, None);
    FirstInVerdict(w, At(w, LeaveTry, None));
    AtStep(w, AtIntegrity, InVerdict(w));
    AtStep(w, EnterIntegrity, At(w, AtIntegrity, InVerdict(w)));
    AtStep(w, NoteComparator, At(w, EnterIntegrity, At(w, AtIntegrity, InVerdict(w))));
  }

  lemma FirstInVerdict(w: World, leave: Option<Point>)
    requires leave == At(w, LeaveTry, None) && IsFirst(w, leave, 23)
    ensures IsFirst(w, InVerdict(w), 20)
  {
    var verdict := leave;
    if Code(w) == 0 {
      AtStep(w, NoteScore, leave);
      AtStep(w, NoteMathematical, At(w, NoteScore, leave));
      verdict := At(w, NoteMathematical, At(w, NoteScore, leave));
    } else {
      SkipStep(w, NoteScore, leave);
      SkipStep(w, NoteMathematical, leave);
    }
    AtStep(w, NoteStatus, verdict);
  }

  lemma FirstInComparison(w: World, rest: Option<Point>)
    requires w.compileExit == 0 && IsFirst(w, rest, 17)
    ensures IsFirst(w, InComparison(w, rest), 13)
  {
    var third := At(w, AtComparison, rest);
    var second := At(w, EnterComparison, third);
    AtStep(w, AtComparison, rest);
    AtStep(w, EnterComparison, third);
    AtStep(w, AtArtifacts, second);
    AtStep(w, EnterArtifacts, At(w, AtArtifacts, second));
  }

  lemma FirstInOutcome(w: World, rest: Option<Point>) returns (outcome: Option<Point>)
    requires IsFirst(w, rest, 17)
    ensures outcome == if w.compileExit != 0 then At(w, NoteCompileFailed, rest) else InComparison(w, rest)
    ensures IsFirst(w, outcome, 12)
  {
    if w.compileExit == 0 {
      outcome := InComparison(w, rest);
      FirstInComparison(w, rest);
      SkipStep(w, NoteCompileFailed, outcome);
    } else {
      outcome := At(w, NoteCompileFailed, rest);
      SkipStep(w, AtComparison, rest);
      SkipStep(w, EnterComparison, rest);
      SkipStep(w, AtArtifacts, rest);
      SkipStep(w, EnterArtifacts, rest);
      AtStep(w, NoteCompileFailed, rest);
    }
  }

  lemma FirstInExecution(w: World, rest: Option<Point>)
    requires IsFirst(w, rest, 17)
    ensures IsFirst(w, InExecution(w, rest), 9)
  {
    var outcome := FirstInOutcome(w, rest);
    AtStep(w, NoteCompilation, outcome);
    AtStep(w, AtCompilation, At(w, NoteCompilation, outcome));
    AtStep(w, EnterCompilation, At(w, AtCompilation, At(w, NoteCompilation, outcome)));
  }

  lemma FirstInPreflight(w: World, build: Option<Point>) returns (preflight: Option<Point>)
    requires IsFirst(w, build, 7)
    ensures preflight == if w.insecure then build else At(w, EnterPreflight, At(w, AtPreflight, build))
    ensures IsFirst(w, preflight, 5)
  {
    if w.insecure {
      preflight := build;
      SkipStep(w, AtPreflight, build);
      SkipStep(w, EnterPreflight, build);
    } else {
      preflight := At(w, EnterPreflight, At(w, AtPreflight, build));
      AtStep(w, AtPreflight, build);
      AtStep(w, EnterPreflight, At(w, AtPreflight, build));
    }
  }

  lemma FirstInSetup(w: World, fifth: Option<Point>)
    requires IsFirst(w, fifth, 5)
    ensures IsFirst(
              w, At(w, AtCapture, At(w, EnterPolicy, At(w, AtPolicy, At(w, EnterSetup, At(w, AtSetup, fifth))))), 0)
  {
    var fourth := At(w, AtSetup, fifth);
    var third := At(w, EnterSetup, fourth);
    var second := At(w, AtPolicy, third);
    AtStep(w, AtSetup, fifth);
    AtStep(w, EnterSetup, fourth);
    AtStep(w, AtPolicy, third);
    AtStep(w, EnterPolicy, second);
    AtStep(w, AtCapture, At(w, EnterPolicy, second));
  }

  lemma FirstInPreparation(w: World, rest: Option<Point>)
    requires IsFirst(w, rest, 9)
    ensures IsFirst(w, InPreparation(w, rest), 0)
  {
    AtStep(w, AtBuild, rest);
    AtStep(w, EnterBuild, At(w, AtBuild, rest));
    var fifth := FirstInPreflight(w, At(w, EnterBuild, At(w, AtBuild, rest)));
    FirstInSetup(w, fifth);
  }

  /** The point struck first is the one on the path that strikes while all on the path before it are quiet. */
  lemma StruckFirst(w: World)
    ensures forall p :: Struck(w) == Some(p) <==> StrikesFirst(w, p, 0)
    ensures Struck(w) == None <==> QuietFrom(w, 0, 24)
  {
    FirstInConclusion(w);
    FirstInExecution(w, InConclusion(w));
    FirstInPreparation(w, InRest(w));
  }

  // ----- The three parts of the try block -----

  /** From the capture of the sources to the trusted build and the axiom audit. */
  method Prepare(w: World, report: Report) returns (raised: Fault)
    requires report.Snapshot() == Receipt(InfrastructureError, CaptureStage, false, None, None, None)
    modifies report
    ensures raised == Raises(w, InPreparation(w, None))
    ensures report.Snapshot() == old(report.Snapshot()).(stage := StageAt(w, InPreparation(w, None), TrustedBuild))
    ensures InPreparation(w, None).Some? ==> IsPreparation(InPreparation(w, None).value)
  {
    raised := w.fault(AtCapture);
    if raised != Quiet { return; }
    raised := w.fault(EnterPolicy);
    if raised != Quiet { return; }
    report.stage := SourcePolicy;
    raised := w.fault(AtPolicy);
    if raised != Quiet { return; }
    if w.importExit != 0 {
      return Caught;
    }
    raised := w.fault(EnterSetup);
    if raised != Quiet { return; }
    report.stage := Setup;
    raised := w.fault(AtSetup);
    if raised != Quiet { return; }
    if !w.insecure {
      raised := w.fault(EnterPreflight);
      if raised != Quiet { return; }
      report.stage := SandboxPreflight;
      raised := w.fault(AtPreflight);
      if raised != Quiet { return; }
    }
    raised := w.fault(EnterBuild);
    if raised != Quiet { return; }
    report.stage := TrustedBuild;
    raised := w.fault(AtBuild);
    if raised != Quiet { return; }
    if w.buildExit != 0 || w.axiomExit != 0 {
      return Caught;
    }
  }

  /** Freeze the compiled artifacts, then compare them. */
  method Compare(w: World, report: Report) returns (raised: Fault)
    requires report.stage == Compilation && w.compileExit == 0
    modifies report`stage
    ensures raised == Raises(w, InComparison(w, None))
    ensures report.stage == StageAt(w, InComparison(w, None), Comparison)
    ensures InComparison(w, None).Some? ==>
              !BeforeCompilation(InComparison(w, None).value) && BeforeComparator(InComparison(w, None).value)
  {
    raised := w.fault(EnterArtifacts);
    if raised != Quiet { return; }
    report.stage := ArtifactCapture;
    raised := w.fault(AtArtifacts);
    if raised != Quiet { return; }
    raised := w.fault(EnterComparison);
    if raised != Quiet { return; }
    report.stage := Comparison;
    raised := w.fault(AtComparison);
    if raised != Quiet { return; }
  }

  /** Compile the submission; if that succeeds, freeze its artifacts and compare them. */
  method Execute(w: World, report: Report) returns (raised: Fault, code: int)
    requires report.Snapshot() == Receipt(InfrastructureError, TrustedBuild, false, None, None, None)
    modifies report
    ensures raised == Raises(w, InExecution(w, None))
    ensures raised == Quiet ==> code == Code(w)
    ensures var p := InExecution(w, None);
            report.Snapshot() == old(report.Snapshot()).(
              stage := StageAt(w, p, if w.compileExit != 0 then Compilation else Comparison),
              compilation := if p.Some? && BeforeCompilation(p.value) then None else Some(w.compileExit),
              status := if p.None? && w.compileExit != 0 then VerificationFailed else InfrastructureError)
    ensures InExecution(w, None).Some? ==>
              !IsPreparation(InExecution(w, None).value) && BeforeComparator(InExecution(w, None).value)
  {
    code := 0;
    raised := w.fault(EnterCompilation);
    if raised != Quiet { return; }
    report.stage := Compilation;
    raised := w.fault(AtCompilation);
    if raised != Quiet { return; }
    code := w.compileExit;
    raised := w.fault(NoteCompilation);
    if raised != Quiet { return; }
    report.compilation := Some(code);
    if code != 0 {
      raised := w.fault(NoteCompileFailed);
      if raised != Quiet { return; }
      report.status := VerificationFailed;
    } else {
      raised := Compare(w, report);
      if raised != Quiet { return; }
      code := w.compareExit;
    }
  }

  /** The first fault, if any, strikes after the line that records mathematical verification. */
  predicate AfterFlag(p: Option<Point>) {
    p.None? || p.value == NoteScore || p.value == LeaveTry
  }

  predicate AfterScore(p: Option<Point>) {
    p.None? || p.value == LeaveTry
  }

  /** Accept or not, and score what is accepted. */
  method Decide(w: World, code: int, report: Report) returns (raised: Fault)
    requires code == Code(w) && report.score == None && !report.mathematical
    modifies report
    ensures raised == Raises(w, InVerdict(w))
    ensures report.stage == old(report.stage)
    ensures report.compilation == old(report.compilation) && report.comparator == old(report.comparator)
    ensures var p := InVerdict(w);
            && (report.mathematical <==> code == 0 && AfterFlag(p))
            && report.score == (if code == 0 && AfterScore(p) then Some(w.sigma * w.hverify) else None)
            && (p.None? ==> report.status == if code == 0 then Accepted else VerificationFailed)
            && (p.Some? ==> StageOf(w, p.value) == IntegrityStage && !BeforeComparator(p.value))
  {
    raised := w.fault(NoteStatus);
    if raised != Quiet { return; }
    report.status := if code == 0 then Accepted else VerificationFailed;
    if code == 0 {
      raised := w.fault(NoteMathematical);
      if raised != Quiet { return; }
      report.mathematical := true;
      raised := w.fault(NoteScore);
      if raised != Quiet { return; }
      report.score := Some(w.sigma * w.hverify);
    }
    raised := w.fault(LeaveTry);
  }

  /** Record the exit code, check integrity, and only then decide and score. */
  method Conclude(w: World, code: int, report: Report) returns (raised: Fault)
    requires code == Code(w) && report.score == None && !report.mathematical && report.comparator == None
    requires report.stage == if w.compileExit != 0 then Compilation else Comparison
    modifies report
    ensures raised == Raises(w, InConclusion(w))
    ensures report.stage == StageAt(w, InConclusion(w), IntegrityStage)
    ensures report.compilation == old(report.compilation)
    ensures var p := InConclusion(w);
            && report.comparator == (if p == Some(NoteComparator) then None else Some(code))
            && (report.mathematical <==> code == 0 && AfterFlag(p))
            && report.score == (if code == 0 && AfterScore(p) then Some(w.sigma * w.hverify) else None)
            && (p.None? ==> report.status == if code == 0 then Accepted else VerificationFailed)
    ensures InConclusion(w).Some? ==>
              InConclusion(w).value == NoteComparator || !BeforeComparator(InConclusion(w).value)
  {
    raised := w.fault(NoteComparator);
    if raised != Quiet { return; }
    report.comparator := Some(code);
    raised := w.fault(EnterIntegrity);
    if raised != Quiet { return; }
    report.stage := IntegrityStage;
    raised := w.fault(AtIntegrity);
    if raised != Quiet { return; }
    if w.drift {
      return Caught;
    }
    raised := Decide(w, code, report);
  }

  // ----- The whole run -----

  /** The code passes the line that records mathematical verification. */
  predicate Marks(w: World) {
    Code(w) == 0 && AfterFlag(Struck(w))
  }

  /** Nothing strikes from there to the end of the try block. */
  predicate ScoresQuietly(w: World) {
    Still(w, NoteScore) && Still(w, LeaveTry)
  }

  /** The last exception handler that can run does, and nothing stops the publication. */
  predicate Publishes(w: World) {
    && Raised(w) != Escape
    && (Raised(w) != Quiet ==> Still(w, InHandler))
    && Still(w, AtGates) && Still(w, AtPublication)
  }

  method TryBlock(w: World, report: Report) returns (raised: Fault)
    requires report.Snapshot() == Receipt(InfrastructureError, CaptureStage, false, None, None, None)
    modifies report
    ensures raised == Raised(w)
    ensures report.stage == StageAt(w, Struck(w), IntegrityStage)
    ensures report.mathematical <==> Marks(w)
    ensures raised == Quiet ==> report.status == if Code(w) == 0 then Accepted else VerificationFailed
    ensures raised == Quiet ==> report.score == if Code(w) == 0 then Some(w.sigma * w.hverify) else None
    ensures report.compilation ==
            if Struck(w).Some? && BeforeCompilation(Struck(w).value) then None else Some(w.compileExit)
    ensures report.comparator == if Struck(w).Some? && BeforeComparator(Struck(w).value) then None else Some(Code(w))
  {
    raised := Prepare(w, report);
    PreparationFirst(w, InRest(w));
    if raised != Quiet { return; }
    raised := CompileAndConclude(w, report);
  }

  /** A fault in the preparation comes first, whatever the rest of the run would do. */
  lemma PreparationFirst(w: World, rest: Option<Point>)
    ensures InPreparation(w, rest) == if InPreparation(w, None).Some? then InPreparation(w, None) else rest
    ensures InPreparation(w, None).Some? ==> Strike(w, InPreparation(w, None).value) != Quiet
  {
  }

  method CompileAndConclude(w: World, report: Report) returns (raised: Fault)
    requires report.Snapshot() == Receipt(InfrastructureError, TrustedBuild, false, None, None, None)
    modifies report
    ensures var p := InRest(w);
            && raised == Raises(w, p)
            && report.stage == StageAt(w, p, IntegrityStage)
            && (report.mathematical <==> Code(w) == 0 && AfterFlag(p))
            && (p.None? ==> report.status == if Code(w) == 0 then Accepted else VerificationFailed)
            && (p.None? ==> report.score == if Code(w) == 0 then Some(w.sigma * w.hverify) else None)
            && report.compilation == (if p.Some? && BeforeCompilation(p.value) then None else Some(w.compileExit))
            && report.comparator == (if p.Some? && BeforeComparator(p.value) then None else Some(Code(w)))
  {
    var code;
    raised, code := Execute(w, report);
    if raised != Quiet { return; }
    raised := Conclude(w, code, report);
  }

  predicate EarlyStage(stage: Stage) {
    stage == CaptureStage || stage == SourcePolicy
  }

  /** Struck while the sources are captured or checked. */
  predicate BeforeSetup(p: Option<Point>) {
    p == Some(AtCapture) || p == Some(EnterPolicy) || p == Some(AtPolicy) || p == Some(EnterSetup)
  }

  /**
   A run from its first statement to the published receipt, if any.  Wherever a fault lands: when
   there is a receipt, which status it has, and that a score means acceptance after both exit codes
   and the integrity check.  The `mathematical` flag means acceptance exactly when nothing strikes
   between the flag and the end of the try block.
   */
  method Run(w: World) returns (receipt: Option<Receipt>)
    ensures receipt.Some? <==> Publishes(w)
    ensures receipt.Some? ==> (receipt.value.status == Accepted <==> Raised(w) == Quiet && Code(w) == 0)
    ensures receipt.Some? ==> (receipt.value.status == VerificationFailed <==> Raised(w) == Quiet && Code(w) != 0)
    ensures receipt.Some? ==>
              (receipt.value.status == SourceRejected <==> Raised(w) == Caught && BeforeSetup(Struck(w)))
    ensures receipt.Some? ==>
              (receipt.value.status == InfrastructureError <==> Raised(w) == Caught && !BeforeSetup(Struck(w)))
    ensures receipt.Some? ==> (receipt.value.status == Interrupted <==> Raised(w) == Interrupt)
    ensures receipt.Some? ==> receipt.value.stage == StageAt(w, Struck(w), IntegrityStage)
    ensures receipt.Some? ==>
              receipt.value.score == if receipt.value.status == Accepted then Some(w.sigma * w.hverify) else None
    ensures receipt.Some? && receipt.value.score.Some? ==>
              && receipt.value.compilation == receipt.value.comparator == Some(0)
              && w.importExit == w.buildExit == w.axiomExit == w.compileExit == w.compareExit == 0 && !w.drift
              && receipt.value.mathematical
    ensures receipt.Some? ==>
              receipt.value.compilation ==
              if Struck(w).Some? && BeforeCompilation(Struck(w).value) then None else Some(w.compileExit)
    ensures receipt.Some? ==>
              receipt.value.comparator ==
              if Struck(w).Some? && BeforeComparator(Struck(w).value) then None else Some(Code(w))
    ensures receipt.Some? ==> (receipt.value.mathematical <==> Marks(w))
    ensures receipt.Some? ==> ((receipt.value.mathematical <==> receipt.value.status == Accepted) <==>
                               (Marks(w) ==> ScoresQuietly(w)))
  {
    var report := new Report();
    var raised := TryBlock(w, report);
    if Struck(w).None? {
      QuietMeans(w);
    } else {
      StruckStrikes(w);
    }
    if Marks(w) {
      MarkedMeans(w);
    }
    receipt := Publish(w, raised, report);
  }

  /** The exception handlers, the deployment gates and the publication. */
  method Publish(w: World, raised: Fault, report: Report) returns (receipt: Option<Receipt>)
    modifies report
    ensures receipt.Some? <==> raised != Escape && (raised != Quiet ==> Still(w, InHandler)) &&
                               Still(w, AtGates) && Still(w, AtPublication)
    ensures receipt.Some? ==>
              receipt.value == old(report.Snapshot()).(
                status := match raised
                          case Caught => if EarlyStage(old(report.stage)) then SourceRejected else InfrastructureError
                          case Interrupt => Interrupted
                          case _ => old(report.status),
                score := if raised == Quiet then old(report.score) else None)
  {
    if raised == Escape {
      return None;
    }
    if raised != Quiet {
      if !Still(w, InHandler) {
        return None;
      }
      report.score := None;
      if raised == Caught {
        report.status := if EarlyStage(report.stage) then SourceRejected else InfrastructureError;
      } else {
        report.status := Interrupted;
      }
    }
    if !Still(w, AtGates) || !Still(w, AtPublication) {
      return None;
    }
    return Some(report.Snapshot());
  }

  /** A try block that nothing strikes has passed every check. */
  lemma QuietMeans(w: World)
    requires Struck(w).None?
    ensures w.importExit == w.buildExit == w.axiomExit == 0 && !w.drift
    ensures Code(w) == 0 ==> ScoresQuietly(w)
  {
  }

  lemma MarkedMeans(w: World)
    requires Marks(w)
    ensures Struck(w).None? <==> ScoresQuietly(w)
  {
  }

  lemma StruckStrikes(w: World)
    requires Struck(w).Some?
    ensures Raised(w) != Quiet
  {
  }

  /** An interrupt between the flag and the score: the published receipt is flagged but not accepted. */
  method FlagWithoutScore() returns (receipt: Option<Receipt>)
    ensures receipt == Some(Receipt(Interrupted, IntegrityStage, true, None, Some(0), Some(0)))
  {
    ScoreInterruptedIs();
    receipt := RunInterruptedAtScore(ScoreInterrupted());
  }

  method RunInterruptedAtScore(w: World) returns (receipt: Option<Receipt>)
    requires Struck(w) == Some(NoteScore) && Raised(w) == Interrupt && Publishes(w) && Code(w) == 0
    ensures receipt == Some(Receipt(Interrupted, IntegrityStage, true, None, Some(w.compileExit), Some(0)))
  {
    receipt := Run(w);
  }

  /** Everything succeeds, but an interrupt arrives as the score is computed. */
  function ScoreInterrupted(): World {
    World(p => if p == NoteScore then Interrupt else Quiet, true, 1, 1, 0, 0, 0, 0, 0, false)
  }

  lemma ScoreInterruptedIs()
    ensures var w := ScoreInterrupted();
            Struck(w) == Some(NoteScore) && Raised(w) == Interrupt && Publishes(w) && Code(w) == w.compileExit == 0
  {
    var w := ScoreInterrupted();
    forall p: Point ensures Strike(w, p) == if p == NoteScore then Interrupt else Quiet {
    }
    PassesUntilScore(w);
  }

  lemma PassesUntilScore(w: World)
    requires forall p: Point :: Strike(w, p) == if p == NoteScore then Interrupt else Quiet
    requires Code(w) == 0
    ensures Struck(w) == Some(NoteScore)
  {
    assert InConclusion(w) == Some(NoteScore);
    PassesExecution(w, InConclusion(w));
    PassesPreparation(w, InConclusion(w));
  }

  lemma PassesExecution(w: World, rest: Option<Point>)
    requires forall p: Point :: Strike(w, p) == if p == NoteScore then Interrupt else Quiet
    ensures InExecution(w, rest) == rest
  {
  }

  lemma PassesPreparation(w: World, rest: Option<Point>)
    requires forall p: Point :: Strike(w, p) == if p == NoteScore then Interrupt else Quiet
    ensures InPreparation(w, rest) == rest
  {
  }
}
