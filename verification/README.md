# Verified model of the LeanSphincs benchmark

This project models the deterministic core of LeanSphincs: the exact counting engine that searches
one-time-signature graphs, the rational security bound and its declaration file, the hash-graph
evaluator, the source audit, and the admission, freezing and receipt machinery of the verifier. It
proves, for all inputs and all runs, what those parts are for. `dafny verify dfyconfig.toml` checks
everything; no other tool is involved.

## What is modelled, and the main results

**Counting and the frontier** (`FiniteSums`, `Counting`, `SharedRows`, `Frontier`, `Disclosures`,
`Experiments`). A polynomial is a dictionary from (hash cost, disclosed values) to a count, and a
word picks one entry copy per component of a graph. `Counting.Count` is the cardinality of the set
of words with a given total; neither multiplication nor truncation occurs in its definition. The
dictionary loops of `multiply` and `power` are proved to compute it, although they cut off after
every step: a Cauchy product of word counts (`CountConcat`) shows that a coefficient inside the caps
depends only on coefficients inside the caps. `shared_rows` is proved against the set of disclosures
of a block, each priced row by row and seed by seed. `Disclosures` says what a true answer to a
request is, in terms of the four graphs' disclosures alone, and `Experiments.Run` is proved to give
it.

**The bound** (`Rationals`, `Bound`, `Contract`). The two-point test `MeetsFloor` is equivalent to
the inequality on the whole interval, at every smaller signing count; the proof places each power
below its chord and needs no convexity library. The finite scan of `bitSecurity` is proved to miss
no level, because the reduced denominator of B(1) bounds how small a positive value can be. The
declaration file is parsed, rendered and read back as the same rational, so the two-point test in
Lean decides the inequality that the file format documents (`Contract.DeclaredFloorExact`).

**The hash graph** (`HashGraph`). Evaluation is defined over an arbitrary stream of answers, so the
cost statements also hold when the answers contradict each other. OTS_STAGE1.md (lines 80-81) lists
the construction of the reference assignment as open. For deterministic answers it is settled here:
a well-formed graph has a consistent reference for every choice of sources, unique on the available
vertices; running all gates in index order returns its root, and so does every accepted disclosure.

**The source audit** (`Scanner`, `Imports`). The four-state scanner is proved against a recursive
grammar of nested comments, line comments and string literals. Every text has exactly one parse
tree, the output is the text painted by the tree's classification, and blanking twice changes
nothing. The import automaton accepts exactly the texts whose imports precede all other code.

**Signing-failure envelopes** (`Failure`). The survival bounds over the reals.

**Admission, freezing, receipts** (`Admission`, `Receipts`, `Snapshot`, `SourceBundle`, `Integrity`).
`Admission` is a state machine of any number of verifier processes, one kernel lock and a file
system; processes interleave, fail and die at any point, and the host may lose power. No process
acquires, captures, publishes or releases in any other order than this, and runs that do all four
exist. Receipts are published by an atomic rename, but no directory is ever synced, so a crash may
undo any rename, directory or lock file made since the host came up (HARNESS_SECURITY.md:35
disclaims power-loss durability). A result that is there is nevertheless always whole; it is
permanent while the host stays up, and safe from a power failure if and only if its name has reached
the disk.
`Receipts` follows the statements of one admitted run under arbitrary faults and says for each what
is published. `Snapshot` and `SourceBundle` follow the capture loops byte by byte, and `Integrity`
ties the recapture before scoring to what was captured at the start.

## Where the code does not do what it says

- The comment above the blanker says line structure is preserved (scripts/check-submission-imports.sh:19-20).
  It is not when a line feed is the second character of a string escape, which line 65 blanks.
  `Scanner.LinesKept` proves that this is the only way: the lines are kept if and only if no line
  feed is escaped inside a string. `Scanner.EscapedLineFeedLost` is the shortest example.
- A receipt can say `mathematical_verification` without being accepted: a fault between
  scripts/verify_submission.py:305 and the end of the try block is handled without clearing the flag.
  `Receipts.Run` proves exactly when the flag and the status agree, and `Receipts.FlagWithoutScore`
  runs the case of an interrupt at line 306 to its published receipt. The score has no such gap.

`Counting.Power` is stated as an equivalence because the empty power keeps its unit term even where
a negative cap excludes it. No caller passes a negative cap.

## Model

| member | source | states |
|---|---|---|
| Counting.CountConcat | scripts/ots_experiments.py:23-29 | The number of words of two joined component lists at a total is the sum, over every way to split the total, of the products of the two numbers of words. |
| Counting.MultiplyRow | scripts/ots_experiments.py:26-28 | The inner loop adds one left term's share of every coefficient inside the caps, changes no other, and creates exactly the keys it reaches. |
| Counting.Multiply | scripts/ots_experiments.py:23-29 | The result holds exactly the product's coefficients inside the caps, and has a key exactly where two keys add up inside the caps. |
| Counting.ProductRepresents | scripts/ots_experiments.py:23-29 | If two dictionaries are right inside the caps, their truncated product counts the joined words inside the caps and holds nothing outside: early truncation loses nothing. |
| Counting.Power | scripts/ots_experiments.py:32-36 | Each coefficient inside the caps is the number of length-n choice words with that total and nothing lies outside, if and only if n > 0 or no cap is negative; the in-cap counts are right in every case. |
| Counting.WithinRepeat | scripts/ots_experiments.py:117-119 | A word of n choices never costs more than n times the component's cost, nor discloses values outside n times its range. |
| Counting.CountBeyond | scripts/ots_experiments.py:118-119 | No word is counted beyond the bounds of its components, so a cap at those bounds drops nothing. |
| Counting.EligibleNext | scripts/ots_experiments.py:123-125 | Raising the value cap by one adds exactly the words with that cost and that many values. |
| SharedRows.Build | scripts/ots_experiments.py:54-63 | Every coefficient is the number of disclosures of the block whose cost and values, added up row by row and seed by seed, are its exponent: the cuts of the double loop, the one that merges and shows nothing, and the one that merges every row and shows every seed. |
| SharedRows.AllDisclosures | scripts/ots_experiments.py:57-62 | The two initial entries are the two extreme disclosures; with the cuts they make up all disclosures at each exponent, none counted twice. |
| SharedRows.HoldsCuts | scripts/ots_experiments.py:58-62 | The sum of binomial products whose key is e is the number of (row set, seed set) cuts whose exponent is e. |
| SharedRows.KeyOfCut | scripts/ots_experiments.py:60-61 | The closed-form key of a cut equals what the cut costs and discloses, added up row by row and seed by seed. |
| SharedRows.MasksOfWeight | scripts/ots_experiments.py:62 | The binomial coefficient is the number of subsets of that size. |
| SharedRows.CutsSize | scripts/ots_experiments.py:58-62 | A block of r rows has 15 * (2^r - 1) cuts. |
| SharedRows.Conservation | scripts/ots_experiments.py:54-63 | The coefficients add up to 2 + 15 * (2^r - 1): colliding keys merge and lose nothing. |
| SharedRows.EntriesWithin | scripts/ots_experiments.py:54-63 | For r >= 1 no entry costs more than r merges and four expansions, nor discloses fewer than 1 or more than 4r values. |
| Frontier.SortedOrders | scripts/ots_experiments.py:90 | Sorting by (size, verification) yields an ordered permutation. |
| Frontier.Pareto | scripts/ots_experiments.py:86-94 | The output comes from the input, strictly grows in size and strictly falls in verification, and weakly dominates every input. |
| Frontier.FrontierExact | scripts/ots_experiments.py:86-94 | A candidate's metrics appear on the frontier if and only if nothing in the input dominates it. |
| Frontier.Select | scripts/ots_experiments.py:132-139 | The selected candidate is least by (objective, size, verification). |
| Frontier.AtMostMeans | scripts/ots_experiments.py:134-139 | The comparison written out for each objective: product, verification, or price * size + verification, then size, then verification. |
| Frontier.ValueMonotone | scripts/ots_experiments.py:134-138 | A weakly dominating candidate is no worse by product, by verification, or by any positive price. |
| Frontier.SelectedOnFrontier | scripts/ots_experiments.py:86-139 | The least candidate of each of the three objectives, with its tie-breaks, has its metrics on the frontier. |
| Experiments.PlannerChargesGate | scripts/ots_experiments.py:39-51 | Under the current profile the planner's price of a gate is the Lean meter's charge for the query that gate sends. |
| Experiments.HashCostLeast | scripts/ots_experiments.py:39-51 | The price of a hash is the least number of the profile's units that holds the blocks and, for the ROM profiles, the 16-byte address. |
| Experiments.SearchLayer | scripts/ots_experiments.py:122-131 | A layer yields a candidate if and only if it reaches the target within max_values; its cap is then the least that does and its eligible count is exact. |
| Experiments.SearchLayers | scripts/ots_experiments.py:120-131 | The list holds one exact candidate for each reachable layer, in order of cost, and nothing else. |
| Experiments.NoLayerBeyond | scripts/ots_experiments.py:118-131 | At any cost at all, even above the local cost cap, a layer reaches the target if and only if it is listed. |
| Experiments.LeastCapUnique | scripts/ots_experiments.py:123-131 | A layer has at most one least cap, whatever max_values is. |
| Experiments.RaisingMaxValues | scripts/ots_experiments.py:123-131 | Every candidate found under a cap on values is found unchanged under a larger one. |
| Experiments.ExactUnique | scripts/ots_experiments.py:119-131 | The exact candidate list is unique: graph and request determine it. |
| Experiments.FamilyAdmits | scripts/ots_experiments.py:111-119 | Each family's declared cost cap bounds every disclosure of its graph. |
| Experiments.Choices | scripts/ots_experiments.py:111-119 | The dictionary searched counts the disclosures of the whole graph: for the chains two powers joined, otherwise one power. |
| Experiments.SquareWhole | scripts/ots_experiments.py:71 | Squaring a block under caps above twice its bounds cuts nothing off. |
| Experiments.PairsFamily | scripts/ots_experiments.py:66-81 | The pairs family is built over the pairs of cuts of two two-row blocks, uncut by the caps 1000 and 128, and its declared component cost bounds it. |
| Experiments.FourFamily | scripts/ots_experiments.py:66-82 | The four family is built over the cuts of a four-row block, and its declared component cost bounds it. |
| Experiments.ChainsMeaning | scripts/ots_experiments.py:77-78 | The chains graph is 23 chains of two steps and 93 of one, each disclosed at one of its positions; its declared cost is 139 and it has 116 roots. |
| Experiments.ForestMeaning | scripts/ots_experiments.py:69-79 | The forest is 32 components, each disclosed by its value or by four leaves of which any subset is recomputed below a merge. |
| Experiments.PairsFamilyMeaning | scripts/ots_experiments.py:70-81 | The pairs graph is 12 components, each disclosed by its value or one merge above disclosures of two independent two-row blocks. |
| Experiments.FourFamilyMeaning | scripts/ots_experiments.py:72-82 | The four graph is 18 components, each disclosed by its value or one merge above a disclosure of a four-row block. |
| Experiments.Families | scripts/ots_experiments.py:66-83 | All four families, in order; every declared component cost is a true bound for every profile. |
| Experiments.FamiliesNamed | scripts/ots_experiments.py:66-83 | The four families are these four graphs, with the merge priced at the profile's least cost and every count, cost and root number as tabulated. |
| Experiments.Explore | scripts/ots_experiments.py:107-143 | One row, stated in the request's terms alone: a cost is listed if and only if 2^bits disclosures of the graph exist at it within max_values; each entry has the least such cap, the exact count, the size 16 * cap + 32 and the two work figures; the selection is least by the requested objective and the frontier is exact, each present exactly when requested. |
| Experiments.ExactLists | scripts/ots_experiments.py:120-131 | The layer search lists exactly the costs at which 2^bits disclosures exist. |
| Experiments.LeastIsBest | scripts/ots_experiments.py:132-139 | The selected candidate is least by the objective the request names. |
| Experiments.ExploreAll | scripts/ots_experiments.py:108-144 | One such row per family, in the families' order. |
| Experiments.Run | scripts/ots_experiments.py:97-144 | Each of the three errors is reported exactly when its condition on the request holds, in the source's order; otherwise the output is one true row for each of the four named graphs, in order. |
| Experiments.SelectionIsOnFrontier | scripts/ots_experiments.py:132-143 | In every reported row with both, the selected candidate itself is one of the frontier's points. |
| Rationals.LowestTerms | LeanSphincs/Benchmark/Bound.lean:111-117 | Dividing by the greatest common divisor leaves the value and a positive denominator, with a positive numerator if there was one. |
| Rationals.GcdDivides | scripts/benchmark_contract.py:45 | The common divisors of two numbers are exactly the divisors of their gcd. |
| Bound.WeightMonotone | LeanSphincs/Benchmark/Bound.lean:30-32 | A term's weight is non-negative and grows with the signing count. |
| Bound.BoundMonotone | LeanSphincs/Benchmark/Bound.lean:51-67 | B is non-negative and grows with the work and with the signing count. |
| Bound.PowBelowChord | LeanSphincs/Benchmark/Bound.lean:69-74 | Every power lies below its chord between 1 and m. |
| Bound.BoundBelowChord | LeanSphincs/Benchmark/Bound.lean:69-74 | B lies below its chord between 1 and m. |
| Bound.FloorSoundAtCap | LeanSphincs/Benchmark/Bound.lean:76-91 | The two endpoint checks imply B(Q, cap) <= Q / 2^bits for every real Q in the range. |
| Bound.FloorSound | LeanSphincs/Benchmark/Claim.lean:67-69 | The same at every signing count up to the cap. |
| Bound.FloorExact | LeanSphincs/Benchmark/Bound.lean:93-101 | The two endpoint checks hold if and only if the inequality holds at every rational Q in [1, 2^bits] and every signing count up to the cap. |
| Bound.AtFloor | LeanSphincs/Benchmark/Claim.lean:60-78 | An advantage below the declared bound is below (qH + qS) / 2^bits whenever the floor holds at a cap no smaller than qS. |
| Bound.HonestWorkInside | LeanSphincs/Benchmark/Claim.lean:12-58 | 2^38 + qS * (2^36 + 1) + 2^24 stays strictly below 2^100, hence below 2^124, for every qS up to 2^32. |
| Bound.AtOneDenotes | LeanSphincs/Benchmark/Bound.lean:24-28 | The fraction of naturals computed for B(1) denotes it. |
| Bound.FloorsDownward | LeanSphincs/Benchmark/Bound.lean:40-42 | A floor that holds at one bit level holds at every lower one. |
| Bound.ScanFinds | LeanSphincs/Benchmark/Bound.lean:117-118 | The fold returns a passing level that no passing level of its range exceeds. |
| Bound.AtLeastOneOver | LeanSphincs/Benchmark/Bound.lean:111-112 | A positive value is at least one over its reduced denominator. |
| Bound.NoFloorBeyondScan | LeanSphincs/Benchmark/Bound.lean:111-118 | No level above log2 of the reduced denominator of B(1) passes, so the scan's range is complete. |
| Bound.ZeroAtOne | LeanSphincs/Benchmark/Bound.lean:115 | A bound that is zero at 1 is zero everywhere. |
| Bound.LevelsExclusive | LeanSphincs/Benchmark/Bound.lean:103-109 | At most one report describes the set of passing levels. |
| Bound.BitSecurityExact | LeanSphincs/Benchmark/Bound.lean:111-118 | `bitSecurity` returns that report and no other: belowZero if no level passes, unbounded if the bound vanishes, else the greatest passing level. |
| Contract.DecimalReads | scripts/benchmark_contract.py:14-16 | Writing a number in decimal and reading it back is the identity; the text is canonical for positive numbers. |
| Contract.CanonicalWrites | scripts/benchmark_contract.py:14-16 | A canonical text is the decimal of the number it reads as. |
| Contract.ScalarExact | scripts/benchmark_contract.py:12-19 | `scalar` returns v if and only if v is in 1..2^63-1 and the file is v in decimal with at most one final line feed. |
| Contract.ParseBound | scripts/benchmark_contract.py:22-52 | A decoded value is accepted if and only if the file has at most 65536 bytes and the value is a legal declaration, item by item; each term's five fields are the five items in their places; a refusal reports the first check that fails, at the first term that fails one. |
| Contract.BoundLegal | scripts/benchmark_contract.py:34-51 | The checks hold if and only if the value is a list of 1 to 128 lists of five numbers in 0..2^63-1, the first two positive without a common divisor, the others at most 1024, and any two terms in lexicographic order of their exponents. |
| Contract.FailureUnique | scripts/benchmark_contract.py:39-51 | A refused list fails at only one term and with only one error. |
| Contract.LowestTermsMeans | scripts/benchmark_contract.py:45-46 | The reduced-fraction test holds if and only if 1 is the only common divisor. |
| Contract.MonomialsOrdered | scripts/benchmark_contract.py:49-51 | Comparing neighbours orders all pairs, so monomials are unique. |
| Contract.EncodingDenotes | scripts/benchmark_contract.py:59-63 | The predecessor-encoded terms evaluate under `evalBound` to the documented sum at every Q and qS. |
| Contract.DeclaredFloorExact | scripts/benchmark_contract.py:22-27 | Lean's two-point test on the rendered terms decides the inequality on the documented sum. |
| Contract.BoundEnds | scripts/benchmark_contract.py:59-63 | A rendered bound can be read off the front of any text, with a unique result and a unique rest. |
| Contract.BoundReadsBack | scripts/benchmark_contract.py:59-63 | Read by position, each anonymous constructor gives back its five fields in the declared order, and the text the whole list. |
| Contract.EncodeInjective | scripts/benchmark_contract.py:59-63 | Different term lists encode differently. |
| Contract.RenderInjective | scripts/benchmark_contract.py:66-78 | The rendered template determines sigma, hverify and the terms. |
| Contract.RenderReadsBack | scripts/benchmark_contract.py:66-78 | The rendered template states sigma, then hverify, then the encoded terms. |
| HashGraph.ValueBytesReads | LeanSphincs/OTS/Evaluate.lean:18-33 | The 16 little-endian bytes of a value read back as the value. |
| HashGraph.HashWeightLeast | LeanSphincs/OTS/Graph.lean:20-21 | The weight of an input is the least number of 64-byte units that holds it. |
| HashGraph.QueryLength | LeanSphincs/OTS/Evaluate.lean:47-64 | A query has 16 + 16n bytes and weighs exactly its gate's cost. |
| HashGraph.QueryLayout | LeanSphincs/OTS/Evaluate.lean:35-49 | The first 16 bytes of a query read as the address and each further 16-byte block as the value of one input, in order, least significant byte first. |
| HashGraph.InputValuesInjective | LeanSphincs/OTS/Evaluate.lean:35-42 | Two input encodings are equal if and only if the lists of values are. |
| HashGraph.QueryInjective | LeanSphincs/OTS/Evaluate.lean:51-60 | Two queries are equal if and only if the addresses and the lists of input values are. |
| HashGraph.QueryDeterminesGate | LeanSphincs/OTS/Graph.lean:35-39 | In a well-formed graph equal queries come from the same gate. |
| HashGraph.EvaluateFailsClosed | LeanSphincs/OTS/Evaluate.lean:112-118 | Evaluation returns a value if and only if `Reconstructs` accepts the schedule for the vertices present, whatever the answers. |
| HashGraph.GateOutputs | LeanSphincs/OTS/Evaluate.lean:83-87 | After one gate the first output is the low half and the second the high half of the 256-bit answer: low + 2^128 * high is the answer. |
| HashGraph.ChargeExact | LeanSphincs/OTS/Evaluate.lean:120-132 | The charge is the cost of the schedule's longest runnable prefix, repeated gates included, and nothing for the gate that stops it. |
| HashGraph.ChargeBound | LeanSphincs/OTS/Evaluate.lean:120-132 | On every answer stream the charge is at most the schedule's cost, with equality if and only if no input is ever missing. |
| HashGraph.DistinctCost | LeanSphincs/OTS/Evaluate.lean:93-104 | A schedule without repetitions costs what its set of gates costs. |
| HashGraph.DistinctWithinKeygen | LeanSphincs/OTS/Evaluate.lean:106-110 | Such a schedule costs at most key generation. |
| HashGraph.WriteAgrees | LeanSphincs/OTS/Reconstruct.lean:31-49 | Writing a consistent gate output keeps agreement with the reference and extends it to both outputs. |
| HashGraph.ReferenceHalves | LeanSphincs/OTS/Reconstruct.lean:17-20 | In every consistent reference the first output of a gate plus 2^128 times the second is the answer to the gate's query. |
| HashGraph.ReconstructsReference | LeanSphincs/OTS/Reconstruct.lean:51-76 | Any accepted schedule from values that agree with a consistent reference returns the reference root, repeated gates included. |
| HashGraph.ReferenceExists | LeanSphincs/OTS/Reconstruct.lean:17-20 | Every well-formed graph has a consistent reference with any given source values. |
| HashGraph.ReferenceUnique | LeanSphincs/OTS/Graph.lean:28-39 | Two consistent references with equal sources agree on every vertex available before a gate index, hence on all available ones. |
| HashGraph.KeygenAccepted | LeanSphincs/OTS/Graph.lean:45-52 | Running all gates in index order from the sources is an accepted schedule. |
| HashGraph.KeygenReturnsRoot | LeanSphincs/OTS/Evaluate.lean:112-118 | That run returns the root of the built reference. |
| HashGraph.KeygenCharge | LeanSphincs/OTS/Graph.lean:62-63 | On every answer stream that run is charged exactly the key generation cost. |
| HashGraph.DisclosureReturnsKeygenRoot | LeanSphincs/OTS/Reconstruct.lean:51-58 | Any accepted disclosure drawn from the key's values returns the very root that key generation returned. |
| Scanner.TakeTurn | scripts/check-submission-imports.sh:36-68 | One turn of the branches is one step of the four-state machine, and a block comment always has positive depth. |
| Scanner.StripComments | scripts/check-submission-imports.sh:29-69 | The loop writes what the step machine writes from its initial state. |
| Scanner.ParseSource | scripts/check-submission-imports.sh:39-68 | Every text has a parse tree in the grammar of code, nested comments and string literals. |
| Scanner.SourceUnique | scripts/check-submission-imports.sh:39-68 | Every text has only one such tree. |
| Scanner.ScanBody | scripts/check-submission-imports.sh:53-61 | From inside a block comment at any depth, exactly the comment's body is blanked, line feeds kept, and scanning resumes one level up. |
| Scanner.ScanLiteral | scripts/check-submission-imports.sh:62-68 | From inside a string exactly the literal is consumed: its interior is blanked, its closing quote is kept. |
| Scanner.ScanReadsGrammar | scripts/check-submission-imports.sh:36-68 | Scanning the text of a tree writes the tree's classification painted over the text. |
| Scanner.StripExact | scripts/check-submission-imports.sh:27-71 | The output is as long as the input and shows each character as its class in the unique parse demands. |
| Scanner.StripAt | scripts/check-submission-imports.sh:27-71 | Each character is kept or becomes a space; code and string delimiters are kept; every character of a comment or string interior becomes a space, line feeds excepted; a line feed is lost exactly when it is the second character of an escape. |
| Scanner.LinesKept | scripts/check-submission-imports.sh:19-20 | The output has the input's lines if and only if no line feed is escaped inside a string. |
| Scanner.EscapedLineFeedLost | scripts/check-submission-imports.sh:64-65 | A concrete string literal whose escaped line feed is blanked. |
| Scanner.ScanAgain | scripts/check-submission-imports.sh:36-68 | From any state, scanning the output again from the corresponding settled state changes nothing. |
| Scanner.StripIdempotent | scripts/check-submission-imports.sh:27-71 | Blanking twice is blanking once. |
| Imports.AuditedNext | scripts/check-submission-imports.sh:140-153 | Accepting one more line depends only on that line and on whether the header is still open. |
| Imports.FieldsWeave | scripts/check-submission-imports.sh:143-146 | Every line is its fields, none empty or with a separator in it, held apart by gaps of separators. |
| Imports.FieldsUnique | scripts/check-submission-imports.sh:143-146 | There is no other way to read a line so. |
| Imports.LoneNameExact | scripts/check-submission-imports.sh:148-150 | The pattern for a lone name matches exactly the lines that are blanks, a name and blanks. |
| Imports.LinesExact | scripts/check-submission-imports.sh:142-152 | What the automaton asks of a line holds exactly when its first word is `import`, when it is `import` and one name, or when it is a lone name. |
| Imports.ImportBlock | scripts/check-submission-imports.sh:140-153 | The automaton accepts if and only if every import names one module and precedes all other code, and no bare name stands in the header; it lists exactly those modules in order. |
| Imports.SingleImport | scripts/check-submission-imports.sh:143-147 | A source of one line `import m` is accepted with the one module m, for every name m. |
| Failure.Envelope | LeanSphincs/OTS/Failure.lean:26-43 | Survival after n contracting steps is at most (1-p)^n plus the allowances. |
| Failure.EnvelopeAttained | LeanSphincs/OTS/Failure.lean:26-33 | The bound cannot be improved: without contraction it is attained at every step. |
| Failure.PlainEnvelope | LeanSphincs/OTS/Failure.lean:12-24 | Without allowances survival is at most (1-p)^n, for any p <= 1. |
| Failure.Bernoulli | LeanSphincs/OTS/Failure.lean:49 | (1+p)^m >= 1 + m*p for non-negative p. |
| Failure.BlockHalves | LeanSphincs/OTS/Failure.lean:45-57 | m*p >= 1 with 0 <= p <= 1 gives (1-p)^m <= 1/2. |
| Failure.BlocksHalve | LeanSphincs/OTS/Failure.lean:64-69 | m*b such steps leave at most 2^-b, for every such m and p. |
| Failure.EncodingFailure | LeanSphincs/OTS/Failure.lean:59-69 | 65536*b steps at p = 2^-16 leave at most 2^-b. |
| Admission.LockStep | scripts/worker_admission.py:22-34 | Each action keeps the lock file and the lock table consistent, moves the lock only on acquisition, release or death, and acquires it only when it is free. |
| Admission.LogStep | scripts/worker_admission.py:22-34 | Each action extends the log to a log of one lock with one owner at a time, each process acquiring at most once. |
| Admission.FileStep | scripts/verify_submission.py:61-70 | A live temporary file belongs to one process and holds a prefix of its payload, all of it once synced. |
| Admission.NoLitter | scripts/verify_submission.py:63-70 | A write that fails and one that finishes leave no temporary file of their own and touch no other. |
| Admission.StoryStep | scripts/verify_submission.py:184-321 | Each action keeps every process's events in line with where it is in its program. |
| Admission.ResultStep | scripts/verify_submission.py:61-70 | Only a complete, synced payload is moved into place, and nothing in place is ever replaced. |
| Admission.StepInv | scripts/verify_submission.py:184-203 | Every action of every process and every power failure, undone renames included, keeps the whole invariant and what is on disk. |
| Admission.ActsKeepsResults | scripts/verify_submission.py:61-70 | No action, failure or kill of any process changes or removes a published result. |
| Admission.RunInv | scripts/verify_submission.py:184-203 | The invariant holds in every state of every run, whatever each power failure takes away. |
| Admission.MutualExclusion | scripts/worker_admission.py:15-34 | In every reachable state at most one process is between acquisition and release. |
| Admission.ResultsComplete | scripts/verify_submission.py:55-70 | At every moment, after any number of power failures, a result file that is there is unchanged from before the run or is one complete published payload. |
| Admission.ResultsStay | scripts/verify_submission.py:55-70 | While the host stays up, a published result never changes or disappears. |
| Admission.ResultsOnDiskStay | scripts/verify_submission.py:55-70 | A result whose name has reached the disk never changes or disappears, through power failures too. |
| Admission.SafeFromCrash | scripts/verify_submission.py:65-68 | A published result survives every possible power failure if and only if its name has reached the disk; otherwise some power failure undoes its rename. |
| Admission.IntervalsDisjoint | scripts/worker_admission.py:16-19 | In a log of one lock, nothing of another lock owner lies between a run's capture and its publication. |
| Admission.RunsDisjoint | scripts/verify_submission.py:184-189 | In every run the capture-to-publication intervals of admitted processes never overlap. |
| Admission.PublishStory | scripts/verify_submission.py:187-220 | Every publication by a lock holder comes after that process's capture, and the capture after its acquisition. |
| Admission.WholeStory | scripts/verify_submission.py:184-203 | In every reachable state each process has acquired, captured, published and released at most once each and in this order, or has done nothing, or has only published that it was refused. |
| Admission.CompleteRun | scripts/verify_submission.py:184-321 | From every initial state a run exists that acquires, captures, publishes any given payload and releases. |
| Admission.BusyRun | scripts/verify_submission.py:190-203 | While another process holds the lock, a run exists that is refused and publishes so, leaving the lock where it was. |
| Admission.OnlyAdmittedCapture | scripts/verify_submission.py:190-203 | A process that captured was given the lock; one that found it busy never captures. |
| Admission.UnlinkBreaksExclusion | scripts/worker_admission.py:18-19 | If someone removed the lock file while a run holds it, a second process could acquire a second lock, and both would be inside. |
| Receipts.StruckFirst | scripts/verify_submission.py:219-306 | The fault that decides a run is struck at the one point on its path that strikes while every earlier point on the path is quiet; there is none exactly when the whole path is quiet. |
| Receipts.Prepare | scripts/verify_submission.py:218-267 | What the preparation raises is its first fault: one from outside, a failed import check, or a failed build or axiom audit; only the stage changes, to that of the fault. |
| Receipts.Compare | scripts/verify_submission.py:273-299 | Freezing and comparing raise their first fault and move the stage, nothing else. |
| Receipts.Execute | scripts/verify_submission.py:268-299 | Compilation and comparison raise their first fault; the exit code passed on is the compiler's if it failed and the comparator's otherwise, and the new report is stated in full. |
| Receipts.Decide | scripts/verify_submission.py:303-306 | The flag and the score are set for a zero exit code unless a fault strikes before their lines. |
| Receipts.Conclude | scripts/verify_submission.py:300-306 | Exit code, status, flag and score are recorded exactly as far as the first fault allows, status and score only after the integrity check. |
| Receipts.TryBlock | scripts/verify_submission.py:219-306 | The try block raises its first fault, and leaves every tracked field as that fault determines. |
| Receipts.Publish | scripts/verify_submission.py:307-321 | The handlers pop the score and set the status by the kind of fault and the stage; a receipt appears unless a fault escapes them or stops the publication. |
| Receipts.Run | scripts/verify_submission.py:206-321 | A receipt is published if and only if the first fault does not escape, its handler runs and nothing stops the publication. Each of the five statuses is characterised by the first fault and the exit code. A score is there if and only if the run is accepted, is then sigma*hverify, and means all exit codes 0 and no drift. The flag equals acceptance if and only if nothing strikes between the flag and the end of the try block. |
| Receipts.FlagWithoutScore | scripts/verify_submission.py:305-306 | Running the case of an interrupt at the score publishes a receipt with the flag, status interrupted and no score. |
| Receipts.RunInterruptedAtScore | scripts/verify_submission.py:305-306 | So does every run whose first fault is an interrupt at the score, if publication is not stopped. |
| Snapshot.CheckNames | scripts/artifact_snapshot.py:24-32 | The name checks pass if and only if every name is allowed, the required modules are declared and each has its compiled file. |
| Strings.SplitDotsJoins | scripts/artifact_snapshot.py:14 | The pieces of a prefix have no dots and give the prefix back when joined by dots. |
| Strings.SplitDotsUnique | scripts/artifact_snapshot.py:14 | No other pieces do. |
| Snapshot.ReadWhole | scripts/artifact_snapshot.py:40-43 | A read of one byte beyond the budget is accepted if and only if the file fits, and is then the whole file. |
| Snapshot.ReadAll | scripts/artifact_snapshot.py:33-45 | The loop succeeds if and only if every file is regular and the per-file and total caps hold; it returns whole files and reads at most MAX_TOTAL + 1 bytes, even when it fails. |
| Snapshot.Capture | scripts/artifact_snapshot.py:13-47 | The whole capture succeeds if and only if the prefix is made of identifiers, the names fit and the caps hold; a bad prefix is refused first. |
| Snapshot.CapturableExact | scripts/artifact_snapshot.py:24-43 | Written out: every name is a declared module with one of the seven suffixes, every file is regular and at most 268435456 bytes, all together at most 2147483648; the compiled Scheme and Solution are there if declared, or what is asked for instead. |
| Snapshot.Directory.Create | scripts/artifact_snapshot.py:54-55 | Exclusive creation adds one file with these bytes, or fails and changes nothing. |
| Snapshot.Freeze | scripts/artifact_snapshot.py:50-58 | Freezing succeeds if and only if the capture does and no name exists yet; the verifier's directory then gains exactly the captured bytes. However it ends, nothing that was there changes and nothing but captured files is added. |
| Snapshot.WriteAll | scripts/artifact_snapshot.py:53-55 | The write loop succeeds if and only if no name exists yet, and then adds exactly the bundle; if it stops midway it has added only files of the bundle. |
| Snapshot.RecaptureSame | scripts/artifact_snapshot.py:50-58 | The frozen files are capturable and yield the same bundle. |
| Snapshot.FreezeAndRecapture | scripts/artifact_snapshot.py:50-58 | Freezing, letting the compiler's directory become anything at all, and capturing the frozen directory returns the frozen bundle. |
| Snapshot.RecaptureDetectsExtra | scripts/verify_submission.py:79-80 | A later capture succeeds with the same bundle if and only if no other file was in the directory; otherwise it refuses or differs. |
| Snapshot.ManifestCompares | scripts/source_bundle.py:60-64 | For a digest that separates the contents in question, manifests, outer digest included, are equal if and only if the bundles are. |
| SourceBundle.ReadSource | scripts/source_bundle.py:34-53 | One file is accepted if and only if its name, type, metadata size, real size, running total and text are; it is returned whole. |
| SourceBundle.ReadSources | scripts/source_bundle.py:32-55 | The loop succeeds if and only if every file is accepted and the total cap holds. |
| SourceBundle.CaptureSources | scripts/source_bundle.py:15-57 | Capture returns all files whole if and only if there are at most 1000, the required ones are present and all are accepted; what it reads stays within the total cap plus one file. |
| SourceBundle.AcceptableExact | scripts/source_bundle.py:10-53 | Written out: at most 1000 files, the five required ones among them, every other name an identifier with `.lean`, every file regular and at most 4194304 bytes, module texts decodable and without NUL, at most 10485760 bytes in all. |
| SourceBundle.Materialize | scripts/source_bundle.py:67-71 | An existing destination is refused and left alone; otherwise the new directory holds exactly the bundle. |
| SourceBundle.CaptureOfMaterialized | scripts/verify_submission.py:77-78 | Capturing the materialised copy succeeds and yields the same bundle. |
| Integrity.CheckIntegrity | scripts/verify_submission.py:73-86 | The check passes if and only if sources and, if recorded, artifacts can be captured again with the recorded manifests and the surroundings are unchanged. |
| Integrity.MatchMeansSame | scripts/verify_submission.py:77-78 | For a separating digest the recorded manifest matches exactly the acceptable directories with the captured contents. |
| Integrity.ArtifactsMatchMeansSame | scripts/verify_submission.py:79-80 | The same for the artifacts. |
| Integrity.UntouchedMatches | scripts/verify_submission.py:77-80 | The private copies, left alone, match. |
| Integrity.RunFinding | scripts/verify_submission.py:300-306 | A scored receipt means that the directories found at the check held exactly the bytes captured at the start, and that harness, dependencies and tools were the same. |

## Left out

- Contract.RenderInjective: the fixed template text before and after the three values is a parameter.
- Snapshot.ReadAll: visits the names in arbitrary order; the source sorts them, which only decides which error comes first.
- SourceBundle.ReadSources: visits the names in arbitrary order, for the same reason.
- Snapshot.Freeze: the modes given to files and directory afterwards are not modelled, nor which part of the bundle is written when it stops midway.
- Snapshot.ManifestCompares: SHA-256 is an arbitrary function assumed to separate the contents compared, and the JSON encoding of the listing an arbitrary function.
- SourceBundle.ReadSource: strict UTF-8 decoding is a predicate parameter, and a NUL character is a zero byte.
- Receipts.Run: statements between two changes of a tracked field form one program point, so a fault strikes before or after such a group; log digests, time stamps, manifests and deployment gates are not receipt fields of the model.
- Admission.StepInv: a lock descriptor inherited by a child process and a temporary file whose removal fails while the host stays up are not modelled; a power failure leaves arbitrary temporary files.
- Admission.UnlinkBreaksExclusion: removing the lock file is no action of the state machine, because no verifier does it.
- Experiments.Run: profiles, objectives and family names are enumerated types, so the errors for unknown names and for an empty hash input cannot arise; a request's price is a real number instead of a fraction.
- HashGraph.ReconstructsReference: answers are a function of the query; randomised key generation and the lazy random oracle are not part of this model.
- Bound.FloorExact: Lean's rationals are Dafny reals, on which the same field operations agree; only the reduced denominator of B(1) is computed with fractions of naturals.
- Bound.AtFloor: the advantage is an arbitrary real below the declared bound; the SUF-CMA game that defines it is not part of this model.
- Imports.ImportBlock: `[[:space:]]` and awk's field splitting are modelled on characters of the ASCII range.
- The grep audits for forbidden keywords, the module allowlist and the file-layout checks of scripts/check-submission-imports.sh: single pattern matches.
- Python's text mode, which turns carriage returns into line feeds before the blanker runs: the model starts from the decoded text.
- JSON decoding and encoding, argument parsing and the historical `rank_key` and `additive_score` formulas: library code and one-line formulas.
- Subprocesses, sandboxing, systemd, git checks and no-follow opens: operating-system behaviour, which the run model treats as arbitrary outcomes.
- VCVio probability statements and adaptive availability: they rest on libraries outside the repository.
