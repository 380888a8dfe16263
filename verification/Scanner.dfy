/**
 The comment and string blanker: a four-state scanner, and the nested grammar it implements.
 */
module Scanner {
  import opened Strings

  datatype State = Normal | Line | Block | Str

  predicate Starts(s: string, a: char, b: char) {
    |s| >= 2 && s[0] == a && s[1] == b
  }

  function Dim(c: char): char {
    if c == '\n' then '\n' else ' '
  }

  /** One turn of the scanner: what it writes, which is also how much it reads, and where it goes on. */
  datatype Turn = Turn(out: string, state: State, depth: nat)

  function Step(state: State, depth: nat, s: string): (t: Turn)
    requires s != []
    ensures 1 <= |t.out| <= 2 && |t.out| <= |s|
  {
    match state
    case Normal =>
      if Starts(s, '-', '-') then Turn("  ", Line, depth)
      else if Starts(s, '/', '-') then Turn("  ", Block, 1)
      else if s[0] == '"' then Turn("\"", Str, depth)
      else Turn([s[0]], Normal, depth)
    case Line =>
      if s[0] == '\n' then Turn("\n", Normal, depth) else Turn(" ", Line, depth)
    case Block =>
      if Starts(s, '/', '-') then Turn("  ", Block, depth + 1)
      else if Starts(s, '-', '/') then
        if depth <= 1 then Turn("  ", Normal, 0) else Turn("  ", Block, depth - 1)
      else Turn([Dim(s[0])], Block, depth)
    case Str =>
      if s[0] == '\\' && |s| > 1 then Turn("  ", Str, depth)
      else if s[0] == '"' then Turn("\"", Normal, depth)
      else Turn([Dim(s[0])], Str, depth)
  }

  /** What the scanner still writes from a state, a comment depth and the rest of the text. */
  function Scan(state: State, depth: nat, s: string): string
    decreases |s|
  {
    if s == [] then [] else
      var t := Step(state, depth, s);
      t.out + Scan(t.state, t.depth, s[|t.out|..])
  }

  /** The body of the loop: the branches on the state and the next two characters. */
  method TakeTurn(state0: State, depth0: nat, rest: string) returns (emit: string, state: State, depth: nat)
    requires rest != [] && (state0 == Block ==> depth0 >= 1)
    ensures Turn(emit, state, depth) == Step(state0, depth0, rest)
    ensures state == Block ==> depth >= 1
  {
    var c := rest[0];
    state, depth := state0, depth0;
    match state {
      case Normal =>
        if Starts(rest, '-', '-') {
          state := Line; emit := "  ";
        } else if Starts(rest, '/', '-') {
          state := Block; depth := 1; emit := "  ";
        } else if c == '"' {
          state := Str; emit := "\"";
        } else {
          emit := [c];
        }
      case Line =>
        if c == '\n' {
          state := Normal; emit := "\n";
        } else {
          emit := " ";
        }
      case Block =>
        if Starts(rest, '/', '-') {
          depth := depth + 1; emit := "  ";
        } else if Starts(rest, '-', '/') {
          depth := depth - 1; emit := "  ";
          if depth == 0 {
            state := Normal;
          }
        } else {
          emit := [Dim(c)];
        }
      case Str =>
        if c == '\\' && |rest| > 1 {
          emit := "  ";
        } else if c == '"' {
          emit := "\""; state := Normal;
        } else {
          emit := [Dim(c)];
        }
    }
  }

  /** The scanner loop. */
  method StripComments(data: string) returns (out: string)
    ensures out == Scan(Normal, 0, data)
  {
    out := [];
    var i, n := 0, |data|;
    var state := Normal;
    var depth: nat := 0;
    ScanBegins(data);
    while i < n
      invariant 0 <= i <= n == |data|
      invariant state == Block ==> depth >= 1
      invariant OnTrack(out, state, depth, data, i)
    {
      ghost var before, at, from, level := out, i, state, depth;
      var emit;
      emit, state, depth := TakeTurn(state, depth, data[i..]);
      out := out + emit;
      i := i + |emit|;
      ScanTurn(before, at, from, level, data, emit, out, i, state, depth);
    }
    ScanEnds(out, state, depth, data);
  }

  lemma ScanBegins(data: string)
    ensures OnTrack([], Normal, 0, data, 0)
  {
    assert data[0..] == data;
  }

  lemma ScanEnds(out: string, state: State, depth: nat, data: string)
    requires OnTrack(out, state, depth, data, |data|)
    ensures out == Scan(Normal, 0, data)
  {
    assert data[|data|..] == [];
  }

  /** What is written and what is still to be written make up the result. */
  ghost predicate OnTrack(out: string, state: State, depth: nat, data: string, i: nat) {
    i <= |data| && out + Scan(state, depth, data[i..]) == Scan(Normal, 0, data)
  }

  lemma ScanTurn(before: string, at: nat, from: State, level: nat, data: string,
                 emit: string, out: string, i: nat, state: State, depth: nat)
    requires at < |data| && OnTrack(before, from, level, data, at)
    requires Turn(emit, state, depth) == Step(from, level, data[at..])
    requires out == before + emit && i == at + |emit|
    ensures i <= |data| && OnTrack(out, state, depth, data, i)
  {
    assert data[at..][|emit|..] == data[i..];
    Join(before, emit, Scan(state, depth, data[i..]));
  }

  lemma Join(a: string, b: string, c: string)
    ensures a + b + c == a + (b + c)
  {
  }

  // ----- The grammar -----

  /** The inside of a block comment: up to its own closing mark, with nested comments as trees. */
  datatype Body = Closed | Unclosed | Inner(c: char, rest: Body) | Nested(inner: Body, rest: Body)

  /** The inside of a string literal. */
  datatype Literal = Quote | Open | Plain(c: char, rest: Literal) | Escape(c: char, rest: Literal)

  datatype Source =
    | End
    | Code(c: char, rest: Source)
    | LineComment(body: string, rest: Source)
    | BlockComment(comment: Body, rest: Source)
    | StringLiteral(literal: Literal, rest: Source)

  function BodyText(b: Body): string {
    match b
    case Closed => "-/"
    case Unclosed => ""
    case Inner(c, rest) => [c] + BodyText(rest)
    case Nested(inner, rest) => "/-" + (BodyText(inner) + BodyText(rest))
  }

  function LiteralText(l: Literal): string {
    match l
    case Quote => "\""
    case Open => ""
    case Plain(c, rest) => [c] + LiteralText(rest)
    case Escape(c, rest) => ['\\', c] + LiteralText(rest)
  }

  function Text(t: Source): string {
    match t
    case End => ""
    case Code(c, rest) => [c] + Text(rest)
    case LineComment(body, rest) => "--" + (body + Text(rest))
    case BlockComment(comment, rest) => "/-" + (BodyText(comment) + Text(rest))
    case StringLiteral(literal, rest) => "\"" + (LiteralText(literal) + Text(rest))
  }

  // Whether a tree is the one its text calls for, given the text that follows it: marks are never
  // read as ordinary characters, and only the end of the file leaves something open.

  predicate BodyFits(b: Body, tail: string) {
    match b
    case Closed => true
    case Unclosed => tail == ""
    case Inner(c, rest) =>
      var s := [c] + (BodyText(rest) + tail);
      !Starts(s, '/', '-') && !Starts(s, '-', '/') && BodyFits(rest, tail)
    case Nested(inner, rest) => BodyFits(inner, BodyText(rest) + tail) && BodyFits(rest, tail)
  }

  predicate LiteralFits(l: Literal, tail: string) {
    match l
    case Quote => true
    case Open => tail == ""
    case Plain(c, rest) => c != '"' && (c == '\\' ==> LiteralText(rest) + tail == "") && LiteralFits(rest, tail)
    case Escape(_, rest) => LiteralFits(rest, tail)
  }

  predicate Fits(t: Source) {
    match t
    case End => true
    case Code(c, rest) =>
      var s := [c] + Text(rest);
      !Starts(s, '-', '-') && !Starts(s, '/', '-') && c != '"' && Fits(rest)
    case LineComment(body, rest) => '\n' !in body && (Text(rest) != "" ==> Text(rest)[0] == '\n') && Fits(rest)
    case BlockComment(comment, rest) => BodyFits(comment, Text(rest)) && Fits(rest)
    case StringLiteral(literal, rest) => LiteralFits(literal, Text(rest)) && Fits(rest)
  }

  // ----- What each character is -----

  datatype Kind = InCode | Delimiter | InComment | Quoted | Escaped

  function All(n: nat, k: Kind): seq<Kind> {
    seq(n, _ => k)
  }

  function LiteralKinds(l: Literal): seq<Kind> {
    match l
    case Quote => [Delimiter]
    case Open => []
    case Plain(_, rest) => [Quoted] + LiteralKinds(rest)
    case Escape(_, rest) => [Quoted, Escaped] + LiteralKinds(rest)
  }

  function Kinds(t: Source): seq<Kind> {
    match t
    case End => []
    case Code(_, rest) => [InCode] + Kinds(rest)
    case LineComment(body, rest) => All(2 + |body|, InComment) + Kinds(rest)
    case BlockComment(comment, rest) => All(2 + |BodyText(comment)|, InComment) + Kinds(rest)
    case StringLiteral(literal, rest) => [Delimiter] + (LiteralKinds(literal) + Kinds(rest))
  }

  function Show(k: Kind, c: char): char {
    match k
    case InCode => c
    case Delimiter => c
    case Escaped => ' '
    case _ => Dim(c)
  }

  function Paint(ks: seq<Kind>, s: string): string
    requires |ks| == |s|
  {
    seq(|s|, i requires 0 <= i < |s| => Show(ks[i], s[i]))
  }

  lemma {:induction false} LiteralKindsLength(l: Literal)
    ensures |LiteralKinds(l)| == |LiteralText(l)|
  {
    match l
    case Quote =>
    case Open =>
    case Plain(_, rest) => LiteralKindsLength(rest);
    case Escape(_, rest) => LiteralKindsLength(rest);
  }

  lemma {:induction false} KindsLength(t: Source)
    ensures |Kinds(t)| == |Text(t)|
  {
    match t
    case End =>
    case Code(_, rest) => KindsLength(rest);
    case LineComment(_, rest) => KindsLength(rest);
    case BlockComment(_, rest) => KindsLength(rest);
    case StringLiteral(literal, rest) => LiteralKindsLength(literal); KindsLength(rest);
  }

  function Dimmed(s: string): string {
    seq(|s|, i requires 0 <= i < |s| => Dim(s[i]))
  }

  // ----- The scanner reads the grammar -----

  lemma ScanHead(state: State, depth: nat, head: string, rest: string, t: Turn)
    requires head != [] && Step(state, depth, head + rest) == t && |t.out| == |head|
    ensures Scan(state, depth, head + rest) == t.out + Scan(t.state, t.depth, rest)
  {
    assert (head + rest)[|head|..] == rest;
  }

  lemma DimmedConcat(a: string, b: string)
    ensures Dimmed(a + b) == Dimmed(a) + Dimmed(b)
  {
  }

  /** The scanner after the closing mark of a comment at this depth. */
  function AfterBlock(depth: nat, tail: string): string
    requires depth >= 1
  {
    Scan(if depth == 1 then Normal else Block, depth - 1, tail)
  }

  /** A comment body is dimmed whole, and the scanner comes back one level up. */
  ghost predicate ReadsBody(text: string, depth: nat, tail: string) {
    depth >= 1 && Scan(Block, depth, text + tail) == Dimmed(text) + AfterBlock(depth, tail)
  }

  /** A nesting counter reads a comment tree. */
  lemma {:induction false} ScanBody(b: Body, depth: nat, tail: string)
    requires BodyFits(b, tail) && depth >= 1
    ensures ReadsBody(BodyText(b), depth, tail)
  {
    match b
    case Closed => ScanClosed(depth, tail);
    case Unclosed => ScanUnclosed(depth);
    case Inner(c, rest) =>
      ScanBody(rest, depth, tail);
      ScanInner(c, BodyText(rest), tail, depth);
    case Nested(inner, rest) =>
      ScanBody(inner, depth + 1, BodyText(rest) + tail);
      ScanBody(rest, depth, tail);
      ScanNested(BodyText(inner), BodyText(rest), tail, depth);
  }

  lemma ScanUnclosed(depth: nat)
    requires depth >= 1
    ensures ReadsBody("", depth, "")
  {
    assert "" + "" == "";
  }

  lemma ScanClosed(depth: nat, tail: string)
    requires depth >= 1
    ensures ReadsBody("-/", depth, tail)
  {
    ScanHead(Block, depth, "-/", tail, Turn("  ", if depth == 1 then Normal else Block, depth - 1));
    assert Dimmed("-/") == "  ";
  }

  lemma ScanInner(c: char, text: string, tail: string, depth: nat)
    requires !Starts([c] + (text + tail), '/', '-') && !Starts([c] + (text + tail), '-', '/')
    requires ReadsBody(text, depth, tail)
    ensures ReadsBody([c] + text, depth, tail)
  {
    Join([c], text, tail);
    ScanHead(Block, depth, [c], text + tail, Turn([Dim(c)], Block, depth));
    DimmedConcat([c], text);
    Join([Dim(c)], Dimmed(text), AfterBlock(depth, tail));
  }

  lemma ScanNested(inner: string, text: string, tail: string, depth: nat)
    requires ReadsBody(inner, depth + 1, text + tail) && ReadsBody(text, depth, tail)
    ensures ReadsBody("/-" + (inner + text), depth, tail)
  {
    Join("/-", inner + text, tail);
    Join(inner, text, tail);
    ScanHead(Block, depth, "/-", inner + (text + tail), Turn("  ", Block, depth + 1));
    NestedDimmed(inner, text, AfterBlock(depth, tail));
  }

  lemma NestedDimmed(inner: string, text: string, after: string)
    ensures "  " + (Dimmed(inner) + (Dimmed(text) + after)) == Dimmed("/-" + (inner + text)) + after
  {
    DimmedConcat("/-", inner + text);
    DimmedConcat(inner, text);
    assert Dimmed("/-") == "  ";
    Join(Dimmed(inner), Dimmed(text), after);
    Join("  ", Dimmed(inner) + Dimmed(text), after);
  }

  lemma PaintConcat(ks: seq<Kind>, ms: seq<Kind>, s: string, t: string)
    requires |ks| == |s| && |ms| == |t|
    ensures Paint(ks + ms, s + t) == Paint(ks, s) + Paint(ms, t)
  {
  }

  lemma PaintComment(s: string)
    ensures Paint(All(|s|, InComment), s) == Dimmed(s)
  {
  }

  /** A string body is painted by its kinds, and the scanner is back in code. */
  ghost predicate ReadsLiteral(ks: seq<Kind>, text: string, depth: nat, tail: string) {
    |ks| == |text| && Scan(Str, depth, text + tail) == Paint(ks, text) + Scan(Normal, depth, tail)
  }

  lemma {:induction false} ScanLiteral(l: Literal, depth: nat, tail: string)
    requires LiteralFits(l, tail)
    ensures ReadsLiteral(LiteralKinds(l), LiteralText(l), depth, tail)
  {
    match l
    case Quote =>
      ScanHead(Str, depth, "\"", tail, Turn("\"", Normal, depth));
    case Open =>
    case Plain(c, rest) =>
      ScanLiteral(rest, depth, tail);
      ScanMore([c], [Quoted], [Dim(c)], LiteralKinds(rest), LiteralText(rest), depth, tail);
    case Escape(c, rest) =>
      ScanLiteral(rest, depth, tail);
      ScanMore(['\\', c], [Quoted, Escaped], "  ", LiteralKinds(rest), LiteralText(rest), depth, tail);
  }

  lemma ScanMore(head: string, hs: seq<Kind>, out: string, ks: seq<Kind>, text: string, depth: nat, tail: string)
    requires head != [] && |hs| == |head| == |out| <= 2 && Paint(hs, head) == out
    requires Step(Str, depth, head + (text + tail)) == Turn(out, Str, depth)
    requires ReadsLiteral(ks, text, depth, tail)
    ensures ReadsLiteral(hs + ks, head + text, depth, tail)
  {
    Join(head, text, tail);
    ScanHead(Str, depth, head, text + tail, Turn(out, Str, depth));
    PaintConcat(hs, ks, head, text);
    Join(out, Paint(ks, text), Scan(Normal, depth, tail));
  }

  ghost predicate ReadsLine(body: string, depth: nat, tail: string) {
    Scan(Line, depth, body + tail) == Dimmed(body) + Scan(Normal, depth, tail)
  }

  lemma {:induction false} ScanLine(body: string, depth: nat, tail: string)
    requires '\n' !in body && (tail != "" ==> tail[0] == '\n')
    ensures ReadsLine(body, depth, tail)
  {
    if body == [] {
      LineEnd(depth, tail);
      assert [] + tail == tail;
    } else {
      var c, rest := body[0], body[1..];
      assert body == [c] + rest && c in body;
      ScanLine(rest, depth, tail);
      LineMore(c, rest, depth, tail);
    }
  }

  lemma LineEnd(depth: nat, tail: string)
    requires tail != "" ==> tail[0] == '\n'
    ensures Scan(Line, depth, tail) == Scan(Normal, depth, tail)
  {
    if tail != [] {
      assert Step(Line, depth, tail) == Step(Normal, depth, tail);
    }
  }

  lemma LineMore(c: char, rest: string, depth: nat, tail: string)
    requires c != '\n' && ReadsLine(rest, depth, tail)
    ensures ReadsLine([c] + rest, depth, tail)
  {
    Join([c], rest, tail);
    ScanHead(Line, depth, [c], rest + tail, Turn(" ", Line, depth));
    DimmedConcat([c], rest);
    assert Dimmed([c]) == " ";
    Join(" ", Dimmed(rest), Scan(Normal, depth, tail));
  }

  /** A text is painted by its kinds. */
  ghost predicate ReadsCode(ks: seq<Kind>, text: string, depth: nat) {
    |ks| == |text| && Scan(Normal, depth, text) == Paint(ks, text)
  }

  /** What the scanner writes is the text painted by the grammar's kinds, character by character. */
  lemma {:induction false} ScanReadsGrammar(t: Source, depth: nat)
    requires Fits(t)
    ensures ReadsCode(Kinds(t), Text(t), depth)
  {
    match t
    case End =>
    case Code(c, rest) =>
      ScanReadsGrammar(rest, depth);
      CodeMore(c, Kinds(rest), Text(rest), depth);
    case LineComment(body, rest) =>
      ScanReadsGrammar(rest, depth);
      ScanLine(body, depth, Text(rest));
      LineThen(body, Kinds(rest), Text(rest), depth);
    case BlockComment(comment, rest) =>
      ScanReadsGrammar(rest, 0);
      ScanBody(comment, 1, Text(rest));
      BlockThen(BodyText(comment), Kinds(rest), Text(rest), depth);
    case StringLiteral(literal, rest) =>
      ScanReadsGrammar(rest, depth);
      ScanLiteral(literal, depth, Text(rest));
      StringThen(LiteralKinds(literal), LiteralText(literal), Kinds(rest), Text(rest), depth);
  }

  lemma CodeMore(c: char, ks: seq<Kind>, rest: string, depth: nat)
    requires ReadsCode(ks, rest, depth)
    requires c != '"' && !Starts([c] + rest, '-', '-') && !Starts([c] + rest, '/', '-')
    ensures ReadsCode([InCode] + ks, [c] + rest, depth)
  {
    ScanHead(Normal, depth, [c], rest, Turn([c], Normal, depth));
    PaintConcat([InCode], ks, [c], rest);
  }

  lemma LineThen(body: string, ks: seq<Kind>, rest: string, depth: nat)
    requires ReadsCode(ks, rest, depth) && ReadsLine(body, depth, rest)
    ensures ReadsCode(All(2 + |body|, InComment) + ks, "--" + (body + rest), depth)
  {
    ScanHead(Normal, depth, "--", body + rest, Turn("  ", Line, depth));
    PaintMarked("--", body, ks, rest);
  }

  lemma BlockThen(body: string, ks: seq<Kind>, rest: string, depth: nat)
    requires ReadsCode(ks, rest, 0) && ReadsBody(body, 1, rest)
    ensures ReadsCode(All(2 + |body|, InComment) + ks, "/-" + (body + rest), depth)
  {
    ScanHead(Normal, depth, "/-", body + rest, Turn("  ", Block, 1));
    PaintMarked("/-", body, ks, rest);
  }

  lemma StringThen(ls: seq<Kind>, body: string, ks: seq<Kind>, rest: string, depth: nat)
    requires ReadsCode(ks, rest, depth) && ReadsLiteral(ls, body, depth, rest)
    ensures ReadsCode([Delimiter] + (ls + ks), "\"" + (body + rest), depth)
  {
    ScanHead(Normal, depth, "\"", body + rest, Turn("\"", Str, depth));
    PaintConcat(ls, ks, body, rest);
    PaintConcat([Delimiter], ls + ks, "\"", body + rest);
  }

  lemma PaintMarked(mark: string, body: string, ks: seq<Kind>, rest: string)
    requires |ks| == |rest| && |mark| == 2 && '\n' !in mark
    ensures Paint(All(2 + |body|, InComment) + ks, mark + (body + rest)) == "  " + (Dimmed(body) + Paint(ks, rest))
  {
    Join(mark, body, rest);
    PaintConcat(All(2 + |body|, InComment), ks, mark + body, rest);
    PaintComment(mark + body);
    DimmedConcat(mark, body);
    assert Dimmed(mark) == "  ";
    Join("  ", Dimmed(body), Paint(ks, rest));
  }

  // ----- Every text has one tree -----

  lemma {:induction false} ParseBody(s: string) returns (b: Body, tail: string)
    ensures s == BodyText(b) + tail && BodyFits(b, tail)
    decreases |s|
  {
    if s == "" {
      b, tail := Unclosed, "";
    } else if Starts(s, '-', '/') {
      b, tail := Closed, s[2..];
      assert s == "-/" + tail;
    } else if Starts(s, '/', '-') {
      var inner, after := ParseBody(s[2..]);
      var rest;
      rest, tail := ParseBody(after);
      b := Nested(inner, rest);
      assert s == "/-" + s[2..];
      Join("/-", BodyText(inner) + BodyText(rest), tail);
      Join(BodyText(inner), BodyText(rest), tail);
    } else {
      var rest;
      rest, tail := ParseBody(s[1..]);
      b := Inner(s[0], rest);
      assert s == [s[0]] + s[1..];
      Join([s[0]], BodyText(rest), tail);
    }
  }

  lemma {:induction false} ParseLiteral(s: string) returns (l: Literal, tail: string)
    ensures s == LiteralText(l) + tail && LiteralFits(l, tail)
    decreases |s|
  {
    if s == "" {
      l, tail := Open, "";
    } else if s[0] == '\\' && |s| > 1 {
      var rest;
      rest, tail := ParseLiteral(s[2..]);
      l := Escape(s[1], rest);
      assert s == ['\\', s[1]] + s[2..];
      Join(['\\', s[1]], LiteralText(rest), tail);
    } else if s[0] == '"' {
      l, tail := Quote, s[1..];
      assert s == "\"" + tail;
    } else {
      var rest;
      rest, tail := ParseLiteral(s[1..]);
      l := Plain(s[0], rest);
      assert s == [s[0]] + s[1..];
      Join([s[0]], LiteralText(rest), tail);
    }
  }

  lemma {:induction false} ParseLine(s: string) returns (body: string, tail: string)
    ensures s == body + tail && '\n' !in body && (tail != "" ==> tail[0] == '\n')
  {
    if s == "" || s[0] == '\n' {
      body, tail := "", s;
    } else {
      body, tail := ParseLine(s[1..]);
      Join([s[0]], body, tail);
      body := [s[0]] + body;
    }
  }

  lemma {:induction false} ParseSource(s: string) returns (t: Source)
    ensures Text(t) == s && Fits(t)
    decreases |s|
  {
    if s == "" {
      t := End;
    } else if Starts(s, '-', '-') {
      var body, tail := ParseLine(s[2..]);
      var rest := ParseSource(tail);
      t := LineComment(body, rest);
      assert s == "--" + s[2..];
    } else if Starts(s, '/', '-') {
      var comment, tail := ParseBody(s[2..]);
      var rest := ParseSource(tail);
      t := BlockComment(comment, rest);
      assert s == "/-" + s[2..];
    } else if s[0] == '"' {
      var literal, tail := ParseLiteral(s[1..]);
      var rest := ParseSource(tail);
      t := StringLiteral(literal, rest);
      assert s == "\"" + s[1..];
    } else {
      var rest := ParseSource(s[1..]);
      t := Code(s[0], rest);
      assert s == [s[0]] + s[1..];
    }
  }

  lemma {:induction false} BodyUnique(b: Body, c: Body, s: string, t: string)
    requires BodyFits(b, s) && BodyFits(c, t) && BodyText(b) + s == BodyText(c) + t
    ensures b == c && s == t
    decreases b
  {
    var w := BodyText(b) + s;
    BodyStart(b, s);
    BodyStart(c, t);
    match b
    case Closed => CancelHead("-/", s, t);
    case Unclosed =>
    case Inner(x, rest) =>
      Join([x], BodyText(rest), s);
      Join([c.c], BodyText(c.rest), t);
      assert w[0] == x == c.c;
      CancelHead([x], BodyText(rest) + s, BodyText(c.rest) + t);
      BodyUnique(rest, c.rest, s, t);
    case Nested(inner, rest) =>
      Regroup(BodyText(inner), BodyText(rest), s);
      Regroup(BodyText(c.inner), BodyText(c.rest), t);
      CancelHead("/-", BodyText(inner) + (BodyText(rest) + s), BodyText(c.inner) + (BodyText(c.rest) + t));
      BodyUnique(inner, c.inner, BodyText(rest) + s, BodyText(c.rest) + t);
      BodyUnique(rest, c.rest, s, t);
  }

  lemma Regroup(a: string, b: string, c: string)
    ensures "/-" + (a + b) + c == "/-" + (a + (b + c))
  {
  }

  /** The first two characters of a fitting text tell which kind of tree it is. */
  lemma BodyStart(b: Body, s: string)
    requires BodyFits(b, s)
    ensures var w := BodyText(b) + s;
            && (b.Unclosed? <==> w == "")
            && (b.Closed? <==> Starts(w, '-', '/'))
            && (b.Nested? <==> Starts(w, '/', '-'))
  {
    match b
    case Closed =>
    case Unclosed =>
    case Inner(c, rest) => Join([c], BodyText(rest), s);
    case Nested(inner, rest) => Regroup(BodyText(inner), BodyText(rest), s);
  }

  lemma {:induction false} LiteralUnique(l: Literal, m: Literal, s: string, t: string)
    requires LiteralFits(l, s) && LiteralFits(m, t) && LiteralText(l) + s == LiteralText(m) + t
    ensures l == m && s == t
    decreases l
  {
    LiteralStart(l, s);
    LiteralStart(m, t);
    match l
    case Quote => CancelHead("\"", s, t);
    case Open =>
    case Plain(c, rest) =>
      Join([c], LiteralText(rest), s);
      Join([m.c], LiteralText(m.rest), t);
      assert (LiteralText(l) + s)[0] == c == m.c;
      CancelHead([c], LiteralText(rest) + s, LiteralText(m.rest) + t);
      LiteralUnique(rest, m.rest, s, t);
    case Escape(c, rest) =>
      Join(['\\', c], LiteralText(rest), s);
      Join(['\\', m.c], LiteralText(m.rest), t);
      assert (LiteralText(l) + s)[1] == c == m.c;
      CancelHead(['\\', c], LiteralText(rest) + s, LiteralText(m.rest) + t);
      LiteralUnique(rest, m.rest, s, t);
  }

  lemma LiteralStart(l: Literal, s: string)
    requires LiteralFits(l, s)
    ensures var w := LiteralText(l) + s;
            && (l.Open? <==> w == "")
            && (l.Quote? <==> w != "" && w[0] == '"')
            && (l.Escape? <==> |w| > 1 && w[0] == '\\')
  {
    match l
    case Quote =>
    case Open =>
    case Plain(c, rest) => Join([c], LiteralText(rest), s);
    case Escape(c, rest) => Join(['\\', c], LiteralText(rest), s);
  }

  lemma {:induction false} LineUnique(b: string, c: string, s: string, t: string)
    requires '\n' !in b && '\n' !in c && b + s == c + t
    requires (s != "" ==> s[0] == '\n') && (t != "" ==> t[0] == '\n')
    ensures b == c && s == t
  {
    var w := b + s;
    assert forall i :: 0 <= i < |b| ==> w[i] == b[i] && b[i] in b;
    assert forall i :: 0 <= i < |c| ==> w[i] == c[i] && c[i] in c;
    assert |b| < |w| ==> w[|b|] == s[0];
    assert |c| < |w| ==> w[|c|] == t[0];
    assert b == w[..|b|] && c == w[..|c|];
    CancelHead(b, s, t);
  }

  lemma SourceStart(t: Source)
    requires Fits(t)
    ensures var w := Text(t);
            && (t.End? <==> w == "")
            && (t.LineComment? <==> Starts(w, '-', '-'))
            && (t.BlockComment? <==> Starts(w, '/', '-'))
            && (t.StringLiteral? <==> w != "" && w[0] == '"')
  {
  }

  /** The grammar is unambiguous. */
  lemma {:induction false} SourceUnique(t: Source, u: Source)
    requires Fits(t) && Fits(u) && Text(t) == Text(u)
    ensures t == u
    decreases t
  {
    SourceStart(t);
    SourceStart(u);
    match t
    case End =>
    case Code(c, rest) =>
      assert Text(t)[0] == c && Text(u)[0] == u.c;
      CancelHead([c], Text(rest), Text(u.rest));
      SourceUnique(rest, u.rest);
    case LineComment(body, rest) =>
      CancelHead("--", body + Text(rest), u.body + Text(u.rest));
      LineUnique(body, u.body, Text(rest), Text(u.rest));
      SourceUnique(rest, u.rest);
    case BlockComment(comment, rest) =>
      CancelHead("/-", BodyText(comment) + Text(rest), BodyText(u.comment) + Text(u.rest));
      BodyUnique(comment, u.comment, Text(rest), Text(u.rest));
      SourceUnique(rest, u.rest);
    case StringLiteral(literal, rest) =>
      CancelHead("\"", LiteralText(literal) + Text(rest), LiteralText(u.literal) + Text(u.rest));
      LiteralUnique(literal, u.literal, Text(rest), Text(u.rest));
      SourceUnique(rest, u.rest);
  }

  // ----- What the blanker does to any text -----

  lemma TreeExists(s: string)
    ensures exists t :: Fits(t) && Text(t) == s
  {
    var t := ParseSource(s);
  }

  /** The one tree of a text. */
  ghost function TreeOf(s: string): (t: Source)
    ensures Fits(t) && Text(t) == s
  {
    TreeExists(s);
    var t :| Fits(t) && Text(t) == s;
    t
  }

  ghost function KindsOf(s: string): seq<Kind> {
    Kinds(TreeOf(s))
  }

  /** The blanker keeps code and string delimiters and dims the rest, as the grammar classifies them. */
  lemma StripExact(data: string)
    ensures |KindsOf(data)| == |data|
    ensures Scan(Normal, 0, data) == Paint(KindsOf(data), data)
  {
    KindsLength(TreeOf(data));
    ScanReadsGrammar(TreeOf(data), 0);
  }

  /** Position by position: the character or a space; a line feed is lost only as an escaped character. */
  lemma StripAt(data: string, k: nat)
    requires k < |data|
    ensures |Scan(Normal, 0, data)| == |data| == |KindsOf(data)|
    ensures var out := Scan(Normal, 0, data);
            && (out[k] == data[k] || out[k] == ' ')
            && (KindsOf(data)[k].InCode? || KindsOf(data)[k].Delimiter? ==> out[k] == data[k])
            && (KindsOf(data)[k].InComment? || KindsOf(data)[k].Quoted? ==>
                  out[k] == if data[k] == '\n' then '\n' else ' ')
            && (KindsOf(data)[k].Escaped? ==> out[k] == ' ')
            && (out[k] == '\n' <==> data[k] == '\n' && KindsOf(data)[k] != Escaped)
  {
    StripExact(data);
  }

  ghost predicate SameLines(s: string, t: string) {
    |s| == |t| && forall k :: 0 <= k < |s| ==> (s[k] == '\n' <==> t[k] == '\n')
  }

  /** No backslash inside a string literal is followed by a line feed. */
  ghost predicate NoEscapedLineFeed(data: string) {
    forall k :: 0 <= k < |data| && k < |KindsOf(data)| && data[k] == '\n' ==> KindsOf(data)[k] != Escaped
  }

  /** The line structure is preserved exactly when no string literal escapes a line feed. */
  lemma LinesKept(data: string)
    ensures SameLines(data, Scan(Normal, 0, data)) <==> NoEscapedLineFeed(data)
  {
    StripExact(data);
    forall k: nat | k < |data| {
      StripAt(data, k);
    }
  }

  /** An escaped line feed really is blanked, so the two lines become one. */
  lemma EscapedLineFeedLost()
    ensures Scan(Normal, 0, "\"\\\n\"") == "\"  \""
  {
    var s := "\"\\\n\"";
    assert s[1..][2..] == "\"";
    assert s[1..] == "\\\n\"";
    assert "\""[1..] == "";
  }

  lemma ScanFirst(state: State, depth: nat, s: string)
    ensures Scan(state, depth, s) == [] <==> s == []
    ensures s != [] ==> Scan(state, depth, s)[0] == s[0] || Scan(state, depth, s)[0] == ' '
  {
    if s != [] {
      var t := Step(state, depth, s);
      assert Scan(state, depth, s)[0] == t.out[0];
    }
  }

  lemma StepAgainNormal(c: char, tail: string)
    requires c != '"' && !Starts([c] + tail, '-', '-') && !Starts([c] + tail, '/', '-')
    ensures Scan(Normal, 0, [c] + tail) == [c] + Scan(Normal, 0, tail)
  {
    ScanHead(Normal, 0, [c], tail, Turn([c], Normal, 0));
  }

  lemma StepAgainString(c: char, tail: string)
    requires c == ' ' || c == '\n'
    ensures Scan(Str, 0, [c] + tail) == [c] + Scan(Str, 0, tail)
  {
    ScanHead(Str, 0, [c], tail, Turn([c], Str, 0));
  }

  function Settled(state: State): State {
    if state == Str then Str else Normal
  }

  lemma BlanksAgain(state: State, out: string, tail: string)
    requires 1 <= |out| <= 2 && forall i :: 0 <= i < |out| ==> out[i] == ' ' || out[i] == '\n'
    ensures Scan(Settled(state), 0, out + tail) == out + Scan(Settled(state), 0, tail)
  {
    if |out| == 1 {
      StepAgain(state, out[0], tail);
      assert out == [out[0]];
    } else {
      var a, b := [out[0]], [out[1]];
      assert out == a + b;
      StepAgain(state, out[1], tail);
      StepAgain(state, out[0], b + tail);
      Join(a, b, tail);
      Join(a, b, Scan(Settled(state), 0, tail));
    }
  }

  lemma StepAgain(state: State, c: char, tail: string)
    requires c == ' ' || c == '\n'
    ensures Scan(Settled(state), 0, [c] + tail) == [c] + Scan(Settled(state), 0, tail)
  {
    if state == Str {
      StepAgainString(c, tail);
    } else {
      StepAgainNormal(c, tail);
    }
  }

  lemma QuoteAgain(state: State, tail: string)
    requires state == Normal || state == Str
    ensures Scan(state, 0, "\"" + tail) == "\"" + Scan(if state == Str then Normal else Str, 0, tail)
  {
    ScanHead(state, 0, "\"", tail, Turn("\"", if state == Str then Normal else Str, 0));
  }

  /** Scanning the output changes nothing: no mark is ever created. */
  lemma {:induction false} ScanAgain(state: State, depth: nat, s: string)
    ensures Scan(Settled(state), 0, Scan(state, depth, s)) == Scan(state, depth, s)
    decreases |s|
  {
    if s != [] {
      var t := Step(state, depth, s);
      var tail := Scan(t.state, t.depth, s[|t.out|..]);
      ScanAgain(t.state, t.depth, s[|t.out|..]);
      if s[0] == '"' && t.out == "\"" && (state == Normal || state == Str) {
        QuoteAgain(state, tail);
      } else if state == Normal && t.state == Normal {
        CodeAgain(s, t, tail);
      } else {
        assert forall i :: 0 <= i < |t.out| ==> t.out[i] == ' ' || t.out[i] == '\n';
        BlanksAgain(t.state, t.out, tail);
        BlanksAgain(state, t.out, tail);
      }
    }
  }

  lemma CodeAgain(s: string, t: Turn, tail: string)
    requires s != [] && s[0] != '"' && t.out == [s[0]]
    requires !Starts(s, '-', '-') && !Starts(s, '/', '-')
    requires tail == Scan(Normal, t.depth, s[1..])
    ensures Scan(Normal, 0, t.out + tail) == t.out + Scan(Normal, 0, tail)
  {
    ScanFirst(Normal, t.depth, s[1..]);
    StepAgainNormal(s[0], tail);
  }

  /** Blanking is idempotent. */
  lemma StripIdempotent(data: string)
    ensures Scan(Normal, 0, Scan(Normal, 0, data)) == Scan(Normal, 0, data)
  {
    ScanAgain(Normal, 0, data);
  }
}
