/**
 The import-block automaton that runs over the blanked code, line by line.
 */
module Imports {
  import opened Strings
  import opened Wrappers

  /** [[:space:]] */
  predicate IsSpace(c: char) {
    c in {' ', '\t', '\n', '\r', '\U{0B}', '\U{0C}'}
  }

  /** What separates awk fields. */
  predicate IsSeparator(c: char) {
    c in {' ', '\t', '\n'}
  }

  predicate InName(c: char) {
    ContinuesName(c) || c == '.'
  }

  /** [A-Za-z_][A-Za-z0-9_.]* */
  predicate IsName(s: string) {
    s != "" && StartsName(s[0]) && forall i :: 0 <= i < |s| ==> InName(s[i])
  }

  function DropSpaces(s: string): string {
    if s != "" && IsSpace(s[0]) then DropSpaces(s[1..]) else s
  }

  function Trim(s: string): string {
    if s != "" && IsSpace(s[|s| - 1]) then Trim(s[..|s| - 1]) else DropSpaces(s)
  }

  /** $1, $2, ...: the maximal runs of non-separators, `word` being the run under way. */
  function Split(word: string, s: string): seq<string>
    decreases |s|
  {
    var ended := if word == "" then [] else [word];
    if s == "" then ended
    else if IsSeparator(s[0]) then ended + Split("", s[1..])
    else Split(word + [s[0]], s[1..])
  }

  function Fields(line: string): seq<string> {
    Split("", line)
  }

  // ----- What the fields of a line are -----

  ghost predicate IsGap(s: string) {
    forall i :: 0 <= i < |s| ==> IsSeparator(s[i])
  }

  ghost predicate IsSolid(s: string) {
    forall i :: 0 <= i < |s| ==> !IsSeparator(s[i])
  }

  /** gap, field, gap, ..., field, gap */
  function Weave(gaps: seq<string>, fields: seq<string>): string
    requires |gaps| == |fields| + 1
  {
    if fields == [] then gaps[0] else gaps[0] + (fields[0] + Weave(gaps[1..], fields[1..]))
  }

  /** The line is these fields, none empty or with a separator in it, held apart by these gaps. */
  ghost predicate IsWoven(line: string, gaps: seq<string>, fields: seq<string>) {
    && |gaps| == |fields| + 1 && line == Weave(gaps, fields)
    && (forall i :: 0 <= i < |gaps| ==> IsGap(gaps[i]))
    && (forall i :: 0 <= i < |fields| ==> fields[i] != "" && IsSolid(fields[i]))
    && (forall i :: 0 < i < |fields| ==> gaps[i] != "")
  }

  lemma {:induction false} SkipGap(gap: string, s: string)
    requires IsGap(gap)
    ensures Split("", gap + s) == Split("", s)
  {
    if gap == "" {
      assert gap + s == s;
    } else {
      SkipGap(gap[1..], s);
      assert (gap + s)[1..] == gap[1..] + s;
    }
  }

  lemma {:induction false} ReadField(word: string, field: string, s: string)
    requires IsSolid(field)
    ensures Split(word, field + s) == Split(word + field, s)
    decreases |field|
  {
    if field == "" {
      assert field + s == s && word + field == word;
    } else {
      ReadField(word + [field[0]], field[1..], s);
      assert (field + s)[1..] == field[1..] + s;
      assert word + [field[0]] + field[1..] == word + field;
    }
  }

  lemma EndField(word: string, s: string)
    requires word != "" && (s != "" ==> IsSeparator(s[0]))
    ensures Split(word, s) == [word] + Split("", s)
  {
  }

  /** The fields are the only way to read a line as non-empty words held apart by gaps. */
  lemma {:induction false} FieldsUnique(line: string, gaps: seq<string>, fields: seq<string>)
    requires IsWoven(line, gaps, fields)
    ensures Fields(line) == fields
    decreases |fields|
  {
    if fields == [] {
      SkipGap(gaps[0], "");
      assert gaps[0] + "" == gaps[0];
    } else {
      var rest := Weave(gaps[1..], fields[1..]);
      SkipGap(gaps[0], fields[0] + rest);
      ReadField("", fields[0], rest);
      assert "" + fields[0] == fields[0];
      assert IsGap(gaps[1]) && (|fields| > 1 ==> gaps[1] != "");
      EndField(fields[0], rest);
      FieldsUnique(rest, gaps[1..], fields[1..]);
    }
  }

  lemma {:induction false} SplitWeaves(word: string, s: string) returns (gaps: seq<string>)
    requires IsSolid(word)
    ensures IsWoven(word + s, gaps, Split(word, s))
    ensures word != "" ==> gaps[0] == ""
    decreases |s|
  {
    if s == "" {
      gaps := if word == "" then [""] else ["", ""];
      assert word + s == word;
      if word != "" {
        assert ["", ""][1..] == [""] && [word][1..] == [];
        assert Weave([""], []) == "" && "" + (word + "") == word;
      }
    } else if IsSeparator(s[0]) {
      var rest := SplitWeaves("", s[1..]);
      gaps := WidenGap(s[0], s[1..], rest, Split("", s[1..]));
      assert [s[0]] + s[1..] == s;
      if word == "" {
        assert word + s == s;
        assert [] + Split("", s[1..]) == Split("", s[1..]);
      } else {
        gaps := PutField(word, s, gaps, Split("", s[1..]));
      }
    } else {
      gaps := SplitWeaves(word + [s[0]], s[1..]);
      assert word + [s[0]] + s[1..] == word + s;
    }
  }

  lemma WidenGap(c: char, s: string, rest: seq<string>, fields: seq<string>) returns (gaps: seq<string>)
    requires IsSeparator(c) && IsWoven("" + s, rest, fields)
    ensures IsWoven([c] + s, gaps, fields) && gaps[0] != ""
  {
    gaps := [[c] + rest[0]] + rest[1..];
    assert "" + s == s;
    assert gaps[1..] == rest[1..];
    if fields != [] {
      assert [c] + (rest[0] + (fields[0] + Weave(rest[1..], fields[1..]))) ==
             [c] + rest[0] + (fields[0] + Weave(rest[1..], fields[1..]));
    }
  }

  lemma PutField(word: string, s: string, rest: seq<string>, fields: seq<string>) returns (gaps: seq<string>)
    requires word != "" && IsSolid(word) && IsWoven(s, rest, fields) && rest[0] != ""
    ensures IsWoven(word + s, gaps, [word] + fields) && gaps[0] == ""
  {
    gaps := [""] + rest;
    var all := [word] + fields;
    assert gaps[1..] == rest && all[1..] == fields;
    assert "" + (word + s) == word + s;
  }

  /** Every line is its fields held apart by gaps. */
  lemma FieldsWeave(line: string) returns (gaps: seq<string>)
    ensures IsWoven(line, gaps, Fields(line))
  {
    gaps := SplitWeaves("", line);
    assert "" + line == line;
  }

  // ----- What a lone name is -----

  /** Blanks, a name, blanks. */
  ghost predicate Surrounds(line: string, before: string, name: string, after: string) {
    line == before + name + after && IsBlank(before) && IsName(name) && IsBlank(after)
  }

  lemma {:induction false} DropSpacesParts(s: string) returns (before: string)
    ensures s == before + DropSpaces(s) && IsBlank(before)
  {
    if s != "" && IsSpace(s[0]) {
      before := DropSpacesParts(s[1..]);
      before := [s[0]] + before;
    } else {
      before := "";
    }
  }

  lemma {:induction false} TrimParts(s: string) returns (before: string, after: string)
    ensures s == before + Trim(s) + after && IsBlank(before) && IsBlank(after)
  {
    if s != "" && IsSpace(s[|s| - 1]) {
      before, after := TrimParts(s[..|s| - 1]);
      after := after + [s[|s| - 1]];
    } else {
      before := DropSpacesParts(s);
      after := "";
    }
  }

  lemma {:induction false} DropSpacesName(before: string, name: string)
    requires IsBlank(before) && name != "" && !IsSpace(name[0])
    ensures DropSpaces(before + name) == name
  {
    if before == "" {
      assert before + name == name;
    } else {
      DropSpacesName(before[1..], name);
      assert (before + name)[1..] == before[1..] + name;
    }
  }

  lemma {:induction false} TrimName(before: string, name: string, after: string)
    requires IsBlank(before) && IsBlank(after)
    requires name != "" && !IsSpace(name[0]) && !IsSpace(name[|name| - 1])
    ensures Trim(before + name + after) == name
    decreases |after|
  {
    var s := before + name + after;
    if after == "" {
      assert s == before + name;
      DropSpacesName(before, name);
    } else {
      TrimName(before, name, after[..|after| - 1]);
      assert s[..|s| - 1] == before + name + after[..|after| - 1];
    }
  }

  /** The trimmed line is a name exactly when the line is blanks, a name and blanks. */
  lemma LoneNameExact(line: string)
    ensures IsName(Trim(line)) <==> exists before, name, after :: Surrounds(line, before, name, after)
  {
    if IsName(Trim(line)) {
      var before, after := TrimParts(line);
      assert Surrounds(line, before, Trim(line), after);
    }
    if before, name, after :| Surrounds(line, before, name, after) {
      assert InName(name[|name| - 1]);
      TrimName(before, name, after);
    }
  }

  /** The character classes, by code point. */
  lemma Classes(c: char)
    ensures IsSpace(c) <==> c as int == 32 || 9 <= c as int <= 13
    ensures IsSeparator(c) <==> c as int == 32 || c as int == 9 || c as int == 10
    ensures StartsName(c) <==> 65 <= c as int <= 90 || 97 <= c as int <= 122 || c as int == 95
    ensures ContinuesName(c) <==> StartsName(c) || 48 <= c as int <= 57
    ensures InName(c) <==> ContinuesName(c) || c as int == 46
  {
  }

  predicate IsBlank(line: string) {
    forall i :: 0 <= i < |line| ==> IsSpace(line[i])
  }

  /** The first word of the line is `import`. */
  predicate IsImport(line: string) {
    !IsBlank(line) && Fields(line) != [] && Fields(line)[0] == "import"
  }

  predicate OneModule(line: string) {
    |Fields(line)| == 2 && IsName(Fields(line)[1])
  }

  predicate IsOther(line: string) {
    !IsBlank(line) && !IsImport(line)
  }

  /** A lone name, which could continue an import begun on the line before. */
  predicate IsBare(line: string) {
    IsOther(line) && IsName(Trim(line))
  }

  /** The first of the line's words is `import`. */
  ghost predicate StartsImport(line: string) {
    exists gaps, fields :: IsWoven(line, gaps, fields) && fields != [] && fields[0] == "import"
  }

  /** The line is `import` and one name, and blanks around them. */
  ghost predicate ImportsModule(line: string, name: string) {
    IsName(name) && exists gaps :: IsWoven(line, gaps, ["import", name])
  }

  ghost predicate IsLoneName(line: string) {
    exists before, name, after :: Surrounds(line, before, name, after)
  }

  lemma WovenNotBlank(line: string)
    requires Fields(line) != [] && Fields(line)[0] == "import"
    ensures !IsBlank(line)
  {
    var gaps := FieldsWeave(line);
    assert line[|gaps[0]|] == 'i';
  }

  /** What the automaton asks of a line, said of the line itself. */
  lemma LinesExact(line: string, name: string)
    ensures IsImport(line) <==> StartsImport(line)
    ensures IsImport(line) && OneModule(line) && Fields(line)[1] == name <==> ImportsModule(line, name)
    ensures IsBare(line) <==> IsLoneName(line) && !StartsImport(line)
  {
    var gaps := FieldsWeave(line);
    if IsImport(line) {
      assert IsWoven(line, gaps, Fields(line));
    }
    if other, fields :| IsWoven(line, other, fields) && fields != [] && fields[0] == "import" {
      FieldsUnique(line, other, fields);
      WovenNotBlank(line);
    }
    if IsImport(line) && OneModule(line) && Fields(line)[1] == name {
      assert Fields(line) == ["import", name];
    }
    if ImportsModule(line, name) {
      var other :| IsWoven(line, other, ["import", name]);
      FieldsUnique(line, other, ["import", name]);
    }
    LoneNameExact(line);
    if before, lone, after :| Surrounds(line, before, lone, after) {
      assert line[|before|] == lone[0];
    }
  }

  function Modules(lines: seq<string>): seq<string> {
    if lines == [] then []
    else
      var last := lines[|lines| - 1];
      Modules(lines[..|lines| - 1]) + if IsImport(last) && OneModule(last) then [Fields(last)[1]] else []
  }

  ghost predicate InHeader(lines: seq<string>, i: int) {
    forall j :: 0 <= j < i && j < |lines| ==> !IsOther(lines[j])
  }

  /** Every import names one module and precedes all other code, which does not begin with a bare name. */
  ghost predicate Audited(lines: seq<string>) {
    && (forall i :: 0 <= i < |lines| && IsImport(lines[i]) ==> OneModule(lines[i]) && InHeader(lines, i))
    && (forall i :: 0 <= i < |lines| && IsBare(lines[i]) ==> !InHeader(lines, i))
  }

  /** Accepts exactly the audited texts, listing the module of every import in the whole file, in order. */
  method ImportBlock(lines: seq<string>) returns (r: Option<seq<string>>)
    ensures r.Some? <==> Audited(lines)
    ensures r.Some? ==> r.value == Modules(lines)
  {
    var imports := true;
    var output: seq<string> := [];
    for n := 0 to |lines|
      invariant Audited(lines[..n])
      invariant imports <==> InHeader(lines, n)
      invariant output == Modules(lines[..n])
    {
      var line := lines[n];
      AuditedNext(lines, n);
      if IsBlank(line) {
      } else if imports && IsImport(line) {
        if !OneModule(line) {
          return None;
        }
        output := output + [Fields(line)[1]];
      } else if imports && IsName(Trim(line)) {
        return None;
      } else {
        imports := false;
        if IsImport(line) {
          return None;
        }
      }
    }
    assert lines[..|lines|] == lines;
    return Some(output);
  }

  /** The plainest source with an import is accepted, and its module listed. */
  method SingleImport(name: string) returns (r: Option<seq<string>>)
    requires IsName(name)
    ensures r == Some([name])
  {
    var line := "import " + name;
    ImportFields(name);
    SingleAudited(line);
    r := ImportBlock([line]);
  }

  lemma SingleAudited(line: string)
    requires IsImport(line) && OneModule(line)
    ensures Audited([line]) && Modules([line]) == [Fields(line)[1]]
  {
    assert [line][..0] == [];
  }

  lemma ImportFields(name: string)
    requires IsName(name)
    ensures Fields("import " + name) == ["import", name]
    ensures IsImport("import " + name) && OneModule("import " + name)
  {
    var gaps, fields := ["", " ", ""], ["import", name];
    assert gaps[1..] == [" ", ""] && fields[1..] == [name] && gaps[1..][1..] == [""] && fields[1..][1..] == [];
    assert Weave([" ", ""], [name]) == " " + (name + "") == " " + name;
    assert Weave(gaps, fields) == "" + ("import" + (" " + name)) == "import " + name;
    forall i | 0 <= i < |name| ensures !IsSeparator(name[i]) {
      assert InName(name[i]);
    }
    FieldsUnique("import " + name, gaps, fields);
    assert !IsSpace(("import " + name)[0]);
  }

  ghost predicate AuditedAt(lines: seq<string>, n: nat)
    requires n < |lines|
  {
    && (IsImport(lines[n]) ==> OneModule(lines[n]) && InHeader(lines, n))
    && (IsBare(lines[n]) ==> !InHeader(lines, n))
  }

  lemma AuditedNext(lines: seq<string>, n: nat)
    requires n < |lines| && Audited(lines[..n])
    ensures Audited(lines[..n + 1]) <==> AuditedAt(lines, n)
    ensures Audited(lines) ==> AuditedAt(lines, n)
    ensures InHeader(lines, n + 1) <==> InHeader(lines, n) && !IsOther(lines[n])
    ensures Modules(lines[..n + 1]) ==
            Modules(lines[..n]) + if IsImport(lines[n]) && OneModule(lines[n]) then [Fields(lines[n])[1]] else []
  {
    var next := lines[..n + 1];
    assert next[..n] == lines[..n];
    forall i | 0 <= i <= n ensures InHeader(next, i) <==> InHeader(lines, i) {
      assert forall j :: 0 <= j < i ==> next[j] == lines[j];
    }
    forall i | 0 <= i < n ensures InHeader(lines[..n], i) <==> InHeader(lines, i) {
      assert forall j :: 0 <= j < i ==> lines[..n][j] == lines[j];
    }
  }
}
