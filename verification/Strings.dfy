/** Small facts about strings that several parts share. */
module Strings {

  /** [A-Za-z_] */
  predicate StartsName(c: char) {
    'A' <= c <= 'Z' || 'a' <= c <= 'z' || c == '_'
  }

  predicate ContinuesName(c: char) {
    StartsName(c) || '0' <= c <= '9'
  }

  /** [A-Za-z_][A-Za-z0-9_]* */
  predicate IsIdentifier(s: string) {
    s != "" && StartsName(s[0]) && forall i :: 0 <= i < |s| ==> ContinuesName(s[i])
  }

  /** The pieces between dots, empty ones included. */
  function SplitDots(s: string): (pieces: seq<string>)
    ensures pieces != []
  {
    if s == "" then [""]
    else if s[0] == '.' then [""] + SplitDots(s[1..])
    else [[s[0]] + SplitDots(s[1..])[0]] + SplitDots(s[1..])[1..]
  }

  function JoinDots(pieces: seq<string>): string
    requires pieces != []
  {
    if |pieces| == 1 then pieces[0] else pieces[0] + ("." + JoinDots(pieces[1..]))
  }

  ghost predicate NoDots(pieces: seq<string>) {
    forall i :: 0 <= i < |pieces| ==> '.' !in pieces[i]
  }

  lemma JoinFirst(c: char, pieces: seq<string>)
    requires pieces != []
    ensures JoinDots([[c] + pieces[0]] + pieces[1..]) == [c] + JoinDots(pieces)
    ensures c != '.' && NoDots(pieces) ==> NoDots([[c] + pieces[0]] + pieces[1..])
  {
    var longer := [[c] + pieces[0]] + pieces[1..];
    assert longer[1..] == pieces[1..];
    if |pieces| > 1 {
      var others := "." + JoinDots(pieces[1..]);
      assert [c] + pieces[0] + others == [c] + (pieces[0] + others);
    }
  }

  lemma JoinEmpty(pieces: seq<string>)
    requires pieces != []
    ensures JoinDots([""] + pieces) == "." + JoinDots(pieces)
    ensures NoDots(pieces) ==> NoDots([""] + pieces)
  {
    assert ([""] + pieces)[1..] == pieces;
    assert "" + ("." + JoinDots(pieces)) == "." + JoinDots(pieces);
  }

  lemma {:induction false} SplitDotsJoins(s: string)
    ensures NoDots(SplitDots(s)) && JoinDots(SplitDots(s)) == s
  {
    if s != "" {
      SplitDotsJoins(s[1..]);
      assert s == [s[0]] + s[1..];
      if s[0] == '.' {
        JoinEmpty(SplitDots(s[1..]));
      } else {
        JoinFirst(s[0], SplitDots(s[1..]));
      }
    }
  }

  /** There is only one way to cut a text at its dots. */
  lemma {:induction false} SplitDotsUnique(s: string, pieces: seq<string>)
    requires pieces != [] && NoDots(pieces) && JoinDots(pieces) == s
    ensures SplitDots(s) == pieces
    decreases |s|
  {
    if pieces[0] == "" {
      if |pieces| > 1 {
        assert s == "." + JoinDots(pieces[1..]);
        SplitDotsUnique(s[1..], pieces[1..]);
        assert pieces == [""] + pieces[1..];
      }
    } else {
      var fewer := [pieces[0][1..]] + pieces[1..];
      assert fewer[1..] == pieces[1..];
      assert s[0] == pieces[0][0] && s[0] != '.';
      assert s[1..] == JoinDots(fewer);
      SplitDotsUnique(s[1..], fewer);
      assert [s[0]] + pieces[0][1..] == pieces[0];
      assert pieces == [pieces[0]] + pieces[1..];
    }
  }

  /** Dotted identifiers, neither empty nor with an empty piece. */
  predicate IsDotted(s: string) {
    forall i :: 0 <= i < |SplitDots(s)| ==> IsIdentifier(SplitDots(s)[i])
  }

  lemma CancelHead(h: string, s: string, t: string)
    requires h + s == h + t
    ensures s == t
  {
    assert (h + s)[|h|..] == s && (h + t)[|h|..] == t;
  }
}
