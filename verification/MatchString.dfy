/**
  Matching of names against patterns with `*` and `?`.

  `MatchString` fills two rows of a table of edit distances in which a `*` may be
  deleted, and may swallow characters, at no cost.  The string matches when the
  distance of the whole pattern to the whole string is zero.
*/
module MatchString {
  import opened Common

  datatype CString = Null | Str(chars: seq<Char>)

  const STAR := 42
  const QUESTION := 63

  // ---------------------------------------------------------- what a match is

  /** One character of a pattern fits a piece of the string. */
  predicate Fits(c: Char, piece: seq<Char>) {
    c == STAR || (|piece| == 1 && (c == QUESTION || ToLower(c) == ToLower(piece[0])))
  }

  /** `cuts` cuts the string into consecutive pieces, one per character of the
      pattern, that fit. */
  ghost predicate CutsMatch(p: seq<Char>, s: seq<Char>, cuts: seq<nat>) {
    && |cuts| == |p| + 1 && cuts[0] == 0 && cuts[|p|] == |s|
    && (forall i :: 0 <= i < |p| ==> PieceFits(p, s, cuts, i))
  }

  ghost predicate PieceFits(p: seq<Char>, s: seq<Char>, cuts: seq<nat>, i: nat)
    requires |cuts| == |p| + 1 && i < |p|
  {
    cuts[i] <= cuts[i + 1] <= |s| && Fits(p[i], s[cuts[i]..cuts[i + 1]])
  }

  ghost predicate Matches(p: seq<Char>, s: seq<Char>) {
    exists cuts :: CutsMatch(p, s, cuts)
  }

  // ---------------------------------------------------------- the table

  /** The cost of leaving out a pattern character, or of one more character. */
  function Skip(c: Char): nat {
    if c != STAR then 1 else 0
  }

  function Edit(c: Char, d: Char): nat {
    if c != QUESTION && ToLower(c) != ToLower(d) then 1 else 0
  }

  /** The distance of the first `i` pattern characters to the first `j` of the string. */
  function Distance(p: seq<Char>, s: seq<Char>, i: nat, j: nat): (r: nat)
    requires i <= |p| && j <= |s|
    decreases i, j
  {
    if i == 0 then j
    else if j == 0 then Distance(p, s, i - 1, 0) + Skip(p[i - 1])
    else
      Min(Min(Distance(p, s, i - 1, j) + Skip(p[i - 1]),
              Distance(p, s, i - 1, j - 1) + Edit(p[i - 1], s[j - 1])),
          Distance(p, s, i, j - 1) + Skip(p[i - 1]))
  }

  /** A `*` that has matched up to `a` also matches up to `b`. */
  lemma {:induction false} StarSwallows(p: seq<Char>, s: seq<Char>, i: nat, a: nat, b: nat)
    requires 0 < i <= |p| && p[i - 1] == STAR && a <= b <= |s| && Distance(p, s, i - 1, a) == 0
    ensures Distance(p, s, i, b) == 0
    decreases b
  {
    if a < b {
      StarSwallows(p, s, i, a, b - 1);
    }
  }

  lemma {:induction false} MatchIsZero(p: seq<Char>, s: seq<Char>, cuts: seq<nat>, i: nat)
    requires CutsMatch(p, s, cuts) && i <= |p|
    ensures cuts[i] <= |s| && Distance(p, s, i, cuts[i]) == 0
  {
    if i > 0 {
      MatchIsZero(p, s, cuts, i - 1);
      assert PieceFits(p, s, cuts, i - 1);
      if p[i - 1] == STAR {
        StarSwallows(p, s, i, cuts[i - 1], cuts[i]);
      }
    }
  }

  /** Cuts of a shorter pattern and string, with one more piece. */
  lemma AppendPiece(p: seq<Char>, s: seq<Char>, i: nat, a: nat, j: nat, cuts: seq<nat>)
    requires 0 < i <= |p| && a <= j <= |s| && CutsMatch(p[..i - 1], s[..a], cuts) && Fits(p[i - 1], s[a..j])
    ensures CutsMatch(p[..i], s[..j], cuts + [j])
  {
    var c := cuts + [j];
    forall k | 0 <= k < i ensures PieceFits(p[..i], s[..j], c, k) {
      if k < i - 1 {
        assert PieceFits(p[..i - 1], s[..a], cuts, k);
        assert s[..a][cuts[k]..cuts[k + 1]] == s[..j][cuts[k]..cuts[k + 1]];
      } else {
        assert s[..j][a..j] == s[a..j];
      }
    }
  }

  /** A distance of zero comes from a piece that ends at `j`. */
  lemma {:induction false} LastPiece(p: seq<Char>, s: seq<Char>, i: nat, j: nat) returns (a: nat)
    requires 0 < i <= |p| && j <= |s| && Distance(p, s, i, j) == 0
    ensures a <= j && Distance(p, s, i - 1, a) == 0 && Fits(p[i - 1], s[a..j])
    decreases j
  {
    if j == 0 || (p[i - 1] == STAR && Distance(p, s, i - 1, j) == 0) {
      a := j;
    } else if Distance(p, s, i - 1, j - 1) + Edit(p[i - 1], s[j - 1]) == 0 {
      a := j - 1;
    } else {
      a := LastPiece(p, s, i, j - 1);
    }
  }

  lemma {:induction false} ZeroIsMatch(p: seq<Char>, s: seq<Char>, i: nat, j: nat) returns (cuts: seq<nat>)
    requires i <= |p| && j <= |s| && Distance(p, s, i, j) == 0
    ensures CutsMatch(p[..i], s[..j], cuts)
    decreases i
  {
    if i == 0 {
      cuts := [0];
    } else {
      var a := LastPiece(p, s, i, j);
      var front := ZeroIsMatch(p, s, i - 1, a);
      AppendPiece(p, s, i, a, j, front);
      cuts := front + [j];
    }
  }

  /** The table decides matching. */
  lemma ZeroDistanceIsMatch(p: seq<Char>, s: seq<Char>)
    ensures Distance(p, s, |p|, |s|) == 0 <==> Matches(p, s)
  {
    if Matches(p, s) {
      var cuts :| CutsMatch(p, s, cuts);
      MatchIsZero(p, s, cuts, |p|);
    }
    if Distance(p, s, |p|, |s|) == 0 {
      var cuts := ZeroIsMatch(p, s, |p|, |s|);
      assert p[..|p|] == p && s[..|s|] == s;
    }
  }

  // ---------------------------------------------------------- the program

  const MAX_STRING_LENGTH := 255

  /** The row of the table for the first `i` pattern characters starts at `at`. */
  ghost predicate IsRow(buffer: array<int>, at: nat, p: seq<Char>, s: seq<Char>, i: nat, upTo: nat)
    requires i <= |p|
    reads buffer
  {
    && upTo <= |s| + 1 && at + |s| + 1 <= buffer.Length
    && (forall j :: 0 <= j < upTo ==> buffer[at + j] == Distance(p, s, i, j))
  }

  method MatchString(pattern: CString, string_: CString) returns (r: bool)
    ensures r <==>
      pattern.Str? && string_.Str? && |string_.chars| <= MAX_STRING_LENGTH && Matches(pattern.chars, string_.chars)
  {
    if pattern.Null? || string_.Null? {
      return false;
    }
    var p, s := pattern.chars, string_.chars;
    if |s| > MAX_STRING_LENGTH {
      return false;
    }
    var buffer := new int[2 * (MAX_STRING_LENGTH + 1)](_ => 0);
    var prevRow, curRow := 0, |s| + 1;
    for i := 0 to |s| + 1
      invariant IsRow(buffer, prevRow, p, s, 0, i)
    {
      buffer[prevRow + i] := i;
    }
    for i := 0 to |p|
      invariant (prevRow == 0 && curRow == |s| + 1) || (prevRow == |s| + 1 && curRow == 0)
      invariant IsRow(buffer, prevRow, p, s, i, |s| + 1)
    {
      FillRow(buffer, prevRow, curRow, p, s, i);
      prevRow, curRow := curRow, prevRow;
    }
    r := buffer[prevRow + |s|] == 0;
    ZeroDistanceIsMatch(p, s);
  }

  /** One cell of the table from the cells around it. */
  lemma NextCell(p: seq<Char>, s: seq<Char>, i: nat, j: nat)
    requires i < |p| && j < |s|
    ensures Distance(p, s, i + 1, j + 1) ==
      Min(Min(Distance(p, s, i, j + 1) + Skip(p[i]), Distance(p, s, i, j) + Edit(p[i], s[j])),
          Distance(p, s, i + 1, j) + Skip(p[i]))
  {
  }

  lemma FirstCell(p: seq<Char>, s: seq<Char>, i: nat)
    requires i < |p|
    ensures Distance(p, s, i + 1, 0) == Distance(p, s, i, 0) + Skip(p[i])
  {
  }

  /** Computes one row of the table from the row before. */
  method FillRow(buffer: array<int>, prevRow: nat, curRow: nat, p: seq<Char>, s: seq<Char>, i: nat)
    requires i < |p| && IsRow(buffer, prevRow, p, s, i, |s| + 1)
    requires (prevRow == 0 && curRow == |s| + 1) || (prevRow == |s| + 1 && curRow == 0)
    requires buffer.Length >= 2 * (|s| + 1)
    modifies buffer
    ensures IsRow(buffer, curRow, p, s, i + 1, |s| + 1)
  {
    hide Distance, ToLower;
    var ins := if p[i] != STAR then 1 else 0;
    var del := if p[i] != STAR then 1 else 0;
    assert buffer[prevRow + 0] == Distance(p, s, i, 0);
    FirstCell(p, s, i);
    buffer[curRow] := buffer[prevRow] + del;
    for j := 0 to |s|
      invariant IsRow(buffer, prevRow, p, s, i, |s| + 1)
      invariant IsRow(buffer, curRow, p, s, i + 1, j + 1)
    {
      var edit := if p[i] != QUESTION && ToLower(p[i]) != ToLower(s[j]) then 1 else 0;
      var min := buffer[prevRow + j + 1] + ins;
      if min > buffer[prevRow + j] + edit {
        min := buffer[prevRow + j] + edit;
      }
      if min > buffer[curRow + j] + del {
        min := buffer[curRow + j] + del;
      }
      NextCell(p, s, i, j);
      assert buffer[prevRow + (j + 1)] == Distance(p, s, i, j + 1);
      assert min == Distance(p, s, i + 1, j + 1);
      buffer[curRow + j + 1] := min;
    }
  }
}
