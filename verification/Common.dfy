/**
  What several parts of the server share.
*/
module Common {

  datatype Option<T> = None | Some(value: T)

  /** Characters are signed; zero ends a string. */
  type Char = int

  const TWO_TO_32 := 0x1_0000_0000

  function ToLower(c: Char): Char {
    if (65 <= c <= 90) || (0xC0 <= c <= 0xDE && c != 0xD7) then c + 32 else c
  }

  /** A capital letter of the alphabet, or an accented one of the code page. */
  predicate IsCapital(c: Char) {
    'A' as int <= c <= 'Z' as int || (0xC0 <= c <= 0xDE && c != 0xD7)
  }

  /** Characters fold together if they are the capital and the small form of one letter. */
  lemma SameLetter(c: Char, d: Char)
    ensures ToLower(c) == ToLower(d) <==> c == d || (IsCapital(c) && d == c + 32) || (IsCapital(d) && c == d + 32)
  {
  }

  /** A signed character folds only if it is one of the letters A to Z: the accented
      ones are negative there. */
  lemma SignedLetter(c: Char)
    requires -128 <= c < 128
    ensures ToLower(c) != c <==> 'A' as int <= c <= 'Z' as int
    ensures ToLower(c) != c ==> ToLower(c) == c + ('a' as int - 'A' as int)
  {
  }

  function Abs(a: int): nat {
    if a < 0 then -a else a
  }

  function Min(a: int, b: int): int {
    if a > b then b else a
  }

  ghost predicate Distinct<T>(s: seq<T>) {
    forall i, j :: 0 <= i < j < |s| ==> s[i] != s[j]
  }

  lemma {:induction false} SubsetSize<T>(a: set<T>, b: set<T>)
    requires a <= b
    ensures |a| <= |b|
    decreases a
  {
    if a != {} {
      var x :| x in a;
      SubsetSize(a - {x}, b - {x});
    }
  }
}
