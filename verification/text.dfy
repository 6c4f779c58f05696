/** String operations: `lastIndexOf` on a single character, which the
    extension calls, and splitting at a separator character, which the
    properties of the extension are stated with (the pieces of a path between
    '/', the lines of a text). */
module Text {

  /** `s.lastIndexOf(c)`: the position of the last `c` in `s`, or -1 when `s`
      holds none. */
  function LastIndexOf(s: string, c: char): (r: int)
    ensures -1 <= r < |s|
    ensures r >= 0 ==> s[r] == c
    ensures forall j :: r < j < |s| ==> s[j] != c
    decreases |s|
  {
    if s == [] then -1
    else if s[|s| - 1] == c then |s| - 1
    else LastIndexOf(s[..|s| - 1], c)
  }

  /** The pieces of `s` between occurrences of `sep`, as `s.split(sep)` gives
      them: always at least one piece, and no piece holds `sep`. */
  function Split(s: string, sep: char): (parts: seq<string>)
    ensures |parts| >= 1
    ensures forall i :: 0 <= i < |parts| ==> sep !in parts[i]
    decreases |s|
  {
    if s == [] then [""]
    else
      var rest := Split(s[1..], sep);
      if s[0] == sep then [""] + rest
      else [[s[0]] + rest[0]] + rest[1..]
  }

  function Last<T>(s: seq<T>): T
    requires |s| >= 1
  {
    s[|s| - 1]
  }

  /** A string without the separator is a single piece. */
  lemma {:induction false} SplitWithoutSeparator(s: string, sep: char)
    requires sep !in s
    ensures Split(s, sep) == [s]
    decreases |s|
  {
    if s != [] {
      assert s[0] != sep && sep !in s[1..];
      SplitWithoutSeparator(s[1..], sep);
      assert [s[0]] + s[1..] == s;
    }
  }

  /** Splitting at a separator occurrence splits both sides independently. */
  lemma {:induction false} SplitAround(a: string, b: string, sep: char)
    ensures Split(a + [sep] + b, sep) == Split(a, sep) + Split(b, sep)
    decreases |a|
  {
    if a == [] {
      assert a + [sep] + b == [sep] + b;
    } else {
      assert (a + [sep] + b)[1..] == a[1..] + [sep] + b;
      SplitAround(a[1..], b, sep);
    }
  }

  /** Splitting after a last separator adds the piece behind it. */
  lemma SplitThenPiece(a: string, piece: string, sep: char)
    requires sep !in piece
    ensures Split(a + [sep] + piece, sep) == Split(a, sep) + [piece]
  {
    SplitWithoutSeparator(piece, sep);
    SplitAround(a, piece, sep);
  }

  /** The last piece is what follows the last separator. */
  lemma LastPiece(s: string, sep: char)
    ensures Last(Split(s, sep)) == s[LastIndexOf(s, sep) + 1..]
  {
    var r := LastIndexOf(s, sep);
    var tail := s[r + 1..];
    assert sep !in tail;
    if r == -1 {
      assert tail == s;
      SplitWithoutSeparator(s, sep);
    } else {
      assert s == s[..r] + [sep] + tail;
      SplitThenPiece(s[..r], tail, sep);
    }
  }

  /** Searching a suffix that still holds the last occurrence finds it at the
      same place, shifted by the length of what was cut off. */
  lemma LastIndexOfSuffix(s: string, c: char, k: nat)
    requires k <= LastIndexOf(s, c)
    ensures LastIndexOf(s[k..], c) == LastIndexOf(s, c) - k
  {
    var r := LastIndexOf(s, c);
    var r' := LastIndexOf(s[k..], c);
    assert s[k..][r - k] == c;
  }
}
