/** The few System.String and java.lang.String operations the front end relies on. */
module Strings {

  /** String.IndexOf(char): the first position of c, or -1. */
  function IndexOf(s: string, c: char): (r: int)
    ensures -1 <= r < |s|
    ensures r == -1 <==> c !in s
    ensures r >= 0 ==> s[r] == c && c !in s[..r]
  {
    var r := IndexFrom(s, c, 0);
    assert r >= 0 ==> forall j :: 0 <= j < r ==> s[..r][j] == s[j];
    r
  }

  /** The first position at or after i holding c, or -1. */
  function IndexFrom(s: string, c: char, i: nat): (r: int)
    requires i <= |s|
    ensures -1 <= r < |s|
    ensures r == -1 ==> forall j :: i <= j < |s| ==> s[j] != c
    ensures r >= 0 ==> i <= r && s[r] == c && forall j :: i <= j < r ==> s[j] != c
    decreases |s| - i
  {
    if i == |s| then -1
    else if s[i] == c then i
    else IndexFrom(s, c, i + 1)
  }

  /** String.LastIndexOf(char): the last position of c, or -1. */
  function LastIndexOf(s: string, c: char): (r: int)
    ensures -1 <= r < |s|
    ensures r == -1 <==> c !in s
    ensures r >= 0 ==> s[r] == c && c !in s[r + 1..]
  {
    var r := LastIndexBefore(s, c, |s|);
    assert r >= 0 ==> forall j :: r + 1 <= j < |s| ==> s[r + 1..][j - r - 1] == s[j];
    r
  }

  /** The last position below n holding c, or -1. */
  function LastIndexBefore(s: string, c: char, n: nat): (r: int)
    requires n <= |s|
    ensures -1 <= r < n
    ensures r >= 0 ==> s[r] == c
    ensures forall j :: r < j < n ==> s[j] != c
    decreases n
  {
    if n == 0 then -1
    else if s[n - 1] == c then n - 1
    else LastIndexBefore(s, c, n - 1)
  }

  /** String.Replace(char, char): every a becomes b, and nothing else changes. */
  function Replace(s: string, a: char, b: char): (r: string)
    ensures |r| == |s|
    ensures forall i :: 0 <= i < |s| ==> r[i] == (if s[i] == a then b else s[i])
  {
    seq(|s|, i requires 0 <= i < |s| => if s[i] == a then b else s[i])
  }

  lemma ReplaceConcat(x: string, y: string, a: char, b: char)
    ensures Replace(x + y, a, b) == Replace(x, a, b) + Replace(y, a, b)
  {
  }

  lemma ReplaceSlice(s: string, a: char, b: char, i: nat, j: nat)
    requires i <= j <= |s|
    ensures Replace(s, a, b)[i..j] == Replace(s[i..j], a, b)
  {
  }

  /** Replacing a character that is not there changes nothing. */
  lemma ReplaceAbsent(s: string, a: char, b: char)
    requires a !in s
    ensures Replace(s, a, b) == s
  {
  }

  /** After the replacement a is gone, unless it is its own replacement. */
  lemma ReplaceRemoves(s: string, a: char, b: char, c: char)
    requires c != b && (c == a || c !in s)
    ensures c !in Replace(s, a, b)
  {
    forall i | 0 <= i < |s|
      ensures Replace(s, a, b)[i] != c
    {
    }
  }

  /** The position of c in a string where it appears exactly once at the join. */
  lemma IndexOfAfterPrefix(x: string, c: char, y: string)
    requires c !in x
    ensures IndexOf(x + [c] + y, c) == |x|
  {
    var s := x + [c] + y;
    assert s[|x|] == c;
    assert s[..|x|] == x;
    forall k | 0 <= k < |x| ensures s[k] != c { assert s[k] == x[k]; }
  }

  /** The last position of c in a string whose tail after it is free of c. */
  lemma LastIndexOfBeforeSuffix(x: string, c: char, y: string)
    requires c !in y
    ensures LastIndexOf(x + [c] + y, c) == |x|
  {
    var s := x + [c] + y;
    assert s[|x|] == c;
    assert s[|x| + 1..] == y;
    forall k | |x| < k < |s| ensures s[k] != c { assert s[k] == y[k - |x| - 1]; }
  }
}
