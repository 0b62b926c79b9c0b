/**
 * Levenshtein edit distance (unit cost for inserting, deleting or
 * substituting one character), as the channel resolver of the Oqee tool
 * server computes it: a recursive definition over prefixes serves as the
 * specification, and `LevenshteinDistance` is the two-rolling-row dynamic
 * program proved equal to it.
 */
module EditDistance {

  /** The smallest of three naturals (Python's `min(x, y, z)` on them). */
  function Min3(x: nat, y: nat, z: nat): (m: nat)
    ensures m <= x && m <= y && m <= z
    ensures m == x || m == y || m == z
  {
    if x <= y && x <= z then x else if y <= z then y else z
  }

  function Min(x: nat, y: nat): nat
  {
    if x <= y then x else y
  }

  /** Cost of substituting `c1` by `c2`: Python's `(c1 != c2)` read as an int. */
  function Cost(c1: char, c2: char): nat
  {
    if c1 != c2 then 1 else 0
  }

  /** Edit distance between the first `i` characters of `a` and the first `j` characters of `b`. */
  ghost function PrefixDist(a: string, b: string, i: nat, j: nat): nat
    requires i <= |a| && j <= |b|
    decreases i + j
  {
    if i == 0 then j
    else if j == 0 then i
    else Min3(PrefixDist(a, b, i - 1, j) + 1,
              PrefixDist(a, b, i, j - 1) + 1,
              PrefixDist(a, b, i - 1, j - 1) + Cost(a[i - 1], b[j - 1]))
  }

  /** Edit distance between the whole of `a` and the whole of `b`. */
  ghost function Dist(a: string, b: string): nat
  {
    PrefixDist(a, b, |a|, |b|)
  }

  /** One step of the recurrence, for use where the definition is not unfolded. */
  lemma PrefixDistStep(a: string, b: string, i: nat, j: nat)
    requires 0 < i <= |a| && 0 < j <= |b|
    ensures PrefixDist(a, b, i, j)
         == Min3(PrefixDist(a, b, i - 1, j) + 1,
                 PrefixDist(a, b, i, j - 1) + 1,
                 PrefixDist(a, b, i - 1, j - 1) + Cost(a[i - 1], b[j - 1]))
  {
  }

  /** Distance to the empty string is the other string's length, in either order. */
  lemma DistToEmpty(a: string)
    ensures Dist(a, "") == |a|
    ensures Dist("", a) == |a|
  {
  }

  lemma {:induction false} PrefixDistSymmetric(a: string, b: string, i: nat, j: nat)
    requires i <= |a| && j <= |b|
    ensures PrefixDist(a, b, i, j) == PrefixDist(b, a, j, i)
    decreases i + j
  {
    if i > 0 && j > 0 {
      PrefixDistSymmetric(a, b, i - 1, j);
      PrefixDistSymmetric(a, b, i, j - 1);
      PrefixDistSymmetric(a, b, i - 1, j - 1);
    }
  }

  /** The distance does not depend on the order of the arguments. */
  lemma DistSymmetric(a: string, b: string)
    ensures Dist(a, b) == Dist(b, a)
  {
    PrefixDistSymmetric(a, b, |a|, |b|);
  }

  lemma {:induction false} PrefixDistUpper(a: string, b: string, i: nat, j: nat)
    requires i <= |a| && j <= |b|
    ensures PrefixDist(a, b, i, j) <= i + j - Min(i, j)
    decreases i + j
  {
    if i > 0 && j > 0 {
      PrefixDistUpper(a, b, i - 1, j - 1);
    }
  }

  lemma {:induction false} PrefixDistLower(a: string, b: string, i: nat, j: nat)
    requires i <= |a| && j <= |b|
    ensures PrefixDist(a, b, i, j) + Min(i, j) >= i + j - Min(i, j)
    decreases i + j
  {
    if i > 0 && j > 0 {
      PrefixDistLower(a, b, i - 1, j);
      PrefixDistLower(a, b, i, j - 1);
      PrefixDistLower(a, b, i - 1, j - 1);
    }
  }

  /** The distance lies between the difference and the larger of the two lengths. */
  lemma DistBounds(a: string, b: string)
    ensures Dist(a, b) <= (if |a| <= |b| then |b| else |a|)
    ensures Dist(a, b) >= (if |a| <= |b| then |b| - |a| else |a| - |b|)
  {
    PrefixDistUpper(a, b, |a|, |b|);
    PrefixDistLower(a, b, |a|, |b|);
  }

  lemma {:induction false} PrefixDistZero(a: string, b: string, i: nat, j: nat)
    requires i <= |a| && j <= |b|
    ensures PrefixDist(a, b, i, j) == 0 <==> i == j && a[..i] == b[..j]
    decreases i + j
  {
    if i > 0 && j > 0 {
      PrefixDistZero(a, b, i - 1, j - 1);
      assert a[..i] == a[..i - 1] + [a[i - 1]];
      assert b[..j] == b[..j - 1] + [b[j - 1]];
      if PrefixDist(a, b, i, j) == 0 {
        PrefixDistLower(a, b, i - 1, j);
        PrefixDistLower(a, b, i, j - 1);
      }
      if i == j && a[..i] == b[..j] {
        assert a[..i - 1] == a[..i][..i - 1];
        assert b[..j - 1] == b[..j][..j - 1];
        assert a[i - 1] == a[..i][i - 1];
        assert b[j - 1] == b[..j][j - 1];
      }
    }
  }

  /** The distance is zero exactly when the two strings are equal. */
  lemma DistZeroIff(a: string, b: string)
    ensures Dist(a, b) == 0 <==> a == b
  {
    PrefixDistZero(a, b, |a|, |b|);
    assert a[..|a|] == a;
    assert b[..|b|] == b;
  }

  /**
   * The rolling-row dynamic program. The longer string drives the outer
   * loop (the source swaps the arguments by calling itself), an empty
   * shorter string returns the other's length at once, and after each
   * outer step `previousRow[j]` is the distance between the first `i`
   * characters of `s1` and the first `j` characters of `s2`.
   */
  method LevenshteinDistance(s1: string, s2: string) returns (d: nat)
    ensures d == Dist(s1, s2)
    decreases if |s1| < |s2| then 1 else 0
  {
    if |s1| < |s2| {
      d := LevenshteinDistance(s2, s1);
      DistSymmetric(s2, s1);
      return;
    }
    if |s2| == 0 {
      return |s1|;
    }
    var previousRow: seq<nat> := seq(|s2| + 1, k => k);
    var i := 0;
    while i < |s1|
      invariant 0 <= i <= |s1|
      invariant |previousRow| == |s2| + 1
      invariant forall j :: 0 <= j <= |s2| ==> previousRow[j] == PrefixDist(s1, s2, i, j)
    {
      var currentRow := NextRow(s1, s2, i, previousRow);
      previousRow := currentRow;
      i := i + 1;
    }
    d := previousRow[|s2|];
  }

  /**
   * One pass of the outer loop: from the row of prefix distances for the
   * first `i` characters of `s1`, builds the row for the first `i + 1`,
   * appending one entry per character of `s2`.
   */
  method NextRow(s1: string, s2: string, i: nat, previousRow: seq<nat>) returns (currentRow: seq<nat>)
    requires i < |s1|
    requires |previousRow| == |s2| + 1
    requires forall j :: 0 <= j <= |s2| ==> previousRow[j] == PrefixDist(s1, s2, i, j)
    ensures |currentRow| == |s2| + 1
    ensures forall k :: 0 <= k <= |s2| ==> currentRow[k] == PrefixDist(s1, s2, i + 1, k)
  {
    var c1 := s1[i];
    currentRow := [i + 1];
    var j := 0;
    while j < |s2|
      invariant 0 <= j <= |s2|
      invariant |currentRow| == j + 1
      invariant forall k :: 0 <= k <= j ==> currentRow[k] == PrefixDist(s1, s2, i + 1, k)
    {
      var c2 := s2[j];
      var insertions := previousRow[j + 1] + 1;
      var deletions := currentRow[j] + 1;
      var substitutions := previousRow[j] + Cost(c1, c2);
      PrefixDistStep(s1, s2, i + 1, j + 1);
      ghost var before := currentRow;
      currentRow := currentRow + [Min3(insertions, deletions, substitutions)];
      assert forall k :: 0 <= k <= j ==> currentRow[k] == before[k];
      assert currentRow[j + 1] == PrefixDist(s1, s2, i + 1, j + 1);
      j := j + 1;
    }
  }
}
