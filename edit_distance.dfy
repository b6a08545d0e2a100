/**
 * The fuzzy-matching arithmetic of the RSVP lookup (components/sections/guest-list.tsx):
 * Levenshtein distance, filled in a (|str2|+1) x (|str1|+1) matrix, and the
 * similarity percentage derived from it.
 */
module EditDistance {
  import opened Names

  function Min3(a: nat, b: nat, c: nat): nat {
    if a <= b && a <= c then a else if b <= c then b else c
  }

  function Max(a: nat, b: nat): nat {
    if a >= b then a else b
  }

  /**
   * The edit distance between `a` and `b`, defined by the recurrence the matrix
   * follows: entry (i, j) of the matrix is `Lev(str1[..j], str2[..i])`.
   */
  function Lev(a: string, b: string): nat
    decreases |a| + |b|
  {
    if |b| == 0 then |a|
    else if |a| == 0 then |b|
    else if b[|b| - 1] == a[|a| - 1] then Lev(a[..|a| - 1], b[..|b| - 1])
    else Min3(Lev(a[..|a| - 1], b[..|b| - 1]) + 1,
              Lev(a[..|a| - 1], b) + 1,
              Lev(a, b[..|b| - 1]) + 1)
  }

  lemma {:induction false} LevSelf(a: string)
    ensures Lev(a, a) == 0
  {
    if a != [] {
      LevSelf(a[..|a| - 1]);
    }
  }

  lemma {:induction false} LevSymmetric(a: string, b: string)
    ensures Lev(a, b) == Lev(b, a)
    decreases |a| + |b|
  {
    if |a| > 0 && |b| > 0 {
      LevSymmetric(a[..|a| - 1], b[..|b| - 1]);
      LevSymmetric(a[..|a| - 1], b);
      LevSymmetric(a, b[..|b| - 1]);
    }
  }

  /** The distance never exceeds the longer length and never falls below the difference of lengths. */
  lemma {:induction false} LevBounds(a: string, b: string)
    ensures Lev(a, b) <= Max(|a|, |b|)
    ensures |a| - |b| <= Lev(a, b) && |b| - |a| <= Lev(a, b)
    decreases |a| + |b|
  {
    if |a| > 0 && |b| > 0 {
      LevBounds(a[..|a| - 1], b[..|b| - 1]);
      LevBounds(a[..|a| - 1], b);
      LevBounds(a, b[..|b| - 1]);
    }
  }

  /** The distance is zero exactly when the strings are equal. */
  lemma {:induction false} LevZeroIffEqual(a: string, b: string)
    ensures Lev(a, b) == 0 <==> a == b
    decreases |a| + |b|
  {
    if a == b {
      LevSelf(a);
    } else if |a| > 0 && |b| > 0 {
      LevBounds(a, b);
      if b[|b| - 1] == a[|a| - 1] {
        LevZeroIffEqual(a[..|a| - 1], b[..|b| - 1]);
      }
    }
  }

  /** Entry (i, j) of the matrix: the distance between `str1[..j]` and `str2[..i]`. */
  function Entry(str1: string, str2: string, i: nat, j: nat): nat
    requires i <= |str2| && j <= |str1|
  {
    Lev(str1[..j], str2[..i])
  }

  /** One step of the recurrence, stated on matrix entries. */
  lemma EntryStep(str1: string, str2: string, i: nat, j: nat)
    requires 1 <= i <= |str2| && 1 <= j <= |str1|
    ensures Entry(str1, str2, i, j) ==
      if str2[i - 1] == str1[j - 1] then Entry(str1, str2, i - 1, j - 1)
      else Min3(Entry(str1, str2, i - 1, j - 1) + 1, Entry(str1, str2, i, j - 1) + 1, Entry(str1, str2, i - 1, j) + 1)
  {
    assert str1[..j][..j - 1] == str1[..j - 1];
    assert str2[..i][..i - 1] == str2[..i - 1];
  }

  lemma EntryBorders(str1: string, str2: string)
    ensures forall i :: 0 <= i <= |str2| ==> Entry(str1, str2, i, 0) == i
    ensures forall j :: 0 <= j <= |str1| ==> Entry(str1, str2, 0, j) == j
    ensures Entry(str1, str2, |str2|, |str1|) == Lev(str1, str2)
  {
    assert str1[..|str1|] == str1 && str2[..|str2|] == str2;
  }

  /** `levenshteinDistance(str1, str2)`: the dynamic-programming matrix, row by row. */
  method LevenshteinDistance(str1: string, str2: string) returns (d: nat)
    ensures d == Lev(str1, str2)
  {
    var matrix := new nat[|str2| + 1, |str1| + 1];
    for i := 0 to |str2| + 1
      invariant forall r :: 0 <= r < i ==> matrix[r, 0] == r
    {
      matrix[i, 0] := i;
    }
    for j := 0 to |str1| + 1
      invariant forall r :: 0 <= r <= |str2| ==> matrix[r, 0] == r
      invariant forall c :: 0 <= c < j ==> matrix[0, c] == c
    {
      matrix[0, j] := j;
    }
    EntryBorders(str1, str2);
    for i := 1 to |str2| + 1
      invariant forall r :: 0 <= r <= |str2| ==> matrix[r, 0] == r
      invariant forall r, c :: 0 <= r < i && 0 <= c <= |str1| ==> matrix[r, c] == Entry(str1, str2, r, c)
    {
      for j := 1 to |str1| + 1
        invariant forall r :: 0 <= r <= |str2| ==> matrix[r, 0] == r
        invariant forall r, c :: 0 <= r < i && 0 <= c <= |str1| ==> matrix[r, c] == Entry(str1, str2, r, c)
        invariant forall c :: 0 <= c < j ==> matrix[i, c] == Entry(str1, str2, i, c)
      {
        EntryStep(str1, str2, i, j);
        if str2[i - 1] == str1[j - 1] {
          matrix[i, j] := matrix[i - 1, j - 1];
        } else {
          matrix[i, j] := Min3(matrix[i - 1, j - 1] + 1, matrix[i, j - 1] + 1, matrix[i - 1, j] + 1);
        }
      }
    }
    d := matrix[|str2|, |str1|];
  }

  /** A percentage `100 * num / den`, kept as an exact fraction. */
  datatype Score = Score(num: nat, den: nat)

  /** At least 90 percent. */
  predicate AtLeast90(s: Score) {
    10 * s.num >= 9 * s.den
  }

  /** `s` is a strictly larger percentage than `t`. */
  predicate Better(s: Score, t: Score) {
    s.num * t.den > t.num * s.den
  }

  /**
   * `calculateSimilarity(str1, str2)`: `(maxLength - distance) / maxLength` of the
   * normalised names, and 100 percent when both normalise to the empty string.
   */
  function Similarity(str1: string, str2: string): (r: Score)
    ensures 0 < r.den && r.num <= r.den
    ensures r.num == r.den <==> NormalizeName(str1) == NormalizeName(str2)
  {
    var n1 := NormalizeName(str1);
    var n2 := NormalizeName(str2);
    var maxLength := Max(|n1|, |n2|);
    LevBounds(n1, n2);
    LevZeroIffEqual(n1, n2);
    if maxLength == 0 then Score(1, 1) else Score(maxLength - Lev(n1, n2), maxLength)
  }

  /** The similarity of two names does not depend on their order. */
  lemma SimilaritySymmetric(str1: string, str2: string)
    ensures Similarity(str1, str2) == Similarity(str2, str1)
  {
    LevSymmetric(NormalizeName(str1), NormalizeName(str2));
  }

  /** `calculateSimilarity`, computing the distance with the matrix. */
  method CalculateSimilarity(str1: string, str2: string) returns (r: Score)
    ensures r == Similarity(str1, str2)
  {
    var normalized1 := NormalizeName(str1);
    var normalized2 := NormalizeName(str2);
    var distance := LevenshteinDistance(normalized1, normalized2);
    var maxLength := Max(|normalized1|, |normalized2|);
    if maxLength == 0 {
      return Score(1, 1);
    }
    LevBounds(normalized1, normalized2);
    r := Score(maxLength - distance, maxLength);
  }
}
