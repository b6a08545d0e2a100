/**
 * `findMatchingGuest` of the RSVP lookup (components/sections/guest-list.tsx): the first
 * guest whose normalised name equals the normalised input, otherwise the guest with
 * the highest similarity of at least 90 percent, the earliest one on a tie. A guest
 * is identified by its index in the list.
 */
module Matcher {
  import opened Wrappers
  import opened Names
  import opened EditDistance
  import opened GuestModel
  import Seqs

  // ---------------------------------------------------------------------
  // Comparing percentages
  // ---------------------------------------------------------------------

  predicate Proper(s: Score) {
    0 < s.den && s.num <= s.den
  }

  lemma BetterIrreflexive(s: Score)
    ensures !Better(s, s)
  {
  }

  /** If `a` beats `b` and `c` does not, then `a` beats `c`. */
  lemma BetterThanNotBetter(a: Score, b: Score, c: Score)
    requires Proper(a) && Proper(b) && Proper(c)
    requires Better(a, b) && !Better(c, b)
    ensures Better(a, c)
  {
    assert a.num * b.den * c.den > b.num * a.den * c.den by {
      assert a.num * b.den > b.num * a.den;
    }
    assert b.num * c.den * a.den >= c.num * b.den * a.den by {
      assert c.num * b.den <= b.num * c.den;
    }
    assert (a.num * c.den) * b.den > (c.num * a.den) * b.den;
  }

  /** A percentage of at least 90 beats one below 90. */
  lemma AtLeast90Beats(a: Score, b: Score)
    requires Proper(a) && Proper(b)
    requires AtLeast90(a) && !AtLeast90(b)
    ensures Better(a, b)
  {
    var x, y := a.num * b.den, b.num * a.den;
    var z := a.den * b.den;
    assert 10 * x >= 9 * z by {
      MulRight(10 * a.num, 9 * a.den, b.den);
    }
    assert 9 * z > 10 * y by {
      MulRightStrict(9 * b.den, 10 * b.num, a.den);
    }
  }

  lemma MulRight(p: int, q: int, k: int)
    requires p >= q && k >= 0
    ensures p * k >= q * k
  {
  }

  lemma MulRightStrict(p: int, q: int, k: int)
    requires p > q && k > 0
    ensures p * k > q * k
  {
  }

  /** Nothing beats 100 percent, and only 100 percent is not beaten by it. */
  lemma FullScore(f: Score, s: Score)
    requires Proper(f) && Proper(s) && f.num == f.den
    ensures !Better(s, f)
    ensures !Better(f, s) <==> s.num == s.den
  {
    MulRight(s.den, s.num, f.den);
    if s.num < s.den {
      MulRightStrict(s.den, s.num, f.den);
    }
  }

  // ---------------------------------------------------------------------
  // The two passes
  // ---------------------------------------------------------------------

  /** The similarity of the input to each guest's name, in list order. */
  function Scores(input: string, guests: seq<Guest>): (r: seq<Score>)
    ensures |r| == |guests|
    ensures forall j :: 0 <= j < |r| ==> r[j] == Similarity(input, guests[j].name) && Proper(r[j])
  {
    seq(|guests|, j requires 0 <= j < |guests| => Similarity(input, guests[j].name))
  }

  predicate SameName(input: string, g: Guest) {
    NormalizeName(g.name) == NormalizeName(input)
  }

  /** `guests.find(guest => normalizeName(guest.name) === normalizedInput)` */
  function ExactIndex(input: string, guests: seq<Guest>): (r: Option<nat>)
    ensures r.Some? ==> (r.value < |guests| && SameName(input, guests[r.value])
      && forall j :: 0 <= j < r.value ==> !SameName(input, guests[j]))
    ensures r.None? ==> forall j :: 0 <= j < |guests| ==> !SameName(input, guests[j])
  {
    Seqs.FindIndex(guests, g => SameName(input, g))
  }

  /**
   * The fuzzy pass after its first `n` iterations: the best guest so far, replaced only
   * by one of at least 90 percent that scores strictly higher.
   */
  function BestUpTo(scores: seq<Score>, n: nat): (r: Option<nat>)
    requires n <= |scores|
    ensures r.Some? ==> r.value < n
  {
    if n == 0 then None
    else
      var best := BestUpTo(scores, n - 1);
      var s := scores[n - 1];
      if AtLeast90(s) && (best.None? || Better(s, scores[best.value])) then Some(n - 1)
      else best
  }

  /** `findMatchingGuest(inputName)` */
  function MatchGuest(input: string, guests: seq<Guest>): (r: Option<nat>)
    ensures r.Some? ==> r.value < |guests|
  {
    match ExactIndex(input, guests)
    case Some(k) => Some(k)
    case None => BestUpTo(Scores(input, guests), |guests|)
  }

  /**
   * What the fuzzy pass finds: nothing exactly when no score reaches 90 percent;
   * otherwise a guest that reaches 90 percent, that no guest beats, and that strictly
   * beats every guest before it.
   */
  lemma {:induction false} BestUpToSpec(scores: seq<Score>, n: nat)
    requires n <= |scores|
    requires forall j :: 0 <= j < |scores| ==> Proper(scores[j])
    ensures var r := BestUpTo(scores, n);
      && (r.None? <==> forall j :: 0 <= j < n ==> !AtLeast90(scores[j]))
      && (r.Some? ==>
            && AtLeast90(scores[r.value])
            && (forall j :: 0 <= j < n ==> !Better(scores[j], scores[r.value]))
            && (forall j :: 0 <= j < r.value ==> Better(scores[r.value], scores[j])))
  {
    if n > 0 {
      BestUpToSpec(scores, n - 1);
      var best := BestUpTo(scores, n - 1);
      var s := scores[n - 1];
      if AtLeast90(s) && best.None? {
        forall j | 0 <= j < n - 1
          ensures Better(s, scores[j])
        {
          AtLeast90Beats(s, scores[j]);
        }
      } else if AtLeast90(s) && Better(s, scores[best.value]) {
        var b := scores[best.value];
        forall j | 0 <= j < n - 1
          ensures Better(s, scores[j])
        {
          BetterThanNotBetter(s, b, scores[j]);
        }
        BetterIrreflexive(s);
      } else if best.Some? {
        var b := scores[best.value];
        if !AtLeast90(s) {
          AtLeast90Beats(b, s);
        }
      }
    }
  }

  /** What `findMatchingGuest` returns, in terms of the guests alone. */
  lemma MatchGuestSpec(input: string, guests: seq<Guest>)
    ensures var r := MatchGuest(input, guests);
      && (ExactIndex(input, guests).Some? ==> r == ExactIndex(input, guests))
      && (r.None? <==> forall j :: 0 <= j < |guests| ==> !AtLeast90(Similarity(input, guests[j].name)))
      && (r.Some? ==> r.value < |guests| && AtLeast90(Similarity(input, guests[r.value].name)))
      && (r.Some? ==> forall j :: 0 <= j < |guests| ==>
            !Better(Similarity(input, guests[j].name), Similarity(input, guests[r.value].name)))
      && (r.Some? ==> forall j :: 0 <= j < r.value ==>
            Better(Similarity(input, guests[r.value].name), Similarity(input, guests[j].name)))
  {
    var scores := Scores(input, guests);
    BestUpToSpec(scores, |guests|);
    ExactPassAgreesWithFuzzyPass(input, guests);
  }

  /** The fuzzy pass picks the first score of 100 percent when there is one. */
  lemma FirstFullIsBest(scores: seq<Score>, e: nat)
    requires forall j :: 0 <= j < |scores| ==> Proper(scores[j])
    requires e < |scores| && scores[e].num == scores[e].den
    requires forall j :: 0 <= j < e ==> scores[j].num != scores[j].den
    ensures BestUpTo(scores, |scores|) == Some(e)
  {
    BestUpToSpec(scores, |scores|);
    var f := scores[e];
    var k := BestUpTo(scores, |scores|).value;
    FullScore(f, scores[k]);
  }

  /** A guest scores 100 percent exactly when its normalised name is the input's. */
  lemma FullIffSameName(input: string, guests: seq<Guest>)
    ensures forall j :: 0 <= j < |guests| ==>
      (Scores(input, guests)[j].num == Scores(input, guests)[j].den <==> SameName(input, guests[j]))
  {
  }

  /**
   * The exact pass never changes the answer: a guest with the same normalised name
   * scores 100 percent, and the first such guest is also what the fuzzy pass picks.
   */
  lemma ExactPassAgreesWithFuzzyPass(input: string, guests: seq<Guest>)
    ensures MatchGuest(input, guests) == BestUpTo(Scores(input, guests), |guests|)
  {
    var e := ExactIndex(input, guests);
    if e.Some? {
      FullIffSameName(input, guests);
      FirstFullIsBest(Scores(input, guests), e.value);
    }
  }

  /** `findMatchingGuest`, with the fuzzy pass as the loop it is written as. */
  method FindMatchingGuest(input: string, guests: seq<Guest>) returns (r: Option<nat>)
    ensures r == MatchGuest(input, guests)
  {
    var exact := ExactIndex(input, guests);
    if exact.Some? {
      return exact;
    }
    ghost var scores := Scores(input, guests);
    r := None;
    var bestSimilarity := Score(0, 1);
    for i := 0 to |guests|
      invariant r == BestUpTo(scores, i)
      invariant r.Some? ==> bestSimilarity == scores[r.value]
      invariant r.None? ==> bestSimilarity == Score(0, 1)
    {
      var similarity := CalculateSimilarity(input, guests[i].name);
      if AtLeast90(similarity) && Better(similarity, bestSimilarity) {
        bestSimilarity := similarity;
        r := Some(i);
      }
    }
  }
}
