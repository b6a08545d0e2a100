/**
 * Generic sequence vocabulary shared by the list views and the sheet stores:
 * `Array.prototype.filter`, `find`/`findIndex`, and counting with a predicate.
 */
module Seqs {
  import opened Wrappers

  /** `r` keeps some of the elements of `s`, in their original order. */
  predicate IsSubsequence<T(==)>(r: seq<T>, s: seq<T>)
    decreases |s|
  {
    if r == [] then true
    else if s == [] then false
    else (r[0] == s[0] && IsSubsequence(r[1..], s[1..])) || IsSubsequence(r, s[1..])
  }

  lemma {:induction false} IsSubsequenceRefl<T>(s: seq<T>)
    ensures IsSubsequence(s, s)
  {
    if s != [] {
      IsSubsequenceRefl(s[1..]);
    }
  }

  /** `s.filter(p)` */
  function Filter<T(==)>(s: seq<T>, p: T -> bool): (r: seq<T>)
    ensures |r| <= |s|
    ensures forall i :: 0 <= i < |r| ==> r[i] in s && p(r[i])
    ensures forall i :: 0 <= i < |s| && p(s[i]) ==> s[i] in r
    ensures IsSubsequence(r, s)
  {
    if s == [] then []
    else if p(s[0]) then [s[0]] + Filter(s[1..], p)
    else Filter(s[1..], p)
  }

  lemma AppendAssoc<T>(a: seq<T>, b: seq<T>, c: seq<T>)
    ensures (a + b) + c == a + (b + c)
  {
  }

  /** The prefix of a sequence up to its length is the whole sequence. */
  lemma WholePrefix<T>(s: seq<T>) ensures s[..|s|] == s { }

  /** A non-empty sequence is its head followed by its tail. */
  lemma HeadTail<T>(s: seq<T>)
    requires s != []
    ensures [s[0]] + s[1..] == s
  {
  }

  /** A filter whose predicate holds everywhere keeps the whole sequence. */
  lemma {:induction false} FilterAll<T>(s: seq<T>, p: T -> bool)
    requires forall i :: 0 <= i < |s| ==> p(s[i])
    ensures Filter(s, p) == s
  {
    if s != [] {
      FilterAll(s[1..], p);
    }
  }

  /** Filtering a sequence with one more element at its end. */
  lemma {:induction false} FilterSnoc<T>(s: seq<T>, x: T, p: T -> bool)
    ensures Filter(s + [x], p) == Filter(s, p) + (if p(x) then [x] else [])
  {
    if s == [] {
      assert s + [x] == [x];
      assert [x][1..] == [];
    } else {
      assert (s + [x])[0] == s[0];
      assert (s + [x])[1..] == s[1..] + [x];
      FilterSnoc(s[1..], x, p);
    }
  }

  /** `s` with its element at `k` removed: `splice(k, 1)`, or a sheet's `deleteRow`. */
  function Without<T>(s: seq<T>, k: nat): (r: seq<T>)
    requires k < |s|
    ensures |r| == |s| - 1
    ensures forall j :: 0 <= j < k ==> r[j] == s[j]
    ensures forall j :: k <= j < |r| ==> r[j] == s[j + 1]
  {
    s[..k] + s[k + 1..]
  }

  /** How many elements of `s` satisfy `p`: `s.filter(p).length`. */
  function Count<T(==)>(s: seq<T>, p: T -> bool): (n: nat)
    ensures n <= |s|
  {
    |Filter(s, p)|
  }

  lemma {:induction false} CountSplit<T>(s: seq<T>, t: seq<T>, p: T -> bool)
    ensures Count(s + t, p) == Count(s, p) + Count(t, p)
  {
    if s != [] {
      assert (s + t)[0] == s[0] && (s + t)[1..] == s[1..] + t;
      CountSplit(s[1..], t, p);
    } else {
      assert s + t == t;
    }
  }

  /** Counting over one more element of `s` adds one exactly when that element satisfies `p`. */
  lemma CountSnoc<T>(s: seq<T>, i: nat, p: T -> bool)
    requires i < |s|
    ensures Count(s[..i + 1], p) == Count(s[..i], p) + (if p(s[i]) then 1 else 0)
  {
    assert s[..i + 1] == s[..i] + [s[i]];
    CountSplit(s[..i], [s[i]], p);
  }

  /** Two predicates that never hold together count no more than the whole sequence. */
  lemma {:induction false} CountDisjoint2<T>(s: seq<T>, p: T -> bool, q: T -> bool)
    requires forall x :: !(p(x) && q(x))
    ensures Count(s, p) + Count(s, q) <= |s|
  {
    if s != [] {
      CountDisjoint2(s[1..], p, q);
    }
  }

  /** Three pairwise exclusive predicates count no more than the whole sequence. */
  lemma {:induction false} CountDisjoint3<T>(s: seq<T>, p: T -> bool, q: T -> bool, r: T -> bool)
    requires forall x :: !(p(x) && q(x)) && !(p(x) && r(x)) && !(q(x) && r(x))
    ensures Count(s, p) + Count(s, q) + Count(s, r) <= |s|
  {
    if s != [] {
      CountDisjoint3(s[1..], p, q, r);
    }
  }

  /** `s.findIndex(p)`, with `None` for -1. */
  function FindIndex<T>(s: seq<T>, p: T -> bool): (r: Option<nat>)
    ensures r.Some? ==> r.value < |s| && p(s[r.value]) && forall i :: 0 <= i < r.value ==> !p(s[i])
    ensures r.None? ==> forall i :: 0 <= i < |s| ==> !p(s[i])
  {
    if s == [] then None
    else if p(s[0]) then Some(0)
    else match FindIndex(s[1..], p)
      case None => None
      case Some(k) => Some(k + 1)
  }

  /** A forward scan from position `i` for the first element satisfying `p`. */
  function FindFrom<T>(s: seq<T>, p: T -> bool, i: nat): (r: Option<nat>)
    ensures r.Some? ==> i <= r.value < |s|
    decreases |s| - i
  {
    if i >= |s| then None
    else if p(s[i]) then Some(i)
    else FindFrom(s, p, i + 1)
  }

  /** The scan stops at the first element from `i` on that satisfies `p`, and finds nothing when none does. */
  lemma {:induction false} FindFromSpec<T>(s: seq<T>, p: T -> bool, i: nat)
    ensures FindFrom(s, p, i).Some? ==> p(s[FindFrom(s, p, i).value])
    ensures forall j :: (i <= j < |s| && (FindFrom(s, p, i).None? || j < FindFrom(s, p, i).value) ==> !p(s[j]))
    decreases |s| - i
  {
    if i < |s| && !p(s[i]) {
      FindFromSpec(s, p, i + 1);
    }
  }

  /** When `k` is the first position from `i` on whose element satisfies `p`, the scan finds `k`. */
  lemma {:induction false} FindFromFirst<T>(s: seq<T>, p: T -> bool, i: nat, k: nat)
    requires i <= k < |s| && p(s[k])
    requires forall j :: i <= j < k ==> !p(s[j])
    ensures FindFrom(s, p, i) == Some(k)
    decreases k - i
  {
    if i < k {
      FindFromFirst(s, p, i + 1, k);
    }
  }

  /** Some element at or after position `i`, other than the one at `k`, satisfies `p`. */
  predicate AnyExceptFrom<T>(s: seq<T>, p: T -> bool, k: nat, i: nat)
    decreases |s| - i
  {
    i < |s| && ((i != k && p(s[i])) || AnyExceptFrom(s, p, k, i + 1))
  }

  lemma {:induction false} AnyExceptFromSpec<T>(s: seq<T>, p: T -> bool, k: nat, i: nat)
    ensures AnyExceptFrom(s, p, k, i) <==> exists j :: i <= j < |s| && j != k && p(s[j])
    decreases |s| - i
  {
    if i < |s| {
      AnyExceptFromSpec(s, p, k, i + 1);
      if !(i != k && p(s[i])) && exists j :: i <= j < |s| && j != k && p(s[j]) {
        var j :| i <= j < |s| && j != k && p(s[j]);
        assert i + 1 <= j;
      }
    }
  }

  /** `s.map(f)` */
  function Map<T, U>(s: seq<T>, f: T -> U): (r: seq<U>)
    ensures |r| == |s|
    ensures forall i :: 0 <= i < |s| ==> r[i] == f(s[i])
  {
    seq(|s|, i requires 0 <= i < |s| => f(s[i]))
  }
}
