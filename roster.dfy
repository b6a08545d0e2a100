/**
 * Keeping a guest's companion slots in step with the number of people the guest may
 * bring: `allowedGuests - 1` slots, padded with blank companions or cut from the end.
 * The same effect appears in components/sections/guest-list.tsx and
 * components/improved-guest-list.tsx.
 */
module Roster {
  import opened Text
  import opened GuestModel

  function Blanks(k: nat): (r: seq<Companion>)
    ensures |r| == k && forall i :: 0 <= i < k ==> r[i] == BlankCompanion
  {
    seq(k, _ => BlankCompanion)
  }

  /**
   * The companion list with exactly `Math.max(0, count)` slots: the first slots are kept
   * as they were and any new slot is blank.
   */
  function Resized(cs: seq<Companion>, count: int): (r: seq<Companion>)
    ensures |r| == Max0(count)
    ensures forall i :: 0 <= i < |r| && i < |cs| ==> r[i] == cs[i]
    ensures forall i :: |cs| <= i < |r| ==> r[i] == BlankCompanion
  {
    var n := Max0(count);
    if |cs| >= n then cs[..n] else cs + Blanks(n - |cs|)
  }

  /**
   * The synchronising effect: when the number of slots differs from
   * `Math.max(0, allowedGuests - 1)`, push blank slots or splice off the tail.
   */
  method SyncCompanions(current: seq<Companion>, allowedGuests: int) returns (r: seq<Companion>)
    ensures r == Resized(current, allowedGuests - 1)
  {
    var companionCount := Max0(allowedGuests - 1);
    r := current;
    if |current| != companionCount {
      if |r| < companionCount {
        for i := |current| to companionCount
          invariant |r| == i
          invariant r == current + Blanks(i - |current|)
        {
          r := r + [BlankCompanion];
        }
      } else {
        r := r[..companionCount];
      }
    }
  }

  /** A list that already has the right number of slots is left as it is. */
  lemma ResizedNoop(cs: seq<Companion>)
    ensures Resized(cs, |cs|) == cs
  {
  }

  /**
   * Re-running the effect on its own output changes nothing: the effect depends on the
   * companion list it writes, and its second run finds the lengths equal.
   */
  lemma ResizedIdempotent(cs: seq<Companion>, count: int)
    ensures Resized(Resized(cs, count), count) == Resized(cs, count)
  {
    ResizedNoop(Resized(cs, count));
  }

  /**
   * Resizing twice is resizing once, unless the first resize cut off entries the second
   * one would have kept: lowering the allowance and raising it again loses names.
   */
  lemma ResizedTwice(cs: seq<Companion>, m: int, n: int)
    requires Max0(n) <= Max0(m) || |cs| <= Max0(m)
    ensures Resized(Resized(cs, m), n) == Resized(cs, n)
  {
  }

  /** Raising the allowance and lowering it back restores the original list. */
  lemma ResizedGrowShrink(cs: seq<Companion>, m: int)
    requires |cs| <= m
    ensures Resized(Resized(cs, m), |cs|) == cs
  {
    ResizedTwice(cs, m, |cs|);
  }

  /** Lowering the allowance and raising it back blanks the slots that were cut. */
  lemma ResizedShrinkGrow(cs: seq<Companion>, m: nat)
    requires m < |cs| && cs[m] != BlankCompanion
    ensures Resized(Resized(cs, m), |cs|) != cs
  {
    assert Resized(Resized(cs, m), |cs|)[m] == BlankCompanion;
  }
}
