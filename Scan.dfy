/**
 * The two searches a backtracking regular-expression match performs over
 * candidate positions: the leftmost start of a match, and the latest end of
 * a greedy gap. `f(i)` is what the rest of the pattern yields at position `i`.
 */
module Scan {
  import opened Wrappers

  /** The value at the least `i` in `[lo, hi]` where `f` yields one. */
  function First<T>(f: nat -> Option<T>, lo: nat, hi: nat): (r: Option<T>)
    ensures r.Some? ==> exists i: nat :: lo <= i <= hi && f(i) == r
    decreases hi + 1 - lo
  {
    if lo > hi then None
    else if f(lo).Some? then f(lo)
    else First(f, lo + 1, hi)
  }

  /** The value at the greatest `i` in `[lo, hi]` where `f` yields one. */
  function Last<T>(f: nat -> Option<T>, lo: nat, hi: nat): (r: Option<T>)
    ensures r.Some? ==> exists i: nat :: lo <= i <= hi && f(i) == r
    decreases hi
  {
    if hi < lo then None
    else if f(hi).Some? then f(hi)
    else if hi == 0 then None
    else Last(f, lo, hi - 1)
  }

  lemma {:induction false} FirstNone<T>(f: nat -> Option<T>, lo: nat, hi: nat)
    ensures First(f, lo, hi).None? <==> forall i: nat :: lo <= i <= hi ==> f(i).None?
    decreases hi + 1 - lo
  {
    if lo <= hi && f(lo).None? {
      FirstNone(f, lo + 1, hi);
    }
  }

  /** Where the forward search stops: the least position where `f` yields a value. */
  lemma {:induction false} FirstAt<T>(f: nat -> Option<T>, lo: nat, hi: nat) returns (i: nat)
    requires First(f, lo, hi).Some?
    ensures lo <= i <= hi && f(i) == First(f, lo, hi)
    ensures forall j: nat :: lo <= j < i ==> f(j).None?
    decreases hi + 1 - lo
  {
    if f(lo).Some? {
      i := lo;
    } else {
      i := FirstAt(f, lo + 1, hi);
    }
  }

  lemma {:induction false} LastNone<T>(f: nat -> Option<T>, lo: nat, hi: nat)
    ensures Last(f, lo, hi).None? <==> forall i: nat :: lo <= i <= hi ==> f(i).None?
    decreases hi
  {
    if lo <= hi && f(hi).None? && hi > 0 {
      LastNone(f, lo, hi - 1);
    }
  }

  /** Where the backward search stops: the greatest position where `f` yields a value. */
  lemma {:induction false} LastAt<T>(f: nat -> Option<T>, lo: nat, hi: nat) returns (i: nat)
    requires Last(f, lo, hi).Some?
    ensures lo <= i <= hi && f(i) == Last(f, lo, hi)
    ensures forall j: nat :: i < j <= hi ==> f(j).None?
    decreases hi
  {
    if f(hi).Some? {
      i := hi;
    } else {
      i := LastAt(f, lo, hi - 1);
    }
  }
}
