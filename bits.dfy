/** Bit vectors as the planner reads them: the pddl4j `BitVector` (a `java.util.BitSet`)
    holding the fluent indices of a precondition, an effect, the initial state or the goal.
    A vector is a finite sequence of bits; every bit past its end is clear. */
module Bits {

  type BitVector = seq<bool>

  /** Bit `i` of `b` is set. */
  predicate Bit(b: BitVector, i: int) {
    0 <= i < |b| && b[i]
  }

  /** The set positions of `b`. */
  function Positions(b: BitVector): set<nat> {
    set i: nat | i < |b| && b[i]
  }

  /** Every set bit of `b` lies below `n`. */
  predicate Within(b: BitVector, n: nat) {
    forall i :: 0 <= i < |b| && b[i] ==> i < n
  }

  /** `BitSet.nextSetBit(from)`: the first set position at or after `from`, or -1 when there is none. */
  function NextSetBit(b: BitVector, from: nat): (r: int)
    ensures r == -1 || (from <= r < |b| && b[r])
    decreases |b| - from
  {
    if from >= |b| then -1
    else if b[from] then from
    else NextSetBit(b, from + 1)
  }

  /** `nextSetBit` skips only clear bits. */
  lemma {:induction false} NextSetBitSkips(b: BitVector, from: nat)
    ensures forall j :: from <= j < |b| && (NextSetBit(b, from) == -1 || j < NextSetBit(b, from)) ==> !b[j]
    decreases |b| - from
  {
    if from < |b| && !b[from] {
      NextSetBitSkips(b, from + 1);
    }
  }

  /** `BitSet.nextClearBit(from)`: the first clear position at or after `from`. */
  function NextClearBit(b: BitVector, from: nat): (r: nat)
    ensures from <= r && (from <= |b| ==> r <= |b|)
    ensures r < |b| ==> !b[r]
    ensures forall j :: from <= j < r ==> Bit(b, j)
    decreases |b| - from
  {
    if from >= |b| || !b[from] then from
    else NextClearBit(b, from + 1)
  }

  /** The set positions below `k` in increasing order: what a `nextSetBit` scan has visited
      once it reaches `k`. */
  function SetBitsUpTo(b: BitVector, k: nat): seq<nat>
    requires k <= |b|
  {
    if k == 0 then [] else SetBitsUpTo(b, k - 1) + (if b[k - 1] then [k - 1] else [])
  }

  /** The set positions of `b` in increasing order: what a complete `nextSetBit` scan visits. */
  function SetBits(b: BitVector): seq<nat> {
    SetBitsUpTo(b, |b|)
  }

  /** Strictly increasing sequence. */
  predicate Increasing(s: seq<nat>) {
    forall i, j :: 0 <= i < j < |s| ==> s[i] < s[j]
  }

  /** The set positions below `k` in ascending order. */
  function PositionsUpTo(b: BitVector, k: nat): set<nat> {
    set i: nat | i < k && i < |b| && b[i]
  }

  lemma {:induction false} SetBitsUpToMembers(b: BitVector, k: nat)
    requires k <= |b|
    ensures forall i :: i in SetBitsUpTo(b, k) <==> i < k && Bit(b, i)
  {
    if k > 0 {
      SetBitsUpToMembers(b, k - 1);
    }
  }

  lemma SetBitsMembers(b: BitVector)
    ensures forall i :: i in SetBits(b) <==> Bit(b, i)
  {
    SetBitsUpToMembers(b, |b|);
  }

  lemma {:induction false} SetBitsUpToIncreasing(b: BitVector, k: nat)
    requires k <= |b|
    ensures Increasing(SetBitsUpTo(b, k))
    ensures forall i :: 0 <= i < |SetBitsUpTo(b, k)| ==> SetBitsUpTo(b, k)[i] < k
  {
    if k > 0 {
      SetBitsUpToIncreasing(b, k - 1);
    }
  }

  lemma SetBitsIncreasing(b: BitVector)
    ensures Increasing(SetBits(b))
    ensures forall i :: 0 <= i < |SetBits(b)| ==> SetBits(b)[i] < |b|
  {
    SetBitsUpToIncreasing(b, |b|);
  }

  lemma {:induction false} SetBitsUpToCount(b: BitVector, k: nat)
    requires k <= |b|
    ensures |SetBitsUpTo(b, k)| == |PositionsUpTo(b, k)|
  {
    if k == 0 {
      assert PositionsUpTo(b, k) == {};
    } else {
      SetBitsUpToCount(b, k - 1);
      if b[k - 1] {
        assert PositionsUpTo(b, k) == PositionsUpTo(b, k - 1) + {k - 1};
      } else {
        assert PositionsUpTo(b, k) == PositionsUpTo(b, k - 1);
      }
    }
  }

  /** The length of the scan is the number of set bits. */
  lemma SetBitsCount(b: BitVector)
    ensures |SetBits(b)| == |Positions(b)|
  {
    SetBitsUpToCount(b, |b|);
    assert PositionsUpTo(b, |b|) == Positions(b);
  }

  /** Setting a bit that is already set leaves the vector as it was. */
  lemma SetAgain(b: BitVector, i: nat)
    requires i < |b| && b[i]
    ensures b[i := true] == b
  {
  }

  /** Clear bits add nothing to the scan. */
  lemma {:induction false} SetBitsClearRange(b: BitVector, k: nat, j: nat)
    requires k <= j <= |b|
    requires forall i :: k <= i < j ==> !b[i]
    ensures SetBitsUpTo(b, j) == SetBitsUpTo(b, k)
  {
    if j > k {
      SetBitsClearRange(b, k, j - 1);
    }
  }

  /** One step of the loop `for (p = b.nextSetBit(k); p >= 0; p = b.nextSetBit(p + 1))`:
      the position found extends the scan so far, and -1 means the scan is complete. */
  lemma NextSetBitStep(b: BitVector, k: nat)
    requires k <= |b|
    ensures NextSetBit(b, k) < 0 ==> SetBitsUpTo(b, k) == SetBits(b)
    ensures NextSetBit(b, k) >= 0 ==>
      SetBitsUpTo(b, NextSetBit(b, k) + 1) == SetBitsUpTo(b, k) + [NextSetBit(b, k)]
  {
    var r := NextSetBit(b, k);
    NextSetBitSkips(b, k);
    if r < 0 {
      SetBitsClearRange(b, k, |b|);
    } else {
      SetBitsClearRange(b, k, r);
    }
  }
}
