/** The scalar distance kernel: the Hamming distance of two aligned
    sequences under the mask-matching relation, the overflow guard on the
    accumulator, and the validation done before any distance is computed. */
module Kernel {
  import opened Encoding
  import opened Errors

  /** Mismatching positions of `a` and `b` at index `k` or later. */
  function MismatchesFrom(a: string, b: string, k: nat): (d: nat)
    requires |a| == |b| && k <= |a|
    ensures d <= |a| - k
    decreases |a| - k
  {
    if k == |a| then 0
    else (if Matches(a[k], b[k]) then 0 else 1) + MismatchesFrom(a, b, k + 1)
  }

  /** The Hamming distance: how many positions do not match. */
  function Distance(a: string, b: string): (d: nat)
    requires |a| == |b|
    ensures d <= |a|
  {
    MismatchesFrom(a, b, 0)
  }

  /** The positions at which `a` and `b` do not match. */
  function MismatchPositions(a: string, b: string): set<nat>
    requires |a| == |b|
  {
    set k: nat | k < |a| && !Matches(a[k], b[k])
  }

  lemma {:induction false} MismatchesFromCounts(a: string, b: string, k: nat)
    requires |a| == |b| && k <= |a|
    ensures MismatchesFrom(a, b, k) == |set p: nat | k <= p < |a| && !Matches(a[p], b[p])|
    decreases |a| - k
  {
    var here := set p: nat | k <= p < |a| && !Matches(a[p], b[p]);
    if k < |a| {
      var later := set p: nat | k + 1 <= p < |a| && !Matches(a[p], b[p]);
      MismatchesFromCounts(a, b, k + 1);
      if Matches(a[k], b[k]) {
        assert here == later;
      } else {
        assert here == later + {k};
      }
    } else {
      assert here == {};
    }
  }

  /** The distance is the number of mismatching positions. */
  lemma DistanceCountsMismatches(a: string, b: string)
    requires |a| == |b|
    ensures Distance(a, b) == |MismatchPositions(a, b)|
  {
    MismatchesFromCounts(a, b, 0);
    assert MismatchPositions(a, b) == set p: nat | 0 <= p < |a| && !Matches(a[p], b[p]);
  }

  /** The distance does not depend on argument order. */
  lemma DistanceSymmetric(a: string, b: string)
    requires |a| == |b|
    ensures Distance(a, b) == Distance(b, a)
  {
    DistanceCountsMismatches(a, b);
    DistanceCountsMismatches(b, a);
    forall k: nat | k < |a|
      ensures Matches(a[k], b[k]) == Matches(b[k], a[k])
    {
      MatchesSymmetric(a[k], b[k]);
    }
    assert MismatchPositions(a, b) == MismatchPositions(b, a);
  }

  /** A sequence is at distance zero from itself exactly when every symbol
      in it is a letter or the gap. */
  lemma SelfDistance(a: string)
    ensures Distance(a, a) == 0 <==> forall k | 0 <= k < |a| :: IsValid(a[k])
  {
    DistanceCountsMismatches(a, a);
    if Distance(a, a) == 0 {
      assert MismatchPositions(a, a) == {};
      forall k | 0 <= k < |a|
        ensures IsValid(a[k])
      {
        MatchesSelf(a[k]);
        assert k !in MismatchPositions(a, a);
      }
    } else {
      var k :| k in MismatchPositions(a, a);
      MatchesSelf(a[k]);
    }
  }

  lemma {:induction false} MismatchesFromAppend(a1: string, a2: string, b1: string, b2: string, k: nat)
    requires |a1| == |b1| && |a2| == |b2| && k <= |a1|
    ensures MismatchesFrom(a1 + a2, b1 + b2, k) == MismatchesFrom(a1, b1, k) + MismatchesFrom(a2, b2, 0)
    decreases |a1| - k
  {
    if k == |a1| {
      MismatchesFromShift(a1, a2, b1, b2, 0);
    } else {
      MismatchesFromAppend(a1, a2, b1, b2, k + 1);
    }
  }

  lemma {:induction false} MismatchesFromShift(a1: string, a2: string, b1: string, b2: string, k: nat)
    requires |a1| == |b1| && |a2| == |b2| && k <= |a2|
    ensures MismatchesFrom(a1 + a2, b1 + b2, |a1| + k) == MismatchesFrom(a2, b2, k)
    decreases |a2| - k
  {
    if k < |a2| {
      MismatchesFromShift(a1, a2, b1, b2, k + 1);
    }
  }

  /** Distance is additive over aligned concatenation. */
  lemma DistanceAppend(a1: string, a2: string, b1: string, b2: string)
    requires |a1| == |b1| && |a2| == |b2|
    ensures Distance(a1 + a2, b1 + b2) == Distance(a1, b1) + Distance(a2, b2)
  {
    MismatchesFromAppend(a1, a2, b1, b2, 0);
  }

  /** Two runs of distinct letters differ at every position. */
  lemma {:induction false} DistinctRunsDistance(x: char, y: char, len: nat)
    requires IsBase(x) && IsBase(y) && x != y
    ensures Distance(seq(len, _ => x), seq(len, _ => y)) == len
  {
    if len > 0 {
      DistinctRunsDistance(x, y, len - 1);
      DistanceAppend(seq(len - 1, _ => x), [x], seq(len - 1, _ => y), [y]);
      assert seq(len, _ => x) == seq(len - 1, _ => x) + [x];
      assert seq(len, _ => y) == seq(len - 1, _ => y) + [y];
    }
  }

  /** The checked kernel: the distance when it fits the accumulator whose
      largest value is `maxDist`, and the overflow failure otherwise. */
  function CheckedDistance(a: string, b: string, maxDist: nat): Result<nat>
    requires |a| == |b|
  {
    var d := Distance(a, b);
    if d <= maxDist then Ok(d) else Err(DistanceOverflow)
  }

  /** Position-by-position accumulation that stops with the overflow failure
      as soon as the running count no longer fits `maxDist`. */
  method AccumulateDistance(a: string, b: string, maxDist: nat) returns (r: Result<nat>)
    requires |a| == |b|
    ensures r.Ok? <==> Distance(a, b) <= maxDist
    ensures r.Ok? ==> r.value == Distance(a, b)
    ensures r.Err? ==> r.error == DistanceOverflow
  {
    var count: nat := 0;
    var k := 0;
    while k < |a|
      invariant k <= |a|
      invariant count <= maxDist
      invariant count + MismatchesFrom(a, b, k) == Distance(a, b)
    {
      if !Matches(a[k], b[k]) {
        if count == maxDist {
          return Err(DistanceOverflow);
        }
        count := count + 1;
      }
      k := k + 1;
    }
    r := Ok(count);
  }

  /** Whether every sequence has the length of the first one. */
  predicate SameLength(data: seq<string>)
    requires |data| > 0
  {
    forall k | 0 <= k < |data| :: |data[k]| == |data[0]|
  }

  /** First index at or after `k` whose sequence is not `len` long, or |data|. */
  function FirstOtherLength(data: seq<string>, len: nat, k: nat): (p: nat)
    requires k <= |data|
    ensures k <= p <= |data|
    ensures forall q | k <= q < p :: |data[q]| == len
    ensures p < |data| ==> |data[p]| != len
    decreases |data| - k
  {
    if k == |data| || |data[k]| != len then k else FirstOtherLength(data, len, k + 1)
  }

  /** Input validation: an empty collection or an empty first sequence is
      rejected first, then any sequence whose length differs from the first. */
  function Validate(data: seq<string>): (r: Outcome)
    ensures r == Fail(EmptySequence) <==> |data| == 0 || |data[0]| == 0
    ensures r == Fail(LengthMismatch) <==> |data| > 0 && |data[0]| > 0 && !SameLength(data)
    ensures r == Pass <==> |data| > 0 && |data[0]| > 0 && SameLength(data)
  {
    if |data| == 0 || |data[0]| == 0 then Fail(EmptySequence)
    else if FirstOtherLength(data, |data[0]|, 0) < |data| then Fail(LengthMismatch)
    else Pass
  }
}
