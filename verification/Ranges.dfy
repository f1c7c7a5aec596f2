/** Half-open iteration ranges and the two additive measures the runtime's proofs use:
    the number of iterations in a range, and whether one given iteration is in it. */
module Ranges {

  /** [lo, hi), empty when hi <= lo. */
  datatype Range = Range(lo: int, hi: int)

  /** Count measures a range by its size; At(i) by whether it holds iteration i.
      Both are additive, so a conservation law proved for every probe says at once
      how much work there is and that each iteration is there exactly once. */
  datatype Probe = Count | At(i: int)

  function Measure(r: Range, p: Probe): (n: nat)
    ensures r.lo >= r.hi ==> n == 0
    ensures p == Count && r.lo < r.hi ==> n == r.hi - r.lo
  {
    match p
    case Count => if r.lo < r.hi then r.hi - r.lo else 0
    case At(i) => if r.lo <= i < r.hi then 1 else 0
  }

  /** At most size iterations from the front of r, and what is left behind them. */
  function Front(r: Range, size: int): Range {
    if r.hi - r.lo > size then Range(r.lo, r.lo + size) else r
  }

  function AfterFront(r: Range, size: int): Range {
    Range(Front(r, size).hi, r.hi)
  }

  /** Exactly size iterations from the back of r, and what is left before them. */
  function Back(r: Range, size: int): Range {
    Range(r.hi - size, r.hi)
  }

  function BeforeBack(r: Range, size: int): Range {
    Range(r.lo, r.hi - size)
  }

  /** Sum of the measures of a history of ranges. */
  function Total(rs: seq<Range>, p: Probe): nat {
    if rs == [] then 0 else Total(rs[..|rs| - 1], p) + Measure(rs[|rs| - 1], p)
  }

  lemma TotalAppend(rs: seq<Range>, r: Range, p: Probe)
    ensures Total(rs + [r], p) == Total(rs, p) + Measure(r, p)
  {
    assert (rs + [r])[..|rs|] == rs;
  }

  lemma {:induction false} TotalConcat(xs: seq<Range>, ys: seq<Range>, p: Probe)
    ensures Total(xs + ys, p) == Total(xs, p) + Total(ys, p)
  {
    if ys == [] {
      assert xs + ys == xs;
    } else {
      var n := |ys| - 1;
      TotalConcat(xs, ys[..n], p);
      assert (xs + ys)[..|xs| + n] == xs + ys[..n];
    }
  }

  /** Every iteration of [first, last) is in exactly one range of the history, and no
      other iteration is in any. */
  ghost predicate ExactlyOnce(rs: seq<Range>, first: int, last: int) {
    forall i :: Total(rs, At(i)) == if first <= i < last then 1 else 0
  }

  ghost predicate AllNonEmpty(rs: seq<Range>) {
    forall k :: 0 <= k < |rs| ==> rs[k].lo < rs[k].hi
  }

  /** Some range of the history holds iteration i. */
  ghost predicate Holds(rs: seq<Range>, i: int) {
    exists k :: 0 <= k < |rs| && rs[k].lo <= i < rs[k].hi
  }

  predicate Disjoint(a: Range, b: Range) {
    a.hi <= b.lo || b.hi <= a.lo
  }

  lemma {:induction false} TotalAtLeast(rs: seq<Range>, k: int, p: Probe)
    requires 0 <= k < |rs|
    ensures Total(rs, p) >= Measure(rs[k], p)
  {
    if k < |rs| - 1 {
      TotalAtLeast(rs[..|rs| - 1], k, p);
    }
  }

  lemma {:induction false} TotalAtLeastTwo(rs: seq<Range>, j: int, k: int, p: Probe)
    requires 0 <= j < k < |rs|
    ensures Total(rs, p) >= Measure(rs[j], p) + Measure(rs[k], p)
  {
    if k < |rs| - 1 {
      TotalAtLeastTwo(rs[..|rs| - 1], j, k, p);
    } else {
      TotalAtLeast(rs[..|rs| - 1], j, p);
    }
  }

  lemma {:induction false} TotalHasWitness(rs: seq<Range>, i: int) returns (k: int)
    requires Total(rs, At(i)) > 0
    ensures 0 <= k < |rs| && rs[k].lo <= i < rs[k].hi
  {
    if Measure(rs[|rs| - 1], At(i)) > 0 {
      k := |rs| - 1;
    } else {
      k := TotalHasWitness(rs[..|rs| - 1], i);
    }
  }

  /** No index is counted twice: the non-empty ranges of the history are pairwise disjoint. */
  lemma AtMostOnceMeansDisjoint(rs: seq<Range>)
    requires forall i :: Total(rs, At(i)) <= 1
    ensures forall j, k :: 0 <= j < k < |rs| && rs[j].lo < rs[j].hi && rs[k].lo < rs[k].hi ==> Disjoint(rs[j], rs[k])
  {
    forall j, k | 0 <= j < k < |rs| && rs[j].lo < rs[j].hi && rs[k].lo < rs[k].hi
      ensures Disjoint(rs[j], rs[k])
    {
      var i := if rs[j].lo < rs[k].lo then rs[k].lo else rs[j].lo;
      TotalAtLeastTwo(rs, j, k, At(i));
    }
  }

  /** The counting form read as a partition: the ranges are inside [first, last), pairwise
      disjoint, and every iteration belongs to one of them. */
  lemma ExactlyOnceIsPartition(rs: seq<Range>, first: int, last: int)
    requires ExactlyOnce(rs, first, last) && AllNonEmpty(rs)
    ensures forall j, k :: 0 <= j < k < |rs| ==> Disjoint(rs[j], rs[k])
    ensures forall k :: 0 <= k < |rs| ==> first <= rs[k].lo && rs[k].hi <= last
    ensures forall i :: first <= i < last ==> Holds(rs, i)
  {
    AtMostOnceMeansDisjoint(rs);
    forall k | 0 <= k < |rs| ensures first <= rs[k].lo && rs[k].hi <= last {
      TotalAtLeast(rs, k, At(rs[k].lo));
      TotalAtLeast(rs, k, At(rs[k].hi - 1));
    }
    forall i | first <= i < last ensures Holds(rs, i) {
      assert Total(rs, At(i)) == 1;
      var k := TotalHasWitness(rs, i);
    }
  }
}
