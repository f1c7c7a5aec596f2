/** How the splitter sizes the pieces it steals for the pending requests. */
module WorkSplit {
  import opened Arith
  import opened Ranges

  /** How many requests to serve, and with how many iterations each. */
  datatype Plan = Plan(nreq: int, unit: int)

  function PlanFor(rangeSize: int, nreq: int, parGrain: int): Plan
    requires rangeSize >= 0 && nreq >= 0 && parGrain >= 1
  {
    var unit := rangeSize / (nreq + 1);
    if unit < parGrain then Plan(rangeSize / parGrain - 1, parGrain) else Plan(nreq, unit)
  }

  /** k whole grains fit in a size that gives each of n parties less than one grain. */
  lemma FewerGrains(size: int, n: int, unit: int, grain: int, k: int)
    requires n >= 1 && unit < grain && size < unit * n + n && k * grain <= size && grain >= 1
    ensures k < n
  {
    if k >= n {
      MulMono(n, k, grain);
      MulMono(unit + 1, grain, n);
    }
  }

  /** The adjusted number of requests never exceeds the pending ones, each piece has at
      least parGrain iterations, and the victim keeps at least a piece for itself of the size
      that was read. The plan is the largest such: with all requests served no larger pieces fit,
      and otherwise not one more of parGrain does. */
  lemma PlanFits(rangeSize: int, nreq: int, parGrain: int)
    requires rangeSize > parGrain >= 1 && nreq >= 1
    ensures var p := PlanFor(rangeSize, nreq, parGrain);
      0 <= p.nreq <= nreq && p.unit >= parGrain && p.nreq * p.unit < rangeSize
      && (p.nreq + 1) * p.unit <= rangeSize
      && (p.nreq == nreq ==> rangeSize < (p.unit + 1) * (nreq + 1))
      && (p.nreq < nreq ==> p.unit == parGrain && rangeSize < (p.nreq + 2) * parGrain)
      && (p.nreq == 0 <==> rangeSize < 2 * parGrain)
  {
    var unit, k := rangeSize / (nreq + 1), rangeSize / parGrain;
    DivBound(rangeSize, nreq + 1);
    DivBound(rangeSize, parGrain);
    if unit < parGrain {
      FewerGrains(rangeSize, nreq + 1, unit, parGrain, k);
      GrainShares(rangeSize, parGrain, k);
    } else {
      EvenShares(rangeSize, nreq, unit, parGrain);
    }
  }

  lemma EvenShares(size: int, nreq: int, unit: int, grain: int)
    requires nreq >= 1 && unit >= grain >= 1 && unit * (nreq + 1) <= size < unit * (nreq + 1) + (nreq + 1)
    ensures nreq * unit < size && (nreq + 1) * unit <= size < (unit + 1) * (nreq + 1) && 2 * grain <= size
  {
    assert unit * (nreq + 1) == nreq * unit + unit;
    assert (unit + 1) * (nreq + 1) == unit * (nreq + 1) + (nreq + 1);
    MulMono(1, nreq, unit);
  }

  lemma GrainShares(size: int, grain: int, k: int)
    requires size > grain >= 1 && k * grain <= size < k * grain + grain
    ensures k >= 1 && (k - 1) * grain < size && k * grain <= size < (k + 1) * grain && (k == 1 <==> size < 2 * grain)
  {
    assert (k - 1) * grain == k * grain - grain;
    assert (k + 1) * grain == k * grain + grain;
    if k <= 0 {
      MulMono(k, 0, grain);
    }
    if k >= 2 {
      MulMono(2, k, grain);
    }
  }

  /** The serving loop over a stolen range: pending requests are served from the back until
      none is left to serve. The pieces are consecutive from last down to first, so nothing
      of the stolen range is left over. */
  method Serve(first: int, last: int, nreq: int, unit: int, pending: int) returns (served: seq<Range>, rest: int)
    requires unit >= 1 && 0 <= nreq <= pending && last - first == nreq * unit
    ensures |served| == nreq && rest == first
    ensures forall k :: 0 <= k < nreq ==> served[k].hi - served[k].lo == unit
    ensures nreq > 0 ==> served[0].hi == last && served[nreq - 1].lo == first
    ensures forall k :: 0 <= k < nreq - 1 ==> served[k].lo == served[k + 1].hi
    ensures ExactlyOnce(served, first, last)
  {
    served := [];
    rest := last;
    var left, todo := pending, nreq;
    assert todo * unit == nreq * unit;
    while left > 0 && todo > 0
      invariant 0 <= todo <= left
      invariant |served| == nreq - todo
      invariant rest - first == todo * unit
      invariant forall k :: 0 <= k < |served| ==> served[k].hi - served[k].lo == unit
      invariant served == [] ==> rest == last
      invariant served != [] ==> served[0].hi == last && served[|served| - 1].lo == rest
      invariant forall k :: 0 <= k < |served| - 1 ==> served[k].lo == served[k + 1].hi
      invariant ExactlyOnce(served, rest, last) && rest <= last
      decreases todo
    {
      ghost var before := served;
      served := served + [Range(rest - unit, rest)];
      forall i ensures Total(served, At(i)) == if rest - unit <= i < last then 1 else 0 {
        TotalAppend(before, Range(rest - unit, rest), At(i));
      }
      assert (todo - 1) * unit == todo * unit - unit;
      rest := rest - unit;
      left, todo := left - 1, todo - 1;
    }
    assert todo * unit == 0;
  }
}
