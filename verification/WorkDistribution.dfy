/** The initial distribution of a loop's iterations: which slices exist, where they start,
    and which thread each one is reserved for. */
module WorkDistribution {
  import opened Arith
  import opened Ranges
  import opened ForeachLoop

  const MAX_PROCESSOR: nat := 254

  /** tid2pos entry of a thread without a reserved slice: (uint8_t)-1. */
  const NO_POS: int := 255

  /** Number of threads of the mask below i, the creating thread not counted. */
  function Below(mask: set<nat>, self: nat, i: nat): nat {
    if i == 0 then 0 else Below(mask, self, i - 1) + (if i - 1 in mask && i - 1 != self then 1 else 0)
  }

  /** The position of a thread's slice: the creating thread comes first if it is in the mask. */
  function PosOf(mask: set<nat>, self: nat, i: nat): nat {
    if i == self then 0 else Below(mask, self, i) + (if self in mask then 1 else 0)
  }

  lemma {:induction false} BelowMono(mask: set<nat>, self: nat, i: nat, j: nat)
    requires i <= j
    ensures Below(mask, self, i) <= Below(mask, self, j)
    ensures i < j && i in mask && i != self ==> Below(mask, self, i) < Below(mask, self, j)
  {
    if i < j {
      BelowMono(mask, self, i, j - 1);
    }
  }

  lemma {:induction false} BelowCounts(mask: set<nat>, self: nat, n: nat)
    requires forall k :: k in mask ==> k < n
    ensures Below(mask, self, n) + (if self in mask then 1 else 0) == |mask|
    decreases n
  {
    if n == 0 {
      assert mask == {};
    } else {
      var rest := mask - {n - 1};
      BelowCounts(rest, self, n - 1);
      BelowIgnores(mask, rest, self, n - 1);
      if n - 1 !in mask {
        assert rest == mask;
      }
    }
  }

  lemma {:induction false} BelowIgnores(a: set<nat>, b: set<nat>, self: nat, n: nat)
    requires forall k: nat :: k < n ==> (k in a <==> k in b)
    ensures Below(a, self, n) == Below(b, self, n)
  {
    if n > 0 {
      BelowIgnores(a, b, self, n - 1);
    }
  }

  /** Positions are distinct and below the number of threads in the mask: they number the
      slices 0 .. |mask| - 1 without gap or repetition. */
  lemma PositionsAreSlices(mask: set<nat>, self: nat)
    ensures forall i :: i in mask ==> PosOf(mask, self, i) < |mask|
    ensures forall i, j :: i in mask && j in mask && i != j ==> PosOf(mask, self, i) != PosOf(mask, self, j)
  {
    var n := Bound(mask);
    BelowCounts(mask, self, n);
    forall i | i in mask ensures PosOf(mask, self, i) < |mask| {
      BelowMono(mask, self, i, n);
      if self in mask { BelowMono(mask, self, self, n); }
    }
    forall i, j | i in mask && j in mask && i != j ensures PosOf(mask, self, i) != PosOf(mask, self, j) {
      if i < j { BelowMono(mask, self, i, j); } else { BelowMono(mask, self, j, i); }
    }
  }

  ghost function Bound(mask: set<nat>): (n: nat)
    ensures forall k :: k in mask ==> k < n
  {
    if mask == {} then 0
    else
      var k :| k in mask;
      var m := Bound(mask - {k});
      assert mask == (mask - {k}) + {k};
      if k < m then m else k + 1
  }

  lemma SubsetSameSize(a: set<nat>, b: set<nat>)
    requires a <= b && |a| == |b|
    ensures a == b
  {
    assert b == a + (b - a);
    assert |b - a| == 0;
  }

  /** Thread ids and positions are the same numbers on the mask. */
  ghost predicate Identity(mask: set<nat>, self: nat) {
    forall i :: i in mask ==> PosOf(mask, self, i) == i
  }

  lemma {:induction false} BelowAll(n: nat, self: nat, i: nat)
    requires i <= n && (self == 0 || self >= n)
    ensures Below(UpTo(n), self, i) == if self == 0 && i > 0 then i - 1 else i
  {
    if i > 0 {
      BelowAll(n, self, i - 1);
    }
  }

  /** The map holds thread bits while the claiming code uses bit indices as positions and
      positions as thread ids. The two agree exactly when the threads of the mask are the
      lowest ones and the creating thread, if it is one of them, is thread 0. */
  lemma IdentityExactly(mask: set<nat>, self: nat)
    ensures Identity(mask, self) <==> mask == UpTo(|mask|) && (self in mask ==> self == 0)
  {
    var n := |mask|;
    PositionsAreSlices(mask, self);
    if Identity(mask, self) {
      forall k | k in mask ensures k in UpTo(n) {
        assert PosOf(mask, self, k) == k;
      }
      assert mask <= UpTo(n);
      UpToSize(n);
      SubsetSameSize(mask, UpTo(n));
    }
    if mask == UpTo(n) && (self in mask ==> self == 0) {
      assert self == 0 || self >= n;
      forall i | i in mask ensures PosOf(mask, self, i) == i {
        BelowAll(n, self, i);
      }
    }
  }

  /** The slice that the splitter serves for a request of thread t: the bit it claims is t's
      position, and it then looks that bit up as if it were a thread id. */
  function ServedTo(mask: set<nat>, self: nat, t: nat): nat {
    PosOf(mask, self, PosOf(mask, self, t))
  }

  lemma {:induction false} BelowSkips(n: nat, self: nat, i: nat)
    requires i <= n && self < n
    ensures Below(UpTo(n), self, i) == if i > self then i - 1 else i
  {
    if i > 0 {
      BelowSkips(n, self, i - 1);
    }
  }

  /** When thread self > 0 creates a loop for threads 0 .. n - 1 and is one of them, it pops
      slice 0 for itself, and the splitter that answers thread self - 1 claims bit self and serves slice 0
      once more, to the request slot of thread self. */
  lemma OtherCreatorServesTwice(n: nat, self: nat)
    requires 0 < self < n
    ensures PosOf(UpTo(n), self, self) == 0 && PosOf(UpTo(n), self, self - 1) == self
    ensures ServedTo(UpTo(n), self, self - 1) == 0
  {
    BelowSkips(n, self, self - 1);
  }

  class Distribution {
    var slices: set<nat>
    var tid2pos: array<int>
    var startindex: array<int>

    constructor ()
      ensures fresh(tid2pos) && fresh(startindex)
      ensures tid2pos.Length == MAX_PROCESSOR && startindex.Length == MAX_PROCESSOR + 1
    {
      slices := {};
      tid2pos := new int[MAX_PROCESSOR];
      startindex := new int[MAX_PROCESSOR + 1];
    }

    /** Fill tid2pos: every thread of the mask gets its position, the others none; the entry
        of a creating thread outside the mask is left as it was. */
    method FillPositions(mask: set<nat>, self: nat, concurrency: nat)
      requires tid2pos.Length == MAX_PROCESSOR && self < concurrency <= MAX_PROCESSOR
      modifies tid2pos
      ensures forall i: nat {:trigger tid2pos[i]} :: i < concurrency && i in mask ==> tid2pos[i] == PosOf(mask, self, i)
      ensures forall i: nat {:trigger tid2pos[i]} :: i < concurrency && i !in mask && i != self ==> tid2pos[i] == NO_POS
      ensures self !in mask ==> tid2pos[self] == old(tid2pos[self])
    {
      var finalsize := |mask|;
      var localcount := 0;
      if self in mask {
        tid2pos[self] := localcount;
        localcount := localcount + 1;
      }
      var ownPos := tid2pos[self];
      var i: nat := 0;
      while i < concurrency
        invariant i <= concurrency
        invariant localcount == Below(mask, self, i) + (if self in mask then 1 else 0)
        invariant forall k: nat {:trigger tid2pos[k]} :: k < i && k != self ==>
          tid2pos[k] == if k in mask then PosOf(mask, self, k) else NO_POS
        invariant tid2pos[self] == ownPos
      {
        if i != self {
          if i in mask { RoomFor(mask, self, i); }
          if i in mask && localcount < finalsize {
            tid2pos[i] := localcount;
            localcount := localcount + 1;
          } else {
            tid2pos[i] := NO_POS;
          }
        }
        i := i + 1;
      }
    }

    /** Fill the slice bounds for a range cut into finalsize slices, slice 0 taking the
        remainder off. */
    method FillStarts(first: int, last: int, finalsize: nat, concurrency: nat)
      requires startindex.Length == MAX_PROCESSOR + 1 && 1 <= finalsize <= MAX_PROCESSOR && concurrency <= MAX_PROCESSOR
      requires finalsize <= last - first
      modifies startindex
      ensures forall p: nat {:trigger startindex[p]} :: p <= finalsize ==>
        startindex[p] == StartAt(first, (last - first) % finalsize, (last - first) / finalsize, p)
      ensures forall p: nat {:trigger startindex[p]} :: finalsize <= p <= concurrency ==> startindex[p] == startindex[finalsize]
    {
      var rangeSize := last - first;
      var off := rangeSize % finalsize;
      rangeSize := rangeSize - off;
      var scale := rangeSize / finalsize;
      ScaleIs(last - first, finalsize);
      startindex[0] := first;
      startindex[1] := first + off + scale;
      var i: nat := 1;
      while i < finalsize
        invariant 1 <= i <= finalsize
        invariant forall p: nat {:trigger startindex[p]} :: p <= i ==> startindex[p] == StartAt(first, off, scale, p)
      {
        startindex[i + 1] := startindex[i] + scale;
        i := i + 1;
      }
      i := finalsize;
      while i < concurrency
        invariant finalsize <= i && (i <= concurrency || i == finalsize)
        invariant forall p: nat {:trigger startindex[p]} :: p <= finalsize ==> startindex[p] == StartAt(first, off, scale, p)
        invariant forall p: nat {:trigger startindex[p]} :: finalsize <= p <= i ==> startindex[p] == startindex[finalsize]
      {
        startindex[i + 1] := startindex[finalsize];
        i := i + 1;
      }
    }

    /** One slice for each thread of the set, or the low bits when there are fewer iterations. */
    method ChooseMask(cpuset: set<nat>, nthreads: nat, rangeSize: int) returns (mask: set<nat>, finalsize: nat)
      requires rangeSize >= 1 && UpTo(nthreads) * cpuset != {}
      ensures 1 <= finalsize == |mask| <= nthreads && finalsize <= rangeSize && mask <= UpTo(nthreads)
      ensures var all := UpTo(nthreads) * cpuset;
        if rangeSize < |all| then mask == UpTo(finalsize) && finalsize == rangeSize else mask == all
    {
      mask := UpTo(nthreads) * cpuset;
      var sizemap := |mask|;
      finalsize := sizemap;
      MaskSize(mask, nthreads);
      if rangeSize < sizemap {
        finalsize := rangeSize;
        mask := UpTo(finalsize);
        UpToSize(finalsize);
      }
    }

    /** Distribute [first, last) over the threads of cpuset among the first nthreads ones.
        The range is cut into consecutive non-empty slices, one per thread of the mask or one
        per iteration if there are fewer; slice 0 is larger by less than their number. When
        thread 0 creates the loop for all threads the result is a valid configuration of the
        adaptive loop. */
    method Init(self: nat, cpuset: set<nat>, nthreads: nat, concurrency: nat, first: int, last: int)
      returns (finalsize: nat)
      requires tid2pos.Length == MAX_PROCESSOR && startindex.Length == MAX_PROCESSOR + 1
      requires self < concurrency <= MAX_PROCESSOR && nthreads <= MAX_PROCESSOR
      requires first < last && UpTo(nthreads) * cpuset != {}
      modifies this, tid2pos, startindex
      ensures tid2pos == old(tid2pos) && startindex == old(startindex)
      ensures 1 <= finalsize <= nthreads && |slices| == finalsize
      ensures var mask := UpTo(nthreads) * cpuset;
        if last - first < |mask| then slices == UpTo(finalsize) && finalsize == last - first else slices == mask
      ensures Tiles(startindex[..finalsize + 1], first, last)
      ensures forall i :: i in slices ==> i < nthreads && (i < concurrency ==> tid2pos[i] == PosOf(slices, self, i))
      ensures self == 0 && UpTo(nthreads) <= cpuset ==>
        slices == UpTo(finalsize) && forall i :: i in slices && i < concurrency ==> tid2pos[i] == i
    {
      var mask;
      mask, finalsize := ChooseMask(cpuset, nthreads, last - first);
      slices := mask;
      FillPositions(mask, self, concurrency);
      FillStarts(first, last, finalsize, concurrency);
      StartsTile(startindex[..finalsize + 1], first, last, finalsize);
      if self == 0 && UpTo(nthreads) <= cpuset {
        FullSetIsIdentity(nthreads, cpuset, mask, finalsize);
      }
    }
  }

  /** Thread 0 creating a loop for all threads: the mask is the low bits, each its own position. */
  lemma FullSetIsIdentity(nthreads: nat, cpuset: set<nat>, mask: set<nat>, finalsize: nat)
    requires UpTo(nthreads) <= cpuset && |mask| == finalsize
    requires mask == UpTo(nthreads) * cpuset || mask == UpTo(finalsize)
    ensures mask == UpTo(finalsize) && forall i :: i in mask ==> PosOf(mask, 0, i) == i
  {
    assert UpTo(nthreads) * cpuset == UpTo(nthreads);
    UpToSize(nthreads);
    IdentityExactly(mask, 0);
  }

  /** The count of positions given before thread i leaves one for it. */
  lemma RoomFor(mask: set<nat>, self: nat, i: nat)
    requires i in mask && i != self
    ensures Below(mask, self, i) + (if self in mask then 1 else 0) < |mask|
  {
    var n := Bound(mask);
    BelowCounts(mask, self, n);
    BelowMono(mask, self, i, n);
  }

  /** Where slice p starts when slices have size scale and slice 0 also takes off. */
  function StartAt(first: int, off: int, scale: int, p: nat): int {
    if p == 0 then first else if p == 1 then first + off + scale else StartAt(first, off, scale, p - 1) + scale
  }

  /** starts bounds consecutive non-empty slices of [first, last), all of the same size
      except slice 0, which is larger by less than their number. */
  ghost predicate Tiles(starts: seq<int>, first: int, last: int) {
    && |starts| >= 2 && starts[0] == first && starts[|starts| - 1] == last
    && (forall p :: 0 <= p < |starts| - 1 ==> starts[p] < starts[p + 1])
    && var scale := (last - first) / (|starts| - 1);
    && (forall p :: 1 <= p < |starts| - 1 ==> starts[p + 1] - starts[p] == scale)
    && 0 <= (starts[1] - starts[0]) - scale < |starts| - 1
  }

  lemma {:induction false} StartAtIs(first: int, off: int, scale: int, p: nat)
    requires p >= 1
    ensures StartAt(first, off, scale, p) == first + off + p * scale
  {
    if p > 1 {
      StartAtIs(first, off, scale, p - 1);
      assert p * scale == (p - 1) * scale + scale;
    }
  }

  lemma StartsTile(starts: seq<int>, first: int, last: int, n: nat)
    requires 1 <= n <= last - first && |starts| == n + 1
    requires forall p: nat {:trigger starts[p]} :: p <= n ==> starts[p] == StartAt(first, (last - first) % n, (last - first) / n, p)
    ensures Tiles(starts, first, last)
  {
    ScaleIs(last - first, n);
    var off, scale := (last - first) % n, (last - first) / n;
    StartAtIs(first, off, scale, n);
    forall p | 0 <= p < n ensures starts[p + 1] - starts[p] == if p == 0 then off + scale else scale {
      var q: nat := p;
      assert starts[q] == StartAt(first, off, scale, q) && starts[q + 1] == StartAt(first, off, scale, q + 1);
    }
  }

  /** A distribution made by thread 0 over all threads is a configuration of the loop. */
  lemma TilesConfigure(starts: seq<int>, first: int, last: int, threads: nat, seqGrain: int, parGrain: int)
    requires Tiles(starts, first, last) && threads >= |starts| - 1 && seqGrain >= 1 && parGrain >= 1
    ensures ValidConfig(Config(starts, threads, seqGrain, parGrain))
    ensures Whole(Config(starts, threads, seqGrain, parGrain)) == Range(first, last)
  {
  }

  lemma ScaleIs(n: int, k: nat)
    requires 1 <= k <= n
    ensures (n - n % k) / k == n / k && n / k * k + n % k == n && n / k >= 1 && 0 <= n % k < k
  {
    var q := n / k;
    DivBound(n, k);
    assert q >= 1 by {
      if q <= 0 { MulMono(q, 0, k); }
    }
    DivUnique(n - n % k, k, q);
  }

  lemma MaskSize(mask: set<nat>, n: nat)
    requires mask <= UpTo(n) && mask != {}
    ensures 1 <= |mask| <= n
  {
    UpToSize(n);
    assert |UpTo(n)| == |mask| + |UpTo(n) - mask| by { assert UpTo(n) == mask + (UpTo(n) - mask); }
  }
}
