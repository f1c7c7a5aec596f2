/** The queue that hands a kernel range out as contiguous user ranges of a block-cyclic map. */
module BlockCyclicQueue {
  import opened Arith
  import opened Ranges
  import opened BlockCyclic

  /** User index u is the image of one of the kernel indices [beg, end). */
  ghost predicate ImageOf(u: int, beg: int, end: int, size: int, length: int, count: int)
    requires Sized(size, length, count)
  {
    0 <= u < count && beg <= User2Kernel(u, size, length, count) < end
  }

  /** n kernel indices inside one block are exactly one user range of length n. */
  lemma BlockImage(beg: int, n: int, size: int, length: int, count: int, u: int)
    requires Regular(size, length, count)
    requires 0 <= beg && 1 <= n && beg + n <= count && beg % size + n <= size
    ensures count / length >= 1
    ensures var lo := Kernel2User(beg, size, length, count);
            (lo <= u < lo + n <==> ImageOf(u, beg, beg + n, size, length, count))
  {
    KernelRoundTrip(beg, size, length, count);
    var lo := Kernel2User(beg, size, length, count);
    if lo <= u < lo + n {
      SameBlock(beg, u - lo, size, length, count);
      KernelRoundTrip(beg + (u - lo), size, length, count);
    }
    if ImageOf(u, beg, beg + n, size, length, count) {
      UserRoundTrip(u, size, length, count);
      SameBlock(beg, User2Kernel(u, size, length, count) - beg, size, length, count);
    }
  }

  /** The data distribution of a loop: none, or block-cyclic. */
  datatype DataDist = Void | Cyclic(size: int, length: int)

  // ----- where a pop stops -----

  function Least(a: int, b: int): int {
    if a < b then a else b
  }

  /** Where a pop that starts at beg should stop: at sgrain, at the end of the block, or at end. */
  function PopStop(beg: int, end: int, sgrain: int, size: int): int
    requires size >= 1
  {
    Least(Least((beg / size) * size + size, end), beg + sgrain)
  }

  /** Where the code stops: it keeps the end of the block in an int. */
  function PopEnd(beg: int, end: int, sgrain: int, size: int): int
    requires size >= 1
  {
    var edge := ToInt32((beg / size) * size + size);
    var limit := if edge > end then end else edge;
    if beg + sgrain < limit then beg + sgrain else limit
  }

  /** The end of the block fits an int, or is not reached and does not look nearer than it is. */
  predicate EdgeFits(beg: int, end: int, sgrain: int, size: int)
    requires size >= 1
  {
    var block := (beg / size) * size + size;
    ToInt32(block) == block || ToInt32(block) >= Least(end, beg + sgrain)
  }

  lemma LimitExactly(beg: int, end: int, sgrain: int, size: int)
    requires 0 <= beg < end <= 0x7fff_ffff && sgrain >= 1 && size >= 1
    ensures PopEnd(beg, end, sgrain, size) == PopStop(beg, end, sgrain, size) <==> EdgeFits(beg, end, sgrain, size)
  {
    DivBound(beg, size);
    var block := (beg / size) * size + size;
    if block <= 0x7fff_ffff {
      SmallIsInt32(block);
    }
  }

  /** Failing inputs: a block of 2^31 iterations, and one smaller than the loop whose second
      block ends at 2^31. The pop would move the start of the queue to -2^31. */
  lemma LimitWraps()
    ensures Regular(0x8000_0000, 1, 10) && PopEnd(0, 10, 4, 0x8000_0000) == -0x8000_0000 && PopStop(0, 10, 4, 0x8000_0000) == 4
    ensures Regular(0x4000_0000, 1, 0x7fff_ffff) && PopEnd(0x4000_0000, 0x7fff_ffff, 4, 0x4000_0000) == -0x8000_0000
    ensures PopStop(0x4000_0000, 0x7fff_ffff, 4, 0x4000_0000) == 0x4000_0004
  {
  }

  /** Every pop of a queue that ends at end stops where it should. */
  ghost predicate EdgesFit(beg: int, end: int, sgrain: int, size: int)
    requires size >= 1
  {
    forall x :: beg <= x < end ==> EdgeFits(x, end, sgrain, size)
  }

  /** It is enough that the last edge fits. */
  lemma LastEdgeFits(beg: int, end: int, sgrain: int, size: int)
    requires 0 <= beg <= end && size >= 1 && (end > 0 ==> ((end - 1) / size + 1) * size <= 0x7fff_ffff)
    ensures EdgesFit(beg, end, sgrain, size)
  {
    forall x | beg <= x < end ensures EdgeFits(x, end, sgrain, size) {
      EdgeBelow(x, end, size);
      SmallIsInt32((x / size) * size + size);
    }
  }

  lemma EdgeBelow(x: int, end: int, size: int)
    requires 0 <= x < end && size >= 1
    ensures 0 <= (x / size) * size + size <= ((end - 1) / size + 1) * size
  {
    DivBound(x, size);
    DivBound(end - 1, size);
    if x / size > (end - 1) / size {
      MulMono((end - 1) / size + 1, x / size, size);
    }
    MulMono(x / size + 1, (end - 1) / size + 1, size);
    assert (x / size + 1) * size == (x / size) * size + size;
  }

  /** When B * L divides N they all fit. */
  lemma EvenEdgesFit(beg: int, end: int, sgrain: int, size: int, length: int, count: int)
    requires Sized(size, length, count) && Even(size, length, count) && 0 <= beg <= end <= count
    ensures EdgesFit(beg, end, sgrain, size)
  {
    if end > 0 {
      EvenCovers(size, length, count);
      var rows := count / (length * size) * length;
      assert count == rows * size;
      EdgeOfMultiple(end - 1, rows, size);
    }
    LastEdgeFits(beg, end, sgrain, size);
  }

  lemma EdgeOfMultiple(x: int, rows: int, size: int)
    requires 0 <= x < rows * size && size >= 1
    ensures (x / size + 1) * size <= rows * size
  {
    DivBound(x, size);
    if x / size >= rows {
      MulMono(rows, x / size, size);
    }
    MulMono(x / size + 1, rows, size);
  }

  lemma PopStopBounds(beg: int, end: int, sgrain: int, size: int)
    requires 0 <= beg < end && sgrain >= 1 && size >= 1
    ensures var e := PopStop(beg, end, sgrain, size);
            beg < e <= end && e - beg <= sgrain && beg % size + (e - beg) <= size
    ensures var e := PopStop(beg, end, sgrain, size);
            e == end || e - beg == sgrain || (e % size == 0 && e == (beg / size + 1) * size)
    ensures var e := PopStop(beg, end, sgrain, size); e % size == 0 ==> e == (beg / size + 1) * size
    ensures var e := PopStop(beg, end, sgrain, size); e % size != 0 ==> beg % size + (e - beg) < size
  {
    DivBound(beg, size);
    var v := beg / size;
    var block, e := v * size + size, PopStop(beg, end, sgrain, size);
    assert block == (v + 1) * size;
    DivUnique(block, size, v + 1);
    if e < block {
      DivUnique(e, size, v);
    }
  }

  /** Whether the queue still holds the user index that follows a block, when the pop from beg
      has stopped at the block's edge at next: thread t's block q is followed by thread t + 1's. */
  predicate MoreLeft(beg: int, next: int, end: int, size: int, length: int, count: int)
    requires Sized(size, length, count)
  {
    if Straight(size, length, count) then next < end
    else
      var blocks := count / (length * size);
      blocks >= 1 &&
      var t, q := beg / size / blocks, (beg / size) % blocks;
      t + 1 < length && ((t + 1) * blocks + q) * size < end
  }

  /** The user index after the last element of block q of thread t. */
  lemma AfterBlock(size: int, length: int, blocks: int, count: int, t: int, q: int)
    requires Covers(size, length, blocks, count) && 0 <= t < length && 0 <= q < blocks
    ensures var u := (q * length + t) * size + size;
      && (t + 1 < length ==> u < count && Gather(u, size, length, blocks) == ((t + 1) * blocks + q) * size)
      && (t + 1 == length && q + 1 < blocks ==> u < count && Gather(u, size, length, blocks) == (q + 1) * size)
      && (t + 1 == length && q + 1 == blocks ==> u == count)
  {
    var w := q * length + t + 1;
    assert (q * length + t) * size + size == w * size by { Distribute(q * length + t, 1, size); }
    if t + 1 < length {
      assert 0 <= w < blocks * length && w / length == q && w % length == t + 1 by { Join(q, t + 1, blocks, length); }
      BlockStart(w, size, blocks * length);
    } else {
      assert w == (q + 1) * length by { Distribute(q, 1, length); }
      if q + 1 < blocks {
        assert 0 <= w < blocks * length && w / length == q + 1 && w % length == 0 by { Join(q + 1, 0, blocks, length); }
        BlockStart(w, size, blocks * length);
        assert 0 * blocks == 0;
      }
    }
  }

  lemma BlockStart(w: int, size: int, rows: int)
    requires 0 <= w < rows && size >= 1
    ensures 0 <= w * size < rows * size && (w * size) / size == w && (w * size) % size == 0
  {
    Join(w, 0, rows, size);
  }

  /** Of the blocks of a queue, the one that follows in user order is still there exactly when
      it is the same block of the next thread. */
  lemma EdgeLeft(size: int, length: int, blocks: int, count: int, t: int, q: int, end: int)
    requires Covers(size, length, blocks, count) && length >= 2 && 0 <= t < length && 0 <= q < blocks && end <= count
    ensures var u, next := (q * length + t) * size + size, (t * blocks + q + 1) * size;
      (u < count && next <= Gather(u, size, length, blocks) < end)
      <==> t + 1 < length && ((t + 1) * blocks + q) * size < end
  {
    AfterBlock(size, length, blocks, count, t, q);
    if t + 1 < length {
      Distribute(t, 1, blocks);
      MulMono(t * blocks + q + 1, (t + 1) * blocks + q, size);
    } else {
      MulMono(1, t, blocks);
      MulMono(q + 1 + 1, t * blocks + q + 1, size);
      Distribute(q + 1, 1, size);
    }
  }

  /** The index after block q of thread t, and whether the queue still holds it. */
  lemma BlockStop(next: int, end: int, size: int, length: int, count: int, blocks: int, t: int, q: int)
    requires Sized(size, length, count) && !Straight(size, length, count) && length >= 2
    requires blocks == count / (length * size) && Covers(size, length, blocks, count)
    requires 0 <= t < length && 0 <= q < blocks && next == (t * blocks + q + 1) * size && end <= count
    ensures ImageOf((q * length + t) * size + size, next, end, size, length, count)
        <==> t + 1 < length && ((t + 1) * blocks + q) * size < end
  {
    assert (q * length + t) * size + size >= 0 by {
      MulMono(0, q, length);
      MulMono(0, q * length + t, size);
    }
    EdgeLeft(size, length, blocks, count, t, q, end);
  }

  lemma MoreLeftIs(beg: int, next: int, end: int, size: int, length: int, count: int, blocks: int, t: int, q: int)
    requires Sized(size, length, count) && !Straight(size, length, count) && blocks == count / (length * size)
    requires 0 <= t < length && 0 <= q < blocks && beg / size == t * blocks + q
    ensures MoreLeft(beg, next, end, size, length, count) <==> t + 1 < length && ((t + 1) * blocks + q) * size < end
  {
    Join(t, q, length, blocks);
  }

  /** The pop of one block's end: what follows it in user order. */
  lemma CyclicStop(beg: int, next: int, end: int, size: int, length: int, count: int)
    requires Regular(size, length, count) && !Straight(size, length, count)
    requires 0 <= beg < next <= end <= count && next % size == 0 && next == (beg / size + 1) * size
    ensures count / length >= 1
    ensures ImageOf(Kernel2User(next - 1, size, length, count) + 1, next, end, size, length, count)
        <==> MoreLeft(beg, next, end, size, length, count)
  {
    EvenCovers(size, length, count);
    var blocks := count / (length * size);
    var t, q, r := KernelParts(beg, size, length, blocks, count);
    Distribute(t * blocks + q, 1, size);
    Kernel2UserIs(next - 1, size, length, blocks, count, t, q, size - 1);
    BlockStop(next, end, size, length, count, blocks, t, q);
    MoreLeftIs(beg, next, end, size, length, count, blocks, t, q);
  }

  /** When a pop returned less than sgrain, the next user index is still in the queue exactly
      when the pop stopped at a block edge and MoreLeft. */
  lemma StopExactly(beg: int, end: int, sgrain: int, size: int, length: int, count: int)
    requires Regular(size, length, count) && 0 <= beg < end <= count && sgrain >= 1
    requires PopStop(beg, end, sgrain, size) - beg < sgrain
    ensures count / length >= 1 && PopStop(beg, end, sgrain, size) >= 1
    ensures var next := PopStop(beg, end, sgrain, size);
      ImageOf(Kernel2User(next - 1, size, length, count) + 1, next, end, size, length, count)
      <==> next % size == 0 && MoreLeft(beg, next, end, size, length, count)
  {
    PopStopBounds(beg, end, sgrain, size);
    var next := PopStop(beg, end, sgrain, size);
    KernelRoundTrip(next - 1, size, length, count);
    if Straight(size, length, count) {
      StraightIs(next - 1, size, length, count);
    } else if next % size == 0 {
      CyclicStop(beg, next, end, size, length, count);
    } else {
      InsideStop(beg, next, size, length, count);
    }
  }

  /** A pop that stopped inside a block, so at the end of the queue. */
  lemma InsideStop(beg: int, end: int, size: int, length: int, count: int)
    requires Regular(size, length, count) && !Straight(size, length, count)
    requires 0 <= beg < end <= count && end % size != 0 && beg % size + (end - beg) < size
    ensures count / length >= 1
    ensures !ImageOf(Kernel2User(end - 1, size, length, count) + 1, end, end, size, length, count)
  {
    SizedDivides(size, length, count);
  }

  // ----- the documented promise: the largest contiguous user range of the queue -----

  /** The user indices of the kernel indices [beg, end). */
  ghost function Image(beg: int, end: int, size: int, length: int, count: int): iset<int>
    requires Sized(size, length, count)
  {
    iset u | ImageOf(u, beg, end, size, length, count)
  }

  /** The n indices from lo on. */
  ghost function Span(lo: int, n: int): iset<int> {
    iset u | Within(u, lo, n)
  }

  predicate Within(u: int, lo: int, n: int) {
    lo <= u < lo + n
  }

  /** No contiguous range inside users of at most sgrain indices is longer than n. */
  ghost predicate Largest(n: int, sgrain: int, users: iset<int>) {
    forall lo, m :: m <= sgrain && Span(lo, m) <= users ==> m <= n
  }

  /** Whether the pop of [beg, next) from [beg, end) is a largest one: it has sgrain iterations,
      or empties the queue, or the queue's other pieces are shorter and none adjoins another. */
  predicate PopsLargest(beg: int, next: int, end: int, sgrain: int, size: int, length: int, count: int)
    requires Sized(size, length, count)
  {
    var n := next - beg;
    || n == sgrain
    || next == end
    || (!Straight(size, length, count) &&
        if n < size then end - next <= n
        else
          var b, blocks := beg / size, count / (length * size);
          !((b + blocks) * size < end || (length == 2 && 1 <= b < blocks && (b + blocks) * size == end)))
  }

  /** The image of a piece of one block. */
  lemma PieceImage(x: int, y: int, size: int, length: int, count: int)
    requires Regular(size, length, count) && 0 <= x < y <= count && x % size + (y - x) <= size
    ensures count / length >= 1
    ensures Image(x, y, size, length, count) == Span(Kernel2User(x, size, length, count), y - x)
  {
    SizedDivides(size, length, count);
    var lo := Kernel2User(x, size, length, count);
    forall u ensures u in Image(x, y, size, length, count) <==> u in Span(lo, y - x) {
      BlockImage(x, y - x, size, length, count, u);
    }
  }

  lemma ImageCuts(beg: int, m: int, end: int, size: int, length: int, count: int)
    requires Sized(size, length, count) && beg <= m <= end
    ensures Image(beg, end, size, length, count) == Image(beg, m, size, length, count) + Image(m, end, size, length, count)
  {
  }

  lemma ImageGrows(x: int, y: int, beg: int, end: int, size: int, length: int, count: int)
    requires Sized(size, length, count) && beg <= x && y <= end
    ensures Image(x, y, size, length, count) <= Image(beg, end, size, length, count)
  {
  }

  /** Another piece of the queue. */
  lemma PieceLonger(x: int, y: int, beg: int, end: int, size: int, length: int, count: int) returns (lo: int)
    requires Regular(size, length, count) && 0 <= beg <= x < y <= end <= count && x % size + (y - x) <= size
    ensures count / length >= 1 && lo == Kernel2User(x, size, length, count)
    ensures Span(lo, y - x) <= Image(beg, end, size, length, count)
  {
    PieceImage(x, y, size, length, count);
    ImageGrows(x, y, beg, end, size, length, count);
    lo := Kernel2User(x, size, length, count);
  }

  lemma StraightLonger(n: int, beg: int, end: int, size: int, length: int, count: int)
    requires Sized(size, length, count) && Straight(size, length, count) && 0 <= beg && beg + n < end <= count
    ensures Span(beg, n + 1) <= Image(beg, end, size, length, count)
  {
  }

  /** A full block v in the queue, and the user index after it too. */
  lemma JoinLonger(v: int, t: int, q: int, blocks: int, next: int, beg: int, end: int, size: int, length: int, count: int) returns (lo: int)
    requires Regular(size, length, count) && !Straight(size, length, count) && blocks == count / (length * size)
    requires Covers(size, length, blocks, count) && 0 <= t < length && 0 <= q < blocks && v == t * blocks + q
    requires 0 <= beg <= v * size && (v + 1) * size <= end <= count && beg <= next < end
    requires var u := (q * length + t) * size + size; u < count && Gather(u, size, length, blocks) == next
    ensures Span(lo, size + 1) <= Image(beg, end, size, length, count)
  {
    assert (v + 1) * size == v * size + size by { Distribute(v, 1, size); }
    assert (v * size) % size == 0 by { MulMono(0, v, size); DivUnique(v * size, size, v); }
    lo := PieceLonger(v * size, (v + 1) * size, beg, end, size, length, count);
    assert lo == (q * length + t) * size by { Kernel2UserIs(v * size, size, length, blocks, count, t, q, 0); }
    assert lo + size >= 0 by { KernelRoundTrip(v * size, size, length, count); }
    assert lo + size in Image(beg, end, size, length, count);
    assert Span(lo, size + 1) == Span(lo, size) + iset{lo + size};
  }

  lemma PartsOfBlock(b: int, size: int, length: int, blocks: int, count: int) returns (t: int, q: int)
    requires Covers(size, length, blocks, count) && 0 <= b && (b + 1) * size <= count
    ensures 0 <= t < length && 0 <= q < blocks && b == t * blocks + q
  {
    assert (b + 1) * size == b * size + size by { Distribute(b, 1, size); }
    MulMono(0, b, size);
    var r;
    t, q, r := KernelParts(b * size, size, length, blocks, count);
    DivUnique(b * size, size, b);
  }

  lemma NextThreadLonger(b: int, end: int, size: int, length: int, count: int) returns (lo: int)
    requires Regular(size, length, count) && !Straight(size, length, count) && 0 <= b && (b + 1) * size <= end <= count
    requires (b + count / (length * size)) * size < end
    ensures Span(lo, size + 1) <= Image(b * size, end, size, length, count)
  {
    EvenCovers(size, length, count);
    var blocks := count / (length * size);
    var t, q := PartsOfBlock(b, size, length, blocks, count);
    assert t + 1 < length by { LastThread(t, q, b, size, length, blocks, count); }
    AfterBlock(size, length, blocks, count, t, q);
    assert (t + 1) * blocks + q == b + blocks by { Distribute(t, 1, blocks); }
    MulMono(0, b, size);
    MulMono(b, b + blocks, size);
    lo := JoinLonger(b, t, q, blocks, (b + blocks) * size, b * size, end, size, length, count);
  }

  lemma LastThread(t: int, q: int, b: int, size: int, length: int, blocks: int, count: int)
    requires Covers(size, length, blocks, count) && 0 <= t < length && 0 <= q && b == t * blocks + q
    requires (b + blocks) * size < count
    ensures t + 1 < length
  {
    if t + 1 == length {
      Distribute(t, 1, blocks);
      assert count == (length * blocks) * size;
      MulMono(length * blocks, b + blocks, size);
    }
  }

  /** Two threads: the last block of the queue is followed by the first. */
  lemma AroundLonger(b: int, end: int, size: int, length: int, count: int) returns (lo: int)
    requires Regular(size, length, count) && !Straight(size, length, count) && length == 2
    requires var blocks := count / (length * size); 1 <= b < blocks && (b + blocks) * size == end <= count
    ensures Span(lo, size + 1) <= Image(b * size, end, size, length, count)
  {
    EvenCovers(size, length, count);
    var blocks := count / (length * size);
    AfterBlock(size, length, blocks, count, 1, b - 1);
    var v := blocks + b - 1;
    MulMono(0, b, size);
    MulMono(b, v, size);
    assert b * size < end by { MulMono(b + 1, b + blocks, size); Distribute(b, 1, size); }
    lo := JoinLonger(v, 1, b - 1, blocks, b * size, b * size, end, size, length, count);
  }

  /** A range is no longer than one that holds it. */
  lemma OneRange(n: int, sgrain: int, a: int)
    requires n >= 1
    ensures Largest(n, sgrain, Span(a, n))
  {
    forall lo, m | m <= sgrain && Span(lo, m) <= Span(a, n) ensures m <= n {
      if m >= 1 {
        assert lo in Span(lo, m) && lo + m - 1 in Span(lo, m);
      }
    }
  }

  /** A range inside two ranges that do not touch is inside one of them. */
  lemma TwoRanges(n: int, sgrain: int, a: int, p: int, c: int, f: int)
    requires 1 <= p <= n && 1 <= f <= n && (a + p < c || c + f < a)
    ensures Largest(n, sgrain, Span(a, p) + Span(c, f))
  {
    forall lo, m | m <= sgrain && Span(lo, m) <= Span(a, p) + Span(c, f) ensures m <= n {
      var edge := if a <= lo < a + p then a + p else c + f;
      assert m >= 1 ==> lo in Span(lo, m);
      assert Within(edge, lo, m) ==> edge in Span(lo, m);
    }
  }

  /** The end of one block and the beginning of the next are apart in user order. */
  lemma PiecesApart(beg: int, next: int, end: int, size: int, length: int, count: int)
    requires Regular(size, length, count) && !Straight(size, length, count)
    requires 0 <= beg < next < end <= count && next == (beg / size + 1) * size && end - next < size
    ensures count / length >= 1
    ensures var a, c := Kernel2User(beg, size, length, count), Kernel2User(next, size, length, count);
      a + (next - beg) < c || c + (end - next) < a
  {
    var x := (beg / size) * size;
    assert 0 <= x <= beg < next == x + size by { DivBound(beg, size); Distribute(beg / size, 1, size); }
    assert x % size == 0 by { DivUnique(x, size, beg / size); }
    BlocksDiffer(x, next, size, length, count);
    SameBlock(x, beg - x, size, length, count);
  }

  /** Two consecutive blocks go to user blocks that are not next to each other in this order,
      and are different blocks. */
  lemma BlocksDiffer(x: int, next: int, size: int, length: int, count: int)
    requires Regular(size, length, count) && !Straight(size, length, count)
    requires 0 <= x && x % size == 0 && next == x + size < count
    ensures count / length >= 1
    ensures var a, c := Kernel2User(x, size, length, count), Kernel2User(next, size, length, count);
      a + size < c || c + size <= a
  {
    EvenCovers(size, length, count);
    var blocks := count / (length * size);
    TwoByTwo(size, length, blocks, count);
    var t, q, r := KernelParts(x, size, length, blocks, count);
    var t', q', r' := KernelParts(next, size, length, blocks, count);
    Kernel2UserIs(x, size, length, blocks, count, t, q, r);
    Kernel2UserIs(next, size, length, blocks, count, t', q', r');
    assert next / size == x / size + 1 && r' == 0 by {
      DivBound(x, size);
      Distribute(x / size, 1, size);
      DivUnique(next, size, x / size + 1);
    }
    NextBlock(t, q, t', q', blocks);
    JumpApart(t, q, t', q', length, blocks, size);
  }

  lemma TwoByTwo(size: int, length: int, blocks: int, count: int)
    requires Covers(size, length, blocks, count) && !Straight(size, length, count)
    ensures length >= 2 && blocks >= 2
  {
    PerThread(size, length, blocks, count);
  }

  /** Block q of thread t is followed, in kernel order, by the thread's next or by the next thread's first. */
  lemma NextBlock(t: int, q: int, t': int, q': int, blocks: int)
    requires 0 <= t && 0 <= q < blocks && 0 <= t' && 0 <= q' < blocks && t' * blocks + q' == t * blocks + q + 1
    ensures if q + 1 < blocks then t' == t && q' == q + 1 else t' == t + 1 && q' == 0
  {
    if q + 1 < blocks {
      Join2(t', q', t, q + 1, blocks);
    } else {
      Distribute(t, 1, blocks);
      Join2(t', q', t + 1, 0, blocks);
    }
  }

  lemma JumpApart(t: int, q: int, t': int, q': int, length: int, blocks: int, size: int)
    requires length >= 2 && blocks >= 2 && size >= 1 && 0 <= t < length && 0 <= q < blocks
    requires if q + 1 < blocks then t' == t && q' == q + 1 else t' == t + 1 && q' == 0
    ensures var a, c := (q * length + t) * size, (q' * length + t') * size; a + size < c || c + size <= a
  {
    var w, w' := q * length + t, q' * length + t';
    if q + 1 < blocks {
      assert w' == w + length by { Distribute(q, 1, length); }
      MulMono(w + 2, w', size);
      Distribute(w, 2, size);
    } else {
      assert w' + 1 <= w by { MulMono(1, q, length); }
      MulMono(w' + 1, w, size);
      Distribute(w', 1, size);
    }
  }

  /** A queue of two pieces, the first of which does not begin its block and is not the shorter. */
  lemma TwoPieces(beg: int, next: int, end: int, sgrain: int, size: int, length: int, count: int)
    requires Regular(size, length, count) && !Straight(size, length, count)
    requires 0 <= beg < next < end <= count && next == (beg / size + 1) * size && next - beg < size && end - next <= next - beg
    requires beg % size + (next - beg) <= size && next % size == 0
    ensures Largest(next - beg, sgrain, Image(beg, end, size, length, count))
  {
    PiecesApart(beg, next, end, size, length, count);
    PieceImage(beg, next, size, length, count);
    PieceImage(next, end, size, length, count);
    ImageCuts(beg, next, end, size, length, count);
    TwoRanges(next - beg, sgrain, Kernel2User(beg, size, length, count), next - beg,
              Kernel2User(next, size, length, count), end - next);
  }

  /** A user index at a block edge in the queue, together with the one before it. */
  lemma EdgeInQueue(u: int, b: int, end: int, size: int, length: int, count: int)
    requires Regular(size, length, count) && !Straight(size, length, count) && 0 <= b && b * size < end <= count
    requires u >= 1 && u % size == 0
    requires ImageOf(u - 1, b * size, end, size, length, count) && ImageOf(u, b * size, end, size, length, count)
    ensures var blocks := count / (length * size);
      (b + blocks) * size < end || (length == 2 && 1 <= b < blocks && (b + blocks) * size == end)
  {
    EvenCovers(size, length, count);
    var blocks := count / (length * size);
    TwoByTwo(size, length, blocks, count);
    UserRoundTrip(u - 1, size, length, count);
    var x := User2Kernel(u - 1, size, length, count);
    var t, q, r := KernelParts(x, size, length, blocks, count);
    Kernel2UserIs(x, size, length, blocks, count, t, q, r);
    LastOfBlock(u, q * length + t, r, size);
    AfterBlock(size, length, blocks, count, t, q);
    EdgeArith(t, q, b, end, size, length, blocks, User2Kernel(u, size, length, count));
  }

  /** The last element of block q of thread t and the next user index, at next, are both in the queue. */
  lemma EdgeArith(t: int, q: int, b: int, end: int, size: int, length: int, blocks: int, next: int)
    requires length >= 2 && blocks >= 2 && size >= 1 && 0 <= t < length && 0 <= q < blocks && 0 <= b
    requires b * size <= (t * blocks + q) * size + size - 1 < end && b * size <= next < end
    requires if t + 1 < length then next == ((t + 1) * blocks + q) * size else q + 1 < blocks && next == (q + 1) * size
    ensures (b + blocks) * size < end || (length == 2 && 1 <= b < blocks && (b + blocks) * size == end)
  {
    var v := t * blocks + q;
    assert v >= b by { if v < b { MulMono(v + 1, b, size); Distribute(v, 1, size); } }
    if t + 1 < length {
      assert (t + 1) * blocks + q == v + blocks by { Distribute(t, 1, blocks); }
      MulMono(b + blocks, v + blocks, size);
    } else {
      assert (v + 1) * size <= end by { Distribute(v, 1, size); }
      assert q + 1 >= b by { if q + 1 < b { MulMono(q + 2, b, size); Distribute(q + 1, 1, size); } }
      if (b + blocks) * size >= end {
        assert v + 1 <= b + blocks by { if v + 1 > b + blocks { MulMono(b + blocks + 1, v + 1, size); Distribute(b + blocks, 1, size); } }
        Around(t, q, b, v, length, blocks);
      }
    }
  }

  lemma LastOfBlock(u: int, w: int, r: int, size: int)
    requires u >= 1 && size >= 1 && 0 <= w && 0 <= r < size && u - 1 == w * size + r && u % size == 0
    ensures r == size - 1 && u == w * size + size
  {
    if r < size - 1 {
      MulMono(0, w, size);
      DivUnique(u, size, w);
    }
  }

  /** The last thread's block q before block q + 1 of thread 0, both inside the queue. */
  lemma Around(t: int, q: int, b: int, v: int, length: int, blocks: int)
    requires length >= 2 && blocks >= 2 && t + 1 == length && 0 <= q && v == t * blocks + q
    requires v + 1 <= b + blocks && b <= q + 1 < blocks
    ensures length == 2 && b == q + 1 && v + 1 == b + blocks
  {
    if length >= 3 {
      MulMono(2, t, blocks);
    }
  }

  /** A queue that begins with a full block, without user-adjacent blocks. */
  lemma NoAdjacent(b: int, end: int, sgrain: int, size: int, length: int, count: int)
    requires Regular(size, length, count) && !Straight(size, length, count) && 0 <= b && b * size < end <= count
    requires var blocks := count / (length * size);
      !((b + blocks) * size < end || (length == 2 && 1 <= b < blocks && (b + blocks) * size == end))
    ensures Largest(size, sgrain, Image(b * size, end, size, length, count))
  {
    var users := Image(b * size, end, size, length, count);
    forall lo, m | m <= sgrain && Span(lo, m) <= users ensures m <= size {
      if m > size {
        assert lo in Span(lo, m);
        var u := EdgeBetween(lo, size);
        assert u - 1 in Span(lo, m) && u in Span(lo, m);
        EdgeInQueue(u, b, end, size, length, count);
      }
    }
  }

  lemma EdgeBetween(lo: int, size: int) returns (u: int)
    requires lo >= 0 && size >= 1
    ensures lo < u <= lo + size && u >= 1 && u % size == 0
  {
    DivBound(lo, size);
    u := (lo / size) * size + size;
    Distribute(lo / size, 1, size);
    DivUnique(u, size, lo / size + 1);
  }

  /** The pop returns a largest contiguous range of the queue exactly when PopsLargest. */
  lemma LargestExactly(beg: int, end: int, sgrain: int, size: int, length: int, count: int)
    requires Regular(size, length, count) && 0 <= beg < end <= count && sgrain >= 1
    ensures var next := PopStop(beg, end, sgrain, size);
      Largest(next - beg, sgrain, Image(beg, end, size, length, count)) <==> PopsLargest(beg, next, end, sgrain, size, length, count)
  {
    PopStopBounds(beg, end, sgrain, size);
    var next := PopStop(beg, end, sgrain, size);
    if next - beg != sgrain {
      if next == end {
        PieceImage(beg, next, size, length, count);
        OneRange(next - beg, sgrain, Kernel2User(beg, size, length, count));
      } else if Straight(size, length, count) {
        StraightLonger(next - beg, beg, end, size, length, count);
      } else if next - beg < size {
        PartialExactly(beg, next, end, sgrain, size, length, count);
      } else {
        FullExactly(beg, next, end, sgrain, size, length, count);
      }
    }
  }

  lemma PartialExactly(beg: int, next: int, end: int, sgrain: int, size: int, length: int, count: int)
    requires Regular(size, length, count) && !Straight(size, length, count)
    requires 0 <= beg < next < end <= count && next == (beg / size + 1) * size && next - beg < size && next - beg < sgrain
    requires beg % size + (next - beg) <= size && next % size == 0
    ensures Largest(next - beg, sgrain, Image(beg, end, size, length, count)) <==> end - next <= next - beg
  {
    if end - next <= next - beg {
      TwoPieces(beg, next, end, sgrain, size, length, count);
    } else {
      var lo := PieceLonger(next, next + (next - beg) + 1, beg, end, size, length, count);
    }
  }

  lemma FullExactly(beg: int, next: int, end: int, sgrain: int, size: int, length: int, count: int)
    requires Regular(size, length, count) && !Straight(size, length, count)
    requires 0 <= beg < next < end <= count && next == (beg / size + 1) * size && next - beg == size && size < sgrain
    ensures Largest(next - beg, sgrain, Image(beg, end, size, length, count)) <==> PopsLargest(beg, next, end, sgrain, size, length, count)
  {
    var b, blocks := beg / size, count / (length * size);
    DivBound(beg, size);
    assert beg == b * size by { Distribute(b, 1, size); }
    if (b + blocks) * size < end {
      var lo := NextThreadLonger(b, end, size, length, count);
    } else if length == 2 && 1 <= b < blocks && (b + blocks) * size == end {
      var lo := AroundLonger(b, end, size, length, count);
    } else {
      NoAdjacent(b, end, sgrain, size, length, count);
    }
  }

  /** Failing inputs of the documented promise: the range could grow upwards (B = 1, L = 2, N = 4,
      queue [0, 4)), downwards (queue [1, 3)), or a later piece is longer (B = 4, L = 2, N = 16,
      queue [3, 8)). */
  lemma DocumentedRangeMissed()
    ensures Regular(1, 2, 4) && PopStop(0, 4, 4, 1) == 1 && !PopsLargest(0, 1, 4, 4, 1, 2, 4)
    ensures PopStop(1, 3, 4, 1) == 2 && !PopsLargest(1, 2, 3, 4, 1, 2, 4)
    ensures Regular(4, 2, 16) && PopStop(3, 8, 4, 4) == 4 && !PopsLargest(3, 4, 8, 4, 4, 2, 16)
  {
    assert 4 / 2 == 2 && 4 % (2 * 1) == 0 && 4 / (2 * 1) == 2;
    assert 16 / 2 == 8 && 16 % (2 * 4) == 0 && 16 / (2 * 4) == 2;
  }

  /** What holds of one pop. */
  lemma PopFacts(beg: int, end: int, sgrain: int, size: int, length: int, count: int)
    requires Regular(size, length, count) && 0 <= beg < end <= count && sgrain >= 1 && EdgeFits(beg, end, sgrain, size)
    ensures count / length >= 1
    ensures var next := PopEnd(beg, end, sgrain, size);
      && beg < next <= end && next - beg <= sgrain
      && var lo, hi := Kernel2User(beg, size, length, count), Kernel2User(next - 1, size, length, count) + 1;
      && hi - lo == next - beg && Span(lo, hi - lo) == Image(beg, next, size, length, count)
      && (Largest(hi - lo, sgrain, Image(beg, end, size, length, count)) <==> PopsLargest(beg, next, end, sgrain, size, length, count))
      && (hi - lo < sgrain ==> (ImageOf(hi, next, end, size, length, count)
                                <==> next % size == 0 && MoreLeft(beg, next, end, size, length, count)))
  {
    LimitExactly(beg, end, sgrain, size);
    PopStopBounds(beg, end, sgrain, size);
    var next := PopStop(beg, end, sgrain, size);
    PieceImage(beg, next, size, length, count);
    SameBlock(beg, next - 1 - beg, size, length, count);
    LargestExactly(beg, end, sgrain, size, length, count);
    if next - beg < sgrain {
      StopExactly(beg, end, sgrain, size, length, count);
    }
  }

  // ----- the queue -----

  /** The private queue of a thread, in kernel indices. */
  class LocalWorkqueue {
    var beg: int
    var end: int

    method Set(b: int, e: int)
      modifies this
      ensures beg == b && end == e
    {
      end := e;
      beg := b;
    }

    predicate IsEmpty()
      reads this
    {
      end <= beg
    }

    /** One pop; ok is false for EBUSY. The user range is the image of exactly the kernel
        indices that left the queue and holds between 1 and sgrain iterations. It is a largest
        contiguous range of the queue exactly when PopsLargest; when it is shorter than sgrain,
        it could have been extended upwards exactly when it stopped at a block edge and MoreLeft. */
    method Pop(dist: DataDist, count: int, sgrain: int) returns (ok: bool, r: Range)
      requires dist.Cyclic? ==> Regular(dist.size, dist.length, count) && 0 <= beg && end <= count && sgrain >= 1
      requires dist.Cyclic? && beg < end ==> EdgeFits(beg, end, sgrain, dist.size)
      modifies this
      ensures ok <==> !old(IsEmpty())
      ensures ok ==> r.lo < r.hi
      ensures dist.Void? ==> IsEmpty() && r == Range(old(beg), old(end))
      ensures dist.Cyclic? && !ok ==> beg == old(beg) && end == old(end)
      ensures dist.Cyclic? && ok ==> old(beg) < beg <= end == old(end) && r.hi - r.lo == beg - old(beg) <= sgrain
      ensures dist.Cyclic? && ok ==>
        Span(r.lo, r.hi - r.lo) == Image(old(beg), beg, dist.size, dist.length, count)
      ensures dist.Cyclic? && ok ==>
        (Largest(r.hi - r.lo, sgrain, Image(old(beg), end, dist.size, dist.length, count))
         <==> PopsLargest(old(beg), beg, end, sgrain, dist.size, dist.length, count))
      ensures dist.Cyclic? && ok && r.hi - r.lo < sgrain ==>
        (ImageOf(r.hi, beg, end, dist.size, dist.length, count)
         <==> beg % dist.size == 0 && MoreLeft(old(beg), beg, end, dist.size, dist.length, count))
    {
      match dist {
        case Void =>
          r := Range(beg, end);
          beg, end := 0, 0;
          ok := r.lo < r.hi;
        case Cyclic(size, length) =>
          if beg >= end {
            return false, Range(0, 0);
          }
          ghost var b := beg;
          var e := PopEnd(beg, end, sgrain, size);
          PopFacts(beg, end, sgrain, size, length, count);
          r := Range(Kernel2User(beg, size, length, count), Kernel2User(e - 1, size, length, count) + 1);
          beg := e;
          ok := true;
      }
    }
  }

  /** The ranges popped so far hand out the image of [b, e), each user index once. */
  ghost predicate Drained(out: seq<Range>, b: int, e: int, size: int, length: int, count: int)
    requires Sized(size, length, count)
  {
    forall u :: Total(out, At(u)) == if u in Image(b, e, size, length, count) then 1 else 0
  }

  lemma DrainStep(out: seq<Range>, r: Range, b: int, m: int, e: int, size: int, length: int, count: int)
    requires Sized(size, length, count) && b <= m <= e && Drained(out, b, m, size, length, count)
    requires Span(r.lo, r.hi - r.lo) == Image(m, e, size, length, count)
    ensures Drained(out + [r], b, e, size, length, count)
  {
    forall u ensures Total(out + [r], At(u)) == if u in Image(b, e, size, length, count) then 1 else 0 {
      assert u in Span(r.lo, r.hi - r.lo) <==> u in Image(m, e, size, length, count);
      TotalAppend(out, r, At(u));
    }
  }

  /** A kernel range put in the queue and popped until EBUSY: every user iteration whose kernel
      index is in the range is handed out exactly once, and no other, in ranges of 1 to sgrain. */
  method Drain(q: LocalWorkqueue, first: int, last: int, size: int, length: int, count: int, sgrain: int) returns (out: seq<Range>)
    requires Regular(size, length, count) && 0 <= first && last <= count && sgrain >= 1
    requires EdgesFit(first, last, sgrain, size)
    modifies q
    ensures q.IsEmpty()
    ensures forall k :: 0 <= k < |out| ==> 1 <= out[k].hi - out[k].lo <= sgrain
    ensures Drained(out, first, last, size, length, count)
    ensures forall j, k :: 0 <= j < k < |out| ==> Disjoint(out[j], out[k])
  {
    q.Set(first, last);
    out := [];
    var ok := true;
    while ok
      invariant first <= q.beg && (first < last ==> q.beg <= last) && (first >= last ==> q.beg == first) && q.end == last
      invariant !ok ==> q.IsEmpty()
      invariant forall k :: 0 <= k < |out| ==> 1 <= out[k].hi - out[k].lo <= sgrain
      invariant Drained(out, first, q.beg, size, length, count)
      decreases ok, q.end - q.beg
    {
      ghost var before := q.beg;
      var r;
      ok, r := q.Pop(Cyclic(size, length), count, sgrain);
      if ok {
        DrainStep(out, r, first, before, q.beg, size, length, count);
        out := out + [r];
      }
    }
    AtMostOnceMeansDisjoint(out);
  }
}
