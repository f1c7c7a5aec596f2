/** The block-cyclic map from the loop's internal (kernel) iterations to the user's, and when it
    is a bijection. */
module BlockCyclic {
  import opened Arith

  /** Conversion of a long to int: the low 32 bits, read as signed. */
  function ToInt32(x: int): int {
    var low := x % 0x1_0000_0000;
    if low < 0x8000_0000 then low else low - 0x1_0000_0000
  }

  function Kernel2User(index: int, size: int, length: int, count: int): int
    requires index >= 0 && size >= 1 && length >= 1 && count / length >= 1
  {
    var idThread := ToInt32((index / (count / length)) * size);
    var local := ToInt32((index - (index / (count / length)) * (count / length)) / size * length * size);
    var offset := ToInt32(index % size);
    ToInt32(idThread + local + offset)
  }

  /** The sum the code means, without the width of its ints. */
  function MapSum(index: int, size: int, length: int, count: int): int
    requires index >= 0 && size >= 1 && length >= 1 && count / length >= 1
  {
    (index / (count / length)) * size
    + (index - (index / (count / length)) * (count / length)) / size * length * size
    + index % size
  }

  /** Block size B over L threads, Q blocks each: the distribution covers N = (Q * L) * B. */
  ghost predicate Covers(size: int, length: int, blocks: int, count: int) {
    size >= 1 && length >= 1 && blocks >= 1 && count == blocks * length * size && count <= 0x7fff_ffff
  }

  /** User block q * L + t is kernel block t * Q + q. */
  function Gather(user: int, size: int, length: int, blocks: int): int
    requires size >= 1 && length >= 1
  {
    var w := user / size;
    ((w % length) * blocks + w / length) * size + user % size
  }

  lemma SmallIsInt32(x: int)
    requires 0 <= x <= 0x7fff_ffff
    ensures ToInt32(x) == x
  {
  }

  /** A sum that fits an int is what the code computes: none of its terms is negative. */
  lemma NoWrap(x: int, size: int, length: int, count: int)
    requires x >= 0 && size >= 1 && length >= 1 && count / length >= 1 && MapSum(x, size, length, count) <= 0x7fff_ffff
    ensures Kernel2User(x, size, length, count) == MapSum(x, size, length, count) >= 0
  {
    var m := count / length;
    DivBound(x, m);
    var t, y := x / m, x - (x / m) * m;
    DivBound(y, size);
    var a, b, c := t * size, y / size * length * size, x % size;
    assert a >= 0 by { MulMono(0, t, size); }
    assert b >= 0 by { MulMono(0, y / size, length); MulMono(0, y / size * length, size); }
    SmallIsInt32(a);
    SmallIsInt32(b);
    SmallIsInt32(c);
    SmallIsInt32(a + b + c);
  }

  /** A number below a * b splits into a quotient below a and a remainder below b. */
  lemma SplitBelow(x: int, a: int, b: int)
    requires 0 <= x < a * b && b >= 1
    ensures 0 <= x / b < a && 0 <= x % b < b && x == (x / b) * b + x % b
  {
    DivBound(x, b);
    if x / b >= a {
      MulMono(a, x / b, b);
    }
  }

  lemma Join(q: int, r: int, a: int, b: int)
    requires 0 <= q < a && 0 <= r < b
    ensures 0 <= q * b + r < a * b && (q * b + r) / b == q && (q * b + r) % b == r
  {
    MulMono(q + 1, a, b);
    MulMono(0, q, b);
    DivUnique(q * b + r, b, q);
  }

  /** Kernel index x is element r of the q-th block of thread t. */
  lemma KernelParts(x: int, size: int, length: int, blocks: int, count: int) returns (t: int, q: int, r: int)
    requires Covers(size, length, blocks, count) && 0 <= x < count
    ensures 0 <= t < length && 0 <= q < blocks && 0 <= r < size
    ensures x == (t * blocks + q) * size + r
    ensures x / size == t * blocks + q && x % size == r
  {
    assert count == (length * blocks) * size;
    SplitBelow(x, length * blocks, size);
    var v := x / size;
    SplitBelow(v, length, blocks);
    t, q, r := v / blocks, v % blocks, x % size;
  }

  lemma PerThread(size: int, length: int, blocks: int, count: int)
    requires Covers(size, length, blocks, count)
    ensures count / length == blocks * size && blocks * size >= 1
  {
    assert count == (blocks * size) * length;
    MulMono(1, blocks, size);
    MulMono(0, blocks * size, length);
    DivUnique(count, length, blocks * size);
  }

  /** The code's three terms, for element r of block q of thread t. */
  lemma KernelTerms(x: int, size: int, length: int, blocks: int, count: int, t: int, q: int, r: int)
    requires Covers(size, length, blocks, count) && 0 <= x < count
    requires 0 <= t < length && 0 <= q < blocks && 0 <= r < size && x == (t * blocks + q) * size + r
    ensures var m := count / length; m >= 1 && x / m == t && (x - (x / m) * m) / size == q && x % size == r
  {
    PerThread(size, length, blocks, count);
    var m, y := blocks * size, q * size + r;
    Join(q, r, blocks, size);
    ShareSum(x, t, q, r, blocks, size, m, y);
    QuotientOf(x, t, m, y);
    BlockRest(x, t * blocks + q, r, size);
  }

  lemma ShareSum(x: int, t: int, q: int, r: int, blocks: int, size: int, m: int, y: int)
    requires x == (t * blocks + q) * size + r && m == blocks * size && y == q * size + r
    ensures x == t * m + y
  {
    assert (t * blocks + q) * size == t * m + q * size;
  }

  lemma QuotientOf(x: int, t: int, m: int, y: int)
    requires 0 <= y < m && x == t * m + y && x >= 0
    ensures x / m == t && x - (x / m) * m == y
  {
    DivUnique(x, m, t);
  }

  lemma BlockRest(x: int, v: int, r: int, size: int)
    requires x >= 0 && 0 <= r < size && x == v * size + r
    ensures x % size == r
  {
    DivUnique(x, size, v);
  }

  lemma UserBounds(size: int, length: int, blocks: int, t: int, q: int, r: int)
    requires size >= 1 && 0 <= t < length && 0 <= q < blocks && 0 <= r < size
    ensures 0 <= q * length + t < blocks * length
    ensures 0 <= (q * length + t) * size + r < blocks * length * size
    ensures q * length * size + t * size + r == (q * length + t) * size + r
    ensures 0 <= q * length * size && 0 <= t * size
  {
    Join(q, t, blocks, length);
    Join(q * length + t, r, blocks * length, size);
    MulMono(0, q, length);
    MulMono(0, q * length, size);
    MulMono(0, t, size);
  }

  /** What the code computes: block q of thread t becomes user block q * L + t. */
  lemma Kernel2UserIs(x: int, size: int, length: int, blocks: int, count: int, t: int, q: int, r: int)
    requires Covers(size, length, blocks, count) && 0 <= x < count
    requires 0 <= t < length && 0 <= q < blocks && 0 <= r < size && x == (t * blocks + q) * size + r
    ensures count / length >= 1
    ensures Kernel2User(x, size, length, count) == (q * length + t) * size + r
    ensures 0 <= Kernel2User(x, size, length, count) < count
  {
    KernelTerms(x, size, length, blocks, count, t, q, r);
    UserBounds(size, length, blocks, t, q, r);
    assert MapSum(x, size, length, count) == (q * length + t) * size + r;
    NoWrap(x, size, length, count);
  }

  /** The map is a bijection of [0, N) when B * L divides N: Gather undoes it. */
  lemma GatherUndoes(x: int, size: int, length: int, blocks: int, count: int)
    requires Covers(size, length, blocks, count) && 0 <= x < count
    ensures count / length >= 1
    ensures var u := Kernel2User(x, size, length, count); 0 <= u < count && Gather(u, size, length, blocks) == x
  {
    var t, q, r := KernelParts(x, size, length, blocks, count);
    Kernel2UserIs(x, size, length, blocks, count, t, q, r);
    Join(q, t, blocks, length);
    Join(q * length + t, r, blocks * length, size);
  }

  lemma GatherIsUndone(u: int, size: int, length: int, blocks: int, count: int)
    requires Covers(size, length, blocks, count) && 0 <= u < count
    ensures count / length >= 1
    ensures var x := Gather(u, size, length, blocks); 0 <= x < count && Kernel2User(x, size, length, count) == u
  {
    SplitBelow(u, blocks * length, size);
    var w := u / size;
    SplitBelow(w, blocks, length);
    var t, q, r := w % length, w / length, u % size;
    Join(t, q, length, blocks);
    Join(t * blocks + q, r, length * blocks, size);
    assert length * blocks * size == blocks * length * size;
    Kernel2UserIs(Gather(u, size, length, blocks), size, length, blocks, count, t, q, r);
  }

  /** Inside one block consecutive kernel indices are consecutive user indices. */
  lemma CyclicSameBlock(x: int, d: int, size: int, length: int, blocks: int, count: int)
    requires Covers(size, length, blocks, count) && 0 <= x && 0 <= d && x + d < count && x % size + d < size
    ensures count / length >= 1
    ensures Kernel2User(x + d, size, length, count) == Kernel2User(x, size, length, count) + d
  {
    var t, q, r := KernelParts(x, size, length, blocks, count);
    Kernel2UserIs(x, size, length, blocks, count, t, q, r);
    Kernel2UserIs(x + d, size, length, blocks, count, t, q, r + d);
  }

  // ----- when the map is a bijection -----

  /** What the source asks for, and a number of iterations that an int can hold. */
  predicate Sized(size: int, length: int, count: int) {
    size >= 1 && length >= 1 && length <= count <= 0x7fff_ffff
  }

  lemma SizedDivides(size: int, length: int, count: int)
    requires Sized(size, length, count)
    ensures count / length >= 1
  {
    DivBound(count, length);
    if count / length <= 0 {
      MulMono(count / length, 0, length);
    }
  }

  predicate Even(size: int, length: int, count: int)
    requires size >= 1 && length >= 1
  {
    length * size != 0 && count % (length * size) == 0
  }

  /** One thread, or one block and less than a block a thread more: nothing moves. */
  predicate Straight(size: int, length: int, count: int)
    requires length >= 1
  {
    length == 1 || count / length == size
  }

  predicate Regular(size: int, length: int, count: int) {
    Sized(size, length, count) && (Even(size, length, count) || Straight(size, length, count))
  }

  /** The inverse of the map where it has one. */
  function User2Kernel(user: int, size: int, length: int, count: int): int
    requires Sized(size, length, count)
  {
    if Straight(size, length, count) then user else Gather(user, size, length, count / (length * size))
  }

  lemma EvenCovers(size: int, length: int, count: int)
    requires Sized(size, length, count) && Even(size, length, count)
    ensures Covers(size, length, count / (length * size), count)
  {
    MulMono(1, length, size);
    DivBound(count, length * size);
    var blocks := count / (length * size);
    assert count == blocks * (length * size);
    assert blocks * (length * size) == blocks * length * size;
    if blocks <= 0 {
      MulMono(blocks, 0, length * size);
    }
  }

  lemma StraightIs(x: int, size: int, length: int, count: int)
    requires Sized(size, length, count) && Straight(size, length, count) && 0 <= x < count
    ensures count / length >= 1 && Kernel2User(x, size, length, count) == x
  {
    SizedDivides(size, length, count);
    var m := count / length;
    DivBound(x, size);
    if length == 1 {
      DivUnique(x, m, 0);
    } else {
      var y := x - (x / m) * m;
      DivUnique(y, size, 0);
      assert 0 * length * size == 0;
    }
    assert MapSum(x, size, length, count) == x;
    NoWrap(x, size, length, count);
  }

  lemma KernelRoundTrip(x: int, size: int, length: int, count: int)
    requires Regular(size, length, count) && 0 <= x < count
    ensures count / length >= 1
    ensures var u := Kernel2User(x, size, length, count); 0 <= u < count && User2Kernel(u, size, length, count) == x
  {
    if Straight(size, length, count) {
      StraightIs(x, size, length, count);
    } else {
      EvenCovers(size, length, count);
      GatherUndoes(x, size, length, count / (length * size), count);
    }
  }

  lemma UserRoundTrip(u: int, size: int, length: int, count: int)
    requires Regular(size, length, count) && 0 <= u < count
    ensures count / length >= 1
    ensures var x := User2Kernel(u, size, length, count); 0 <= x < count && Kernel2User(x, size, length, count) == u
  {
    if Straight(size, length, count) {
      StraightIs(u, size, length, count);
    } else {
      EvenCovers(size, length, count);
      GatherIsUndone(u, size, length, count / (length * size), count);
    }
  }

  lemma SameBlock(x: int, d: int, size: int, length: int, count: int)
    requires Regular(size, length, count) && 0 <= x && 0 <= d && x + d < count && x % size + d < size
    ensures count / length >= 1
    ensures Kernel2User(x + d, size, length, count) == Kernel2User(x, size, length, count) + d
  {
    if Straight(size, length, count) {
      StraightIs(x, size, length, count);
      StraightIs(x + d, size, length, count);
    } else {
      EvenCovers(size, length, count);
      CyclicSameBlock(x, d, size, length, count / (length * size), count);
    }
  }

  ghost predicate Reached(u: int, size: int, length: int, count: int)
    requires size >= 1 && length >= 1 && count / length >= 1
  {
    exists x :: 0 <= x < count && Kernel2User(x, size, length, count) == u
  }

  ghost predicate Bijective(size: int, length: int, count: int)
    requires size >= 1 && length >= 1 && count / length >= 1
  {
    && (forall x :: 0 <= x < count ==> 0 <= Kernel2User(x, size, length, count) < count)
    && (forall x, y :: 0 <= x < y < count ==> Kernel2User(x, size, length, count) != Kernel2User(y, size, length, count))
    && (forall u :: 0 <= u < count ==> Reached(u, size, length, count))
  }

  lemma RegularIsBijective(size: int, length: int, count: int)
    requires Regular(size, length, count)
    ensures count / length >= 1 && Bijective(size, length, count)
  {
    SizedDivides(size, length, count);
    forall x | 0 <= x < count
      ensures var u := Kernel2User(x, size, length, count); 0 <= u < count && User2Kernel(u, size, length, count) == x
    {
      KernelRoundTrip(x, size, length, count);
    }
    forall x, y | 0 <= x < y < count
      ensures Kernel2User(x, size, length, count) != Kernel2User(y, size, length, count)
    {
      KernelRoundTrip(x, size, length, count);
      KernelRoundTrip(y, size, length, count);
    }
    forall u | 0 <= u < count ensures Reached(u, size, length, count) {
      UserRoundTrip(u, size, length, count);
    }
  }

  /** For no iteration is the sum too large for an int. */
  ghost predicate FitsInt(size: int, length: int, count: int)
    requires size >= 1 && length >= 1 && count / length >= 1
  {
    forall x :: 0 <= x < count ==> MapSum(x, size, length, count) <= 0x7fff_ffff
  }

  /** The code's sum for element y of thread t's share, m = N / L, whether B * L divides N or not. */
  lemma ShareIs(size: int, length: int, count: int, t: int, y: int)
    requires Sized(size, length, count) && count / length >= 1 && FitsInt(size, length, count)
    requires var m := count / length; 0 <= t && 0 <= y < m && t * m + y < count
    ensures var x := t * (count / length) + y;
      x >= 0 && Kernel2User(x, size, length, count) == (t + (y / size) * length) * size + x % size
  {
    var m := count / length;
    var x, g := t * m + y, y / size;
    MulMono(0, t, m);
    DivUnique(x, m, t);
    Distribute(t, g * length, size);
    assert MapSum(x, size, length, count) == t * size + g * length * size + x % size;
    NoWrap(x, size, length, count);
  }

  lemma Distribute(a: int, b: int, c: int)
    ensures (a + b) * c == a * c + b * c
  {
  }

  /** Every index is an element of some share. */
  lemma ShareOf(x: int, m: int) returns (t: int, y: int)
    requires x >= 0 && m >= 1
    ensures 0 <= t && 0 <= y < m && x == t * m + y
  {
    DivBound(x, m);
    t, y := x / m, x % m;
  }

  lemma TwoShares(length: int, count: int, m: int)
    requires length >= 2 && count >= length && m == count / length && m >= 1
    ensures 2 * m <= length * m <= count < length * m + length
  {
    DivBound(count, length);
    MulMono(2, length, m);
    assert m * length == length * m;
  }

  /** Shares shorter than a block: user index m is never reached. */
  lemma ShortShares(size: int, length: int, count: int)
    requires Sized(size, length, count) && count / length >= 1 && FitsInt(size, length, count)
    requires length >= 2 && count / length < size
    ensures !Reached(count / length, size, length, count) && count / length < count
  {
    var m := count / length;
    TwoShares(length, count, m);
    forall x | 0 <= x < count ensures Kernel2User(x, size, length, count) != m {
      var t, y := ShareOf(x, m);
      ShareIs(size, length, count, t, y);
      ShortNever(size, length, m, t, y, x);
    }
  }

  lemma ShortNever(size: int, length: int, m: int, t: int, y: int, x: int)
    requires 1 <= m < size && 0 <= t && 0 <= y < m && x == t * m + y && x >= 0
    ensures (t + (y / size) * length) * size + x % size != m
  {
    DivUnique(y, size, 0);
    DivBound(x, size);
    assert 0 * length == 0;
    if t >= 1 {
      MulMono(1, t, size);
    } else {
      DivUnique(x, size, 0);
    }
  }

  lemma SecondBlockIs(size: int, length: int, count: int)
    requires Sized(size, length, count) && count / length >= 1 && FitsInt(size, length, count)
    requires size < count / length && size < count
    ensures Kernel2User(size, size, length, count) == length * size
  {
    ShareIs(size, length, count, 0, size);
    DivUnique(size, size, 1);
  }

  lemma LeftoverIs(size: int, length: int, count: int, q: int)
    requires Sized(size, length, count) && count / length >= 1 && FitsInt(size, length, count)
    requires count / length == q * size && 0 <= length * (count / length) < count
    ensures Kernel2User(length * (count / length), size, length, count) == length * size
  {
    var m := count / length;
    ShareIs(size, length, count, length, 0);
    DivUnique(0, size, 0);
    WholeBlocks(length, q, size);
  }

  lemma WholeBlocks(length: int, q: int, size: int)
    requires size >= 1 && length * (q * size) >= 0
    ensures (length * (q * size)) % size == 0
  {
    assert length * (q * size) == (length * q) * size;
    DivUnique(length * (q * size), size, length * q);
  }

  /** Shares of whole blocks and iterations left over: the first of them collides. */
  lemma LeftoverCollides(size: int, length: int, count: int)
    requires Sized(size, length, count) && count / length >= 1 && FitsInt(size, length, count)
    requires length >= 2 && count / length > size && (count / length) % size == 0 && count != length * (count / length)
    ensures var m := count / length;
      0 < size < length * m < count && Kernel2User(size, size, length, count) == Kernel2User(length * m, size, length, count)
  {
    var m := count / length;
    TwoShares(length, count, m);
    DivBound(m, size);
    SecondBlockIs(size, length, count);
    LeftoverIs(size, length, count, m / size);
  }

  /** Shares of q blocks and a part c of one: something escapes, or a user index is missed. */
  lemma PartBlocks(size: int, length: int, count: int, q: int, c: int)
    requires Sized(size, length, count) && count / length >= 1 && FitsInt(size, length, count)
    requires length >= 2 && q >= 1 && 0 < c < size && count / length == q * size + c
    ensures !Bijective(size, length, count)
  {
    var m := count / length;
    TwoShares(length, count, m);
    MulMono(1, q, size);
    var escape := length * m + q * size;
    if escape < count {
      LastPartEscapes(size, length, count, q, c);
      assert Kernel2User(escape, size, length, count) >= count;
    } else if (1 + q * length) * size + c >= count {
      SecondPart(size, length, count, q, c);
      assert Kernel2User(m + q * size, size, length, count) >= count;
    } else {
      PartMissed(size, length, count, q, c);
      MulMono(0, q, length);
      MulMono(0, 1 + q * length, size);
      assert !Reached((1 + q * length) * size + c - 1, size, length, count);
    }
  }

  lemma LastPartEscapes(size: int, length: int, count: int, q: int, c: int)
    requires Sized(size, length, count) && count / length >= 1 && FitsInt(size, length, count)
    requires length >= 2 && q >= 1 && 0 < c < size && count / length == q * size + c
    requires length * (count / length) + q * size < count
    ensures Kernel2User(length * (count / length) + q * size, size, length, count) >= count
  {
    var m := count / length;
    TwoShares(length, count, m);
    MulMono(1, q, size);
    PastTheEnd(size, length, count, q, c, m);
    ShareIs(size, length, count, length, q * size);
    DivUnique(q * size, size, q);
  }

  lemma PastTheEnd(size: int, length: int, count: int, q: int, c: int, m: int)
    requires length >= 2 && 0 < c < size && m == q * size + c && count < length * m + length
    ensures count <= (length + q * length) * size
  {
    MulMono(c + 1, size, length);
    assert length * m == length * (q * size) + length * c;
    assert (c + 1) * length == length * c + length;
    assert (length + q * length) * size == length * size + length * (q * size);
  }

  /** The first element of the part that ends the second share. */
  lemma SecondPart(size: int, length: int, count: int, q: int, c: int)
    requires Sized(size, length, count) && count / length >= 1 && FitsInt(size, length, count)
    requires length >= 2 && q >= 1 && 0 < c < size && count / length == q * size + c
    ensures var m := count / length;
      0 <= m + q * size < count && Kernel2User(m + q * size, size, length, count) == (1 + q * length) * size + c
  {
    var m := count / length;
    TwoShares(length, count, m);
    MulMono(1, q, size);
    ShareIs(size, length, count, 1, q * size);
    DivUnique(q * size, size, q);
    Distribute(q, q, size);
    DivUnique(m + q * size, size, q + q);
  }

  lemma PartMissed(size: int, length: int, count: int, q: int, c: int)
    requires Sized(size, length, count) && count / length >= 1 && FitsInt(size, length, count)
    requires length >= 2 && q >= 1 && 0 < c < size && count / length == q * size + c
    requires length * (count / length) + q * size >= count
    ensures !Reached((1 + q * length) * size + c - 1, size, length, count)
  {
    var m, u := count / length, (1 + q * length) * size + c - 1;
    forall x | 0 <= x < count ensures Kernel2User(x, size, length, count) != u {
      var t, y := ShareOf(x, m);
      ShareIs(size, length, count, t, y);
      PartNever(size, length, m, q, c, t, y, x);
    }
  }

  lemma PartNever(size: int, length: int, m: int, q: int, c: int, t: int, y: int, x: int)
    requires length >= 2 && q >= 1 && 0 < c < size && m == q * size + c
    requires 0 <= t && 0 <= y < m && x == t * m + y && 0 <= x < length * m + q * size
    ensures (t + (y / size) * length) * size + x % size != (1 + q * length) * size + c - 1
  {
    var g := y / size;
    PartBlock(g, q, y, m, size, c);
    ShareRange(length, m, t, y, x, q, size);
    if (t + g * length) * size + x % size == (1 + q * length) * size + c - 1 {
      assert t + g * length >= 0 by { MulMono(0, g, length); }
      assert 0 <= x % size < size by { DivBound(x, size); }
      Join2(t + g * length, x % size, 1 + q * length, c - 1, size);
      OnlySecondShare(t, g, q, length);
      PartOffset(x, m, y, q, size, c);
    }
  }

  /** Quotient and remainder are unique. */
  lemma Join2(a: int, r: int, b: int, z: int, size: int)
    requires 0 <= r < size && 0 <= z < size && a * size + r == b * size + z && a >= 0
    ensures a == b && r == z
  {
    MulMono(0, a, size);
    DivUnique(a * size + r, size, a);
    if b < a {
      MulMono(b + 1, a, size);
    } else if b > a {
      MulMono(a + 1, b, size);
    }
  }

  lemma ShareRange(length: int, m: int, t: int, y: int, x: int, q: int, size: int)
    requires m >= 1 && x == t * m + y && y >= 0 && x < length * m + q * size && q * size < m && length >= 0
    ensures t <= length
  {
    if t > length {
      MulMono(length + 1, t, m);
    }
  }

  lemma PartBlock(g: int, q: int, y: int, m: int, size: int, c: int)
    requires 0 <= y < m == q * size + c && 0 < c < size && g == y / size
    ensures 0 <= g <= q
  {
    DivBound(y, size);
    if g > q {
      MulMono(q + 1, g, size);
    }
  }

  lemma OnlySecondShare(t: int, g: int, q: int, length: int)
    requires length >= 2 && 0 <= t <= length && 0 <= g <= q && t + g * length == 1 + q * length
    ensures t == 1 && g == q
  {
    if g < q {
      MulMono(g + 1, q, length);
    }
  }

  lemma PartOffset(x: int, m: int, y: int, q: int, size: int, c: int)
    requires 0 < c < size && q >= 1 && x == m + y && m == q * size + c && 0 <= y < m && y / size == q
    ensures x % size != c - 1
  {
    DivBound(y, size);
    var z := y - q * size;
    Distribute(q, q, size);
    MulMono(1, q, size);
    if c + z < size {
      DivUnique(x, size, q + q);
    } else {
      Distribute(q + q, 1, size);
      DivUnique(x, size, q + q + 1);
    }
  }

  lemma WholeIsEven(size: int, length: int, count: int, m: int, q: int)
    requires size >= 1 && length >= 1 && q >= 0 && count == length * m && m == q * size
    ensures Even(size, length, count)
  {
    MulMono(1, length, size);
    assert length * (q * size) == q * (length * size);
    MulMono(0, q, length * size);
    DivUnique(count, length * size, q);
  }

  lemma IrregularIsNot(size: int, length: int, count: int)
    requires Sized(size, length, count) && count / length >= 1 && FitsInt(size, length, count)
    requires !Even(size, length, count) && !Straight(size, length, count)
    ensures !Bijective(size, length, count)
  {
    var m := count / length;
    DivBound(m, size);
    var q, c := m / size, m % size;
    if m < size {
      ShortShares(size, length, count);
    } else if c == 0 {
      if count == length * m {
        WholeIsEven(size, length, count, m, q);
      }
      LeftoverCollides(size, length, count);
    } else {
      if q <= 0 {
        MulMono(q, 0, size);
      }
      PartBlocks(size, length, count, q, c);
    }
  }

  /** The map is a bijection of [0, N) exactly when B * L divides N, or there is one thread, or
      the integer share N / L is one block. */
  lemma BijectionExactly(size: int, length: int, count: int)
    requires Sized(size, length, count) && count / length >= 1 && FitsInt(size, length, count)
    ensures Bijective(size, length, count) <==> Even(size, length, count) || Straight(size, length, count)
  {
    if Even(size, length, count) || Straight(size, length, count) {
      RegularIsBijective(size, length, count);
    } else {
      IrregularIsNot(size, length, count);
    }
  }

  /** A failing input: with B = L = 2 and N = 6, iteration 5 goes to 7, outside [0, 6). */
  lemma NotDivisibleEscapes()
    ensures Kernel2User(5, 2, 2, 6) == 7 && !Even(2, 2, 6) && !Straight(2, 2, 6)
  {
  }

  /** Terms that do not fit wrap around: blocks of 2^32 iterations give the identity. */
  lemma WrapIsIdentity(x: int, length: int, count: int)
    requires Sized(0x1_0000_0000, length, count) && count / length >= 1 && 0 <= x < count
    ensures Kernel2User(x, 0x1_0000_0000, length, count) == x
  {
    var m := count / length;
    DivBound(x, m);
    var t, y := x / m, x - (x / m) * m;
    DivBound(count, length);
    assert m <= count by { if m > count { MulMono(1, length, m); } }
    DivUnique(y, 0x1_0000_0000, 0);
    DivUnique(x, 0x1_0000_0000, 0);
    assert (t * 0x1_0000_0000) % 0x1_0000_0000 == 0;
    assert 0 * length * 0x1_0000_0000 == 0;
  }
}
