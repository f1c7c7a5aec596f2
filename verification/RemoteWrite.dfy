/** Remote writes of one- and two-dimensional views through an instruction stream. */
module RemoteWrite {
  import opened Arith
  import opened InstrStream

  type Byte = int
  /** The bytes of one address space. */
  type Memory = int -> Byte

  datatype Kind = Dim1 | Dim2 | Dim3

  datatype View = View(kind: Kind, size0: nat, size1: nat, lda: nat, wordsize: nat)

  function Make1d(size: nat, wordsize: nat): View {
    View(Dim1, size, 0, 0, wordsize)
  }

  function Make2d(n: nat, m: nat, lda: nat, wordsize: nat): View {
    View(Dim2, n, m, lda, wordsize)
  }

  function ViewSize(v: View): int
    requires !v.kind.Dim3?
  {
    if v.kind.Dim1? then v.size0 * v.wordsize else v.size0 * v.size1 * v.wordsize
  }

  predicate IsContiguous(v: View) {
    v.kind.Dim1? || (v.kind.Dim2? && v.lda == v.size1)
  }

  /** The shapes that the call takes; all others are refused with EINVAL. */
  predicate Accepts(dest: View, src: View) {
    match src.kind
    case Dim1 => dest.kind.Dim1? && dest.size0 == src.size0
    case Dim2 => dest.kind.Dim2? && dest.size0 == src.size0 && src.size0 * src.size1 == dest.size0 * dest.size1
    case Dim3 => false
  }

  /** A view as rows of columns; a one-dimensional view is one row. */
  function Rows(v: View): nat {
    if v.kind.Dim1? then 1 else v.size0
  }

  function Cols(v: View): nat {
    if v.kind.Dim1? then v.size0 else v.size1
  }

  /** Distance of two rows in bytes. */
  function Stride(v: View): nat {
    v.lda * v.wordsize
  }

  function RowSize(v: View): nat {
    Cols(v) * v.wordsize
  }

  /** Both views are of the same kind, 1D or 2D, with as many rows and, if any, as many columns. */
  predicate SameShape(vd: View, vs: View) {
    && vd.kind == vs.kind && !vs.kind.Dim3?
    && Rows(vd) == Rows(vs) && (Rows(vs) > 0 ==> Cols(vd) == Cols(vs))
  }

  /** Address of byte b of element (i, j). */
  function ByteOf(base: int, v: View, i: int, j: int, b: int): int {
    base + i * Stride(v) + (j * v.wordsize + b)
  }

  ghost predicate InView(base: int, v: View, a: int) {
    exists i, j, b :: IsByteOf(base, v, i, j, b, a)
  }

  ghost predicate IsByteOf(base: int, v: View, i: int, j: int, b: int, a: int) {
    0 <= i < Rows(v) && 0 <= j < Cols(v) && 0 <= b < v.wordsize && a == ByteOf(base, v, i, j, b)
  }

  // The effect of a stream on the remote memory

  predicate Writes(x: Instruction, a: int) {
    x.op.Rwdma? && x.op.dptr <= a < x.op.dptr + x.op.size
  }

  /** The byte at remote address a after the device has executed the instructions in order. */
  function After(wire: seq<Instruction>, local: Memory, remote: Memory, a: int): Byte {
    if wire == [] then remote(a)
    else
      var last := wire[|wire| - 1];
      if Writes(last, a) then local(last.op.lptr + (a - last.op.dptr))
      else After(wire[..|wire| - 1], local, remote, a)
  }

  /** A later part of the stream works on the memory that the earlier part leaves. */
  lemma {:induction false} AfterConcat(xs: seq<Instruction>, ys: seq<Instruction>, local: Memory, remote: Memory, a: int)
    ensures After(xs + ys, local, remote, a) == After(ys, local, c => After(xs, local, remote, c), a)
  {
    if ys == [] {
      assert xs + ys == xs;
    } else {
      var n := |ys| - 1;
      assert (xs + ys)[..|xs| + n] == xs + ys[..n];
      AfterConcat(xs, ys[..n], local, remote, a);
    }
  }

  function Write(dptr: int, lptr: int, size: nat): Instruction {
    Instruction(Rwdma(dptr, lptr, size), 0, 0)
  }

  /** The address after i steps of the row loop. */
  function Advance(base: int, stride: nat, i: nat): int {
    if i == 0 then base else Advance(base, stride, i - 1) + stride
  }

  lemma {:induction false} AdvanceIs(base: int, stride: nat, i: nat)
    ensures Advance(base, stride, i) == base + i * stride
  {
    if i > 0 {
      AdvanceIs(base, stride, i - 1);
      assert i * stride == (i - 1) * stride + stride;
    }
  }

  /** One transfer a row. */
  function RowWrites(dest: int, rlda: nat, src: int, llda: nat, row: nat, n: nat): (w: seq<Instruction>)
    ensures |w| == n
  {
    if n == 0 then []
    else RowWrites(dest, rlda, src, llda, row, n - 1) + [Write(Advance(dest, rlda, n - 1), Advance(src, llda, n - 1), row)]
  }

  /** What the call inserts for views that it accepts. */
  function Transfers(dest: int, vd: View, src: int, vs: View): seq<Instruction> {
    if IsContiguous(vs) && IsContiguous(vd) then [Write(dest, src, Rows(vs) * Cols(vs) * vs.wordsize)]
    else RowWrites(dest, vd.lda * vs.wordsize, src, vs.lda * vs.wordsize, Cols(vs) * vs.wordsize, Rows(vs))
  }

  datatype Status = Success | Einval

  /** A refused call inserts nothing; an accepted one has flushed its transfers, after all that
      was inserted before, when it returns. */
  method Rdma(channel: InstructionStream?, dest: int, vd: View, src: int, vs: View) returns (status: Status)
    requires channel != null ==> channel.Valid()
    modifies channel, if channel == null then {} else {channel.start, channel.tosendStart}
    ensures status == Success <==> SameShape(vd, vs) && channel != null
    ensures channel != null ==> channel.Valid()
    ensures status == Success ==> channel.wire == old(channel.history) + Transfers(dest, vd, src, vs)
    ensures status == Success ==> channel.Pending() == []
    ensures status == Einval && channel != null ==> channel.wire == old(channel.wire) && channel.history == old(channel.history)
  {
    AcceptsExactly(vd, vs);
    match vs.kind {
      case Dim1 =>
        if !vd.kind.Dim1? || vd.size0 != vs.size0 || channel == null {
          return Einval;
        }
        channel.Put(Write(dest, src, vs.size0 * vs.wordsize));
        channel.Sync();
        return Success;
      case Dim2 =>
        var size := vs.size0 * vs.size1;
        if !vd.kind.Dim2? || vd.size0 != vs.size0 || size != vd.size0 * vd.size1 || channel == null {
          return Einval;
        }
        if IsContiguous(vs) && IsContiguous(vd) {
          channel.Put(Write(dest, src, size * vs.wordsize));
        } else {
          PutRows(channel, dest, vd.lda * vs.wordsize, src, vs.lda * vs.wordsize, vs.size1 * vs.wordsize, vs.size0);
        }
        channel.Sync();
        return Success;
      case Dim3 =>
        return Einval;
    }
  }

  /** The row loop. */
  method PutRows(channel: InstructionStream, dest: int, rlda: nat, src: int, llda: nat, row: nat, n: nat)
    requires channel.Valid()
    modifies channel, channel.start, channel.tosendStart
    ensures channel.Valid() && channel.history == old(channel.history) + RowWrites(dest, rlda, src, llda, row, n)
    ensures {channel.start, channel.tosendStart} == old({channel.start, channel.tosendStart})
  {
    var i, laddr, raddr := 0, src, dest;
    ghost var before, buffers := channel.history, {channel.start, channel.tosendStart};
    while i < n
      invariant 0 <= i <= n && laddr == Advance(src, llda, i) && raddr == Advance(dest, rlda, i)
      invariant channel.Valid() && {channel.start, channel.tosendStart} == buffers
      invariant channel.history == before + RowWrites(dest, rlda, src, llda, row, i)
    {
      RowsGrow(before, dest, rlda, src, llda, row, i);
      channel.Put(Write(raddr, laddr, row));
      i := i + 1;
      laddr := laddr + llda;
      raddr := raddr + rlda;
    }
  }

  lemma RowsGrow(history: seq<Instruction>, dest: int, rlda: nat, src: int, llda: nat, row: nat, i: nat)
    ensures history + RowWrites(dest, rlda, src, llda, row, i + 1)
         == history + RowWrites(dest, rlda, src, llda, row, i) + [Write(Advance(dest, rlda, i), Advance(src, llda, i), row)]
  {
  }

  // What the row loop does to the remote memory

  predicate InRow(a: int, dest: int, rlda: nat, row: nat, i: int) {
    dest + i * rlda <= a < dest + i * rlda + row
  }

  lemma {:induction false} RowsMiss(dest: int, rlda: nat, src: int, llda: nat, row: nat, n: nat, local: Memory, remote: Memory, a: int)
    requires forall i :: 0 <= i < n ==> !InRow(a, dest, rlda, row, i)
    ensures After(RowWrites(dest, rlda, src, llda, row, n), local, remote, a) == remote(a)
  {
    if n > 0 {
      assert !InRow(a, dest, rlda, row, n - 1);
      RowsMiss(dest, rlda, src, llda, row, n - 1, local, remote, a);
      LastRow(dest, rlda, src, llda, row, n);
    }
  }

  lemma LastRow(dest: int, rlda: nat, src: int, llda: nat, row: nat, n: nat)
    requires n > 0
    ensures var w := RowWrites(dest, rlda, src, llda, row, n);
            w[n - 1] == Write(dest + (n - 1) * rlda, src + (n - 1) * llda, row) && w[..n - 1] == RowWrites(dest, rlda, src, llda, row, n - 1)
  {
    AdvanceIs(dest, rlda, n - 1);
    AdvanceIs(src, llda, n - 1);
  }

  lemma BelowLastRow(i: int, n: nat, rlda: nat)
    requires 0 <= i < n - 1
    ensures i * rlda + rlda <= (n - 1) * rlda
  {
    MulMono(i + 1, n - 1, rlda);
    assert (i + 1) * rlda == i * rlda + rlda;
  }

  /** Rows that do not overlap keep what was written in them. */
  lemma {:induction false} RowsApart(dest: int, rlda: nat, src: int, llda: nat, row: nat, n: nat, local: Memory, remote: Memory, i: int, c: int)
    requires 0 <= i < n && 0 <= c < row && (rlda >= row || n == 1)
    ensures After(RowWrites(dest, rlda, src, llda, row, n), local, remote, dest + i * rlda + c) == local(src + i * llda + c)
  {
    LastRow(dest, rlda, src, llda, row, n);
    if i < n - 1 {
      BelowLastRow(i, n, rlda);
      RowsApart(dest, rlda, src, llda, row, n - 1, local, remote, i, c);
    }
  }

  /** With equal strides every row moves bytes by the same distance, whether rows overlap or not. */
  lemma {:induction false} RowsAlike(dest: int, stride: nat, src: int, row: nat, n: nat, local: Memory, remote: Memory, a: int, i: int)
    requires 0 <= i < n && InRow(a, dest, stride, row, i)
    ensures After(RowWrites(dest, stride, src, stride, row, n), local, remote, a) == local(src + (a - dest))
  {
    LastRow(dest, stride, src, stride, row, n);
    if !InRow(a, dest, stride, row, n - 1) {
      RowsAlike(dest, stride, src, row, n - 1, local, remote, a, i);
    }
  }

  /** Consecutive rows leave no gap. */
  lemma RowsCover(a: int, dest: int, row: nat, n: nat)
    requires !(dest <= a < dest + n * row)
    ensures forall i :: 0 <= i < n ==> !InRow(a, dest, row, row, i)
  {
    forall i | 0 <= i < n ensures !InRow(a, dest, row, row, i) {
      MulMono(i + 1, n, row);
      MulMono(0, i, row);
    }
  }

  /** The single transfer of two contiguous views does what the row loop would do. */
  lemma ContiguousSameAsRows(dest: int, src: int, row: nat, n: nat, local: Memory, remote: Memory, a: int)
    ensures After([Write(dest, src, n * row)], local, remote, a)
         == After(RowWrites(dest, row, src, row, row, n), local, remote, a)
  {
    var size := n * row;
    assert [Write(dest, src, size)][..0] == [];
    if dest <= a < dest + size {
      var i := RowIndex(a - dest, row, n);
      RowsAlike(dest, row, src, row, n, local, remote, a, i);
    } else {
      RowsCover(a, dest, row, n);
      RowsMiss(dest, row, src, row, row, n, local, remote, a);
    }
  }

  lemma RowIndex(x: int, row: nat, n: nat) returns (i: int)
    requires 0 <= x < n * row
    ensures 0 <= i < n && i * row <= x < i * row + row
  {
    DivBound(x, row);
    i := x / row;
    if i >= n {
      MulMono(n, i, row);
    }
  }

  // Views: elements instead of rows

  /** The checks of the call amount to comparing the shapes; lda and word size play no part. */
  lemma AcceptsExactly(vd: View, vs: View)
    ensures Accepts(vd, vs) <==> SameShape(vd, vs)
  {
    if vs.kind.Dim2? && vs.size0 > 0 {
      if vs.size1 < vd.size1 {
        MulMono(vs.size1 + 1, vd.size1, vs.size0);
      } else if vd.size1 < vs.size1 {
        MulMono(vd.size1 + 1, vs.size1, vs.size0);
      }
    }
  }

  /** One transfer for two contiguous views, and otherwise one a row. */
  lemma TransferCount(dest: int, vd: View, src: int, vs: View)
    requires SameShape(vd, vs)
    ensures |Transfers(dest, vd, src, vs)| ==
      if vs.kind.Dim1? || (vs.lda == vs.size1 && vd.lda == vd.size1) then 1 else vs.size0
  {
  }

  /** The transfers of any accepted call have the effect of the row loop. */
  lemma TransfersAreRows(dest: int, vd: View, src: int, vs: View, local: Memory, remote: Memory, a: int)
    requires Accepts(vd, vs) && vd.wordsize == vs.wordsize
    ensures After(Transfers(dest, vd, src, vs), local, remote, a)
         == After(RowWrites(dest, Stride(vd), src, Stride(vs), RowSize(vs), Rows(vs)), local, remote, a)
  {
    if IsContiguous(vs) && IsContiguous(vd) {
      AcceptsExactly(vd, vs);
      var row := RowSize(vs);
      assert Rows(vs) * Cols(vs) * vs.wordsize == Rows(vs) * row;
      if vs.kind.Dim1? {
        LastRow(dest, Stride(vd), src, Stride(vs), row, 1);
        assert RowWrites(dest, Stride(vd), src, Stride(vs), row, 1) == [Write(dest, src, row)];
      } else if Rows(vs) > 0 {
        ContiguousSameAsRows(dest, src, row, Rows(vs), local, remote, a);
      } else {
        assert Transfers(dest, vd, src, vs)[..0] == [];
      }
    }
  }

  /** Bytes carried by the remote writes of a stream. */
  function Payload(wire: seq<Instruction>): nat {
    if wire == [] then 0
    else
      var op := wire[|wire| - 1].op;
      Payload(wire[..|wire| - 1]) + (if op.Rwdma? then op.size else 0)
  }

  lemma {:induction false} RowsPayload(dest: int, rlda: nat, src: int, llda: nat, row: nat, n: nat)
    ensures Payload(RowWrites(dest, rlda, src, llda, row, n)) == n * row
  {
    if n > 0 {
      LastRow(dest, rlda, src, llda, row, n);
      RowsPayload(dest, rlda, src, llda, row, n - 1);
      assert n * row == (n - 1) * row + row;
    }
  }

  /** Every accepted call sends as many bytes as the source view has, whichever way it cuts them. */
  lemma SendsWholeView(dest: int, vd: View, src: int, vs: View)
    requires Accepts(vd, vs)
    ensures Payload(Transfers(dest, vd, src, vs)) == ViewSize(vs)
  {
    if IsContiguous(vs) && IsContiguous(vd) {
      assert Transfers(dest, vd, src, vs)[..0] == [];
    } else {
      RowsPayload(dest, vd.lda * vs.wordsize, src, vs.lda * vs.wordsize, Cols(vs) * vs.wordsize, Rows(vs));
      assert Rows(vs) * (Cols(vs) * vs.wordsize) == Rows(vs) * Cols(vs) * vs.wordsize;
    }
  }

  lemma ElementInRow(v: View, j: int, b: int)
    requires 0 <= j < Cols(v) && 0 <= b < v.wordsize
    ensures 0 <= j * v.wordsize + b < RowSize(v)
  {
    MulMono(j + 1, Cols(v), v.wordsize);
    MulMono(0, j, v.wordsize);
  }

  /** Every element of the destination view holds the bytes of the same source element. */
  ghost predicate Delivered(dest: int, vd: View, src: int, vs: View, local: Memory, remote: Memory) {
    forall i, j, b :: 0 <= i < Rows(vd) && 0 <= j < Cols(vd) && 0 <= b < vs.wordsize ==>
      After(Transfers(dest, vd, src, vs), local, remote, ByteOf(dest, vd, i, j, b)) == local(ByteOf(src, vs, i, j, b))
  }

  /** No byte outside the destination view changes. */
  ghost predicate ElsewhereKept(dest: int, vd: View, src: int, vs: View, local: Memory, remote: Memory) {
    forall a :: !InView(dest, vd, a) ==> After(Transfers(dest, vd, src, vs), local, remote, a) == remote(a)
  }

  /** The rows of the destination do not overlap, or overlap exactly as those of the source do. */
  predicate RowsFit(vd: View, vs: View) {
    Rows(vs) <= 1 || Cols(vs) == 0 || vs.wordsize == 0 || vd.lda >= Cols(vs) || vd.lda == vs.lda
  }

  /** The row loop delivers byte c of row i. */
  lemma FitRow(dest: int, rlda: nat, src: int, llda: nat, row: nat, n: nat, local: Memory, remote: Memory, i: int, c: int, a: int, from: int)
    requires 0 <= i < n && 0 <= c < row && (n == 1 || rlda >= row || rlda == llda)
    requires a == dest + i * rlda + c && from == src + i * llda + c
    ensures After(RowWrites(dest, rlda, src, llda, row, n), local, remote, a) == local(from)
  {
    if rlda == llda {
      RowsAlike(dest, rlda, src, row, n, local, remote, a, i);
    } else {
      RowsApart(dest, rlda, src, llda, row, n, local, remote, i, c);
    }
  }

  lemma FitStrides(vd: View, vs: View)
    requires RowsFit(vd, vs) && Rows(vs) > 0 && Cols(vs) > 0 && vs.wordsize > 0 && vd.wordsize == vs.wordsize
    ensures Rows(vs) == 1 || Stride(vd) >= RowSize(vs) || Stride(vd) == Stride(vs)
  {
    if vd.lda >= Cols(vs) {
      MulMono(Cols(vs), vd.lda, vs.wordsize);
    }
  }

  lemma FitByte(dest: int, vd: View, src: int, vs: View, local: Memory, remote: Memory, i: int, j: int, b: int)
    requires Accepts(vd, vs) && vd.wordsize == vs.wordsize && RowsFit(vd, vs)
    requires 0 <= i < Rows(vd) && 0 <= j < Cols(vd) && 0 <= b < vs.wordsize
    ensures After(Transfers(dest, vd, src, vs), local, remote, ByteOf(dest, vd, i, j, b)) == local(ByteOf(src, vs, i, j, b))
  {
    AcceptsExactly(vd, vs);
    FitStrides(vd, vs);
    var a, from, c := ByteOf(dest, vd, i, j, b), ByteOf(src, vs, i, j, b), j * vs.wordsize + b;
    ElementInRow(vs, j, b);
    TransfersAreRows(dest, vd, src, vs, local, remote, a);
    FitRow(dest, Stride(vd), src, Stride(vs), RowSize(vs), Rows(vs), local, remote, i, c, a, from);
  }

  lemma FitDelivers(dest: int, vd: View, src: int, vs: View, local: Memory, remote: Memory)
    requires Accepts(vd, vs) && vd.wordsize == vs.wordsize && RowsFit(vd, vs)
    ensures Delivered(dest, vd, src, vs, local, remote)
  {
    forall i, j, b | 0 <= i < Rows(vd) && 0 <= j < Cols(vd) && 0 <= b < vs.wordsize
      ensures After(Transfers(dest, vd, src, vs), local, remote, ByteOf(dest, vd, i, j, b)) == local(ByteOf(src, vs, i, j, b))
    {
      FitByte(dest, vd, src, vs, local, remote, i, j, b);
    }
  }

  /** Otherwise element (0, lda) and element (1, 0) of the destination are one place, fed from two. */
  lemma MisfitLoses(dest: int, vd: View, src: int, vs: View, remote: Memory) returns (local: Memory)
    requires Accepts(vd, vs) && vd.wordsize == vs.wordsize && !RowsFit(vd, vs)
    ensures !Delivered(dest, vd, src, vs, local, remote)
  {
    AcceptsExactly(vd, vs);
    var first, second := ByteOf(src, vs, 0, vd.lda, 0), ByteOf(src, vs, 1, 0, 0);
    local := x => if x == second then 1 else 0;
    assert ByteOf(dest, vd, 0, vd.lda, 0) == ByteOf(dest, vd, 1, 0, 0);
    if vd.lda < vs.lda {
      MulMono(vd.lda + 1, vs.lda, vs.wordsize);
    } else {
      MulMono(vs.lda + 1, vd.lda, vs.wordsize);
    }
    assert first != second;
  }

  /** A byte of a row is a byte of an element. */
  lemma RowInView(dest: int, v: View, i: int, a: int)
    requires 0 <= i < Rows(v) && InRow(a, dest, Stride(v), RowSize(v), i)
    ensures InView(dest, v, a)
  {
    var x := a - dest - i * Stride(v);
    var j := RowIndex(x, v.wordsize, Cols(v));
    assert IsByteOf(dest, v, i, j, x - j * v.wordsize, a);
  }

  lemma OutsideIsKept(dest: int, vd: View, src: int, vs: View, local: Memory, remote: Memory)
    requires Accepts(vd, vs) && vd.wordsize == vs.wordsize
    ensures ElsewhereKept(dest, vd, src, vs, local, remote)
  {
    AcceptsExactly(vd, vs);
    forall a | !InView(dest, vd, a)
      ensures After(Transfers(dest, vd, src, vs), local, remote, a) == remote(a)
    {
      TransfersAreRows(dest, vd, src, vs, local, remote, a);
      forall i | 0 <= i < Rows(vs) ensures !InRow(a, dest, Stride(vd), RowSize(vs), i) {
        if InRow(a, dest, Stride(vd), RowSize(vs), i) {
          RowInView(dest, vd, i, a);
        }
      }
      RowsMiss(dest, Stride(vd), src, Stride(vs), RowSize(vs), Rows(vs), local, remote, a);
    }
  }

  // Views of other word sizes: both strides are computed with that of the source

  /** The destination as the call sees it. */
  function AsWritten(vd: View, vs: View): View {
    vd.(wordsize := vs.wordsize)
  }

  /** Every byte the call sees as part of the destination is written. */
  lemma {:induction false} RowsWrite(dest: int, rlda: nat, src: int, llda: nat, row: nat, n: nat, local: Memory, remote: Memory, a: int, i: int)
    requires 0 <= i < n && InRow(a, dest, rlda, row, i) && forall x :: local(x) == 1
    ensures After(RowWrites(dest, rlda, src, llda, row, n), local, remote, a) == 1
  {
    LastRow(dest, rlda, src, llda, row, n);
    if !InRow(a, dest, rlda, row, n - 1) {
      RowsWrite(dest, rlda, src, llda, row, n - 1, local, remote, a, i);
    }
  }

  lemma ViewToRow(base: int, v: View, a: int) returns (i: int)
    requires InView(base, v, a)
    ensures 0 <= i < Rows(v) && InRow(a, base, Stride(v), RowSize(v), i)
  {
    var k, j, b :| IsByteOf(base, v, k, j, b, a);
    ElementInRow(v, j, b);
    i := k;
  }

  /** The bytes that can change are exactly those of the destination as the call sees it. */
  lemma ChangesExactly(dest: int, vd: View, src: int, vs: View)
    requires Accepts(vd, vs)
    ensures (forall local: Memory, remote: Memory :: ElsewhereKept(dest, vd, src, vs, local, remote))
       <==> forall a :: InView(dest, AsWritten(vd, vs), a) ==> InView(dest, vd, a)
  {
    var vw := AsWritten(vd, vs);
    assert Transfers(dest, vw, src, vs) == Transfers(dest, vd, src, vs);
    if forall a :: InView(dest, vw, a) ==> InView(dest, vd, a) {
      forall local: Memory, remote: Memory ensures ElsewhereKept(dest, vd, src, vs, local, remote) {
        OutsideIsKept(dest, vw, src, vs, local, remote);
      }
    }
    if forall local: Memory, remote: Memory :: ElsewhereKept(dest, vd, src, vs, local, remote) {
      forall a | InView(dest, vw, a) ensures InView(dest, vd, a) {
        var local: Memory, remote: Memory := _ => 1, _ => 0;
        assert ElsewhereKept(dest, vd, src, vs, local, remote);
        var i := ViewToRow(dest, vw, a);
        AcceptsExactly(vw, vs);
        TransfersAreRows(dest, vw, src, vs, local, remote, a);
        RowsWrite(dest, Stride(vw), src, Stride(vs), RowSize(vs), Rows(vs), local, remote, a, i);
      }
    }
  }

  /** n rows of m words at distance l words, in words of s bytes: inside the same rows in words
      of d bytes when d is not smaller and no row, moved to its place, sticks out of one. */
  predicate RowsInside(n: nat, m: nat, l: nat, s: nat, d: nat) {
    || n == 0 || m * s == 0
    || (s <= d && (l <= m || forall i :: 0 <= i < n ==> l * ((i * s) % d) <= m * (d - s)))
  }

  ghost predicate InRows(z: int, n: nat, stride: nat, row: nat) {
    exists i :: 0 <= i < n && InRow(z, 0, stride, row, i)
  }

  lemma WiderSpills(n: nat, m: nat, l: nat, s: nat, d: nat) returns (z: int)
    requires n >= 1 && m >= 1 && s > d
    ensures InRows(z, n, l * s, m * s) && !InRows(z, n, l * d, m * d)
  {
    z := (n - 1) * (l * s) + m * s - 1;
    MulMono(d + 1, s, m);
    assert (d + 1) * m == d * m + m;
    MulMono(d, s, l);
    assert d * l == l * d && s * l == l * s && d * m == m * d && s * m == m * s;
    MulMonoRight(n - 1, l * d, l * s);
    assert InRow(z, 0, l * s, m * s, n - 1);
    forall i | 0 <= i < n ensures !InRow(z, 0, l * d, m * d, i) {
      MulMono(i, n - 1, l * d);
    }
  }

  lemma MulMonoRight(c: int, a: int, b: int)
    requires a <= b && c >= 0
    ensures c * a <= c * b
  {
  }

  /** Rows that overlap or touch: both views are one block, and the smaller words give the shorter. */
  lemma BlockInside(n: nat, m: nat, l: nat, s: nat, d: nat, z: int, i: int) returns (k: int)
    requires 0 <= i < n && 1 <= s <= d && l <= m && InRow(z, 0, l * s, m * s, i)
    ensures 0 <= k < n && InRow(z, 0, l * d, m * d, k)
  {
    MulMonoRight(m, s, d);
    MulMonoRight(l, s, d);
    MulMono(l, m, d);
    MulMonoRight(i, l * s, l * d);
    MulMono(0, i, l * s) by { MulMono(0, l, s); }
    if z < (n - 1) * (l * d) + l * d {
      assert (n - 1) * (l * d) + l * d == n * (l * d);
      if l == 0 {
        k := 0;
      } else {
        MulMono(1, l, d);
        k := RowIndex(z, l * d, n);
      }
    } else {
      k := n - 1;
      MulMono(i, n - 1, l * d);
      MulMono(0, l, d);
    }
  }

  /** Where row i of the written view falls among the rows of the destination. */
  lemma RowShift(i: int, l: nat, s: nat, d: nat) returns (k: int, e: int)
    requires i >= 0 && 1 <= s <= d
    ensures e == (i * s) % d && 0 <= e < d && 0 <= k <= i && i * (l * s) == k * (l * d) + l * e
  {
    MulMono(0, i, s);
    DivBound(i * s, d);
    k, e := (i * s) / d, (i * s) % d;
    MulMonoRight(i, s, d);
    if k > i {
      MulMono(i + 1, k, d);
    }
    assert i * (l * s) == l * (i * s);
    assert l * (k * d + e) == l * (k * d) + l * e;
    assert l * (k * d) == k * (l * d);
  }

  lemma GapInside(n: nat, m: nat, l: nat, s: nat, d: nat, z: int, i: int) returns (k: int)
    requires 0 <= i < n && 1 <= s <= d && l * ((i * s) % d) <= m * (d - s) && InRow(z, 0, l * s, m * s, i)
    ensures 0 <= k < n && InRow(z, 0, l * d, m * d, k)
  {
    var e;
    k, e := RowShift(i, l, s, d);
    MulMono(0, l, e);
    assert m * (d - s) == m * d - m * s;
  }

  lemma GapMissed(n: nat, stride: nat, row: nat, k: int, off: int, z: int)
    requires 0 <= k && row <= off < stride && z == k * stride + off
    ensures !InRows(z, n, stride, row)
  {
    forall j | 0 <= j < n ensures !InRow(z, 0, stride, row, j) {
      if j <= k {
        MulMono(j, k, stride);
      } else {
        MulMono(k + 1, j, stride);
        assert (k + 1) * stride == k * stride + stride;
      }
    }
  }

  /** Row i is written from k * stride + start on, and reaches past row k. */
  lemma GapByte(n: nat, pitch: nat, written: nat, stride: nat, row: nat, i: int, k: int, start: int) returns (z: int)
    requires 0 <= i < n && 0 <= k && 0 <= start < stride && row < stride && written >= 1
    requires i * pitch == k * stride + start && start + written > row
    ensures InRows(z, n, pitch, written) && !InRows(z, n, stride, row)
  {
    var off := if start >= row then start else row;
    z := k * stride + off;
    GapMissed(n, stride, row, k, off, z);
    assert InRow(z, 0, pitch, written, i);
  }

  lemma GapNumbers(m: nat, l: nat, s: nat, d: nat, e: int)
    requires 1 <= s <= d && l > m >= 1 && 0 <= e < d && l * e > m * (d - s)
    ensures l * e + m * s > m * d && m * s >= 1 && 0 <= l * e < l * d && m * d < l * d
  {
    assert m * (d - s) == m * d - m * s;
    MulMono(1, m, s);
    MulMonoRight(l, e + 1, d);
    assert l * (e + 1) == l * e + l;
    MulMono(m + 1, l, d);
    assert (m + 1) * d == m * d + d;
    MulMonoRight(l, 0, e);
  }

  lemma GapSpills(n: nat, m: nat, l: nat, s: nat, d: nat, i: int) returns (z: int)
    requires 0 <= i < n && 1 <= s <= d && l > m >= 1 && l * ((i * s) % d) > m * (d - s)
    ensures InRows(z, n, l * s, m * s) && !InRows(z, n, l * d, m * d)
  {
    var k, e := RowShift(i, l, s, d);
    GapNumbers(m, l, s, d, e);
    z := GapByte(n, l * s, m * s, l * d, m * d, i, k, l * e);
  }

  lemma RowsInsideExactly(n: nat, m: nat, l: nat, s: nat, d: nat)
    ensures RowsInside(n, m, l, s, d) <==> forall z :: InRows(z, n, l * s, m * s) ==> InRows(z, n, l * d, m * d)
  {
    if RowsInside(n, m, l, s, d) {
      forall z | m * s != 0 && InRows(z, n, l * s, m * s) ensures InRows(z, n, l * d, m * d) {
        var i :| 0 <= i < n && InRow(z, 0, l * s, m * s, i);
        var k;
        if l <= m {
          k := BlockInside(n, m, l, s, d, z, i);
        } else {
          k := GapInside(n, m, l, s, d, z, i);
        }
      }
    } else if s > d {
      assert m != 0 && s != 0;
      var z := WiderSpills(n, m, l, s, d);
    } else {
      var i :| 0 <= i < n && l * ((i * s) % d) > m * (d - s);
      var z := GapSpills(n, m, l, s, d, i);
    }
  }

  /** What a caller can check: the destination has room for words of the source's size. */
  predicate KeepsInside(vd: View, vs: View) {
    RowsInside(Rows(vs), Cols(vs), vd.lda, vs.wordsize, vd.wordsize)
  }

  lemma ViewIsRows(base: int, v: View, a: int)
    ensures InView(base, v, a) <==> InRows(a - base, Rows(v), Stride(v), RowSize(v))
  {
    if InView(base, v, a) {
      var i := ViewToRow(base, v, a);
      assert InRow(a - base, 0, Stride(v), RowSize(v), i);
    }
    if InRows(a - base, Rows(v), Stride(v), RowSize(v)) {
      var i :| 0 <= i < Rows(v) && InRow(a - base, 0, Stride(v), RowSize(v), i);
      RowInView(base, v, i, a);
    }
  }

  /** No byte outside the destination changes, for every content of the memories, exactly when
      the destination has room for the source's words. */
  lemma FrameExactly(dest: int, vd: View, src: int, vs: View)
    requires Accepts(vd, vs)
    ensures (forall local: Memory, remote: Memory :: ElsewhereKept(dest, vd, src, vs, local, remote)) <==> KeepsInside(vd, vs)
  {
    ChangesExactly(dest, vd, src, vs);
    AcceptsExactly(vd, vs);
    var vw := AsWritten(vd, vs);
    var n := Rows(vs);
    RowsInsideExactly(n, Cols(vs), vd.lda, vs.wordsize, vd.wordsize);
    forall a ensures InView(dest, vw, a) <==> InRows(a - dest, n, Stride(vw), RowSize(vw)) {
      ViewIsRows(dest, vw, a);
    }
    forall a ensures InView(dest, vd, a) <==> InRows(a - dest, n, Stride(vd), RowSize(vd)) {
      ViewIsRows(dest, vd, a);
    }
    if forall a :: InView(dest, vw, a) ==> InView(dest, vd, a) {
      forall z | n > 0 && InRows(z, n, vd.lda * vs.wordsize, Cols(vs) * vs.wordsize)
        ensures InRows(z, n, vd.lda * vd.wordsize, Cols(vs) * vd.wordsize)
      {
        assert InView(dest, vw, dest + z) && InView(dest, vd, dest + z);
      }
    }
  }

  /** Equal word sizes always leave room. */
  lemma EqualWordsFit(vd: View, vs: View)
    requires vd.wordsize == vs.wordsize
    ensures KeepsInside(vd, vs)
  {
    if vs.wordsize >= 1 {
      forall i | 0 <= i < Rows(vs) ensures vd.lda * ((i * vs.wordsize) % vs.wordsize) <= Cols(vs) * 0 {
        MulMono(0, i, vs.wordsize);
        DivUnique(i * vs.wordsize, vs.wordsize, i);
      }
    }
  }

  /** A remote write, whatever the word sizes. No byte outside the destination view changes,
      for every content of the memories, exactly when the view has room for the source's words;
      and every element arrives, in words of the source's size, exactly when the rows fit. */
  lemma RemoteWriteExactly(dest: int, vd: View, src: int, vs: View)
    requires Accepts(vd, vs)
    ensures KeepsInside(vd, vs) <==> forall local: Memory, remote: Memory :: ElsewhereKept(dest, vd, src, vs, local, remote)
    ensures RowsFit(vd, vs) <==> forall local: Memory, remote: Memory :: Delivered(dest, AsWritten(vd, vs), src, vs, local, remote)
    ensures vd.wordsize == vs.wordsize ==> KeepsInside(vd, vs) && AsWritten(vd, vs) == vd
  {
    FrameExactly(dest, vd, src, vs);
    if vd.wordsize == vs.wordsize {
      EqualWordsFit(vd, vs);
    }
    var vw := AsWritten(vd, vs);
    if RowsFit(vd, vs) {
      forall local: Memory, remote: Memory ensures Delivered(dest, vw, src, vs, local, remote) {
        FitDelivers(dest, vw, src, vs, local, remote);
      }
    } else {
      var local := MisfitLoses(dest, vw, src, vs, _ => 0);
    }
  }

  /** The call on a stream in use: the memory the earlier instructions leave gets the elements,
      and is otherwise unchanged. */
  lemma CallEffect(history: seq<Instruction>, dest: int, vd: View, src: int, vs: View, local: Memory, remote: Memory)
    requires Accepts(vd, vs)
    ensures RowsFit(vd, vs) ==> forall i, j, b :: 0 <= i < Rows(vd) && 0 <= j < Cols(vd) && 0 <= b < vs.wordsize ==>
      After(history + Transfers(dest, vd, src, vs), local, remote, ByteOf(dest, AsWritten(vd, vs), i, j, b)) == local(ByteOf(src, vs, i, j, b))
    ensures forall a :: !InView(dest, AsWritten(vd, vs), a) || (KeepsInside(vd, vs) && !InView(dest, vd, a)) ==>
      After(history + Transfers(dest, vd, src, vs), local, remote, a) == After(history, local, remote, a)
  {
    var vw := AsWritten(vd, vs);
    assert Transfers(dest, vw, src, vs) == Transfers(dest, vd, src, vs);
    var before: Memory := c => After(history, local, remote, c);
    if RowsFit(vd, vs) {
      forall i, j, b | 0 <= i < Rows(vd) && 0 <= j < Cols(vd) && 0 <= b < vs.wordsize
        ensures After(history + Transfers(dest, vd, src, vs), local, remote, ByteOf(dest, vw, i, j, b)) == local(ByteOf(src, vs, i, j, b))
      {
        AfterConcat(history, Transfers(dest, vd, src, vs), local, remote, ByteOf(dest, vw, i, j, b));
        FitByte(dest, vw, src, vs, local, before, i, j, b);
      }
    }
    OutsideIsKept(dest, vw, src, vs, local, before);
    FrameExactly(dest, vd, src, vs);
    assert KeepsInside(vd, vs) ==> ElsewhereKept(dest, vd, src, vs, local, before);
    forall a | !InView(dest, vw, a) || (KeepsInside(vd, vs) && !InView(dest, vd, a))
      ensures After(history + Transfers(dest, vd, src, vs), local, remote, a) == After(history, local, remote, a)
    {
      AfterConcat(history, Transfers(dest, vd, src, vs), local, remote, a);
    }
  }

  /** Word sizes that keep inside, that spill because the source's words are wider, and that
      spill although they are narrower, because the second row lands between two rows. */
  lemma WordSizesMatter()
    ensures Accepts(Make1d(3, 4), Make1d(3, 2)) && KeepsInside(Make1d(3, 4), Make1d(3, 2))
    ensures Accepts(Make2d(2, 1, 2, 1), Make2d(2, 1, 1, 2)) && !KeepsInside(Make2d(2, 1, 2, 1), Make2d(2, 1, 1, 2))
    ensures Accepts(Make2d(2, 1, 2, 2), Make2d(2, 1, 1, 1)) && !KeepsInside(Make2d(2, 1, 2, 2), Make2d(2, 1, 1, 1))
  {
    assert 2 * ((1 * 1) % 2) > 1 * (2 - 1);
  }

  /** Two accepted 2D views of unequal row length: the debug assertion of the row loop fails. */
  lemma NoRowsAnyColumns()
    ensures var vd, vs := Make2d(0, 1, 2, 1), Make2d(0, 2, 2, 1);
      Accepts(vd, vs) && !(IsContiguous(vs) && IsContiguous(vd)) && vd.size1 != vs.size1
  {
  }
}
