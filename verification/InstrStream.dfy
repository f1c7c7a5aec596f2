/** The double-buffered stream of network instructions, used by one producer. */
module InstrStream {

  datatype Op =
    | Void
    | Nop
    | Rwdma(dptr: int, lptr: int, size: nat)
    | Am(handler: int, lptr: int, size: nat)
    | Wb

  /** An operation and its completion callback, 0 when there is none. */
  datatype Instruction = Instruction(op: Op, cbk: int, arg: int)

  datatype BufferState = Free | Posted

  /** What a producer may call. */
  datatype Call = Insert(instr: Instruction) | Sync

  // ----- the stream as a value, between two calls -----

  /** The buffer written to, the spare one with the positions it was left with, and what flush
      has handed to the device. */
  datatype Stream = Stream(
    buf: seq<Instruction>, posW: int, posR: int, spare: seq<Instruction>, spareR: int, wire: seq<Instruction>)

  /** Entries lo .. hi of a buffer. Entries outside the buffer stand for whatever memory holds. */
  function Window(buf: seq<Instruction>, lo: int, hi: int): (w: seq<Instruction>)
    ensures |w| == if lo < hi then hi - lo else 0
    ensures 0 <= lo <= hi <= |buf| ==> w == buf[lo..hi]
  {
    if 0 <= lo <= hi <= |buf| then buf[lo..hi]
    else seq(if lo < hi then hi - lo else 0, k => Instruction(Void, 0, 0))
  }

  predicate Usable(s: Stream) {
    1 <= |s.buf| == |s.spare| && 0 <= s.posW <= |s.buf|
  }

  function Initial(capacity: int, leftover: int): Stream
    requires capacity >= 1
  {
    var blank := seq(capacity, k => Instruction(Nop, 0, 0));
    Stream(blank, 0, 0, blank, leftover, [])
  }

  /** Everything not yet flushed goes to the device, and the buffers change roles. */
  function Flushed(s: Stream, posW: int, posR: int): Stream {
    Stream(s.spare, posW, posR, s.buf, 0, s.wire + Window(s.buf, s.posR, s.posW))
  }

  function Switched(s: Stream): Stream {
    if s.posW == |s.buf| then Flushed(s, 0, s.spareR) else s
  }

  function AfterCall(s: Stream, call: Call): (s': Stream)
    requires Usable(s)
    ensures Usable(s')
  {
    match call
    case Insert(x) =>
      var w := Switched(s);
      w.(buf := w.buf[w.posW := x], posW := w.posW + 1)
    case Sync => Flushed(s, s.posW, s.posW)
  }

  function AfterCalls(s: Stream, calls: seq<Call>): (s': Stream)
    requires Usable(s)
    ensures Usable(s')
  {
    if calls == [] then s else AfterCall(AfterCalls(s, calls[..|calls| - 1]), calls[|calls| - 1])
  }

  /** The instructions inserted by a sequence of calls. */
  function Inserted(calls: seq<Call>): (ins: seq<Instruction>)
    ensures (forall k :: 0 <= k < |calls| ==> calls[k].Insert?) ==> |ins| == |calls|
  {
    if calls == [] then []
    else
      var before := Inserted(calls[..|calls| - 1]);
      match calls[|calls| - 1]
      case Insert(x) => before + [x]
      case Sync => before
  }

  /** What reached the device, followed by what is pending. */
  function Through(s: Stream): seq<Instruction> {
    s.wire + Window(s.buf, s.posR, s.posW)
  }

  /** Nothing is lost, duplicated or reordered, and the next switch cannot lose anything. */
  predicate Orderly(s: Stream, history: seq<Instruction>) {
    Usable(s) && 0 <= s.posR <= s.posW && s.spareR == 0 && Through(s) == history
  }

  lemma InsertKeepsOrder(s: Stream, history: seq<Instruction>, x: Instruction)
    requires Usable(s) && 0 <= s.posR <= s.posW && Through(s) == history
    requires s.posW == |s.buf| ==> s.spareR == 0
    ensures var s' := AfterCall(s, Insert(x));
      0 <= s'.posR <= s'.posW && Through(s') == history + [x] && s'.spareR == (if s.posW == |s.buf| then 0 else s.spareR)
  {
    var w := Switched(s);
    var s' := AfterCall(s, Insert(x));
    assert s'.buf[s'.posR..s'.posW] == w.buf[w.posR..w.posW] + [x];
  }

  lemma SyncRestoresOrder(s: Stream, history: seq<Instruction>)
    requires Usable(s) && Through(s) == history
    ensures Orderly(AfterCall(s, Sync), history) && AfterCall(s, Sync).wire == history
  {
  }

  /** One producer: every call keeps the stream in order. */
  lemma CallKeepsOrder(s: Stream, history: seq<Instruction>, call: Call)
    requires Orderly(s, history)
    ensures Orderly(AfterCall(s, call), if call.Insert? then history + [call.instr] else history)
  {
    match call
    case Insert(x) => InsertKeepsOrder(s, history, x);
    case Sync => SyncRestoresOrder(s, history);
  }

  lemma {:induction false} CallsKeepOrder(s: Stream, history: seq<Instruction>, calls: seq<Call>)
    requires Orderly(s, history)
    ensures Orderly(AfterCalls(s, calls), history + Inserted(calls))
  {
    if calls == [] {
      assert history + [] == history;
    } else {
      var before, call := calls[..|calls| - 1], calls[|calls| - 1];
      CallsKeepOrder(s, history, before);
      CallKeepsOrder(AfterCalls(s, before), history + Inserted(before), call);
      if call.Insert? {
        assert history + Inserted(calls) == history + Inserted(before) + [call.instr];
      }
    }
  }

  /** What was inserted before a sync has reached the device, first and in order, ever after. */
  lemma {:induction false} SyncedIsFlushed(s: Stream, history: seq<Instruction>, calls: seq<Call>, k: nat)
    requires Orderly(s, history) && k < |calls| && calls[k].Sync?
    ensures history + Inserted(calls[..k]) <= AfterCalls(s, calls).wire
  {
    var before := calls[..|calls| - 1];
    if k == |before| {
      CallsKeepOrder(s, history, before);
      SyncRestoresOrder(AfterCalls(s, before), history + Inserted(before));
    } else {
      assert before[..k] == calls[..k];
      SyncedIsFlushed(s, history, before, k);
      assert AfterCalls(s, before).wire <= AfterCalls(s, calls).wire;
    }
  }

  // ----- the read position that initialize leaves unset -----

  /** Inserts made before the first sync. */
  function Leading(calls: seq<Call>): (n: nat)
    ensures n <= |calls| && (forall k :: 0 <= k < n ==> calls[k].Insert?) && (n < |calls| ==> calls[n].Sync?)
  {
    if calls == [] || calls[0].Sync? then 0
    else
      var n := Leading(calls[1..]);
      assert forall k :: 1 <= k < |calls| ==> calls[k] == calls[1..][k - 1];
      n + 1
  }

  /** After every prefix of the calls, flushed and pending together are what was inserted. */
  ghost predicate InOrder(leftover: int, capacity: int, calls: seq<Call>)
    requires capacity >= 1
  {
    forall k :: 0 <= k <= |calls| ==> Through(AfterCalls(Initial(capacity, leftover), calls[..k])) == Inserted(calls[..k])
  }

  /** In order so far: before the first exchange of buffers, or with the position repaired. */
  ghost predicate Fine(s: Stream, leftover: int, calls: seq<Call>)
    requires Usable(s)
  {
    && 0 <= s.posR <= s.posW && Through(s) == Inserted(calls)
    && (s.spareR == 0 || (s.spareR == leftover && s.posW == |calls| && Leading(calls) == |calls|))
  }

  lemma {:induction false} FineRun(leftover: int, capacity: int, calls: seq<Call>)
    requires capacity >= 1 && (leftover == 0 || Leading(calls) <= capacity)
    ensures Fine(AfterCalls(Initial(capacity, leftover), calls), leftover, calls)
    ensures |AfterCalls(Initial(capacity, leftover), calls).buf| == capacity
  {
    if calls != [] {
      var before, call := calls[..|calls| - 1], calls[|calls| - 1];
      LeadingPrefix(calls);
      FineRun(leftover, capacity, before);
      var s := AfterCalls(Initial(capacity, leftover), before);
      match call {
        case Insert(x) => InsertKeepsOrder(s, Inserted(before), x);
        case Sync => SyncRestoresOrder(s, Inserted(before));
      }
    }
  }

  lemma LeadingPrefix(calls: seq<Call>)
    requires calls != []
    ensures var before := calls[..|calls| - 1];
      && Leading(before) <= Leading(calls)
      && (Leading(before) == |before| && calls[|calls| - 1].Insert? ==> Leading(calls) == |calls|)
  {
    var before := calls[..|calls| - 1];
    assert forall k :: 0 <= k < |before| ==> before[k] == calls[k];
  }

  /** Only inserts, and not more than fit: the first buffer is filled from its start. */
  lemma FirstFill(leftover: int, capacity: int, calls: seq<Call>)
    requires capacity >= 1 && |calls| <= capacity && forall k :: 0 <= k < |calls| ==> calls[k].Insert?
    ensures var s := AfterCalls(Initial(capacity, leftover), calls);
      |s.buf| == capacity && s.posW == |calls| && s.posR == 0 && s.spareR == leftover && s.wire == []
  {
    if calls != [] {
      FirstFill(leftover, capacity, calls[..|calls| - 1]);
    }
  }

  /** The insert after a full first buffer: pending starts at the position never set. */
  lemma FirstSwitch(leftover: int, capacity: int, calls: seq<Call>)
    requires capacity >= 1 && |calls| == capacity + 1 && forall k :: 0 <= k < |calls| ==> calls[k].Insert?
    ensures var s := AfterCalls(Initial(capacity, leftover), calls);
      s.posW == 1 && s.posR == leftover && s.spareR == 0 && s.wire == Inserted(calls)[..capacity]
  {
    var before := calls[..capacity];
    FirstFill(leftover, capacity, before);
    assert Leading(before) == capacity;
    FineRun(leftover, capacity, before);
  }

  /** The stream is in order for a sequence of calls exactly when the position left unset
      happens to be 0, or the first sync comes before the first buffer overflows. */
  lemma FifoExactly(leftover: int, capacity: int, calls: seq<Call>)
    requires capacity >= 1
    ensures InOrder(leftover, capacity, calls) <==> leftover == 0 || Leading(calls) <= capacity
  {
    if leftover == 0 || Leading(calls) <= capacity {
      forall k | 0 <= k <= |calls|
        ensures Through(AfterCalls(Initial(capacity, leftover), calls[..k])) == Inserted(calls[..k])
      {
        LeadingOfPrefix(calls, k);
        FineRun(leftover, capacity, calls[..k]);
      }
    } else {
      FirstSwitch(leftover, capacity, calls[..capacity + 1]);
    }
  }

  lemma {:induction false} LeadingOfPrefix(calls: seq<Call>, k: nat)
    requires k <= |calls|
    ensures Leading(calls[..k]) <= Leading(calls)
  {
    assert forall i :: 0 <= i < k ==> calls[..k][i] == calls[i];
  }

  /** A run that loses an instruction, for every capacity: one insert too many, then a sync. */
  lemma LastIsLost(capacity: int, calls: seq<Call>)
    requires capacity >= 1 && |calls| == capacity + 1 && forall k :: 0 <= k < |calls| ==> calls[k].Insert?
    ensures AfterCalls(Initial(capacity, 1), calls + [Sync]).wire == Inserted(calls)[..capacity]
  {
    FirstSwitch(1, capacity, calls);
    assert (calls + [Sync])[..|calls|] == calls;
  }

  // ----- the stream as an object -----

  class InstructionStream {
    var start: array<Instruction>
    var capacity: int
    var posW: int
    var posR: int
    var tosendState: BufferState
    var tosendStart: array<Instruction>
    var tosendPosW: int
    var tosendPosR: int
    /** What flush has handed to the device, in order. */
    var wire: seq<Instruction>
    /** What the producer has inserted, in order. */
    ghost var history: seq<Instruction>

    /** Between two calls. The read positions are not constrained. */
    ghost predicate Layout()
      reads this
    {
      && start != tosendStart
      && 1 <= capacity == start.Length == tosendStart.Length
      && 0 <= posW <= capacity
      && tosendState == Free && tosendPosW == 0
    }

    ghost function Value(): (s: Stream)
      requires Layout()
      reads this, start, tosendStart
      ensures Usable(s)
    {
      Stream(start[..], posW, posR, tosendStart[..], tosendPosR, wire)
    }

    ghost predicate Valid()
      reads this, start, tosendStart
    {
      Layout() && Orderly(Value(), history)
    }

    /** Inserted and not yet flushed. */
    ghost function Pending(): seq<Instruction>
      requires Valid()
      reads this, start, tosendStart
    {
      start[posR..posW]
    }

    /** leftover is the value that the uninitialised read position of the second buffer has. */
    constructor (size: int, leftover: int)
      requires 1 <= size <= 0x7fff_ffff
      ensures Layout() && Value() == Initial(size, leftover) && history == []
      ensures leftover == 0 ==> Valid()
      ensures fresh(start) && fresh(tosendStart)
    {
      start := new Instruction[size](_ => Instruction(Nop, 0, 0));
      capacity := size;
      posW := 0;
      posR := 0;
      tosendState := Free;
      tosendStart := new Instruction[size](_ => Instruction(Nop, 0, 0));
      tosendPosW := 0;
      tosendPosR := leftover;
      wire := [];
      history := [];
      new;
      assert start[..] == Initial(size, leftover).buf && tosendStart[..] == Initial(size, leftover).spare;
    }

    predicate IsFull()
      reads this
    {
      posW == capacity
    }

    /** The two buffers change roles. */
    method Swap()
      modifies this
      ensures start == old(tosendStart) && tosendStart == old(start)
      ensures posR == old(tosendPosR) && tosendPosR == old(posR)
      ensures posW == old(tosendPosW) && tosendPosW == old(posW)
      ensures capacity == old(capacity) && tosendState == old(tosendState)
      ensures wire == old(wire) && history == old(history)
    {
      start, tosendStart := tosendStart, start;
      posR, tosendPosR := tosendPosR, posR;
      var tmp := tosendPosW;
      tosendPosW := posW;
      posW := tmp;
    }

    /** The device takes the posted part of the second buffer, which then is free again. */
    method FlushPosted()
      requires tosendState == Posted
      modifies this
      ensures wire == old(wire) + Window(old(tosendStart[..]), old(tosendPosR), old(tosendPosW))
      ensures tosendPosR == 0 && tosendPosW == 0 && tosendState == Free
      ensures start == old(start) && tosendStart == old(tosendStart) && capacity == old(capacity)
      ensures posR == old(posR) && posW == old(posW) && history == old(history)
    {
      wire := wire + Window(tosendStart[..], tosendPosR, tosendPosW);
      tosendPosR := 0;
      tosendPosW := 0;
      tosendState := Free;
    }

    /** Only a full buffer is switched; the producer then writes at 0.
        A single producer never finds the second buffer posted, so it never waits. */
    method SwitchBuffer()
      requires Layout()
      modifies this
      ensures Layout() && !IsFull() && Value() == Switched(old(Value())) && history == old(history)
      ensures old(Valid()) ==> Valid() && (old(IsFull()) ==> Pending() == [] && wire == history)
      ensures {start, tosendStart} == old({start, tosendStart}) && capacity == old(capacity)
    {
      if !IsFull() {
        return;
      }
      assert tosendState == Free;
      tosendState := Posted;
      Swap();
      FlushPosted();
    }

    /** Appends to the history; the slot taken is always inside the buffer. */
    method Put(x: Instruction)
      requires Layout()
      modifies this, start, tosendStart
      ensures Layout() && Value() == AfterCall(old(Value()), Insert(x)) && history == old(history) + [x]
      ensures old(Valid()) ==> Valid() && wire == if old(IsFull()) then old(history) else old(wire)
      ensures {start, tosendStart} == old({start, tosendStart}) && capacity == old(capacity)
    {
      ghost var s, h, ordered := Value(), history, Valid();
      if IsFull() {
        SwitchBuffer();
      }
      posW := posW + 1;
      var slot := posW - 1;
      assert slot < start.Length;
      start[slot] := x;
      history := history + [x];
      assert Value() == AfterCall(s, Insert(x));
      if ordered {
        CallKeepsOrder(s, h, Insert(x));
      }
    }

    /** Everything inserted so far has reached the device when Sync returns, and from then on
        the stream is in order whatever the unset position was, if it was before. The write
        position is kept although the buffer is another one. */
    method Sync()
      requires Layout()
      modifies this
      ensures Layout() && Value() == AfterCall(old(Value()), Call.Sync) && history == old(history)
      ensures old(Through(Value()) == history) ==> Valid() && Pending() == [] && wire == history
      ensures posW == old(posW) && capacity == old(capacity)
      ensures {start, tosendStart} == old({start, tosendStart})
    {
      ghost var s := Value();
      assert tosendState == Free;
      var w := posW;
      tosendState := Posted;
      tosendPosW := w;
      Swap();
      posR := w;
      FlushPosted();
      if Through(s) == history {
        SyncRestoresOrder(s, history);
      }
    }
  }

  method Do(s: InstructionStream, call: Call)
    requires s.Layout()
    modifies s, s.start, s.tosendStart
    ensures s.Layout() && s.Value() == AfterCall(old(s.Value()), call)
    ensures s.history == old(s.history) + (if call.Insert? then [call.instr] else [])
    ensures {s.start, s.tosendStart} == old({s.start, s.tosendStart})
  {
    match call {
      case Insert(x) => s.Put(x);
      case Sync => s.Sync();
    }
  }

  /** Any sequence of calls, from any state: the object does what AfterCalls says, and stays in
      order if it was. */
  method Produce(s: InstructionStream, calls: seq<Call>)
    requires s.Layout()
    modifies s, s.start, s.tosendStart
    ensures s.Layout() && s.Value() == AfterCalls(old(s.Value()), calls)
    ensures s.history == old(s.history) + Inserted(calls)
    ensures {s.start, s.tosendStart} == old({s.start, s.tosendStart})
    ensures old(s.Valid()) ==> s.Valid()
  {
    if calls == [] {
      return;
    }
    Produce(s, calls[..|calls| - 1]);
    Do(s, calls[|calls| - 1]);
    CallsOrder(old(s.Value()), old(s.history), calls);
  }

  lemma CallsOrder(s: Stream, history: seq<Instruction>, calls: seq<Call>)
    requires Usable(s)
    ensures Orderly(s, history) ==> Orderly(AfterCalls(s, calls), history + Inserted(calls))
  {
    if Orderly(s, history) {
      CallsKeepOrder(s, history, calls);
    }
  }
}
