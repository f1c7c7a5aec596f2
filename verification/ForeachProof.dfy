/** Proofs about the adaptive loop: exactly-once execution, the termination counter, and
    that the loop cannot get stuck. */
module ForeachProof {
  import opened Ranges
  import opened WorkSplit
  import opened ForeachLoop

  // ----- measures -----

  function SliceSumTo(c: Config, ps: set<nat>, n: nat, p: Probe): nat {
    if n == 0 then 0 else SliceSumTo(c, ps, n - 1, p) + (if n - 1 in ps then Measure(Slice(c, n - 1), p) else 0)
  }

  /** Measure of a set of slices. */
  function SliceSum(c: Config, ps: set<nat>, p: Probe): nat {
    SliceSumTo(c, ps, |c.start|, p)
  }

  /** Work(p) weighs the iterations a thread holds and has not executed; Credit those it has
      executed and not yet subtracted from workremain. */
  datatype Weigh = Work(p: Probe) | Credit

  function PcLoad(c: Config, pc: Pc, p: Probe): nat {
    if pc.Check? then Measure(Slice(c, pc.pos), p)
    else if pc.Got? || pc.Body? then Measure(pc.r, p)
    else 0
  }

  function SplitLoad(c: Config, sp: Split, p: Probe): nat {
    if sp.Claimed? then SliceSum(c, sp.slices, p)
    else if sp.Deal? then Measure(sp.r, p)
    else 0
  }

  function Load(c: Config, x: Thread, w: Weigh): int {
    match w
    case Work(p) => Measure(x.q, p) + PcLoad(c, x.pc, p) + SplitLoad(c, x.split, p)
    case Credit => x.workdone - (if x.pc.Body? then x.pc.r.hi - x.pc.r.lo else 0)
  }

  function Sum(c: Config, ws: seq<Thread>, w: Weigh): int {
    if ws == [] then 0 else Sum(c, ws[..|ws| - 1], w) + Load(c, ws[|ws| - 1], w)
  }

  lemma {:induction false} SumUpdate(c: Config, ws: seq<Thread>, t: nat, x: Thread, w: Weigh)
    requires t < |ws|
    ensures Sum(c, ws[t := x], w) == Sum(c, ws, w) - Load(c, ws[t], w) + Load(c, x, w)
  {
    var n := |ws| - 1;
    if t == n {
      assert ws[t := x][..n] == ws[..n];
    } else {
      SumUpdate(c, ws[..n], t, x, w);
      assert ws[t := x][..n] == ws[..n][t := x];
    }
  }

  lemma {:induction false} SumNonNegative(c: Config, ws: seq<Thread>, w: Weigh)
    requires forall t :: 0 <= t < |ws| ==> Load(c, ws[t], w) >= 0
    ensures Sum(c, ws, w) >= 0
    ensures forall t :: 0 <= t < |ws| ==> Load(c, ws[t], w) <= Sum(c, ws, w)
  {
    if ws != [] {
      SumNonNegative(c, ws[..|ws| - 1], w);
    }
  }

  lemma {:induction false} SumWitness(c: Config, ws: seq<Thread>, w: Weigh) returns (t: int)
    requires Sum(c, ws, w) > 0
    ensures 0 <= t < |ws| && Load(c, ws[t], w) > 0
  {
    if Load(c, ws[|ws| - 1], w) > 0 {
      t := |ws| - 1;
    } else {
      t := SumWitness(c, ws[..|ws| - 1], w);
    }
  }

  lemma {:induction false} SumZero(c: Config, ws: seq<Thread>, w: Weigh)
    requires forall t :: 0 <= t < |ws| ==> Load(c, ws[t], w) == 0
    ensures Sum(c, ws, w) == 0
  {
    if ws != [] {
      SumZero(c, ws[..|ws| - 1], w);
    }
  }

  lemma {:induction false} SliceSumSplits(c: Config, ps: set<nat>, qs: set<nat>, n: nat, p: Probe)
    ensures SliceSumTo(c, ps, n, p) == SliceSumTo(c, ps - qs, n, p) + SliceSumTo(c, ps * qs, n, p)
  {
    if n > 0 {
      SliceSumSplits(c, ps, qs, n - 1, p);
    }
  }

  lemma {:induction false} SliceSumEmpty(c: Config, n: nat, p: Probe)
    ensures SliceSumTo(c, {}, n, p) == 0
  {
    if n > 0 {
      SliceSumEmpty(c, n - 1, p);
    }
  }

  lemma {:induction false} SliceSumOne(c: Config, pos: nat, n: nat, p: Probe)
    ensures SliceSumTo(c, {pos}, n, p) == if pos < n then Measure(Slice(c, pos), p) else 0
  {
    if n > 0 {
      SliceSumOne(c, pos, n - 1, p);
    }
  }

  /** Taking one slice out of the map moves exactly that slice. */
  lemma SliceSumRemove(c: Config, ps: set<nat>, pos: nat, p: Probe)
    requires pos in ps && pos < |c.start|
    ensures SliceSum(c, ps, p) == SliceSum(c, ps - {pos}, p) + Measure(Slice(c, pos), p)
  {
    SliceSumSplits(c, ps, {pos}, |c.start|, p);
    SliceSumOne(c, pos, |c.start|, p);
    assert ps * {pos} == {pos};
  }

  lemma {:induction false} SliceSumAll(c: Config, ps: set<nat>, n: nat, p: Probe)
    requires ValidConfig(c) && 1 <= n < |c.start|
    requires forall k: nat :: k < n ==> k in ps
    ensures SliceSumTo(c, ps, n, p) == Measure(Range(c.start[0], c.start[n]), p)
    ensures c.start[0] < c.start[n]
  {
    if n == 1 {
      assert SliceSumTo(c, ps, 0, p) == 0;
    } else {
      SliceSumAll(c, ps, n - 1, p);
      assert Measure(Range(c.start[0], c.start[n]), p)
          == Measure(Range(c.start[0], c.start[n - 1]), p) + Measure(Slice(c, n - 1), p);
    }
  }

  // ----- invariant -----

  predicate MayHoldQueue(pc: Pc) { pc.Fetch? || pc.PopLocal? || pc.Body? }

  predicate MayHoldCredit(pc: Pc) { MayHoldQueue(pc) || pc.Drained? || pc.Sub? }

  ghost predicate PcOk(c: Config, t: int, pc: Pc) {
    match pc
    case Unset(pos) => 0 <= pos < Slices(c)
    case Check(pos) => 0 <= pos < Slices(c)
    case AnyUnset(pos) => 0 <= pos < Slices(c)
    case Probe(v) => v < c.threads && v != t
    case Steal(v, n) => v < c.threads && v != t && n >= 1
    case Got(r) => r.lo < r.hi
    case Body(r) => r.lo < r.hi
    case Outside => t != 0
    case Waiting(v) => t != 0
    case Lost => false
    case _ => true
  }

  ghost predicate SplitOk(c: Config, sp: Split) {
    && (sp.Claimed? ==> sp.slices <= sp.reqs && forall k :: k in sp.slices ==> k < Slices(c))
    && (sp.Local? || sp.Claiming? ==> sp.reqs != {})
    && (sp.Cut? ==> 1 <= sp.nreq <= |sp.reqs| && sp.unit >= 1)
    && (sp.Deal? ==> 0 <= sp.nreq <= |sp.reqs| && sp.unit >= 1 && sp.r.hi - sp.r.lo == sp.nreq * sp.unit)
  }

  ghost predicate ThreadOk(c: Config, t: int, x: Thread, slices: set<nat>, rem: int) {
    && PcOk(c, t, x.pc) && SplitOk(c, x.split)
    && x.q.lo <= x.q.hi && x.workdone >= 0
    && (x.pc.Body? ==> x.workdone >= x.pc.r.hi - x.pc.r.lo)
    && (!MayHoldQueue(x.pc) ==> x.q.lo == x.q.hi)
    && (!MayHoldCredit(x.pc) ==> x.workdone == 0)
    && (InSteal(x.pc) ==> slices == {} || rem == 0)
    && (x.pc.Done? ==> rem == 0)
    && (x.mode == Final ==> rem == 0 && (x.pc.Sub? || x.pc.Done?))
    && (x.mode == Opening ==> t == 0 && (x.pc == Check(0) || (x.pc == Unset(0) && 0 in slices)))
    && (!MayHoldQueue(x.pc) && !x.pc.Drained? && !x.pc.Done? && x.mode != Final ==> !x.init)
  }

  /** Thread t's request is in the list of the splitter working on v. */
  predicate Asks(ws: seq<Thread>, v: nat, t: nat) {
    v < |ws| && t in Reqs(ws[v].split)
  }

  /** A thread waits for v's splitter exactly when that splitter lists its request. */
  ghost predicate Linked(ws: seq<Thread>) {
    && (forall v: nat, t: nat :: Asks(ws, v, t) ==> t < |ws| && t != v && ws[t].pc == Waiting(v))
    && (forall t: nat :: t < |ws| && ws[t].pc.Waiting? ==> Asks(ws, ws[t].pc.v, t))
  }

  /** Until the creating thread has opened its own queue it is alone. */
  ghost predicate Alone(ws: seq<Thread>)
    requires |ws| > 0
  {
    ws[0].mode == Opening ==>
      forall t :: 0 <= t < |ws| ==> ws[t].split.NoSplit? && (t > 0 ==> ws[t].pc.Outside?)
  }

  ghost predicate Shape(c: Config, s: State) {
    && ValidConfig(c) && |s.ws| == c.threads && Alone(s.ws)
    && (forall k :: k in s.slices ==> k < Slices(c))
    && (forall t :: 0 <= t < |s.ws| ==> ThreadOk(c, t, s.ws[t], s.slices, s.workremain))
    && Linked(s.ws)
  }

  /** Conservation: executed, held and unclaimed iterations make up the whole loop. */
  ghost predicate BalancedAt(c: Config, s: State, p: Probe)
    requires |c.start| >= 2
  {
    Total(s.executed, p) + Sum(c, s.ws, Work(p)) + SliceSum(c, s.slices, p) == Measure(Whole(c), p)
  }

  /** workremain is the total minus what was subtracted, and what was executed is what was
      subtracted plus the workers' unsubtracted credit. */
  ghost predicate Counted(c: Config, s: State)
    requires |c.start| >= 2
  {
    && s.workremain + s.subtracted == Whole(c).hi - Whole(c).lo
    && s.subtracted + Sum(c, s.ws, Credit) == Total(s.executed, Count)
  }

  ghost predicate Inv(c: Config, s: State) {
    && Shape(c, s)
    && (forall p: Probe :: BalancedAt(c, s, p))
    && Counted(c, s)
    && AllNonEmpty(s.executed)
  }

  lemma LoadsNonNegative(c: Config, s: State)
    requires Shape(c, s)
    ensures forall t, p :: 0 <= t < |s.ws| ==> Load(c, s.ws[t], Work(p)) >= 0
    ensures forall t :: 0 <= t < |s.ws| ==> Load(c, s.ws[t], Credit) >= 0
  {
  }

  lemma {:induction false} SliceSumPositive(c: Config, ps: set<nat>, k: nat, n: nat)
    requires ValidConfig(c) && k in ps && k < n && k < Slices(c)
    ensures SliceSumTo(c, ps, n, Count) > 0
  {
    if k < n - 1 {
      SliceSumPositive(c, ps, k, n - 1);
    }
  }

  lemma {:induction false} StartIncreases(c: Config, n: nat)
    requires ValidConfig(c) && 1 <= n < |c.start|
    ensures c.start[0] < c.start[n]
  {
    if n > 1 {
      StartIncreases(c, n - 1);
    }
  }

  /** The termination counter: workremain is what the workers hold, plus what is unclaimed,
      plus what was executed and not subtracted yet. */
  lemma CounterIsWorkLeft(c: Config, s: State)
    requires Shape(c, s) && Counted(c, s) && BalancedAt(c, s, Count)
    ensures s.workremain == Sum(c, s.ws, Work(Count)) + SliceSum(c, s.slices, Count) + Sum(c, s.ws, Credit)
    ensures Sum(c, s.ws, Work(Count)) >= 0 && Sum(c, s.ws, Credit) >= 0
  {
    StartIncreases(c, |c.start| - 1);
    LoadsNonNegative(c, s);
    SumNonNegative(c, s.ws, Work(Count));
    SumNonNegative(c, s.ws, Credit);
  }

  /** A counter at 0 means that nobody holds work or credit and that every slice is claimed:
      the exits taken on 0 drop nothing. */
  lemma ZeroMeansNothingHeld(c: Config, s: State)
    requires Shape(c, s) && Counted(c, s) && BalancedAt(c, s, Count)
    ensures s.workremain >= 0
    ensures s.workremain == 0 ==>
      s.slices == {} && forall t :: 0 <= t < |s.ws| ==> Load(c, s.ws[t], Work(Count)) == 0 && Load(c, s.ws[t], Credit) == 0
  {
    CounterIsWorkLeft(c, s);
    LoadsNonNegative(c, s);
    SumNonNegative(c, s.ws, Work(Count));
    SumNonNegative(c, s.ws, Credit);
    if s.workremain == 0 && s.slices != {} {
      var k :| k in s.slices;
      SliceSumPositive(c, s.slices, k, |c.start|);
    }
  }

  // ----- one step -----

  /** The written thread keeps its own invariant and its place in the request lists. */
  ghost predicate LocalGood(c: Config, s: State, t: nat, e: Effect)
    requires t < |s.ws|
  {
    && e.take <= s.slices && (s.workremain == 0 ==> e.minus == 0)
    && ThreadOk(c, t, e.x, s.slices - e.take, s.workremain - e.minus)
    && (s.ws[0].mode == Opening ==> t == 0 && e.x.split.NoSplit?)
    && (s.ws[0].mode != Opening ==> e.x.mode != Opening)
  }

  ghost predicate SameLinks(x: Thread, x': Thread) {
    Reqs(x'.split) == Reqs(x.split) && (x.pc.Waiting? || x'.pc.Waiting? ==> x'.pc == x.pc)
  }

  /** Work goes where it came from: what a thread gains it took from the map. */
  ghost predicate MovesWork(c: Config, x: Thread, e: Effect, p: Probe) {
    Load(c, e.x, Work(p)) + Total(e.emit, p) == Load(c, x, Work(p)) + SliceSum(c, e.take, p)
  }

  ghost predicate MovesCredit(c: Config, x: Thread, e: Effect) {
    Load(c, e.x, Credit) + e.minus == Load(c, x, Credit) + Total(e.emit, Count)
  }

  lemma KeepLinksOne(s: State, t: nat, x: Thread)
    requires t < |s.ws| && Linked(s.ws) && SameLinks(s.ws[t], x)
    ensures Linked(s.ws[t := x])
  {
    var ws := s.ws[t := x];
    forall v: nat, u: nat | Asks(ws, v, u) ensures u < |ws| && u != v && ws[u].pc == Waiting(v) {
      assert Asks(s.ws, v, u);
    }
    forall u: nat | u < |ws| && ws[u].pc.Waiting? ensures Asks(ws, ws[u].pc.v, u) {
      assert Asks(s.ws, s.ws[u].pc.v, u);
    }
  }

  lemma KeepShapeOne(c: Config, s: State, t: nat, e: Effect)
    requires Shape(c, s) && t < |s.ws| && LocalGood(c, s, t, e) && SameLinks(s.ws[t], e.x)
    ensures Shape(c, ApplyOne(s, t, e))
  {
    KeepLinksOne(s, t, e.x);
    var s' := ApplyOne(s, t, e);
    forall u | 0 <= u < |s'.ws| ensures ThreadOk(c, u, s'.ws[u], s'.slices, s'.workremain) {
      assert ThreadOk(c, u, s.ws[u], s.slices, s.workremain);
    }
  }

  lemma KeepOne(c: Config, s: State, t: nat, e: Effect)
    requires Inv(c, s) && t < |s.ws| && LocalGood(c, s, t, e) && SameLinks(s.ws[t], e.x)
    requires forall p: Probe :: MovesWork(c, s.ws[t], e, p)
    requires MovesCredit(c, s.ws[t], e) && AllNonEmpty(e.emit)
    ensures Inv(c, ApplyOne(s, t, e))
  {
    KeepShapeOne(c, s, t, e);
    var s' := ApplyOne(s, t, e);
    forall p: Probe ensures BalancedAt(c, s', p) {
      assert BalancedAt(c, s, p) && MovesWork(c, s.ws[t], e, p);
      SumUpdate(c, s.ws, t, e.x, Work(p));
      TotalConcat(s.executed, e.emit, p);
      SliceSumSplits(c, s.slices, e.take, |c.start|, p);
      assert s.slices * e.take == e.take;
    }
    SumUpdate(c, s.ws, t, e.x, Credit);
    TotalConcat(s.executed, e.emit, Count);
  }

  /** Requests change hands consistently: not at all, or thread u joins or leaves t's list. */
  ghost predicate PairLinks(ws: seq<Thread>, t: nat, x: Thread, u: nat, y: Thread)
    requires t < |ws| && u < |ws|
  {
    && x.pc.Waiting? == ws[t].pc.Waiting? && (x.pc.Waiting? ==> x.pc == ws[t].pc)
    && Reqs(y.split) == Reqs(ws[u].split)
    && (|| (Reqs(x.split) == Reqs(ws[t].split) && SameLinks(ws[u], y))
        || (ws[u].pc.Outside? && y.pc == Waiting(t) && Reqs(x.split) == Reqs(ws[t].split) + {u})
        || (ws[u].pc == Waiting(t) && !y.pc.Waiting? && Reqs(x.split) == Reqs(ws[t].split) - {u}))
  }

  lemma KeepLinksTwo(ws: seq<Thread>, t: nat, x: Thread, u: nat, y: Thread)
    requires t < |ws| && u < |ws| && t != u && Linked(ws) && PairLinks(ws, t, x, u, y)
    ensures Linked(ws[t := x][u := y])
  {
    var ws' := ws[t := x][u := y];
    forall v: nat, k: nat | Asks(ws', v, k) ensures k < |ws'| && k != v && ws'[k].pc == Waiting(v) {
      if Asks(ws, v, k) {
        assert ws[k].pc == Waiting(v);
      }
    }
    forall k: nat | k < |ws'| && ws'[k].pc.Waiting? ensures Asks(ws', ws'[k].pc.v, k) {
      if ws[k].pc.Waiting? {
        assert Asks(ws, ws[k].pc.v, k);
      }
    }
  }

  ghost predicate PairGood(c: Config, s: State, t: nat, x: Thread, u: nat, y: Thread)
    requires t < |s.ws| && u < |s.ws|
  {
    && t != u && s.ws[0].mode != Opening && x.mode != Opening && y.mode != Opening
    && ThreadOk(c, t, x, s.slices, s.workremain) && ThreadOk(c, u, y, s.slices, s.workremain)
    && PairLinks(s.ws, t, x, u, y)
    && Load(c, x, Credit) + Load(c, y, Credit) == Load(c, s.ws[t], Credit) + Load(c, s.ws[u], Credit)
  }

  /** Work only changes hands between the two threads. */
  ghost predicate PairMoves(c: Config, s: State, t: nat, x: Thread, u: nat, y: Thread, p: Probe)
    requires t < |s.ws| && u < |s.ws|
  {
    Load(c, x, Work(p)) + Load(c, y, Work(p)) == Load(c, s.ws[t], Work(p)) + Load(c, s.ws[u], Work(p))
  }

  lemma SumTwo(c: Config, ws: seq<Thread>, t: nat, x: Thread, u: nat, y: Thread, w: Weigh)
    requires t < |ws| && u < |ws| && t != u
    ensures Sum(c, ws[t := x][u := y], w)
         == Sum(c, ws, w) - Load(c, ws[t], w) - Load(c, ws[u], w) + Load(c, x, w) + Load(c, y, w)
  {
    SumUpdate(c, ws, t, x, w);
    SumUpdate(c, ws[t := x], u, y, w);
  }

  lemma KeepShapeTwo(c: Config, s: State, t: nat, x: Thread, u: nat, y: Thread)
    requires Shape(c, s) && t < |s.ws| && u < |s.ws| && PairGood(c, s, t, x, u, y)
    ensures Shape(c, ApplyTwo(s, t, x, u, y))
  {
    KeepLinksTwo(s.ws, t, x, u, y);
    var s' := ApplyTwo(s, t, x, u, y);
    forall k | 0 <= k < |s'.ws| ensures ThreadOk(c, k, s'.ws[k], s'.slices, s'.workremain) {
      assert ThreadOk(c, k, s.ws[k], s.slices, s.workremain);
    }
  }

  lemma KeepTwo(c: Config, s: State, t: nat, x: Thread, u: nat, y: Thread)
    requires Inv(c, s) && t < |s.ws| && u < |s.ws| && PairGood(c, s, t, x, u, y)
    requires forall p: Probe :: PairMoves(c, s, t, x, u, y, p)
    ensures Inv(c, ApplyTwo(s, t, x, u, y))
  {
    KeepShapeTwo(c, s, t, x, u, y);
    var s' := ApplyTwo(s, t, x, u, y);
    forall p: Probe ensures BalancedAt(c, s', p) {
      assert BalancedAt(c, s, p) && PairMoves(c, s, t, x, u, y, p);
      SumTwo(c, s.ws, t, x, u, y, Work(p));
    }
    SumTwo(c, s.ws, t, x, u, y, Credit);
  }

  // ----- the worker's steps -----

  /** What a thread may rely on when it runs: its own invariant, and that a counter at 0
      leaves it nothing. */
  ghost predicate Running(c: Config, t: int, x: Thread, slices: set<nat>, rem: int) {
    && ValidConfig(c) && ThreadOk(c, t, x, slices, rem) && rem >= 0
    && (forall k :: k in slices ==> k < Slices(c))
    && (rem == 0 ==> slices == {} && Load(c, x, Work(Count)) == 0 && Load(c, x, Credit) == 0)
  }

  /** A step of thread t alone is sound. */
  ghost predicate StepOk(c: Config, t: int, x: Thread, slices: set<nat>, rem: int, e: Effect) {
    && e.take <= slices && (rem == 0 ==> e.minus == 0)
    && ThreadOk(c, t, e.x, slices - e.take, rem - e.minus)
    && SameLinks(x, e.x)
    && (e.x.mode == Opening ==> x.mode == Opening)
    && MovesCredit(c, x, e) && AllNonEmpty(e.emit)
  }

  lemma NextOk(c: Config, t: int, x: Thread, slices: set<nat>, rem: int)
    requires Running(c, t, x, slices, rem) && InNext(x.pc)
    ensures StepOk(c, t, x, slices, rem, NextStep(c, x, rem))
  {
  }

  lemma NextMoves(c: Config, t: int, x: Thread, slices: set<nat>, rem: int, p: Probe)
    requires Running(c, t, x, slices, rem) && InNext(x.pc)
    ensures MovesWork(c, x, NextStep(c, x, rem), p)
  {
    SliceSumEmpty(c, |c.start|, p);
  }

  lemma PopOk(c: Config, t: int, x: Thread, slices: set<nat>, rem: int, v: nat)
    requires Running(c, t, x, slices, rem) && InPop(x.pc) && (slices != {} ==> v in slices)
    ensures StepOk(c, t, x, slices, rem, PopStep(c, x, slices, rem, v))
  {
  }

  lemma PopMoves(c: Config, t: int, x: Thread, slices: set<nat>, rem: int, v: nat, p: Probe)
    requires Running(c, t, x, slices, rem) && InPop(x.pc) && (slices != {} ==> v in slices)
    ensures MovesWork(c, x, PopStep(c, x, slices, rem, v), p)
  {
    SliceSumEmpty(c, |c.start|, p);
    if (x.pc.Unset? || x.pc.AnyUnset?) && x.pc.pos in slices {
      SliceSumOne(c, x.pc.pos, |c.start|, p);
    }
  }

  lemma StealOk(c: Config, t: int, x: Thread, slices: set<nat>, rem: int, v: nat, init: bool, size: int)
    requires Running(c, t, x, slices, rem) && InSteal(x.pc) && v < c.threads && size >= 0
    ensures StepOk(c, t, x, slices, rem, Becomes(StealStep(c, x, rem, v, v == t, init, size)))
  {
  }

  lemma StealMoves(c: Config, t: int, x: Thread, slices: set<nat>, rem: int, v: nat, init: bool, size: int, p: Probe)
    requires Running(c, t, x, slices, rem) && InSteal(x.pc)
    ensures MovesWork(c, x, Becomes(StealStep(c, x, rem, v, v == t, init, size)), p)
  {
    SliceSumEmpty(c, |c.start|, p);
  }

  lemma BodyOk(c: Config, t: int, x: Thread, slices: set<nat>, rem: int)
    requires Running(c, t, x, slices, rem)
    ensures x.pc.Got? ==> StepOk(c, t, x, slices, rem, Becomes(GotStep(c, x)))
    ensures x.pc.Body? ==> StepOk(c, t, x, slices, rem, Effect(x.(pc := Fetch), {}, 0, [x.pc.r]))
  {
    if x.pc.Body? {
      assert Total([x.pc.r], Count) == Measure(x.pc.r, Count) by { assert [x.pc.r][..0] == []; }
    }
  }

  lemma BodyMoves(c: Config, t: int, x: Thread, slices: set<nat>, rem: int, p: Probe)
    requires Running(c, t, x, slices, rem)
    ensures x.pc.Got? ==> MovesWork(c, x, Becomes(GotStep(c, x)), p)
    ensures x.pc.Body? ==> MovesWork(c, x, Effect(x.(pc := Fetch), {}, 0, [x.pc.r]), p)
  {
    SliceSumEmpty(c, |c.start|, p);
    if x.pc.Body? {
      assert Total([x.pc.r], p) == Measure(x.pc.r, p) by { assert [x.pc.r][..0] == []; }
    }
  }

  lemma RunningThread(c: Config, s: State, t: nat)
    requires Inv(c, s) && t < |s.ws|
    ensures Running(c, t, s.ws[t], s.slices, s.workremain)
  {
    assert BalancedAt(c, s, Count);
    ZeroMeansNothingHeld(c, s);
    assert ThreadOk(c, t, s.ws[t], s.slices, s.workremain);
  }

  lemma OwnMoves(c: Config, s: State, a: Action, p: Probe)
    requires Inv(c, s) && a.Own? && OwnEnabled(c, s, a) && !Steals(s, a)
    ensures MovesWork(c, s.ws[a.t], OwnEffect(c, s, a), p)
  {
    RunningThread(c, s, a.t);
    var x := s.ws[a.t];
    if InNext(x.pc) {
      NextMoves(c, a.t, x, s.slices, s.workremain, p);
    } else if InPop(x.pc) {
      PopMoves(c, a.t, x, s.slices, s.workremain, a.v, p);
    } else if InSteal(x.pc) {
      StealMoves(c, a.t, x, s.slices, s.workremain, a.v, x.pc.Probe? && s.ws[x.pc.v].init, a.size, p);
    } else {
      BodyMoves(c, a.t, x, s.slices, s.workremain, p);
    }
  }

  lemma OwnKeeps(c: Config, s: State, a: Action)
    requires Inv(c, s) && a.Own? && OwnEnabled(c, s, a) && !Steals(s, a)
    ensures Inv(c, Step(c, s, a))
  {
    RunningThread(c, s, a.t);
    var x := s.ws[a.t];
    var e := OwnEffect(c, s, a);
    OwnOk(c, s, a);
    forall p: Probe ensures MovesWork(c, x, e, p) {
      OwnMoves(c, s, a, p);
    }
    KeepOne(c, s, a.t, e);
  }

  lemma OwnOk(c: Config, s: State, a: Action)
    requires Inv(c, s) && a.Own? && OwnEnabled(c, s, a) && !Steals(s, a)
    ensures var e := OwnEffect(c, s, a);
      StepOk(c, a.t, s.ws[a.t], s.slices, s.workremain, e) && e.x.split == s.ws[a.t].split
  {
    RunningThread(c, s, a.t);
    var x := s.ws[a.t];
    if InNext(x.pc) {
      NextOk(c, a.t, x, s.slices, s.workremain);
    } else if InPop(x.pc) {
      PopOk(c, a.t, x, s.slices, s.workremain, a.v);
    } else if InSteal(x.pc) {
      StealOk(c, a.t, x, s.slices, s.workremain, a.v, x.pc.Probe? && s.ws[x.pc.v].init, a.size);
    } else {
      BodyOk(c, a.t, x, s.slices, s.workremain);
    }
  }

  /** A thief takes the back of its victim's queue and nothing else. */
  lemma StealKeeps(c: Config, s: State, a: Action)
    requires Inv(c, s) && a.Own? && OwnEnabled(c, s, a) && Steals(s, a)
    ensures Inv(c, Step(c, s, a))
  {
    var x, v, n := s.ws[a.t], s.ws[a.t].pc.v, s.ws[a.t].pc.n;
    var y := s.ws[v];
    assert ThreadOk(c, a.t, x, s.slices, s.workremain) && ThreadOk(c, v, y, s.slices, s.workremain);
    var x', y' := x.(pc := Got(Back(y.q, n))), y.(q := BeforeBack(y.q, n));
    forall p: Probe ensures PairMoves(c, s, a.t, x', v, y', p) {
    }
    KeepTwo(c, s, a.t, x', v, y');
  }

  // ----- the splitter's steps -----

  /** A splitter action on x that answers nobody. */
  ghost predicate SplitAlone(x: Thread, slices: set<nat>, rem: int, a: Action) {
    match a
    case SplitStart(v) => x.split.NoSplit? && rem != 0
    case SplitPeek(v) => x.split.Collect? && x.split.reqs != {}
    case SplitClaim(v) => x.split.Claiming?
    case SplitGive(v, t) => x.split.Claimed? && t in x.split.slices && rem == 0
    case SplitAfter(v) => x.split.Claimed? && x.split.slices == {}
    case SplitSize(v, size) => x.split.Local? && size >= 0
    case SplitSteal(v, ok) => x.split.Cut?
    case SplitEnd(v) => x.split.Deal? && (x.split.nreq <= 0 || x.split.reqs == {})
    case SplitClose(v) => x.split.Closing? && x.split.reqs == {}
    case _ => false
  }

  lemma CutIsPositive(nreq: int, unit: int)
    requires nreq >= 1 && unit >= 1
    ensures nreq * unit >= 1
  {
  }

  lemma SplitQuietOk(c: Config, t: int, x: Thread, slices: set<nat>, rem: int, a: Action)
    requires Running(c, t, x, slices, rem) && SplitAlone(x, slices, rem, a) && x.mode != Opening
    requires a.SplitStart? || a.SplitPeek? || a.SplitAfter? || a.SplitEnd? || a.SplitClose?
    ensures StepOk(c, t, x, slices, rem, SplitStep(c, x, slices, rem, a))
  {
    assert slices - {} == slices;
  }

  lemma SplitClaimOk(c: Config, t: int, x: Thread, slices: set<nat>, rem: int, a: Action)
    requires Running(c, t, x, slices, rem) && SplitAlone(x, slices, rem, a) && x.mode != Opening && a.SplitClaim?
    requires forall k :: k in slices ==> k < Slices(c)
    ensures StepOk(c, t, x, slices, rem, SplitStep(c, x, slices, rem, a))
  {
    assert slices == {} ==> slices - slices * x.split.reqs == {};
  }

  /** A splitter that holds a claimed slice keeps the counter up. */
  lemma ClaimKeepsCounter(c: Config, t: int, x: Thread, slices: set<nat>, rem: int, k: nat)
    requires Running(c, t, x, slices, rem) && x.split.Claimed? && k in x.split.slices
    ensures rem != 0
  {
    SliceSumPositive(c, x.split.slices, k, |c.start|);
  }

  lemma SplitSizeOk(c: Config, t: int, x: Thread, slices: set<nat>, rem: int, a: Action)
    requires Running(c, t, x, slices, rem) && SplitAlone(x, slices, rem, a) && x.mode != Opening && a.SplitSize?
    ensures StepOk(c, t, x, slices, rem, SplitStep(c, x, slices, rem, a))
  {
    assert slices - {} == slices;
    if a.size > c.parGrain {
      PlanFits(a.size, |x.split.reqs|, c.parGrain);
    }
  }

  lemma SplitCutOk(c: Config, t: int, x: Thread, slices: set<nat>, rem: int, a: Action)
    requires Running(c, t, x, slices, rem) && SplitAlone(x, slices, rem, a) && x.mode != Opening && a.SplitSteal?
    ensures StepOk(c, t, x, slices, rem, SplitStep(c, x, slices, rem, a))
  {
    assert slices - {} == slices;
    CutIsPositive(x.split.nreq, x.split.unit);
  }

  lemma SplitAloneOk(c: Config, t: int, x: Thread, slices: set<nat>, rem: int, a: Action)
    requires Running(c, t, x, slices, rem) && SplitAlone(x, slices, rem, a) && x.mode != Opening
    ensures StepOk(c, t, x, slices, rem, SplitStep(c, x, slices, rem, a))
  {
    match a {
      case SplitClaim(_) => SplitClaimOk(c, t, x, slices, rem, a);
      case SplitGive(_, k) => ClaimKeepsCounter(c, t, x, slices, rem, k);
      case SplitSize(_, _) => SplitSizeOk(c, t, x, slices, rem, a);
      case SplitSteal(_, _) => SplitCutOk(c, t, x, slices, rem, a);
      case _ => SplitQuietOk(c, t, x, slices, rem, a);
    }
  }

  lemma SplitAloneMoves(c: Config, t: int, x: Thread, slices: set<nat>, rem: int, a: Action, p: Probe)
    requires Running(c, t, x, slices, rem) && SplitAlone(x, slices, rem, a)
    ensures MovesWork(c, x, SplitStep(c, x, slices, rem, a), p)
  {
    SliceSumEmpty(c, |c.start|, p);
    match a {
      case SplitGive(_, k) => ClaimKeepsCounter(c, t, x, slices, rem, k);
      case SplitSteal(_, _) => CutIsPositive(x.split.nreq, x.split.unit);
      case SplitEnd(_) => assert 0 * x.split.unit == 0;
      case _ =>
    }
  }

  lemma SplitAloneKeeps(c: Config, s: State, a: Action)
    requires Inv(c, s) && !a.Own? && SplitEnabled(c, s, a) && !Answers(s, a)
    ensures Inv(c, Step(c, s, a))
  {
    RunningThread(c, s, a.v);
    var x := s.ws[a.v];
    var e := SplitStep(c, x, s.slices, s.workremain, a);
    SplitAloneOk(c, a.v, x, s.slices, s.workremain, a);
    forall p: Probe ensures MovesWork(c, x, e, p) {
      SplitAloneMoves(c, a.v, x, s.slices, s.workremain, a, p);
    }
    KeepOne(c, s, a.v, e);
  }

  /** What an answer may rely on about the victim x and the requesting thread y. */
  ghost predicate Answering(c: Config, v: nat, x: Thread, t: nat, y: Thread, slices: set<nat>, rem: int, a: Action) {
    && v != t && Running(c, v, x, slices, rem) && ThreadOk(c, t, y, slices, rem)
    && (match a
        case SplitJoin(w, k) => w == v && k == t && x.split.Collect? && y.pc.Outside?
        case SplitGive(w, k) => w == v && k == t && x.split.Claimed? && t in x.split.slices && y.pc == Waiting(v) && rem != 0
        case SplitDeal(w, k) => w == v && k == t && x.split.Deal? && x.split.nreq > 0 && t in x.split.reqs && y.pc == Waiting(v)
        case SplitRefuse(w, k) => w == v && k == t && x.split.Closing? && t in x.split.reqs && y.pc == Waiting(v)
        case _ => false)
  }

  lemma DealOne(nreq: int, unit: int)
    requires nreq >= 1 && unit >= 1
    ensures nreq * unit == (nreq - 1) * unit + unit && (nreq - 1) * unit >= 0
  {
  }

  lemma AnswerOk(c: Config, v: nat, x: Thread, t: nat, y: Thread, slices: set<nat>, rem: int, a: Action)
    requires Answering(c, v, x, t, y, slices, rem, a)
    ensures var x', y' := SplitStep(c, x, slices, rem, a).x, Answer(c, x, y, a);
      && ThreadOk(c, v, x', slices, rem) && ThreadOk(c, t, y', slices, rem)
      && x'.pc == x.pc && x'.mode == x.mode && y'.mode == y.mode && y'.split == y.split
      && Reqs(x'.split) == (if a.SplitJoin? then Reqs(x.split) + {t} else Reqs(x.split) - {t})
      && (if a.SplitJoin? then y'.pc == Waiting(v) else !y'.pc.Waiting?)
      && Load(c, x', Credit) == Load(c, x, Credit) && Load(c, y', Credit) == Load(c, y, Credit)
  {
    if a.SplitDeal? {
      DealOne(x.split.nreq, x.split.unit);
    }
  }

  lemma AnswerMoves(c: Config, v: nat, x: Thread, t: nat, y: Thread, slices: set<nat>, rem: int, a: Action, p: Probe)
    requires Answering(c, v, x, t, y, slices, rem, a)
    ensures var x', y' := SplitStep(c, x, slices, rem, a).x, Answer(c, x, y, a);
      Load(c, x', Work(p)) + Load(c, y', Work(p)) == Load(c, x, Work(p)) + Load(c, y, Work(p))
  {
    if a.SplitDeal? {
      DealOne(x.split.nreq, x.split.unit);
    }
    if a.SplitGive? {
      SliceSumRemove(c, x.split.slices, t, p);
    }
  }

  lemma AnswerReady(c: Config, s: State, a: Action)
    requires Inv(c, s) && !a.Own? && SplitEnabled(c, s, a) && Answers(s, a)
    ensures Answering(c, a.v, s.ws[a.v], a.t, s.ws[a.t], s.slices, s.workremain, a)
  {
    RunningThread(c, s, a.v);
    assert ThreadOk(c, a.t, s.ws[a.t], s.slices, s.workremain);
    assert a.SplitJoin? || Asks(s.ws, a.v, a.t);
  }

  lemma AnswerKeeps(c: Config, s: State, a: Action)
    requires Inv(c, s) && !a.Own? && SplitEnabled(c, s, a) && Answers(s, a)
    ensures Inv(c, Step(c, s, a))
  {
    AnswerReady(c, s, a);
    var x, y := s.ws[a.v], s.ws[a.t];
    var x', y' := SplitStep(c, x, s.slices, s.workremain, a).x, Answer(c, x, y, a);
    AnswerOk(c, a.v, x, a.t, y, s.slices, s.workremain, a);
    forall p: Probe ensures PairMoves(c, s, a.v, x', a.t, y', p) {
      AnswerMoves(c, a.v, x, a.t, y, s.slices, s.workremain, a, p);
    }
    KeepTwo(c, s, a.v, x', a.t, y');
  }

  // ----- whole runs -----

  lemma StepKeepsInvariant(c: Config, s: State, a: Action)
    requires Inv(c, s) && Enabled(c, s, a)
    ensures Inv(c, Step(c, s, a))
  {
    if a.Own? {
      if Steals(s, a) {
        StealKeeps(c, s, a);
      } else {
        OwnKeeps(c, s, a);
      }
    } else if Answers(s, a) {
      AnswerKeeps(c, s, a);
    } else {
      SplitAloneKeeps(c, s, a);
    }
  }

  lemma InitInvariant(c: Config)
    requires ValidConfig(c)
    ensures Inv(c, Init(c))
  {
    var s := Init(c);
    var n := |c.start| - 1;
    StartIncreases(c, n);
    forall p: Probe ensures BalancedAt(c, s, p) {
      SumZero(c, s.ws, Work(p));
      SliceSumAll(c, s.slices, n, p);
    }
    SumZero(c, s.ws, Credit);
  }

  /** The invariant holds in every state any interleaving can reach. */
  lemma {:induction false} RunKeepsInvariant(c: Config, run: seq<Action>)
    requires ValidConfig(c) && Exec(c, run).Reached?
    ensures Inv(c, Exec(c, run).s)
  {
    if run == [] {
      InitInvariant(c);
    } else {
      RunKeepsInvariant(c, run[..|run| - 1]);
      StepKeepsInvariant(c, Exec(c, run[..|run| - 1]).s, run[|run| - 1]);
    }
  }

  // ----- main results -----

  lemma NothingHeldNothingMissing(c: Config, s: State, p: Probe)
    requires Inv(c, s) && s.workremain == 0
    ensures Total(s.executed, p) == Measure(Whole(c), p)
  {
    assert BalancedAt(c, s, Count) && BalancedAt(c, s, p);
    ZeroMeansNothingHeld(c, s);
    SliceSumEmpty(c, |c.start|, p);
    forall t | 0 <= t < |s.ws| ensures Load(c, s.ws[t], Work(p)) == 0 {
      var x := s.ws[t];
      assert ThreadOk(c, t, x, s.slices, s.workremain);
      assert Load(c, x, Work(Count)) == 0;
      if x.split.Claimed? && x.split.slices != {} {
        var k :| k in x.split.slices;
        SliceSumPositive(c, x.split.slices, k, |c.start|);
      }
    }
    SumZero(c, s.ws, Work(p));
  }

  /** Exactly-once loop. In every reachable state the ranges the body returned from are
      non-empty, pairwise disjoint and inside the loop's range; once any worker has left the
      loop they make up exactly that range. */
  lemma ExactlyOnceLoop(c: Config, run: seq<Action>)
    requires ValidConfig(c) && Exec(c, run).Reached?
    ensures var s := Exec(c, run).s;
      && AllNonEmpty(s.executed)
      && (forall j, k :: 0 <= j < k < |s.executed| ==> Disjoint(s.executed[j], s.executed[k]))
      && (forall k :: 0 <= k < |s.executed| ==> Whole(c).lo <= s.executed[k].lo && s.executed[k].hi <= Whole(c).hi)
      && (forall t :: 0 <= t < |s.ws| && s.ws[t].pc.Done? ==>
            && ExactlyOnce(s.executed, Whole(c).lo, Whole(c).hi)
            && forall i :: Whole(c).lo <= i < Whole(c).hi ==> Holds(s.executed, i))
  {
    RunKeepsInvariant(c, run);
    var s := Exec(c, run).s;
    forall i ensures Total(s.executed, At(i)) <= Measure(Whole(c), At(i)) <= 1 {
      assert BalancedAt(c, s, At(i));
      LoadsNonNegative(c, s);
      SumNonNegative(c, s.ws, Work(At(i)));
    }
    AtMostOnceMeansDisjoint(s.executed);
    forall k | 0 <= k < |s.executed| ensures Whole(c).lo <= s.executed[k].lo && s.executed[k].hi <= Whole(c).hi {
      TotalAtLeast(s.executed, k, At(s.executed[k].lo));
      TotalAtLeast(s.executed, k, At(s.executed[k].hi - 1));
    }
    forall t | 0 <= t < |s.ws| && s.ws[t].pc.Done?
      ensures ExactlyOnce(s.executed, Whole(c).lo, Whole(c).hi)
      ensures forall i :: Whole(c).lo <= i < Whole(c).hi ==> Holds(s.executed, i)
    {
      assert ThreadOk(c, t, s.ws[t], s.slices, s.workremain);
      forall i ensures Total(s.executed, At(i)) == Measure(Whole(c), At(i)) {
        NothingHeldNothingMissing(c, s, At(i));
      }
      ExactlyOnceIsPartition(s.executed, Whole(c).lo, Whole(c).hi);
    }
  }

  /** What all workers together have taken and not yet subtracted. */
  function WorkdoneSum(ws: seq<Thread>): int {
    if ws == [] then 0 else WorkdoneSum(ws[..|ws| - 1]) + ws[|ws| - 1].workdone
  }

  lemma {:induction false} WorkdoneIsHeldOrCredit(c: Config, ws: seq<Thread>)
    requires forall t :: 0 <= t < |ws| ==> ws[t].workdone <= Load(c, ws[t], Work(Count)) + Load(c, ws[t], Credit)
    ensures WorkdoneSum(ws) <= Sum(c, ws, Work(Count)) + Sum(c, ws, Credit)
  {
    if ws != [] {
      WorkdoneIsHeldOrCredit(c, ws[..|ws| - 1]);
    }
  }

  lemma WorkdoneIsInCounter(c: Config, s: State)
    requires Inv(c, s)
    ensures WorkdoneSum(s.ws) <= s.workremain && forall t :: 0 <= t < |s.ws| ==> 0 <= s.ws[t].workdone
  {
    assert BalancedAt(c, s, Count);
    CounterIsWorkLeft(c, s);
    forall t | 0 <= t < |s.ws|
      ensures 0 <= s.ws[t].workdone <= Load(c, s.ws[t], Work(Count)) + Load(c, s.ws[t], Credit)
    {
      assert ThreadOk(c, t, s.ws[t], s.slices, s.workremain);
    }
    WorkdoneIsHeldOrCredit(c, s.ws);
  }

  lemma CounterZero(c: Config, s: State)
    requires Inv(c, s) && s.workremain == 0
    ensures ExactlyOnce(s.executed, Whole(c).lo, Whole(c).hi) && s.slices == {}
    ensures forall t :: 0 <= t < |s.ws| ==> !s.ws[t].pc.Check? && !s.ws[t].pc.Got?
  {
    assert BalancedAt(c, s, Count);
    ZeroMeansNothingHeld(c, s);
    forall i ensures Total(s.executed, At(i)) == Measure(Whole(c), At(i)) {
      NothingHeldNothingMissing(c, s, At(i));
    }
    forall t | 0 <= t < |s.ws| ensures !s.ws[t].pc.Check? && !s.ws[t].pc.Got? {
      assert ThreadOk(c, t, s.ws[t], s.slices, s.workremain);
      assert Load(c, s.ws[t], Work(Count)) == 0;
    }
  }

  /** Termination counter. workremain is the total minus what was subtracted; it is the work
      held or unclaimed plus the credit of the workers, so at least the sum of their
      unsubtracted workdone; and it is 0 only when the body has returned on every iteration. */
  lemma TerminationCounter(c: Config, run: seq<Action>)
    requires ValidConfig(c) && Exec(c, run).Reached?
    ensures var s := Exec(c, run).s;
      && 0 <= s.workremain == Whole(c).hi - Whole(c).lo - s.subtracted
      && s.workremain == Sum(c, s.ws, Work(Count)) + SliceSum(c, s.slices, Count) + Sum(c, s.ws, Credit)
      && WorkdoneSum(s.ws) <= s.workremain && (forall t :: 0 <= t < |s.ws| ==> 0 <= s.ws[t].workdone)
      && (s.workremain == 0 ==> ExactlyOnce(s.executed, Whole(c).lo, Whole(c).hi))
      && (s.workremain == 0 ==> s.slices == {} && forall t :: 0 <= t < |s.ws| ==> !s.ws[t].pc.Check? && !s.ws[t].pc.Got?)
  {
    RunKeepsInvariant(c, run);
    var s := Exec(c, run).s;
    assert BalancedAt(c, s, Count);
    CounterIsWorkLeft(c, s);
    WorkdoneIsInCounter(c, s);
    if s.workremain == 0 {
      CounterZero(c, s);
    }
  }

  /** The thread is at a point where its next step is its own: it is neither waiting for an
      answer, nor looking for a victim, nor finished. */
  predicate Productive(x: Thread) {
    CanRun(x.pc) && !InSteal(x.pc)
  }

  /** A splitter that still holds claimed or stolen work. */
  predicate Serving(x: Thread) {
    (x.split.Claimed? && x.split.slices != {}) || (x.split.Deal? && x.split.nreq > 0)
  }

  /** No stuck loop. While workremain is not 0 a slice is unclaimed, or some thread holds a
      non-empty queue, a piece or credit; some thread (the creating one if a slice is left)
      can go on without waiting for anybody; and victims are only looked for once the map is
      empty for good or all work is done. */
  lemma NoStuckLoop(c: Config, run: seq<Action>)
    requires ValidConfig(c) && Exec(c, run).Reached?
    ensures var s := Exec(c, run).s;
      && (s.workremain != 0 ==>
            || s.slices != {}
            || exists t :: 0 <= t < |s.ws| && (Load(c, s.ws[t], Work(Count)) > 0 || Load(c, s.ws[t], Credit) > 0))
      && (s.workremain != 0 ==> exists t :: 0 <= t < |s.ws| && (Productive(s.ws[t]) || Serving(s.ws[t])))
      && (s.workremain != 0 && s.slices != {} ==> Productive(s.ws[0]))
      && (forall t :: 0 <= t < |s.ws| && InSteal(s.ws[t].pc) ==> s.slices == {} || s.workremain == 0)
  {
    RunKeepsInvariant(c, run);
    var s := Exec(c, run).s;
    assert BalancedAt(c, s, Count);
    CounterIsWorkLeft(c, s);
    assert ThreadOk(c, 0, s.ws[0], s.slices, s.workremain);
    forall t | 0 <= t < |s.ws| && InSteal(s.ws[t].pc) ensures s.slices == {} || s.workremain == 0 {
      assert ThreadOk(c, t, s.ws[t], s.slices, s.workremain);
    }
    if s.workremain != 0 && s.slices == {} {
      SliceSumEmpty(c, |c.start|, Count);
      var t: int;
      if Sum(c, s.ws, Work(Count)) > 0 {
        t := SumWitness(c, s.ws, Work(Count));
      } else {
        t := SumWitness(c, s.ws, Credit);
      }
      HolderGoesOn(c, t, s.ws[t], s.slices, s.workremain);
    }
  }

  lemma HolderGoesOn(c: Config, t: int, x: Thread, slices: set<nat>, rem: int)
    requires ValidConfig(c) && ThreadOk(c, t, x, slices, rem)
    requires Load(c, x, Work(Count)) > 0 || Load(c, x, Credit) > 0
    ensures Productive(x) || Serving(x)
  {
    SliceSumEmpty(c, |c.start|, Count);
    if x.split.Deal? {
      assert 0 * x.split.unit == 0;
    }
  }

  /** Every own step of a productive thread is enabled. */
  lemma ProductiveIsEnabled(c: Config, s: State, t: nat) returns (a: Action)
    requires t < |s.ws| && Productive(s.ws[t])
    ensures a.Own? && a.t == t && Enabled(c, s, a)
  {
    if s.slices == {} {
      a := Own(t, 0, 0, false);
    } else {
      var v :| v in s.slices;
      a := Own(t, v, 0, false);
    }
  }

  /** Every splitter that holds work can hand some of it out. */
  lemma ServingIsEnabled(c: Config, s: State, v: nat) returns (a: Action)
    requires Inv(c, s) && v < |s.ws| && Serving(s.ws[v])
    ensures !a.Own? && a.v == v && Enabled(c, s, a)
  {
    assert ThreadOk(c, v, s.ws[v], s.slices, s.workremain);
    var sp := s.ws[v].split;
    if sp.Claimed? {
      var t :| t in sp.slices;
      assert Asks(s.ws, v, t);
      a := SplitGive(v, t);
    } else {
      assert sp.reqs != {};
      var t :| t in sp.reqs;
      assert Asks(s.ws, v, t);
      a := SplitDeal(v, t);
    }
  }
}
