/** The THE work queue: the owner pops at the front without the lock, thieves steal at the
    back under it, and either side rolls its transient write back on conflict.
    Every action below performs at most one access to shared memory. */
module TheQueue {
  import opened Ranges

  /** Program counter of the owner, with the local variables live at that point. */
  datatype Owner =
    | Idle(drained: bool)                 // drained: the last pop returned EBUSY
    | PopLoaded(init: int, size: int)
    | PopStored(init: int, size: int)
    | PopConflict(init: int, size: int)
    | SlowWait(size: int)
    | SlowIn(size: int)
    | SlowLoaded(b: int, size: int)
    | SlowTake(b: int, n: int, size: int)
    | SlowDone(r: Range)
    | SlowEmpty
    | RefillIn(r: Range)
    | RefillHalf(r: Range)
    | RefillDone

  /** Program counter of the one thief that holds the lock. */
  datatype Thief =
    | StealIn(size: int)
    | StealLoaded(init: int, size: int)
    | StealStored(init: int, size: int)
    | StealConflict(init: int)
    | StealWon(r: Range)
    | StealFailed

  datatype Lock = Free | ByOwner | ByThief(thief: Thief)

  /** Shared memory (beg, end, lock), the owner's program counter, and the history of what
      was put in and of what the calls returned. */
  datatype Queue = Queue(
    beg: int, end: int, lock: Lock, owner: Owner,
    deposited: seq<Range>, popped: seq<Range>, stolen: seq<Range>)

  datatype Action =
    | PopLoad(size: int) | PopStore | PopTest | PopRestore
    | SlowLock | SlowLoadBeg | SlowLoadEnd | SlowStore | SlowUnlock
    | RefillLock(r: Range) | RefillStoreBeg | RefillStoreEnd | RefillUnlock
    | StealLock(size: int) | StealLoadEnd | StealStoreEnd | StealTestBeg | StealRestore | StealUnlock

  function Init(r: Range): Queue {
    Queue(r.lo, r.hi, Free, Idle(false), [r], [], [])
  }

  predicate Enabled(q: Queue, a: Action) {
    match a
    case PopLoad(size) => q.owner.Idle? && size > 0
    case PopStore => q.owner.PopLoaded?
    case PopTest => q.owner.PopStored?
    case PopRestore => q.owner.PopConflict?
    case SlowLock => q.owner.SlowWait? && q.lock.Free?
    case SlowLoadBeg => q.owner.SlowIn?
    case SlowLoadEnd => q.owner.SlowLoaded?
    case SlowStore => q.owner.SlowTake?
    case SlowUnlock => q.owner.SlowDone? || q.owner.SlowEmpty?
    case RefillLock(r) => q.owner.Idle? && q.owner.drained && q.lock.Free? && r.lo <= r.hi
    case RefillStoreBeg => q.owner.RefillIn?
    case RefillStoreEnd => q.owner.RefillHalf?
    case RefillUnlock => q.owner.RefillDone?
    case StealLock(size) => q.lock.Free? && size > 0
    case StealLoadEnd => q.lock.ByThief? && q.lock.thief.StealIn?
    case StealStoreEnd => q.lock.ByThief? && q.lock.thief.StealLoaded?
    case StealTestBeg => q.lock.ByThief? && q.lock.thief.StealStored?
    case StealRestore => q.lock.ByThief? && q.lock.thief.StealConflict?
    case StealUnlock => q.lock.ByThief? && (q.lock.thief.StealWon? || q.lock.thief.StealFailed?)
  }

  function Step(q: Queue, a: Action): Queue
    requires Enabled(q, a)
  {
    match a
    case PopLoad(size) => q.(owner := PopLoaded(q.beg, size))
    case PopStore => q.(beg := q.owner.init + q.owner.size, owner := PopStored(q.owner.init, q.owner.size))
    case PopTest =>
      var locBeg := q.owner.init + q.owner.size;
      if locBeg < q.end
      then q.(owner := Idle(false), popped := q.popped + [Range(locBeg - q.owner.size, locBeg)])
      else q.(owner := PopConflict(q.owner.init, q.owner.size))
    case PopRestore => q.(beg := q.owner.init, owner := SlowWait(q.owner.size))
    case SlowLock => q.(lock := ByOwner, owner := SlowIn(q.owner.size))
    case SlowLoadBeg => q.(owner := SlowLoaded(q.beg, q.owner.size))
    case SlowLoadEnd =>
      var size := q.end - q.owner.b;
      if size == 0 then q.(owner := SlowEmpty)
      else q.(owner := SlowTake(q.owner.b, if size > q.owner.size then q.owner.size else size, q.owner.size))
    case SlowStore =>
      var locBeg := q.owner.b + q.owner.n;
      q.(beg := locBeg, owner := SlowDone(Range(locBeg - q.owner.n, locBeg)))
    case SlowUnlock =>
      if q.owner.SlowEmpty? then q.(lock := Free, owner := Idle(true))
      else q.(lock := Free, owner := Idle(false), popped := q.popped + [q.owner.r])
    case RefillLock(r) => q.(lock := ByOwner, owner := RefillIn(r))
    case RefillStoreBeg => q.(beg := q.owner.r.lo, owner := RefillHalf(q.owner.r))
    case RefillStoreEnd =>
      q.(end := q.owner.r.hi, owner := RefillDone, deposited := q.deposited + [q.owner.r])
    case RefillUnlock => q.(lock := Free, owner := Idle(false))
    case StealLock(size) => q.(lock := ByThief(StealIn(size)))
    case StealLoadEnd => q.(lock := ByThief(StealLoaded(q.end, q.lock.thief.size)))
    case StealStoreEnd =>
      var t := q.lock.thief;
      q.(end := t.init - t.size, lock := ByThief(StealStored(t.init, t.size)))
    case StealTestBeg =>
      var t := q.lock.thief;
      var locEnd := t.init - t.size;
      if locEnd < q.beg then q.(lock := ByThief(StealConflict(t.init)))
      else q.(lock := ByThief(StealWon(Range(locEnd, locEnd + t.size))))
    case StealRestore => q.(end := q.lock.thief.init, lock := ByThief(StealFailed))
    case StealUnlock =>
      if q.lock.thief.StealFailed? then q.(lock := Free)
      else q.(lock := Free, stolen := q.stolen + [q.lock.thief.r])
  }

  /** The state after a whole interleaving, if every action was enabled in turn. */
  datatype Outcome = Stuck | Reached(q: Queue)

  function Exec(q: Queue, run: seq<Action>): Outcome {
    if run == [] then Reached(q)
    else
      var o := Exec(q, run[..|run| - 1]);
      if o.Reached? && Enabled(o.q, run[|run| - 1]) then Reached(Step(o.q, run[|run| - 1])) else Stuck
  }

  // ----- the simple queue this protocol refines -----

  /** Front of the work nobody has been given: a pop in progress has already moved beg. */
  function Lo(q: Queue): int {
    if q.owner.PopStored? || q.owner.PopConflict? then q.owner.init else q.beg
  }

  /** Back of the work nobody has been given: a steal in progress has already moved end. */
  function Hi(q: Queue): int {
    if q.lock.ByThief? && (q.lock.thief.StealStored? || q.lock.thief.StealConflict?) then q.lock.thief.init else q.end
  }

  /** The range an atomic queue would hold. While a refill is between its two writes the
      queue still counts as empty. */
  function Remaining(q: Queue): Range {
    if q.owner.RefillHalf? then Range(q.end, q.end) else Range(Lo(q), Hi(q))
  }

  /** What one action is at the level of the atomic queue. */
  datatype Op = Internal | Popped(r: Range, size: int) | FoundEmpty | Stolen(r: Range, size: int) | Refilled(r: Range)

  function OpOf(q: Queue, a: Action): Op
    requires Enabled(q, a)
  {
    match a
    case PopTest => if q.owner.init + q.owner.size < q.end
      then Popped(Range(q.owner.init, q.owner.init + q.owner.size), q.owner.size) else Internal
    case SlowLoadEnd => if q.end == q.owner.b then FoundEmpty else Internal
    case SlowStore => Popped(Range(q.owner.b, q.owner.b + q.owner.n), q.owner.size)
    case StealTestBeg => if q.lock.thief.init - q.lock.thief.size < q.beg then Internal
      else Stolen(Range(q.lock.thief.init - q.lock.thief.size, q.lock.thief.init), q.lock.thief.size)
    case RefillStoreEnd => Refilled(q.owner.r)
    case _ => Internal
  }

  /** The atomic queue: a pop takes as many iterations as it may from the front, a steal
      exactly the requested size from the back, EBUSY is answered only by an empty queue,
      and only an empty queue is refilled. */
  ghost predicate AtomicStep(r: Range, op: Op, r': Range) {
    match op
    case Internal => r' == r
    case Popped(x, size) => r.lo < r.hi && size > 0 && x == Front(r, size) && r' == AfterFront(r, size)
    case FoundEmpty => r.lo == r.hi && r' == r
    case Stolen(x, size) => 0 < size <= r.hi - r.lo && x == Back(r, size) && r' == BeforeBack(r, size)
    case Refilled(x) => r.lo == r.hi && r' == x
  }

  // ----- invariant -----

  ghost predicate OwnerOk(q: Queue) {
    match q.owner
    case Idle(drained) => drained ==> Lo(q) == Hi(q)
    case PopLoaded(init, size) => q.beg == init && size > 0
    case PopStored(init, size) => q.beg == init + size && size > 0
    case PopConflict(init, size) => q.beg == init + size && size > 0
    case SlowWait(size) => size > 0
    case SlowIn(size) => size > 0
    case SlowLoaded(b, size) => b == q.beg && size > 0
    case SlowTake(b, n, size) => b == q.beg && size > 0 && b < q.end && n == Front(Range(b, q.end), size).hi - b
    case SlowDone(r) => r.lo < r.hi
    case SlowEmpty => q.beg == q.end
    case RefillIn(r) => q.beg == q.end && r.lo <= r.hi
    case RefillHalf(r) => q.beg == r.lo && r.lo <= r.hi
    case RefillDone => true
  }

  ghost predicate ThiefOk(q: Queue)
    requires q.lock.ByThief?
  {
    match q.lock.thief
    case StealIn(size) => size > 0
    case StealLoaded(init, size) => q.end == init && size > 0
    case StealStored(init, size) => q.end == init - size && size > 0
    case StealConflict(init) => q.end < init
    case StealWon(r) => r.lo < r.hi
    case StealFailed => true
  }

  predicate OwnerHoldsLock(o: Owner) {
    o.SlowIn? || o.SlowLoaded? || o.SlowTake? || o.SlowDone? || o.SlowEmpty?
    || o.RefillIn? || o.RefillHalf? || o.RefillDone?
  }

  /** Ranges already taken out of the queue by a call that has not returned yet. */
  function InFlight(q: Queue, p: Probe): nat {
    (if q.owner.SlowDone? then Measure(q.owner.r, p) else 0)
    + (if q.lock.ByThief? && q.lock.thief.StealWon? then Measure(q.lock.thief.r, p) else 0)
  }

  /** What was put in is what came out, plus what is in flight, plus what remains. */
  ghost predicate ConservedAt(q: Queue, p: Probe) {
    Total(q.popped, p) + Total(q.stolen, p) + InFlight(q, p) + Measure(Remaining(q), p) == Total(q.deposited, p)
  }

  ghost predicate Conserved(q: Queue) {
    forall p: Probe :: ConservedAt(q, p)
  }

  ghost predicate Shape(q: Queue) {
    && (q.lock.ByOwner? <==> OwnerHoldsLock(q.owner))
    && OwnerOk(q)
    && (q.lock.ByThief? ==> ThiefOk(q))
    && (!q.owner.RefillHalf? ==> Lo(q) <= Hi(q))
  }

  ghost predicate Inv(q: Queue) {
    Shape(q) && Conserved(q) && AllNonEmpty(q.popped) && AllNonEmpty(q.stolen)
  }

  predicate IsSteal(a: Action) {
    a.StealLock? || a.StealLoadEnd? || a.StealStoreEnd? || a.StealTestBeg? || a.StealRestore? || a.StealUnlock?
  }

  /** Every action keeps the protocol's shape and is one step of the atomic queue. */
  lemma StepRefinesAtomicQueue(q: Queue, a: Action)
    requires Shape(q) && Enabled(q, a)
    ensures Shape(Step(q, a))
    ensures AtomicStep(Remaining(q), OpOf(q, a), Remaining(Step(q, a)))
  {
    if IsSteal(a) {
      ThiefStepRefines(q, a);
    } else if IsPop(a) {
      PopStepRefines(q, a);
    } else if IsRefill(a) {
      RefillStepRefines(q, a);
    } else {
      SlowStepRefines(q, a);
    }
  }

  predicate IsPop(a: Action) {
    a.PopLoad? || a.PopStore? || a.PopTest? || a.PopRestore?
  }

  predicate IsRefill(a: Action) {
    a.RefillLock? || a.RefillStoreBeg? || a.RefillStoreEnd? || a.RefillUnlock?
  }

  lemma PopStepRefines(q: Queue, a: Action)
    requires Shape(q) && Enabled(q, a) && IsPop(a)
    ensures Shape(Step(q, a))
    ensures AtomicStep(Remaining(q), OpOf(q, a), Remaining(Step(q, a)))
  {
  }

  lemma RefillStepRefines(q: Queue, a: Action)
    requires Shape(q) && Enabled(q, a) && IsRefill(a)
    ensures Shape(Step(q, a))
    ensures AtomicStep(Remaining(q), OpOf(q, a), Remaining(Step(q, a)))
  {
  }

  lemma SlowStepRefines(q: Queue, a: Action)
    requires Shape(q) && Enabled(q, a) && !IsSteal(a) && !IsPop(a) && !IsRefill(a)
    ensures Shape(Step(q, a))
    ensures AtomicStep(Remaining(q), OpOf(q, a), Remaining(Step(q, a)))
  {
  }

  lemma ThiefStepRefines(q: Queue, a: Action)
    requires Shape(q) && Enabled(q, a) && IsSteal(a)
    ensures Shape(Step(q, a))
    ensures AtomicStep(Remaining(q), OpOf(q, a), Remaining(Step(q, a)))
  {
  }

  /** Actions that neither return a range, nor take one out, nor put one in. */
  predicate IsQuiet(a: Action) {
    !a.PopTest? && !a.SlowStore? && !a.SlowUnlock? && !a.StealTestBeg? && !a.StealUnlock? && !a.RefillStoreEnd?
  }

  lemma QuietStep(q: Queue, a: Action, p: Probe)
    requires Shape(q) && Enabled(q, a) && IsQuiet(a)
    ensures var q' := Step(q, a);
      q'.popped == q.popped && q'.stolen == q.stolen && q'.deposited == q.deposited
      && InFlight(q', p) == InFlight(q, p) && Remaining(q') == Remaining(q)
  {
    StepRefinesAtomicQueue(q, a);
  }

  /** Every action conserves work: rollbacks neither lose nor duplicate any. */
  lemma StepConserves(q: Queue, a: Action, p: Probe)
    requires Shape(q) && Enabled(q, a) && ConservedAt(q, p)
    ensures ConservedAt(Step(q, a), p)
  {
    var q' := Step(q, a);
    if IsQuiet(a) {
      QuietStep(q, a, p);
    } else {
      StepRefinesAtomicQueue(q, a);
      AtomicMeasure(Remaining(q), OpOf(q, a), Remaining(q'), p);
      HistoryStep(q, a, p);
    }
  }

  function Taken(op: Op, p: Probe): nat {
    if op.Popped? || op.Stolen? then Measure(op.r, p) else 0
  }

  function Added(op: Op, p: Probe): nat {
    if op.Refilled? then Measure(op.r, p) else 0
  }

  lemma AtomicMeasure(r: Range, op: Op, r': Range, p: Probe)
    requires AtomicStep(r, op, r')
    ensures Measure(r', p) + Taken(op, p) == Measure(r, p) + Added(op, p)
  {
  }

  /** What an operation takes out of the queue is in flight or already returned. */
  ghost predicate Flows(q: Queue, op: Op, q': Queue, p: Probe) {
    && Total(q'.popped, p) + Total(q'.stolen, p) + InFlight(q', p)
       == Total(q.popped, p) + Total(q.stolen, p) + InFlight(q, p) + Taken(op, p)
    && Total(q'.deposited, p) == Total(q.deposited, p) + Added(op, p)
  }

  /** One more range popped: it was in flight, or is taken now. */
  lemma FlowPopped(q: Queue, op: Op, q': Queue, r: Range, p: Probe)
    requires q'.popped == q.popped + [r] && q'.stolen == q.stolen && q'.deposited == q.deposited
    requires InFlight(q', p) + Measure(r, p) == InFlight(q, p) + Taken(op, p) && Added(op, p) == 0
    ensures Flows(q, op, q', p)
  {
    TotalAppend(q.popped, r, p);
  }

  lemma FlowStolen(q: Queue, op: Op, q': Queue, r: Range, p: Probe)
    requires q'.popped == q.popped && q'.stolen == q.stolen + [r] && q'.deposited == q.deposited
    requires InFlight(q', p) + Measure(r, p) == InFlight(q, p) + Taken(op, p) && Added(op, p) == 0
    ensures Flows(q, op, q', p)
  {
    TotalAppend(q.stolen, r, p);
  }

  lemma FlowAdded(q: Queue, q': Queue, r: Range, p: Probe)
    requires q'.popped == q.popped && q'.stolen == q.stolen && q'.deposited == q.deposited + [r] && InFlight(q', p) == InFlight(q, p)
    ensures Flows(q, Refilled(r), q', p)
  {
    TotalAppend(q.deposited, r, p);
  }

  lemma FlowSame(q: Queue, op: Op, q': Queue, p: Probe)
    requires q'.popped == q.popped && q'.stolen == q.stolen && q'.deposited == q.deposited
    requires InFlight(q', p) == InFlight(q, p) + Taken(op, p) && Added(op, p) == 0
    ensures Flows(q, op, q', p)
  {
  }

  lemma OwnerHistory(q: Queue, a: Action, p: Probe)
    requires Shape(q) && Enabled(q, a) && (a.PopTest? || a.SlowStore? || a.SlowUnlock? || a.RefillStoreEnd?)
    ensures Flows(q, OpOf(q, a), Step(q, a), p)
  {
    var op, q' := OpOf(q, a), Step(q, a);
    if a.PopTest? && op.Popped? {
      FlowPopped(q, op, q', op.r, p);
    } else if a.SlowUnlock? && q.owner.SlowDone? {
      FlowPopped(q, op, q', q.owner.r, p);
    } else if a.RefillStoreEnd? {
      FlowAdded(q, q', q.owner.r, p);
    } else {
      FlowSame(q, op, q', p);
    }
  }

  lemma ThiefHistory(q: Queue, a: Action, p: Probe)
    requires Shape(q) && Enabled(q, a) && (a.StealTestBeg? || a.StealUnlock?)
    ensures Flows(q, OpOf(q, a), Step(q, a), p)
  {
    var op, q' := OpOf(q, a), Step(q, a);
    if a.StealUnlock? && q.lock.thief.StealWon? {
      FlowStolen(q, op, q', q.lock.thief.r, p);
    } else {
      FlowSame(q, op, q', p);
    }
  }

  lemma HistoryStep(q: Queue, a: Action, p: Probe)
    requires Shape(q) && Enabled(q, a) && !IsQuiet(a)
    ensures Flows(q, OpOf(q, a), Step(q, a), p)
  {
    if a.StealTestBeg? || a.StealUnlock? {
      ThiefHistory(q, a, p);
    } else {
      OwnerHistory(q, a, p);
    }
  }

  /** Calls only return non-empty ranges. */
  lemma StepReturnsNonEmpty(q: Queue, a: Action)
    requires Shape(q) && Enabled(q, a) && AllNonEmpty(q.popped) && AllNonEmpty(q.stolen)
    ensures AllNonEmpty(Step(q, a).popped) && AllNonEmpty(Step(q, a).stolen)
  {
  }

  /** The invariant holds after every interleaving of pops, steals and refills. */
  lemma {:induction false} RunKeepsInvariant(r: Range, run: seq<Action>)
    requires r.lo <= r.hi && Exec(Init(r), run).Reached?
    ensures Inv(Exec(Init(r), run).q)
  {
    if run == [] {
      assert [r][..0] == [];
    } else {
      RunKeepsInvariant(r, run[..|run| - 1]);
      var q := Exec(Init(r), run[..|run| - 1]).q;
      var a := run[|run| - 1];
      StepRefinesAtomicQueue(q, a);
      StepReturnsNonEmpty(q, a);
      var q' := Step(q, a);
      forall p: Probe ensures ConservedAt(q', p) {
        StepConserves(q, a, p);
      }
    }
  }

  /** THE queue safety. Over any interleaving starting with the work r and without refill,
      the ranges the calls returned are non-empty, pairwise disjoint and inside r; when no
      call is in progress they make up, with what [beg, end) still holds, exactly r; slow
      pop never sees a negative size; and EBUSY means nothing is left. */
  lemma QueueSafety(r: Range, run: seq<Action>)
    requires r.lo <= r.hi && Exec(Init(r), run).Reached?
    requires forall k :: 0 <= k < |run| ==> !run[k].RefillLock?
    ensures
      var q := Exec(Init(r), run).q;
      var returned := q.popped + q.stolen;
      && AllNonEmpty(returned)
      && (forall j, k :: 0 <= j < k < |returned| ==> Disjoint(returned[j], returned[k]))
      && (forall k :: 0 <= k < |returned| ==> r.lo <= returned[k].lo && returned[k].hi <= r.hi)
      && (q.owner.Idle? && q.lock.Free? ==>
            q.beg <= q.end && ExactlyOnce(returned + [Range(q.beg, q.end)], r.lo, r.hi))
      && (q.owner.SlowLoaded? ==> q.end - q.owner.b >= 0)
      && (q.owner == Idle(true) && q.lock.Free? ==> q.beg == q.end)
  {
    RunKeepsInvariant(r, run);
    NoRefillKeepsDeposit(r, run);
    var q := Exec(Init(r), run).q;
    forall p: Probe ensures Total([r], p) == Measure(r, p) {
      TotalAppend([], r, p);
      assert [] + [r] == [r];
    }
    InvSafety(r, q);
  }

  lemma InvSafety(r: Range, q: Queue)
    requires Inv(q) && (forall p: Probe :: Total(q.deposited, p) == Measure(r, p)) && !q.owner.RefillHalf?
    ensures
      var returned := q.popped + q.stolen;
      && AllNonEmpty(returned)
      && (forall j, k :: 0 <= j < k < |returned| ==> Disjoint(returned[j], returned[k]))
      && (forall k :: 0 <= k < |returned| ==> r.lo <= returned[k].lo && returned[k].hi <= r.hi)
      && (q.owner.Idle? && q.lock.Free? ==> ExactlyOnce(returned + [Range(q.beg, q.end)], r.lo, r.hi))
  {
    var returned := q.popped + q.stolen;
    forall i ensures Total(returned, At(i)) <= Measure(r, At(i)) <= 1 {
      TotalConcat(q.popped, q.stolen, At(i));
      assert ConservedAt(q, At(i));
    }
    AtMostOnceMeansDisjoint(returned);
    forall k | 0 <= k < |returned| ensures r.lo <= returned[k].lo && returned[k].hi <= r.hi {
      TotalAtLeast(returned, k, At(returned[k].lo));
      TotalAtLeast(returned, k, At(returned[k].hi - 1));
    }
    if q.owner.Idle? && q.lock.Free? {
      forall i ensures Total(returned + [Range(q.beg, q.end)], At(i)) == Measure(r, At(i)) {
        TotalAppend(returned, Range(q.beg, q.end), At(i));
        TotalConcat(q.popped, q.stolen, At(i));
        assert ConservedAt(q, At(i));
      }
    }
  }

  lemma {:induction false} NoRefillKeepsDeposit(r: Range, run: seq<Action>)
    requires Exec(Init(r), run).Reached?
    requires forall k :: 0 <= k < |run| ==> !run[k].RefillLock?
    ensures Exec(Init(r), run).q.deposited == [r]
    ensures var o := Exec(Init(r), run).q.owner; !o.RefillIn? && !o.RefillHalf? && !o.RefillDone?
  {
    if run != [] {
      NoRefillKeepsDeposit(r, run[..|run| - 1]);
    }
  }

  // ----- what a call answers -----

  /** A steal fails exactly when, at its test, fewer iterations than it asked for lie between
      beg and the end it found; a pop needs the slow path exactly when no more than it asked for
      lie between the beg it found and end. */
  lemma TestsExactly(q: Queue, a: Action)
    requires Shape(q) && Enabled(q, a)
    ensures a.StealTestBeg? ==> var t, l := q.lock.thief, Step(q, a).lock;
      l.ByThief? && (if Hi(q) - q.beg < t.size then l.thief.StealConflict? else l.thief == StealWon(Range(Hi(q) - t.size, Hi(q))))
    ensures a.PopTest? ==> var o, o' := q.owner, Step(q, a).owner;
      if q.end - Lo(q) <= o.size then o'.PopConflict? else o' == Idle(false)
  {
  }

  lemma Then(q: Queue, run: seq<Action>, a: Action)
    requires Exec(q, run).Reached? && Enabled(Exec(q, run).q, a)
    ensures Exec(q, run + [a]) == Reached(Step(Exec(q, run).q, a))
  {
    assert (run + [a])[..|run|] == run;
  }

  /** Nobody is in a call. */
  ghost predicate Quiet(q: Queue) {
    Shape(q) && q.owner.Idle? && q.lock.Free?
  }

  /** The answer of a steal of size: exactly that much from the back, or nothing. */
  ghost predicate StealAnswer(q: Queue, size: int, q': Queue) {
    && Quiet(q') && q'.owner == q.owner && q'.popped == q.popped
    && (if size <= q.end - q.beg
        then q'.stolen == q.stolen + [Back(Remaining(q), size)] && Remaining(q') == BeforeBack(Remaining(q), size)
        else q'.stolen == q.stolen && Remaining(q') == Remaining(q))
  }

  /** The answer of a pop of at most size: the front, or that the queue is empty. */
  ghost predicate PopAnswer(q: Queue, size: int, q': Queue) {
    && Quiet(q') && q'.stolen == q.stolen
    && (if q.beg < q.end
        then q'.popped == q.popped + [Front(Remaining(q), size)] && Remaining(q') == AfterFront(Remaining(q), size)
        else q'.popped == q.popped && q'.owner == Idle(true) && Remaining(q') == Remaining(q))
  }

  lemma StealToTest(q: Queue, size: int) returns (run: seq<Action>)
    requires Quiet(q) && size > 0
    ensures Exec(q, run) == Reached(q.(end := q.end - size, lock := ByThief(StealStored(q.end, size))))
  {
    run := [];
    Then(q, run, StealLock(size));
    run := run + [StealLock(size)];
    Then(q, run, StealLoadEnd);
    run := run + [StealLoadEnd];
    Then(q, run, StealStoreEnd);
    run := run + [StealStoreEnd];
  }

  /** An undisturbed steal gets what it asks for whenever there is that much. */
  lemma SoloSteal(q: Queue, size: int) returns (run: seq<Action>)
    requires Quiet(q) && size > 0
    ensures Exec(q, run).Reached? && StealAnswer(q, size, Exec(q, run).q)
  {
    run := StealToTest(q, size);
    Then(q, run, StealTestBeg);
    run := run + [StealTestBeg];
    if size > q.end - q.beg {
      Then(q, run, StealRestore);
      run := run + [StealRestore];
      assert Exec(q, run) == Reached(q.(lock := ByThief(StealFailed)));
    } else {
      assert Exec(q, run) == Reached(q.(end := q.end - size, lock := ByThief(StealWon(Range(q.end - size, q.end)))));
    }
    Then(q, run, StealUnlock);
    run := run + [StealUnlock];
  }

  lemma RefillToEnd(q: Queue, r: Range) returns (run: seq<Action>)
    requires Quiet(q) && q.owner == Idle(true) && r.lo <= r.hi
    ensures Exec(q, run) == Reached(q.(beg := r.lo, lock := ByOwner, owner := RefillHalf(r)))
  {
    run := [];
    Then(q, run, RefillLock(r));
    run := run + [RefillLock(r)];
    Then(q, run, RefillStoreBeg);
    run := run + [RefillStoreBeg];
  }

  /** An undisturbed refill of a queue found empty puts the new range in. */
  lemma SoloRefill(q: Queue, r: Range) returns (run: seq<Action>)
    requires Quiet(q) && q.owner == Idle(true) && r.lo <= r.hi
    ensures Exec(q, run).Reached?
    ensures var q' := Exec(q, run).q; Quiet(q') && Remaining(q') == r && q'.popped == q.popped && q'.stolen == q.stolen
  {
    run := RefillToEnd(q, r);
    Then(q, run, RefillStoreEnd);
    run := run + [RefillStoreEnd];
    assert Exec(q, run) == Reached(q.(beg := r.lo, end := r.hi, lock := ByOwner, owner := RefillDone, deposited := q.deposited + [r]));
    Then(q, run, RefillUnlock);
    run := run + [RefillUnlock];
  }

  /** An undisturbed pop gets the front of at most size whenever the queue is not empty. */
  lemma SoloPop(q: Queue, size: int) returns (run: seq<Action>)
    requires Quiet(q) && size > 0
    ensures Exec(q, run).Reached? && PopAnswer(q, size, Exec(q, run).q)
  {
    run := [];
    Then(q, run, PopLoad(size));
    run := run + [PopLoad(size)];
    Then(q, run, PopStore);
    run := run + [PopStore];
    assert Exec(q, run) == Reached(q.(beg := q.beg + size, owner := PopStored(q.beg, size)));
    Then(q, run, PopTest);
    run := run + [PopTest];
    if q.beg + size >= q.end {
      Then(q, run, PopRestore);
      run := run + [PopRestore];
      assert Exec(q, run) == Reached(q.(owner := SlowWait(size)));
      run := SoloSlowPop(q, run, size);
    }
  }

  lemma SlowToSize(q: Queue, past: seq<Action>, size: int) returns (run: seq<Action>)
    requires Quiet(q) && size > 0 && Exec(q, past) == Reached(q.(owner := SlowWait(size)))
    ensures Exec(q, run) == Reached(q.(lock := ByOwner, owner := SlowLoaded(q.beg, size)))
  {
    run := past;
    Then(q, run, SlowLock);
    run := run + [SlowLock];
    Then(q, run, SlowLoadBeg);
    run := run + [SlowLoadBeg];
  }

  lemma SoloSlowPop(q: Queue, past: seq<Action>, size: int) returns (run: seq<Action>)
    requires Quiet(q) && size > 0 && Exec(q, past) == Reached(q.(owner := SlowWait(size)))
    ensures Exec(q, run).Reached? && PopAnswer(q, size, Exec(q, run).q)
  {
    run := SlowToSize(q, past, size);
    Then(q, run, SlowLoadEnd);
    run := run + [SlowLoadEnd];
    if q.beg < q.end {
      var r := Front(Remaining(q), size);
      Then(q, run, SlowStore);
      run := run + [SlowStore];
      assert Exec(q, run) == Reached(q.(beg := r.hi, lock := ByOwner, owner := SlowDone(r)));
    } else {
      assert Exec(q, run) == Reached(q.(lock := ByOwner, owner := SlowEmpty));
    }
    Then(q, run, SlowUnlock);
    run := run + [SlowUnlock];
  }
}

/** The queue object as one thread drives it when nobody interferes. */
module WorkQueueObject {
  import opened Ranges

  /** Success, EBUSY, ERANGE, and ESRCH for a queue without a lock. */
  datatype Status = Ok | Busy | OutOfRange | NoLock

  class WorkQueue {
    var beg: int
    var end: int
    const hasLock: bool

    ghost predicate Valid()
      reads this
    {
      beg <= end
    }

    function Contents(): Range
      reads this
    {
      Range(beg, end)
    }

    constructor (b: int, e: int, withLock: bool)
      requires b <= e
      ensures Valid() && Contents() == Range(b, e) && hasLock == withLock
    {
      beg, end := b, e;
      hasLock := withLock;
    }

    method Size() returns (n: int)
      ensures n == Measure(Contents(), Count)
    {
      var size := end - beg;
      n := if size < 0 then 0 else size;
    }

    /** Slow path, taken under the lock if there is one. */
    method SlowPop(maxSize: int) returns (status: Status, b: int, e: int)
      requires Valid() && maxSize > 0
      modifies this
      ensures Valid()
      ensures status == NoLock <==> !hasLock
      ensures status == Busy <==> hasLock && old(beg == end)
      ensures status != Ok ==> Contents() == old(Contents())
      ensures status == Ok ==> Range(b, e) == Front(old(Contents()), maxSize)
                               && b < e && Contents() == AfterFront(old(Contents()), maxSize)
      ensures status != OutOfRange
    {
      b, e := 0, 0;
      if !hasLock {
        return NoLock, b, e;
      }
      var locBeg := beg;
      var size := end - locBeg;
      if size == 0 {
        return Busy, b, e;
      }
      if size > maxSize {
        size := maxSize;
      }
      locBeg := locBeg + size;
      beg := locBeg;
      e := locBeg;
      b := e - size;
      status := Ok;
    }

    /** Fast path, falling back to the slow one when the queue is about to run out: only then
        is the lock needed. */
    method Pop(maxSize: int) returns (status: Status, b: int, e: int)
      requires Valid() && maxSize > 0
      modifies this
      ensures Valid()
      ensures status == NoLock <==> !hasLock && old(end - beg) <= maxSize
      ensures status == Busy <==> hasLock && old(beg == end)
      ensures status != Ok ==> Contents() == old(Contents())
      ensures status == Ok ==> Range(b, e) == Front(old(Contents()), maxSize)
                               && b < e && Contents() == AfterFront(old(Contents()), maxSize)
      ensures status != OutOfRange
    {
      var locBeg := beg;
      var locInit := locBeg;
      locBeg := locBeg + maxSize;
      beg := locBeg;
      if locBeg < end {
        e := locBeg;
        b := locBeg - maxSize;
        return Ok, b, e;
      }
      beg := locInit;
      status, b, e := SlowPop(maxSize);
    }

    method Steal(size: int) returns (status: Status, b: int, e: int)
      requires Valid() && size > 0
      modifies this
      ensures Valid()
      ensures status == OutOfRange <==> old(end - beg) < size
      ensures status == OutOfRange ==> Contents() == old(Contents())
      ensures status != OutOfRange ==> status == Ok && Range(b, e) == Back(old(Contents()), size)
                                       && b < e && Contents() == BeforeBack(old(Contents()), size)
    {
      b, e := 0, 0;
      var locEnd := end;
      var locInit := locEnd;
      locEnd := locEnd - size;
      end := locEnd;
      if locEnd < beg {
        end := locInit;
        return OutOfRange, b, e;
      }
      b := locEnd;
      e := locEnd + size;
      status := Ok;
    }
  }
}
