/** The adaptive loop over the real queues: local pops, steals and refills are the single accesses
    of TheQueue, interleaved with the loop's own steps. Every run simulates a run of ForeachLoop,
    so the loop's results hold over the lock-free protocol. */
module ForeachQueues {
  import opened Ranges
  import opened ForeachLoop
  import opened ForeachProof
  import T = TheQueue

  /** Who is stealing from a queue under its lock: an idle worker, or the victim's splitter. */
  datatype Agent = Nobody | Thief(u: nat) | Splitter

  /** The queue fields of s are not used: the queues are qs. */
  datatype World = World(s: State, qs: seq<T.Queue>, holder: seq<Agent>)

  datatype Event = Loop(a: Action) | Queue(t: nat, qa: T.Action, agent: Agent)

  predicate Sized(w: World) {
    |w.qs| == |w.s.ws| == |w.holder|
  }

  function WithQueue(x: Thread, q: T.Queue): Thread {
    x.(q := T.Remaining(q))
  }

  /** The loop as ForeachLoop sees it: each queue is the range an atomic queue would hold. */
  function Abs(w: World): State
    requires Sized(w)
  {
    w.s.(ws := seq(|w.s.ws|, t requires 0 <= t < |w.s.ws| => WithQueue(w.s.ws[t], w.qs[t])))
  }

  // ----- steps -----

  predicate NeedsRefill(c: Config, pc: Pc) {
    pc.Got? && pc.r.hi - pc.r.lo > c.seqGrain
  }

  /** Thread u is stealing from some queue. */
  predicate HoldsLock(w: World, u: nat) {
    exists v :: 0 <= v < |w.holder| && w.holder[v] == Thief(u)
  }

  /** Actions of the loop that are not made of queue accesses, by threads that are in none. */
  predicate LoopOk(c: Config, w: World, a: Action)
    requires Sized(w)
  {
    if a.Own? then
      && a.t < |w.s.ws| && w.qs[a.t].owner.Idle? && !HoldsLock(w, a.t)
      && !w.s.ws[a.t].pc.PopLocal? && !w.s.ws[a.t].pc.Steal? && !NeedsRefill(c, w.s.ws[a.t].pc)
    else
      a.v < |w.holder| && w.holder[a.v] != Splitter && !a.SplitSteal?
  }

  /** Who may do what to queue t. */
  predicate QueueOk(c: Config, w: World, t: nat, qa: T.Action, agent: Agent)
    requires Sized(w)
  {
    && t < |w.qs| && T.Enabled(w.qs[t], qa)
    && match qa
       case PopLoad(size) => w.s.ws[t].pc.PopLocal? && size == c.seqGrain
       case RefillLock(r) => NeedsRefill(c, w.s.ws[t].pc) && r == AfterFront(w.s.ws[t].pc.r, c.seqGrain) && !HoldsLock(w, t)
       case StealLock(size) => CanSteal(w, t, size, agent)
       case _ => T.IsSteal(qa) ==> w.holder[t] == agent
  }

  predicate CanSteal(w: World, t: nat, size: int, agent: Agent)
    requires Sized(w) && t < |w.qs|
  {
    match agent
    case Nobody => false
    case Thief(u) => u < |w.s.ws| && u != t && w.s.ws[u].pc == Steal(t, size)
        && !HoldsLock(w, u)
    case Splitter => w.s.ws[t].split.Cut? && w.s.ws[t].split.nreq * w.s.ws[t].split.unit == size
  }

  /** A queue that the loop writes outside the protocol is set anew. */
  function Requeue(q: T.Queue, r: Range): T.Queue {
    if T.Remaining(q) == r then q else T.Init(r)
  }

  /** What the return of a queue operation does to the loop, from the range it returned. */
  function Returned(c: Config, w: World, t: nat, op: T.Op, failed: bool, agent: Agent): State
    requires Sized(w) && t < |w.qs|
  {
    var x := w.s.ws[t];
    match op
    case Popped(r, _) => Put(w.s, t, x.(workdone := x.workdone + (r.hi - r.lo), pc := Body(r)))
    case FoundEmpty => Put(w.s, t, x.(pc := Drained))
    case Refilled(_) =>
      if x.pc.Got? then
        Put(w.s, t, x.(init := true, workdone := x.workdone + c.seqGrain, pc := Body(Front(x.pc.r, c.seqGrain)), mode := Inside))
      else w.s
    case Stolen(r, _) =>
      if agent.Thief? && agent.u < |w.s.ws| then Put(w.s, agent.u, w.s.ws[agent.u].(pc := Got(r)))
      else if agent.Splitter? && x.split.Cut? then
        Put(w.s, t, x.(split := Deal(x.split.reqs, x.split.nreq, x.split.unit, r)))
      else w.s
    case Internal =>
      if !failed then w.s
      else if agent.Thief? && agent.u < |w.s.ws| then Put(w.s, agent.u, w.s.ws[agent.u].(pc := Select))
      else if agent.Splitter? && x.split.Cut? then Put(w.s, t, x.(split := Closing(x.split.reqs)))
      else w.s
  }

  function Put(s: State, t: nat, x: Thread): State
    requires t < |s.ws|
  {
    s.(ws := s.ws[t := x])
  }

  predicate Fails(q: T.Queue, qa: T.Action) {
    qa.StealUnlock? && q.lock.ByThief? && q.lock.thief.StealFailed?
  }

  function HeldBy(was: Agent, qa: T.Action, agent: Agent): Agent {
    if qa.StealLock? then agent else if qa.StealUnlock? then Nobody else was
  }

  predicate EventOk(c: Config, w: World, e: Event)
    requires Sized(w) && ValidConfig(c)
  {
    match e
    case Loop(a) => LoopOk(c, w, a) && Enabled(c, Abs(w), a)
    case Queue(t, qa, agent) => QueueOk(c, w, t, qa, agent)
  }

  function Next(c: Config, w: World, e: Event): (w': World)
    requires Sized(w) && ValidConfig(c) && EventOk(c, w, e)
    ensures Sized(w')
  {
    match e
    case Loop(a) =>
      var s' := Step(c, Abs(w), a);
      World(s', seq(|w.qs|, t requires 0 <= t < |w.qs| && |s'.ws| == |w.qs| => Requeue(w.qs[t], s'.ws[t].q)), w.holder)
    case Queue(t, qa, agent) =>
      World(Returned(c, w, t, T.OpOf(w.qs[t], qa), Fails(w.qs[t], qa), agent),
            w.qs[t := T.Step(w.qs[t], qa)], w.holder[t := HeldBy(w.holder[t], qa, agent)])
  }

  // ----- coupling -----

  /** Where the loop's thread is while its queue's owner is inside a call. */
  predicate OwnerAgrees(c: Config, x: Thread, o: T.Owner) {
    match o
    case Idle(drained) => x.mode == Inside && HasDrained(x.pc) ==> drained
    case PopLoaded(_, size) => x.pc.PopLocal? && size == c.seqGrain
    case PopStored(_, size) => x.pc.PopLocal? && size == c.seqGrain
    case PopConflict(_, size) => x.pc.PopLocal? && size == c.seqGrain
    case SlowWait(size) => x.pc.PopLocal? && size == c.seqGrain
    case SlowIn(size) => x.pc.PopLocal? && size == c.seqGrain
    case SlowLoaded(_, size) => x.pc.PopLocal? && size == c.seqGrain
    case SlowTake(_, _, size) => x.pc.PopLocal? && size == c.seqGrain
    case SlowDone(_) => x.pc.Body?
    case SlowEmpty => x.pc.Drained?
    case RefillIn(r) => NeedsRefill(c, x.pc) && r == AfterFront(x.pc.r, c.seqGrain)
    case RefillHalf(r) => NeedsRefill(c, x.pc) && r == AfterFront(x.pc.r, c.seqGrain)
    case RefillDone => x.pc.Body?
  }

  /** After its queue was found empty, and before the next piece is in hand. */
  predicate HasDrained(pc: Pc) {
    pc.Drained? || pc.Sub? || pc.Next? || InPop(pc) || InSteal(pc) || pc.Got?
  }

  /** What the thief that holds the lock of a queue is after: n iterations, or done. */
  predicate SizeAgrees(th: T.Thief, n: int) {
    match th
    case StealIn(size) => size == n
    case StealLoaded(_, size) => size == n
    case StealStored(_, size) => size == n
    case StealConflict(_) => true
    case StealFailed => true
    case StealWon(_) => false
  }

  predicate Joined(x: Thread) {
    !x.pc.Outside? && !x.pc.Waiting?
  }

  /** The thief u, at y, that holds the lock of another thread's queue. */
  predicate ThiefAgrees(t: nat, th: T.Thief, y: Thread) {
    if th.StealWon? then y.pc.Got? else y.pc.Steal? && y.pc.v == t && SizeAgrees(th, y.pc.n)
  }

  predicate SplitterAgrees(th: T.Thief, sp: Split) {
    if th.StealWon? then sp.Deal? else sp.Cut? && SizeAgrees(th, sp.nreq * sp.unit)
  }

  predicate AgentAgrees(ws: seq<Thread>, t: nat, lock: T.Lock, agent: Agent)
    requires t < |ws|
  {
    match agent
    case Nobody => !lock.ByThief?
    case Thief(u) => lock.ByThief? && Joined(ws[t]) && u < |ws| && u != t && ThiefAgrees(t, lock.thief, ws[u])
    case Splitter => lock.ByThief? && Joined(ws[t]) && SplitterAgrees(lock.thief, ws[t].split)
  }

  ghost predicate QueueAgrees(c: Config, w: World, t: nat)
    requires Sized(w) && t < |w.qs|
  {
    && T.Shape(w.qs[t]) && OwnerAgrees(c, w.s.ws[t], w.qs[t].owner)
    && AgentAgrees(w.s.ws, t, w.qs[t].lock, w.holder[t])
    && (w.holder[t].Thief? && w.holder[t].u < |w.qs| ==> w.qs[w.holder[t].u].owner.Idle?)
  }

  /** Work is taken only from threads that have joined the loop. */
  ghost predicate VictimJoined(ws: seq<Thread>, u: nat)
    requires u < |ws|
  {
    && (ws[u].pc.Steal? ==> ws[u].pc.v < |ws| && Joined(ws[ws[u].pc.v]))
    && (!ws[u].split.NoSplit? ==> Joined(ws[u]))
  }

  ghost predicate Coupled(c: Config, w: World) {
    && Sized(w)
    && (forall t: nat :: t < |w.s.ws| ==> VictimJoined(w.s.ws, t))
    && (forall t: nat :: t < |w.qs| ==> QueueAgrees(c, w, t))
  }

  lemma AbsAt(w: World, t: nat)
    requires Sized(w) && t < |w.s.ws|
    ensures |Abs(w).ws| == |w.s.ws| && Abs(w).ws[t] == WithQueue(w.s.ws[t], w.qs[t])
  {
  }

  // ----- queue events -----

  /** A thread written by a queue event, in the loop over atomic queues. */
  lemma AbsPut(w: World, t: nat, x: Thread, q: T.Queue, holder: seq<Agent>, u: nat)
    requires Sized(w) && t < |w.s.ws| && u < |w.s.ws| && |holder| == |w.holder|
    ensures var w' := World(Put(w.s, u, x), w.qs[t := q], holder);
      Abs(w') == Abs(w).(ws := Abs(w).ws[t := WithQueue(w.s.ws[t], q)][u := if u == t then WithQueue(x, q) else WithQueue(x, w.qs[u])])
  {
    var w' := World(Put(w.s, u, x), w.qs[t := q], holder);
    assert Abs(w').ws == Abs(w).ws[t := WithQueue(w.s.ws[t], q)][u := if u == t then WithQueue(x, q) else WithQueue(x, w.qs[u])];
  }

  lemma AbsSame(w: World, t: nat, q: T.Queue, holder: seq<Agent>)
    requires Sized(w) && t < |w.qs| && |holder| == |w.holder| && T.Remaining(q) == T.Remaining(w.qs[t])
    ensures Abs(World(w.s, w.qs[t := q], holder)) == Abs(w)
  {
    assert Abs(World(w.s, w.qs[t := q], holder)).ws == Abs(w).ws;
  }

  /** Where the loop is when an operation takes effect. */
  lemma OpFacts(c: Config, w: World, t: nat, qa: T.Action, agent: Agent)
    requires Coupled(c, w) && QueueOk(c, w, t, qa, agent)
    ensures var op, x := T.OpOf(w.qs[t], qa), w.s.ws[t];
      && (op.Popped? ==> x.pc.PopLocal? && op.size == c.seqGrain)
      && (op.FoundEmpty? ==> x.pc.PopLocal?)
      && (op.Refilled? ==> NeedsRefill(c, x.pc) && op.r == AfterFront(x.pc.r, c.seqGrain))
      && (op.Stolen? || Fails(w.qs[t], qa) ==> agent == w.holder[t] && !agent.Nobody?)
      && (op.Stolen? && agent.Thief? ==> agent.u < |w.s.ws| && agent.u != t && w.s.ws[agent.u].pc == Steal(t, op.size))
      && (op.Stolen? && agent.Splitter? ==> x.split.Cut? && x.split.nreq * x.split.unit == op.size)
      && (Fails(w.qs[t], qa) && agent.Thief? ==>
            agent.u < |w.s.ws| && agent.u != t && w.s.ws[agent.u].pc.Steal? && w.s.ws[agent.u].pc.v == t)
      && (Fails(w.qs[t], qa) && agent.Splitter? ==> x.split.Cut?)
  {
    assert QueueAgrees(c, w, t);
  }

  lemma PoppedSim(c: Config, w: World, t: nat, q: T.Queue, holder: seq<Agent>, r: Range)
    requires ValidConfig(c) && Sized(w) && t < |w.qs| && |holder| == |w.holder| && w.s.ws[t].pc.PopLocal?
    requires T.AtomicStep(T.Remaining(w.qs[t]), T.Popped(r, c.seqGrain), T.Remaining(q))
    ensures var s, a := Abs(w), Own(t, 0, 0, false);
      Enabled(c, s, a) && Step(c, s, a) == Abs(World(Returned(c, w, t, T.Popped(r, c.seqGrain), false, Nobody), w.qs[t := q], holder))
  {
    var x := w.s.ws[t];
    AbsAt(w, t);
    AbsPut(w, t, x.(workdone := x.workdone + (r.hi - r.lo), pc := Body(r)), q, holder, t);
  }

  lemma EmptySim(c: Config, w: World, t: nat, q: T.Queue, holder: seq<Agent>)
    requires ValidConfig(c) && Sized(w) && t < |w.qs| && |holder| == |w.holder| && w.s.ws[t].pc.PopLocal?
    requires T.AtomicStep(T.Remaining(w.qs[t]), T.FoundEmpty, T.Remaining(q))
    ensures var s, a := Abs(w), Own(t, 0, 0, false);
      Enabled(c, s, a) && Step(c, s, a) == Abs(World(Returned(c, w, t, T.FoundEmpty, false, Nobody), w.qs[t := q], holder))
  {
    AbsAt(w, t);
    AbsPut(w, t, w.s.ws[t].(pc := Drained), q, holder, t);
  }

  lemma RefillSim(c: Config, w: World, t: nat, q: T.Queue, holder: seq<Agent>, r: Range)
    requires ValidConfig(c) && Sized(w) && t < |w.qs| && |holder| == |w.holder|
    requires NeedsRefill(c, w.s.ws[t].pc) && r == AfterFront(w.s.ws[t].pc.r, c.seqGrain)
    requires T.AtomicStep(T.Remaining(w.qs[t]), T.Refilled(r), T.Remaining(q))
    ensures var s, a := Abs(w), Own(t, 0, 0, false);
      Enabled(c, s, a) && Step(c, s, a) == Abs(World(Returned(c, w, t, T.Refilled(r), false, Nobody), w.qs[t := q], holder))
  {
    var x := w.s.ws[t];
    AbsAt(w, t);
    AbsPut(w, t, x.(init := true, workdone := x.workdone + c.seqGrain, pc := Body(Front(x.pc.r, c.seqGrain)), mode := Inside), q, holder, t);
  }

  lemma StolenSim(c: Config, w: World, t: nat, q: T.Queue, holder: seq<Agent>, r: Range, size: int, u: nat)
    requires ValidConfig(c) && Sized(w) && t < |w.qs| && |holder| == |w.holder|
    requires u < |w.s.ws| && u != t && w.s.ws[u].pc == Steal(t, size)
    requires T.AtomicStep(T.Remaining(w.qs[t]), T.Stolen(r, size), T.Remaining(q))
    ensures var s, a := Abs(w), Own(u, 0, 0, true);
      Enabled(c, s, a) && Step(c, s, a) == Abs(World(Returned(c, w, t, T.Stolen(r, size), false, Thief(u)), w.qs[t := q], holder))
  {
    AbsAt(w, t);
    AbsAt(w, u);
    AbsPut(w, t, w.s.ws[u].(pc := Got(r)), q, holder, u);
    var s, a := Abs(w), Own(u, 0, 0, true);
    assert Steals(s, a);
    var x, y := s.ws[u], s.ws[t];
    var x', y' := x.(pc := Got(Back(y.q, size))), y.(q := BeforeBack(y.q, size));
    assert s.ws[t := y'][u := x'] == s.ws[u := x'][t := y'];
  }

  lemma SplitSim(c: Config, w: World, t: nat, q: T.Queue, holder: seq<Agent>, r: Range, size: int)
    requires ValidConfig(c) && Sized(w) && t < |w.qs| && |holder| == |w.holder|
    requires w.s.ws[t].split.Cut? && w.s.ws[t].split.nreq * w.s.ws[t].split.unit == size
    requires T.AtomicStep(T.Remaining(w.qs[t]), T.Stolen(r, size), T.Remaining(q))
    ensures var s, a := Abs(w), SplitSteal(t, true);
      Enabled(c, s, a) && Step(c, s, a) == Abs(World(Returned(c, w, t, T.Stolen(r, size), false, Splitter), w.qs[t := q], holder))
  {
    var x := w.s.ws[t];
    AbsAt(w, t);
    AbsPut(w, t, x.(split := Deal(x.split.reqs, x.split.nreq, x.split.unit, r)), q, holder, t);
  }

  lemma FailSim(c: Config, w: World, t: nat, q: T.Queue, holder: seq<Agent>, agent: Agent) returns (a: Action)
    requires ValidConfig(c) && Sized(w) && t < |w.qs| && |holder| == |w.holder| && T.Remaining(q) == T.Remaining(w.qs[t])
    requires agent.Thief? ==> agent.u < |w.s.ws| && agent.u != t && w.s.ws[agent.u].pc.Steal? && w.s.ws[agent.u].pc.v == t
    requires agent.Splitter? ==> w.s.ws[t].split.Cut?
    requires !agent.Nobody?
    ensures var s := Abs(w);
      Enabled(c, s, a) && Step(c, s, a) == Abs(World(Returned(c, w, t, T.Internal, true, agent), w.qs[t := q], holder))
  {
    AbsAt(w, t);
    if agent.Thief? {
      a := Own(agent.u, 0, 0, false);
      AbsAt(w, agent.u);
      AbsPut(w, t, w.s.ws[agent.u].(pc := Select), q, holder, agent.u);
      assert Abs(w).ws[t := WithQueue(w.s.ws[t], q)] == Abs(w).ws;
    } else {
      a := SplitSteal(t, false);
      AbsPut(w, t, w.s.ws[t].(split := Closing(w.s.ws[t].split.reqs)), q, holder, t);
    }
  }

  /** A queue access is one step of the loop over atomic queues, or invisible to it. */
  lemma QueueSimulates(c: Config, w: World, t: nat, qa: T.Action, agent: Agent) returns (stutter: bool, a: Action)
    requires ValidConfig(c) && Coupled(c, w) && QueueOk(c, w, t, qa, agent)
    ensures var w' := Next(c, w, Queue(t, qa, agent));
      if stutter then Abs(w') == Abs(w) else Enabled(c, Abs(w), a) && Step(c, Abs(w), a) == Abs(w')
  {
    assert QueueAgrees(c, w, t);
    OpFacts(c, w, t, qa, agent);
    T.StepRefinesAtomicQueue(w.qs[t], qa);
    var op, q, holder := T.OpOf(w.qs[t], qa), T.Step(w.qs[t], qa), w.holder[t := HeldBy(w.holder[t], qa, agent)];
    stutter, a := false, Own(t, 0, 0, false);
    match op {
      case Popped(r, size) => PoppedSim(c, w, t, q, holder, r);
      case FoundEmpty => EmptySim(c, w, t, q, holder);
      case Refilled(r) => RefillSim(c, w, t, q, holder, r);
      case Stolen(r, size) =>
        if agent.Thief? {
          a := Own(agent.u, 0, 0, true);
          StolenSim(c, w, t, q, holder, r, size, agent.u);
        } else {
          a := SplitSteal(t, true);
          SplitSim(c, w, t, q, holder, r, size);
        }
      case Internal =>
        if Fails(w.qs[t], qa) {
          a := FailSim(c, w, t, q, holder, agent);
        } else {
          stutter := true;
          AbsSame(w, t, q, holder);
        }
    }
  }

  // ----- the coupling is kept by queue events -----

  /** How a queue event can change a thread. */
  ghost predicate Rewritten(x: Thread, x': Thread) {
    || x' == x
    || (x.pc.PopLocal? && (x'.pc.Body? || x'.pc.Drained?) && x'.split == x.split && x'.mode == x.mode)
    || (x.pc.Got? && x'.pc.Body? && x'.split == x.split)
    || (x.pc.Steal? && (x'.pc.Got? || x'.pc.Select?) && x'.split == x.split && x'.mode == x.mode)
    || (x.split.Cut? && (x'.split.Deal? || x'.split.Closing?) && x'.pc == x.pc && x'.mode == x.mode)
  }

  lemma QueueRewrites(c: Config, w: World, t: nat, qa: T.Action, agent: Agent, k: nat)
    requires ValidConfig(c) && Coupled(c, w) && QueueOk(c, w, t, qa, agent) && k < |w.s.ws|
    ensures Rewritten(w.s.ws[k], Next(c, w, Queue(t, qa, agent)).s.ws[k])
  {
    OpFacts(c, w, t, qa, agent);
  }

  lemma JoinedStays(c: Config, w: World, t: nat, qa: T.Action, agent: Agent, k: nat)
    requires ValidConfig(c) && Coupled(c, w) && QueueOk(c, w, t, qa, agent) && k < |w.s.ws|
    ensures VictimJoined(Next(c, w, Queue(t, qa, agent)).s.ws, k)
  {
    assert VictimJoined(w.s.ws, k);
    QueueRewrites(c, w, t, qa, agent, k);
    if w.s.ws[k].pc.Steal? {
      QueueRewrites(c, w, t, qa, agent, w.s.ws[k].pc.v);
    }
  }

  /** What an owner's access does to the agreement with its thread, the lock staying with whom it was. */
  lemma OwnerEventOwner(c: Config, w: World, t: nat, qa: T.Action, agent: Agent)
    requires ValidConfig(c) && Coupled(c, w) && QueueOk(c, w, t, qa, agent) && !T.IsSteal(qa)
    ensures var w' := Next(c, w, Queue(t, qa, agent)); OwnerAgrees(c, w'.s.ws[t], w'.qs[t].owner)
  {
    assert QueueAgrees(c, w, t);
    OpFacts(c, w, t, qa, agent);
  }

  lemma OwnerEventAgent(c: Config, w: World, t: nat, qa: T.Action, agent: Agent)
    requires ValidConfig(c) && Coupled(c, w) && QueueOk(c, w, t, qa, agent) && !T.IsSteal(qa)
    ensures var w' := Next(c, w, Queue(t, qa, agent)); AgentAgrees(w'.s.ws, t, w'.qs[t].lock, w'.holder[t])
  {
    assert QueueAgrees(c, w, t);
    var w' := Next(c, w, Queue(t, qa, agent));
    QueueRewrites(c, w, t, qa, agent, t);
    OwnerKeepsThief(w.qs[t], qa);
    if w.holder[t].Thief? {
      assert w'.s.ws[w.holder[t].u] == w.s.ws[w.holder[t].u];
    }
  }

  lemma OwnerKeepsThief(q: T.Queue, qa: T.Action)
    requires T.Enabled(q, qa) && T.Shape(q) && !T.IsSteal(qa)
    ensures var l := T.Step(q, qa).lock; (q.lock.ByThief? ==> l == q.lock) && (l.ByThief? ==> l == q.lock)
  {
  }

  lemma OwnerEventAgrees(c: Config, w: World, t: nat, qa: T.Action, agent: Agent)
    requires ValidConfig(c) && Coupled(c, w) && QueueOk(c, w, t, qa, agent) && !T.IsSteal(qa)
    ensures var w' := Next(c, w, Queue(t, qa, agent));
      OwnerAgrees(c, w'.s.ws[t], w'.qs[t].owner) && AgentAgrees(w'.s.ws, t, w'.qs[t].lock, w'.holder[t])
  {
    OwnerEventOwner(c, w, t, qa, agent);
    OwnerEventAgent(c, w, t, qa, agent);
  }

  lemma StealEventAgrees(c: Config, w: World, t: nat, qa: T.Action, agent: Agent)
    requires ValidConfig(c) && Coupled(c, w) && QueueOk(c, w, t, qa, agent) && T.IsSteal(qa)
    ensures var w' := Next(c, w, Queue(t, qa, agent));
      OwnerAgrees(c, w'.s.ws[t], w'.qs[t].owner) && AgentAgrees(w'.s.ws, t, w'.qs[t].lock, w'.holder[t])
  {
    assert QueueAgrees(c, w, t) && VictimJoined(w.s.ws, t);
    OpFacts(c, w, t, qa, agent);
    if qa.StealLock? && agent.Thief? {
      assert VictimJoined(w.s.ws, agent.u);
    }
  }

  lemma OtherAgrees(c: Config, w: World, t: nat, qa: T.Action, agent: Agent, k: nat)
    requires ValidConfig(c) && Coupled(c, w) && QueueOk(c, w, t, qa, agent) && k < |w.qs| && k != t
    ensures var w' := Next(c, w, Queue(t, qa, agent));
      OwnerAgrees(c, w'.s.ws[k], w'.qs[k].owner) && AgentAgrees(w'.s.ws, k, w'.qs[k].lock, w'.holder[k])
  {
    assert QueueAgrees(c, w, k) && QueueAgrees(c, w, t);
    OpFacts(c, w, t, qa, agent);
    QueueRewrites(c, w, t, qa, agent, k);
  }

  /** A thread that is stealing is in no call on its own queue. */
  lemma ThievesStayOut(c: Config, w: World, t: nat, qa: T.Action, agent: Agent, k: nat)
    requires ValidConfig(c) && Coupled(c, w) && QueueOk(c, w, t, qa, agent) && k < |w.qs|
    ensures var w' := Next(c, w, Queue(t, qa, agent));
      w'.holder[k].Thief? && w'.holder[k].u < |w'.qs| ==> w'.qs[w'.holder[k].u].owner.Idle?
  {
    assert QueueAgrees(c, w, k) && QueueAgrees(c, w, t);
    var w' := Next(c, w, Queue(t, qa, agent));
    if w'.holder[k].Thief? && w'.holder[k].u < |w'.qs| {
      assert QueueAgrees(c, w, w'.holder[k].u);
    }
  }

  lemma QueueKeepsCoupling(c: Config, w: World, t: nat, qa: T.Action, agent: Agent)
    requires ValidConfig(c) && Coupled(c, w) && QueueOk(c, w, t, qa, agent)
    ensures Coupled(c, Next(c, w, Queue(t, qa, agent)))
  {
    var w' := Next(c, w, Queue(t, qa, agent));
    forall k: nat | k < |w'.s.ws| ensures VictimJoined(w'.s.ws, k) {
      JoinedStays(c, w, t, qa, agent, k);
    }
    forall k: nat | k < |w'.qs| ensures QueueAgrees(c, w', k) {
      assert QueueAgrees(c, w, k);
      ThievesStayOut(c, w, t, qa, agent, k);
      if k != t {
        OtherAgrees(c, w, t, qa, agent, k);
      } else {
        T.StepRefinesAtomicQueue(w.qs[t], qa);
        if T.IsSteal(qa) {
          StealEventAgrees(c, w, t, qa, agent);
        } else {
          OwnerEventAgrees(c, w, t, qa, agent);
        }
      }
    }
  }

  // ----- loop events -----

  lemma LoopSimulates(c: Config, w: World, a: Action)
    requires ValidConfig(c) && Sized(w) && EventOk(c, w, Loop(a))
    ensures Abs(Next(c, w, Loop(a))) == Step(c, Abs(w), a)
  {
    var s' := Step(c, Abs(w), a);
    var w' := Next(c, w, Loop(a));
    forall t: nat | t < |s'.ws| ensures Abs(w').ws[t] == s'.ws[t] {
      AbsAt(w', t);
    }
    assert Abs(w').ws == s'.ws;
  }

  /** How an own step outside the queue can change its thread. */
  ghost predicate OwnChange(x: Thread, x': Thread) {
    && x'.split == x.split && Joined(x')
    && (HasDrained(x'.pc) && x'.mode == Inside ==> HasDrained(x.pc) && x.mode == Inside)
    && (x'.q == x.q || (x.mode == Opening && x'.pc.Fetch?))
    && (x'.pc.Steal? ==> x.pc.Probe? && x'.pc.v == x.pc.v)
  }

  lemma NextChange(c: Config, t: int, x: Thread, slices: set<nat>, rem: int)
    requires Running(c, t, x, slices, rem) && InNext(x.pc) && !x.pc.PopLocal?
    ensures OwnChange(x, NextStep(c, x, rem).x)
  {
  }

  lemma PopChange(c: Config, t: int, x: Thread, slices: set<nat>, rem: int, v: nat)
    requires Running(c, t, x, slices, rem) && InPop(x.pc)
    ensures OwnChange(x, PopStep(c, x, slices, rem, v).x)
  {
  }

  lemma RestChange(c: Config, s: State, a: Action)
    requires a.Own? && OwnEnabled(c, s, a) && Running(c, a.t, s.ws[a.t], s.slices, s.workremain)
    requires var pc := s.ws[a.t].pc; !InNext(pc) && !InPop(pc) && !pc.Steal? && !NeedsRefill(c, pc)
    ensures OwnChange(s.ws[a.t], OwnEffect(c, s, a).x)
  {
  }

  /** How a loop event can change thread k. */
  ghost predicate LoopChange(a: Action, k: nat, x: Thread, x': Thread) {
    || x' == x
    || (a.Own? && k == a.t && OwnChange(x, x'))
    || (!a.Own? && k == a.v && x'.pc == x.pc && x'.mode == x.mode && x'.q == x.q && (x'.split.NoSplit? || Joined(x)))
    || (!a.Own? && k != a.v && !Joined(x) && x'.split == x.split && (x'.pc.Fetch? || (x'.q == x.q && !Joined(x'))))
  }

  lemma OwnChanges(c: Config, s: State, a: Action, k: nat)
    requires Inv(c, s) && a.Own? && OwnEnabled(c, s, a) && k < |s.ws|
    requires var pc := s.ws[a.t].pc; !pc.PopLocal? && !pc.Steal? && !NeedsRefill(c, pc)
    ensures LoopChange(a, k, s.ws[k], Step(c, s, a).ws[k])
  {
    var x := s.ws[a.t];
    RunningThread(c, s, a.t);
    if InNext(x.pc) {
      NextChange(c, a.t, x, s.slices, s.workremain);
    } else if InPop(x.pc) {
      PopChange(c, a.t, x, s.slices, s.workremain, a.v);
    } else {
      RestChange(c, s, a);
    }
  }

  lemma SplitStepChanges(c: Config, x: Thread, slices: set<nat>, rem: int, a: Action)
    requires c.parGrain >= 1 && !a.Own? && !a.SplitSteal?
    requires a.SplitStart? || !x.split.NoSplit?
    requires a.SplitGive? || a.SplitAfter? ==> x.split.Claimed?
    requires a.SplitSize? ==> a.size >= 0
    requires a.SplitDeal? ==> x.split.Deal?
    ensures var x' := SplitStep(c, x, slices, rem, a).x; x'.pc == x.pc && x'.mode == x.mode && x'.q == x.q
  {
  }

  lemma SplitChanges(c: Config, s: State, a: Action, k: nat)
    requires Inv(c, s) && !a.Own? && SplitEnabled(c, s, a) && !a.SplitSteal? && k < |s.ws|
    requires !s.ws[a.v].split.NoSplit? ==> Joined(s.ws[a.v])
    ensures LoopChange(a, k, s.ws[k], Step(c, s, a).ws[k])
  {
    SplitStepChanges(c, s.ws[a.v], s.slices, s.workremain, a);
    if Answers(s, a) {
      AnswerReady(c, s, a);
    }
  }

  lemma LoopChanges(c: Config, w: World, a: Action, k: nat)
    requires Coupled(c, w) && Inv(c, Abs(w)) && EventOk(c, w, Loop(a)) && k < |w.s.ws|
    ensures LoopChange(a, k, Abs(w).ws[k], Next(c, w, Loop(a)).s.ws[k])
  {
    if a.Own? {
      AbsAt(w, a.t);
      OwnChanges(c, Abs(w), a, k);
    } else {
      AbsAt(w, a.v);
      assert VictimJoined(w.s.ws, a.v);
      SplitChanges(c, Abs(w), a, k);
    }
  }

  /** Nobody is at a queue that the loop sets anew. */
  lemma Unheld(c: Config, w: World, k: nat)
    requires Coupled(c, w) && Inv(c, Abs(w)) && k < |w.qs| && (!Joined(w.s.ws[k]) || w.s.ws[k].mode == Opening)
    ensures w.holder[k].Nobody?
  {
    assert QueueAgrees(c, w, k);
    AbsAt(w, k);
    if w.s.ws[k].mode == Opening && !w.holder[k].Nobody? {
      var s := Abs(w);
      assert ThreadOk(c, k, s.ws[k], s.slices, s.workremain);
      if w.holder[k].Thief? {
        AbsAt(w, w.holder[k].u);
      }
    }
  }

  lemma OwnerStays(c: Config, a: Action, k: nat, x: Thread, x': Thread, q: T.Queue)
    requires LoopChange(a, k, x, x') && (a.Own? && k == a.t ==> q.owner.Idle?)
    requires T.Shape(q) && OwnerAgrees(c, x, q.owner) && x.q == T.Remaining(q) && x'.q.lo <= x'.q.hi
    ensures var q' := Requeue(q, x'.q); T.Shape(q') && OwnerAgrees(c, x', q'.owner)
  {
  }

  lemma LoopOwnerAgrees(c: Config, w: World, a: Action, k: nat)
    requires Coupled(c, w) && Inv(c, Abs(w)) && EventOk(c, w, Loop(a)) && k < |w.qs|
    ensures var w' := Next(c, w, Loop(a)); T.Shape(w'.qs[k]) && OwnerAgrees(c, w'.s.ws[k], w'.qs[k].owner)
  {
    LoopChanges(c, w, a, k);
    AbsAt(w, k);
    assert QueueAgrees(c, w, k);
    StepQueues(c, Abs(w), a, k);
    OwnerStays(c, a, k, Abs(w).ws[k], Step(c, Abs(w), a).ws[k], w.qs[k]);
  }

  lemma StepQueues(c: Config, s: State, a: Action, k: nat)
    requires Inv(c, s) && Enabled(c, s, a) && k < |s.ws|
    ensures var q := Step(c, s, a).ws[k].q; q.lo <= q.hi
  {
    StepKeepsInvariant(c, s, a);
    var s' := Step(c, s, a);
    assert ThreadOk(c, k, s'.ws[k], s'.slices, s'.workremain);
  }

  /** Thread k, its queue's holder and the holder's thread, before and after. */
  lemma AgentStays(a: Action, k: nat, x: Thread, x': Thread, q: T.Queue, agent: Agent, y: Thread, y': Thread)
    requires LoopChange(a, k, x, x') && x.q == T.Remaining(q) && Joined(x) && q.lock.ByThief?
    requires agent.Thief? ==> LoopChange(a, agent.u, y, y') && ThiefAgrees(k, q.lock.thief, y) && !(a.Own? && a.t == agent.u)
    requires agent.Splitter? ==> SplitterAgrees(q.lock.thief, x.split) && !(!a.Own? && a.v == k)
    requires x'.q == x.q
    ensures Requeue(q, x'.q) == q && Joined(x')
    ensures agent.Thief? ==> ThiefAgrees(k, q.lock.thief, y')
    ensures agent.Splitter? ==> SplitterAgrees(q.lock.thief, x'.split)
  {
  }

  /** The threads after a loop event. */
  ghost predicate Moved(w: World, a: Action, ws: seq<Thread>) {
    Sized(w) && |ws| == |w.s.ws| && forall k: nat :: k < |ws| ==> LoopChange(a, k, WithQueue(w.s.ws[k], w.qs[k]), ws[k])
  }

  lemma LoopMoves(c: Config, w: World, a: Action)
    requires Coupled(c, w) && Inv(c, Abs(w)) && EventOk(c, w, Loop(a))
    ensures Moved(w, a, Step(c, Abs(w), a).ws)
  {
    forall k: nat | k < |w.s.ws| ensures LoopChange(a, k, WithQueue(w.s.ws[k], w.qs[k]), Step(c, Abs(w), a).ws[k]) {
      LoopChanges(c, w, a, k);
    }
  }

  lemma MovedAgent(c: Config, w: World, a: Action, ws: seq<Thread>, k: nat)
    requires Coupled(c, w) && LoopOk(c, w, a) && Moved(w, a, ws) && k < |ws|
    requires ws[k].q != T.Remaining(w.qs[k]) ==> w.holder[k].Nobody?
    ensures AgentAgrees(ws, k, Requeue(w.qs[k], ws[k].q).lock, w.holder[k])
  {
    assert QueueAgrees(c, w, k);
    if !w.holder[k].Nobody? {
      var u := if w.holder[k].Thief? then w.holder[k].u else k;
      assert w.holder[k] == Thief(u) ==> HoldsLock(w, u);
      AgentStays(a, k, WithQueue(w.s.ws[k], w.qs[k]), ws[k], w.qs[k], w.holder[k], WithQueue(w.s.ws[u], w.qs[u]), ws[u]);
    }
  }

  lemma LoopAgentAgrees(c: Config, w: World, a: Action, k: nat)
    requires Coupled(c, w) && Inv(c, Abs(w)) && EventOk(c, w, Loop(a)) && k < |w.qs|
    ensures var w' := Next(c, w, Loop(a)); AgentAgrees(w'.s.ws, k, w'.qs[k].lock, w'.holder[k])
  {
    var ws' := Step(c, Abs(w), a).ws;
    LoopMoves(c, w, a);
    assert LoopChange(a, k, WithQueue(w.s.ws[k], w.qs[k]), ws'[k]);
    if ws'[k].q != T.Remaining(w.qs[k]) {
      Unheld(c, w, k);
    }
    MovedAgent(c, w, a, ws', k);
  }

  lemma LoopThievesStayOut(c: Config, w: World, a: Action, k: nat)
    requires Coupled(c, w) && Inv(c, Abs(w)) && EventOk(c, w, Loop(a)) && k < |w.qs|
    ensures var w' := Next(c, w, Loop(a)); w'.holder[k].Thief? && w'.holder[k].u < |w'.qs| ==> w'.qs[w'.holder[k].u].owner.Idle?
  {
    assert QueueAgrees(c, w, k);
  }

  lemma MovedVictim(c: Config, w: World, a: Action, ws: seq<Thread>, k: nat)
    requires Coupled(c, w) && LoopOk(c, w, a) && Moved(w, a, ws) && k < |ws|
    requires ws[k].pc.Steal? ==> ws[k].pc.v < |ws| && Joined(w.s.ws[ws[k].pc.v])
    ensures VictimJoined(ws, k)
  {
    assert VictimJoined(w.s.ws, k);
    assert LoopChange(a, k, WithQueue(w.s.ws[k], w.qs[k]), ws[k]);
    if ws[k].pc.Steal? {
      var v := ws[k].pc.v;
      assert LoopChange(a, v, WithQueue(w.s.ws[v], w.qs[v]), ws[v]);
    }
  }

  lemma LoopVictimJoined(c: Config, w: World, a: Action, k: nat)
    requires Coupled(c, w) && Inv(c, Abs(w)) && EventOk(c, w, Loop(a)) && k < |w.s.ws|
    ensures VictimJoined(Next(c, w, Loop(a)).s.ws, k)
  {
    var ws' := Step(c, Abs(w), a).ws;
    LoopMoves(c, w, a);
    assert LoopChange(a, k, WithQueue(w.s.ws[k], w.qs[k]), ws'[k]);
    assert VictimJoined(w.s.ws, k);
    if ws'[k].pc.Steal? && !w.s.ws[k].pc.Steal? {
      FreshVictim(c, w, a);
    }
    MovedVictim(c, w, a, ws', k);
  }

  /** A steal is only tried on a queue seen initialised, so on a thread that has joined. */
  lemma FreshVictim(c: Config, w: World, a: Action)
    requires Coupled(c, w) && Inv(c, Abs(w)) && EventOk(c, w, Loop(a)) && a.Own?
    requires w.s.ws[a.t].pc.Probe? && Next(c, w, Loop(a)).s.ws[a.t].pc.Steal?
    ensures w.s.ws[a.t].pc.v < |w.s.ws| && Joined(w.s.ws[w.s.ws[a.t].pc.v])
  {
    var s := Abs(w);
    AbsAt(w, a.t);
    var v := s.ws[a.t].pc.v;
    AbsAt(w, v);
    assert ThreadOk(c, v, s.ws[v], s.slices, s.workremain);
  }

  lemma LoopKeepsCoupling(c: Config, w: World, a: Action)
    requires Coupled(c, w) && Inv(c, Abs(w)) && EventOk(c, w, Loop(a))
    ensures Coupled(c, Next(c, w, Loop(a)))
  {
    var w' := Next(c, w, Loop(a));
    forall k: nat | k < |w'.s.ws| ensures VictimJoined(w'.s.ws, k) {
      LoopVictimJoined(c, w, a, k);
    }
    forall k: nat | k < |w'.qs| ensures QueueAgrees(c, w', k) {
      LoopOwnerAgrees(c, w, a, k);
      LoopAgentAgrees(c, w, a, k);
      LoopThievesStayOut(c, w, a, k);
    }
  }

  // ----- whole runs -----

  function Start(c: Config): (w: World)
    requires ValidConfig(c)
    ensures Sized(w)
  {
    World(Init(c), seq(c.threads, t => T.Init(Range(0, 0))), seq(c.threads, t => Nobody))
  }

  datatype Reach = Halted | Hence(w: World)

  function Run(c: Config, run: seq<Event>): (o: Reach)
    requires ValidConfig(c)
    ensures o.Hence? ==> Sized(o.w)
  {
    if run == [] then Hence(Start(c))
    else
      var o := Run(c, run[..|run| - 1]);
      if o.Hence? && EventOk(c, o.w, run[|run| - 1]) then Hence(Next(c, o.w, run[|run| - 1])) else Halted
  }

  lemma StartCoupled(c: Config)
    requires ValidConfig(c)
    ensures Coupled(c, Start(c)) && Abs(Start(c)) == Init(c)
  {
    var w := Start(c);
    assert Abs(w).ws == Init(c).ws;
  }

  lemma ExecSnoc(c: Config, simple: seq<Action>, a: Action)
    requires ValidConfig(c) && Exec(c, simple).Reached? && Enabled(c, Exec(c, simple).s, a)
    ensures Exec(c, simple + [a]) == Reached(Step(c, Exec(c, simple).s, a))
  {
    assert (simple + [a])[..|simple|] == simple;
  }

  /** Simulation. Whatever the interleaving of queue accesses and loop steps, the loop over
      atomic queues has a run to the same state. */
  lemma {:induction false} Simulates(c: Config, run: seq<Event>) returns (simple: seq<Action>)
    requires ValidConfig(c) && Run(c, run).Hence?
    ensures Coupled(c, Run(c, run).w) && Exec(c, simple) == Reached(Abs(Run(c, run).w))
  {
    if run == [] {
      StartCoupled(c);
      simple := [];
    } else {
      simple := Simulates(c, run[..|run| - 1]);
      var w, e := Run(c, run[..|run| - 1]).w, run[|run| - 1];
      RunKeepsInvariant(c, simple);
      match e {
        case Loop(a) =>
          LoopSimulates(c, w, a);
          LoopKeepsCoupling(c, w, a);
          ExecSnoc(c, simple, a);
          simple := simple + [a];
        case Queue(t, qa, agent) =>
          var stutter, a := QueueSimulates(c, w, t, qa, agent);
          QueueKeepsCoupling(c, w, t, qa, agent);
          if !stutter {
            ExecSnoc(c, simple, a);
            simple := simple + [a];
          }
      }
    }
  }

  /** Exactly-once execution over the lock-free queues. */
  lemma ExactlyOnceOverQueues(c: Config, run: seq<Event>)
    requires ValidConfig(c) && Run(c, run).Hence?
    ensures var s := Run(c, run).w.s;
      && AllNonEmpty(s.executed)
      && (forall j, k :: 0 <= j < k < |s.executed| ==> Disjoint(s.executed[j], s.executed[k]))
      && (forall k :: 0 <= k < |s.executed| ==> Whole(c).lo <= s.executed[k].lo && s.executed[k].hi <= Whole(c).hi)
      && (s.workremain == 0 || (exists t :: 0 <= t < |s.ws| && s.ws[t].pc.Done?) ==>
            ExactlyOnce(s.executed, Whole(c).lo, Whole(c).hi))
  {
    var simple := Simulates(c, run);
    var w := Run(c, run).w;
    ExactlyOnceLoop(c, simple);
    TerminationCounter(c, simple);
    forall t: nat | t < |w.s.ws| && w.s.ws[t].pc.Done? ensures ExactlyOnce(w.s.executed, Whole(c).lo, Whole(c).hi) {
      AbsAt(w, t);
    }
  }

  /** The refill of a queue waits for nothing but its lock: the queue has been found empty. */
  lemma RefillIsFree(c: Config, run: seq<Event>, t: nat)
    requires ValidConfig(c) && Run(c, run).Hence? && t < |Run(c, run).w.qs|
    requires var w := Run(c, run).w;
      NeedsRefill(c, w.s.ws[t].pc) && w.qs[t].owner.Idle? && w.qs[t].lock.Free? && !HoldsLock(w, t)
    ensures var w := Run(c, run).w; EventOk(c, w, Queue(t, T.RefillLock(AfterFront(w.s.ws[t].pc.r, c.seqGrain)), Nobody))
  {
    var simple := Simulates(c, run);
    RunKeepsInvariant(c, simple);
    var w := Run(c, run).w;
    assert QueueAgrees(c, w, t);
    AbsAt(w, t);
    assert ThreadOk(c, t, Abs(w).ws[t], w.s.slices, w.s.workremain);
  }

  // ----- nobody is blocked but by a lock -----

  /** The next access of a queue's owner inside a call. */
  function OwnerNext(o: T.Owner): T.Action
    requires !o.Idle?
  {
    match o
    case PopLoaded(_, _) => T.PopStore
    case PopStored(_, _) => T.PopTest
    case PopConflict(_, _) => T.PopRestore
    case SlowWait(_) => T.SlowLock
    case SlowIn(_) => T.SlowLoadBeg
    case SlowLoaded(_, _) => T.SlowLoadEnd
    case SlowTake(_, _, _) => T.SlowStore
    case SlowDone(_) => T.SlowUnlock
    case SlowEmpty => T.SlowUnlock
    case RefillIn(_) => T.RefillStoreBeg
    case RefillHalf(_) => T.RefillStoreEnd
    case RefillDone => T.RefillUnlock
  }

  function ThiefNext(th: T.Thief): T.Action {
    match th
    case StealIn(_) => T.StealLoadEnd
    case StealLoaded(_, _) => T.StealStoreEnd
    case StealStored(_, _) => T.StealTestBeg
    case StealConflict(_) => T.StealRestore
    case StealWon(_) => T.StealUnlock
    case StealFailed => T.StealUnlock
  }

  /** Whoever holds the lock of a queue can go on. */
  lemma HolderGoes(c: Config, w: World, v: nat)
    requires Coupled(c, w) && ValidConfig(c) && v < |w.qs| && !w.qs[v].lock.Free?
    ensures var q := w.qs[v];
      if q.lock.ByThief? then EventOk(c, w, Queue(v, ThiefNext(q.lock.thief), w.holder[v]))
      else !q.owner.Idle? && EventOk(c, w, Queue(v, OwnerNext(q.owner), Nobody))
  {
    assert QueueAgrees(c, w, v);
  }

  /** A call on its own queue goes on unless it has to wait for the lock. */
  lemma OwnerGoes(c: Config, w: World, t: nat)
    requires Coupled(c, w) && ValidConfig(c) && t < |w.qs| && !w.qs[t].owner.Idle?
    requires w.qs[t].owner.SlowWait? ==> w.qs[t].lock.Free?
    ensures EventOk(c, w, Queue(t, OwnerNext(w.qs[t].owner), Nobody)) && !T.IsSteal(OwnerNext(w.qs[t].owner))
  {
  }

  /** The lock that thread t needs next, if it is at a point where it needs one. */
  ghost predicate WaitsFor(c: Config, w: World, t: nat, v: nat)
    requires Sized(w) && t < |w.qs|
  {
    || (v == t && w.qs[t].owner.SlowWait?)
    || (v == t && w.qs[t].owner.Idle? && NeedsRefill(c, w.s.ws[t].pc))
    || (w.s.ws[t].pc.Steal? && w.s.ws[t].pc.v == v)
  }

  /** Whether an event is a step of thread t. */
  predicate IsStepOf(e: Event, t: nat) {
    match e
    case Loop(a) => a.Own? && a.t == t
    case Queue(v, qa, agent) => if T.IsSteal(qa) then agent == Thief(t) else v == t
  }

  /** Over the lock-free queues every worker can take a step unless it waits for the lock of one
      queue, and whoever holds that lock can go on. */
  lemma WorkerGoesOn(c: Config, w: World, t: nat) returns (e: Event)
    requires Coupled(c, w) && Inv(c, Abs(w)) && t < |w.qs| && CanRun(w.s.ws[t].pc)
    requires forall v: nat :: v < |w.qs| && WaitsFor(c, w, t, v) ==> w.qs[v].lock.Free?
    ensures EventOk(c, w, e) && IsStepOf(e, t)
  {
    if !w.qs[t].owner.Idle? {
      assert w.qs[t].owner.SlowWait? ==> WaitsFor(c, w, t, t);
      OwnerGoes(c, w, t);
      e := Queue(t, OwnerNext(w.qs[t].owner), Nobody);
    } else if v :| 0 <= v < |w.holder| && w.holder[v] == Thief(t) {
      assert QueueAgrees(c, w, v);
      HolderGoes(c, w, v);
      e := Queue(v, ThiefNext(w.qs[v].lock.thief), Thief(t));
    } else {
      e := IdleGoesOn(c, w, t);
    }
  }

  lemma IdleGoesOn(c: Config, w: World, t: nat) returns (e: Event)
    requires Coupled(c, w) && Inv(c, Abs(w)) && t < |w.qs| && CanRun(w.s.ws[t].pc)
    requires w.qs[t].owner.Idle? && !HoldsLock(w, t)
    requires forall v: nat :: v < |w.qs| && WaitsFor(c, w, t, v) ==> w.qs[v].lock.Free?
    ensures EventOk(c, w, e) && IsStepOf(e, t)
  {
    var pc := w.s.ws[t].pc;
    if pc.PopLocal? {
      e := Queue(t, T.PopLoad(c.seqGrain), Nobody);
    } else if pc.Steal? {
      VictimIsOther(c, w, t);
      assert WaitsFor(c, w, t, pc.v);
      e := Queue(pc.v, T.StealLock(pc.n), Thief(t));
    } else if NeedsRefill(c, pc) {
      assert WaitsFor(c, w, t, t);
      e := RefillGoes(c, w, t);
    } else {
      e := LoopGoes(c, w, t);
    }
  }

  lemma VictimIsOther(c: Config, w: World, t: nat)
    requires Sized(w) && Inv(c, Abs(w)) && t < |w.qs| && w.s.ws[t].pc.Steal?
    ensures var pc := w.s.ws[t].pc; pc.v < |w.qs| && pc.v != t && pc.n >= 1
  {
    AbsAt(w, t);
    var s := Abs(w);
    assert ThreadOk(c, t, s.ws[t], s.slices, s.workremain);
  }

  lemma RefillGoes(c: Config, w: World, t: nat) returns (e: Event)
    requires Coupled(c, w) && Inv(c, Abs(w)) && t < |w.qs| && NeedsRefill(c, w.s.ws[t].pc)
    requires w.qs[t].owner.Idle? && !HoldsLock(w, t) && w.qs[t].lock.Free?
    ensures EventOk(c, w, e) && IsStepOf(e, t)
  {
    assert QueueAgrees(c, w, t);
    AbsAt(w, t);
    var s := Abs(w);
    assert ThreadOk(c, t, s.ws[t], s.slices, s.workremain);
    e := Queue(t, T.RefillLock(AfterFront(w.s.ws[t].pc.r, c.seqGrain)), Nobody);
  }

  lemma LoopGoes(c: Config, w: World, t: nat) returns (e: Event)
    requires Sized(w) && Inv(c, Abs(w)) && t < |w.qs| && CanRun(w.s.ws[t].pc) && w.qs[t].owner.Idle? && !HoldsLock(w, t)
    requires var pc := w.s.ws[t].pc; !pc.PopLocal? && !pc.Steal? && !NeedsRefill(c, pc)
    ensures EventOk(c, w, e) && IsStepOf(e, t)
  {
    AbsAt(w, t);
    var s := Abs(w);
    assert s.ws[t].pc.Probe? ==> s.ws[t].pc.v < |s.ws| by { assert ThreadOk(c, t, s.ws[t], s.slices, s.workremain); }
    var v: nat := 0;
    if s.slices != {} && InPop(s.ws[t].pc) {
      v :| v in s.slices;
    }
    e := Loop(Own(t, v, 0, false));
  }

  // ----- an undisturbed steal -----

  /** The world after some more events, if every one was possible in turn. */
  function From(c: Config, w: World, run: seq<Event>): Reach
    requires ValidConfig(c) && Sized(w)
    decreases |run|
  {
    if run == [] then Hence(w)
    else if EventOk(c, w, run[0]) then From(c, Next(c, w, run[0]), run[1..])
    else Halted
  }

  lemma Prepend(c: Config, w: World, e: Event, w1: World, run: seq<Event>, w': World)
    requires ValidConfig(c) && Sized(w) && EventOk(c, w, e) && Next(c, w, e) == w1 && From(c, w1, run) == Hence(w')
    ensures From(c, w, [e] + run) == Hence(w')
  {
    assert ([e] + run)[1..] == run;
  }

  /** The world in which thread t is inside the steal of n from the quiet queue of v. */
  function StealingFrom(w: World, t: nat, v: nat, q: T.Queue): World
    requires Sized(w) && v < |w.qs|
  {
    World(w.s, w.qs[v := q], w.holder[v := Thief(t)])
  }

  lemma StealBegins(c: Config, w: World, t: nat, v: nat, n: int)
    requires ValidConfig(c) && Sized(w) && t < |w.qs| && v < |w.qs| && t != v && w.s.ws[t].pc == Steal(v, n)
    requires n >= 1 && !HoldsLock(w, t) && T.Quiet(w.qs[v])
    ensures EventOk(c, w, Queue(v, T.StealLock(n), Thief(t)))
    ensures Next(c, w, Queue(v, T.StealLock(n), Thief(t))) == StealingFrom(w, t, v, T.Step(w.qs[v], T.StealLock(n)))
  {
  }

  /** An access of the thief that neither decides nor ends its steal. */
  lemma StealGoesOn(c: Config, w: World, t: nat, v: nat, q: T.Queue, qa: T.Action)
    requires ValidConfig(c) && Sized(w) && t < |w.qs| && v < |w.qs|
    requires T.Enabled(q, qa) && (qa.StealLoadEnd? || qa.StealStoreEnd?)
    ensures EventOk(c, StealingFrom(w, t, v, q), Queue(v, qa, Thief(t)))
    ensures Next(c, StealingFrom(w, t, v, q), Queue(v, qa, Thief(t))) == StealingFrom(w, t, v, T.Step(q, qa))
  {
    var w1 := StealingFrom(w, t, v, q);
    assert w1.qs[v := T.Step(q, qa)] == w.qs[v := T.Step(q, qa)];
    assert w1.holder[v := Thief(t)] == w1.holder;
  }

  lemma StealIsWon(c: Config, w: World, t: nat, v: nat, q: T.Queue, r: Range)
    requires ValidConfig(c) && Sized(w) && t < |w.qs| && v < |w.qs|
    requires q.lock.ByThief? && q.lock.thief.StealStored? && q.beg <= r.lo
    requires r == Range(q.lock.thief.init - q.lock.thief.size, q.lock.thief.init)
    ensures EventOk(c, StealingFrom(w, t, v, q), Queue(v, T.StealTestBeg, Thief(t)))
    ensures Next(c, StealingFrom(w, t, v, q), Queue(v, T.StealTestBeg, Thief(t)))
         == StealingFrom(w.(s := Put(w.s, t, w.s.ws[t].(pc := Got(r)))), t, v, q.(lock := T.ByThief(T.StealWon(r))))
  {
    var w1 := StealingFrom(w, t, v, q);
    var q' := T.Step(q, T.StealTestBeg);
    assert q' == q.(lock := T.ByThief(T.StealWon(r)));
    assert w1.qs[v := q'] == w.qs[v := q'] && w1.holder[v := Thief(t)] == w1.holder;
  }

  lemma StealReturns(c: Config, w: World, t: nat, v: nat, q: T.Queue)
    requires ValidConfig(c) && Sized(w) && t < |w.qs| && v < |w.qs| && q.lock.ByThief? && q.lock.thief.StealWon?
    ensures EventOk(c, StealingFrom(w, t, v, q), Queue(v, T.StealUnlock, Thief(t)))
    ensures var w' := Next(c, StealingFrom(w, t, v, q), Queue(v, T.StealUnlock, Thief(t)));
      w'.s == w.s && w'.qs == w.qs[v := T.Step(q, T.StealUnlock)] && w'.holder[v] == Nobody
  {
    var w1 := StealingFrom(w, t, v, q);
    assert w1.qs[v := T.Step(q, T.StealUnlock)] == w.qs[v := T.Step(q, T.StealUnlock)];
  }

  /** The thief has the last n iterations of what queue q held, and v's queue the rest. */
  ghost predicate HasStolen(w: World, t: nat, v: nat, q: T.Queue, n: int, threads: nat) {
    && Sized(w) && |w.qs| == threads && t < threads && v < threads
    && w.s.ws[t].pc == Got(Back(T.Remaining(q), n)) && w.holder[v] == Nobody
    && T.Quiet(w.qs[v]) && T.Remaining(w.qs[v]) == BeforeBack(T.Remaining(q), n)
  }

  function Loaded(q: T.Queue, n: int): T.Queue {
    q.(lock := T.ByThief(T.StealLoaded(q.end, n)))
  }

  function Stored(q: T.Queue, n: int): T.Queue {
    q.(end := q.end - n, lock := T.ByThief(T.StealStored(q.end, n)))
  }

  lemma StealUnlocks(c: Config, w: World, t: nat, v: nat, q: T.Queue, n: int) returns (run: seq<Event>, w': World)
    requires ValidConfig(c) && Sized(w) && t < |w.qs| && v < |w.qs| && T.Quiet(q) && 1 <= n <= q.end - q.beg
    requires w.s.ws[t].pc == Got(Back(T.Remaining(q), n))
    ensures From(c, StealingFrom(w, t, v, Stored(q, n).(lock := T.ByThief(T.StealWon(Back(T.Remaining(q), n))))), run) == Hence(w')
    ensures HasStolen(w', t, v, q, n, |w.qs|)
  {
    var q4 := Stored(q, n).(lock := T.ByThief(T.StealWon(Back(T.Remaining(q), n))));
    var e := Queue(v, T.StealUnlock, Thief(t));
    StealReturns(c, w, t, v, q4);
    w' := Next(c, StealingFrom(w, t, v, q4), e);
    Prepend(c, StealingFrom(w, t, v, q4), e, w', [], w');
    run := [e] + [];
  }

  lemma StealTests(c: Config, w: World, t: nat, v: nat, q: T.Queue, n: int) returns (run: seq<Event>, w': World)
    requires ValidConfig(c) && Sized(w) && t < |w.qs| && v < |w.qs| && T.Quiet(q) && 1 <= n <= q.end - q.beg
    ensures From(c, StealingFrom(w, t, v, Stored(q, n)), run) == Hence(w') && HasStolen(w', t, v, q, n, |w.qs|)
  {
    var r := Back(T.Remaining(q), n);
    var won := w.(s := Put(w.s, t, w.s.ws[t].(pc := Got(r))));
    var e := Queue(v, T.StealTestBeg, Thief(t));
    StealIsWon(c, w, t, v, Stored(q, n), r);
    var more;
    more, w' := StealUnlocks(c, won, t, v, q, n);
    Prepend(c, StealingFrom(w, t, v, Stored(q, n)), e, Next(c, StealingFrom(w, t, v, Stored(q, n)), e), more, w');
    run := [e] + more;
  }

  lemma StealStores(c: Config, w: World, t: nat, v: nat, q: T.Queue, n: int) returns (run: seq<Event>, w': World)
    requires ValidConfig(c) && Sized(w) && t < |w.qs| && v < |w.qs| && T.Quiet(q) && 1 <= n <= q.end - q.beg
    ensures From(c, StealingFrom(w, t, v, Loaded(q, n)), run) == Hence(w') && HasStolen(w', t, v, q, n, |w.qs|)
  {
    var e := Queue(v, T.StealStoreEnd, Thief(t));
    assert T.Step(Loaded(q, n), T.StealStoreEnd) == Stored(q, n);
    StealGoesOn(c, w, t, v, Loaded(q, n), T.StealStoreEnd);
    var more;
    more, w' := StealTests(c, w, t, v, q, n);
    Prepend(c, StealingFrom(w, t, v, Loaded(q, n)), e, StealingFrom(w, t, v, Stored(q, n)), more, w');
    run := [e] + more;
  }

  lemma StealLoads(c: Config, w: World, t: nat, v: nat, q: T.Queue, n: int) returns (run: seq<Event>, w': World)
    requires ValidConfig(c) && Sized(w) && t < |w.qs| && v < |w.qs| && T.Quiet(q) && 1 <= n <= q.end - q.beg
    ensures From(c, StealingFrom(w, t, v, q.(lock := T.ByThief(T.StealIn(n)))), run) == Hence(w') && HasStolen(w', t, v, q, n, |w.qs|)
  {
    var q1 := q.(lock := T.ByThief(T.StealIn(n)));
    var e := Queue(v, T.StealLoadEnd, Thief(t));
    assert T.Step(q1, T.StealLoadEnd) == Loaded(q, n);
    StealGoesOn(c, w, t, v, q1, T.StealLoadEnd);
    var more;
    more, w' := StealStores(c, w, t, v, q, n);
    Prepend(c, StealingFrom(w, t, v, q1), e, StealingFrom(w, t, v, Loaded(q, n)), more, w');
    run := [e] + more;
  }

  /** The five accesses of a steal that nobody disturbs: the thief has the last n iterations, and
      the queue what is before them. */
  lemma StealEvents(c: Config, w: World, t: nat, v: nat, n: int) returns (run: seq<Event>, w': World)
    requires ValidConfig(c) && Sized(w) && t < |w.qs| && v < |w.qs| && t != v && w.s.ws[t].pc == Steal(v, n)
    requires !HoldsLock(w, t) && T.Quiet(w.qs[v]) && 1 <= n <= w.qs[v].end - w.qs[v].beg
    ensures From(c, w, run) == Hence(w') && HasStolen(w', t, v, w.qs[v], n, |w.qs|)
  {
    var q, e := w.qs[v], Queue(v, T.StealLock(n), Thief(t));
    StealBegins(c, w, t, v, n);
    var more;
    more, w' := StealLoads(c, w, t, v, q, n);
    Prepend(c, w, e, StealingFrom(w, t, v, q.(lock := T.ByThief(T.StealIn(n)))), more, w');
    run := [e] + more;
  }

  /** Over the lock-free queues too: a thief that nobody disturbs and that reads a size above
      parGrain from an initialised victim gets the back half of its queue, and what it gets and
      what it leaves differ by at most one iteration. */
  lemma UndisturbedSteal(c: Config, w: World, t: nat, v: nat) returns (run: seq<Event>, w': World)
    requires Coupled(c, w) && Inv(c, Abs(w)) && t < |w.qs| && v < |w.qs| && w.s.ws[t].pc == Probe(v)
    requires w.qs[t].owner.Idle? && !HoldsLock(w, t) && T.Quiet(w.qs[v]) && w.s.ws[v].init
    requires w.qs[v].end - w.qs[v].beg > c.parGrain
    ensures From(c, w, run) == Hence(w') && Sized(w') && |w'.qs| == |w.qs| && T.Quiet(w'.qs[v]) && w'.s.ws[t].pc.Got?
    ensures var r, was, left := w'.s.ws[t].pc.r, T.Remaining(w.qs[v]), T.Remaining(w'.qs[v]);
      left == Range(was.lo, r.lo) && r.hi == was.hi && 0 <= (left.hi - left.lo) - (r.hi - r.lo) <= 1
  {
    var size := w.qs[v].end - w.qs[v].beg;
    var probe := Own(t, v, size, false);
    ProbeEvent(c, w, t, v, size);
    var w1 := Next(c, w, Loop(probe));
    var more;
    more, w' := StealEvents(c, w1, t, v, w1.s.ws[t].pc.n);
    Prepend(c, w, Loop(probe), w1, more, w');
    run := [Loop(probe)] + more;
    StolenHalf(w', t, v, w.qs[v], w1.s.ws[t].pc.n, |w.qs|);
  }

  lemma StolenHalf(w: World, t: nat, v: nat, q: T.Queue, n: int, threads: nat)
    requires HasStolen(w, t, v, q, n, threads) && T.Quiet(q) && 2 * n <= q.end - q.beg < 2 * n + 2
    ensures w.s.ws[t].pc.Got?
    ensures var r, was, left := w.s.ws[t].pc.r, T.Remaining(q), T.Remaining(w.qs[v]);
      left == Range(was.lo, r.lo) && r.hi == was.hi && 0 <= (left.hi - left.lo) - (r.hi - r.lo) <= 1
  {
  }

  lemma ProbeEvent(c: Config, w: World, t: nat, v: nat, size: int)
    requires Coupled(c, w) && Inv(c, Abs(w)) && t < |w.qs| && v < |w.qs| && w.s.ws[t].pc == Probe(v)
    requires w.qs[t].owner.Idle? && !HoldsLock(w, t) && w.s.ws[v].init && size > c.parGrain
    ensures t != v && EventOk(c, w, Loop(Own(t, v, size, false)))
    ensures var w1 := Next(c, w, Loop(Own(t, v, size, false)));
      && w1.qs == w.qs && w1.holder == w.holder && |w1.s.ws| == |w.s.ws|
      && w1.s.ws[t].pc.Steal? && w1.s.ws[t].pc.v == v && 2 * w1.s.ws[t].pc.n <= size < 2 * w1.s.ws[t].pc.n + 2
  {
    AbsAt(w, t);
    AbsAt(w, v);
    var s, a := Abs(w), Own(t, v, size, false);
    assert ThreadOk(c, t, s.ws[t], s.slices, s.workremain);
    ProbeStep(c, s, t, v, size);
    var s' := Step(c, s, a);
    forall k: nat | k < |w.qs| ensures Requeue(w.qs[k], s'.ws[k].q) == w.qs[k] {
      AbsAt(w, k);
    }
    var w1 := Next(c, w, Loop(a));
    assert w1.qs == w.qs;
  }

  lemma ProbeStep(c: Config, s: State, t: nat, v: nat, size: int)
    requires ValidConfig(c) && t < |s.ws| && v < |s.ws| && s.ws[t].pc == Probe(v) && s.ws[v].init && size > c.parGrain
    ensures Enabled(c, s, Own(t, v, size, false))
    ensures var s' := Step(c, s, Own(t, v, size, false));
      && |s'.ws| == |s.ws| && (forall k :: 0 <= k < |s.ws| ==> s'.ws[k].q == s.ws[k].q)
      && var pc := s'.ws[t].pc; pc.Steal? && pc.v == v && 2 * pc.n <= size < 2 * pc.n + 2
  {
  }
}
