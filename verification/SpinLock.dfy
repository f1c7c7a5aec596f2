/** The decrementing spin lock and its waitlock: a counter that is 1 when free, a trylock that
    decrements without giving back, and a _sync flag by which an unlock wakes the waiters
    before it frees the counter. One shared access per action. */
module SpinLock {

  /** Held(k): inside critical section number k; the Unlock states follow the call of unlock;
      a waiter remembers, as history, the number of the last section begun when it set sync. */
  datatype Pc =
    | Idle | Acquire | Spin | TryDecr
    | Held(k: nat) | UnlockTest | UnlockClear | UnlockStore
    | WaitSync(last: nat) | WaitCount(last: nat)

  /** begun, ended: how many critical sections were entered, and how many reached their unlock. */
  datatype State = State(counter: int, sync: bool, threads: seq<Pc>, begun: nat, ended: nat)

  datatype Action =
    | Lock(t: nat) | Decr(t: nat) | SpinRead(t: nat)
    | TryRead(t: nat) | TryDecrement(t: nat)
    | Unlock(t: nat) | ReadSync(t: nat) | ClearSync(t: nat) | Store(t: nat)
    | WaitSet(t: nat) | WaitReadSync(t: nat) | WaitReadCount(t: nat)

  function Init(n: nat): State {
    State(1, false, seq(n, i => Idle), 0, 0)
  }

  predicate Enabled(s: State, a: Action) {
    && a.t < |s.threads|
    && var pc := s.threads[a.t];
    match a
    case Lock(_) => pc.Idle?
    case Decr(_) => pc.Acquire?
    case SpinRead(_) => pc.Spin?
    case TryRead(_) => pc.Idle?
    case TryDecrement(_) => pc.TryDecr?
    case Unlock(_) => pc.Held?
    case ReadSync(_) => pc.UnlockTest?
    case ClearSync(_) => pc.UnlockClear?
    case Store(_) => pc.UnlockStore?
    case WaitSet(_) => pc.Idle?
    case WaitReadSync(_) => pc.WaitSync?
    case WaitReadCount(_) => pc.WaitCount?
  }

  function Goto(s: State, t: nat, pc: Pc): State
    requires t < |s.threads|
  {
    s.(threads := s.threads[t := pc])
  }

  function Step(s: State, a: Action): State
    requires Enabled(s, a)
  {
    var pc := s.threads[a.t];
    match a
    case Lock(t) => Goto(s, t, Acquire)
    case Decr(t) =>
      if s.counter - 1 == 0 then Goto(s, t, Held(s.begun + 1)).(counter := 0, begun := s.begun + 1)
      else Goto(s, t, Spin).(counter := s.counter - 1)
    case SpinRead(t) => Goto(s, t, if s.counter <= 0 then Spin else Acquire)
    case TryRead(t) => Goto(s, t, if s.counter == 1 then TryDecr else Idle)
    case TryDecrement(t) =>
      if s.counter - 1 == 0 then Goto(s, t, Held(s.begun + 1)).(counter := 0, begun := s.begun + 1)
      else Goto(s, t, Idle).(counter := s.counter - 1)
    case Unlock(t) => Goto(s, t, UnlockTest).(ended := pc.k)
    case ReadSync(t) => Goto(s, t, if s.sync then UnlockClear else UnlockStore)
    case ClearSync(t) => Goto(s, t, UnlockStore).(sync := false)
    case Store(t) => Goto(s, t, Idle).(counter := 1)
    case WaitSet(t) => Goto(s, t, WaitSync(s.begun)).(sync := true)
    case WaitReadSync(t) => Goto(s, t, if s.sync then WaitCount(pc.last) else Idle)
    case WaitReadCount(t) => Goto(s, t, if s.counter <= 0 then WaitSync(pc.last) else Idle)
  }

  datatype Outcome = Stuck | Reached(s: State)

  function Exec(n: nat, run: seq<Action>): (o: Outcome)
    ensures o.Reached? ==> |o.s.threads| == n
  {
    if run == [] then Reached(Init(n))
    else
      var o := Exec(n, run[..|run| - 1]);
      if o.Reached? && Enabled(o.s, run[|run| - 1]) then Reached(Step(o.s, run[|run| - 1])) else Stuck
  }

  // ----- what is summed over the threads -----

  predicate IsHolder(pc: Pc) { pc.Held? || pc.UnlockTest? || pc.UnlockClear? || pc.UnlockStore? }

  /** Budget: how often a thread can still decrement before the lock is next freed. */
  datatype Kind = Holders | Inside | Budget

  function Weight(pc: Pc, kind: Kind): nat {
    match kind
    case Holders => if IsHolder(pc) then 1 else 0
    case Inside => if pc.Held? then 1 else 0
    case Budget => if pc.TryDecr? then 2 else if pc.Spin? || IsHolder(pc) then 0 else 1
  }

  function Sum(ths: seq<Pc>, kind: Kind): nat {
    if ths == [] then 0 else Sum(ths[..|ths| - 1], kind) + Weight(ths[|ths| - 1], kind)
  }

  lemma {:induction false} SumUpdate(ths: seq<Pc>, t: nat, pc: Pc, kind: Kind)
    requires t < |ths|
    ensures Sum(ths[t := pc], kind) == Sum(ths, kind) - Weight(ths[t], kind) + Weight(pc, kind)
  {
    var n := |ths| - 1;
    if t == n {
      assert ths[t := pc][..n] == ths[..n];
    } else {
      SumUpdate(ths[..n], t, pc, kind);
      assert ths[t := pc][..n] == ths[..n][t := pc];
    }
  }

  lemma {:induction false} SumHas(ths: seq<Pc>, t: nat, kind: Kind)
    requires t < |ths|
    ensures Sum(ths, kind) >= Weight(ths[t], kind)
  {
    if t < |ths| - 1 {
      SumHas(ths[..|ths| - 1], t, kind);
    }
  }

  lemma {:induction false} SumHasTwo(ths: seq<Pc>, t: nat, u: nat, kind: Kind)
    requires t < u < |ths|
    ensures Sum(ths, kind) >= Weight(ths[t], kind) + Weight(ths[u], kind)
  {
    if u < |ths| - 1 {
      SumHasTwo(ths[..|ths| - 1], t, u, kind);
    } else {
      SumHas(ths[..|ths| - 1], t, kind);
    }
  }

  lemma {:induction false} SumWitness(ths: seq<Pc>, kind: Kind) returns (t: nat)
    requires Sum(ths, kind) > 0
    ensures t < |ths| && Weight(ths[t], kind) > 0
  {
    if Weight(ths[|ths| - 1], kind) > 0 {
      t := |ths| - 1;
    } else {
      t := SumWitness(ths[..|ths| - 1], kind);
    }
  }

  lemma {:induction false} SumAtMost(ths: seq<Pc>, c: nat)
    requires forall t :: 0 <= t < |ths| ==> Weight(ths[t], Budget) <= c
    ensures Sum(ths, Budget) <= c * |ths|
  {
    if ths != [] {
      SumAtMost(ths[..|ths| - 1], c);
      assert c * |ths| == c * (|ths| - 1) + c;
    }
  }

  // ----- mutual exclusion and quiescence -----

  ghost predicate ThreadOk(s: State, pc: Pc) {
    match pc
    case Held(k) => k == s.begun
    case WaitSync(last) => last <= s.begun && (!s.sync ==> last <= s.ended)
    case WaitCount(last) => last <= s.begun && (!s.sync ==> last <= s.ended)
    case _ => true
  }

  ghost predicate Inv(s: State) {
    && s.counter <= 1
    && Sum(s.threads, Holders) == (if s.counter == 1 then 0 else 1)
    && s.begun == s.ended + Sum(s.threads, Inside)
    && forall t :: 0 <= t < |s.threads| ==> ThreadOk(s, s.threads[t])
  }

  /** The holder is the only thread that can be inside a section. */
  lemma HolderIsInside(s: State, t: nat)
    requires Inv(s) && t < |s.threads| && IsHolder(s.threads[t])
    ensures s.counter <= 0 && s.begun == s.ended + (if s.threads[t].Held? then 1 else 0)
  {
    SumHas(s.threads, t, Holders);
    SumUpdate(s.threads, t, Idle, Holders);
    SumUpdate(s.threads, t, Idle, Inside);
    InsideHolds(s.threads[t := Idle]);
  }

  lemma StepKeepsThreads(s: State, a: Action, t: nat)
    requires Inv(s) && Enabled(s, a) && t < |s.threads|
    ensures ThreadOk(Step(s, a), Step(s, a).threads[t])
  {
    assert ThreadOk(s, s.threads[t]) && ThreadOk(s, s.threads[a.t]);
    if IsHolder(s.threads[a.t]) {
      HolderIsInside(s, a.t);
    }
    if t != a.t && s.threads[t].Held? {
      OnlyHolder(s, a.t, t);
    }
  }

  lemma StepKeepsInvariant(s: State, a: Action)
    requires Inv(s) && Enabled(s, a)
    ensures Inv(Step(s, a))
  {
    var s' := Step(s, a);
    var pc, pc' := s.threads[a.t], s'.threads[a.t];
    assert s'.threads == s.threads[a.t := pc'];
    SumUpdate(s.threads, a.t, pc', Holders);
    SumUpdate(s.threads, a.t, pc', Inside);
    assert ThreadOk(s, pc);
    if IsHolder(pc) {
      HolderIsInside(s, a.t);
    }
    forall t | 0 <= t < |s'.threads| ensures ThreadOk(s', s'.threads[t]) {
      StepKeepsThreads(s, a, t);
    }
  }

  lemma {:induction false} InsideHolds(ths: seq<Pc>)
    ensures Sum(ths, Inside) <= Sum(ths, Holders)
  {
    if ths != [] {
      InsideHolds(ths[..|ths| - 1]);
    }
  }

  /** While u holds the lock nobody else is about to end a section or to find the counter free. */
  lemma OnlyHolder(s: State, t: nat, u: nat)
    requires Inv(s) && t < |s.threads| && u < |s.threads| && t != u && IsHolder(s.threads[u])
    ensures !IsHolder(s.threads[t]) && s.counter <= 0
  {
    SumHas(s.threads, u, Holders);
    if t < u { SumHasTwo(s.threads, t, u, Holders); } else { SumHasTwo(s.threads, u, t, Holders); }
  }

  lemma {:induction false} SumIdle(ths: seq<Pc>, kind: Kind)
    requires (forall t :: 0 <= t < |ths| ==> ths[t].Idle?) && !kind.Budget?
    ensures Sum(ths, kind) == 0
  {
    if ths != [] {
      SumIdle(ths[..|ths| - 1], kind);
    }
  }

  lemma {:induction false} RunKeepsInvariant(n: nat, run: seq<Action>)
    requires Exec(n, run).Reached?
    ensures Inv(Exec(n, run).s)
  {
    if run == [] {
      SumIdle(Init(n).threads, Holders);
      SumIdle(Init(n).threads, Inside);
    } else {
      RunKeepsInvariant(n, run[..|run| - 1]);
      StepKeepsInvariant(Exec(n, run[..|run| - 1]).s, run[|run| - 1]);
    }
  }

  /** Spin lock. Over any interleaving of lock, trylock, unlock and waitlock the counter is 1
      exactly when nobody holds the lock, and otherwise at most 0 with exactly one holder. */
  lemma MutualExclusion(n: nat, run: seq<Action>)
    requires Exec(n, run).Reached?
    ensures var s := Exec(n, run).s;
      && (s.counter == 1 || s.counter <= 0)
      && (s.counter == 1 <==> forall t :: 0 <= t < n ==> !IsHolder(s.threads[t]))
      && (forall t, u :: 0 <= t < u < n ==> !(IsHolder(s.threads[t]) && IsHolder(s.threads[u])))
  {
    RunKeepsInvariant(n, run);
    var s := Exec(n, run).s;
    forall t: nat, u: nat | t < u < n ensures !(IsHolder(s.threads[t]) && IsHolder(s.threads[u])) {
      SumHasTwo(s.threads, t, u, Holders);
    }
    forall t: nat | t < n && IsHolder(s.threads[t]) ensures s.counter != 1 {
      SumHas(s.threads, t, Holders);
    }
    if s.counter != 1 {
      var t := SumWitness(s.threads, Holders);
    }
  }

  /** Quiescence. Whenever waitlock can return, by either of its tests, every critical section
      begun when it set sync has reached its unlock: if one is still open it is a later one. */
  lemma WaitlockQuiescence(n: nat, run: seq<Action>, a: Action)
    requires Exec(n, run).Reached? && Enabled(Exec(n, run).s, a)
    requires a.WaitReadSync? || a.WaitReadCount?
    ensures var s := Exec(n, run).s;
      Step(s, a).threads[a.t].Idle? ==>
        && s.threads[a.t].last <= s.ended
        && forall u :: 0 <= u < n && s.threads[u].Held? ==> s.threads[u].k > s.threads[a.t].last
  {
    RunKeepsInvariant(n, run);
    var s := Exec(n, run).s;
    assert ThreadOk(s, s.threads[a.t]);
    InsideHolds(s.threads);
    if Step(s, a).threads[a.t].Idle? {
      forall u: nat | u < n && s.threads[u].Held? ensures s.threads[u].k > s.threads[a.t].last {
        assert ThreadOk(s, s.threads[u]);
        SumHas(s.threads, u, Inside);
      }
    }
  }

  // ----- how low the counter gets -----

  /** c = 1: only lock is used; c = 2: trylock may be mixed in. */
  ghost predicate Bounded(s: State, c: nat) {
    && 1 <= c <= 2
    && (forall t :: 0 <= t < |s.threads| ==> Weight(s.threads[t], Budget) <= c)
    && (s.counter != 1 ==> s.counter >= Sum(s.threads, Budget) - c * (|s.threads| - 1))
  }

  lemma AcquireBudget(ths: seq<Pc>, t: nat, c: nat)
    requires t < |ths| && IsHolder(ths[t]) && forall u :: 0 <= u < |ths| ==> Weight(ths[u], Budget) <= c
    ensures Sum(ths, Budget) <= c * (|ths| - 1)
  {
    var n := |ths| - 1;
    var moved := ths[t := ths[n]][..n];
    SumAtMost(moved, c);
    SumUpdate(ths, t, ths[n], Budget);
    assert ths[t := ths[n]][..n] == moved;
  }

  lemma StepKeepsWeights(s: State, a: Action, c: nat)
    requires Bounded(s, c) && Enabled(s, a) && (c == 1 ==> !a.TryRead?)
    ensures var ths := Step(s, a).threads; forall t :: 0 <= t < |ths| ==> Weight(ths[t], Budget) <= c
  {
  }

  lemma StepKeepsBounded(s: State, a: Action, c: nat)
    requires Inv(s) && Bounded(s, c) && Enabled(s, a) && (c == 1 ==> !a.TryRead?)
    ensures Bounded(Step(s, a), c)
  {
    var s' := Step(s, a);
    StepKeepsWeights(s, a, c);
    if s'.threads[a.t].Held? {
      AcquireBudget(s'.threads, a.t, c);
    }
    StepKeepsFloor(s, a, c * (|s.threads| - 1));
  }

  lemma StepKeepsFloor(s: State, a: Action, floor: int)
    requires Inv(s) && Enabled(s, a) && (s.counter != 1 ==> s.counter >= Sum(s.threads, Budget) - floor)
    requires Step(s, a).threads[a.t].Held? ==> Sum(Step(s, a).threads, Budget) <= floor
    ensures Step(s, a).counter != 1 ==> Step(s, a).counter >= Sum(Step(s, a).threads, Budget) - floor
  {
    var s' := Step(s, a);
    if !s'.threads[a.t].Held? {
      SumUpdate(s.threads, a.t, s'.threads[a.t], Budget);
      SumHas(s.threads, a.t, Holders);
    }
  }

  /** The counter never drops below 1 - N with lock alone, nor below 2 - 2N with trylock, so
      32 bits cannot wrap around with fewer than 2^30 threads. */
  lemma {:induction false} CounterBound(n: nat, run: seq<Action>, c: nat)
    requires Exec(n, run).Reached? && 1 <= c <= 2 && n >= 1
    requires c == 1 ==> forall k :: 0 <= k < |run| ==> !run[k].TryRead?
    ensures Bounded(Exec(n, run).s, c)
    ensures Exec(n, run).s.counter >= -(c * (n - 1))
  {
    if run != [] {
      CounterBound(n, run[..|run| - 1], c);
      RunKeepsInvariant(n, run[..|run| - 1]);
      StepKeepsBounded(Exec(n, run[..|run| - 1]).s, run[|run| - 1], c);
    }
  }

  lemma OneMore(n: nat, run: seq<Action>, a: Action)
    requires Exec(n, run).Reached? && Enabled(Exec(n, run).s, a)
    ensures Exec(n, run + [a]) == Reached(Step(Exec(n, run).s, a))
  {
    assert (run + [a])[..|run|] == run;
  }

  /** All threads but 0 pass the test of trylock while the lock is free. */
  lemma AllTry(n: nat) returns (run: seq<Action>)
    requires n >= 1
    ensures Exec(n, run).Reached? && Exec(n, run).s.counter == 1
    ensures var ths := Exec(n, run).s.threads; ths[0].Idle? && forall k :: 1 <= k < n ==> ths[k].TryDecr?
  {
    run := [];
    var i := 1;
    while i < n
      invariant 1 <= i <= n && Exec(n, run).Reached? && Exec(n, run).s.counter == 1
      invariant forall k :: 0 <= k < n ==> Exec(n, run).s.threads[k] == if 1 <= k < i then TryDecr else Idle
    {
      OneMore(n, run, TryRead(i));
      run := run + [TryRead(i)];
      i := i + 1;
    }
  }

  /** Thread t takes one decrement by lock, after one by trylock when it has passed that test. */
  lemma Sink(n: nat, run: seq<Action>, t: nat) returns (more: seq<Action>)
    requires Exec(n, run).Reached? && Exec(n, run).s.counter <= 0 && t < n
    requires Exec(n, run).s.threads[t].TryDecr? || Exec(n, run).s.threads[t].Idle?
    ensures Exec(n, more).Reached? && forall k :: 0 <= k < |more| && more[k].TryRead? ==> k < |run| && run[k].TryRead?
    ensures Exec(n, more).s.counter == Exec(n, run).s.counter - (if Exec(n, run).s.threads[t].TryDecr? then 2 else 1)
    ensures Exec(n, more).s.threads == Exec(n, run).s.threads[t := Spin]
  {
    more := run;
    if Exec(n, run).s.threads[t].TryDecr? {
      OneMore(n, more, TryDecrement(t));
      more := more + [TryDecrement(t)];
    }
    OneMore(n, more, Lock(t));
    more := more + [Lock(t)];
    OneMore(n, more, Decr(t));
    more := more + [Decr(t)];
  }

  /** Thread 0 holds the lock, and the others are about to decrement, by trylock if c is 2. */
  lemma OpenRun(n: nat, c: nat) returns (run: seq<Action>)
    requires n >= 1 && 1 <= c <= 2
    ensures Exec(n, run).Reached? && Exec(n, run).s.counter == 0
    ensures forall k :: 1 <= k < n ==> Exec(n, run).s.threads[k] == if c == 2 then TryDecr else Idle
    ensures c == 1 ==> forall k :: 0 <= k < |run| ==> !run[k].TryRead?
  {
    run := [];
    if c == 2 {
      run := AllTry(n);
    }
    OneMore(n, run, Lock(0));
    run := run + [Lock(0)];
    OneMore(n, run, Decr(0));
    run := run + [Decr(0)];
  }

  lemma OneLower(c: nat, i: nat)
    ensures c * i == c * (i - 1) + c
  {
  }

  /** The bounds are exact: for every number of threads some run reaches them. */
  lemma BoundIsReached(n: nat, c: nat) returns (run: seq<Action>)
    requires n >= 1 && 1 <= c <= 2
    ensures Exec(n, run).Reached? && Exec(n, run).s.counter == -(c * (n - 1))
    ensures c == 1 ==> forall k :: 0 <= k < |run| ==> !run[k].TryRead?
  {
    run := OpenRun(n, c);
    var i := 1;
    while i < n
      invariant 1 <= i <= n && Exec(n, run).Reached? && Exec(n, run).s.counter == -(c * (i - 1)) <= 0
      invariant forall k :: i <= k < n ==> Exec(n, run).s.threads[k] == if c == 2 then TryDecr else Idle
      invariant c == 1 ==> forall k :: 0 <= k < |run| ==> !run[k].TryRead?
    {
      OneLower(c, i);
      run := Sink(n, run, i);
      i := i + 1;
    }
  }

  // ----- a free lock is taken, a held one is freed -----

  /** What a thread inside a call does next. */
  function NextOf(pc: Pc, t: nat): Action
    requires !pc.Idle?
  {
    match pc
    case Acquire => Decr(t)
    case Spin => SpinRead(t)
    case TryDecr => TryDecrement(t)
    case Held(_) => Unlock(t)
    case UnlockTest => ReadSync(t)
    case UnlockClear => ClearSync(t)
    case UnlockStore => Store(t)
    case WaitSync(_) => WaitReadSync(t)
    case WaitCount(_) => WaitReadCount(t)
  }

  /** A thread inside a call has exactly one action, and it is never blocked. */
  lemma OneWayOn(s: State, t: nat, a: Action)
    requires t < |s.threads| && !s.threads[t].Idle? && a.t == t
    ensures Enabled(s, a) <==> a == NextOf(s.threads[t], t)
  {
  }

  /** n steps of thread t alone, as long as it is inside a call. */
  function Alone(s: State, t: nat, steps: nat): (s': State)
    requires t < |s.threads|
    ensures |s'.threads| == |s.threads|
    decreases steps
  {
    if steps == 0 || s.threads[t].Idle? then s else Alone(Step(s, NextOf(s.threads[t], t)), t, steps - 1)
  }

  lemma AloneOne(s: State, t: nat, steps: nat)
    requires t < |s.threads| && !s.threads[t].Idle? && steps >= 1
    ensures Enabled(s, NextOf(s.threads[t], t)) && Alone(s, t, steps) == Alone(Step(s, NextOf(s.threads[t], t)), t, steps - 1)
  {
  }

  /** In any state in which the lock is free, a thread inside lock holds it after at most two
      steps of its own. */
  lemma {:induction false} LockTakesFree(s: State, t: nat)
    requires t < |s.threads| && s.counter == 1
    ensures s.threads[t].Acquire? ==> Alone(s, t, 1).threads[t].Held?
    ensures s.threads[t].Spin? ==> Alone(s, t, 2).threads[t].Held?
  {
    if s.threads[t].Acquire? {
      AloneOne(s, t, 1);
    }
    if s.threads[t].Spin? {
      AloneOne(s, t, 2);
      AloneOne(Step(s, SpinRead(t)), t, 1);
    }
  }

  /** A trylock on a free lock gets it, and on one that is not free touches nothing. */
  lemma {:induction false} TrylockExactly(s: State, t: nat)
    requires t < |s.threads| && s.threads[t].Idle?
    ensures var s1 := Step(s, TryRead(t));
      if s.counter == 1 then Alone(s1, t, 1).threads[t].Held? && Alone(s1, t, 1).counter == 0
      else s1 == s
  {
    if s.counter == 1 {
      AloneOne(Step(s, TryRead(t)), t, 1);
    } else {
      assert s.threads[t := Idle] == s.threads;
    }
  }

  /** A waiter has returned after at most two steps of its own once the lock is free or sync is
      cleared, and never returns before. */
  lemma {:induction false} WaitlockReturns(s: State, t: nat)
    requires t < |s.threads| && (s.threads[t].WaitSync? || s.threads[t].WaitCount?)
    ensures s.counter >= 1 || !s.sync ==> Alone(s, t, 2).threads[t].Idle?
    ensures s.counter <= 0 && s.sync ==> !Step(s, NextOf(s.threads[t], t)).threads[t].Idle?
  {
    AloneOne(s, t, 2);
    var s1 := Step(s, NextOf(s.threads[t], t));
    if !s1.threads[t].Idle? {
      AloneOne(s1, t, 1);
    }
  }

  /** The holder frees the lock with at most four steps of its own, whatever the counter has
      dropped to, and clears a sync that was set before. */
  lemma {:induction false} UnlockFrees(s: State, t: nat)
    requires t < |s.threads| && s.threads[t].Held?
    ensures var s' := Alone(s, t, 4); s'.threads[t].Idle? && s'.counter == 1 && !s'.sync
  {
    AloneOne(s, t, 4);
    UnlockSteps(Step(s, Unlock(t)), t);
  }

  lemma {:induction false} UnlockSteps(s: State, t: nat)
    requires t < |s.threads| && s.threads[t].UnlockTest?
    ensures var s' := Alone(s, t, 3); s'.threads[t].Idle? && s'.counter == 1 && !s'.sync
  {
    AloneOne(s, t, 3);
    var s1 := Step(s, ReadSync(t));
    AloneOne(s1, t, 2);
    if s.sync {
      AloneOne(Step(s1, ClearSync(t)), t, 1);
    }
  }
}
