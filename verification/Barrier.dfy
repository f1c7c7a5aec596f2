/** The three-slot cyclic barrier: N threads each call wait any number of times; the last to
    arrive in a cycle publishes the next cycle and only then clears the slot after it. */
module Barrier {

  /** Got: the cycle has been read; Publish, Clear: what the last arriver still has to do. */
  datatype Pc = Out | Got(cycle: nat) | Publish(next: nat) | Clear(slot: nat) | Blocked(next: nat)

  datatype Thread = Thread(returned: nat, pc: Pc)

  /** Waits begun, and waits in which the thread has been counted. */
  function Entered(t: Thread): nat { t.returned + (if t.pc.Out? then 0 else 1) }

  function Arrived(t: Thread): nat { t.returned + (if t.pc.Out? || t.pc.Got? then 0 else 1) }

  /** published: how many times the cycle was advanced, a history variable. */
  datatype State = State(cycle: nat, count: seq<nat>, threads: seq<Thread>, published: nat)

  datatype Action = Enter(t: nat) | Arrive(t: nat) | Advance(t: nat) | Clean(t: nat) | Leave(t: nat)

  function Init(n: nat): State {
    State(0, [0, 0, 0], seq(n, i => Thread(0, Out)), 0)
  }

  predicate Enabled(s: State, a: Action) {
    && a.t < |s.threads| && |s.count| == 3
    && var pc := s.threads[a.t].pc;
    match a
    case Enter(_) => pc.Out?
    case Arrive(_) => pc.Got? && pc.cycle < 3
    case Advance(_) => pc.Publish?
    case Clean(_) => pc.Clear? && pc.slot < 3
    case Leave(_) => pc.Blocked? && s.cycle == pc.next
  }

  function Step(s: State, a: Action): State
    requires Enabled(s, a)
  {
    var th := s.threads[a.t];
    match a
    case Enter(t) => s.(threads := s.threads[t := th.(pc := Got(s.cycle))])
    case Arrive(t) =>
      var current := th.pc.cycle;
      var next := (current + 1) % 3;
      var arrived := s.count[current] + 1;
      s.(count := s.count[current := arrived],
         threads := s.threads[t := th.(pc := if arrived == |s.threads| then Publish(next) else Blocked(next))])
    case Advance(t) =>
      s.(cycle := th.pc.next, published := s.published + 1,
         threads := s.threads[t := th.(pc := Clear((th.pc.next + 1) % 3))])
    case Clean(t) =>
      s.(count := s.count[th.pc.slot := 0], threads := s.threads[t := Thread(th.returned + 1, Out)])
    case Leave(t) => s.(threads := s.threads[t := Thread(th.returned + 1, Out)])
  }

  datatype Outcome = Stuck | Reached(s: State)

  function Exec(n: nat, run: seq<Action>): (o: Outcome)
    ensures o.Reached? ==> |o.s.threads| == n && |o.s.count| == 3
  {
    if run == [] then Reached(Init(n))
    else
      var o := Exec(n, run[..|run| - 1]);
      if o.Reached? && Enabled(o.s, run[|run| - 1]) then Reached(Step(o.s, run[|run| - 1])) else Stuck
  }

  // ----- invariant -----

  /** What is counted over the threads: those counted in exactly e waits, the last arriver
      about to publish, the last arriver about to clear. */
  datatype Kind = InWaits(e: nat) | Publishing | Clearing

  predicate Is(th: Thread, kind: Kind) {
    match kind
    case InWaits(e) => Arrived(th) == e
    case Publishing => th.pc.Publish?
    case Clearing => th.pc.Clear?
  }

  function Number(ths: seq<Thread>, kind: Kind): nat {
    if ths == [] then 0 else Number(ths[..|ths| - 1], kind) + (if Is(ths[|ths| - 1], kind) then 1 else 0)
  }

  lemma {:induction false} NumberUpdate(ths: seq<Thread>, t: nat, x: Thread, kind: Kind)
    requires t < |ths|
    ensures Number(ths[t := x], kind)
         == Number(ths, kind) - (if Is(ths[t], kind) then 1 else 0) + (if Is(x, kind) then 1 else 0)
  {
    var n := |ths| - 1;
    if t == n {
      assert ths[t := x][..n] == ths[..n];
    } else {
      NumberUpdate(ths[..n], t, x, kind);
      assert ths[t := x][..n] == ths[..n][t := x];
    }
  }

  lemma {:induction false} NumberExtremes(ths: seq<Thread>, kind: Kind)
    ensures Number(ths, kind) <= |ths|
    ensures Number(ths, kind) == |ths| ==> forall t :: 0 <= t < |ths| ==> Is(ths[t], kind)
    ensures Number(ths, kind) == 0 ==> forall t :: 0 <= t < |ths| ==> !Is(ths[t], kind)
    ensures Number(ths, kind) > 0 ==> exists t :: 0 <= t < |ths| && Is(ths[t], kind)
    ensures Number(ths, kind) < |ths| ==> exists t :: 0 <= t < |ths| && !Is(ths[t], kind)
  {
    if ths != [] {
      NumberExtremes(ths[..|ths| - 1], kind);
    }
  }

  /** Where a thread can be while e cycles have been published. */
  ghost predicate ThreadOk(th: Thread, e: nat) {
    match th.pc
    case Out => th.returned == e
    case Got(c) => th.returned == e && c == e % 3
    case Publish(next) => th.returned == e && next == (e + 1) % 3
    case Clear(slot) => th.returned + 1 == e && slot == (e + 1) % 3
    case Blocked(next) => e <= th.returned + 1 <= e + 1 && next == (th.returned + 1) % 3
  }

  ghost predicate Inv(s: State) {
    var e := s.published;
    && |s.count| == 3 && |s.threads| >= 1
    && s.cycle == e % 3
    && (forall t :: 0 <= t < |s.threads| ==> ThreadOk(s.threads[t], e))
    && s.count[e % 3] == Number(s.threads, InWaits(e + 1))
    && Number(s.threads, Publishing) == (if s.count[e % 3] == |s.threads| then 1 else 0)
    && (Number(s.threads, Clearing) == 0 ==> s.count[(e + 1) % 3] == 0)
    && Number(s.threads, Clearing) <= 1
  }

  lemma UpdateAll(s: State, t: nat, x: Thread, e: nat)
    requires t < |s.threads|
    ensures var ths := s.threads[t := x];
      && Number(ths, InWaits(e)) == Number(s.threads, InWaits(e)) - (if Arrived(s.threads[t]) == e then 1 else 0) + (if Arrived(x) == e then 1 else 0)
      && Number(ths, Publishing) == Number(s.threads, Publishing) - (if s.threads[t].pc.Publish? then 1 else 0) + (if x.pc.Publish? then 1 else 0)
      && Number(ths, Clearing) == Number(s.threads, Clearing) - (if s.threads[t].pc.Clear? then 1 else 0) + (if x.pc.Clear? then 1 else 0)
  {
    NumberUpdate(s.threads, t, x, InWaits(e));
    NumberUpdate(s.threads, t, x, Publishing);
    NumberUpdate(s.threads, t, x, Clearing);
  }

  lemma EnterOrLeaveKeeps(s: State, a: Action)
    requires Inv(s) && Enabled(s, a) && (a.Enter? || a.Leave?)
    ensures Inv(Step(s, a))
  {
    UpdateAll(s, a.t, Step(s, a).threads[a.t], s.published + 1);
  }

  lemma ArriveKeeps(s: State, a: Action)
    requires Inv(s) && Enabled(s, a) && a.Arrive?
    ensures Inv(Step(s, a))
  {
    var s', e := Step(s, a), s.published;
    var th, x := s.threads[a.t], s'.threads[a.t];
    assert th.returned == e && th.pc == Got(e % 3) by { assert ThreadOk(th, e); }
    ArriveThread(s, a, e);
    assert s'.threads == s.threads[a.t := x];
    assert s.count[e % 3] < |s.threads| by {
      NumberExtremes(s.threads, InWaits(e + 1));
      assert !Is(th, InWaits(e + 1));
    }
    UpdateAll(s, a.t, x, e + 1);
  }

  /** The arriver is counted in the current slot only. */
  lemma ArriveThread(s: State, a: Action, e: nat)
    requires Enabled(s, a) && a.Arrive? && s.threads[a.t].returned == e && s.threads[a.t].pc == Got(e % 3)
    ensures var s' := Step(s, a); var x := s'.threads[a.t];
      && x.returned == e && ThreadOk(x, e) && !x.pc.Clear? && Arrived(x) == e + 1
      && (x.pc.Publish? <==> s'.count[e % 3] == |s.threads|)
      && s'.count[e % 3] == s.count[e % 3] + 1 && s'.count[(e + 1) % 3] == s.count[(e + 1) % 3]
      && s'.cycle == s.cycle && s'.published == s.published && |s'.count| == 3
  {
    assert (e % 3 + 1) % 3 == (e + 1) % 3 && (e + 1) % 3 != e % 3;
  }

  /** When the cycle advances everybody has arrived, nobody is still clearing, and the slot
      that becomes current is 0. */
  lemma AdvanceFindsCleanSlot(s: State, t: nat)
    requires Inv(s) && t < |s.threads| && s.threads[t].pc.Publish?
    ensures forall u :: 0 <= u < |s.threads| ==> Arrived(s.threads[u]) == s.published + 1
    ensures Number(s.threads, Clearing) == 0 && Number(s.threads, Publishing) == 1
    ensures s.threads[t].pc.next < 3 && s.count[s.threads[t].pc.next] == 0
  {
    NumberExtremes(s.threads, Publishing);
    NumberExtremes(s.threads, InWaits(s.published + 1));
    NumberExtremes(s.threads, Clearing);
    assert ThreadOk(s.threads[t], s.published);
  }

  lemma AdvanceKeeps(s: State, a: Action)
    requires Inv(s) && Enabled(s, a) && a.Advance?
    ensures Inv(Step(s, a))
  {
    var s' := Step(s, a);
    var e := s.published;
    AdvanceFindsCleanSlot(s, a.t);
    forall u | 0 <= u < |s'.threads| ensures ThreadOk(s'.threads[u], e + 1) {
      assert Arrived(s.threads[u]) == e + 1 && ThreadOk(s.threads[u], e);
      if u != a.t && s.threads[u].pc.Publish? {
        TwoOf(s.threads, u, a.t, Publishing);
      }
    }
    UpdateAll(s, a.t, s'.threads[a.t], e + 2);
    NumberExtremes(s.threads, InWaits(e + 2));
  }

  lemma {:induction false} TwoOf(ths: seq<Thread>, t: nat, u: nat, kind: Kind)
    requires t < |ths| && u < |ths| && t != u && Is(ths[t], kind) && Is(ths[u], kind)
    ensures Number(ths, kind) >= 2
  {
    var n := |ths| - 1;
    if t == n {
      NumberExtremes(ths[..n], kind);
      assert Is(ths[..n][u], kind);
    } else if u == n {
      NumberExtremes(ths[..n], kind);
      assert Is(ths[..n][t], kind);
    } else {
      TwoOf(ths[..n], t, u, kind);
    }
  }

  lemma CleanKeeps(s: State, a: Action)
    requires Inv(s) && Enabled(s, a) && a.Clean?
    ensures Inv(Step(s, a))
  {
    assert ThreadOk(s.threads[a.t], s.published);
    UpdateAll(s, a.t, Step(s, a).threads[a.t], s.published + 1);
    NumberExtremes(s.threads, Clearing);
  }

  lemma StepKeepsInvariant(s: State, a: Action)
    requires Inv(s) && Enabled(s, a)
    ensures Inv(Step(s, a)) && |Step(s, a).threads| == |s.threads|
  {
    match a {
      case Enter(_) => EnterOrLeaveKeeps(s, a);
      case Leave(_) => EnterOrLeaveKeeps(s, a);
      case Arrive(_) => ArriveKeeps(s, a);
      case Advance(_) => AdvanceKeeps(s, a);
      case Clean(_) => CleanKeeps(s, a);
    }
  }

  lemma {:induction false} RunKeepsInvariant(n: nat, run: seq<Action>)
    requires n >= 1 && Exec(n, run).Reached?
    ensures Inv(Exec(n, run).s) && |Exec(n, run).s.threads| == n
  {
    if run == [] {
      var ths := Init(n).threads;
      NumberExtremes(ths, InWaits(1));
      NumberExtremes(ths, Publishing);
      NumberExtremes(ths, Clearing);
    } else {
      RunKeepsInvariant(n, run[..|run| - 1]);
      StepKeepsInvariant(Exec(n, run[..|run| - 1]).s, run[|run| - 1]);
    }
  }

  // ----- main results -----

  /** Barrier safety. Over any interleaving, nobody has returned from its k-th wait before
      everybody entered theirs, and no two threads are more than one wait apart. */
  lemma {:induction false} BarrierSafety(n: nat, run: seq<Action>)
    requires n >= 1 && Exec(n, run).Reached?
    ensures var s := Exec(n, run).s;
      forall t, u :: 0 <= t < n && 0 <= u < n ==>
        && Entered(s.threads[u]) >= s.threads[t].returned
        && s.threads[t].returned <= s.threads[u].returned + 1
  {
    RunKeepsInvariant(n, run);
  }

  /** Slot recycling. When a cycle is published its slot is 0; the slot cleared late is
      neither the current one nor one any thread is about to count itself in. */
  lemma {:induction false} SlotRecycling(n: nat, run: seq<Action>, t: nat)
    requires n >= 1 && t < n && Exec(n, run).Reached?
    ensures var s := Exec(n, run).s; var pc := s.threads[t].pc;
      && (pc.Publish? ==> pc.next < 3 && s.count[pc.next] == 0)
      && (pc.Clear? ==> pc.slot != s.cycle && forall u :: 0 <= u < n && s.threads[u].pc.Got? ==> s.threads[u].pc.cycle != pc.slot)
      && (pc.Got? ==> pc.cycle == s.cycle)
  {
    RunKeepsInvariant(n, run);
    SlotsApart(Exec(n, run).s, t);
  }

  lemma SlotsApart(s: State, t: nat)
    requires Inv(s) && t < |s.threads|
    ensures var pc := s.threads[t].pc;
      && (pc.Publish? ==> pc.next < 3 && s.count[pc.next] == 0)
      && (pc.Clear? ==> pc.slot != s.cycle && forall u :: 0 <= u < |s.threads| && s.threads[u].pc.Got? ==> s.threads[u].pc.cycle != pc.slot)
      && (pc.Got? ==> pc.cycle == s.cycle)
  {
    var e := s.published;
    assert ThreadOk(s.threads[t], e);
    assert e % 3 != (e + 1) % 3;
    forall u | 0 <= u < |s.threads| && s.threads[u].pc.Got? ensures s.threads[u].pc.cycle == e % 3 {
      assert ThreadOk(s.threads[u], e);
    }
    if s.threads[t].pc.Publish? {
      AdvanceFindsCleanSlot(s, t);
    }
  }

  /** A waiter's test, once true, stays true whatever the others do until it leaves. */
  lemma {:induction false} ReleasedStaysReleased(n: nat, run: seq<Action>, a: Action, t: nat)
    requires n >= 1 && t < n && Exec(n, run).Reached?
    requires var s := Exec(n, run).s;
      Enabled(s, a) && a.t != t && s.threads[t].pc.Blocked? && s.cycle == s.threads[t].pc.next
    ensures var s := Exec(n, run).s; Step(s, a).cycle == s.threads[t].pc.next && Step(s, a).threads[t] == s.threads[t]
  {
    RunKeepsInvariant(n, run);
    var s := Exec(n, run).s;
    assert ThreadOk(s.threads[t], s.published);
    if a.Advance? {
      AdvanceFindsCleanSlot(s, a.t);
      assert false;
    }
  }

  /** Whatever the interleaving led to, some thread can step: the barrier cannot deadlock. */
  lemma {:induction false} NobodyStuck(n: nat, run: seq<Action>) returns (a: Action)
    requires n >= 1 && Exec(n, run).Reached?
    ensures Enabled(Exec(n, run).s, a)
  {
    RunKeepsInvariant(n, run);
    a := SomeStep(Exec(n, run).s);
  }

  lemma SomeStep(s: State) returns (a: Action)
    requires Inv(s)
    ensures Enabled(s, a)
  {
    var e, n := s.published, |s.threads|;
    NumberExtremes(s.threads, InWaits(e + 1));
    NumberExtremes(s.threads, Publishing);
    if Number(s.threads, InWaits(e + 1)) == n {
      var t :| 0 <= t < n && Is(s.threads[t], Publishing);
      a := Advance(t);
    } else {
      var t :| 0 <= t < n && !Is(s.threads[t], InWaits(e + 1));
      a := ThreadStep(s, t);
    }
  }

  /** A thread that is not counted in the current wait can step. */
  lemma ThreadStep(s: State, t: nat) returns (a: Action)
    requires t < |s.threads| && |s.count| == 3 && s.cycle == s.published % 3
    requires ThreadOk(s.threads[t], s.published) && Arrived(s.threads[t]) != s.published + 1
    ensures a.t == t && Enabled(s, a)
  {
    var pc := s.threads[t].pc;
    a := if pc.Out? then Enter(t) else if pc.Got? then Arrive(t) else if pc.Clear? then Clean(t) else Leave(t);
  }

  // ----- how long a wait lasts -----

  /** Steps a thread can take, from inside its k-th wait, before it is counted in the next one. */
  function StepsLeft(th: Thread, k: nat): nat {
    if th.returned < k then
      match th.pc
      case Out => 7
      case Got(_) => 6
      case Publish(_) => 5
      case Clear(_) => 4
      case Blocked(_) => 3
    else if th.pc.Out? then 2
    else if th.pc.Got? then 1
    else 0
  }

  function AllStepsLeft(ths: seq<Thread>, k: nat): nat {
    if ths == [] then 0 else AllStepsLeft(ths[..|ths| - 1], k) + StepsLeft(ths[|ths| - 1], k)
  }

  lemma {:induction false} StepsLeftUpdate(ths: seq<Thread>, t: nat, x: Thread, k: nat)
    requires t < |ths|
    ensures AllStepsLeft(ths[t := x], k) == AllStepsLeft(ths, k) - StepsLeft(ths[t], k) + StepsLeft(x, k)
  {
    var n := |ths| - 1;
    if t == n {
      assert ths[t := x][..n] == ths[..n];
    } else {
      StepsLeftUpdate(ths[..n], t, x, k);
      assert ths[t := x][..n] == ths[..n][t := x];
    }
  }

  lemma {:induction false} StepsLeftBound(ths: seq<Thread>, k: nat)
    requires forall t :: 0 <= t < |ths| ==> StepsLeft(ths[t], k) <= 6
    ensures AllStepsLeft(ths, k) <= 6 * |ths|
  {
    if ths != [] {
      StepsLeftBound(ths[..|ths| - 1], k);
    }
  }

  /** Thread u has not returned from its k-th wait, which all have entered. */
  ghost predicate Awaited(s: State, k: nat, u: nat) {
    u < |s.threads| && s.threads[u].returned < k && forall t :: 0 <= t < |s.threads| ==> Entered(s.threads[t]) >= k
  }

  /** While somebody is still in the k-th wait, every step of anybody brings its end nearer. */
  lemma StepIsProgress(s: State, a: Action, k: nat, u: nat)
    requires Inv(s) && Enabled(s, a) && k >= 1 && Awaited(s, k, u)
    ensures AllStepsLeft(Step(s, a).threads, k) < AllStepsLeft(s.threads, k)
    ensures forall t :: 0 <= t < |s.threads| ==> Entered(Step(s, a).threads[t]) >= k
  {
    var th, x := s.threads[a.t], Step(s, a).threads[a.t];
    assert ThreadOk(s.threads[u], s.published) && ThreadOk(th, s.published);
    assert Entered(s.threads[u]) >= k && Entered(th) >= k;
    assert Step(s, a).threads == s.threads[a.t := x];
    if th.pc.Publish? {
      AdvanceFindsCleanSlot(s, a.t);
    }
    StepsLeftUpdate(s.threads, a.t, x, k);
    OneThreadProgress(s, a, k, s.threads[u]);
  }

  lemma OneThreadProgress(s: State, a: Action, k: nat, y: Thread)
    requires Enabled(s, a) && k >= 1 && y.returned < k <= Entered(y) && ThreadOk(y, s.published) && s.cycle == s.published % 3
    requires ThreadOk(s.threads[a.t], s.published) && Entered(s.threads[a.t]) >= k
    requires s.threads[a.t].pc.Publish? ==> s.threads[a.t].returned < k
    ensures var x := Step(s, a).threads[a.t]; StepsLeft(x, k) < StepsLeft(s.threads[a.t], k) && Entered(x) >= k
  {
  }

  /** All threads have entered their k-th wait. */
  ghost predicate AllEntered(s: State, k: nat) {
    forall t :: 0 <= t < |s.threads| ==> Entered(s.threads[t]) >= k
  }

  lemma {:induction false} WaitStep(n: nat, run: seq<Action>, k: nat, u: nat)
    requires n >= 1 && k >= 1 && u < n && run != [] && Exec(n, run).Reached?
    requires var o := Exec(n, run[..|run| - 1]); AllEntered(o.s, k) && o.s.threads[u].returned < k
    ensures var s, s' := Exec(n, run[..|run| - 1]).s, Exec(n, run).s;
      AllStepsLeft(s'.threads, k) < AllStepsLeft(s.threads, k) && AllEntered(s', k)
  {
    RunKeepsInvariant(n, run[..|run| - 1]);
    StepIsProgress(Exec(n, run[..|run| - 1]).s, run[|run| - 1], k, u);
  }

  lemma StepReturns(s: State, a: Action, u: nat)
    requires Enabled(s, a) && u < |s.threads|
    ensures s.threads[u].returned <= Step(s, a).threads[u].returned
  {
  }

  lemma {:induction false} ReturnedGrows(n: nat, run: seq<Action>, u: nat)
    requires run != [] && Exec(n, run).Reached? && u < n
    ensures Exec(n, run[..|run| - 1]).Reached?
    ensures Exec(n, run[..|run| - 1]).s.threads[u].returned <= Exec(n, run).s.threads[u].returned
  {
    StepReturns(Exec(n, run[..|run| - 1]).s, run[|run| - 1], u);
  }

  /** Bounded wait. Once all threads have entered their k-th wait, after p steps of a run, at most
      six steps a thread, in any order, are taken before all have returned from it: here u has
      not returned before the last step. */
  lemma {:induction false} WaitIsBounded(n: nat, run: seq<Action>, p: nat, k: nat, u: nat)
    requires n >= 1 && k >= 1 && u < n && p <= |run| && Exec(n, run).Reached?
    requires Exec(n, run[..p]).Reached? && AllEntered(Exec(n, run[..p]).s, k)
    requires p < |run| ==> Exec(n, run[..|run| - 1]).s.threads[u].returned < k
    ensures |run| - p + AllStepsLeft(Exec(n, run).s.threads, k) <= AllStepsLeft(Exec(n, run[..p]).s.threads, k) <= 6 * n
    ensures AllEntered(Exec(n, run).s, k)
  {
    if p == |run| {
      assert run[..p] == run;
      StepsLeftBound(Exec(n, run).s.threads, k);
    } else {
      var before := run[..|run| - 1];
      assert before[..p] == run[..p];
      if p < |before| {
        ReturnedGrows(n, before, u);
      }
      WaitIsBounded(n, before, p, k, u);
      WaitStep(n, run, k, u);
    }
  }
}
