/** Execution of a data-flow graph: a completing task walks its activation list, atomically
    increments the counter of each successor and pushes it ready when the counter is 0 modulo
    wc. Any number of tasks do so concurrently; counters are never reset, so the same graph
    can be replayed. */
module TaskRun {
  import opened Arith
  import opened TaskGraph

  /** Pushing(k): the increment for link k fired and the push is the next step. */
  datatype Status =
    | Waiting | Ready(queue: nat) | Running
    | Activating(k: nat) | Pushing(k: nat) | Done

  /** pushes: tasks pushed ready in this round, with their queue; executed: cnt_exec. */
  datatype State = State(
    status: seq<Status>, counter: seq<int>, pushes: seq<(nat, nat)>, executed: nat, round: nat)

  datatype Action =
    | Start(i: nat)              // popped from its queue
    | Finish(i: nat)             // its body has returned
    | Activate(i: nat)           // one increment of its activation loop
    | Push(i: nat, queue: nat)
    | End(i: nat)
    | Replay

  /** taskdescr_activated, on the value the atomic increment returned. */
  predicate Fires(counter: int, wc: nat)
    requires wc > 0
  {
    counter % wc == 0
  }

  function InitStatus(g: Graph): seq<Status>
  {
    seq(|g.links|, i => if 0 <= i < |g.wc| && g.wc[i] == 0 then Ready(0) else Waiting)
  }

  /** The initial ready list: every task nothing points to, pushed without a counter test. */
  function Sources(g: Graph, n: nat): seq<(nat, nat)> {
    if n == 0 then [] else Sources(g, n - 1) + (if n <= |g.wc| && g.wc[n - 1] == 0 then [(n - 1, 0)] else [])
  }

  function Init(g: Graph): State {
    State(InitStatus(g), seq(|g.links|, i => 0), Sources(g, |g.links|), 0, 0)
  }

  predicate Fits(g: Graph, s: State) {
    |g.wc| == |g.links| == |s.status| == |s.counter|
  }

  predicate AllDone(s: State) {
    forall i :: 0 <= i < |s.status| ==> s.status[i].Done?
  }

  predicate Enabled(g: Graph, s: State, a: Action)
    requires Fits(g, s)
  {
    match a
    case Start(i) => i < |s.status| && s.status[i].Ready?
    case Finish(i) => i < |s.status| && s.status[i].Running?
    case Activate(i) => i < |s.status| && s.status[i].Activating? && s.status[i].k < |g.links[i]|
        && g.links[i][s.status[i].k] < |s.status| && g.wc[g.links[i][s.status[i].k]] > 0
    case Push(i, _) => i < |s.status| && s.status[i].Pushing? && s.status[i].k < |g.links[i]|
        && g.links[i][s.status[i].k] < |s.status|
    case End(i) => i < |s.status| && s.status[i].Activating? && s.status[i].k >= |g.links[i]|
    case Replay => AllDone(s)
  }

  function Step(g: Graph, s: State, a: Action): State
    requires Fits(g, s) && Enabled(g, s, a)
  {
    match a
    case Start(i) => s.(status := s.status[i := Running])
    case Finish(i) => s.(status := s.status[i := Activating(0)], executed := s.executed + 1)
    case Activate(i) =>
      var k := s.status[i].k;
      var j := g.links[i][k];
      var value := s.counter[j] + 1;
      s.(counter := s.counter[j := value],
         status := s.status[i := if Fires(value, g.wc[j]) then Pushing(k) else Activating(k + 1)])
    case Push(i, q) =>
      var k := s.status[i].k;
      var j := g.links[i][k];
      s.(status := s.status[i := Activating(k + 1)][j := Ready(q)], pushes := s.pushes + [(j, q)])
    case End(i) => s.(status := s.status[i := Done])
    case Replay => State(InitStatus(g), s.counter, Sources(g, |g.links|), 0, s.round + 1)
  }

  datatype Outcome = Stuck | Reached(s: State)

  function Exec(g: Graph, run: seq<Action>): (o: Outcome)
    requires |g.wc| == |g.links|
    ensures o.Reached? ==> Fits(g, o.s)
  {
    if run == [] then Reached(Init(g))
    else
      var o := Exec(g, run[..|run| - 1]);
      if o.Reached? && Enabled(g, o.s, run[|run| - 1]) then Reached(Step(g, o.s, run[|run| - 1])) else Stuck
  }

  // ----- what is summed over the tasks -----

  /** Arrived(j): increments of j's counter made in this round; Expected(j): links to j;
      Pending(j): pushes of j decided and not made; Completed: bodies returned; Fuel: steps a
      task can still take in this round. */
  datatype Kind = Arrived(j: nat) | Expected(j: nat) | Pending(j: nat) | Completed | Fuel

  predicate IsCompleted(st: Status) { st.Activating? || st.Pushing? || st.Done? }

  /** How many links of its list a task has processed. */
  function Progress(list: seq<nat>, st: Status): nat {
    if st.Done? then |list|
    else if st.Activating? && st.k <= |list| then st.k
    else if st.Pushing? && st.k < |list| then st.k + 1
    else 0
  }

  function FuelOf(n: nat, st: Status): nat {
    match st
    case Waiting => 2 * n + 4
    case Ready(_) => 2 * n + 3
    case Running => 2 * n + 2
    case Activating(k) => if k <= n then 2 * (n - k) + 1 else 1
    case Pushing(k) => if k < n then 2 * (n - k) else 0
    case Done => 0
  }

  function Weight(list: seq<nat>, st: Status, kind: Kind): nat {
    match kind
    case Arrived(j) => Occurs(list[..Progress(list, st)], j)
    case Expected(j) => Occurs(list, j)
    case Pending(j) => if st.Pushing? && st.k < |list| && list[st.k] == j then 1 else 0
    case Completed => if IsCompleted(st) then 1 else 0
    case Fuel => FuelOf(|list|, st)
  }

  function Sum(g: Graph, status: seq<Status>, n: nat, kind: Kind): nat
    requires n <= |g.links| && n <= |status|
  {
    if n == 0 then 0 else Sum(g, status, n - 1, kind) + Weight(g.links[n - 1], status[n - 1], kind)
  }

  function Total(g: Graph, s: State, kind: Kind): nat
    requires Fits(g, s)
  {
    Sum(g, s.status, |g.links|, kind)
  }

  lemma {:induction false} SumUpdate(g: Graph, status: seq<Status>, n: nat, i: nat, st: Status, kind: Kind)
    requires n <= |g.links| && n <= |status| && i < |status| && i < |g.links|
    ensures Sum(g, status[i := st], n, kind)
         == Sum(g, status, n, kind) + (if i < n then Weight(g.links[i], st, kind) - Weight(g.links[i], status[i], kind) else 0)
  {
    if n > 0 {
      SumUpdate(g, status, n - 1, i, st, kind);
    }
  }

  lemma {:induction false} ExpectedIsWc(g: Graph, status: seq<Status>, n: nat, j: nat)
    requires n <= |g.links| && n <= |status|
    ensures Sum(g, status, n, Expected(j)) == LinksTo(g.links, n, j)
  {
    if n > 0 {
      ExpectedIsWc(g, status, n - 1, j);
    }
  }

  lemma {:induction false} OccursPrefix(list: seq<nat>, k: nat, j: nat)
    requires k <= |list|
    ensures Occurs(list[..k], j) <= Occurs(list, j)
    ensures k < |list| && list[k] == j ==> Occurs(list[..k], j) < Occurs(list, j)
    ensures k < |list| ==> Occurs(list[..k + 1], j) == Occurs(list[..k], j) + (if list[k] == j then 1 else 0)
    decreases |list| - k
  {
    if k < |list| {
      assert list[..k + 1][..k] == list[..k];
      if k + 1 == |list| {
        assert list[..k + 1] == list;
      } else {
        OccursPrefix(list, k + 1, j);
      }
    } else {
      assert list[..k] == list;
    }
  }

  lemma {:induction false} OccursSome(list: seq<nat>, k: nat, j: nat)
    requires k < |list| && list[k] == j
    ensures Occurs(list, j) > 0
  {
    OccursPrefix(list, k, j);
  }

  /** No more arrivals than links, for all tasks together and for each. */
  lemma {:induction false} ArrivedBound(g: Graph, status: seq<Status>, n: nat, j: nat)
    requires n <= |g.links| && n <= |status|
    ensures Sum(g, status, n, Arrived(j)) <= Sum(g, status, n, Expected(j))
    ensures forall i: nat :: i < n && Occurs(g.links[i][..Progress(g.links[i], status[i])], j) < Occurs(g.links[i], j) ==>
      Sum(g, status, n, Arrived(j)) < Sum(g, status, n, Expected(j))
  {
    if n > 0 {
      ArrivedBound(g, status, n - 1, j);
      OccursPrefix(g.links[n - 1], Progress(g.links[n - 1], status[n - 1]), j);
    }
  }

  /** If every task below n is done, all their links have arrived. */
  lemma {:induction false} DoneArrives(g: Graph, status: seq<Status>, n: nat, j: nat)
    requires n <= |g.links| && n <= |status|
    requires forall i: nat :: i < n ==> status[i].Done? || Occurs(g.links[i], j) == 0
    ensures Sum(g, status, n, Arrived(j)) == Sum(g, status, n, Expected(j))
  {
    if n > 0 {
      DoneArrives(g, status, n - 1, j);
      var list := g.links[n - 1];
      if status[n - 1].Done? {
        assert list[..|list|] == list;
      } else {
        OccursPrefix(list, Progress(list, status[n - 1]), j);
      }
    }
  }

  lemma {:induction false} ZeroSum(g: Graph, status: seq<Status>, n: nat, kind: Kind)
    requires n <= |g.links| && n <= |status|
    requires forall i: nat :: i < n ==> Weight(g.links[i], status[i], kind) == 0
    ensures Sum(g, status, n, kind) == 0
  {
    if n > 0 {
      ZeroSum(g, status, n - 1, kind);
    }
  }

  lemma {:induction false} AllCompleted(g: Graph, status: seq<Status>, n: nat)
    requires n <= |g.links| && n <= |status|
    ensures Sum(g, status, n, Completed) <= n
    ensures Sum(g, status, n, Completed) == n <==> forall i: nat :: i < n ==> IsCompleted(status[i])
  {
    if n > 0 {
      AllCompleted(g, status, n - 1);
    }
  }

  /** Times task j was pushed. */
  function Pushed(pushes: seq<(nat, nat)>, j: nat): nat {
    if pushes == [] then 0
    else Pushed(pushes[..|pushes| - 1], j) + (if pushes[|pushes| - 1].0 == j then 1 else 0)
  }

  lemma PushedAppend(pushes: seq<(nat, nat)>, x: (nat, nat), j: nat)
    ensures Pushed(pushes + [x], j) == Pushed(pushes, j) + (if x.0 == j then 1 else 0)
  {
    assert (pushes + [x])[..|pushes|] == pushes;
  }

  lemma {:induction false} SourcesPushed(g: Graph, n: nat, j: nat)
    requires n <= |g.wc|
    ensures Pushed(Sources(g, n), j) == if j < n && g.wc[j] == 0 then 1 else 0
  {
    if n > 0 {
      SourcesPushed(g, n - 1, j);
      if g.wc[n - 1] == 0 {
        PushedAppend(Sources(g, n - 1), (n - 1, 0), j);
      } else {
        assert Sources(g, n - 1) + [] == Sources(g, n - 1);
      }
    }
  }

  // ----- invariant -----

  /** The counter of task j, and what it says about j's pushes. */
  ghost predicate TaskOk(g: Graph, s: State, j: nat)
    requires Fits(g, s) && j < |g.wc|
  {
    && s.counter[j] == s.round * g.wc[j] + Total(g, s, Arrived(j))
    && Pushed(s.pushes, j) + Total(g, s, Pending(j)) == (if Total(g, s, Arrived(j)) == g.wc[j] then 1 else 0)
    && (s.status[j].Waiting? <==> Pushed(s.pushes, j) == 0)
  }

  ghost predicate Inv(g: Graph, s: State) {
    && Fits(g, s) && WellBuilt(g)
    && (forall j: nat :: j < |g.wc| ==> TaskOk(g, s, j))
    && (forall i: nat :: i < |g.links| ==>
          && (s.status[i].Activating? ==> s.status[i].k <= |g.links[i]|)
          && (s.status[i].Pushing? ==> s.status[i].k < |g.links[i]|))
    && s.executed == Total(g, s, Completed)
  }

  lemma ModuloFires(round: nat, wc: nat, arrived: nat)
    requires wc > 0 && 1 <= arrived <= wc
    ensures Fires(round * wc + arrived, wc) <==> arrived == wc
  {
    assert round * wc >= 0 by { MulMono(0, round, wc); }
    if arrived == wc {
      DivUnique(round * wc + arrived, wc, round + 1);
    } else {
      DivUnique(round * wc + arrived, wc, round);
    }
  }

  /** Weights of a single task that changes from st to st' with its list processed as far. */
  lemma QuietChange(list: seq<nat>, st: Status, st': Status, kind: Kind)
    requires Progress(list, st) == Progress(list, st') && !st.Pushing? && !st'.Pushing? && !kind.Fuel?
    requires kind.Completed? ==> IsCompleted(st) == IsCompleted(st')
    ensures Weight(list, st, kind) == Weight(list, st', kind)
  {
  }

  lemma QuietStepKeeps(g: Graph, s: State, i: nat, st: Status)
    requires Inv(g, s) && i < |s.status| && !st.Pushing? && !s.status[i].Pushing? && !s.status[i].Waiting? && !st.Waiting?
    requires Progress(g.links[i], s.status[i]) == Progress(g.links[i], st)
    requires st.Activating? ==> st.k <= |g.links[i]|
    ensures var s' := s.(status := s.status[i := st],
                         executed := if IsCompleted(st) && !IsCompleted(s.status[i]) then s.executed + 1 else s.executed);
      (IsCompleted(s.status[i]) ==> IsCompleted(st)) ==> Inv(g, s')
  {
    var more := if IsCompleted(st) && !IsCompleted(s.status[i]) then 1 else 0;
    var s' := s.(status := s.status[i := st], executed := s.executed + more);
    if IsCompleted(s.status[i]) ==> IsCompleted(st) {
      SumUpdate(g, s.status, |g.links|, i, st, Completed);
      forall j: nat | j < |g.wc| ensures TaskOk(g, s', j) {
        assert TaskOk(g, s, j);
        SumUpdate(g, s.status, |g.links|, i, st, Arrived(j));
        QuietChange(g.links[i], s.status[i], st, Arrived(j));
        SumUpdate(g, s.status, |g.links|, i, st, Pending(j));
        QuietChange(g.links[i], s.status[i], st, Pending(j));
      }
    }
  }

  /** The value the increment returns fires exactly on the last arrival of the round. */
  lemma ActivateFires(g: Graph, s: State, i: nat)
    requires Inv(g, s) && Enabled(g, s, Activate(i))
    ensures var j := g.links[i][s.status[i].k];
      && Total(g, s, Arrived(j)) < g.wc[j]
      && (Fires(s.counter[j] + 1, g.wc[j]) <==> Total(g, s, Arrived(j)) + 1 == g.wc[j])
  {
    var k := s.status[i].k;
    var j := g.links[i][k];
    assert TaskOk(g, s, j);
    ArrivedBound(g, s.status, |g.links|, j);
    ExpectedIsWc(g, s.status, |g.links|, j);
    OccursPrefix(g.links[i], k, j);
    ModuloFires(s.round, g.wc[j], Total(g, s, Arrived(j)) + 1);
  }

  lemma ActivateTaskOk(g: Graph, s: State, i: nat, j': nat)
    requires Inv(g, s) && Enabled(g, s, Activate(i)) && j' < |g.wc|
    ensures TaskOk(g, Step(g, s, Activate(i)), j')
  {
    var k := s.status[i].k;
    var st := Step(g, s, Activate(i)).status[i];
    ActivateFires(g, s, i);
    assert TaskOk(g, s, j');
    SumUpdate(g, s.status, |g.links|, i, st, Arrived(j'));
    OccursPrefix(g.links[i], k, j');
    SumUpdate(g, s.status, |g.links|, i, st, Pending(j'));
  }

  lemma ActivateKeeps(g: Graph, s: State, i: nat)
    requires Inv(g, s) && Enabled(g, s, Activate(i))
    ensures Inv(g, Step(g, s, Activate(i)))
  {
    var k := s.status[i].k;
    var j := g.links[i][k];
    var s' := Step(g, s, Activate(i));
    var st := s'.status[i];
    ActivateFires(g, s, i);
    SumUpdate(g, s.status, |g.links|, i, st, Completed);
    forall j': nat | j' < |g.wc| ensures TaskOk(g, s', j') {
      ActivateTaskOk(g, s, i, j');
    }
  }

  /** A push moves one unit from pending to pushed and changes no other weight. */
  lemma PushWeights(g: Graph, s: State, i: nat, q: nat, kind: Kind)
    requires Inv(g, s) && Enabled(g, s, Push(i, q)) && !kind.Fuel?
    ensures var j := g.links[i][s.status[i].k];
      Total(g, Step(g, s, Push(i, q)), kind) == Total(g, s, kind) - (if kind == Pending(j) then 1 else 0)
  {
    var k := s.status[i].k;
    var j := g.links[i][k];
    PushTargetWaits(g, s, i);
    SumUpdate(g, s.status, |g.links|, i, Activating(k + 1), kind);
    SumUpdate(g, s.status[i := Activating(k + 1)], |g.links|, j, Ready(q), kind);
  }

  lemma PushKeeps(g: Graph, s: State, i: nat, q: nat)
    requires Inv(g, s) && Enabled(g, s, Push(i, q))
    ensures Inv(g, Step(g, s, Push(i, q)))
  {
    var j := g.links[i][s.status[i].k];
    var s' := Step(g, s, Push(i, q));
    PushTargetWaits(g, s, i);
    PushWeights(g, s, i, q, Completed);
    forall j': nat | j' < |g.wc| ensures TaskOk(g, s', j') {
      assert TaskOk(g, s, j');
      PushedAppend(s.pushes, (j, q), j');
      PushWeights(g, s, i, q, Arrived(j'));
      PushWeights(g, s, i, q, Pending(j'));
    }
  }

  lemma {:induction false} WeightInSum(g: Graph, status: seq<Status>, n: nat, i: nat, kind: Kind)
    requires n <= |g.links| && n <= |status| && i < n
    ensures Weight(g.links[i], status[i], kind) <= Sum(g, status, n, kind)
  {
    if i < n - 1 {
      WeightInSum(g, status, n - 1, i, kind);
    }
  }

  /** A decided push finds its target unpushed: nobody else pushed it or will. */
  lemma PushTargetWaits(g: Graph, s: State, i: nat)
    requires Inv(g, s) && i < |s.status| && s.status[i].Pushing?
    ensures var j := g.links[i][s.status[i].k];
      && i != j && s.status[j].Waiting? && Total(g, s, Pending(j)) == 1 && Total(g, s, Arrived(j)) == g.wc[j]
  {
    var j := g.links[i][s.status[i].k];
    assert TaskOk(g, s, j);
    WeightInSum(g, s.status, |g.links|, i, Pending(j));
  }

  lemma AllDoneTotals(g: Graph, s: State, j: nat)
    requires Inv(g, s) && AllDone(s) && j < |g.wc|
    ensures Total(g, s, Arrived(j)) == g.wc[j] && s.counter[j] == (s.round + 1) * g.wc[j]
    ensures Pushed(s.pushes, j) == 1
  {
    assert TaskOk(g, s, j);
    DoneArrives(g, s.status, |g.links|, j);
    ExpectedIsWc(g, s.status, |g.links|, j);
    ZeroSum(g, s.status, |g.links|, Pending(j));
  }

  /** A fresh round, whatever the number of rounds before it. */
  lemma FreshRound(g: Graph, s: State)
    requires WellBuilt(g) && Fits(g, s) && s.status == InitStatus(g) && s.pushes == Sources(g, |g.links|)
    requires s.executed == 0 && forall j: nat :: j < |g.wc| ==> s.counter[j] == s.round * g.wc[j]
    ensures Inv(g, s)
  {
    FreshTotals(g, s, 0);
    forall j: nat | j < |g.wc| ensures TaskOk(g, s, j) {
      FreshTask(g, s, j);
    }
  }

  /** A task that has not run has processed no link and decided no push. */
  lemma FreshWeight(list: seq<nat>, st: Status, j: nat)
    requires st.Waiting? || st.Ready?
    ensures Weight(list, st, Arrived(j)) == 0 && Weight(list, st, Pending(j)) == 0 && Weight(list, st, Completed) == 0
  {
    assert list[..0] == [];
  }

  lemma FreshTotals(g: Graph, s: State, j: nat)
    requires Fits(g, s) && s.status == InitStatus(g)
    ensures Total(g, s, Arrived(j)) == 0 && Total(g, s, Pending(j)) == 0 && Total(g, s, Completed) == 0
  {
    forall i: nat | i < |g.links|
      ensures Weight(g.links[i], s.status[i], Arrived(j)) == 0
      ensures Weight(g.links[i], s.status[i], Pending(j)) == 0
      ensures Weight(g.links[i], s.status[i], Completed) == 0
    {
      FreshWeight(g.links[i], s.status[i], j);
    }
    ZeroSum(g, s.status, |g.links|, Arrived(j));
    ZeroSum(g, s.status, |g.links|, Pending(j));
    ZeroSum(g, s.status, |g.links|, Completed);
  }

  lemma FreshTask(g: Graph, s: State, j: nat)
    requires WellBuilt(g) && Fits(g, s) && s.status == InitStatus(g) && s.pushes == Sources(g, |g.links|)
    requires j < |g.wc| && s.counter[j] == s.round * g.wc[j]
    ensures TaskOk(g, s, j)
  {
    FreshTotals(g, s, j);
    SourcesPushed(g, |g.links|, j);
  }

  lemma StepKeepsInvariant(g: Graph, s: State, a: Action)
    requires Inv(g, s) && Enabled(g, s, a)
    ensures Inv(g, Step(g, s, a))
  {
    match a {
      case Start(i) => QuietStepKeeps(g, s, i, Running);
      case Finish(i) => QuietStepKeeps(g, s, i, Activating(0));
      case Activate(i) => ActivateKeeps(g, s, i);
      case Push(i, q) => PushKeeps(g, s, i, q);
      case End(i) => QuietStepKeeps(g, s, i, Done);
      case Replay =>
        forall j: nat | j < |g.wc| ensures s.counter[j] == (s.round + 1) * g.wc[j] {
          AllDoneTotals(g, s, j);
        }
        FreshRound(g, Step(g, s, a));
    }
  }

  lemma {:induction false} RunKeepsInvariant(g: Graph, run: seq<Action>)
    requires WellBuilt(g) && Exec(g, run).Reached?
    ensures Inv(g, Exec(g, run).s)
  {
    if run == [] {
      FreshRound(g, Init(g));
    } else {
      RunKeepsInvariant(g, run[..|run| - 1]);
      StepKeepsInvariant(g, Exec(g, run[..|run| - 1]).s, run[|run| - 1]);
    }
  }

  /** Data-flow safety, in every state of every interleaving and in every round: no task is
      pushed twice; a task that left Waiting was pushed exactly once, and every task with a
      link to it has completed; and an increment never divides by zero or finds its list out
      of range. */
  lemma DataFlowSafety(g: Graph, run: seq<Action>)
    requires WellBuilt(g) && Exec(g, run).Reached?
    ensures var s := Exec(g, run).s;
      && (forall j: nat :: j < |g.wc| ==> Pushed(s.pushes, j) <= 1)
      && (forall j: nat :: j < |g.wc| ==> (s.status[j].Waiting? <==> Pushed(s.pushes, j) == 0))
      && (forall i: nat, k: nat :: i < |g.links| && k < |g.links[i]| && !s.status[g.links[i][k]].Waiting? ==>
            IsCompleted(s.status[i]))
      && (forall i: nat :: i < |g.links| && s.status[i].Activating? ==> Enabled(g, s, Activate(i)) || Enabled(g, s, End(i)))
  {
    RunKeepsInvariant(g, run);
    var s := Exec(g, run).s;
    forall j: nat | j < |g.wc|
      ensures Pushed(s.pushes, j) <= 1 && (s.status[j].Waiting? <==> Pushed(s.pushes, j) == 0)
    {
      assert TaskOk(g, s, j);
    }
    forall i: nat, k: nat | i < |g.links| && k < |g.links[i]| && !s.status[g.links[i][k]].Waiting?
      ensures IsCompleted(s.status[i])
    {
      var j := g.links[i][k];
      assert TaskOk(g, s, j);
      ArrivedBound(g, s.status, |g.links|, j);
      ExpectedIsWc(g, s.status, |g.links|, j);
      OccursSome(g.links[i], k, j);
    }
    forall i: nat | i < |g.links| && s.status[i].Activating?
      ensures Enabled(g, s, Activate(i)) || Enabled(g, s, End(i))
    {
      var k := s.status[i].k;
      if k < |g.links[i]| {
        var j := g.links[i][k];
        ArrivedBound(g, s.status, |g.links|, j);
        ExpectedIsWc(g, s.status, |g.links|, j);
        OccursPrefix(g.links[i], k, j);
      }
    }
  }

  /** The task is in a ready queue only if it was pushed to that one. */
  ghost predicate InItsQueue(s: State, j: nat)
    requires j < |s.status|
  {
    s.status[j].Ready? ==> (j, s.status[j].queue) in s.pushes
  }

  lemma {:induction false} SourceIsPushed(g: Graph, n: nat, j: nat)
    requires j < n <= |g.wc| && g.wc[j] == 0
    ensures (j, 0) in Sources(g, n)
  {
    if j < n - 1 {
      SourceIsPushed(g, n - 1, j);
    }
  }

  lemma StepKeepsQueue(g: Graph, s: State, a: Action, j: nat)
    requires Fits(g, s) && Enabled(g, s, a) && j < |s.status| && InItsQueue(s, j)
    ensures InItsQueue(Step(g, s, a), j)
  {
    if a.Replay? && g.wc[j] == 0 {
      SourceIsPushed(g, |g.links|, j);
    }
  }

  /** In every interleaving and round a task waits to be started only in a queue it was pushed
      to, and by DataFlowSafety that is one. */
  lemma {:induction false} ReadyWherePushed(g: Graph, run: seq<Action>, j: nat)
    requires WellBuilt(g) && Exec(g, run).Reached? && j < |g.links|
    ensures InItsQueue(Exec(g, run).s, j)
  {
    if run == [] {
      if g.wc[j] == 0 {
        SourceIsPushed(g, |g.links|, j);
      }
    } else {
      ReadyWherePushed(g, run[..|run| - 1], j);
      StepKeepsQueue(g, Exec(g, run[..|run| - 1]).s, run[|run| - 1], j);
    }
  }

  lemma {:induction false} LeastUndone(s: State, n: nat) returns (i: nat)
    requires n <= |s.status| && exists i: nat :: i < n && !s.status[i].Done?
    ensures i < n && !s.status[i].Done? && forall k: nat :: k < i ==> s.status[k].Done?
  {
    if exists i: nat :: i < n - 1 && !s.status[i].Done? {
      i := LeastUndone(s, n - 1);
    } else {
      i := n - 1;
    }
  }

  /** Data-flow progress and reuse. While some task is not done, some task is ready, running or
      activating and can step; when all are done every body ran once, each task was pushed
      exactly once, and the counters are at (round + 1) * wc, ready for the next replay. */
  lemma DataFlowProgress(g: Graph, run: seq<Action>)
    requires WellBuilt(g) && Exec(g, run).Reached?
    ensures var s := Exec(g, run).s;
      && (!AllDone(s) ==> exists a: Action :: !a.Replay? && Enabled(g, s, a))
      && s.executed <= |g.links|
      && (AllDone(s) ==>
            && s.executed == |g.links|
            && forall j: nat :: j < |g.wc| ==> Pushed(s.pushes, j) == 1 && s.counter[j] == (s.round + 1) * g.wc[j])
  {
    RunKeepsInvariant(g, run);
    var s := Exec(g, run).s;
    AllCompleted(g, s.status, |g.links|);
    if AllDone(s) {
      forall j: nat | j < |g.wc| ensures Pushed(s.pushes, j) == 1 && s.counter[j] == (s.round + 1) * g.wc[j] {
        AllDoneTotals(g, s, j);
      }
    } else {
      var a := NextAction(g, run);
    }
  }

  lemma NextAction(g: Graph, run: seq<Action>) returns (a: Action)
    requires WellBuilt(g) && Exec(g, run).Reached? && !AllDone(Exec(g, run).s)
    ensures !a.Replay? && Enabled(g, Exec(g, run).s, a)
  {
    RunKeepsInvariant(g, run);
    DataFlowSafety(g, run);
    var s := Exec(g, run).s;
    var w :| 0 <= w < |s.status| && !s.status[w].Done?;
    var w': nat := w;
    assert w' < |s.status| && !s.status[w'].Done?;
    var i := LeastUndone(s, |s.status|);
    assert TaskOk(g, s, i);
    LeastIsPushed(g, s, i);
    match s.status[i] {
      case Ready(_) => a := Start(i);
      case Running => a := Finish(i);
      case Activating(k) => a := if k < |g.links[i]| then Activate(i) else End(i);
      case Pushing(_) => a := Push(i, 0);
    }
  }

  /** The first task that is not done has been pushed: nothing it waits for is left. */
  lemma LeastIsPushed(g: Graph, s: State, i: nat)
    requires Inv(g, s) && i < |s.status| && !s.status[i].Done? && forall k: nat :: k < i ==> s.status[k].Done?
    ensures !s.status[i].Waiting?
  {
    assert TaskOk(g, s, i);
    forall p: nat | p < |g.links| ensures s.status[p].Done? || Occurs(g.links[p], i) == 0 {
      if p >= i {
        OccursNone(g.links[p], i);
      }
    }
    DoneArrives(g, s.status, |g.links|, i);
    ExpectedIsWc(g, s.status, |g.links|, i);
    ZeroSum(g, s.status, |g.links|, Pending(i));
  }

  /** Every step but a replay uses up fuel, so a round cannot go on for ever. */
  lemma StepUsesFuel(g: Graph, s: State, a: Action)
    requires Inv(g, s) && Enabled(g, s, a) && !a.Replay?
    ensures Total(g, Step(g, s, a), Fuel) < Total(g, s, Fuel)
  {
    var i := a.i;
    var st := Step(g, s, a).status[i];
    if a.Push? {
      PushTargetWaits(g, s, i);
      var j := g.links[i][s.status[i].k];
      SumUpdate(g, s.status, |g.links|, i, st, Fuel);
      SumUpdate(g, s.status[i := st], |g.links|, j, Ready(a.queue), Fuel);
    } else {
      SumUpdate(g, s.status, |g.links|, i, st, Fuel);
    }
  }

  /** From any reached state, in any round, the steps up to the next replay are at most as many
      as the fuel there; with DataFlowProgress, the round ends with every task done. */
  lemma {:induction false} RoundIsFinite(g: Graph, past: seq<Action>, run: seq<Action>)
    requires WellBuilt(g) && Exec(g, past + run).Reached?
    requires forall k :: 0 <= k < |run| ==> !run[k].Replay?
    ensures Exec(g, past).Reached? && |run| + Total(g, Exec(g, past + run).s, Fuel) <= Total(g, Exec(g, past).s, Fuel)
  {
    if run == [] {
      assert past + run == past;
    } else {
      var before := run[..|run| - 1];
      assert (past + run)[..|past + run| - 1] == past + before;
      RoundIsFinite(g, past, before);
      RunKeepsInvariant(g, past + before);
      StepUsesFuel(g, Exec(g, past + before).s, run[|run| - 1]);
    }
  }

  /** Every replay starts with the fuel of the first round. */
  lemma ReplayRefuels(g: Graph, run: seq<Action>)
    requires WellBuilt(g) && Exec(g, run + [Replay]).Reached?
    ensures Total(g, Exec(g, run + [Replay]).s, Fuel) == Total(g, Init(g), Fuel)
  {
    assert (run + [Replay])[..|run|] == run;
  }
}
