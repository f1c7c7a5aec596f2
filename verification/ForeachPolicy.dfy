/** How much the workers of the adaptive loop take: the chunks given to the body, the halves that
    thieves ask for, and the shares that splitters deal out. */
module ForeachPolicy {
  import opened Arith
  import opened Ranges
  import opened WorkSplit
  import opened ForeachLoop
  import opened ForeachProof

  function Size(r: Range): int {
    r.hi - r.lo
  }

  // ----- what a thief asks for -----

  /** A thief that looks for a victim while work is left probes the one that was chosen, unless
      that is itself. */
  lemma SelectProbes(c: Config, s: State, a: Action)
    requires ValidConfig(c) && a.Own? && OwnEnabled(c, s, a) && s.ws[a.t].pc.Select?
    ensures Step(c, s, a).ws[a.t].pc ==
      if s.workremain == 0 then Next else if a.v == a.t then Select else Probe(a.v)
  {
  }

  /** It tries a victim for half of the size it read, rounded down, and goes on to another one
      exactly when the victim's work is not initialised or not larger than parGrain. */
  lemma ProbeAsksHalf(c: Config, s: State, a: Action)
    requires ValidConfig(c) && a.Own? && OwnEnabled(c, s, a) && s.ws[a.t].pc.Probe?
    ensures var v, pc := s.ws[a.t].pc.v, Step(c, s, a).ws[a.t].pc;
      if s.ws[v].init && a.size > c.parGrain
      then pc.Steal? && pc.v == v && 2 * pc.n <= a.size < 2 * pc.n + 2
      else pc == Select
  {
    DivBound(a.size, 2);
  }

  /** When nobody disturbs it, a thief that read the size of its victim's queue gets the back
      half, and what it gets and what it leaves differ by at most one iteration. */
  lemma UndisturbedSteal(c: Config, s: State, t: nat, v: nat)
    requires Inv(c, s) && t < |s.ws| && v < |s.ws| && s.ws[t].pc == Probe(v)
    requires s.ws[v].init && Size(s.ws[v].q) > c.parGrain
    ensures var probe := Own(t, v, Size(s.ws[v].q), false);
      Enabled(c, s, probe) && var s1 := Step(c, s, probe);
      var steal := Own(t, v, 0, true);
      Enabled(c, s1, steal) && var s2 := Step(c, s1, steal);
      && s2.ws[t].pc.Got? && s2.ws[t].pc.r == Range(s2.ws[v].q.hi, s.ws[v].q.hi) && s2.ws[v].q.lo == s.ws[v].q.lo
      && 0 <= Size(s2.ws[v].q) - Size(s2.ws[t].pc.r) <= 1
  {
    assert ThreadOk(c, t, s.ws[t], s.slices, s.workremain);
    var q := s.ws[v].q;
    DivBound(Size(q), 2);
    var s1 := Step(c, s, Own(t, v, Size(q), false));
    assert s1.ws[t].pc == Steal(v, Size(q) / 2) && s1.ws[v] == s.ws[v];
    assert Steals(s1, Own(t, v, 0, true));
  }

  // ----- what the body is given -----

  /** The iterations a worker can choose its next chunk from. */
  function AtHand(x: Thread): int {
    if x.pc.PopLocal? then Size(x.q) else if x.pc.Got? then Size(x.pc.r) else 0
  }

  /** A worker that enters the body takes seqGrain iterations, or all it has at hand if fewer, and
      leaves the rest in its queue. */
  lemma ChunkExactly(c: Config, s: State, a: Action)
    requires Inv(c, s) && a.Own? && OwnEnabled(c, s, a) && (s.ws[a.t].pc.PopLocal? || s.ws[a.t].pc.Got?)
    ensures var x, x' := s.ws[a.t], Step(c, s, a).ws[a.t];
      if AtHand(x) == 0 then x'.pc.Drained?
      else x'.pc.Body? && Size(x'.q) == AtHand(x) - Size(x'.pc.r)
           && Size(x'.pc.r) == if AtHand(x) < c.seqGrain then AtHand(x) else c.seqGrain
  {
    assert ThreadOk(c, a.t, s.ws[a.t], s.slices, s.workremain);
  }

  ghost predicate Chunked(c: Config, s: State) {
    && (forall t :: 0 <= t < |s.ws| && s.ws[t].pc.Body? ==> Size(s.ws[t].pc.r) <= c.seqGrain)
    && (forall k :: 0 <= k < |s.executed| ==> Size(s.executed[k]) <= c.seqGrain)
  }

  lemma OwnChunked(c: Config, s: State, a: Action)
    requires Inv(c, s) && Chunked(c, s) && a.Own? && OwnEnabled(c, s, a)
    ensures Chunked(c, Step(c, s, a))
  {
    var s' := Step(c, s, a);
    if s.ws[a.t].pc.PopLocal? || s.ws[a.t].pc.Got? {
      ChunkExactly(c, s, a);
    }
    forall t | 0 <= t < |s'.ws| && s'.ws[t].pc.Body? ensures Size(s'.ws[t].pc.r) <= c.seqGrain {
      if t != a.t {
        OthersStay(c, s, a, t);
      } else {
        BodyFrom(c, s, a);
      }
    }
    ExecutedFrom(c, s, a);
  }

  lemma OthersStay(c: Config, s: State, a: Action, t: nat)
    requires ValidConfig(c) && a.Own? && OwnEnabled(c, s, a) && t < |s.ws| && t != a.t
    ensures Step(c, s, a).ws[t].pc == s.ws[t].pc
  {
  }

  lemma BodyFrom(c: Config, s: State, a: Action)
    requires ValidConfig(c) && a.Own? && OwnEnabled(c, s, a) && Step(c, s, a).ws[a.t].pc.Body?
    ensures s.ws[a.t].pc.PopLocal? || s.ws[a.t].pc.Got?
  {
  }

  lemma ExecutedFrom(c: Config, s: State, a: Action)
    requires ValidConfig(c) && a.Own? && OwnEnabled(c, s, a)
    ensures Step(c, s, a).executed == s.executed + (if s.ws[a.t].pc.Body? then [s.ws[a.t].pc.r] else [])
  {
  }

  lemma SplitChunked(c: Config, s: State, a: Action)
    requires ValidConfig(c) && Chunked(c, s) && !a.Own? && SplitEnabled(c, s, a)
    ensures Chunked(c, Step(c, s, a))
  {
    var s' := Step(c, s, a);
    forall t | 0 <= t < |s'.ws| && s'.ws[t].pc.Body? ensures s'.ws[t].pc == s.ws[t].pc {
    }
  }

  /** Over every interleaving the body is never given more than seqGrain iterations. */
  lemma {:induction false} ChunksBounded(c: Config, run: seq<Action>)
    requires ValidConfig(c) && Exec(c, run).Reached?
    ensures Chunked(c, Exec(c, run).s)
  {
    if run != [] {
      var before, a := run[..|run| - 1], run[|run| - 1];
      ChunksBounded(c, before);
      RunKeepsInvariant(c, before);
      if a.Own? {
        OwnChunked(c, Exec(c, before).s, a);
      } else {
        SplitChunked(c, Exec(c, before).s, a);
      }
    }
  }

  // ----- leaving the loop -----

  /** Own steps a worker takes before it leaves, once workremain is 0. */
  function StepsToLeave(x: Thread): nat {
    match x.pc
    case Done => 0
    case Sub => if x.mode == Final then 1 else 3
    case Fetch => 2
    case Next => 2
    case Select => 3
    case Drained => 4
    case First1 => 4
    case AnyTest => 4
    case Steal(_, _) => 4
    case PopLocal => 5
    case Probe(_) => 5
    case AnyFirst => 5
    case AnyUnset(_) => 5
    case Unset(_) => 6
    case _ => 0
  }

  lemma LeavingNext(c: Config, t: int, x: Thread, slices: set<nat>)
    requires Running(c, t, x, slices, 0) && InNext(x.pc)
    ensures StepsToLeave(NextStep(c, x, 0).x) < StepsToLeave(x)
  {
  }

  lemma LeavingPop(c: Config, t: int, x: Thread, slices: set<nat>, v: nat)
    requires Running(c, t, x, slices, 0) && InPop(x.pc)
    ensures StepsToLeave(PopStep(c, x, slices, 0, v).x) < StepsToLeave(x)
  {
  }

  lemma NoWorkAtZero(c: Config, t: int, x: Thread, slices: set<nat>)
    requires Running(c, t, x, slices, 0)
    ensures x.q.hi <= x.q.lo && !x.pc.Check? && !x.pc.Got? && !x.pc.Body?
  {
  }

  /** Once workremain is 0, every own step of every worker brings it nearer to leaving the loop,
      within at most six steps and two from the head of worknext; it stays 0. */
  lemma ZeroMeansLeave(c: Config, s: State, a: Action)
    requires Inv(c, s) && s.workremain == 0 && a.Own? && OwnEnabled(c, s, a)
    ensures var s' := Step(c, s, a); s'.workremain == 0 && StepsToLeave(s'.ws[a.t]) < StepsToLeave(s.ws[a.t]) <= 6
  {
    RunningThread(c, s, a.t);
    var x := s.ws[a.t];
    NoWorkAtZero(c, a.t, x, s.slices);
    if x.pc.Steal? {
      assert ThreadOk(c, a.t, x, s.slices, s.workremain);
      RunningThread(c, s, x.pc.v);
      NoWorkAtZero(c, x.pc.v, s.ws[x.pc.v], s.slices);
    }
    if InNext(x.pc) {
      NextOk(c, a.t, x, s.slices, 0);
      LeavingNext(c, a.t, x, s.slices);
    } else if InPop(x.pc) {
      LeavingPop(c, a.t, x, s.slices, a.v);
    }
  }

  // ----- what a splitter deals out -----

  /** The state after some more actions, if every one was enabled in turn. */
  function From(c: Config, s: State, run: seq<Action>): Outcome
    requires ValidConfig(c)
    decreases |run|
  {
    if run == [] then Reached(s)
    else if Enabled(c, s, run[0]) then From(c, Step(c, s, run[0]), run[1..])
    else Stuck
  }

  lemma FromStep(c: Config, s: State, a: Action, run: seq<Action>)
    requires ValidConfig(c) && Enabled(c, s, a)
    ensures From(c, s, [a] + run) == From(c, Step(c, s, a), run)
  {
    assert ([a] + run)[1..] == run;
  }

  /** A splitter takes all the reserved slices of the threads whose requests it has, and no other. */
  lemma ClaimTakesAll(c: Config, s: State, v: nat)
    requires ValidConfig(c) && v < |s.ws| && s.ws[v].split.Claiming?
    ensures Enabled(c, s, SplitClaim(v))
    ensures var reqs, s' := s.ws[v].split.reqs, Step(c, s, SplitClaim(v));
      && s'.ws[v].split == Claimed(reqs, s.slices * reqs) && s'.slices == s.slices - reqs
  {
    assert s.slices - s.slices * s.ws[v].split.reqs == s.slices - s.ws[v].split.reqs;
  }

  /** Claimed slices are given out until none is left. */
  lemma {:induction false} GiveAll(c: Config, s: State, v: nat) returns (run: seq<Action>, s': State)
    requires Inv(c, s) && v < |s.ws| && s.ws[v].split.Claimed? && s.workremain != 0
    ensures From(c, s, run) == Reached(s') && Given(c, s, s', v, s.ws[v].split.slices)
    decreases |s.ws[v].split.slices|
  {
    if s.ws[v].split.slices == {} {
      run, s' := [], s;
    } else {
      var t, s1 := GiveStep(c, s, v);
      var more;
      more, s' := GiveAll(c, s1, v);
      FromStep(c, s, SplitGive(v, t), more);
      run := [SplitGive(v, t)] + more;
      GivenMore(c, s, s1, s', v, t, s.ws[v].split.slices);
    }
  }

  /** The threads of who have their slices, and nobody else but v was touched. */
  ghost predicate Given(c: Config, s: State, s': State, v: nat, who: set<nat>) {
    && |s'.ws| == |s.ws| && v !in who
    && (forall t :: t in who ==> HasSlice(c, s', t))
    && (forall t :: 0 <= t < |s.ws| && t != v && t !in who ==> s'.ws[t] == s.ws[t])
  }

  lemma GivenMore(c: Config, s: State, s1: State, s': State, v: nat, t: nat, who: set<nat>)
    requires Given(c, s, s1, v, {t}) && t in who && Given(c, s1, s', v, who - {t})
    ensures Given(c, s, s', v, who)
  {
    var one := {t};
    assert t in one && HasSlice(c, s1, t);
    assert v !in who by { assert v in who ==> v in one || v in who - one; }
    forall k | k in who ensures HasSlice(c, s', k) {
      assert k in one || k in who - one;
    }
  }

  /** Thread t starts with its reserved slice, whole. */
  predicate HasSlice(c: Config, s: State, t: nat) {
    t < |s.ws| && s.ws[t].q == Slice(c, t) && s.ws[t].init && s.ws[t].pc == Fetch
  }

  lemma GiveStep(c: Config, s: State, v: nat) returns (t: nat, s1: State)
    requires Inv(c, s) && v < |s.ws| && s.ws[v].split.Claimed? && s.workremain != 0 && s.ws[v].split.slices != {}
    ensures t in s.ws[v].split.slices
    ensures Enabled(c, s, SplitGive(v, t)) && s1 == Step(c, s, SplitGive(v, t)) && Inv(c, s1) && s1.workremain == s.workremain
    ensures Given(c, s, s1, v, {t}) && s1.ws[v].split.Claimed? && s1.ws[v].split.slices == s.ws[v].split.slices - {t}
  {
    t := SomeClaim(c, s, v);
    StepKeepsInvariant(c, s, SplitGive(v, t));
    s1 := Step(c, s, SplitGive(v, t));
  }

  lemma SomeClaim(c: Config, s: State, v: nat) returns (t: nat)
    requires Inv(c, s) && v < |s.ws| && s.ws[v].split.Claimed? && s.ws[v].split.slices != {}
    ensures t in s.ws[v].split.slices && t < |s.ws| && t != v && Enabled(c, s, SplitGive(v, t))
  {
    assert ThreadOk(c, v, s.ws[v], s.slices, s.workremain);
    t :| t in s.ws[v].split.slices;
    assert Asks(s.ws, v, t);
  }

  /** When nobody disturbs it, a splitter gives every thread whose request it has and whose slice
      is unclaimed that slice, and takes no other slice out of the map. */
  lemma ReservedAreServed(c: Config, s: State, v: nat) returns (run: seq<Action>, s': State)
    requires Inv(c, s) && v < |s.ws| && s.ws[v].split.Collect? && s.ws[v].split.reqs * s.slices != {} && s.workremain != 0
    ensures From(c, s, run) == Reached(s') && |s'.ws| == |s.ws|
    ensures forall t :: t in s.ws[v].split.reqs * s.slices ==> HasSlice(c, s', t)
  {
    var s1 := PeekClaims(c, s, v);
    ClaimTakesAll(c, s1, v);
    StepKeepsInvariant(c, s1, SplitClaim(v));
    var s2 := Step(c, s1, SplitClaim(v));
    var more;
    more, s' := GiveAll(c, s2, v);
    FromStep(c, s1, SplitClaim(v), more);
    FromStep(c, s, SplitPeek(v), [SplitClaim(v)] + more);
    run := [SplitPeek(v)] + ([SplitClaim(v)] + more);
  }

  /** While work is left, any enrolled thread without a splitter can be asked by any thread
      outside the loop, whose request then is in the splitter's list. */
  lemma RequestJoins(c: Config, s: State, v: nat, t: nat) returns (s': State)
    requires Inv(c, s) && v < |s.ws| && t < |s.ws| && t != v && s.workremain != 0
    requires Enrolled(s.ws[v]) && s.ws[v].split.NoSplit? && s.ws[t].pc.Outside?
    ensures From(c, s, [SplitStart(v)] + [SplitJoin(v, t)]) == Reached(s') && Inv(c, s') && |s'.ws| == |s.ws|
    ensures s'.ws[v].split == Collect({t}) && s'.ws[t].pc == Waiting(v) && s'.slices == s.slices && s'.workremain == s.workremain
  {
    var s1 := SplitBegins(c, s, v);
    StepKeepsInvariant(c, s1, SplitJoin(v, t));
    s' := Step(c, s1, SplitJoin(v, t));
    assert {} + {t} == {t};
    FromStep(c, s1, SplitJoin(v, t), []);
    FromStep(c, s, SplitStart(v), [SplitJoin(v, t)]);
    assert [SplitJoin(v, t)] + [] == [SplitJoin(v, t)];
  }

  lemma SplitBegins(c: Config, s: State, v: nat) returns (s1: State)
    requires Inv(c, s) && v < |s.ws| && s.workremain != 0 && Enrolled(s.ws[v]) && s.ws[v].split.NoSplit?
    ensures Enabled(c, s, SplitStart(v)) && s1 == Step(c, s, SplitStart(v)) && Inv(c, s1)
    ensures s1 == s.(ws := s.ws[v := s.ws[v].(split := Collect({}))])
  {
    StepKeepsInvariant(c, s, SplitStart(v));
    s1 := Step(c, s, SplitStart(v));
    assert s.slices - {} == s.slices && s.executed + [] == s.executed;
  }

  /** It looks for work in its victim's queue exactly when no such slice is left. */
  lemma PeekClaims(c: Config, s: State, v: nat) returns (s1: State)
    requires Inv(c, s) && v < |s.ws| && s.ws[v].split.Collect? && s.ws[v].split.reqs != {}
    ensures Enabled(c, s, SplitPeek(v)) && s1 == Step(c, s, SplitPeek(v)) && Inv(c, s1)
    ensures |s1.ws| == |s.ws| && s1.slices == s.slices && s1.workremain == s.workremain
    ensures s1.ws[v].split == if s.ws[v].split.reqs * s.slices == {} then Local(s.ws[v].split.reqs) else Claiming(s.ws[v].split.reqs)
  {
    StepKeepsInvariant(c, s, SplitPeek(v));
    s1 := Step(c, s, SplitPeek(v));
    assert s.slices - {} == s.slices;
  }

  /** n of k requests and the victim get a piece of unit iterations, at least grain, out of size;
      with all served no larger pieces fit, and otherwise not one more piece of a grain. */
  predicate FairPlan(size: int, k: int, grain: int, n: int, unit: int) {
    && unit >= grain && (n + 1) * unit <= size
    && (if n == k then size < (unit + 1) * (k + 1) else 1 <= n < k && unit == grain && size < (n + 2) * grain)
  }

  /** For the other requests it cuts its victim's queue, given the size it read: it gives up
      exactly when the work is not initialised or smaller than two grains. */
  lemma SizeDecides(c: Config, s: State, v: nat, size: nat)
    requires Inv(c, s) && v < |s.ws| && s.ws[v].split.Local?
    ensures Enabled(c, s, SplitSize(v, size))
    ensures var k, sp := |s.ws[v].split.reqs|, Step(c, s, SplitSize(v, size)).ws[v].split;
      && sp.reqs == s.ws[v].split.reqs
      && (sp.Closing? <==> !s.ws[v].init || size < 2 * c.parGrain)
      && (sp.Closing? || sp.Cut?)
      && (sp.Cut? ==> FairPlan(size, k, c.parGrain, sp.nreq, sp.unit))
  {
    assert ThreadOk(c, v, s.ws[v], s.slices, s.workremain);
    if size > c.parGrain {
      PlanFits(size, |s.ws[v].split.reqs|, c.parGrain);
    }
  }

  /** It then takes the pieces together from the back of the queue when there is that much. */
  lemma CutTakesBack(c: Config, s: State, v: nat)
    requires ValidConfig(c) && v < |s.ws| && s.ws[v].split.Cut?
    ensures Enabled(c, s, SplitSteal(v, true))
    ensures var sp, q, x' := s.ws[v].split, s.ws[v].q, Step(c, s, SplitSteal(v, true)).ws[v];
      if sp.nreq * sp.unit <= Size(q)
      then x'.split == Deal(sp.reqs, sp.nreq, sp.unit, Range(x'.q.hi, q.hi)) && x'.q.lo == q.lo
           && q.hi - x'.q.hi == sp.nreq * sp.unit
      else x'.split == Closing(sp.reqs) && x'.q == q
  {
  }

  /** And serves each request with one piece of exactly the planned size, the last one first. */
  lemma DealIsEven(c: Config, s: State, v: nat, t: nat)
    requires ValidConfig(c) && v < |s.ws| && t < |s.ws| && t != v
    requires s.ws[v].split.Deal? && s.ws[v].split.nreq > 0 && t in s.ws[v].split.reqs
    ensures Enabled(c, s, SplitDeal(v, t))
    ensures var sp, s' := s.ws[v].split, Step(c, s, SplitDeal(v, t));
      && s'.ws[t].q == Range(sp.r.hi - sp.unit, sp.r.hi) && s'.ws[t].init && s'.ws[t].pc == Fetch
      && s'.ws[v].split == Deal(sp.reqs - {t}, sp.nreq - 1, sp.unit, Range(sp.r.lo, sp.r.hi - sp.unit))
  {
  }

  /** Each of the threads has a fresh queue of unit iterations. */
  ghost predicate Served(s: State, who: set<nat>, unit: int) {
    forall t :: t in who ==> t < |s.ws| && s.ws[t].pc == Fetch && s.ws[t].init && Size(s.ws[t].q) == unit
  }

  /** Dealing goes on until all planned requests are served. */
  lemma {:induction false} DealAll(c: Config, s: State, v: nat) returns (run: seq<Action>, s': State, who: set<nat>)
    requires Inv(c, s) && v < |s.ws| && s.ws[v].split.Deal?
    ensures From(c, s, run) == Reached(s') && who <= s.ws[v].split.reqs && v !in who
    ensures |who| == s.ws[v].split.nreq && Served(s', who, s.ws[v].split.unit)
    ensures |s'.ws| == |s.ws| && s'.ws[v].q == s.ws[v].q
    ensures forall t :: 0 <= t < |s.ws| && t != v && t !in who ==> s'.ws[t] == s.ws[t]
    decreases s.ws[v].split.nreq
  {
    assert s.ws[v].split.nreq >= 0 by { assert ThreadOk(c, v, s.ws[v], s.slices, s.workremain); }
    if s.ws[v].split.nreq == 0 {
      run, s', who := [], s, {};
    } else {
      var t, s1 := DealStep(c, s, v);
      var more, rest;
      more, s', rest := DealAll(c, s1, v);
      FromStep(c, s, SplitDeal(v, t), more);
      run, who := [SplitDeal(v, t)] + more, rest + {t};
    }
  }

  /** One more request is served; nobody else is touched. */
  lemma DealStep(c: Config, s: State, v: nat) returns (t: nat, s1: State)
    requires Inv(c, s) && v < |s.ws| && s.ws[v].split.Deal? && s.ws[v].split.nreq > 0
    ensures t < |s.ws| && t != v && t in s.ws[v].split.reqs
    ensures Enabled(c, s, SplitDeal(v, t)) && s1 == Step(c, s, SplitDeal(v, t)) && Inv(c, s1)
    ensures |s1.ws| == |s.ws| && s1.ws[v].q == s.ws[v].q && Served(s1, {t}, s.ws[v].split.unit)
    ensures var sp, sp1 := s.ws[v].split, s1.ws[v].split;
      sp1.Deal? && sp1.reqs == sp.reqs - {t} && sp1.nreq == sp.nreq - 1 && sp1.unit == sp.unit
    ensures forall k :: 0 <= k < |s.ws| && k != v && k != t ==> s1.ws[k] == s.ws[k]
  {
    t := SomeRequest(c, s, v);
    StepKeepsInvariant(c, s, SplitDeal(v, t));
    s1 := Step(c, s, SplitDeal(v, t));
    DealTouches(c, s, v, t);
  }

  lemma SomeRequest(c: Config, s: State, v: nat) returns (t: nat)
    requires Inv(c, s) && v < |s.ws| && s.ws[v].split.Deal? && s.ws[v].split.nreq > 0
    ensures t < |s.ws| && t != v && t in s.ws[v].split.reqs && Enabled(c, s, SplitDeal(v, t))
  {
    assert ThreadOk(c, v, s.ws[v], s.slices, s.workremain);
    t :| t in s.ws[v].split.reqs;
    assert Asks(s.ws, v, t);
  }

  lemma DealTouches(c: Config, s: State, v: nat, t: nat)
    requires ValidConfig(c) && v < |s.ws| && t < |s.ws| && t != v
    requires s.ws[v].split.Deal? && s.ws[v].split.nreq > 0 && t in s.ws[v].split.reqs
    ensures Enabled(c, s, SplitDeal(v, t))
    ensures var s1 := Step(c, s, SplitDeal(v, t)); var sp, sp1 := s.ws[v].split, s1.ws[v].split;
      && |s1.ws| == |s.ws| && s1.ws[v].q == s.ws[v].q && Served(s1, {t}, sp.unit)
      && sp1.Deal? && sp1.reqs == sp.reqs - {t} && sp1.nreq == sp.nreq - 1 && sp1.unit == sp.unit
      && forall k :: 0 <= k < |s.ws| && k != v && k != t ==> s1.ws[k] == s.ws[k]
  {
    DealIsEven(c, s, v, t);
  }

  /** When nobody disturbs it, a splitter with requests and an initialised victim of at least two
      grains serves them fairly, and the victim keeps at least as much as each of them gets. */
  lemma SplitterServes(c: Config, s: State, v: nat) returns (run: seq<Action>, s': State, who: set<nat>, unit: int)
    requires Inv(c, s) && v < |s.ws| && s.ws[v].split.Local? && s.ws[v].init && Size(s.ws[v].q) >= 2 * c.parGrain
    ensures From(c, s, run) == Reached(s') && who <= s.ws[v].split.reqs && Served(s', who, unit)
    ensures FairPlan(Size(s.ws[v].q), |s.ws[v].split.reqs|, c.parGrain, |who|, unit)
    ensures |s'.ws| == |s.ws| && Size(s'.ws[v].q) == Size(s.ws[v].q) - |who| * unit >= unit
  {
    var size := Size(s.ws[v].q);
    var s1 := CutPlanned(c, s, v);
    unit := s1.ws[v].split.unit;
    var s2 := CutTaken(c, s1, v);
    var more;
    more, s', who := DealAll(c, s2, v);
    FromStep(c, s1, SplitSteal(v, true), more);
    FromStep(c, s, SplitSize(v, size), [SplitSteal(v, true)] + more);
    run := [SplitSize(v, size)] + ([SplitSteal(v, true)] + more);
  }

  lemma CutPlanned(c: Config, s: State, v: nat) returns (s1: State)
    requires Inv(c, s) && v < |s.ws| && s.ws[v].split.Local? && s.ws[v].init && Size(s.ws[v].q) >= 2 * c.parGrain
    ensures Enabled(c, s, SplitSize(v, Size(s.ws[v].q))) && s1 == Step(c, s, SplitSize(v, Size(s.ws[v].q)))
    ensures Inv(c, s1) && |s1.ws| == |s.ws| && s1.ws[v].q == s.ws[v].q && s1.ws[v].split.Cut?
    ensures s1.ws[v].split.reqs == s.ws[v].split.reqs
    ensures FairPlan(Size(s.ws[v].q), |s.ws[v].split.reqs|, c.parGrain, s1.ws[v].split.nreq, s1.ws[v].split.unit)
  {
    var size := Size(s.ws[v].q);
    SizeDecides(c, s, v, size);
    StepKeepsInvariant(c, s, SplitSize(v, size));
    s1 := Step(c, s, SplitSize(v, size));
  }

  lemma CutTaken(c: Config, s: State, v: nat) returns (s1: State)
    requires Inv(c, s) && v < |s.ws| && s.ws[v].split.Cut?
    requires (s.ws[v].split.nreq + 1) * s.ws[v].split.unit <= Size(s.ws[v].q)
    ensures Enabled(c, s, SplitSteal(v, true)) && s1 == Step(c, s, SplitSteal(v, true)) && Inv(c, s1) && |s1.ws| == |s.ws|
    ensures var sp, sp1 := s.ws[v].split, s1.ws[v].split;
      && sp1.Deal? && sp1.reqs == sp.reqs && sp1.nreq == sp.nreq && sp1.unit == sp.unit
      && Size(s1.ws[v].q) == Size(s.ws[v].q) - sp.nreq * sp.unit >= sp.unit
  {
    assert ThreadOk(c, v, s.ws[v], s.slices, s.workremain);
    RoomForAll(Size(s.ws[v].q), s.ws[v].split.nreq, s.ws[v].split.unit);
    CutTakesBack(c, s, v);
    StepKeepsInvariant(c, s, SplitSteal(v, true));
    s1 := Step(c, s, SplitSteal(v, true));
  }

  lemma RoomForAll(size: int, n: int, unit: int)
    requires (n + 1) * unit <= size && unit >= 1
    ensures n * unit <= size - unit
  {
    assert (n + 1) * unit == n * unit + unit;
  }
}
