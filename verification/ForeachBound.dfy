/** How long the adaptive loop can go on: the steps that workers take outside the search for a
    victim are bounded, whatever the interleaving, by the iterations, slices and threads. */
module ForeachBound {
  import opened Arith
  import opened Ranges
  import opened ForeachLoop
  import opened ForeachProof

  /** Steps a thread can still take before it executes an iteration, searches or is done. */
  function Rank(x: Thread, slices: set<nat>, rem: int): nat {
    var n := 4 * |slices|;
    match x.pc
    case Outside => n + 40
    case Waiting(_) => n + 40
    case Fetch => n + 30
    case PopLocal => n + 29
    case Drained => n + 28
    case Sub => if x.mode == Final then 5 else n + 27
    case Next => if rem == 0 then 6 else n + 26
    case First1 => n + 25
    case Unset(_) => if x.mode == Opening then n + 32 else n + 24
    case Check(_) => if x.mode == Opening then n + 31 else n + 23
    case AnyFirst => n + 15
    case AnyUnset(pos) => if pos in slices then n + 14 else if slices == {} then 9 else n + 17
    case AnyTest => if slices == {} then 8 else n + 16
    case Got(_) => 2
    case Body(_) => 1
    case Done => 0
    case Lost => 0
    case _ => 7
  }

  function RankSum(ws: seq<Thread>, slices: set<nat>, rem: int): nat {
    if ws == [] then 0 else RankSum(ws[..|ws| - 1], slices, rem) + Rank(ws[|ws| - 1], slices, rem)
  }

  /** Price of an iteration: it pays for the way back to the next one. */
  function Price(c: Config): int {
    4 * |c.start| + 30
  }

  function Fuel(c: Config, s: State): int
    requires |c.start| >= 2
  {
    Price(c) * (Whole(c).hi - Whole(c).lo - Total(s.executed, Count)) + RankSum(s.ws, s.slices, s.workremain)
  }

  lemma Fewer(a: set<nat>, b: set<nat>)
    requires a <= b
    ensures |a| <= |b| && (a != b ==> |a| < |b|)
  {
    assert b == a + (b - a);
    if a != b {
      assert b - a != {};
    }
  }

  /** What the other threads do never sets a thread back. */
  lemma RankMono(x: Thread, slices: set<nat>, rem: int, slices': set<nat>, rem': int)
    requires slices' <= slices && (rem == 0 ==> rem' == 0)
    ensures Rank(x, slices', rem') <= Rank(x, slices, rem)
  {
    Fewer(slices', slices);
  }

  lemma {:induction false} RankSumMono(ws: seq<Thread>, slices: set<nat>, rem: int, slices': set<nat>, rem': int)
    requires slices' <= slices && (rem == 0 ==> rem' == 0)
    ensures RankSum(ws, slices', rem') <= RankSum(ws, slices, rem)
  {
    if ws != [] {
      RankSumMono(ws[..|ws| - 1], slices, rem, slices', rem');
      RankMono(ws[|ws| - 1], slices, rem, slices', rem');
    }
  }

  lemma {:induction false} RankUpdate(ws: seq<Thread>, t: nat, x: Thread, slices: set<nat>, rem: int)
    requires t < |ws|
    ensures RankSum(ws[t := x], slices, rem) == RankSum(ws, slices, rem) - Rank(ws[t], slices, rem) + Rank(x, slices, rem)
  {
    var n := |ws| - 1;
    if t == n {
      assert ws[t := x][..n] == ws[..n];
    } else {
      RankUpdate(ws[..n], t, x, slices, rem);
      assert ws[t := x][..n] == ws[..n][t := x];
    }
  }

  lemma {:induction false} RankSumBound(ws: seq<Thread>, slices: set<nat>, rem: int, top: nat)
    requires forall t :: 0 <= t < |ws| ==> Rank(ws[t], slices, rem) <= top
    ensures RankSum(ws, slices, rem) <= top * |ws|
  {
    if ws != [] {
      RankSumBound(ws[..|ws| - 1], slices, rem, top);
      assert top * |ws| == top * (|ws| - 1) + top;
    }
  }

  lemma SlicesBound(c: Config, slices: set<nat>)
    requires |c.start| >= 2 && forall k :: k in slices ==> k < Slices(c)
    ensures |slices| < |c.start|
  {
    UpToSize(Slices(c));
    assert slices <= UpTo(Slices(c));
    Fewer(slices, UpTo(Slices(c)));
  }

  /** A thread's step uses up rank unless it is part of a search, and pays with what it executes. */
  ghost predicate Pays(c: Config, x: Thread, e: Effect, slices: set<nat>, rem: int) {
    && (rem == 0 ==> e.minus == 0)
    && Rank(e.x, slices - e.take, rem - e.minus) + (if InSteal(x.pc) then 0 else 1)
       <= Rank(x, slices, rem) + Price(c) * Total(e.emit, Count)
  }

  lemma NextPays(c: Config, t: int, x: Thread, slices: set<nat>, rem: int)
    requires Running(c, t, x, slices, rem) && InNext(x.pc)
    ensures Pays(c, x, NextStep(c, x, rem), slices, rem)
  {
    NextOk(c, t, x, slices, rem);
    assert slices - {} == slices;
    assert Price(c) * 0 == 0;
  }

  lemma PopPays(c: Config, t: int, x: Thread, slices: set<nat>, rem: int, v: nat)
    requires Running(c, t, x, slices, rem) && InPop(x.pc) && (slices != {} ==> v in slices)
    ensures Pays(c, x, PopStep(c, x, slices, rem, v), slices, rem)
  {
    if (x.pc.Unset? || x.pc.AnyUnset?) && x.pc.pos in slices {
      ClaimPays(c, t, x, slices, rem, v);
    } else {
      MissPays(c, t, x, slices, rem, v);
    }
  }

  lemma ClaimPays(c: Config, t: int, x: Thread, slices: set<nat>, rem: int, v: nat)
    requires Running(c, t, x, slices, rem) && (x.pc.Unset? || x.pc.AnyUnset?) && x.pc.pos in slices
    ensures Pays(c, x, PopStep(c, x, slices, rem, v), slices, rem)
  {
    assert |slices - {x.pc.pos}| == |slices| - 1;
    assert Price(c) * 0 == 0;
  }

  lemma MissPays(c: Config, t: int, x: Thread, slices: set<nat>, rem: int, v: nat)
    requires Running(c, t, x, slices, rem) && InPop(x.pc) && (slices != {} ==> v in slices)
    requires !((x.pc.Unset? || x.pc.AnyUnset?) && x.pc.pos in slices)
    ensures Pays(c, x, PopStep(c, x, slices, rem, v), slices, rem)
  {
    assert slices - {} == slices;
    assert Price(c) * 0 == 0;
  }

  lemma StealPays(c: Config, t: int, x: Thread, slices: set<nat>, rem: int, v: nat, self: bool, init: bool, size: int)
    requires Running(c, t, x, slices, rem) && InSteal(x.pc)
    ensures Pays(c, x, Becomes(StealStep(c, x, rem, v, self, init, size)), slices, rem)
  {
    assert slices - {} == slices;
    assert Price(c) * 0 == 0;
  }

  lemma GotPays(c: Config, x: Thread, slices: set<nat>, rem: int)
    requires x.pc.Got?
    ensures Pays(c, x, Becomes(GotStep(c, x)), slices, rem)
  {
    assert slices - {} == slices;
    assert Price(c) * 0 == 0;
  }

  /** An executed range pays for the way to the next one. */
  lemma BodyPays(c: Config, x: Thread, slices: set<nat>, rem: int)
    requires x.pc.Body? && x.pc.r.lo < x.pc.r.hi && |slices| < |c.start|
    ensures Pays(c, x, Effect(x.(pc := Fetch), {}, 0, [x.pc.r]), slices, rem)
  {
    assert slices - {} == slices;
    assert Total([x.pc.r], Count) == x.pc.r.hi - x.pc.r.lo by { assert [x.pc.r][..0] == []; }
    MulMono(1, x.pc.r.hi - x.pc.r.lo, Price(c));
  }

  lemma OwnPays(c: Config, s: State, a: Action)
    requires a.Own? && OwnEnabled(c, s, a) && !Steals(s, a) && |s.slices| < |c.start|
    requires Running(c, a.t, s.ws[a.t], s.slices, s.workremain)
    ensures Pays(c, s.ws[a.t], OwnEffect(c, s, a), s.slices, s.workremain)
  {
    var x := s.ws[a.t];
    if InNext(x.pc) {
      NextPays(c, a.t, x, s.slices, s.workremain);
    } else if InPop(x.pc) {
      PopPays(c, a.t, x, s.slices, s.workremain, a.v);
    } else if InSteal(x.pc) {
      StealPays(c, a.t, x, s.slices, s.workremain, a.v, a.v == a.t, x.pc.Probe? && s.ws[x.pc.v].init, a.size);
    } else if x.pc.Got? {
      GotPays(c, x, s.slices, s.workremain);
    } else {
      BodyPays(c, x, s.slices, s.workremain);
    }
  }

  /** The other threads' ranks do not rise. */
  lemma OthersMono(ws: seq<Thread>, t: nat, x: Thread, slices: set<nat>, rem: int, slices': set<nat>, rem': int)
    requires t < |ws| && slices' <= slices && (rem == 0 ==> rem' == 0)
    ensures RankSum(ws[t := x], slices', rem') - Rank(x, slices', rem') <= RankSum(ws, slices, rem) - Rank(ws[t], slices, rem)
  {
    RankUpdate(ws, t, x, slices', rem');
    var done := ws[t].(pc := Done);
    RankUpdate(ws, t, done, slices, rem);
    RankUpdate(ws, t, done, slices', rem');
    RankSumMono(ws[t := done], slices, rem, slices', rem');
  }

  /** A step of one thread changes the fuel as it does its rank and what it executes. */
  lemma OneUses(c: Config, s: State, t: nat, e: Effect, drop: int)
    requires |c.start| >= 2 && t < |s.ws| && (s.workremain == 0 ==> e.minus == 0)
    requires Rank(e.x, s.slices - e.take, s.workremain - e.minus) + drop
             <= Rank(s.ws[t], s.slices, s.workremain) + Price(c) * Total(e.emit, Count)
    ensures Fuel(c, ApplyOne(s, t, e)) + drop <= Fuel(c, s)
  {
    OthersMono(s.ws, t, e.x, s.slices, s.workremain, s.slices - e.take, s.workremain - e.minus);
    TotalConcat(s.executed, e.emit, Count);
    SpendSplits(Price(c), Whole(c).hi - Whole(c).lo - Total(s.executed, Count), Total(e.emit, Count));
  }

  lemma SpendSplits(price: int, left: int, now: int)
    ensures price * (left - now) == price * left - price * now
  {
  }

  lemma TwoUse(c: Config, s: State, t: nat, x: Thread, u: nat, y: Thread)
    requires |c.start| >= 2 && t < |s.ws| && u < |s.ws| && t != u
    requires Rank(x, s.slices, s.workremain) <= Rank(s.ws[t], s.slices, s.workremain)
    requires Rank(y, s.slices, s.workremain) <= Rank(s.ws[u], s.slices, s.workremain)
    ensures Fuel(c, ApplyTwo(s, t, x, u, y)) <= Fuel(c, s)
  {
    RankUpdate(s.ws, t, x, s.slices, s.workremain);
    RankUpdate(s.ws[t := x], u, y, s.slices, s.workremain);
  }

  lemma OwnUsesFuel(c: Config, s: State, a: Action)
    requires Inv(c, s) && a.Own? && OwnEnabled(c, s, a)
    ensures Fuel(c, Step(c, s, a)) <= Fuel(c, s) - (if InSteal(s.ws[a.t].pc) then 0 else 1)
  {
    var x := s.ws[a.t];
    if Steals(s, a) {
      var v, n := x.pc.v, x.pc.n;
      TwoUse(c, s, a.t, x.(pc := Got(Back(s.ws[v].q, n))), v, s.ws[v].(q := BeforeBack(s.ws[v].q, n)));
    } else {
      RunningThread(c, s, a.t);
      SlicesBound(c, s.slices);
      OwnPays(c, s, a);
      OneUses(c, s, a.t, OwnEffect(c, s, a), if InSteal(x.pc) then 0 else 1);
    }
  }

  lemma SplitIsQuiet(c: Config, x: Thread, slices: set<nat>, rem: int, a: Action)
    requires c.parGrain >= 1 && !a.Own?
    requires a.SplitStart? || !x.split.NoSplit?
    requires a.SplitGive? || a.SplitAfter? ==> x.split.Claimed?
    requires a.SplitSize? ==> a.size >= 0
    requires a.SplitSteal? ==> x.split.Cut?
    requires a.SplitDeal? ==> x.split.Deal?
    ensures var e := SplitStep(c, x, slices, rem, a);
      e.x.pc == x.pc && e.x.mode == x.mode && e.minus == 0 && e.emit == []
  {
  }

  lemma AnswerKeepsRank(c: Config, v: nat, x: Thread, t: nat, y: Thread, slices: set<nat>, rem: int, a: Action)
    requires Answering(c, v, x, t, y, slices, rem, a)
    ensures Rank(Answer(c, x, y, a), slices, rem) <= Rank(y, slices, rem)
  {
  }

  /** Splitters hand work on; they never set a thread back. */
  lemma SplitKeepsFuel(c: Config, s: State, a: Action)
    requires Inv(c, s) && !a.Own? && SplitEnabled(c, s, a)
    ensures Fuel(c, Step(c, s, a)) <= Fuel(c, s)
  {
    if Answers(s, a) {
      AnswerReady(c, s, a);
      AnswerKeepsFuel(c, s, a);
    } else {
      AloneKeepsFuel(c, s, a);
    }
  }

  lemma AnswerKeepsFuel(c: Config, s: State, a: Action)
    requires ValidConfig(c) && !a.Own? && SplitEnabled(c, s, a) && Answers(s, a)
    requires Answering(c, a.v, s.ws[a.v], a.t, s.ws[a.t], s.slices, s.workremain, a)
    ensures Fuel(c, Step(c, s, a)) <= Fuel(c, s)
  {
    var x := s.ws[a.v];
    SplitIsQuiet(c, x, s.slices, s.workremain, a);
    AnswerKeepsRank(c, a.v, x, a.t, s.ws[a.t], s.slices, s.workremain, a);
    TwoUse(c, s, a.v, SplitStep(c, x, s.slices, s.workremain, a).x, a.t, Answer(c, x, s.ws[a.t], a));
  }

  lemma AloneKeepsFuel(c: Config, s: State, a: Action)
    requires ValidConfig(c) && !a.Own? && SplitEnabled(c, s, a) && !Answers(s, a)
    ensures Fuel(c, Step(c, s, a)) <= Fuel(c, s)
  {
    var x := s.ws[a.v];
    var e := SplitStep(c, x, s.slices, s.workremain, a);
    SplitIsQuiet(c, x, s.slices, s.workremain, a);
    RankMono(x, s.slices, s.workremain, s.slices - e.take, s.workremain);
    SameRank(x, e.x, s.slices - e.take, s.workremain);
    assert Price(c) * 0 == 0;
    OneUses(c, s, a.v, e, 0);
  }

  lemma SameRank(x: Thread, y: Thread, slices: set<nat>, rem: int)
    requires x.pc == y.pc && x.mode == y.mode
    ensures Rank(x, slices, rem) == Rank(y, slices, rem)
  {
  }

  /** The own steps of a run that were not part of a search for a victim. */
  function OwnSteps(c: Config, run: seq<Action>): nat
    requires ValidConfig(c)
  {
    if run == [] then 0
    else
      var before, a := run[..|run| - 1], run[|run| - 1];
      var o := Exec(c, before);
      OwnSteps(c, before) +
      (if o.Reached? && a.Own? && a.t < |o.s.ws| && !InSteal(o.s.ws[a.t].pc) then 1 else 0)
  }

  lemma {:induction false} FuelBoundsSteps(c: Config, run: seq<Action>)
    requires ValidConfig(c) && Exec(c, run).Reached?
    ensures OwnSteps(c, run) + Fuel(c, Exec(c, run).s) <= Fuel(c, Init(c))
  {
    if run != [] {
      var before, a := run[..|run| - 1], run[|run| - 1];
      FuelBoundsSteps(c, before);
      RunKeepsInvariant(c, before);
      var s := Exec(c, before).s;
      if a.Own? {
        OwnUsesFuel(c, s, a);
      } else {
        SplitKeepsFuel(c, s, a);
      }
    }
  }

  /** Bounded work. Over any interleaving the workers take at most this many steps outside the
      search for a victim: a number fixed by the slices for each iteration and each thread. */
  lemma BoundedWork(c: Config, run: seq<Action>)
    requires ValidConfig(c) && Exec(c, run).Reached?
    ensures OwnSteps(c, run) <= (4 * |c.start| + 30) * (Whole(c).hi - Whole(c).lo) + (4 * |c.start| + 40) * c.threads
  {
    FuelBoundsSteps(c, run);
    RunKeepsInvariant(c, run);
    FuelNonNegative(c, Exec(c, run).s);
    InitFuel(c);
  }

  lemma InitFuel(c: Config)
    requires ValidConfig(c)
    ensures Fuel(c, Init(c)) <= (4 * |c.start| + 30) * (Whole(c).hi - Whole(c).lo) + (4 * |c.start| + 40) * c.threads
  {
    var s := Init(c);
    SlicesBound(c, s.slices);
    RankSumBound(s.ws, s.slices, s.workremain, 4 * |c.start| + 40);
  }

  lemma FuelNonNegative(c: Config, s: State)
    requires Inv(c, s)
    ensures Fuel(c, s) >= 0
  {
    assert BalancedAt(c, s, Count);
    CounterIsWorkLeft(c, s);
    WorkLeft(c, s.executed, Sum(c, s.ws, Work(Count)) + SliceSum(c, s.slices, Count));
  }

  lemma WorkLeft(c: Config, executed: seq<Range>, held: int)
    requires ValidConfig(c) && held >= 0 && Total(executed, Count) + held == Measure(Whole(c), Count)
    ensures Price(c) * (Whole(c).hi - Whole(c).lo - Total(executed, Count)) >= 0
  {
    StartIncreases(c, |c.start| - 1);
    MulMono(0, Whole(c).hi - Whole(c).lo - Total(executed, Count), Price(c));
  }
}
