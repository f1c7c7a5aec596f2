/** The adaptive parallel loop: workers claim slices of the iteration space through a bitmap,
    drain their local queue chunk by chunk, steal halves of each other's queues, and are
    enrolled by splitters that answer the requests of idle threads. Termination is detected
    by the single counter workremain. Local queues are atomic here; ForeachQueues replaces
    them by the lock-free ones. Every other access to shared memory is its own step. */
module ForeachLoop {
  import opened Ranges
  import opened WorkSplit

  /** start[p], start[p + 1] bound slice p; thread ids and slice positions coincide. */
  datatype Config = Config(start: seq<int>, threads: nat, seqGrain: int, parGrain: int)

  ghost predicate ValidConfig(c: Config) {
    && |c.start| >= 2 && c.threads >= |c.start| - 1
    && (forall p :: 0 <= p < |c.start| - 1 ==> c.start[p] < c.start[p + 1])
    && c.seqGrain >= 1 && c.parGrain >= 1
  }

  function Slices(c: Config): int { |c.start| - 1 }

  function Slice(c: Config, p: int): Range {
    if 0 <= p < |c.start| - 1 then Range(c.start[p], c.start[p + 1]) else Range(0, 0)
  }

  function Whole(c: Config): Range
    requires |c.start| >= 2
  {
    Range(c.start[0], c.start[|c.start| - 1])
  }

  /** Which caller is waiting for the next piece: the loop's set-up, worknext, or the code
      after the worker's main loop. */
  datatype Mode = Opening | Inside | Final

  datatype Pc =
    | Outside | Waiting(v: nat)                       // not enrolled; request in v's splitter
    | Fetch | PopLocal | Drained | Sub | Next          // worknext and globalwork_next
    | First1 | Unset(pos: int) | Check(pos: int)       // claim of a slice
    | AnyFirst | AnyUnset(pos: int) | AnyTest
    | Select | Probe(v: nat) | Steal(v: nat, n: int)   // steal from a victim
    | Got(r: Range) | Body(r: Range) | Done | Lost

  /** State of the splitter working under the lock of one victim. */
  datatype Split =
    | NoSplit
    | Collect(reqs: set<nat>)
    | Claiming(reqs: set<nat>)
    | Claimed(reqs: set<nat>, slices: set<nat>)
    | Local(reqs: set<nat>)
    | Cut(reqs: set<nat>, nreq: int, unit: int)
    | Deal(reqs: set<nat>, nreq: int, unit: int, r: Range)
    | Closing(reqs: set<nat>)

  function Reqs(s: Split): set<nat> {
    if s.NoSplit? then {} else s.reqs
  }

  datatype Thread = Thread(q: Range, init: bool, workdone: int, pc: Pc, mode: Mode, split: Split)

  /** executed: the ranges the loop body has returned from; subtracted: total of all
      subtractions made on workremain. */
  datatype State = State(ws: seq<Thread>, slices: set<nat>, workremain: int, subtracted: int, executed: seq<Range>)

  datatype Action =
    | Own(t: nat, v: nat, size: int, ok: bool)
    | SplitStart(v: nat) | SplitJoin(v: nat, t: nat) | SplitPeek(v: nat) | SplitClaim(v: nat)
    | SplitGive(v: nat, t: nat) | SplitAfter(v: nat) | SplitSize(v: nat, size: int) | SplitSteal(v: nat, ok: bool)
    | SplitDeal(v: nat, t: nat) | SplitEnd(v: nat) | SplitRefuse(v: nat, t: nat) | SplitClose(v: nat)

  /** The low n bits of the map. */
  function UpTo(n: nat): (ps: set<nat>)
    ensures forall k: nat :: k in ps <==> k < n
  {
    if n == 0 then {} else UpTo(n - 1) + {n - 1}
  }

  lemma {:induction false} UpToSize(n: nat)
    ensures |UpTo(n)| == n
  {
    if n > 0 {
      UpToSize(n - 1);
    }
  }

  function Init(c: Config): State
    requires |c.start| >= 2 && c.threads >= 1
  {
    var idle := Thread(Range(0, 0), false, 0, Outside, Inside, NoSplit);
    State(seq(c.threads, i => if i == 0 then idle.(pc := Unset(0), mode := Opening) else idle),
          UpTo(|c.start| - 1), Whole(c).hi - Whole(c).lo, 0, [])
  }

  /** What one thread's step does: its new state, the slices it takes out of the map, what it
      subtracts from workremain, and the range its body returned from, if any. */
  datatype Effect = Effect(x: Thread, take: set<nat>, minus: int, emit: seq<Range>)

  function Becomes(x: Thread): Effect { Effect(x, {}, 0, []) }

  // ----- the worker -----

  /** global_work_pop found nothing: its caller goes on to select a victim. */
  function PopFails(x: Thread): Thread {
    x.(pc := if x.mode == Opening then Lost else Select)
  }

  /** global_work_pop returned r: the set-up opens its local queue with it, a worker takes it. */
  function PopGives(x: Thread, r: Range): Thread {
    if x.mode == Opening then x.(q := r, init := true, pc := Fetch, mode := Inside) else x.(pc := Got(r))
  }

  predicate InNext(pc: Pc) { pc.Fetch? || pc.PopLocal? || pc.Drained? || pc.Sub? || pc.Next? }

  predicate InPop(pc: Pc) { pc.First1? || pc.Unset? || pc.Check? || pc.AnyFirst? || pc.AnyUnset? || pc.AnyTest? }

  predicate InSteal(pc: Pc) { pc.Select? || pc.Probe? || pc.Steal? }

  predicate CanRun(pc: Pc) { InNext(pc) || InPop(pc) || InSteal(pc) || pc.Got? || pc.Body? }

  /** worknext and the head of globalwork_next. */
  function NextStep(c: Config, x: Thread, workremain: int): Effect
    requires InNext(x.pc)
  {
    match x.pc
    case Fetch => Becomes(if workremain == 0 then x.(pc := Sub, mode := Final) else x.(pc := PopLocal))
    case PopLocal =>
      if x.q.hi <= x.q.lo then Becomes(x.(pc := Drained))
      else
        var r := Front(x.q, c.seqGrain);
        Becomes(x.(q := AfterFront(x.q, c.seqGrain), workdone := x.workdone + (r.hi - r.lo), pc := Body(r)))
    case Drained => Becomes(x.(init := false, pc := Sub))
    case Sub =>
      var last := x.mode == Final && workremain - x.workdone == 0;
      Effect(x.(workdone := 0, pc := if last then Done else Next), {}, x.workdone, [])
    case Next =>
      if workremain != 0 then Becomes(x.(pc := First1))
      else if x.mode == Final then Becomes(x.(pc := Done))
      else Becomes(x.(pc := Sub, mode := Final))
  }

  /** global_work_pop: claim the slice at one position, or failing that any slice; v is the
      bit the map's reader saw first. */
  function PopStep(c: Config, x: Thread, slices: set<nat>, workremain: int, v: nat): Effect
    requires InPop(x.pc)
  {
    match x.pc
    case First1 => Becomes(x.(pc := if slices == {} then Select else Unset(v)))
    case Unset(pos) =>
      if pos in slices then Effect(x.(pc := Check(pos)), {pos}, 0, []) else Becomes(x.(pc := AnyFirst))
    case Check(pos) => Becomes(if workremain == 0 then PopFails(x) else PopGives(x, Slice(c, pos)))
    case AnyFirst => Becomes(x.(pc := if slices == {} then AnyTest else AnyUnset(v)))
    case AnyUnset(pos) =>
      if pos in slices then Effect(PopGives(x, Slice(c, pos)), {pos}, 0, []) else Becomes(x.(pc := AnyTest))
    case AnyTest => Becomes(if slices == {} then PopFails(x) else x.(pc := AnyFirst))
  }

  /** global_work_steal after the map, up to a failed steal: pick a victim v, test that its
      work is initialised, read a size, and try for half of it. */
  function StealStep(c: Config, x: Thread, workremain: int, v: nat, self: bool, init: bool, size: int): Thread
    requires InSteal(x.pc)
  {
    match x.pc
    case Select => x.(pc := if workremain == 0 then Next else if self then Select else Probe(v))
    case Probe(v) => x.(pc := if init && size > c.parGrain then Steal(v, size / 2) else Select)
    case Steal(v, n) => x.(pc := Select)
  }

  /** The end of globalwork_next keeps one chunk and makes the rest the local queue. */
  function GotStep(c: Config, x: Thread): Thread
    requires x.pc.Got?
  {
    var r := x.pc.r;
    if r.hi - r.lo <= c.seqGrain
    then x.(workdone := x.workdone + (r.hi - r.lo), pc := Body(r), mode := Inside)
    else x.(q := AfterFront(r, c.seqGrain), init := true, workdone := x.workdone + c.seqGrain,
            pc := Body(Front(r, c.seqGrain)), mode := Inside)
  }

  predicate OwnEnabled(c: Config, s: State, a: Action)
    requires a.Own?
  {
    && a.t < |s.ws| && CanRun(s.ws[a.t].pc)
    && (InPop(s.ws[a.t].pc) && s.slices != {} ==> a.v in s.slices)
    && (InSteal(s.ws[a.t].pc) ==> a.size >= 0 && a.v < |s.ws|)
    && (s.ws[a.t].pc.Probe? || s.ws[a.t].pc.Steal? ==> s.ws[a.t].pc.v < |s.ws|)
  }

  /** The steal of n iterations from the back of v's queue that a.t attempts succeeds. */
  predicate Steals(s: State, a: Action)
    requires a.Own? && a.t < |s.ws|
  {
    && s.ws[a.t].pc.Steal? && a.ok
    && var v := s.ws[a.t].pc.v; v < |s.ws| && v != a.t && s.ws[a.t].pc.n <= s.ws[v].q.hi - s.ws[v].q.lo
  }

  function OwnEffect(c: Config, s: State, a: Action): Effect
    requires a.Own? && OwnEnabled(c, s, a) && !Steals(s, a)
  {
    var x := s.ws[a.t];
    if InNext(x.pc) then NextStep(c, x, s.workremain)
    else if InPop(x.pc) then PopStep(c, x, s.slices, s.workremain, a.v)
    else if InSteal(x.pc) then
      var init := x.pc.Probe? && s.ws[x.pc.v].init;
      Becomes(StealStep(c, x, s.workremain, a.v, a.v == a.t, init, a.size))
    else if x.pc.Got? then Becomes(GotStep(c, x))
    else Effect(x.(pc := Fetch), {}, 0, [x.pc.r])
  }

  // ----- the splitter -----

  /** The thread has a task a splitter can be called on. */
  predicate Enrolled(x: Thread) {
    !x.pc.Outside? && !x.pc.Waiting? && x.mode != Opening
  }

  /** A waiting thread is answered: its local queue is initialised and it starts working. */
  function Enrol(x: Thread, r: Range): Thread {
    x.(q := r, init := true, pc := Fetch)
  }

  /** Splitter actions that also write the thread of one request. */
  predicate Answers(s: State, a: Action) {
    a.SplitJoin? || (a.SplitGive? && s.workremain != 0) || a.SplitDeal? || a.SplitRefuse?
  }

  predicate SplitEnabled(c: Config, s: State, a: Action)
    requires !a.Own?
  {
    && a.v < |s.ws|
    && (a.SplitJoin? || a.SplitGive? || a.SplitDeal? || a.SplitRefuse? ==> a.t < |s.ws| && a.t != a.v)
    && var sp := s.ws[a.v].split;
    match a
    case SplitStart(v) => sp.NoSplit? && Enrolled(s.ws[v]) && s.workremain != 0
    case SplitJoin(v, t) => sp.Collect? && s.ws[t].pc.Outside?
    case SplitPeek(v) => sp.Collect? && sp.reqs != {}
    case SplitClaim(v) => sp.Claiming?
    case SplitGive(v, t) => sp.Claimed? && t in sp.slices
    case SplitAfter(v) => sp.Claimed? && sp.slices == {}
    case SplitSize(v, size) => sp.Local? && size >= 0
    case SplitSteal(v, ok) => sp.Cut?
    case SplitDeal(v, t) => sp.Deal? && sp.nreq > 0 && t in sp.reqs
    case SplitEnd(v) => sp.Deal? && (sp.nreq <= 0 || sp.reqs == {})
    case SplitRefuse(v, t) => sp.Closing? && t in sp.reqs
    case SplitClose(v) => sp.Closing? && sp.reqs == {}
  }

  /** What the splitter of victim x does to x. */
  function SplitStep(c: Config, x: Thread, slices: set<nat>, workremain: int, a: Action): Effect
    requires c.parGrain >= 1 && !a.Own?
    requires a.SplitStart? || !x.split.NoSplit?
    requires a.SplitGive? || a.SplitAfter? ==> x.split.Claimed?
    requires a.SplitSize? ==> a.size >= 0
    requires a.SplitSteal? ==> x.split.Cut?
    requires a.SplitDeal? ==> x.split.Deal?
  {
    var sp := x.split;
    match a
    case SplitStart(v) => Becomes(x.(split := Collect({})))
    case SplitJoin(v, t) => Becomes(x.(split := Collect(sp.reqs + {t})))
    case SplitPeek(v) => Becomes(x.(split := if sp.reqs * slices == {} then Local(sp.reqs) else Claiming(sp.reqs)))
    case SplitClaim(v) => Effect(x.(split := Claimed(sp.reqs, slices * sp.reqs)), slices * sp.reqs, 0, [])
    case SplitGive(v, t) =>
      Becomes(x.(split := Claimed(if workremain == 0 then sp.reqs else sp.reqs - {t}, sp.slices - {t})))
    case SplitAfter(v) => Becomes(x.(split := if sp.reqs == {} then NoSplit else Local(sp.reqs)))
    case SplitSize(v, size) =>
      if !x.init || size <= c.parGrain then Becomes(x.(split := Closing(sp.reqs)))
      else
        var p := PlanFor(size, |sp.reqs|, c.parGrain);
        Becomes(x.(split := if p.nreq == 0 then Closing(sp.reqs) else Cut(sp.reqs, p.nreq, p.unit)))
    case SplitSteal(v, ok) =>
      var n := sp.nreq * sp.unit;
      if ok && n <= x.q.hi - x.q.lo
      then Becomes(x.(q := BeforeBack(x.q, n), split := Deal(sp.reqs, sp.nreq, sp.unit, Back(x.q, n))))
      else Becomes(x.(split := Closing(sp.reqs)))
    case SplitDeal(v, t) =>
      Becomes(x.(split := Deal(sp.reqs - {t}, sp.nreq - 1, sp.unit, BeforeBack(sp.r, sp.unit))))
    case SplitEnd(v) => Becomes(x.(split := Closing(sp.reqs)))
    case SplitRefuse(v, t) => Becomes(x.(split := Closing(sp.reqs - {t})))
    case SplitClose(v) => Becomes(x.(split := NoSplit))
  }

  /** What an answer does to the requesting thread y: queued, served, or sent away. */
  function Answer(c: Config, x: Thread, y: Thread, a: Action): Thread
    requires a.SplitDeal? ==> x.split.Deal?
  {
    match a
    case SplitJoin(v, t) => y.(pc := Waiting(v))
    case SplitGive(v, t) => Enrol(y, Slice(c, t))
    case SplitDeal(v, t) => Enrol(y, Back(x.split.r, x.split.unit))
    case _ => y.(pc := Outside)
  }

  // ----- the transition system -----

  predicate Enabled(c: Config, s: State, a: Action) {
    if a.Own? then OwnEnabled(c, s, a) else SplitEnabled(c, s, a)
  }

  function ApplyOne(s: State, t: nat, e: Effect): State
    requires t < |s.ws|
  {
    State(s.ws[t := e.x], s.slices - e.take, s.workremain - e.minus, s.subtracted + e.minus, s.executed + e.emit)
  }

  function ApplyTwo(s: State, t: nat, x: Thread, u: nat, y: Thread): State
    requires t < |s.ws| && u < |s.ws|
  {
    s.(ws := s.ws[t := x][u := y])
  }

  function Step(c: Config, s: State, a: Action): State
    requires ValidConfig(c) && Enabled(c, s, a)
  {
    if a.Own? then
      if Steals(s, a) then
        var x := s.ws[a.t];
        var y := s.ws[x.pc.v];
        ApplyTwo(s, a.t, x.(pc := Got(Back(y.q, x.pc.n))), x.pc.v, y.(q := BeforeBack(y.q, x.pc.n)))
      else ApplyOne(s, a.t, OwnEffect(c, s, a))
    else
      var x := s.ws[a.v];
      var e := SplitStep(c, x, s.slices, s.workremain, a);
      if Answers(s, a) then ApplyTwo(s, a.v, e.x, a.t, Answer(c, x, s.ws[a.t], a))
      else ApplyOne(s, a.v, e)
  }

  datatype Outcome = Stuck | Reached(s: State)

  /** The state after a whole interleaving, if every action was enabled in turn. */
  function Exec(c: Config, run: seq<Action>): Outcome
    requires ValidConfig(c)
  {
    if run == [] then Reached(Init(c))
    else
      var o := Exec(c, run[..|run| - 1]);
      if o.Reached? && Enabled(c, o.s, run[|run| - 1]) then Reached(Step(c, o.s, run[|run| - 1])) else Stuck
  }
}
