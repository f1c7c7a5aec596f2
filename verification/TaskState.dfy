/** The task state word: the owner and the thieves claim a task by atomic ORs on one byte that
    also carries termination, preemption and a lock bit. */
module TaskState {

  const EXEC: bv8 := 0x1
  const STEAL: bv8 := 0x2
  const TERM: bv8 := 0x4
  const MERGE: bv8 := 0x8
  const SIGNALED: bv8 := 0x20
  const LOCKED: bv8 := 0x40
  const EXECUTION: bv8 := 0xF

  /** What markexec returns when the word was old: 0 gives the task to its owner. */
  function MarkExec(old_: bv8): bv8 { old_ & EXECUTION }

  /** Whether marksteal succeeds when the word was old. */
  predicate MarkSteal(old_: bv8) { old_ & EXEC == 0 }

  predicate IsStealable(word: bv8, unstealable: bool) { word == 0 && !unstealable }

  predicate IsReady(word: bv8) {
    word & EXECUTION == 0 || word & TERM != 0 || word & MERGE != 0
  }

  /** The thief in the steal section of the victim's stack, if any. */
  datatype Thief = Nobody | Entered(t: nat) | Stealable(t: nat) | Leaving(t: nat)

  datatype Holder = Unlocked | LockedBy(t: nat)

  datatype Claim = ByOwner | ByThief(t: nat)

  /** claims: the successful claims so far; holder: who believes to hold the task lock. */
  datatype State = State(word: bv8, unstealable: bool, thief: Thief, holder: Holder, claims: seq<Claim>)

  datatype Action =
    | OwnerMarkExec
    | EnterSteal(t: nat) | TestStealable | ThiefMarkSteal | LeaveSteal
    | MarkTerm | MarkAfterSteal | MarkPreempted
    | TryLock(t: nat) | Unlock(t: nat)

  function Init(unstealable: bool): State { State(0, unstealable, Nobody, Unlocked, []) }

  predicate Enabled(s: State, a: Action) {
    match a
    case EnterSteal(t) => s.thief.Nobody?
    case TestStealable => s.thief.Entered?
    case ThiefMarkSteal => s.thief.Stealable?
    case LeaveSteal => s.thief.Leaving?
    case Unlock(t) => s.holder == LockedBy(t)
    case _ => true
  }

  /** The bits that an action ORs into the word. */
  function Marked(a: Action): bv8 {
    match a
    case OwnerMarkExec => EXEC
    case ThiefMarkSteal => STEAL
    case MarkTerm => TERM
    case MarkAfterSteal => MERGE
    case MarkPreempted => SIGNALED
    case TryLock(_) => LOCKED
    case _ => 0
  }

  function NextWord(w: bv8, a: Action): bv8 {
    if a.Unlock? then w & !LOCKED else w | Marked(a)
  }

  function Step(s: State, a: Action): State
    requires Enabled(s, a)
  {
    var s' := s.(word := NextWord(s.word, a));
    match a
    case OwnerMarkExec => s'.(claims := if MarkExec(s.word) == 0 then s.claims + [ByOwner] else s.claims)
    case EnterSteal(t) => s'.(thief := Entered(t))
    case TestStealable =>
      s'.(thief := if IsStealable(s.word, s.unstealable) then Stealable(s.thief.t) else Leaving(s.thief.t))
    case ThiefMarkSteal =>
      s'.(thief := Leaving(s.thief.t), claims := if MarkSteal(s.word) then s.claims + [ByThief(s.thief.t)] else s.claims)
    case LeaveSteal => s'.(thief := Nobody)
    case TryLock(t) => s'.(holder := if s.word & LOCKED == 0 then LockedBy(t) else s.holder)
    case Unlock(t) => s'.(holder := Unlocked)
    case _ => s'
  }

  datatype Outcome = Stuck | Reached(s: State)

  function Exec(unstealable: bool, run: seq<Action>): Outcome {
    if run == [] then Reached(Init(unstealable))
    else
      var o := Exec(unstealable, run[..|run| - 1]);
      if o.Reached? && Enabled(o.s, run[|run| - 1]) then Reached(Step(o.s, run[|run| - 1])) else Stuck
  }

  ghost predicate Inv(s: State) {
    && |s.claims| <= 1
    && (|s.claims| == 1 && s.claims[0].ByOwner? ==> s.word & EXEC != 0)
    && (|s.claims| == 1 && s.claims[0].ByThief? ==> s.word & STEAL != 0 && !s.unstealable)
    && (s.thief.Stealable? && s.word & EXEC == 0 ==> |s.claims| == 0)
    && (s.thief.Stealable? ==> !s.unstealable)
    && (s.word & LOCKED != 0 <==> s.holder.LockedBy?)
  }

  /** ORing in a bit sets it and leaves the others alone. */
  lemma OrKeeps(w: bv8, bit: bv8, other: bv8)
    requires bit & other == 0
    ensures (w | bit) & other == w & other && (w | bit) & bit == bit
  {
  }

  lemma ExecutionBits(w: bv8)
    ensures w & EXECUTION == 0 ==> w & EXEC == 0 && w & STEAL == 0
    ensures w == 0 ==> w & EXEC == 0 && w & STEAL == 0
  {
  }

  lemma UnlockKeeps(w: bv8)
    ensures (w & !LOCKED) & EXEC == w & EXEC && (w & !LOCKED) & STEAL == w & STEAL && (w & !LOCKED) & LOCKED == 0
  {
  }

  lemma ClaimKeeps(s: State, a: Action)
    requires Inv(s) && Enabled(s, a) && (a.OwnerMarkExec? || a.ThiefMarkSteal? || a.TestStealable?)
    ensures Inv(Step(s, a))
  {
    ExecutionBits(s.word);
    var bit := if a.OwnerMarkExec? then EXEC else STEAL;
    OrKeeps(s.word, bit, LOCKED);
    OrKeeps(s.word, bit, if a.OwnerMarkExec? then STEAL else EXEC);
  }

  lemma FlagKeeps(s: State, a: Action)
    requires Inv(s) && Enabled(s, a) && (a.MarkTerm? || a.MarkAfterSteal? || a.MarkPreempted?)
    ensures Inv(Step(s, a))
  {
    var bit := if a.MarkTerm? then TERM else if a.MarkAfterSteal? then MERGE else SIGNALED;
    OrKeeps(s.word, bit, EXEC);
    OrKeeps(s.word, bit, STEAL);
    OrKeeps(s.word, bit, LOCKED);
  }

  lemma LockKeeps(s: State, a: Action)
    requires Inv(s) && Enabled(s, a) && (a.TryLock? || a.Unlock?)
    ensures Inv(Step(s, a))
  {
    OrKeeps(s.word, LOCKED, EXEC);
    OrKeeps(s.word, LOCKED, STEAL);
    UnlockKeeps(s.word);
  }

  lemma StepKeepsInvariant(s: State, a: Action)
    requires Inv(s) && Enabled(s, a)
    ensures Inv(Step(s, a))
  {
    match a {
      case EnterSteal(_) =>
      case LeaveSteal =>
      case TryLock(_) => LockKeeps(s, a);
      case Unlock(_) => LockKeeps(s, a);
      case MarkTerm => FlagKeeps(s, a);
      case MarkAfterSteal => FlagKeeps(s, a);
      case MarkPreempted => FlagKeeps(s, a);
      case _ => ClaimKeeps(s, a);
    }
  }

  /** The bits of mask that w has are still in w'. */
  ghost predicate Stays(w: bv8, w': bv8, mask: bv8) {
    w & w' & mask == w & mask
  }

  /** No action clears a bit other than LOCKED, and only unlock clears that one. */
  lemma BitsStay(s: State, a: Action)
    requires Enabled(s, a)
    ensures Stays(s.word, Step(s, a).word, !LOCKED)
    ensures !a.Unlock? ==> Stays(s.word, Step(s, a).word, 0xFF)
  {
    OrStays(s.word, Marked(a));
    AndStays(s.word);
    assert Step(s, a).word == NextWord(s.word, a);
  }

  lemma OrStays(w: bv8, bit: bv8)
    ensures Stays(w, w | bit, 0xFF) && Stays(w, w | bit, !LOCKED)
  {
  }

  lemma AndStays(w: bv8)
    ensures Stays(w, w & !LOCKED, !LOCKED)
  {
  }

  lemma {:induction false} RunKeepsInvariant(unstealable: bool, run: seq<Action>)
    requires Exec(unstealable, run).Reached?
    ensures Inv(Exec(unstealable, run).s) && Exec(unstealable, run).s.unstealable == unstealable
  {
    if run != [] {
      RunKeepsInvariant(unstealable, run[..|run| - 1]);
      StepKeepsInvariant(Exec(unstealable, run[..|run| - 1]).s, run[|run| - 1]);
    }
  }

  /** Claim arbitration. Over any interleaving at most one claim succeeds, and its bit is still
      set: EXEC for the owner, STEAL for a thief, who never claims an unstealable task; and the
      LOCKED bit is set exactly when somebody holds the task lock. */
  lemma ClaimArbitration(unstealable: bool, run: seq<Action>)
    requires Exec(unstealable, run).Reached?
    ensures var s := Exec(unstealable, run).s;
      && |s.claims| <= 1
      && (|s.claims| == 1 && s.claims[0].ByOwner? ==> s.word & EXEC != 0)
      && (|s.claims| == 1 && s.claims[0].ByThief? ==> s.word & STEAL != 0 && !unstealable)
      && (s.word & LOCKED != 0 <==> s.holder.LockedBy?)
  {
    RunKeepsInvariant(unstealable, run);
  }

  /** Execution bits are never lost, from any point of a run to any later one. */
  lemma {:induction false} ExecutionBitsStay(unstealable: bool, run: seq<Action>, k: nat)
    requires k <= |run| && Exec(unstealable, run).Reached?
    ensures Exec(unstealable, run[..k]).Reached?
    ensures var before, after := Exec(unstealable, run[..k]).s.word, Exec(unstealable, run).s.word;
      Stays(before, after, EXECUTION)
  {
    if k == |run| {
      assert run[..k] == run;
    } else {
      var init := run[..|run| - 1];
      assert init[..k] == run[..k];
      ExecutionBitsStay(unstealable, init, k);
      BitsStay(Exec(unstealable, init).s, run[|run| - 1]);
      BitsCompose(Exec(unstealable, run[..k]).s.word, Exec(unstealable, init).s.word, Exec(unstealable, run).s.word);
    }
  }

  lemma BitsCompose(a: bv8, b: bv8, c: bv8)
    requires Stays(a, b, EXECUTION) && Stays(b, c, !LOCKED)
    ensures Stays(a, c, EXECUTION)
  {
  }

  /** The lock around test and mark is needed: marksteal alone lets two thieves win. */
  lemma UnserialisedThievesBothWin()
    ensures IsStealable(0, false) && MarkSteal(0) && MarkSteal(0 | STEAL)
  {
  }

  /** Once a thief has claimed the task, the suspended owner sees it ready exactly when TERM or
      MERGE has been marked. */
  lemma StolenIsReadyWhenMarked(unstealable: bool, run: seq<Action>)
    requires Exec(unstealable, run).Reached?
    ensures var s := Exec(unstealable, run).s;
      |s.claims| == 1 && s.claims[0].ByThief? ==> (IsReady(s.word) <==> s.word & (TERM | MERGE) != 0)
  {
    RunKeepsInvariant(unstealable, run);
    ReadyBits(Exec(unstealable, run).s.word);
  }

  lemma ReadyBits(w: bv8)
    ensures w & STEAL != 0 ==> (IsReady(w) <==> w & (TERM | MERGE) != 0)
  {
  }

  /** The task lock is exclusive: a free one goes to whoever tries, and a held one stays with its
      holder, whatever anybody else does, until that thread unlocks it. */
  lemma TaskLockExclusive(unstealable: bool, run: seq<Action>, a: Action)
    requires Exec(unstealable, run).Reached? && Enabled(Exec(unstealable, run).s, a)
    ensures var h, h' := Exec(unstealable, run).s.holder, Step(Exec(unstealable, run).s, a).holder;
      && (h.Unlocked? ==> h' == if a.TryLock? then LockedBy(a.t) else Unlocked)
      && (h.LockedBy? ==> h' == if a == Unlock(h.t) then Unlocked else h)
  {
    RunKeepsInvariant(unstealable, run);
  }

  // ----- the word is the history of the marks -----

  datatype Mark = Exec_ | Steal | Term | Merge | Signal

  function BitOf(m: Mark): bv8 {
    match m
    case Exec_ => 0x1
    case Steal => 0x2
    case Term => 0x4
    case Merge => 0x8
    case Signal => 0x20
  }

  predicate Makes(a: Action, m: Mark) {
    match m
    case Exec_ => a.OwnerMarkExec?
    case Steal => a.ThiefMarkSteal?
    case Term => a.MarkTerm?
    case Merge => a.MarkAfterSteal?
    case Signal => a.MarkPreempted?
  }

  /** The mark was made in the run. */
  ghost predicate Made(run: seq<Action>, m: Mark) {
    exists k :: 0 <= k < |run| && Makes(run[k], m)
  }

  lemma MarkSets(w: bv8, a: Action, m: Mark)
    ensures NextWord(w, a) & BitOf(m) != 0 <==> w & BitOf(m) != 0 || Makes(a, m)
  {
    if a.Unlock? {
      UnlockOthers(w, BitOf(m));
    } else {
      OrOthers(w, Marked(a), BitOf(m));
    }
  }

  lemma OrOthers(w: bv8, bit: bv8, other: bv8)
    ensures (w | bit) & other != 0 <==> w & other != 0 || bit & other != 0
  {
  }

  lemma UnlockOthers(w: bv8, other: bv8)
    requires other & LOCKED == 0
    ensures (w & !LOCKED) & other == w & other
  {
  }

  /** A bit is set exactly when its mark was made in the run: none is lost, none appears. */
  lemma {:induction false} WordIsHistory(unstealable: bool, run: seq<Action>, m: Mark)
    requires Exec(unstealable, run).Reached?
    ensures Exec(unstealable, run).s.word & BitOf(m) != 0 <==> Made(run, m)
  {
    if run != [] {
      var before, a := run[..|run| - 1], run[|run| - 1];
      WordIsHistory(unstealable, before, m);
      StepBit(Exec(unstealable, before).s, a, m);
      MadeLast(run, m);
    }
  }

  lemma StepBit(s: State, a: Action, m: Mark)
    requires Enabled(s, a)
    ensures Step(s, a).word & BitOf(m) != 0 <==> s.word & BitOf(m) != 0 || Makes(a, m)
  {
    MarkSets(s.word, a, m);
    StepWord(s, a);
  }

  lemma MadeLast(run: seq<Action>, m: Mark)
    requires run != []
    ensures Made(run, m) <==> Made(run[..|run| - 1], m) || Makes(run[|run| - 1], m)
  {
    var before := run[..|run| - 1];
    if Made(before, m) {
      var k :| 0 <= k < |before| && Makes(before[k], m);
      assert Makes(run[k], m);
    }
  }

  lemma StepWord(s: State, a: Action)
    requires Enabled(s, a)
    ensures Step(s, a).word == NextWord(s.word, a)
  {
  }

  lemma {:induction false} NoOtherBits(unstealable: bool, run: seq<Action>)
    requires Exec(unstealable, run).Reached?
    ensures Exec(unstealable, run).s.word & 0x90 == 0
  {
    if run != [] {
      var before, a := run[..|run| - 1], run[|run| - 1];
      NoOtherBits(unstealable, before);
      StepWord(Exec(unstealable, before).s, a);
      var w := Exec(unstealable, before).s.word;
      if a.Unlock? {
        UnlockOthers(w, 0x90);
      } else {
        OrOthers(w, Marked(a), 0x90);
      }
    }
  }

  /** The suspended owner sees a task ready exactly when nothing has been marked on it, or TERM
      or MERGE has. */
  lemma ReadyExactly(unstealable: bool, run: seq<Action>)
    requires Exec(unstealable, run).Reached?
    ensures IsReady(Exec(unstealable, run).s.word) <==>
      || Made(run, Term) || Made(run, Merge)
      || (!Made(run, Exec_) && !Made(run, Steal))
  {
    WordIsHistory(unstealable, run, Exec_);
    WordIsHistory(unstealable, run, Steal);
    WordIsHistory(unstealable, run, Term);
    WordIsHistory(unstealable, run, Merge);
    FourBits(Exec(unstealable, run).s.word);
  }

  lemma FourBits(w: bv8)
    ensures w & EXECUTION == 0 <==> w & 0x1 == 0 && w & 0x2 == 0 && w & 0x4 == 0 && w & 0x8 == 0
  {
  }

  // ----- a claim succeeds -----

  predicate IsClaim(a: Action) {
    a.OwnerMarkExec? || a.ThiefMarkSteal?
  }

  predicate IsEnd(a: Action) {
    a.MarkTerm? || a.MarkAfterSteal?
  }

  lemma {:induction false} NoClaimYet(unstealable: bool, run: seq<Action>)
    requires Exec(unstealable, run).Reached? && forall k :: 0 <= k < |run| ==> !IsClaim(run[k])
    ensures Exec(unstealable, run).s.claims == []
  {
    if run != [] {
      NoClaimYet(unstealable, run[..|run| - 1]);
    }
  }

  /** A claim once made stays. */
  lemma {:induction false} ClaimsStay(unstealable: bool, run: seq<Action>, k: nat)
    requires k <= |run| && Exec(unstealable, run).Reached?
    ensures Exec(unstealable, run[..k]).Reached? && Exec(unstealable, run[..k]).s.claims <= Exec(unstealable, run).s.claims
  {
    if k == |run| {
      assert run[..k] == run;
    } else {
      var init := run[..|run| - 1];
      assert init[..k] == run[..k];
      ClaimsStay(unstealable, init, k);
    }
  }

  /** The first claim made on a task that has not ended wins it, for the whole run: the owner if
      it is the owner's, else the thief that is in the steal section. */
  lemma FirstClaimWins(unstealable: bool, run: seq<Action>, k: nat)
    requires k < |run| && Exec(unstealable, run).Reached? && IsClaim(run[k])
    requires forall j :: 0 <= j < k ==> !IsClaim(run[j]) && !IsEnd(run[j])
    ensures Exec(unstealable, run[..k]).Reached?
    ensures var before, claims := Exec(unstealable, run[..k]).s, Exec(unstealable, run).s.claims;
      if run[k].OwnerMarkExec? then claims == [ByOwner]
      else !before.thief.Nobody? && claims == [ByThief(before.thief.t)]
  {
    ClaimsStay(unstealable, run, k);
    ClaimsStay(unstealable, run, k + 1);
    var before := run[..k];
    assert run[..k + 1][..k] == before;
    NoClaimYet(unstealable, before);
    WordIsHistory(unstealable, before, Exec_);
    WordIsHistory(unstealable, before, Steal);
    WordIsHistory(unstealable, before, Term);
    WordIsHistory(unstealable, before, Merge);
    var s := Exec(unstealable, before).s;
    FourBits(s.word);
    assert |Exec(unstealable, run[..k + 1]).s.claims| == 1;
    RunKeepsInvariant(unstealable, run);
  }

  /** Once a claim was made with no TERM or MERGE before it, exactly one claim has succeeded. */
  lemma ExactlyOneClaim(unstealable: bool, run: seq<Action>, k: nat)
    requires k < |run| && Exec(unstealable, run).Reached? && IsClaim(run[k])
    requires forall j :: 0 <= j < k ==> !IsEnd(run[j])
    ensures |Exec(unstealable, run).s.claims| == 1
  {
    var j := FirstClaim(run, k);
    FirstClaimWins(unstealable, run, j);
  }

  /** Which claims succeed: the owner's exactly when nothing was marked before, a thief's in the
      steal section exactly when the owner has not marked. */
  lemma ClaimsExactly(unstealable: bool, run: seq<Action>, a: Action)
    requires Exec(unstealable, run).Reached? && Enabled(Exec(unstealable, run).s, a) && IsClaim(a)
    ensures var s := Exec(unstealable, run).s;
      Step(s, a).claims == s.claims +
        (if a.OwnerMarkExec?
         then if Made(run, Exec_) || Made(run, Steal) || Made(run, Term) || Made(run, Merge) then [] else [ByOwner]
         else if Made(run, Exec_) then [] else [ByThief(s.thief.t)])
  {
    WordIsHistory(unstealable, run, Exec_);
    WordIsHistory(unstealable, run, Steal);
    WordIsHistory(unstealable, run, Term);
    WordIsHistory(unstealable, run, Merge);
    FourBits(Exec(unstealable, run).s.word);
  }

  lemma {:induction false} FirstClaim(run: seq<Action>, k: nat) returns (j: nat)
    requires k < |run| && IsClaim(run[k])
    ensures j <= k && IsClaim(run[j]) && forall i :: 0 <= i < j ==> !IsClaim(run[i])
  {
    if i :| 0 <= i < k && IsClaim(run[i]) {
      j := FirstClaim(run, i);
    } else {
      j := k;
    }
  }

  lemma Then(unstealable: bool, run: seq<Action>, a: Action)
    requires Exec(unstealable, run).Reached? && Enabled(Exec(unstealable, run).s, a)
    ensures Exec(unstealable, run + [a]) == Reached(Step(Exec(unstealable, run).s, a))
  {
    assert (run + [a])[..|run|] == run;
  }

  /** A thief that enters the steal section undisturbed finds the task stealable exactly when it
      may be stolen, nothing was marked on it and nobody holds its lock; and then gets it. */
  lemma UndisturbedThief(unstealable: bool, run: seq<Action>, t: nat)
    requires Exec(unstealable, run).Reached? && Exec(unstealable, run).s.thief.Nobody?
    ensures var o := Exec(unstealable, run + [EnterSteal(t)] + [TestStealable]);
      o.Reached? &&
      (o.s.thief == Stealable(t) <==>
         !unstealable && Exec(unstealable, run).s.holder.Unlocked? && forall m: Mark :: !Made(run, m))
    ensures var o := Exec(unstealable, run + [EnterSteal(t)] + [TestStealable]);
      o.Reached? && o.s.thief == Stealable(t) ==>
        var last := Exec(unstealable, run + [EnterSteal(t)] + [TestStealable] + [ThiefMarkSteal]);
        last.Reached? && last.s.claims == [ByThief(t)]
  {
    RunKeepsInvariant(unstealable, run);
    var s := Exec(unstealable, run).s;
    forall m: Mark ensures s.word & BitOf(m) != 0 <==> Made(run, m) {
      WordIsHistory(unstealable, run, m);
    }
    NoOtherBits(unstealable, run);
    ZeroWord(s.word);
    Then(unstealable, run, EnterSteal(t));
    Then(unstealable, run + [EnterSteal(t)], TestStealable);
    var tested := run + [EnterSteal(t)] + [TestStealable];
    if Exec(unstealable, tested).s.thief == Stealable(t) {
      Then(unstealable, tested, ThiefMarkSteal);
      var last := tested + [ThiefMarkSteal];
      assert last[|tested|] == ThiefMarkSteal && last[..|tested|] == tested;
      NothingClaimed(run, tested);
      FirstClaimWins(unstealable, last, |tested|);
    }
  }

  lemma NothingClaimed(run: seq<Action>, tested: seq<Action>)
    requires |tested| == |run| + 2 && run == tested[..|run|] && tested[|run|].EnterSteal? && tested[|run| + 1].TestStealable?
    requires forall m: Mark :: !Made(run, m)
    ensures forall j :: 0 <= j < |tested| ==> !IsClaim(tested[j]) && !IsEnd(tested[j])
  {
    forall j | 0 <= j < |run| ensures !IsClaim(tested[j]) && !IsEnd(tested[j]) {
      assert tested[j] == run[j];
      assert !Made(run, Exec_) && !Made(run, Steal) && !Made(run, Term) && !Made(run, Merge);
    }
  }

  lemma ZeroWord(w: bv8)
    requires w & 0x90 == 0
    ensures w == 0 <==> w & LOCKED == 0 && forall m: Mark :: w & BitOf(m) == 0
  {
    if w & LOCKED == 0 && forall m: Mark :: w & BitOf(m) == 0 {
      assert w & BitOf(Exec_) == 0 && w & BitOf(Steal) == 0 && w & BitOf(Term) == 0 && w & BitOf(Merge) == 0 && w & BitOf(Signal) == 0;
      AllBits(w);
    }
  }

  lemma AllBits(w: bv8)
    requires w & 0x90 == 0 && w & 0x40 == 0 && w & 0x1 == 0 && w & 0x2 == 0 && w & 0x4 == 0 && w & 0x8 == 0 && w & 0x20 == 0
    ensures w == 0
  {
  }
}
