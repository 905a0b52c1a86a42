/** Sleep-locks (xv6/sleeplock.c) built on sleep and wakeup (xv6/proc.c), one step per lock operation
    or store, for any number of processes on any interleaving. Each process either is outside, or
    tries to take the sleep-lock, or holds it, or gives it back. */
module SleepLock {

  datatype Pc =
    | Outside
    // acquiresleep: acquire(&lk->lk); while (lk->locked) sleep(lk, &lk->lk);
    | WantLk
    | Test              // holds lk
    | SleepWantPt       // holds lk; sleep() acquires ptable.lock ...
    | SleepDropLk       // holds lk and ptable.lock; ... before it releases lk
    | EarlyDropLk       // holds lk; only if sleep() released lk before acquiring ptable.lock
    | EarlyWantPt
    | SleepMark         // holds ptable.lock; p->state = SLEEPING
    | SleepSched        // holds ptable.lock, marked SLEEPING; sched()
    | Asleep
    | Runnable          // woken; waits for the scheduler
    | Tidy              // running again with ptable.lock; p->chan = 0; release(&ptable.lock)
    | WantLkAgain
    // lk->locked = 1; release(&lk->lk)
    | TakenDropLk       // holds lk and the sleep-lock
    | Holding           // holds the sleep-lock
    // releasesleep
    | RelWantLk         // holds the sleep-lock
    | RelClear          // holds lk and the sleep-lock; lk->locked = 0
    | RelWantPt         // holds lk; wakeup() acquires ptable.lock
    | RelWake           // holds lk and ptable.lock; wakeup1
    | RelDropPt         // holds lk and ptable.lock
    | RelDropLk         // holds lk

  datatype Lock = Free | Held(holder: nat)

  datatype State = State(lk: Lock, pt: Lock, locked: bool, pid: nat, pcs: seq<Pc>)

  predicate HoldsLk(c: Pc) {
    c.Test? || c.SleepWantPt? || c.SleepDropLk? || c.EarlyDropLk? || c.TakenDropLk? || c.RelClear? || c.RelWantPt? ||
    c.RelWake? || c.RelDropPt? || c.RelDropLk?
  }

  predicate HoldsPt(c: Pc) {
    c.SleepDropLk? || c.SleepMark? || c.SleepSched? || c.Tidy? || c.RelWake? || c.RelDropPt?
  }

  /** Inside the critical section the sleep-lock protects. */
  predicate Owns(c: Pc) { c.TakenDropLk? || c.Holding? || c.RelWantLk? || c.RelClear? }

  /** Marked SLEEPING or bound to be. */
  predicate Committed(c: Pc) {
    c.SleepWantPt? || c.SleepDropLk? || c.SleepMark? || c.SleepSched? || c.Asleep?
  }

  /** wakeup1: every process asleep on the lock becomes runnable. */
  function WakeAll(pcs: seq<Pc>): (r: seq<Pc>)
    ensures |r| == |pcs|
    ensures forall i {:trigger r[i]} :: 0 <= i < |pcs| ==> r[i] == if pcs[i].Asleep? then Runnable else pcs[i]
  {
    if pcs == [] then [] else WakeAll(pcs[..|pcs| - 1]) + [if pcs[|pcs| - 1].Asleep? then Runnable else pcs[|pcs| - 1]]
  }

  datatype Use = Keep | Take | Drop

  /** What a process does next, `early` telling whether sleep() releases lk too early: where it goes,
      and what becomes of the two spinlocks and of lk->locked. */
  datatype Move = Move(to: Pc, lk: Use, pt: Use, locked: Use)

  function NextMove(c: Pc, locked: bool, early: bool): Move
    requires !c.Asleep?
  {
    match c
    case Outside => Move(WantLk, Keep, Keep, Keep)
    case WantLk => Move(Test, Take, Keep, Keep)
    case WantLkAgain => Move(Test, Take, Keep, Keep)
    case Test => if locked then Move(if early then EarlyDropLk else SleepWantPt, Keep, Keep, Keep)
        else Move(TakenDropLk, Keep, Keep, Take)
    case SleepWantPt => Move(SleepDropLk, Keep, Take, Keep)
    case SleepDropLk => Move(SleepMark, Drop, Keep, Keep)
    case EarlyDropLk => Move(EarlyWantPt, Drop, Keep, Keep)
    case EarlyWantPt => Move(SleepMark, Keep, Take, Keep)
    case SleepMark => Move(SleepSched, Keep, Keep, Keep)
    case SleepSched => Move(Asleep, Keep, Drop, Keep)
    case Runnable => Move(Tidy, Keep, Take, Keep)
    case Tidy => Move(WantLkAgain, Keep, Drop, Keep)
    case TakenDropLk => Move(Holding, Drop, Keep, Keep)
    case Holding => Move(RelWantLk, Keep, Keep, Keep)
    case RelWantLk => Move(RelClear, Take, Keep, Keep)
    case RelClear => Move(RelWantPt, Keep, Keep, Drop)
    case RelWantPt => Move(RelWake, Keep, Take, Keep)
    case RelWake => Move(RelDropPt, Keep, Keep, Keep)
    case RelDropPt => Move(RelDropLk, Keep, Drop, Keep)
    case RelDropLk => Move(Outside, Drop, Keep, Keep)
  }

  function Used(l: Lock, u: Use, p: nat): Lock {
    match u case Keep => l case Take => Held(p) case Drop => Free
  }

  /** A process can move unless it sleeps or waits for a spinlock in use. */
  predicate Enabled(early: bool, s: State, p: nat) {
    && p < |s.pcs| && !s.pcs[p].Asleep?
    && var m := NextMove(s.pcs[p], s.locked, early);
    && (m.lk.Take? ==> s.lk.Free?)
    && (m.pt.Take? ==> s.pt.Free?)
  }

  function Step(early: bool, s: State, p: nat): State
    requires Enabled(early, s, p)
  {
    var m := NextMove(s.pcs[p], s.locked, early);
    var pcs := s.pcs[p := m.to];
    State(Used(s.lk, m.lk, p), Used(s.pt, m.pt, p),
          if m.locked.Keep? then s.locked else m.locked.Take?,
          if m.locked.Take? then p else if m.locked.Drop? then 0 else s.pid,
          if s.pcs[p].RelWake? then WakeAll(pcs) else pcs)
  }

  /** kill() of a sleeping process makes it runnable, under ptable.lock. */
  predicate KillEnabled(s: State, p: nat) { p < |s.pcs| && s.pcs[p].Asleep? && s.pt.Free? }

  predicate Next(early: bool, s: State, s': State) {
    || (exists p :: 0 <= p < |s.pcs| && Enabled(early, s, p) && s' == Step(early, s, p))
    || (exists p :: 0 <= p < |s.pcs| && KillEnabled(s, p) && s' == s.(pcs := s.pcs[p := Runnable]))
  }

  predicate Init(s: State) {
    && s.lk.Free? && s.pt.Free? && !s.locked
    && forall p :: 0 <= p < |s.pcs| ==> s.pcs[p].Outside?
  }

  /** lk is held by exactly the process that is between its acquire and release. */
  ghost predicate LkOk(s: State) {
    && (forall p :: 0 <= p < |s.pcs| ==> (HoldsLk(s.pcs[p]) <==> s.lk == Held(p)))
    && (s.lk.Held? ==> s.lk.holder < |s.pcs|)
  }

  ghost predicate PtOk(s: State) {
    && (forall p :: 0 <= p < |s.pcs| ==> (HoldsPt(s.pcs[p]) <==> s.pt == Held(p)))
    && (s.pt.Held? ==> s.pt.holder < |s.pcs|)
  }

  ghost predicate OwnOk(s: State) {
    && (forall p :: 0 <= p < |s.pcs| ==> (Owns(s.pcs[p]) <==> s.locked && s.pid == p))
    && (s.locked ==> s.pid < |s.pcs|)
  }

  /** Whoever is bound to sleep finds the lock held, or a wakeup still to come. */
  ghost predicate NoneLost(s: State) {
    forall p :: 0 <= p < |s.pcs| && Committed(s.pcs[p]) ==> s.locked || WakeupPending(s)
  }

  /** The holder of lk has cleared the lock and will run wakeup1 before it lets go of lk. */
  ghost predicate WakeupPending(s: State) {
    s.lk.Held? && s.lk.holder < |s.pcs| && (s.pcs[s.lk.holder].RelWantPt? || s.pcs[s.lk.holder].RelWake?)
  }

  predicate InOrder(c: Pc) { !c.EarlyDropLk? && !c.EarlyWantPt? }

  ghost predicate Inv(s: State) {
    && LkOk(s) && PtOk(s) && OwnOk(s) && NoneLost(s)
    && forall p :: 0 <= p < |s.pcs| ==> InOrder(s.pcs[p])
  }

  lemma InitInv(s: State)
    requires Init(s)
    ensures Inv(s)
  {
  }

  lemma StepInv(s: State, p: nat)
    requires Inv(s) && Enabled(false, s, p)
    ensures Inv(Step(false, s, p))
  {
    hide LkOk, PtOk, OwnOk, NoneLost, Step, Enabled;
    StepLk(s, p);
    StepPt(s, p);
    StepOwn(s, p);
    StepNoneLost(s, p);
    StepInOrder(s, p);
  }

  /** The moves take and drop a spinlock exactly where the process starts and stops holding it, and
      set and clear lk->locked exactly where it starts and stops owning the sleep-lock. */
  lemma MoveOk(c: Pc, locked: bool)
    requires !c.Asleep? && InOrder(c)
    ensures var m := NextMove(c, locked, false);
            && InOrder(m.to)
            && HoldsLk(m.to) == (match m.lk case Keep => HoldsLk(c) case Take => true case Drop => false)
            && HoldsPt(m.to) == (match m.pt case Keep => HoldsPt(c) case Take => true case Drop => false)
            && Owns(m.to) == (match m.locked case Keep => Owns(c) case Take => true case Drop => false)
            && (m.lk.Drop? ==> HoldsLk(c)) && (m.pt.Drop? ==> HoldsPt(c)) && (m.locked.Drop? ==> Owns(c))
            && (m.locked.Take? ==> !locked)
            && (Committed(m.to) && !Committed(c) ==> locked && HoldsLk(c))
            && (m.locked.Drop? ==> HoldsLk(c) && m.to.RelWantPt?)
            && (c.RelWantPt? ==> m.to.RelWake? && m.lk.Keep?)
            && (c.RelWake? ==> HoldsLk(c) && HoldsPt(c) && !Committed(m.to))
            && (m.lk.Drop? ==> !c.RelWantPt? && !c.RelWake?)
  {
  }

  lemma StepInOrder(s: State, p: nat)
    requires Inv(s) && Enabled(false, s, p)
    ensures var s' := Step(false, s, p); forall q :: 0 <= q < |s'.pcs| ==> InOrder(s'.pcs[q])
  {
    hide NextMove, PtOk, LkOk, OwnOk, NoneLost, WakeAll;
    MoveOk(s.pcs[p], s.locked);
  }

  lemma StepLk(s: State, p: nat)
    requires Inv(s) && Enabled(false, s, p)
    ensures LkOk(Step(false, s, p))
  {
    hide NextMove, PtOk, OwnOk, NoneLost, WakeAll;
    MoveOk(s.pcs[p], s.locked);
  }

  lemma StepPt(s: State, p: nat)
    requires Inv(s) && Enabled(false, s, p)
    ensures PtOk(Step(false, s, p))
  {
    hide NextMove, LkOk, OwnOk, NoneLost, WakeAll;
    MoveOk(s.pcs[p], s.locked);
  }

  lemma StepOwn(s: State, p: nat)
    requires Inv(s) && Enabled(false, s, p)
    ensures OwnOk(Step(false, s, p))
  {
    hide NextMove, LkOk, PtOk, NoneLost, WakeAll;
    MoveOk(s.pcs[p], s.locked);
  }

  lemma StepNoneLost(s: State, p: nat)
    requires Inv(s) && Enabled(false, s, p)
    ensures NoneLost(Step(false, s, p))
  {
    hide NextMove, OwnOk, WakeAll;
    MoveOk(s.pcs[p], s.locked);
    var s' := Step(false, s, p);
    if s.pcs[p].RelWake? {
      forall q | 0 <= q < |s.pcs| ensures !Committed(s'.pcs[q]) { }
    } else {
      hide PtOk;
    }
  }

  lemma NextInv(s: State, s': State)
    requires Inv(s) && Next(false, s, s')
    ensures Inv(s')
  {
    if p :| 0 <= p < |s.pcs| && Enabled(false, s, p) && s' == Step(false, s, p) {
      StepInv(s, p);
    } else {
      var p :| 0 <= p < |s.pcs| && KillEnabled(s, p) && s' == s.(pcs := s.pcs[p := Runnable]);
    }
  }

  predicate IsRun(early: bool, run: seq<State>) {
    && 0 < |run| && Init(run[0])
    && forall i :: 0 <= i < |run| - 1 ==> Next(early, run[i], run[i + 1])
  }

  lemma {:induction false} RunInv(run: seq<State>, n: nat)
    requires IsRun(false, run) && n < |run|
    ensures Inv(run[n])
  {
    if n == 0 {
      InitInv(run[0]);
    } else {
      RunInv(run, n - 1);
      NextInv(run[n - 1], run[n]);
    }
  }

  /** Over every run: two processes are never both inside, the lock is held exactly while someone is
      inside, and when the inner spinlock is free a process sleeps on the lock only if it is held. */
  lemma MutualExclusion(run: seq<State>, n: nat)
    requires IsRun(false, run) && n < |run|
    ensures var s := run[n];
            && (forall p, q :: 0 <= p < |s.pcs| && 0 <= q < |s.pcs| && Owns(s.pcs[p]) && Owns(s.pcs[q]) ==> p == q)
            && (s.locked <==> exists p :: 0 <= p < |s.pcs| && Owns(s.pcs[p]))
            && (s.lk.Free? ==> forall p :: 0 <= p < |s.pcs| && s.pcs[p].Asleep? ==> s.locked)
  {
    RunInv(run, n);
    var s := run[n];
    assert s.locked ==> Owns(s.pcs[s.pid]);
  }

  /** A process sleeps on a free lock and nobody is going to wake it. */
  ghost predicate LostWakeup(s: State) {
    && s.lk.Free? && !s.locked
    && exists p :: 0 <= p < |s.pcs| && s.pcs[p].Asleep?
  }

  ghost predicate NeverLoses(early: bool, n: nat) {
    forall run: seq<State> {:trigger IsRun(early, run)} :: IsRun(early, run) && |run[0].pcs| == n ==>
      forall i :: 0 <= i < |run| ==> !LostWakeup(run[i])
  }

  /** One more step of a run, with the state it leads to. */
  lemma Walk(early: bool, run: seq<State>, p: nat, t: State) returns (run': seq<State>)
    requires IsRun(early, run) && Enabled(early, run[|run| - 1], p) && t == Step(early, run[|run| - 1], p)
    ensures IsRun(early, run') && 0 < |run'| && run'[0] == run[0] && run'[|run'| - 1] == t
  {
    hide Step;
    var s := run[|run| - 1];
    run' := run + [t];
    assert Next(early, s, t);
  }

  /** Processes 0 and 1, and the others. */
  function Two(a: Pc, b: Pc, rest: seq<Pc>): (r: seq<Pc>)
    ensures |r| == |rest| + 2 && r[0] == a && r[1] == b
  {
    [a, b] + rest
  }

  lemma TwoSet(rest: seq<Pc>)
    ensures forall a: Pc, b: Pc, c: Pc {:trigger Two(a, b, rest)[0 := c]} :: Two(a, b, rest)[0 := c] == Two(c, b, rest)
    ensures forall a: Pc, b: Pc, c: Pc {:trigger Two(a, b, rest)[1 := c]} :: Two(a, b, rest)[1 := c] == Two(a, c, rest)
  {
  }

  predicate AllOutside(rest: seq<Pc>) { forall i :: 0 <= i < |rest| ==> rest[i].Outside? }

  lemma EarlyTakes(rest: seq<Pc>) returns (run: seq<State>)
    requires AllOutside(rest)
    ensures IsRun(true, run) && 0 < |run| && |run[0].pcs| == |rest| + 2
    ensures run[|run| - 1] == State(Free, Free, true, 0, Two(Holding, EarlyWantPt, rest))
  {
    hide IsRun, WakeAll, Two, AllOutside;
    TwoSet(rest);
    run := FirstRun(rest);
    run := Walk(true, run, 0, State(Free, Free, false, 0, Two(WantLk, Outside, rest)));
    run := Walk(true, run, 0, State(Held(0), Free, false, 0, Two(Test, Outside, rest)));
    run := Walk(true, run, 0, State(Held(0), Free, true, 0, Two(TakenDropLk, Outside, rest)));
    run := Walk(true, run, 0, State(Free, Free, true, 0, Two(Holding, Outside, rest)));
    run := Walk(true, run, 1, State(Free, Free, true, 0, Two(Holding, WantLk, rest)));
    run := Walk(true, run, 1, State(Held(1), Free, true, 0, Two(Holding, Test, rest)));
    run := Walk(true, run, 1, State(Held(1), Free, true, 0, Two(Holding, EarlyDropLk, rest)));
    run := Walk(true, run, 1, State(Free, Free, true, 0, Two(Holding, EarlyWantPt, rest)));
  }

  lemma FirstRun(rest: seq<Pc>) returns (run: seq<State>)
    requires AllOutside(rest)
    ensures IsRun(true, run) && 0 < |run| && |run[0].pcs| == |rest| + 2
    ensures run[|run| - 1] == State(Free, Free, false, 0, Two(Outside, Outside, rest))
  {
    run := [State(Free, Free, false, 0, Two(Outside, Outside, rest))];
  }

  lemma WakeNobody(rest: seq<Pc>)
    requires AllOutside(rest)
    ensures WakeAll(Two(RelDropPt, EarlyWantPt, rest)) == Two(RelDropPt, EarlyWantPt, rest)
  {
    var pcs := Two(RelDropPt, EarlyWantPt, rest);
    forall i | 0 <= i < |pcs| ensures WakeAll(pcs)[i] == pcs[i] {
      if i >= 2 { assert pcs[i] == rest[i - 2]; }
    }
  }

  lemma EarlyGivesBack(rest: seq<Pc>) returns (run: seq<State>)
    requires AllOutside(rest)
    ensures IsRun(true, run) && 0 < |run| && |run[0].pcs| == |rest| + 2
    ensures run[|run| - 1] == State(Held(0), Held(0), false, 0, Two(RelDropPt, EarlyWantPt, rest))
  {
    hide IsRun, WakeAll, Two, AllOutside;
    TwoSet(rest);
    WakeNobody(rest);
    run := EarlyTakes(rest);
    run := Walk(true, run, 0, State(Free, Free, true, 0, Two(RelWantLk, EarlyWantPt, rest)));
    run := Walk(true, run, 0, State(Held(0), Free, true, 0, Two(RelClear, EarlyWantPt, rest)));
    run := Walk(true, run, 0, State(Held(0), Free, false, 0, Two(RelWantPt, EarlyWantPt, rest)));
    run := Walk(true, run, 0, State(Held(0), Held(0), false, 0, Two(RelWake, EarlyWantPt, rest)));
    run := Walk(true, run, 0, State(Held(0), Held(0), false, 0, Two(RelDropPt, EarlyWantPt, rest)));
  }

  /** Process 0 takes the lock; process 1 finds it taken and releases lk; process 0 gives the lock back
      and wakes nobody; process 1 goes to sleep. */
  lemma EarlyLoses(rest: seq<Pc>) returns (run: seq<State>)
    requires AllOutside(rest)
    ensures IsRun(true, run) && |run[0].pcs| == |rest| + 2 && LostWakeup(run[|run| - 1])
  {
    hide IsRun, WakeAll, Two, AllOutside;
    TwoSet(rest);
    run := EarlyGivesBack(rest);
    run := Walk(true, run, 0, State(Held(0), Free, false, 0, Two(RelDropLk, EarlyWantPt, rest)));
    run := Walk(true, run, 0, State(Free, Free, false, 0, Two(Outside, EarlyWantPt, rest)));
    run := Walk(true, run, 1, State(Free, Held(1), false, 0, Two(Outside, SleepMark, rest)));
    run := Walk(true, run, 1, State(Free, Held(1), false, 0, Two(Outside, SleepSched, rest)));
    run := Walk(true, run, 1, State(Free, Free, false, 0, Two(Outside, Asleep, rest)));
    assert run[|run| - 1].pcs[1].Asleep?;
  }

  /** Wakeups are never lost exactly because sleep() acquires ptable.lock before it releases lk. */
  lemma OrderMatters(early: bool, n: nat)
    requires n >= 2
    ensures NeverLoses(early, n) <==> !early
  {
    if early {
      var run := EarlyLoses(seq(n - 2, _ => Outside));
      assert IsRun(early, run);
      assert LostWakeup(run[|run| - 1]);
    } else {
      forall run: seq<State> | IsRun(false, run) && |run[0].pcs| == n
        ensures forall i :: 0 <= i < |run| ==> !LostWakeup(run[i])
      {
        forall i | 0 <= i < |run| ensures !LostWakeup(run[i]) {
          MutualExclusion(run, i);
        }
      }
    }
  }
}
