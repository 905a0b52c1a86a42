/** Sleep-locks (xv6/sleeplock.c) make progress: whoever tries to take one gets it and gives it back, on
    any schedule, within a bound, as long as nobody new comes. */
module SleepProgress {
  import opened SleepLock

  function Sum(f: Pc -> nat, pcs: seq<Pc>): nat {
    if pcs == [] then 0 else Sum(f, pcs[..|pcs| - 1]) + f(pcs[|pcs| - 1])
  }

  lemma {:induction false} SumUpdate(f: Pc -> nat, pcs: seq<Pc>, i: nat, c: Pc)
    requires i < |pcs|
    ensures Sum(f, pcs[i := c]) == Sum(f, pcs) - f(pcs[i]) + f(c)
  {
    var n := |pcs| - 1;
    if i == n {
      assert pcs[i := c][..n] == pcs[..n];
    } else {
      assert pcs[i := c][..n] == pcs[..n][i := c];
      SumUpdate(f, pcs[..n], i, c);
    }
  }

  lemma {:induction false} SumWake(f: Pc -> nat, pcs: seq<Pc>)
    requires f(Runnable) == f(Asleep)
    ensures Sum(f, WakeAll(pcs)) == Sum(f, pcs)
  {
    if pcs == [] {
    } else {
      SumWake(f, pcs[..|pcs| - 1]);
      assert WakeAll(pcs)[..|pcs| - 1] == WakeAll(pcs[..|pcs| - 1]);
    }
  }

  lemma {:induction false} SumBound(f: Pc -> nat, pcs: seq<Pc>, k: nat)
    requires forall c :: f(c) <= k
    ensures Sum(f, pcs) <= k * |pcs|
  {
    if pcs == [] {
    } else {
      SumBound(f, pcs[..|pcs| - 1], k);
      assert k * |pcs| == k * (|pcs| - 1) + k;
    }
  }

  // ----- somebody can always move

  /** Inside acquiresleep, before the lock is taken. */
  predicate Tries(c: Pc) {
    c.WantLk? || c.Test? || c.SleepWantPt? || c.SleepDropLk? || c.SleepMark? || c.SleepSched? || c.Asleep? ||
    c.Runnable? || c.Tidy? || c.WantLkAgain?
  }

  /** A process inside acquiresleep or releasesleep, or holding the lock, takes its next step. */
  predicate Busy(s: State, p: nat) { Enabled(false, s, p) && !s.pcs[p].Outside? }

  ghost predicate AllOut(s: State) { forall p :: 0 <= p < |s.pcs| ==> s.pcs[p].Outside? }

  /** Who holds ptable.lock needs no other lock to go on, and who holds lk needs at most ptable.lock. */
  lemma HolderMoves(c: Pc, locked: bool)
    requires InOrder(c) && !c.Asleep?
    ensures var m := NextMove(c, locked, false);
            && (HoldsPt(c) ==> !m.lk.Take? && !m.pt.Take?)
            && (HoldsLk(c) ==> !m.lk.Take?)
  {
  }

  /** No deadlock: unless everybody is outside, somebody who is not can take a step. */
  lemma {:induction false} SomebodyMoves(s: State) returns (p: nat)
    requires Inv(s) && !AllOut(s)
    ensures Busy(s, p)
  {
    var q :| 0 <= q < |s.pcs| && !s.pcs[q].Outside?;
    p := if s.pt.Held? then s.pt.holder else if s.lk.Held? then s.lk.holder else if s.locked then s.pid else q;
    assert p < |s.pcs|;
    assert s.pt.Held? ==> HoldsPt(s.pcs[p]);
    assert s.pt.Free? && s.lk.Held? ==> HoldsLk(s.pcs[p]);
    assert s.pt.Free? && s.lk.Free? && s.locked ==> Owns(s.pcs[p]);
    assert s.pt.Free? && s.lk.Free? && !s.locked ==> !Committed(s.pcs[p]);
    HolderMoves(s.pcs[p], s.locked);
    hide NextMove, LkOk, PtOk, OwnOk, NoneLost;
  }

  // ----- every step counts

  /** How far a process is from the end of its path, which is outside or asleep. */
  function Rank(c: Pc): nat {
    match c
    case Runnable => 20
    case Tidy => 19
    case WantLkAgain => 18
    case WantLk => 18
    case Test => 17
    case SleepWantPt => 16
    case SleepDropLk => 15
    case EarlyDropLk => 16
    case EarlyWantPt => 15
    case SleepMark => 14
    case SleepSched => 13
    case Asleep => 12
    case TakenDropLk => 9
    case Holding => 8
    case RelWantLk => 7
    case RelClear => 6
    case RelWantPt => 5
    case RelWake => 4
    case RelDropPt => 3
    case RelDropLk => 2
    case Outside => 1
  }

  /** The wakeup of its releasesleep is still to come. */
  function ToWake(c: Pc): nat { if c.Outside? || c.RelDropPt? || c.RelDropLk? then 0 else 1 }

  /** A bound on the steps that can still be taken while nobody new comes. */
  function StepsLeft(s: State): nat { Bound(Sum(ToWake, s.pcs), Sum(Rank, s.pcs), |s.pcs|) }

  function Bound(wakeups: nat, ranks: nat, n: nat): nat { wakeups * (20 * n + 1) + ranks }

  lemma {:induction false} StepNears(s: State, p: nat)
    requires Inv(s) && Busy(s, p)
    ensures StepsLeft(Step(false, s, p)) < StepsLeft(s)
  {
    var m := NextMove(s.pcs[p], s.locked, false);
    var pcs := s.pcs[p := m.to];
    var u := Step(false, s, p);
    assert u.pcs == if s.pcs[p].RelWake? then WakeAll(pcs) else pcs;
    assert InOrder(s.pcs[p]);
    MoveNears(s.pcs[p], s.locked);
    hide Inv, NextMove, Step, Sum, ToWake, Rank, WakeAll, Bound;
    SumUpdate(ToWake, s.pcs, p, m.to);
    SumUpdate(Rank, s.pcs, p, m.to);
    if s.pcs[p].RelWake? {
      WakeLater();
      SumWake(ToWake, pcs);
      RankBound();
      SumBound(Rank, u.pcs, 20);
    }
    Lower(Sum(ToWake, s.pcs), Sum(Rank, s.pcs), Sum(ToWake, u.pcs), Sum(Rank, u.pcs), |s.pcs|);
  }

  lemma Lower(a: nat, x: nat, b: nat, y: nat, n: nat)
    requires (b == a && y < x) || (b + 1 == a && y <= 20 * n)
    ensures Bound(b, y, n) < Bound(a, x, n)
  {
    if b + 1 == a {
      assert a * (20 * n + 1) == b * (20 * n + 1) + (20 * n + 1);
    }
  }

  lemma WakeLater()
    ensures ToWake(Runnable) == ToWake(Asleep)
  {
  }

  lemma RankBound()
    ensures forall c :: Rank(c) <= 20
  {
  }

  lemma MoveNears(c: Pc, locked: bool)
    requires InOrder(c) && !c.Asleep? && !c.Outside?
    ensures var m := NextMove(c, locked, false);
            && Rank(m.to) < Rank(c)
            && ToWake(m.to) == if c.RelWake? then ToWake(c) - 1 else ToWake(c)
  {
  }

  /** A stretch of a run in which process ps[i] takes step i, nobody enters acquiresleep and nobody is
      killed. */
  ghost predicate IsBusyRun(run: seq<State>, ps: seq<nat>) {
    && |run| == |ps| + 1
    && forall i :: 0 <= i < |ps| ==> Busy(run[i], ps[i]) && run[i + 1] == Step(false, run[i], ps[i])
  }

  /** However the processes are scheduled, such a stretch is short; and it can be carried on until
      everybody is outside, so that is how it ends. */
  lemma {:induction false} BusyRunsEnd(run: seq<State>, ps: seq<nat>, n: nat)
    requires IsBusyRun(run, ps) && Inv(run[0]) && n <= |ps|
    ensures Inv(run[n]) && StepsLeft(run[n]) + n <= StepsLeft(run[0])
    ensures AllOut(run[n]) || exists p: nat :: Busy(run[n], p)
  {
    hide Inv, Step, StepsLeft, Busy;
    if n == 0 {
    } else {
      BusyRunsEnd(run, ps, n - 1);
      assert Enabled(false, run[n - 1], ps[n - 1]) by { BusyIsEnabled(run[n - 1], ps[n - 1]); }
      StepInv(run[n - 1], ps[n - 1]);
      StepNears(run[n - 1], ps[n - 1]);
    }
    if !AllOut(run[n]) {
      var p := SomebodyMoves(run[n]);
    }
  }

  lemma BusyIsEnabled(s: State, p: nat)
    requires Busy(s, p)
    ensures Enabled(false, s, p)
  {
  }

  // ----- and everybody who tried has had the lock

  lemma StepTries(s: State, p: nat, q: nat)
    requires Inv(s) && Busy(s, p) && q < |s.pcs| && Tries(s.pcs[q])
    ensures var u := Step(false, s, p);
            |u.pcs| == |s.pcs| && (Tries(u.pcs[q]) || (u.pcs[q].TakenDropLk? && u.locked && u.pid == q))
  {
    assert InOrder(s.pcs[p]);
    hide LkOk, PtOk, OwnOk, NoneLost;
  }

  /** A process inside acquiresleep that has left at the end of the stretch has held the lock on the way. */
  lemma {:induction false} TriersGetIn(run: seq<State>, ps: seq<nat>, q: nat, n: nat) returns (i: nat)
    requires IsBusyRun(run, ps) && Inv(run[0]) && n <= |ps| && q < |run[0].pcs| && Tries(run[0].pcs[q])
    requires q < |run[n].pcs| && !Tries(run[n].pcs[q])
    ensures i <= n && q < |run[i].pcs| && Owns(run[i].pcs[q]) && run[i].locked && run[i].pid == q
  {
    hide Inv, Step, Busy;
    SameCrew(run, ps, n - 1);
    BusyRunsEnd(run, ps, n - 1);
    if Tries(run[n - 1].pcs[q]) {
      StepTries(run[n - 1], ps[n - 1], q);
      i := n;
    } else {
      i := TriersGetIn(run, ps, q, n - 1);
    }
  }

  lemma {:induction false} SameCrew(run: seq<State>, ps: seq<nat>, n: nat)
    requires IsBusyRun(run, ps) && n <= |ps|
    ensures |run[n].pcs| == |run[0].pcs|
  {
    if n == 0 {
    } else {
      SameCrew(run, ps, n - 1);
    }
  }

  /** Process q is inside at some point of the run. */
  ghost predicate GetsIn(run: seq<State>, q: nat) {
    exists i :: 0 <= i < |run| && q < |run[i].pcs| && Owns(run[i].pcs[q])
  }

  /** From every reachable state, on every schedule: after at most StepsLeft steps without a newcomer
      nobody can move because everybody is outside, and everybody who was trying has had the lock. */
  lemma {:induction false} EverybodyGetsIn(past: seq<State>, run: seq<State>, ps: seq<nat>)
    requires IsRun(false, past) && IsBusyRun(run, ps) && run[0] == past[|past| - 1]
    ensures |ps| <= StepsLeft(run[0])
    ensures var u := run[|ps|];
            (forall p: nat :: !Busy(u, p)) <==> AllOut(u)
    ensures AllOut(run[|ps|]) ==> forall q: nat :: q < |run[0].pcs| && Tries(run[0].pcs[q]) ==> GetsIn(run, q)
  {
    RunInv(past, |past| - 1);
    BusyRunsEnd(run, ps, |ps|);
    SameCrew(run, ps, |ps|);
    hide Inv, Step, StepsLeft;
    if AllOut(run[|ps|]) {
      forall q: nat | q < |run[0].pcs| && Tries(run[0].pcs[q]) ensures GetsIn(run, q) {
        var i := TriersGetIn(run, ps, q, |ps|);
      }
    }
  }
}
