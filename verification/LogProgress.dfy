/** What xv6/log.c promises to its callers in every state of the protocol: which call can go on, that
    the operations and the commit come to an end, and what the size test of log_write is good for. */
module LogProgress {
  import opened RedoLog
  import opened LogProtocol

  // ----- nobody meets a panic

  /** What the process can do next. Active: end_op, whose panics cannot fire, and log_write of any block
      while the reservation lasts; a block already listed can be recorded again until the list is full. */
  ghost predicate GoesOn(m: Params, s: State, p: nat)
    requires Runs(s, p)
  {
    match s.procs[p]
    case Out => Enabled(m, s, CallBegin(p))
    case Trying => Enabled(m, s, TryBegin(p))
    case Asleep => s.committing || exists q :: 0 <= q < |s.procs| && (s.procs[q].Active? || s.procs[q].Passed?)
    case Active(left) =>
      && Enabled(m, s, EndOp(p))
      && (forall b: nat, v: Block :: Enabled(m, s, TestSize(p, b, v)) <==>
            b in s.c.disk.home && (left > 0 || (b in s.c.lh && |s.c.lh| < m.LogSize())))
    case Passed(_, _, _) => Enabled(m, s, Append(p))
    case Committer => Enabled(m, s, CommitWrite(p)) <==> !Enabled(m, s, EndCommit(p))
  }

  lemma {:induction false} SomeInOp(ps: seq<Proc>) returns (q: nat)
    requires Sum(InOp, ps) > 0
    ensures q < |ps| && (ps[q].Active? || ps[q].Passed?)
  {
    if InOp(ps[|ps| - 1]) > 0 {
      q := |ps| - 1;
    } else {
      q := SomeInOp(ps[..|ps| - 1]);
    }
  }

  lemma {:induction false} StateGoesOn(m: Params, s: State, p: nat)
    requires Inv(m, s) && Runs(s, p) && m.LogSize() <= |s.c.disk.log|
    ensures GoesOn(m, s, p)
  {
    InvFacts(m, s);
    CommitNeverStuck(s.c);
    SumAtLeast(InOp, s.procs, p);
    SumAtLeast(Left, s.procs, p);
    SumAtLeast(IsAsleep, s.procs, p);
    hide CommitInv, Sum, CanStep;
    if s.procs[p].Asleep? && !s.committing {
      var q := SomeInOp(s.procs);
    }
  }

  /** In every reachable state, with LOGSIZE blocks in the log region, every process can go on, or sleeps
      for one that can; and a machine that is starting can recover. */
  lemma {:induction false} NeverStuck(m: Params, run: seq<State>, steps: seq<Step>, n: nat)
    requires IsRun(m, run, steps) && Init(m, run[0]) && n < |run| && m.LogSize() <= |DiskOf(run[0]).log|
    ensures Enabled(m, run[n], Crash) && (run[n].Booting? ==> Enabled(m, run[n], Recover))
    ensures run[n].Running? ==> forall p: nat :: p < |run[n].procs| ==> GoesOn(m, run[n], p)
  {
    InitInv(m, run[0]);
    forall i | 0 <= i <= n ensures FitsLog(run[i]) && |DiskOf(run[i]).log| == |DiskOf(run[0]).log| {
      AlwaysFits(m, run, steps, i);
    }
    RunInv(m, run, steps, n);
    hide GoesOn;
    if run[n].Running? {
      forall p: nat | p < |run[n].procs| ensures GoesOn(m, run[n], p) {
        StateGoesOn(m, run[n], p);
      }
    }
  }

  // ----- the operations end in a commit

  function IsPassed(p: Proc): nat { if p.Passed? then 1 else 0 }

  /** The disk writes a commit has still to make. */
  function WritesLeft(c: Commit): nat {
    match c.phase
    case Idle => 0
    case WriteLog(i) => if i <= |c.lh| then 2 * |c.lh| + 2 - i else 0
    case WriteHead => |c.lh| + 2
    case Install(i) => if i <= |c.lh| then |c.lh| + 1 - i else 0
    case EraseHead => 1
    case Finished => 0
  }

  lemma WritesEnd(c: Commit)
    requires CommitInv(c) && CanStep(c)
    ensures WritesLeft(NextCommit(c)) < WritesLeft(c)
  {
  }

  /** No crash, and nobody begins an operation. */
  predicate Winding(st: Step) { st.Append? || st.EndOp? || st.CommitWrite? || st.EndCommit? }

  ghost predicate AllWinding(steps: seq<Step>) { forall i :: 0 <= i < |steps| ==> Winding(steps[i]) }

  /** The next step of winding up, if the state is not settled yet. */
  lemma {:induction false} NextWinding(m: Params, s: State) returns (st: Step)
    requires Inv(m, s) && s.Running? && m.LogSize() <= |s.c.disk.log| && !Settled(s)
    ensures Winding(st) && Enabled(m, s, st)
    ensures (exists p :: 0 <= p < |s.procs| && s.procs[p].Passed?) ==> st.Append?
  {
    hide CommitInv, CanStep, Sum;
    if p: nat :| p < |s.procs| && s.procs[p].Passed? {
      st := Append(p);
    } else if s.outstanding > 0 {
      var q := SomeInOp(s.procs);
      StateGoesOn(m, s, q);
      st := EndOp(q);
    } else {
      var q := SomeCommitter(s.procs);
      StateGoesOn(m, s, q);
      st := if Enabled(m, s, CommitWrite(q)) then CommitWrite(q) else EndCommit(q);
    }
  }

  lemma {:induction false} SomeCommitter(ps: seq<Proc>) returns (q: nat)
    requires Sum(IsCommitter, ps) > 0
    ensures q < |ps| && ps[q].Committer?
  {
    if IsCommitter(ps[|ps| - 1]) > 0 {
      q := |ps| - 1;
    } else {
      q := SomeCommitter(ps[..|ps| - 1]);
    }
  }

  /** With nothing logged and no commit, nobody sleeps in begin_op. */
  lemma {:induction false} QuietMeansAwake(m: Params, s: State)
    requires Inv(m, s) && s.Running? && Settled(s)
    ensures s.c.lh == [] && forall p :: 0 <= p < |s.procs| ==> !s.procs[p].Asleep?
  {
    hide CommitInv, Sum;
    forall p | 0 <= p < |s.procs| ensures !s.procs[p].Asleep? {
      SumAtLeast(IsAsleep, s.procs, p);
    }
  }

  lemma {:induction false} StepFits(m: Params, s: State, st: Step)
    requires Proto(m, s) && Enabled(m, s, st) && m.LogSize() <= |DiskOf(s).log|
    ensures FitsLog(Do(m, s, st)) && |DiskOf(Do(m, s, st)).log| == |DiskOf(s).log|
  {
    hide Do, Enabled, Sum;
    ProtoStep(m, s, st);
    LogKeepsLength(m, s, st);
  }

  /** Every step of winding up brings its end nearer: fewer processes past the size test, or else fewer
      operations outstanding, or else fewer writes to go. */
  lemma {:induction false} WindingNears(m: Params, s: State, st: Step)
    requires Inv(m, s) && s.Running? && Winding(st) && Enabled(m, s, st)
    ensures var u := Do(m, s, st);
            && u.Running?
            && var a, b := Sum(IsPassed, s.procs), Sum(IsPassed, u.procs);
               && (if st.Append? then b < a else b == a)
               && (st.EndOp? ==> u.outstanding < s.outstanding)
               && (st.CommitWrite? || st.EndCommit? ==> u.outstanding == s.outstanding && s.committing)
               && (st.CommitWrite? ==> u.committing && WritesLeft(u.c) < WritesLeft(s.c))
               && (st.EndCommit? ==> !u.committing)
  {
    InvFacts(m, s);
    hide Inv, CommitInv, PassedOk, Sum, WakeAll, NextCommit, WritesLeft;
    match st
    case Append(p) => SumUpdate(IsPassed, s.procs, p, Do(m, s, st).procs[p]);
    case EndOp(p) => EndOpNears(m, s, p);
    case CommitWrite(p) => WritesEnd(s.c);
    case EndCommit(p) => SamePassed(s.procs, p, Out);
  }

  lemma EndOpNears(m: Params, s: State, p: nat)
    requires Enabled(m, s, EndOp(p))
    ensures var u := Do(m, s, EndOp(p));
            u.Running? && Sum(IsPassed, u.procs) == Sum(IsPassed, s.procs) && u.outstanding < s.outstanding
  {
    SamePassed(s.procs, p, if s.outstanding == 1 then Committer else Out);
    hide Sum, WakeAll, IsPassed;
  }

  lemma SamePassed(ps: seq<Proc>, p: nat, x: Proc)
    requires p < |ps| && !ps[p].Passed? && !x.Passed?
    ensures Sum(IsPassed, ps[p := x]) == Sum(IsPassed, WakeAll(ps[p := x])) == Sum(IsPassed, ps)
  {
    SumUpdate(IsPassed, ps, p, x);
    SumWake(IsPassed, ps[p := x]);
  }

  ghost predicate NobodyPassed(s: State)
    requires s.Running?
  {
    forall p :: 0 <= p < |s.procs| ==> !s.procs[p].Passed?
  }

  lemma {:induction false} WindingKeeps(m: Params, s: State, st: Step)
    requires Inv(m, s) && s.Running? && Winding(st) && Enabled(m, s, st) && m.LogSize() <= |s.c.disk.log|
    ensures var u := Do(m, s, st);
            && u.Running? && Inv(m, u) && |u.c.disk.log| == |s.c.disk.log|
            && (NobodyPassed(s) ==> NobodyPassed(u) && Current(u) == Current(s))
  {
    StepFits(m, s, st);
    StepEffect(m, s, st);
    hide Inv, Current, WakeAll, NextCommit;
  }

  lemma {:induction false} Prepended(m: Params, s: State, st: Step, run: seq<State>, steps: seq<Step>)
    requires Enabled(m, s, st) && IsRun(m, run, steps) && run[0] == Do(m, s, st)
    requires Winding(st) && AllWinding(steps)
    ensures IsRun(m, [s] + run, [st] + steps) && AllWinding([st] + steps)
  {
    hide Do, Enabled, Winding;
    var run', steps' := [s] + run, [st] + steps;
    forall i | 0 <= i < |steps'| ensures Enabled(m, run'[i], steps'[i]) && run'[i + 1] == Do(m, run'[i], steps'[i]) {
      if i > 0 { assert steps'[i] == steps[i - 1]; }
    }
  }

  /** From every state of a run the operations under way can end, the commit is made, and then nothing is
      logged, nobody sleeps in begin_op, and the home blocks on disk are what the file system saw. */
  lemma {:induction false} WindsUp(m: Params, s: State) returns (run: seq<State>, steps: seq<Step>)
    requires Inv(m, s) && s.Running? && m.LogSize() <= |s.c.disk.log|
    ensures IsRun(m, run, steps) && run[0] == s && AllWinding(steps)
    ensures var u := run[|run| - 1];
            && u.Running? && Inv(m, u) && Settled(u) && u.c.lh == [] && u.c.disk.home == Current(u)
            && (forall p :: 0 <= p < |u.procs| ==> !u.procs[p].Asleep?)
            && (NobodyPassed(s) ==> u.c.disk.home == Current(s))
    decreases Sum(IsPassed, s.procs), s.outstanding, if s.committing then 1 + WritesLeft(s.c) else 0
  {
    hide CommitInv, Sum, Do, Enabled, WritesLeft, Proto;
    if Settled(s) {
      run, steps := [s], [];
      SettledIsDurable(m, s);
      QuietMeansAwake(m, s);
    } else {
      var st := NextWinding(m, s);
      WindingNears(m, s, st);
      WindingKeeps(m, s, st);
      hide Inv, Current, IsRun, NobodyPassed;
      var run', steps' := WindsUp(m, Do(m, s, st));
      run, steps := [s] + run', [st] + steps';
      Prepended(m, s, st, run', steps');
    }
  }

  // ----- what the size test is good for

  /** At most one process stands between the size test of log_write and the record it makes. */
  ghost predicate OneAtATime(s: State) {
    s.Running? ==> forall p, q :: 0 <= p < q < |s.procs| ==> !(s.procs[p].Passed? && s.procs[q].Passed?)
  }

  ghost predicate RoomForPassed(s: State) {
    FitsLog(s) && (s.Running? ==>
      forall p :: 0 <= p < |s.procs| && s.procs[p].Passed? ==> |s.c.lh| < |s.c.disk.log|)
  }

  lemma {:induction false} RoomStep(m: Params, s: State, st: Step)
    requires Proto(m, s) && RoomForPassed(s) && OneAtATime(s) && Enabled(m, s, st)
    ensures RoomForPassed(Do(m, s, st))
  {
    hide Proto, WakeAll;
  }

  /** Whatever the size of the log region: the list passes its end only in a run in which two processes
      stood between the test and the record together. */
  lemma {:induction false} FitsWithoutRace(m: Params, run: seq<State>, steps: seq<Step>, n: nat)
    requires IsRun(m, run, steps) && Init(m, run[0]) && n < |run| && forall i :: 0 <= i < n ==> OneAtATime(run[i])
    ensures FitsLog(run[n]) && RoomForPassed(run[n])
  {
    hide Do, Enabled, OneAtATime, Proto;
    if n == 0 {
      assert RoomForPassed(run[0]) by { BootingHasRoom(m, run[0]); }
    } else {
      FitsWithoutRace(m, run, steps, n - 1);
      InitInv(m, run[0]);
      RunProto(m, run, steps, n - 1);
      RoomStep(m, run[n - 1], steps[n - 1]);
    }
  }

  lemma BootingHasRoom(m: Params, s: State)
    requires Init(m, s)
    ensures RoomForPassed(s)
  {
  }
}
