/** The group-commit protocol of xv6/log.c as a state machine: any number of processes inside
    begin_op, log_write and end_op, a committer writing one block at a time, and a power failure
    possible at any step, recovery included. */
module LogProtocol {
  import opened Common
  import opened RedoLog

  /** MAXOPBLOCKS; the log region holds |disk.log| == log.size - 1 data blocks. */
  datatype Params = Params(maxop: nat) {
    function LogSize(): nat { 3 * maxop }
  }

  /** `left` counts the block numbers the operation may still add. A process that passed the
      size test of log_write is about to take log.lock and record block `b`. */
  datatype Proc =
    | Out
    | Trying
    | Asleep
    | Active(left: nat)
    | Passed(left: nat, b: nat, v: Block)
    | Committer

  datatype State =
    | Booting(r: Recovery, nproc: nat)
    | Running(c: Commit, outstanding: nat, committing: bool, procs: seq<Proc>)

  datatype Step =
    | CallBegin(p: nat)
    | TryBegin(p: nat)
    | TestSize(p: nat, b: nat, v: Block)
    | Append(p: nat)
    | EndOp(p: nat)
    | CommitWrite(p: nat)
    | EndCommit(p: nat)
    | Recover
    | Crash

  // ----- sums over the process table

  function InOp(p: Proc): nat { if p.Active? || p.Passed? then 1 else 0 }
  function Left(p: Proc): nat { if p.Active? || p.Passed? then p.left else 0 }
  function IsCommitter(p: Proc): nat { if p.Committer? then 1 else 0 }
  function IsAsleep(p: Proc): nat { if p.Asleep? then 1 else 0 }

  function Sum(f: Proc -> nat, ps: seq<Proc>): nat {
    if ps == [] then 0 else Sum(f, ps[..|ps| - 1]) + f(ps[|ps| - 1])
  }

  lemma {:induction false} SumUpdate(f: Proc -> nat, ps: seq<Proc>, i: nat, x: Proc)
    requires i < |ps|
    ensures Sum(f, ps[i := x]) == Sum(f, ps) - f(ps[i]) + f(x)
  {
    var n := |ps| - 1;
    if i == n {
      assert ps[i := x][..n] == ps[..n];
    } else {
      assert ps[i := x][..n] == ps[..n][i := x];
      SumUpdate(f, ps[..n], i, x);
    }
  }

  lemma {:induction false} SumAtLeast(f: Proc -> nat, ps: seq<Proc>, i: nat)
    requires i < |ps|
    ensures f(ps[i]) <= Sum(f, ps)
  {
    if i < |ps| - 1 {
      SumAtLeast(f, ps[..|ps| - 1], i);
    }
  }

  lemma {:induction false} SumZero(f: Proc -> nat, ps: seq<Proc>)
    requires forall i :: 0 <= i < |ps| ==> f(ps[i]) == 0
    ensures Sum(f, ps) == 0
  {
    if ps != [] {
      SumZero(f, ps[..|ps| - 1]);
    }
  }

  lemma {:induction false} LeftBound(m: Params, ps: seq<Proc>)
    requires LeftOk(m, ps)
    ensures Sum(Left, ps) <= m.maxop * Sum(InOp, ps)
  {
    if ps != [] {
      var qs, x := ps[..|ps| - 1], ps[|ps| - 1];
      LeftBound(m, qs);
      assert m.maxop * (Sum(InOp, qs) + 1) == m.maxop * Sum(InOp, qs) + m.maxop;
    }
  }

  /** wakeup(&log): every process asleep in begin_op becomes runnable and tests again. */
  function WakeAll(ps: seq<Proc>): (qs: seq<Proc>)
    ensures |qs| == |ps|
    ensures forall i :: 0 <= i < |ps| ==> qs[i] == if ps[i].Asleep? then Trying else ps[i]
  {
    if ps == [] then []
    else WakeAll(ps[..|ps| - 1]) + [if ps[|ps| - 1].Asleep? then Trying else ps[|ps| - 1]]
  }

  lemma {:induction false} SumWake(f: Proc -> nat, ps: seq<Proc>)
    requires f(Trying) == f(Asleep)
    ensures Sum(f, WakeAll(ps)) == Sum(f, ps)
  {
    if ps != [] {
      var qs := WakeAll(ps);
      SumWake(f, ps[..|ps| - 1]);
      assert qs[..|ps| - 1] == WakeAll(ps[..|ps| - 1]);
    }
  }

  // ----- steps

  predicate Runs(s: State, p: nat) { s.Running? && p < |s.procs| }

  predicate Full(s: State)
    requires s.Running?
  {
    |s.c.lh| >= |s.c.disk.log|
  }

  /** The two panics of log_write that look at the log's length. */
  predicate TooBig(m: Params, s: State)
    requires s.Running?
  {
    |s.c.lh| >= m.LogSize() || Full(s)
  }

  predicate Enabled(m: Params, s: State, st: Step) {
    match st
    case CallBegin(p) => Runs(s, p) && s.procs[p].Out?
    case TryBegin(p) => Runs(s, p) && s.procs[p].Trying?
    case TestSize(p, b, v) =>
      && Runs(s, p) && s.procs[p].Active? && b in s.c.disk.home
      && (b in s.c.lh || s.procs[p].left > 0)
      && !TooBig(m, s) && s.outstanding >= 1
    case Append(p) => Runs(s, p) && s.procs[p].Passed?
    case EndOp(p) => Runs(s, p) && s.procs[p].Active? && !s.committing && s.outstanding >= 1
    case CommitWrite(p) => Runs(s, p) && s.procs[p].Committer? && CanStep(s.c)
    case EndCommit(p) => Runs(s, p) && s.procs[p].Committer? && s.c.phase.Finished?
    case Recover => s.Booting? && RecoverInv(s.r) && !s.r.phase.Up?
    case Crash => true
  }

  function Do(m: Params, s: State, st: Step): State
    requires Enabled(m, s, st)
  {
    match st
    case CallBegin(p) => s.(procs := s.procs[p := Trying])
    case TryBegin(p) =>
      if s.committing || |s.c.lh| + (s.outstanding + 1) * m.maxop > m.LogSize() then
        s.(procs := s.procs[p := Asleep])
      else
        s.(outstanding := s.outstanding + 1, procs := s.procs[p := Active(m.maxop)])
    case TestSize(p, b, v) =>
      s.(procs := s.procs[p := Passed(s.procs[p].left, b, v)])
    case Append(p) =>
      var Passed(left, b, v) := s.procs[p];
      var left' := if b in s.c.lh || left == 0 then left else left - 1;
      s.(c := s.c.(lh := Listed(s.c.lh, b), cache := s.c.cache[b := v]),
         procs := s.procs[p := Active(left')])
    case EndOp(p) =>
      if s.outstanding == 1 then
        s.(outstanding := 0, committing := true, c := s.c.(phase := StartPhase(s.c.lh)),
           procs := s.procs[p := Committer])
      else
        s.(outstanding := s.outstanding - 1, procs := WakeAll(s.procs[p := Out]))
    case CommitWrite(p) => s.(c := NextCommit(s.c))
    case EndCommit(p) =>
      s.(committing := false, c := s.c.(phase := Idle), procs := WakeAll(s.procs[p := Out]))
    case Recover =>
      var r := NextRecover(s.r);
      if r.phase.Up? then
        Running(Commit(r.disk, map[], [], Idle), 0, false, seq(s.nproc, _ => Out))
      else Booting(r, s.nproc)
    case Crash =>
      Booting(Recovery(DiskOf(s), [], ReadHead), if s.Running? then |s.procs| else s.nproc)
  }

  function DiskOf(s: State): Disk {
    if s.Running? then s.c.disk else s.r.disk
  }

  /** A machine that has just been switched on with a well-formed disk. */
  predicate Init(m: Params, s: State) {
    && s.Booting? && s.r.phase.ReadHead? && ValidDisk(s.r.disk)
    && 1 <= m.maxop
  }

  predicate IsRun(m: Params, run: seq<State>, steps: seq<Step>) {
    && |run| == |steps| + 1
    && forall i :: 0 <= i < |steps| ==> Enabled(m, run[i], steps[i]) && run[i + 1] == Do(m, run[i], steps[i])
  }

  // ----- the invariant

  ghost predicate Counts(m: Params, s: State)
    requires s.Running?
  {
    && s.outstanding == Sum(InOp, s.procs)
    && Sum(IsCommitter, s.procs) == (if s.committing then 1 else 0)
    && |s.c.lh| + Sum(Left, s.procs) <= m.LogSize()
    && (Sum(IsAsleep, s.procs) > 0 ==> s.committing || s.outstanding > 0)
    && (!s.committing && s.outstanding == 0 ==> s.c.lh == [])
  }

  /** A process past the size test records a home block within its reservation. */
  ghost predicate PassedOk(s: State)
    requires s.Running?
  {
    forall p :: 0 <= p < |s.procs| && s.procs[p].Passed? ==>
      s.procs[p].b in s.c.disk.home && (s.procs[p].b in s.c.lh || s.procs[p].left > 0)
  }

  ghost predicate LeftOk(m: Params, ps: seq<Proc>) {
    forall p :: 0 <= p < |ps| && (ps[p].Active? || ps[p].Passed?) ==> ps[p].left <= m.maxop
  }

  /** What the protocol keeps, however large the log region is. */
  ghost predicate Proto(m: Params, s: State) {
    1 <= m.maxop && (s.Running? ==>
      && (s.committing <==> !s.c.phase.Idle?)
      && (s.committing ==> s.outstanding == 0)
      && (s.c.phase.Finished? ==> s.c.lh == [])
      && Counts(m, s) && PassedOk(s) && LeftOk(m, s.procs))
  }

  /** What holds of the disk as well, as long as the block list fits in the log region. */
  ghost predicate Inv(m: Params, s: State) {
    && Proto(m, s) && ValidDisk(DiskOf(s))
    && if s.Booting? then RecoverInv(s.r) && !s.r.phase.Up? else CommitInv(s.c)
  }

  ghost predicate FitsLog(s: State) {
    s.Running? ==> |s.c.lh| <= |s.c.disk.log|
  }

  lemma InitInv(m: Params, s: State)
    requires Init(m, s)
    ensures Inv(m, s)
  {
  }

  lemma IndexIn(s: seq<nat>, x: nat)
    ensures x in s <==> IndexOf(s, x) < |s|
  {
  }

  /** Recording a block keeps the list well formed and the pinned buffers those of the list. */
  lemma AppendKeepsCommit(c: Commit, b: nat, v: Block)
    requires CommitInv(c) && c.phase.Idle? && b in c.disk.home
    requires b in c.lh || |c.lh| < |c.disk.log|
    ensures CommitInv(c.(lh := Listed(c.lh, b), cache := c.cache[b := v]))
  {
    hide View, ViewAt, IndexOf, ValidDisk;
    var c' := c.(lh := Listed(c.lh, b), cache := c.cache[b := v]);
    forall x ensures x in c'.cache <==> 0 <= IndexOf(c'.lh, x) < |c'.lh| {
      IndexIn(c.lh, x);
      IndexIn(c'.lh, x);
    }
  }

  lemma AppendView(c: Commit, b: nat, v: Block)
    requires b in c.disk.home
    ensures View(c.(lh := Listed(c.lh, b), cache := c.cache[b := v])) == View(c)[b := v]
  {
  }

  lemma StepInv(m: Params, s: State, st: Step)
    requires Inv(m, s) && Enabled(m, s, st) && FitsLog(Do(m, s, st))
    ensures Inv(m, Do(m, s, st))
  {
    hide Proto, CommitInv, Sum, WakeAll;
    ProtoStep(m, s, st);
    match st
    case Append(p) => AppendFits(m, s, p);
    case EndOp(p) => if s.outstanding == 1 { StartsIdle(m, s, p); }
    case CommitWrite(p) => CommitStepSafe(s.c); CommitDisk(s.c);
    case EndCommit(p) => FinishCommitInv(s.c);
    case Recover => RecoverDisk(s);
    case Crash => CommitValid(s);
    case _ =>
  }

  lemma ProtoStep(m: Params, s: State, st: Step)
    requires Proto(m, s) && Enabled(m, s, st)
    ensures Proto(m, Do(m, s, st))
  {
    match st
    case CallBegin(p) => MoveKeeps(m, s, p, Trying);
    case TryBegin(p) => TryBeginKeeps(m, s, p);
    case TestSize(p, b, v) => MoveKeeps(m, s, p, Passed(s.procs[p].left, b, v));
    case Append(p) => AppendKeeps(m, s, p);
    case EndOp(p) => EndOpKeeps(m, s, p);
    case CommitWrite(p) => CommitWriteKeeps(m, s, p);
    case EndCommit(p) => EndCommitKeeps(m, s, p);
    case Recover => RecoverKeeps(m, s);
    case Crash =>
  }

  lemma AppendFits(m: Params, s: State, p: nat)
    requires Inv(m, s) && Enabled(m, s, Append(p)) && FitsLog(Do(m, s, Append(p)))
    ensures var s' := Do(m, s, Append(p)); s'.c.disk == s.c.disk && CommitInv(s'.c)
  {
    hide CommitInv, Sum, WakeAll;
    SumAtLeast(InOp, s.procs, p);
    AppendKeepsCommit(s.c, s.procs[p].b, s.procs[p].v);
  }

  lemma StartsIdle(m: Params, s: State, p: nat)
    requires Inv(m, s) && Enabled(m, s, EndOp(p))
    ensures CommitInv(s.c.(phase := StartPhase(s.c.lh)))
  {
    hide CommitInv, Sum;
    StartCommitInv(s.c);
  }

  lemma CommitDisk(c: Commit)
    requires CommitInv(c) && CanStep(c)
    ensures ValidDisk(NextCommit(c).disk) && |NextCommit(c).disk.log| == |c.disk.log|
  {
  }

  lemma CommitValid(s: State)
    requires s.Running? ==> CommitInv(s.c)
    requires s.Booting? ==> RecoverInv(s.r)
    ensures ValidDisk(DiskOf(s))
  {
  }

  lemma RecoverDisk(s: State)
    requires s.Booting? && RecoverInv(s.r) && !s.r.phase.Up?
    ensures RecoverInv(NextRecover(s.r)) && |NextRecover(s.r).disk.log| == |s.r.disk.log|
    ensures NextRecover(s.r).phase.Up? ==> CommitInv(Commit(NextRecover(s.r).disk, map[], [], Idle))
  {
    RecoverStepSafe(s.r);
  }

  /** What one process-table update does to the sums. */
  lemma Sums(ps: seq<Proc>, p: nat, x: Proc)
    requires p < |ps|
    ensures Sum(InOp, ps[p := x]) == Sum(InOp, ps) - InOp(ps[p]) + InOp(x)
    ensures Sum(Left, ps[p := x]) == Sum(Left, ps) - Left(ps[p]) + Left(x)
    ensures Sum(IsCommitter, ps[p := x]) == Sum(IsCommitter, ps) - IsCommitter(ps[p]) + IsCommitter(x)
    ensures Sum(IsAsleep, ps[p := x]) == Sum(IsAsleep, ps) - IsAsleep(ps[p]) + IsAsleep(x)
    ensures InOp(ps[p]) <= Sum(InOp, ps) && Left(ps[p]) <= Sum(Left, ps)
    ensures IsCommitter(ps[p]) <= Sum(IsCommitter, ps)
  {
    SumUpdate(InOp, ps, p, x);
    SumUpdate(Left, ps, p, x);
    SumUpdate(IsCommitter, ps, p, x);
    SumUpdate(IsAsleep, ps, p, x);
    SumAtLeast(InOp, ps, p);
    SumAtLeast(Left, ps, p);
    SumAtLeast(IsCommitter, ps, p);
  }

  lemma WakeSums(ps: seq<Proc>)
    ensures Sum(InOp, WakeAll(ps)) == Sum(InOp, ps)
    ensures Sum(Left, WakeAll(ps)) == Sum(Left, ps)
    ensures Sum(IsCommitter, WakeAll(ps)) == Sum(IsCommitter, ps)
    ensures Sum(IsAsleep, WakeAll(ps)) == 0
  {
    SumWake(InOp, ps);
    SumWake(Left, ps);
    SumWake(IsCommitter, ps);
    SumZero(IsAsleep, WakeAll(ps));
  }

  lemma MoveKeeps(m: Params, s: State, p: nat, x: Proc)
    requires Proto(m, s) && Runs(s, p) && !x.Asleep?
    requires InOp(x) == InOp(s.procs[p]) && Left(x) == Left(s.procs[p])
    requires !x.Committer? && !s.procs[p].Committer?
    requires x.Passed? ==> x.b in s.c.disk.home && (x.b in s.c.lh || x.left > 0)
    ensures Proto(m, s.(procs := s.procs[p := x]))
  {
    hide CommitInv, Sum, WakeAll;
    Sums(s.procs, p, x);
  }

  /** The outcomes of one round of the loop in begin_op. A process only goes to sleep when a
      commit is running or another operation is outstanding, because an idle log is empty. */
  lemma TryBeginKeeps(m: Params, s: State, p: nat)
    requires Proto(m, s) && Enabled(m, s, TryBegin(p))
    ensures Proto(m, Do(m, s, TryBegin(p)))
  {
    hide CommitInv, Sum, WakeAll;
    var s' := Do(m, s, TryBegin(p));
    Sums(s.procs, p, s'.procs[p]);
    LeftBound(m, s.procs);
    Reserve(m, |s.c.lh|, s.outstanding, Sum(Left, s.procs));
  }

  lemma Reserve(m: Params, n: nat, outstanding: nat, left: nat)
    requires left <= m.maxop * outstanding
    ensures n + (outstanding + 1) * m.maxop <= m.LogSize() ==> n + left + m.maxop <= m.LogSize()
    ensures n == 0 && outstanding == 0 ==> n + (outstanding + 1) * m.maxop <= m.LogSize()
  {
    assert (outstanding + 1) * m.maxop == m.maxop * outstanding + m.maxop;
  }

  lemma AppendKeeps(m: Params, s: State, p: nat)
    requires Proto(m, s) && Enabled(m, s, Append(p))
    ensures Proto(m, Do(m, s, Append(p)))
  {
    hide CommitInv, Sum, WakeAll;
    var s' := Do(m, s, Append(p));
    Sums(s.procs, p, s'.procs[p]);
  }

  lemma EndOpKeeps(m: Params, s: State, p: nat)
    requires Proto(m, s) && Enabled(m, s, EndOp(p))
    ensures Proto(m, Do(m, s, EndOp(p)))
  {
    hide CommitInv, Sum, WakeAll;
    if s.outstanding == 1 {
      Sums(s.procs, p, Committer);
    } else {
      Sums(s.procs, p, Out);
      WakeSums(s.procs[p := Out]);
    }
  }

  lemma FinishCommitInv(c: Commit)
    requires CommitInv(c) && c.phase.Finished?
    ensures c.lh == [] && CommitInv(c.(phase := Idle))
  {
  }

  lemma CommitWriteKeeps(m: Params, s: State, p: nat)
    requires Proto(m, s) && Enabled(m, s, CommitWrite(p))
    ensures Proto(m, Do(m, s, CommitWrite(p)))
  {
    forall q | 0 <= q < |s.procs| ensures !s.procs[q].Passed? {
      SumAtLeast(InOp, s.procs, q);
    }
  }

  lemma EndCommitKeeps(m: Params, s: State, p: nat)
    requires Proto(m, s) && Enabled(m, s, EndCommit(p))
    ensures Proto(m, Do(m, s, EndCommit(p)))
  {
    hide CommitInv, Sum, WakeAll;
    Sums(s.procs, p, Out);
    WakeSums(s.procs[p := Out]);
  }

  lemma RecoverKeeps(m: Params, s: State)
    requires Proto(m, s) && Enabled(m, s, Recover)
    ensures Proto(m, Do(m, s, Recover))
  {
    var s' := Do(m, s, Recover);
    if s'.Running? {
      SumZero(InOp, s'.procs);
      SumZero(Left, s'.procs);
      SumZero(IsCommitter, s'.procs);
      SumZero(IsAsleep, s'.procs);
    }
  }

  // ----- over whole runs

  lemma {:induction false} RunInv(m: Params, run: seq<State>, steps: seq<Step>, n: nat)
    requires IsRun(m, run, steps) && Inv(m, run[0]) && n < |run|
    requires forall i :: 0 <= i <= n ==> FitsLog(run[i])
    ensures Inv(m, run[n])
  {
    hide Inv, Do, Enabled;
    if n > 0 {
      RunInv(m, run, steps, n - 1);
      assert run[n] == Do(m, run[n - 1], steps[n - 1]) && FitsLog(run[n]);
      StepInv(m, run[n - 1], steps[n - 1]);
    }
  }

  ghost function Committed(s: State): map<nat, Block>
    requires ValidDisk(DiskOf(s))
  {
    Recovered(DiskOf(s))
  }

  /** The contents the file system sees: through the cache while running, and what recovery
      will restore while booting. */
  ghost function Current(s: State): map<nat, Block>
    requires ValidDisk(DiskOf(s))
  {
    if s.Running? then View(s.c) else Recovered(s.r.disk)
  }

  predicate IsCommitPoint(s: State, st: Step) {
    st.CommitWrite? && s.Running? && s.c.phase.WriteHead?
  }

  ghost predicate NoOpInProgress(s: State) {
    s.Running? ==> s.outstanding == 0 && forall p :: 0 <= p < |s.procs| ==> !s.procs[p].Active? && !s.procs[p].Passed?
  }

  /** The atomic disk the protocol implements: the durable contents change only at a commit point,
      to the contents current there, with no operation in progress; the current contents change
      only when an operation records a block, and a crash falls back to the durable contents. */
  lemma StepEffect(m: Params, s: State, st: Step)
    requires Inv(m, s) && Enabled(m, s, st) && FitsLog(Do(m, s, st))
    ensures Inv(m, Do(m, s, st))
    ensures Committed(Do(m, s, st)) == if IsCommitPoint(s, st) then Current(s) else Committed(s)
    ensures Current(Do(m, s, st)) ==
            match st
            case Append(p) => Current(s)[s.procs[p].b := s.procs[p].v]
            case Crash => Committed(s)
            case _ => Current(s)
    ensures st.CommitWrite? ==> NoOpInProgress(s)
  {
    hide CommitInv, Inv, RecoverInv;
    StepInv(m, s, st);
    InvFacts(m, s);
    match st
    case Append(p) => AppendView(s.c, s.procs[p].b, s.procs[p].v);
    case CommitWrite(p) => CommitStepSafe(s.c);
    case EndOp(p) => SameView(s.c, Do(m, s, st).c);
    case EndCommit(p) => SameView(s.c, Do(m, s, st).c);
    case Recover => RecoverEffect(m, s);
    case _ =>
  }

  lemma InvFacts(m: Params, s: State)
    requires Inv(m, s)
    ensures ValidDisk(DiskOf(s))
    ensures s.Running? ==> CommitInv(s.c) && PassedOk(s)
    ensures s.Running? && s.committing ==> NoOpInProgress(s)
    ensures s.Running? && (exists p :: 0 <= p < |s.procs| && s.procs[p].Committer?) ==> s.committing
  {
    if s.Running? {
      forall p | 0 <= p < |s.procs| ensures InOp(s.procs[p]) <= s.outstanding {
        SumAtLeast(InOp, s.procs, p);
      }
      forall p | 0 <= p < |s.procs| && s.procs[p].Committer? ensures s.committing {
        SumAtLeast(IsCommitter, s.procs, p);
      }
    }
  }

  lemma RecoverEffect(m: Params, s: State)
    requires Inv(m, s) && Enabled(m, s, Recover)
    ensures Inv(m, Do(m, s, Recover))
    ensures Committed(Do(m, s, Recover)) == Committed(s)
    ensures Current(Do(m, s, Recover)) == Current(s)
  {
    StepInv(m, s, Recover);
    RecoverStepSafe(s.r);
    var r := NextRecover(s.r);
    if r.phase.Up? {
      InstalledIsHome(r.disk);
      assert View(Commit(r.disk, map[], [], Idle)) == r.disk.home;
    }
  }

  /** Nothing is logged and nothing is being committed. */
  ghost predicate Settled(s: State) {
    s.Running? ==> s.outstanding == 0 && !s.committing
  }

  lemma SettledIsDurable(m: Params, s: State)
    requires Inv(m, s) && Settled(s)
    ensures Committed(s) == Current(s)
    ensures s.Running? ==> s.c.disk.home == Current(s)
  {
    if s.Running? {
      forall b ensures b !in s.c.cache {
        assert b in s.c.cache <==> 0 <= IndexOf(s.c.lh, b) < |s.c.lh|;
      }
      InstalledIsHome(s.c.disk);
    }
  }

  /** The last commit point in steps[j..n], or `j` if there is none. */
  function LastCommit(run: seq<State>, steps: seq<Step>, j: nat, n: nat): (k: nat)
    requires j <= n <= |steps| < |run|
    ensures j <= k <= n
    ensures k == j || (k < n && IsCommitPoint(run[k], steps[k]))
    ensures forall i :: k < i < n ==> !IsCommitPoint(run[i], steps[i])
  {
    if n == j then j
    else if IsCommitPoint(run[n - 1], steps[n - 1]) then n - 1
    else LastCommit(run, steps, j, n - 1)
  }

  lemma {:induction false} SafetyFrom(m: Params, run: seq<State>, steps: seq<Step>, j: nat, n: nat)
    requires IsRun(m, run, steps) && Inv(m, run[0])
    requires j <= n <= |steps| && Settled(run[j]) && forall i :: 0 <= i <= n ==> FitsLog(run[i])
    ensures forall i :: 0 <= i <= n ==> Inv(m, run[i]) && ValidDisk(DiskOf(run[i]))
    ensures var k := LastCommit(run, steps, j, n);
            && (k > j ==> NoOpInProgress(run[k]))
            && Committed(run[n]) == Current(run[k])
            && (run[n].Running? && Settled(run[n]) ==> run[n].c.disk.home == Current(run[k]))
  {
    hide Inv, Committed, Current, DiskOf;
    forall i | 0 <= i <= n ensures Inv(m, run[i]) && ValidDisk(DiskOf(run[i])) {
      RunInv(m, run, steps, i);
      InvFacts(m, run[i]);
    }
    if n > j {
      SafetyFrom(m, run, steps, j, n - 1);
      StepEffect(m, run[n - 1], steps[n - 1]);
    } else {
      SettledIsDurable(m, run[j]);
    }
    if Settled(run[n]) {
      SettledIsDurable(m, run[n]);
    }
  }

  /** Crash safety over every run of a machine switched on with a well-formed disk, in which the block
      list fits in the log region, with crashes anywhere; by AlwaysFits that is every run when the
      region has LOGSIZE blocks. From a settled moment `j` on, what a recovery would restore is always
      the contents current at the last commit point since (or at `j`), a moment with no operation in
      progress; and whenever the system is settled again, on its way or after a crash and recovery,
      the home blocks on disk are exactly those. */
  lemma {:induction false} CrashSafety(m: Params, run: seq<State>, steps: seq<Step>, j: nat, n: nat)
    requires IsRun(m, run, steps) && Init(m, run[0])
    requires j <= n <= |steps| && Settled(run[j]) && forall i :: 0 <= i <= n ==> FitsLog(run[i])
    ensures forall i :: 0 <= i <= n ==> Inv(m, run[i]) && ValidDisk(DiskOf(run[i]))
    ensures var k := LastCommit(run, steps, j, n);
            && (k > j ==> NoOpInProgress(run[k]))
            && Committed(run[n]) == Current(run[k])
            && (run[n].Running? && Settled(run[n]) ==> run[n].c.disk.home == Current(run[k]))
  {
    InitInv(m, run[0]);
    SafetyFrom(m, run, steps, j, n);
  }

  lemma {:induction false} RunProto(m: Params, run: seq<State>, steps: seq<Step>, n: nat)
    requires IsRun(m, run, steps) && Proto(m, run[0]) && n < |run|
    ensures Proto(m, run[n])
  {
    hide Proto;
    if n > 0 {
      RunProto(m, run, steps, n - 1);
      ProtoStep(m, run[n - 1], steps[n - 1]);
    }
  }

  /** Process p can neither record block b nor end an operation. */
  predicate CannotTouch(m: Params, s: State, p: nat, b: nat, v: Block) {
    !Enabled(m, s, TestSize(p, b, v)) && !Enabled(m, s, Append(p)) && !Enabled(m, s, EndOp(p))
  }

  /** In every reachable state, whatever the size of the log region: a commit runs with no operation
      outstanding, so nothing can touch the block list and end_op's panic cannot fire; blocks listed
      plus unspent reservations fit in LOGSIZE; and whoever sleeps in begin_op has a commit or an
      operation whose end will wake it. With LOGSIZE blocks in the region, no operation within its
      reservation meets the "too big" panic. */
  lemma ReachableSafety(m: Params, run: seq<State>, steps: seq<Step>, n: nat)
    requires IsRun(m, run, steps) && Init(m, run[0]) && n < |run| && run[n].Running?
    ensures var s := run[n];
            && (s.committing ==> NoOpInProgress(s))
            && (s.committing ==> forall p: nat, b: nat, v: Block :: CannotTouch(m, s, p, b, v))
            && |s.c.lh| + Sum(Left, s.procs) <= m.LogSize()
            && (forall p :: 0 <= p < |s.procs| && s.procs[p].Asleep? ==> s.committing || s.outstanding > 0)
            && (m.LogSize() <= |s.c.disk.log| ==>
                  forall p :: 0 <= p < |s.procs| && Left(s.procs[p]) > 0 ==> !TooBig(m, s))
  {
    hide CommitInv, Sum;
    var s := run[n];
    InitInv(m, run[0]);
    RunProto(m, run, steps, n);
    forall p | 0 <= p < |s.procs|
      ensures Left(s.procs[p]) <= Sum(Left, s.procs) && InOp(s.procs[p]) <= s.outstanding
      ensures IsAsleep(s.procs[p]) <= Sum(IsAsleep, s.procs)
    {
      SumAtLeast(Left, s.procs, p);
      SumAtLeast(InOp, s.procs, p);
      SumAtLeast(IsAsleep, s.procs, p);
    }
    if s.committing {
      forall p: nat, b: nat, v: Block
        ensures CannotTouch(m, s, p, b, v)
      {
        if p < |s.procs| { assert InOp(s.procs[p]) <= s.outstanding; }
      }
    }
  }

  /** begin_op in every reachable state: it goes to sleep exactly when a commit is running or a whole
      reservation on top of the blocks listed and the reservations of the operations outstanding would
      exceed LOGSIZE; otherwise the operation is admitted with a whole reservation. A log that nobody
      uses always admits. */
  lemma BeginAdmits(m: Params, run: seq<State>, steps: seq<Step>, n: nat, p: nat)
    requires IsRun(m, run, steps) && Init(m, run[0]) && n < |run| && Enabled(m, run[n], TryBegin(p))
    ensures var s, s' := run[n], Do(m, run[n], TryBegin(p));
            var room := |s.c.lh| + s.outstanding * m.maxop + m.maxop <= m.LogSize();
            && (s'.procs[p].Asleep? <==> s.committing || !room)
            && (!s'.procs[p].Asleep? ==> s'.procs[p] == Active(m.maxop) && s'.outstanding == s.outstanding + 1)
            && (s'.procs[p].Asleep? ==> s'.outstanding == s.outstanding)
            && s'.c == s.c && (forall q :: 0 <= q < |s.procs| && q != p ==> s'.procs[q] == s.procs[q])
            && (!s.committing && s.outstanding == 0 ==> !s'.procs[p].Asleep?)
  {
    hide CommitInv, Sum;
    var s := run[n];
    InitInv(m, run[0]);
    RunProto(m, run, steps, n);
    assert (s.outstanding + 1) * m.maxop == s.outstanding * m.maxop + m.maxop;
  }

  predicate HasRoom(m: Params, s: State)
    requires s.Running?
  {
    |s.c.lh| + (s.outstanding + 1) * m.maxop <= m.LogSize()
  }

  /** Nobody sleeps in begin_op who could be admitted. */
  ghost predicate SleepersWait(m: Params, s: State) {
    s.Running? ==>
      forall p {:trigger s.procs[p]} :: 0 <= p < |s.procs| && s.procs[p].Asleep? ==> s.committing || !HasRoom(m, s)
  }

  lemma {:induction false} SleepersStep(m: Params, s: State, st: Step)
    requires Proto(m, s) && SleepersWait(m, s) && Enabled(m, s, st)
    ensures SleepersWait(m, Do(m, s, st))
  {
    hide CommitInv, Sum, WakeAll, NextCommit;
    var u := Do(m, s, st);
    match st
    case TryBegin(p) =>
      assert (s.outstanding + 1) * m.maxop <= (u.outstanding + 1) * m.maxop by { Taller(m, s.outstanding); }
    case Append(p) => SumAtLeast(InOp, s.procs, p);
    case CommitWrite(p) => SumAtLeast(IsCommitter, s.procs, p);
    case _ =>
  }

  lemma Taller(m: Params, n: nat)
    ensures (n + 1) * m.maxop <= (n + 2) * m.maxop
  {
    assert (n + 2) * m.maxop == (n + 1) * m.maxop + m.maxop;
  }

  /** No wakeup is lost in begin_op: in every reachable state whoever sleeps there has to, because a
      commit is running or the reservation does not fit. */
  lemma {:induction false} SleepersHaveReason(m: Params, run: seq<State>, steps: seq<Step>, n: nat)
    requires IsRun(m, run, steps) && Init(m, run[0]) && n < |run|
    ensures SleepersWait(m, run[n])
  {
    hide Proto, Do, Enabled, SleepersWait;
    if n == 0 {
      assert SleepersWait(m, run[0]) by { BootingSleepers(m, run[0]); }
    } else {
      InitInv(m, run[0]);
      RunProto(m, run, steps, n - 1);
      SleepersHaveReason(m, run, steps, n - 1);
      SleepersStep(m, run[n - 1], steps[n - 1]);
    }
  }

  lemma BootingSleepers(m: Params, s: State)
    requires Init(m, s)
    ensures SleepersWait(m, s)
  {
  }

  // ----- when the log region is shorter than LOGSIZE

  lemma LogKeepsLength(m: Params, s: State, st: Step)
    requires Enabled(m, s, st)
    ensures |DiskOf(Do(m, s, st)).log| == |DiskOf(s).log|
  {
  }

  /** A region of LOGSIZE blocks is always large enough. */
  lemma {:induction false} AlwaysFits(m: Params, run: seq<State>, steps: seq<Step>, n: nat)
    requires IsRun(m, run, steps) && Proto(m, run[0]) && n < |run| && m.LogSize() <= |DiskOf(run[0]).log|
    ensures |DiskOf(run[n]).log| == |DiskOf(run[0]).log| && FitsLog(run[n])
  {
    RunProto(m, run, steps, n);
    hide Do, Enabled;
    if n > 0 {
      AlwaysFits(m, run, steps, n - 1);
      LogKeepsLength(m, run[n - 1], steps[n - 1]);
    }
  }

  ghost predicate NeverOverflows(m: Params, s0: State) {
    forall run, steps {:trigger IsRun(m, run, steps)} ::
      IsRun(m, run, steps) && run[0] == s0 ==> forall i :: 0 <= i < |run| ==> FitsLog(run[i])
  }

  /** A freshly booted system with `n` processes. */
  function Fresh(d: Disk, n: nat): State {
    Running(Commit(d, map[], [], Idle), 0, false, seq(n, _ => Out))
  }

  /** Three operations, `k` blocks recorded: the first has used its reservation first, the other
      two have at least one block left each while k <= LOGSIZE - 2. */
  ghost predicate Filled(m: Params, s: State, d: Disk, bs: seq<nat>, k: nat)
    requires k <= |bs|
  {
    && s.Running? && s.c.disk == d && s.c.lh == bs[..k] && !s.committing
    && s.outstanding == 3 && |s.procs| >= 3
    && s.procs[0] == Active(if k <= m.maxop then m.maxop - k else 0)
    && s.procs[1] == Active(if k <= m.maxop then m.maxop else if k < 2 * m.maxop then 2 * m.maxop - k else 1)
    && s.procs[2] == Active(if k < 2 * m.maxop then m.maxop else if k < 3 * m.maxop then 3 * m.maxop - 1 - k else 0)
  }

  lemma Extend(m: Params, run: seq<State>, steps: seq<Step>, st: Step)
    returns (run': seq<State>, steps': seq<Step>)
    requires IsRun(m, run, steps) && Enabled(m, run[|run| - 1], st)
    ensures IsRun(m, run', steps') && run'[0] == run[0]
    ensures run'[|run'| - 1] == Do(m, run[|run| - 1], st)
  {
    hide Do, Enabled;
    run', steps' := run + [Do(m, run[|run| - 1], st)], steps + [st];
  }

  lemma BeginThree(m: Params, d: Disk, n: nat, bs: seq<nat>) returns (run: seq<State>, steps: seq<Step>)
    requires 1 <= m.maxop && n >= 3
    ensures IsRun(m, run, steps) && run[0] == Fresh(d, n)
    ensures Filled(m, run[|run| - 1], d, bs, 0)
  {
    run, steps := [Fresh(d, n)], [];
    run, steps := Extend(m, run, steps, CallBegin(0));
    run, steps := Extend(m, run, steps, TryBegin(0));
    run, steps := Extend(m, run, steps, CallBegin(1));
    run, steps := Extend(m, run, steps, TryBegin(1));
    run, steps := Extend(m, run, steps, CallBegin(2));
    run, steps := Extend(m, run, steps, TryBegin(2));
  }

  lemma {:induction false} Fill(m: Params, d: Disk, n: nat, bs: seq<nat>, k: nat)
    returns (run: seq<State>, steps: seq<Step>)
    requires 1 <= m.maxop && n >= 3 && Distinct(bs) && k < |bs| && k < |d.log| < m.LogSize()
    requires forall i :: 0 <= i < |bs| ==> bs[i] in d.home
    ensures IsRun(m, run, steps) && run[0] == Fresh(d, n)
    ensures Filled(m, run[|run| - 1], d, bs, k)
  {
    if k == 0 {
      run, steps := BeginThree(m, d, n, bs);
    } else {
      run, steps := Fill(m, d, n, bs, k - 1);
      var q := if k <= m.maxop then 0 else if k < 2 * m.maxop then 1 else 2;
      assert bs[..k] == bs[..k - 1] + [bs[k - 1]];
      run, steps := Extend(m, run, steps, TestSize(q, bs[k - 1], []));
      run, steps := Extend(m, run, steps, Append(q));
    }
  }

  lemma Overflow(m: Params, d: Disk, n: nat, bs: seq<nat>) returns (run: seq<State>, steps: seq<Step>)
    requires 1 <= m.maxop && n >= 3 && Distinct(bs) && 1 <= |d.log| < m.LogSize() && |bs| == |d.log| + 1
    requires forall i :: 0 <= i < |bs| ==> bs[i] in d.home
    ensures IsRun(m, run, steps) && run[0] == Fresh(d, n)
    ensures !FitsLog(run[|run| - 1])
  {
    var k := |d.log| - 1;
    run, steps := Fill(m, d, n, bs, k);
    run, steps := Extend(m, run, steps, TestSize(1, bs[k], []));
    run, steps := Extend(m, run, steps, TestSize(2, bs[k + 1], []));
    run, steps := Extend(m, run, steps, Append(1));
    run, steps := Extend(m, run, steps, Append(2));
  }

  /** The size test of log_write runs before log.lock is taken. It keeps the block list inside the
      log region in every run exactly when that region holds LOGSIZE blocks, which needs
      log.size > LOGSIZE; with fewer, two operations within their reservations can pass the test
      together and push the list one block past the end of the log. */
  lemma FitsExactlyWhen(m: Params, d: Disk, n: nat, bs: seq<nat>)
    requires 1 <= m.maxop && n >= 3 && 1 <= |d.log| && d.head == []
    requires Distinct(bs) && |bs| == |d.log| + 1 && forall i :: 0 <= i < |bs| ==> bs[i] in d.home
    ensures NeverOverflows(m, Fresh(d, n)) <==> m.LogSize() <= |d.log|
  {
    if m.LogSize() <= |d.log| {
      FreshInv(m, d, n);
      forall run, steps | IsRun(m, run, steps) && run[0] == Fresh(d, n)
        ensures forall i :: 0 <= i < |run| ==> FitsLog(run[i])
      {
        forall i | 0 <= i < |run| ensures FitsLog(run[i]) {
          AlwaysFits(m, run, steps, i);
        }
      }
    } else {
      var run, steps := Overflow(m, d, n, bs);
      assert !FitsLog(run[|run| - 1]);
    }
  }

  lemma FreshInv(m: Params, d: Disk, n: nat)
    requires 1 <= m.maxop && d.head == []
    ensures Inv(m, Fresh(d, n))
  {
    var ps := Fresh(d, n).procs;
    SumZero(InOp, ps);
    SumZero(Left, ps);
    SumZero(IsCommitter, ps);
    SumZero(IsAsleep, ps);
  }
}
