/** The life of processes in xv6/proc.c: fork, exit, wait, kill, sleep, wakeup and the scheduler over
    the process table. Each step is one critical section of ptable.lock, or one of the stores fork
    makes without it, so a run is any sequence of steps. */
module ProcTable {

  datatype PState = UNUSED | EMBRYO | SLEEPING | RUNNABLE | RUNNING | ZOMBIE

  /** What a process sleeps on: a process (wait sleeps on the caller itself) or some other address. */
  datatype Chan = Nowhere | OnProc(p: int) | OnOther(a: nat)

  /** `parent` is a table index, -1 for the null pointer. */
  datatype Proc = Proc(state: PState, pid: nat, parent: int, chan: Chan, killed: bool)

  type Table = seq<Proc>

  predicate Alive(p: Proc) { p.state.SLEEPING? || p.state.RUNNABLE? || p.state.RUNNING? }

  // ----- wakeup1

  function Woke(p: Proc, c: Chan): Proc {
    if p.state.SLEEPING? && p.chan == c then p.(state := RUNNABLE) else p
  }

  function Wakeup1(t: Table, c: Chan): (r: Table)
    ensures |r| == |t| && forall i {:trigger r[i]} :: 0 <= i < |t| ==> r[i] == Woke(t[i], c)
  {
    seq(|t|, i requires 0 <= i < |t| => Woke(t[i], c))
  }

  // ----- exit

  function Adopted(p: Proc, dead: nat, init: nat): Proc {
    if p.parent == dead then p.(parent := init) else p
  }

  function Adopt(t: Table, dead: nat, init: nat): (r: Table)
    ensures |r| == |t| && forall i {:trigger r[i]} :: 0 <= i < |t| ==> r[i] == Adopted(t[i], dead, init)
  {
    seq(|t|, i requires 0 <= i < |t| => Adopted(t[i], dead, init))
  }

  predicate HasZombie(t: Table, p: nat) {
    exists i :: 0 <= i < |t| && t[i].parent == p && t[i].state.ZOMBIE?
  }

  predicate IsZombieOf(t: Table, z: nat, p: nat)
    requires z < |t|
  {
    t[z].parent == p && t[z].state.ZOMBIE?
  }

  /** exit of process p, from its acquire of ptable.lock to the switch to the scheduler. */
  function ExitStep(t: Table, p: nat, init: nat): Table
    requires p < |t|
  {
    var t1 := Wakeup1(t, OnProc(t[p].parent));
    var t2 := Adopt(t1, p, init);
    var t3 := if HasZombie(t1, p) then Wakeup1(t2, OnProc(init)) else t2;
    t3[p := t3[p].(state := ZOMBIE)]
  }

  // ----- wait

  datatype Found = Child(z: nat) | NoKids | Wait

  /** The scan of wait: the first zombie child, if any. */
  function FirstZombie(t: Table, p: nat, from: nat): (r: nat)
    requires from <= |t|
    ensures from <= r <= |t|
    ensures r < |t| ==> t[r].parent == p && t[r].state.ZOMBIE?
    ensures forall i :: from <= i < r ==> !(t[i].parent == p && t[i].state.ZOMBIE?)
    decreases |t| - from
  {
    if from == |t| then |t|
    else if t[from].parent == p && t[from].state.ZOMBIE? then from
    else FirstZombie(t, p, from + 1)
  }

  predicate HasKids(t: Table, p: nat) {
    exists i :: 0 <= i < |t| && t[i].parent == p
  }

  function Scan(t: Table, p: nat): Found
    requires p < |t|
  {
    var z := FirstZombie(t, p, 0);
    if z < |t| then Child(z)
    else if !HasKids(t, p) || t[p].killed then NoKids
    else Wait
  }

  function WaitStep(t: Table, p: nat): Table
    requires p < |t|
  {
    match Scan(t, p)
    case Child(z) => t[z := Proc(UNUSED, 0, -1, t[z].chan, false)]
    case NoKids => t
    case Wait => t[p := t[p].(state := SLEEPING, chan := OnProc(p))]
  }

  /** The three ends of a round of wait: it reaps a zombie child if there is one, and only that entry
      changes; otherwise it returns -1 exactly when there is no child or the caller is killed, changing
      nothing; and it sleeps, on the caller itself, exactly when there are children, none of them a
      zombie, and the caller is not killed. */
  lemma WaitEnds(t: Table, p: nat)
    requires p < |t|
    ensures Scan(t, p).Child? <==> HasZombie(t, p)
    ensures Scan(t, p).NoKids? <==> !HasZombie(t, p) && (!HasKids(t, p) || t[p].killed)
    ensures Scan(t, p).Wait? <==> !HasZombie(t, p) && HasKids(t, p) && !t[p].killed
    ensures |WaitStep(t, p)| == |t|
    ensures Scan(t, p).Child? ==>
              var z, u := Scan(t, p).z, WaitStep(t, p);
              && z < |t| && t[z].parent == p && t[z].state.ZOMBIE?
              && u[z].state.UNUSED? && u[z].pid == 0 && u[z].parent == -1 && !u[z].killed
              && forall i :: 0 <= i < |t| && i != z ==> u[i] == t[i]
    ensures Scan(t, p).NoKids? ==> WaitStep(t, p) == t
    ensures Scan(t, p).Wait? ==>
              var u := WaitStep(t, p);
              u[p].state.SLEEPING? && u[p].chan == OnProc(p) && forall i :: 0 <= i < |t| && i != p ==> u[i] == t[i]
  {
    hide FirstZombie;
  }

  // ----- the machine

  /** `making[f]` is the table entry process f is setting up in fork. */
  datatype State = State(t: Table, init: nat, nextpid: nat, making: map<nat, nat>)

  datatype Step =
    | Schedule(p: nat)
    | Yield(p: nat)
    | AllocProc(f: nat, e: nat)
    | ForkFails(f: nat)
    | ForkSetsParent(f: nat)
    | ForkDone(f: nat)
    | Exit(p: nat)
    | WaitOnce(p: nat)
    | Sleep(p: nat, a: nat)
    | Wakeup(a: nat)
    | Kill(p: nat)

  /** Process p is running and not inside fork. */
  predicate Acts(s: State, p: nat) {
    p < |s.t| && s.t[p].state.RUNNING? && p !in s.making
  }

  /** Process f is running inside fork, with its new entry at hand. */
  predicate Forks(s: State, f: nat) {
    f < |s.t| && s.t[f].state.RUNNING? && f in s.making && s.making[f] < |s.t|
  }

  predicate Enabled(s: State, st: Step) {
    match st
    case Schedule(p) => p < |s.t| && s.t[p].state.RUNNABLE?
    case Yield(p) => p < |s.t| && s.t[p].state.RUNNING?
    case AllocProc(f, e) =>
      && Acts(s, f) && e < |s.t| && s.t[e].state.UNUSED?
      && forall i :: 0 <= i < e ==> !s.t[i].state.UNUSED?
    case ForkFails(f) => Forks(s, f) && s.t[s.making[f]].parent == -1
    case ForkSetsParent(f) => Forks(s, f)
    case ForkDone(f) => Forks(s, f) && s.t[s.making[f]].parent == f
    case Exit(p) => Acts(s, p) && p != s.init
    case WaitOnce(p) => Acts(s, p)
    case Sleep(p, a) => Acts(s, p)
    case Wakeup(a) => true
    case Kill(p) => p < |s.t|
  }

  function SetState(t: Table, p: nat, st: PState): Table
    requires p < |t|
  {
    t[p := t[p].(state := st)]
  }

  function Do(s: State, st: Step): State
    requires Enabled(s, st)
  {
    match st
    case Schedule(p) => s.(t := SetState(s.t, p, RUNNING))
    case Yield(p) => s.(t := SetState(s.t, p, RUNNABLE))
    case AllocProc(f, e) =>
      s.(t := s.t[e := s.t[e].(state := EMBRYO, pid := s.nextpid)],
         nextpid := s.nextpid + 1, making := s.making[f := e])
    case ForkFails(f) => s.(t := SetState(s.t, s.making[f], UNUSED), making := s.making - {f})
    case ForkSetsParent(f) => s.(t := s.t[s.making[f] := s.t[s.making[f]].(parent := f)])
    case ForkDone(f) => s.(t := SetState(s.t, s.making[f], RUNNABLE), making := s.making - {f})
    case Exit(p) => s.(t := ExitStep(s.t, p, s.init))
    case WaitOnce(p) => s.(t := WaitStep(s.t, p))
    case Sleep(p, a) => s.(t := s.t[p := s.t[p].(state := SLEEPING, chan := OnOther(a))])
    case Wakeup(a) => s.(t := Wakeup1(s.t, OnOther(a)))
    case Kill(p) =>
      var state := if s.t[p].state.SLEEPING? then RUNNABLE else s.t[p].state;
      s.(t := s.t[p := s.t[p].(killed := true, state := state)])
  }

  // ----- what every step keeps

  /** Entries being set up by fork belong to live forking processes, one each. */
  ghost predicate MakingOk(s: State) {
    && (forall f :: f in s.making ==> f < |s.t| && s.making[f] < |s.t| && MakerOk(s.t[f], s.t[s.making[f]], f))
    && (forall f, h :: f in s.making && h in s.making && f != h ==> s.making[f] != s.making[h])
  }

  predicate MakerOk(maker: Proc, e: Proc, f: nat) {
    (maker.state.RUNNING? || maker.state.RUNNABLE?) && e.state.EMBRYO? && (e.parent == -1 || e.parent == f)
  }

  /** The parent is a process that is neither free, nor being made, nor a zombie. */
  predicate HasLiveParent(t: Table, i: nat)
    requires i < |t|
  {
    0 <= t[i].parent < |t| && t[i].parent != i && Alive(t[t[i].parent])
  }

  /** Every process past EMBRYO other than init has a live parent; a free entry has none. */
  ghost predicate ParentsOk(s: State) {
    && s.init < |s.t| && Alive(s.t[s.init]) && s.t[s.init].parent == -1
    && (forall i :: 0 <= i < |s.t| && s.t[i].state.UNUSED? ==> s.t[i].parent == -1)
    && (forall i {:trigger HasLiveParent(s.t, i)} ::
        0 <= i < |s.t| && i != s.init && (Alive(s.t[i]) || s.t[i].state.ZOMBIE?) ==>
          HasLiveParent(s.t, i))
  }

  /** No process asleep in wait has a zombie child. */
  ghost predicate WaitersOk(s: State) {
    forall i, z ::
      0 <= i < |s.t| && 0 <= z < |s.t| && s.t[i].state.SLEEPING? && s.t[i].chan == OnProc(i) && s.t[z].parent == i ==>
        !s.t[z].state.ZOMBIE?
  }

  /** A process asleep on a process sleeps on itself, in wait. */
  ghost predicate ChansOk(s: State) {
    forall i :: 0 <= i < |s.t| && s.t[i].state.SLEEPING? && s.t[i].chan.OnProc? ==> s.t[i].chan.p == i
  }

  ghost predicate Inv(s: State) {
    MakingOk(s) && ParentsOk(s) && WaitersOk(s) && ChansOk(s)
  }

  predicate Init(s: State) {
    && s.init < |s.t| && s.t[s.init].pid < s.nextpid && s.t[s.init].state.RUNNABLE? && s.t[s.init].parent == -1
    && s.making == map[]
    && forall i :: 0 <= i < |s.t| && i != s.init ==> s.t[i].state.UNUSED? && s.t[i].parent == -1
  }

  /** The table after userinit: init in the first entry, with pid 1. */
  function Booted(n: nat): State {
    State(seq(n, i => if i == 0 then Proc(RUNNABLE, 1, -1, Nowhere, false) else Proc(UNUSED, 0, -1, Nowhere, false)),
          0, 2, map[])
  }

  /** After userinit the machine can start, and init can fork as soon as it runs. */
  lemma BootedStarts(n: nat)
    requires n >= 1
    ensures Init(Booted(n)) && Enabled(Booted(n), Schedule(0))
    ensures n >= 2 ==> Enabled(Do(Booted(n), Schedule(0)), AllocProc(0, 1))
  {
  }

  lemma InitInv(s: State)
    requires Init(s)
    ensures Inv(s)
  {
  }

  lemma StepInv(s: State, st: Step)
    requires Inv(s) && Enabled(s, st)
    ensures Inv(Do(s, st))
  {
    hide Inv, ExitStep, WaitStep, Wakeup1;
    match st
    case Schedule(p) => ChangeInv(s, p, s.t[p].(state := RUNNING));
    case Yield(p) => ChangeInv(s, p, s.t[p].(state := RUNNABLE));
    case AllocProc(f, e) => AllocInv(s, f, e);
    case ForkFails(f) => ForkFailsInv(s, f);
    case ForkSetsParent(f) => ForkSetsParentInv(s, f);
    case ForkDone(f) => ForkDoneInv(s, f);
    case Exit(p) => ExitInv(s, p);
    case WaitOnce(p) => WaitInv(s, p);
    case Sleep(p, a) => ChangeInv(s, p, s.t[p].(state := SLEEPING, chan := OnOther(a)));
    case Wakeup(a) => WakeupInv(s, OnOther(a));
    case Kill(p) => KillInv(s, p);
  }

  /** Live processes stay live, and nobody's parent changes except of entries being made. */
  lemma ParentsKept(s: State, s': State)
    requires ParentsOk(s) && |s'.t| == |s.t| && s'.init == s.init
    requires forall i :: 0 <= i < |s.t| && Alive(s.t[i]) ==> Alive(s'.t[i])
    requires forall i :: 0 <= i < |s.t| && (Alive(s'.t[i]) || s'.t[i].state.ZOMBIE?) ==>
               (Alive(s.t[i]) || s.t[i].state.ZOMBIE?) && s'.t[i].parent == s.t[i].parent
    requires forall i :: 0 <= i < |s.t| && s'.t[i].state.UNUSED? ==> s'.t[i].parent == -1
    ensures ParentsOk(s')
  {
    forall i | 0 <= i < |s.t| && i != s.init && (Alive(s'.t[i]) || s'.t[i].state.ZOMBIE?)
      ensures HasLiveParent(s'.t, i)
    {
      assert HasLiveParent(s.t, i);
    }
  }

  /** A live process changes state among the live ones, and does not go to sleep in wait. */
  lemma ChangeInv(s: State, p: nat, q: Proc)
    requires Inv(s) && p < |s.t| && Alive(s.t[p]) && Alive(q) && q.parent == s.t[p].parent
    requires q.state.SLEEPING? ==> q.chan.OnOther? && p !in s.making
    ensures Inv(s.(t := s.t[p := q]))
  {
    hide HasLiveParent;
    ParentsKept(s, s.(t := s.t[p := q]));
  }

  lemma KillInv(s: State, p: nat)
    requires Inv(s) && Enabled(s, Kill(p))
    ensures Inv(Do(s, Kill(p)))
  {
    hide HasLiveParent;
    ParentsKept(s, Do(s, Kill(p)));
  }

  lemma WakeupInv(s: State, c: Chan)
    requires Inv(s)
    ensures Inv(s.(t := Wakeup1(s.t, c)))
  {
    hide Wakeup1, HasLiveParent;
    ParentsKept(s, s.(t := Wakeup1(s.t, c)));
  }

  lemma AllocInv(s: State, f: nat, e: nat)
    requires Inv(s) && Enabled(s, AllocProc(f, e))
    ensures Inv(Do(s, AllocProc(f, e)))
  {
    hide HasLiveParent;
    ParentsKept(s, Do(s, AllocProc(f, e)));
  }

  lemma ForkFailsInv(s: State, f: nat)
    requires Inv(s) && Enabled(s, ForkFails(f))
    ensures Inv(Do(s, ForkFails(f)))
  {
    hide HasLiveParent;
    ParentsKept(s, Do(s, ForkFails(f)));
  }

  lemma ForkSetsParentInv(s: State, f: nat)
    requires Inv(s) && Enabled(s, ForkSetsParent(f))
    ensures Inv(Do(s, ForkSetsParent(f)))
  {
    hide HasLiveParent;
    ParentsKept(s, Do(s, ForkSetsParent(f)));
  }

  lemma ForkDoneInv(s: State, f: nat)
    requires Inv(s) && Enabled(s, ForkDone(f))
    ensures Inv(Do(s, ForkDone(f)))
  {
    var s' := Do(s, ForkDone(f));
    assert ParentsOk(s') by {
      forall i | 0 <= i < |s.t| && i != s.init && (Alive(s'.t[i]) || s'.t[i].state.ZOMBIE?)
        ensures HasLiveParent(s'.t, i)
      {
        if i != s.making[f] {
          assert HasLiveParent(s.t, i);
        }
      }
    }
    hide HasLiveParent, ParentsOk;
  }

  /** What exit does to each entry: the caller becomes a zombie, its children init's, its parent is woken
      from wait, and init too if one of those children is a zombie already; nothing else changes. */
  lemma ExitEach(t: Table, p: nat, init: nat, i: nat)
    requires p < |t| && i < |t|
    ensures |ExitStep(t, p, init)| == |t|
    ensures var r := ExitStep(t, p, init)[i];
            && r.parent == (if t[i].parent == p then init else t[i].parent)
            && r.chan == t[i].chan && r.pid == t[i].pid && r.killed == t[i].killed
            && (if i == p then r.state.ZOMBIE?
                else if t[i].state.SLEEPING?
                     && (t[i].chan == OnProc(t[p].parent) || (HasZombie(t, p) && t[i].chan == OnProc(init)))
                then r.state.RUNNABLE? else r.state == t[i].state)
  {
    hide Wakeup1, Adopt, HasZombie;
    var t1 := Wakeup1(t, OnProc(t[p].parent));
    WakeKeepsZombies(t, OnProc(t[p].parent), p);
  }

  lemma WakeKeepsZombies(t: Table, c: Chan, p: nat)
    ensures HasZombie(Wakeup1(t, c), p) <==> HasZombie(t, p)
  {
    hide Wakeup1;
    var t1 := Wakeup1(t, c);
    if i :| 0 <= i < |t| && t[i].parent == p && t[i].state.ZOMBIE? {
      assert t1[i].parent == p && t1[i].state.ZOMBIE?;
    }
  }

  lemma ExitInv(s: State, p: nat)
    requires Inv(s) && Enabled(s, Exit(p))
    ensures Inv(Do(s, Exit(p)))
  {
    hide ExitStep, HasLiveParent;
    var s' := Do(s, Exit(p));
    forall i | 0 <= i < |s.t|
      ensures |s'.t| == |s.t|
      ensures var r := s'.t[i];
            && r.parent == (if s.t[i].parent == p then s.init else s.t[i].parent)
            && r.chan == s.t[i].chan
            && (if i == p then r.state.ZOMBIE?
                else if s.t[i].state.SLEEPING?
                     && (s.t[i].chan == OnProc(s.t[p].parent) || (HasZombie(s.t, p) && s.t[i].chan == OnProc(s.init)))
                then r.state.RUNNABLE? else r.state == s.t[i].state)
    {
      ExitEach(s.t, p, s.init, i);
    }
    assert |s'.t| == |s.t| by { ExitEach(s.t, p, s.init, p); }
    ExitParents(s, p);
    assert WaitersOk(s') by {
      forall i, z | 0 <= i < |s.t| && 0 <= z < |s.t| && s'.t[i].state.SLEEPING? && s'.t[i].chan == OnProc(i)
          && s'.t[z].parent == i
        ensures !s'.t[z].state.ZOMBIE?
      {
        assert s.t[i].state.SLEEPING? && s.t[i].chan == OnProc(i);
        if z != p && s.t[z].parent == p {
          assert s.t[z].state.ZOMBIE? ==> HasZombie(s.t, p);
        }
      }
    }
  }

  lemma ExitParents(s: State, p: nat)
    requires Inv(s) && Enabled(s, Exit(p))
    ensures ParentsOk(Do(s, Exit(p))) && s.t[p].parent != p
  {
    hide ExitStep, MakingOk, WaitersOk, ChansOk;
    assert HasLiveParent(s.t, p);
    var s' := Do(s, Exit(p));
    ExitEach(s.t, p, s.init, p);
    ExitEach(s.t, p, s.init, s.init);
    forall i | 0 <= i < |s.t| && s'.t[i].state.UNUSED? ensures s'.t[i].parent == -1 {
      ExitEach(s.t, p, s.init, i);
    }
    forall i | 0 <= i < |s.t| && i != s.init && (Alive(s'.t[i]) || s'.t[i].state.ZOMBIE?)
      ensures HasLiveParent(s'.t, i)
    {
      ExitEach(s.t, p, s.init, i);
      assert HasLiveParent(s.t, i);
      if s.t[i].parent != p {
        ExitEach(s.t, p, s.init, s.t[i].parent);
      }
    }
  }

  lemma WaitInv(s: State, p: nat)
    requires Inv(s) && Enabled(s, WaitOnce(p))
    ensures Inv(Do(s, WaitOnce(p)))
  {
    hide FirstZombie, HasLiveParent;
    var s' := Do(s, WaitOnce(p));
    ParentsKept(s, s');
  }

  // ----- over whole runs

  predicate IsRun(run: seq<State>, steps: seq<Step>) {
    && |run| == |steps| + 1 && Init(run[0])
    && forall i :: 0 <= i < |steps| ==> Enabled(run[i], steps[i]) && run[i + 1] == Do(run[i], steps[i])
  }

  lemma {:induction false} RunInv(run: seq<State>, steps: seq<Step>, n: nat)
    requires IsRun(run, steps) && n < |run|
    ensures Inv(run[n])
  {
    hide Inv, Do, Enabled;
    if n == 0 {
      InitInv(run[0]);
    } else {
      RunInv(run, steps, n - 1);
      StepInv(run[n - 1], steps[n - 1]);
    }
  }

  /** Over every run, an exited process can be reaped: its parent is alive and not asleep in wait, and
      when the parent calls wait it gets a zombie child back instead of going to sleep. */
  lemma ZombiesAreReapable(run: seq<State>, steps: seq<Step>, n: nat, z: nat)
    requires IsRun(run, steps) && n < |run| && z < |run[n].t| && run[n].t[z].state.ZOMBIE?
    ensures var t := run[n].t;
            && 0 <= t[z].parent < |t| && Alive(t[t[z].parent])
            && !(t[t[z].parent].state.SLEEPING? && t[t[z].parent].chan == OnProc(t[z].parent))
            && var q := t[z].parent;
               && Scan(t, q).Child?
               && t[Scan(t, q).z].parent == q && t[Scan(t, q).z].state.ZOMBIE?
               && WaitStep(t, q)[Scan(t, q).z].state.UNUSED?
  {
    hide FirstZombie;
    RunInv(run, steps, n);
    assert HasLiveParent(run[n].t, z);
  }

  /** Different entries in use have different pids, all given out already. */
  ghost predicate PidsOk(s: State) {
    && (forall i :: 0 <= i < |s.t| && !s.t[i].state.UNUSED? ==> s.t[i].pid < s.nextpid)
    && (forall i, j :: 0 <= i < j < |s.t| && !s.t[i].state.UNUSED? && !s.t[j].state.UNUSED? ==>
          s.t[i].pid != s.t[j].pid)
  }

  /** No step but allocproc gives an entry a pid, and only a reaped or abandoned entry becomes free. */
  ghost predicate SamePids(s: State, t: Table) {
    |t| == |s.t| && forall i {:trigger t[i]} :: 0 <= i < |t| && !t[i].state.UNUSED? ==>
      !s.t[i].state.UNUSED? && t[i].pid == s.t[i].pid
  }

  lemma SamePidsKeep(s: State, u: State)
    requires PidsOk(s) && SamePids(s, u.t) && u.nextpid == s.nextpid
    ensures PidsOk(u)
  {
  }

  lemma {:induction false} StepSamePids(s: State, st: Step)
    requires Inv(s) && Enabled(s, st) && !st.AllocProc?
    ensures SamePids(s, Do(s, st).t) && Do(s, st).nextpid == s.nextpid
  {
    hide FirstZombie, HasZombie, HasKids, ParentsOk, WaitersOk, ChansOk;
  }

  lemma {:induction false} StepPids(s: State, st: Step)
    requires Inv(s) && PidsOk(s) && Enabled(s, st)
    ensures PidsOk(Do(s, st))
  {
    if st.AllocProc? {
      hide Inv;
    } else {
      StepSamePids(s, st);
      hide Inv, Do, Enabled;
      SamePidsKeep(s, Do(s, st));
    }
  }

  /** Over every run pids are unique. */
  lemma {:induction false} PidsAreUnique(run: seq<State>, steps: seq<Step>, n: nat)
    requires IsRun(run, steps) && n < |run|
    ensures PidsOk(run[n])
  {
    hide Inv, Do, Enabled;
    if n == 0 {
    } else {
      RunInv(run, steps, n - 1);
      PidsAreUnique(run, steps, n - 1);
      StepPids(run[n - 1], steps[n - 1]);
    }
  }

  /** A live process is killed by kill and by nothing else, and stays killed until it is a zombie; kill
      wakes a sleeper, and a killed process never sleeps in wait again. */
  lemma {:induction false} KilledStays(s: State, st: Step, p: nat)
    requires Inv(s) && Enabled(s, st) && p < |s.t| && Alive(s.t[p])
    ensures |Do(s, st).t| == |s.t| && (Do(s, st).t[p].killed <==> s.t[p].killed || st == Kill(p))
    ensures st == Kill(p) ==> !Do(s, st).t[p].state.SLEEPING?
    ensures st == WaitOnce(p) && s.t[p].killed ==> !Scan(s.t, p).Wait? && !Do(s, st).t[p].state.SLEEPING?
  {
    hide ParentsOk, WaitersOk, ChansOk;
    if st.WaitOnce? { WaitEnds(s.t, st.p); }
    if st.Exit? { ExitEach(s.t, st.p, s.init, p); }
    hide FirstZombie, HasZombie, HasKids, ExitStep;
  }

  /** The life of a process: the only changes of state, and who makes each. */
  predicate MayBecome(s: State, st: Step, p: nat, a: PState, b: PState)
    requires p < |s.t|
  {
    match (a, b)
    case (UNUSED, EMBRYO) => st.AllocProc? && st.e == p
    case (EMBRYO, UNUSED) => st.ForkFails?
    case (EMBRYO, RUNNABLE) => st.ForkDone?
    case (RUNNABLE, RUNNING) => st == Schedule(p)
    case (RUNNING, RUNNABLE) => st == Yield(p)
    case (RUNNING, SLEEPING) => st == WaitOnce(p) || (st.Sleep? && st.p == p)
    case (RUNNING, ZOMBIE) => st == Exit(p)
    case (SLEEPING, RUNNABLE) => st.Wakeup? || st.Exit? || st == Kill(p)
    case (ZOMBIE, UNUSED) => st.WaitOnce? && s.t[p].parent == st.p
    case _ => a == b
  }

  /** Whether the step changes the state of process p. */
  ghost predicate Moves(s: State, st: Step, p: nat)
    requires Enabled(s, st) && p < |s.t|
  {
    var asleep := s.t[p].state.SLEEPING?;
    match st
    case Schedule(q) => q == p
    case Yield(q) => q == p
    case AllocProc(f, e) => e == p
    case ForkFails(f) => s.making[f] == p
    case ForkSetsParent(f) => false
    case ForkDone(f) => s.making[f] == p
    case Exit(q) =>
      || q == p
      || (asleep && s.t[p].chan == OnProc(s.t[q].parent))
      || (asleep && s.t[p].chan == OnProc(s.init) && HasZombie(s.t, q))
    case WaitOnce(q) =>
      if HasZombie(s.t, q) then IsZombieOf(s.t, p, q) && forall i :: 0 <= i < p ==> !IsZombieOf(s.t, i, q)
      else q == p && HasKids(s.t, p) && !s.t[p].killed
    case Sleep(q, a) => q == p
    case Wakeup(a) => asleep && s.t[p].chan == OnOther(a)
    case Kill(q) => q == p && asleep
  }

  lemma WaitMoves(t: Table, q: nat, p: nat)
    requires p < |t| && q < |t| && t[q].state.RUNNING?
    ensures |WaitStep(t, q)| == |t|
    ensures var u := WaitStep(t, q)[p].state;
            if !HasZombie(t, q) then
              if q == p && HasKids(t, p) && !t[p].killed then u.SLEEPING? else u == t[p].state
            else if IsZombieOf(t, p, q) && forall i :: 0 <= i < p ==> !IsZombieOf(t, i, q) then u.UNUSED?
            else u == t[p].state
  {
    WaitEnds(t, q);
    if HasZombie(t, q) {
      var z := FirstZombie(t, q, 0);
      assert Scan(t, q) == Child(z) && IsZombieOf(t, z, q);
      assert forall i :: 0 <= i < z ==> !IsZombieOf(t, i, q);
    }
    hide FirstZombie, HasKids;
  }

  /** Exactly when a step changes the state of a process, and to what. */
  lemma {:induction false} LifeCycle(s: State, st: Step, p: nat)
    requires Inv(s) && Enabled(s, st) && p < |s.t|
    ensures |Do(s, st).t| == |s.t| && MayBecome(s, st, p, s.t[p].state, Do(s, st).t[p].state)
    ensures Do(s, st).t[p].state != s.t[p].state <==> Moves(s, st, p)
  {
    hide ParentsOk, WaitersOk, ChansOk, HasZombie, HasKids, ExitStep, WaitStep;
    if st.WaitOnce? { WaitMoves(s.t, st.p, p); }
    if st.Exit? { ExitEach(s.t, st.p, s.init, p); }
  }

  /** fork: the first free entry becomes a runnable child of the caller with a pid that was never used. */
  lemma {:induction false} ForkMakesChild(s: State, f: nat, e: nat)
    requires Inv(s) && PidsOk(s) && Enabled(s, AllocProc(f, e))
    ensures var s1 := Do(s, AllocProc(f, e));
            && Enabled(s1, ForkSetsParent(f))
            && var s2 := Do(s1, ForkSetsParent(f));
               && Enabled(s2, ForkDone(f))
               && var u := Do(s2, ForkDone(f));
                  && u.t[e].state.RUNNABLE? && u.t[e].parent == f && u.t[e].pid == s.nextpid == u.nextpid - 1
                  && u.making == s.making
                  && forall i :: 0 <= i < |s.t| && i != e ==> u.t[i] == s.t[i]
  {
    hide ParentsOk, WaitersOk, ChansOk;
    var u := Do(Do(Do(s, AllocProc(f, e)), ForkSetsParent(f)), ForkDone(f));
    assert u.making == s.making;
  }

  /** allocproc takes one entry, if there is one. */
  lemma {:induction false} AllocTakesFirst(s: State, f: nat)
    requires Acts(s, f)
    ensures (exists e: nat :: Enabled(s, AllocProc(f, e))) <==> exists e :: 0 <= e < |s.t| && s.t[e].state.UNUSED?
    ensures forall e: nat, d: nat :: Enabled(s, AllocProc(f, e)) && Enabled(s, AllocProc(f, d)) ==> e == d
  {
    if e :| 0 <= e < |s.t| && s.t[e].state.UNUSED? {
      var d: nat := FirstUnused(s.t, e);
      assert Enabled(s, AllocProc(f, d));
    }
  }

  lemma {:induction false} FirstUnused(t: Table, e: nat) returns (d: nat)
    requires e < |t| && t[e].state.UNUSED?
    ensures d < |t| && t[d].state.UNUSED? && forall i :: 0 <= i < d ==> !t[i].state.UNUSED?
  {
    if i: nat :| i < e && t[i].state.UNUSED? {
      d := FirstUnused(t, i);
    } else {
      d := e;
    }
  }

  /** A fork that finds no memory leaves the table as it was, but for a pid that is never used. */
  lemma {:induction false} ForkFailUndone(s: State, f: nat, e: nat)
    requires Inv(s) && Enabled(s, AllocProc(f, e))
    ensures var s1 := Do(s, AllocProc(f, e));
            && Enabled(s1, ForkFails(f))
            && var u := Do(s1, ForkFails(f));
               u.t == s.t[e := s.t[e].(pid := s.nextpid)] && u.making == s.making && u.nextpid == s.nextpid + 1
  {
    hide WaitersOk, ChansOk;
    var u := Do(Do(s, AllocProc(f, e)), ForkFails(f));
    assert u.making == s.making;
  }

  /** The processor given to a process by the scheduler comes back by yield. */
  lemma {:induction false} YieldUndoesSchedule(s: State, p: nat)
    requires Enabled(s, Schedule(p))
    ensures !Enabled(s, Yield(p)) && Enabled(Do(s, Schedule(p)), Yield(p)) && Do(Do(s, Schedule(p)), Yield(p)) == s
  {
    assert Do(Do(s, Schedule(p)), Yield(p)).t == s.t;
  }

  lemma {:induction false} ExitThenWait(s: State, f: nat, e: nat)
    requires Acts(s, f) && Acts(s, e) && e != f && e != s.init && s.t[e].parent == f
    requires ChansOk(s) && !HasZombie(s.t, f) && !HasKids(s.t, e)
    ensures Enabled(s, Exit(e)) && Enabled(Do(s, Exit(e)), WaitOnce(f))
    ensures Do(Do(s, Exit(e)), WaitOnce(f)) == s.(t := s.t[e := Proc(UNUSED, 0, -1, s.t[e].chan, false)])
  {
    hide ExitStep, FirstZombie;
    var t := ExitStep(s.t, e, s.init);
    forall i | 0 <= i < |s.t| ensures |t| == |s.t| && t[i] == if i == e then s.t[e].(state := ZOMBIE) else s.t[i] {
      ExitEach(s.t, e, s.init, i);
    }
    assert t == s.t[e := s.t[e].(state := ZOMBIE)];
    assert HasZombie(t, f) by { assert t[e].parent == f && t[e].state.ZOMBIE?; }
    WaitEnds(t, f);
    assert Scan(t, f).z == e;
  }

  /** The steps can be taken one after the other from s, and lead to u. */
  predicate Leads(s: State, steps: seq<Step>, u: State)
    decreases |steps|
  {
    if steps == [] then u == s else Enabled(s, steps[0]) && Leads(Do(s, steps[0]), steps[1..], u)
  }

  lemma LeadsOn(s: State, st: Step, rest: seq<Step>, u: State)
    requires Enabled(s, st) && Leads(Do(s, st), rest, u)
    ensures Leads(s, [st] + rest, u)
  {
    hide Do, Enabled;
    assert ([st] + rest)[1..] == rest;
  }

  lemma {:induction false} ForkLeads(s: State, f: nat, e: nat) returns (u: State)
    requires Inv(s) && PidsOk(s) && Enabled(s, AllocProc(f, e))
    ensures Leads(s, [AllocProc(f, e), ForkSetsParent(f), ForkDone(f)], u)
    ensures u == s.(t := s.t[e := s.t[e].(state := RUNNABLE, pid := s.nextpid, parent := f)], nextpid := s.nextpid + 1)
  {
    ForkMakesChild(s, f, e);
    var s1 := Do(s, AllocProc(f, e));
    var s2 := Do(s1, ForkSetsParent(f));
    u := Do(s2, ForkDone(f));
    assert u.t == s.t[e := s.t[e].(state := RUNNABLE, pid := s.nextpid, parent := f)];
    hide Do, Enabled, Inv;
    LeadsOn(s2, ForkDone(f), [], u);
    LeadsOn(s1, ForkSetsParent(f), [ForkDone(f)], u);
    LeadsOn(s, AllocProc(f, e), [ForkSetsParent(f), ForkDone(f)], u);
  }

  lemma {:induction false} LeadsThen(s: State, a: seq<Step>, u: State, b: seq<Step>, v: State)
    requires Leads(s, a, u) && Leads(u, b, v)
    ensures Leads(s, a + b, v)
    decreases |a|
  {
    hide Do, Enabled;
    if a == [] {
      assert a + b == b;
    } else {
      LeadsThen(Do(s, a[0]), a[1..], u, b, v);
      LeadsOn(s, a[0], a[1..] + b, v);
      assert a + b == [a[0]] + (a[1..] + b);
    }
  }

  /** A child forked, run, exited and waited for leaves the table as it was, its entry free. */
  lemma {:induction false} ForkExitWait(s: State, f: nat, e: nat)
    requires Inv(s) && PidsOk(s) && Enabled(s, AllocProc(f, e)) && !HasZombie(s.t, f) && !HasKids(s.t, e)
    ensures Leads(s, [AllocProc(f, e), ForkSetsParent(f), ForkDone(f)] + [Schedule(e), Exit(e), WaitOnce(f)],
                  s.(t := s.t[e := Proc(UNUSED, 0, -1, s.t[e].chan, false)], nextpid := s.nextpid + 1))
  {
    var u := ForkLeads(s, f, e);
    assert e !in s.making && e != s.init && ChansOk(u);
    hide Inv, Leads;
    ChildLeads(u, f, e);
    LeadsThen(s, [AllocProc(f, e), ForkSetsParent(f), ForkDone(f)], u, [Schedule(e), Exit(e), WaitOnce(f)],
              u.(t := u.t[e := Proc(UNUSED, 0, -1, u.t[e].chan, false)]));
    assert s.t[e := u.t[e]][e := Proc(UNUSED, 0, -1, s.t[e].chan, false)]
        == s.t[e := Proc(UNUSED, 0, -1, s.t[e].chan, false)];
  }

  lemma {:induction false} ChildLeads(s: State, f: nat, e: nat)
    requires Acts(s, f) && e < |s.t| && s.t[e].state.RUNNABLE? && e !in s.making && e != s.init && s.t[e].parent == f
    requires ChansOk(s) && !HasZombie(s.t, f) && !HasKids(s.t, e)
    ensures Leads(s, [Schedule(e), Exit(e), WaitOnce(f)],
                  s.(t := s.t[e := Proc(UNUSED, 0, -1, s.t[e].chan, false)]))
  {
    var s1 := Do(s, Schedule(e));
    ExitThenWait(s1, f, e);
    var s2 := Do(s1, Exit(e));
    var u := Do(s2, WaitOnce(f));
    assert u == s.(t := u.t) && u.t == s.t[e := Proc(UNUSED, 0, -1, s.t[e].chan, false)];
    hide Do, Enabled, ChansOk;
    LeadsOn(s2, WaitOnce(f), [], u);
    LeadsOn(s1, Exit(e), [WaitOnce(f)], u);
    LeadsOn(s, Schedule(e), [Exit(e), WaitOnce(f)], u);
  }

  /** A process that goes to sleep on an address is still asleep there after any one step other than a
      wakeup on that address or a kill, and either of those makes it runnable. */
  lemma {:induction false} SleepsUntilWoken(s: State, p: nat, a: nat, st: Step)
    requires Inv(s) && Enabled(s, Sleep(p, a)) && Enabled(Do(s, Sleep(p, a)), st)
    ensures Enabled(Do(s, Sleep(p, a)), Wakeup(a)) && Enabled(Do(s, Sleep(p, a)), Kill(p))
    ensures var q := Do(Do(s, Sleep(p, a)), st).t[p];
            if st == Wakeup(a) || st == Kill(p) then q.state.RUNNABLE? else q.state.SLEEPING? && q.chan == OnOther(a)
  {
    StepInv(s, Sleep(p, a));
    var u := Do(s, Sleep(p, a));
    assert p < |u.t| && u.t[p].state.SLEEPING? && u.t[p].chan == OnOther(a);
    hide Inv;
    StaysAsleep(u, p, a, st);
  }

  lemma {:induction false} StaysAsleep(u: State, p: nat, a: nat, st: Step)
    requires Inv(u) && Enabled(u, st) && p < |u.t| && u.t[p].state.SLEEPING? && u.t[p].chan == OnOther(a)
    ensures |Do(u, st).t| == |u.t|
    ensures var q := Do(u, st).t[p];
            if st == Wakeup(a) || st == Kill(p) then q.state.RUNNABLE? else q.state.SLEEPING? && q.chan == OnOther(a)
  {
    hide ParentsOk, WaitersOk, ChansOk;
    if st.WaitOnce? { WaitEnds(u.t, st.p); }
    if st.Exit? { ExitEach(u.t, st.p, u.init, p); }
    hide FirstZombie, HasZombie, HasKids, ExitStep;
  }

  // ----- the loops of proc.c over the table

  class Ptable {
    const proc: array<Proc>
    const initproc: nat

    constructor (proc: array<Proc>, initproc: nat)
      ensures this.proc == proc && this.initproc == initproc
    {
      this.proc, this.initproc := proc, initproc;
    }

    /** wakeup1 */
    method WakeupChan(c: Chan)
      modifies proc
      ensures proc[..] == Wakeup1(old(proc[..]), c)
    {
      hide Wakeup1;
      for i := 0 to proc.Length
        invariant forall k :: 0 <= k < i ==> proc[k] == Woke(old(proc[k]), c)
        invariant forall k :: i <= k < proc.Length ==> proc[k] == old(proc[k])
      {
        if proc[i].state.SLEEPING? && proc[i].chan == c {
          proc[i] := proc[i].(state := RUNNABLE);
        }
      }
    }

    /** The loop of exit that hands the children to init, waking init for each zombie. */
    method PassChildren(p: nat)
      modifies proc
      ensures proc[..] == var t := Adopt(old(proc[..]), p, initproc);
                          if HasZombie(old(proc[..]), p) then Wakeup1(t, OnProc(initproc)) else t
    {
      hide Wakeup1, Adopt;
      ghost var t := proc[..];
      ghost var woken := false;
      for i := 0 to proc.Length
        invariant woken <==> exists k :: 0 <= k < i && t[k].parent == p && t[k].state.ZOMBIE?
        invariant forall k :: 0 <= k < proc.Length ==>
                    var a := if k < i then Adopted(t[k], p, initproc) else t[k];
                    proc[k] == if woken then Woke(a, OnProc(initproc)) else a
      {
        if proc[i].parent == p {
          proc[i] := proc[i].(parent := initproc);
          if proc[i].state.ZOMBIE? {
            WakeupChan(OnProc(initproc));
            woken := true;
          }
        }
      }
    }

    /** exit, from the acquire of ptable.lock on. */
    method ExitProc(p: nat)
      requires p < proc.Length
      modifies proc
      ensures proc[..] == ExitStep(old(proc[..]), p, initproc)
    {
      hide Wakeup1, Adopt, HasZombie;
      WakeupChan(OnProc(proc[p].parent));
      PassChildren(p);
      ghost var t3 := proc[..];
      proc[p] := proc[p].(state := ZOMBIE);
      assert proc[..] == t3[p := t3[p].(state := ZOMBIE)];
    }

    /** One round of the loop of wait: the pid of a reaped child, -1 if there is none to wait for, or a
        sleep. */
    method WaitRound(p: nat) returns (slept: bool, pid: int)
      requires p < proc.Length
      modifies proc
      ensures proc[..] == WaitStep(old(proc[..]), p)
      ensures slept <==> Scan(old(proc[..]), p).Wait?
      ensures !slept ==> pid == match Scan(old(proc[..]), p) case Child(z) => old(proc[z].pid) case _ => -1
      ensures slept <==>
                !HasZombie(old(proc[..]), p) && HasKids(old(proc[..]), p) && !old(proc[p].killed)
      ensures !slept && pid == -1 <==>
                !HasZombie(old(proc[..]), p) && (!HasKids(old(proc[..]), p) || old(proc[p].killed))
    {
      WaitEnds(proc[..], p);
      hide HasZombie, HasKids;
      var havekids := false;
      var i := 0;
      ghost var t := proc[..];
      while i < proc.Length
        invariant 0 <= i <= proc.Length && proc[..] == t
        invariant FirstZombie(t, p, 0) == FirstZombie(t, p, i)
        invariant havekids <==> exists k :: 0 <= k < i && t[k].parent == p
      {
        if proc[i].parent == p {
          havekids := true;
          if proc[i].state.ZOMBIE? {
            pid := proc[i].pid;
            proc[i] := proc[i].(pid := 0, parent := -1, killed := false, state := UNUSED);
            assert proc[..] == t[i := Proc(UNUSED, 0, -1, t[i].chan, false)];
            return false, pid;
          }
        }
        i := i + 1;
      }
      if !havekids || proc[p].killed {
        return false, -1;
      }
      proc[p] := proc[p].(chan := OnProc(p), state := SLEEPING);
      assert proc[..] == t[p := t[p].(state := SLEEPING, chan := OnProc(p))];
      slept, pid := true, 0;
    }

    /** The search of allocproc for a free entry. */
    method FindUnused() returns (e: nat)
      ensures e <= proc.Length && forall k :: 0 <= k < e ==> !proc[k].state.UNUSED?
      ensures e < proc.Length ==> proc[e].state.UNUSED?
    {
      e := 0;
      while e < proc.Length && !proc[e].state.UNUSED?
        invariant 0 <= e <= proc.Length && forall k :: 0 <= k < e ==> !proc[k].state.UNUSED?
      {
        e := e + 1;
      }
    }
  }
}
