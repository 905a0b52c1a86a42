/** Pipes (xv6/pipe.c). p->lock is held from entry to a sleep or return, so a run is a sequence of
    such sections by any readers and writers; SleepLock.dfy shows that sleep gives up the lock and
    goes to sleep as one step. The counters are 32-bit and wrap. */
module Pipe {
  import opened Common

  const PIPESIZE: nat := 512
  const UINT: nat := 0x1_0000_0000

  // ----- what a pipe is for

  /** Everything stored so far, everything delivered so far, the open flags, and the processes asleep
      on &p->nread and on &p->nwrite. */
  datatype State = State(stored: seq<char>, delivered: seq<char>, readopen: bool, writeopen: bool,
                         readers: set<nat>, writers: set<nat>)

  datatype Outcome = Blocked(i: nat) | Returned(r: int)

  predicate Bounded(s: State) {
    && s.delivered <= s.stored
    && |s.stored| - |s.delivered| <= PIPESIZE
  }

  function Contents(s: State): seq<char>
    requires Bounded(s)
  {
    s.stored[|s.delivered|..]
  }

  /** pipewrite by process `pid` from byte i of `addr` on, up to its next sleep or its return. */
  function Write(s: State, pid: nat, addr: seq<char>, i: nat, killed: bool): (r: (State, Outcome))
    requires Bounded(s) && i <= |addr|
    ensures Bounded(r.0)
  {
    var m := Min(|addr| - i, PIPESIZE - |Contents(s)|);
    var t := s.(stored := s.stored + addr[i..i + m]);
    if i + m == |addr| then (t.(readers := {}), Returned(|addr|))
    else if !s.readopen || killed then (t, Returned(-1))
    else (t.(readers := {}, writers := s.writers + {pid}), Blocked(i + m))
  }

  /** piperead by process `pid`, up to its next sleep or its return. */
  function Read(s: State, pid: nat, n: nat, killed: bool): (r: (State, Outcome))
    requires Bounded(s)
    ensures Bounded(r.0)
  {
    if Contents(s) == [] && s.writeopen then
      if killed then (s, Returned(-1)) else (s.(readers := s.readers + {pid}), Blocked(0))
    else
      var m := Min(n, |Contents(s)|);
      (s.(delivered := s.delivered + Contents(s)[..m], writers := {}), Returned(m))
  }

  /** pipeclose of one end. */
  function Close(s: State, writable: bool): State {
    if writable then s.(writeopen := false, readers := {}) else s.(readopen := false, writers := {})
  }

  // ----- runs

  datatype Event =
    | WriteEv(pid: nat, addr: seq<char>, i: nat, killed: bool)
    | ReadEv(pid: nat, n: nat, killed: bool)
    | CloseEv(writable: bool)
    | KillEv(pid: nat)

  /** A process runs when it is not asleep, and an end is closed when nobody sleeps on its behalf. */
  predicate Enabled(s: State, e: Event) {
    match e
    case WriteEv(pid, addr, i, killed) => s.writeopen && pid !in s.readers && pid !in s.writers && i <= |addr|
    case ReadEv(pid, n, killed) => s.readopen && pid !in s.readers && pid !in s.writers
    case CloseEv(writable) => if writable then s.writeopen && s.writers == {} else s.readopen && s.readers == {}
    case KillEv(pid) => true
  }

  function Do(s: State, e: Event): (t: State)
    requires Bounded(s) && Enabled(s, e)
    ensures Bounded(t)
  {
    match e
    case WriteEv(pid, addr, i, killed) => Write(s, pid, addr, i, killed).0
    case ReadEv(pid, n, killed) => Read(s, pid, n, killed).0
    case CloseEv(writable) => Close(s, writable)
    case KillEv(pid) => s.(readers := s.readers - {pid}, writers := s.writers - {pid})
  }

  /** Nobody waits for something that is already there. */
  ghost predicate Inv(s: State) {
    && Bounded(s)
    && (s.readers != {} ==> Contents(s) == [] && s.writeopen && s.readopen)
    && (s.writers != {} ==> |Contents(s)| == PIPESIZE && s.readopen && s.writeopen)
  }

  /** A killed writer fills the pipe and returns at the test that precedes the wakeup, while readers
      sleep. */
  predicate Abandons(s: State, e: Event)
    requires Bounded(s)
  {
    && e.WriteEv? && e.killed && e.i <= |e.addr|
    && |e.addr| - e.i > PIPESIZE - |Contents(s)|
    && s.readers != {}
  }

  /** Every section keeps the invariant, except exactly a killed writer's early return. */
  lemma StepInv(s: State, e: Event)
    requires Inv(s) && Enabled(s, e)
    ensures Inv(Do(s, e)) <==> !Abandons(s, e)
    ensures s.stored <= Do(s, e).stored && s.delivered <= Do(s, e).delivered
  {
    match e
    case WriteEv(pid, addr, i, killed) =>
      var m := Min(|addr| - i, PIPESIZE - |Contents(s)|);
      assert Contents(Do(s, e)) == Contents(s) + addr[i..i + m];
    case ReadEv(pid, n, killed) =>
    case CloseEv(writable) =>
    case KillEv(pid) =>
  }

  /** Who sleeps after a section: a reader stays asleep until a writer's section that does not return -1,
      the close of the writing end or its own kill, and goes to sleep exactly when it finds an open empty
      pipe; a writer until a reader takes bytes, the close of the reading end or its own kill, and goes
      to sleep exactly when its bytes do not fit and neither the reading end is closed nor it is killed. */
  lemma SleepersAfter(s: State, e: Event, p: nat)
    requires Bounded(s) && Enabled(s, e)
    ensures p in Do(s, e).readers <==>
            match e
            case WriteEv(pid, addr, i, killed) => p in s.readers && Write(s, pid, addr, i, killed).1 == Returned(-1)
            case ReadEv(pid, n, killed) => p in s.readers || (p == pid && Contents(s) == [] && s.writeopen && !killed)
            case CloseEv(writable) => p in s.readers && !writable
            case KillEv(pid) => p in s.readers && p != pid
    ensures p in Do(s, e).writers <==>
            match e
            case WriteEv(pid, addr, i, killed) =>
              || p in s.writers
              || (p == pid && |Contents(s)| + |addr| - i > PIPESIZE && s.readopen && !killed)
            case ReadEv(pid, n, killed) => p in s.writers && Contents(s) == [] && s.writeopen
            case CloseEv(writable) => p in s.writers && writable
            case KillEv(pid) => p in s.writers && p != pid
    ensures Enabled(s, KillEv(p))
  {
  }

  predicate IsRun(run: seq<State>, events: seq<Event>) {
    && |run| == |events| + 1
    && forall i :: 0 <= i < |events| ==>
         Bounded(run[i]) && Enabled(run[i], events[i]) && run[i + 1] == Do(run[i], events[i])
  }

  predicate Fresh(s: State) {
    s == State([], [], true, true, {}, {})
  }

  /** Over every run without such a return: what has been delivered is a prefix of what has been
      stored, at most PIPESIZE bytes apart; a sleeping reader means an empty pipe open for writing, a
      sleeping writer a full pipe open for reading, so readers and writers never sleep together. */
  lemma {:induction false} RunSafe(run: seq<State>, events: seq<Event>, n: nat)
    requires IsRun(run, events) && Fresh(run[0]) && n < |run|
    requires forall i :: 0 <= i < |events| ==> Bounded(run[i]) && !Abandons(run[i], events[i])
    ensures Inv(run[n])
    ensures run[n].stored == run[n].delivered + Contents(run[n])
    ensures run[n].readers == {} || run[n].writers == {}
  {
    if n > 0 {
      RunSafe(run, events, n - 1);
      StepInv(run[n - 1], events[n - 1]);
    }
  }

  lemma NoKillNoLoss(s: State, e: Event)
    requires Inv(s) && Enabled(s, e) && (e.WriteEv? ==> !e.killed)
    ensures Inv(Do(s, e))
  {
    StepInv(s, e);
  }

  /** With a kill the invariant can fail: a reader sleeps on, with the pipe full. */
  lemma KilledWriterLosesWakeup(addr: seq<char>) returns (run: seq<State>, events: seq<Event>)
    requires |addr| == PIPESIZE + 1
    ensures IsRun(run, events) && Fresh(run[0])
    ensures var s := run[|run| - 1];
        Bounded(s) && s.readers != {} && |Contents(s)| == PIPESIZE && s.readopen && s.writeopen
  {
    var s0 := State([], [], true, true, {}, {});
    var e0, e1 := ReadEv(0, 1, false), WriteEv(1, addr, 0, true);
    var s1 := Do(s0, e0);
    assert s1 == State([], [], true, true, {0}, {});
    var s2 := Do(s1, e1);
    assert s2.stored == addr[..PIPESIZE];
    run, events := [s0, s1, s2], [e0, e1];
  }

  // ----- what a call stores and delivers

  /** What a section of pipewrite stores, and which of its three ends it takes: all the rest when there
      is room for it; otherwise what there is room for, and then -1 if nobody can read any more or the
      caller is killed, and sleep if not. A sleeping call goes on at the first byte not stored. */
  lemma WriteStores(s: State, pid: nat, addr: seq<char>, i: nat, killed: bool)
    requires Bounded(s) && i <= |addr|
    ensures var (t, o) := Write(s, pid, addr, i, killed);
            var fits := |addr| - i <= PIPESIZE - |Contents(s)|;
            && (o == Returned(|addr|) <==> fits)
            && (o == Returned(-1) <==> !fits && (!s.readopen || killed))
            && (o.Blocked? <==> !fits && s.readopen && !killed)
            && (fits ==> t.stored == s.stored + addr[i..] && t.readers == {})
            && (!fits ==> |Contents(t)| == PIPESIZE && s.stored <= t.stored)
            && (!fits ==> t.stored == s.stored + addr[i..i + |t.stored| - |s.stored|])
            && (o.Blocked? ==> i <= o.i < |addr| && t.stored == s.stored + addr[i..o.i])
            && (o.Blocked? ==> pid in t.writers && t.readers == {})
            && t.delivered == s.delivered && t.readopen == s.readopen && t.writeopen == s.writeopen
  {
    var (t, o) := Write(s, pid, addr, i, killed);
    var m := Min(|addr| - i, PIPESIZE - |Contents(s)|);
    assert Contents(t) == Contents(s) + addr[i..i + m];
    assert i + m == |addr| ==> addr[i..i + m] == addr[i..];
  }

  /** What a section of piperead delivers: as many of the oldest bytes as there are and as are asked
      for, and their number is what it returns; it sleeps only beside an empty pipe open for writing,
      and only a killed reader gets -1 there. */
  lemma ReadDelivers(s: State, pid: nat, n: nat, killed: bool)
    requires Bounded(s)
    ensures var (t, o) := Read(s, pid, n, killed);
            var waits := Contents(s) == [] && s.writeopen;
            && (o.Blocked? <==> waits && !killed) && (o == Returned(-1) <==> waits && killed)
            && (o.Returned? && o.r >= 0 <==> !waits)
            && (!waits ==> t.delivered == s.delivered + Contents(s)[..o.r] && t.writers == {})
            && (!waits ==> o.r <= n && (o.r == n || Contents(t) == []))
            && (waits ==> t.delivered == s.delivered) && (o.Blocked? ==> pid in t.readers)
            && t.stored == s.stored && t.readopen == s.readopen && t.writeopen == s.writeopen
  {
    var m := Min(n, |Contents(s)|);
    var t := Read(s, pid, n, killed).0;
    if m == |Contents(s)| { assert Contents(s)[..m] == Contents(s); }
  }

  /** What closing an end is for: with the write end closed no reader sleeps, and an empty pipe reads as
      its end; with the read end closed no writer sleeps. The other end and the bytes are as before, and
      those who slept for the closed end are woken. */
  lemma CloseEnds(s: State, pid: nat, n: nat, addr: seq<char>, killed: bool)
    requires Bounded(s)
    ensures var t := Close(s, true);
            && Bounded(t) && t.stored == s.stored && t.delivered == s.delivered && t.readopen == s.readopen
            && t.readers == {} && t.writers == s.writers
            && var o := Read(t, pid, n, killed).1;
               o.Returned? && o.r >= 0 && (Contents(s) == [] ==> o.r == 0)
    ensures var t := Close(s, false);
            && Bounded(t) && t.stored == s.stored && t.delivered == s.delivered && t.writeopen == s.writeopen
            && t.writers == {} && t.readers == s.readers
            && var o := Write(t, pid, addr, 0, killed).1;
               o == Returned(|addr|) || o == Returned(-1)
  {
  }

  // ----- whole calls

  /** A call of pipewrite and how far it is; `res` is what it has returned, if it has. */
  datatype Call = Call(pid: nat, addr: seq<char>, i: nat, open: bool, res: int)

  /** The pipe, the calls of pipewrite made so far, and for each stored byte the call that stored it. */
  datatype System = System(s: State, calls: seq<Call>, tags: seq<nat>)

  /** A new call, a call that was woken, or something that stores nothing. */
  datatype Turn = Enter(pid: nat, addr: seq<char>, killed: bool) | Resume(c: nat, killed: bool) | Aside(e: Event)

  predicate Ready(y: System, u: Turn) {
    match u
    case Enter(pid, addr, killed) => Enabled(y.s, WriteEv(pid, addr, 0, killed))
    case Resume(c, killed) =>
      && c < |y.calls| && y.calls[c].open
      && Enabled(y.s, WriteEv(y.calls[c].pid, y.calls[c].addr, y.calls[c].i, killed))
    case Aside(e) => !e.WriteEv? && Enabled(y.s, e)
  }

  function Repeat(k: nat, n: nat): (r: seq<nat>)
    ensures |r| == n && forall i :: 0 <= i < n ==> r[i] == k
  {
    seq(n, _ => k)
  }

  /** One section of call c, entered at the byte it has got to. The bytes that appear in the pipe are
      its own. */
  function Section(y: System, c: nat, killed: bool): System
    requires Bounded(y.s) && c < |y.calls| && y.calls[c].i <= |y.calls[c].addr|
  {
    var call := y.calls[c];
    var (t, o) := Write(y.s, call.pid, call.addr, call.i, killed);
    var stored := if |y.s.stored| <= |t.stored| then |t.stored| - |y.s.stored| else 0;
    var call' := match o
      case Blocked(k) => call.(i := k)
      case Returned(r) => call.(i := if r < 0 then call.i + stored else r, open := false, res := r);
    System(t, y.calls[c := call'], y.tags + Repeat(c, stored))
  }

  function Take(y: System, u: Turn): System
    requires Bounded(y.s) && Ready(y, u)
  {
    match u
    case Enter(pid, addr, killed) =>
      Section(y.(calls := y.calls + [Call(pid, addr, 0, true, 0)]), |y.calls|, killed)
    case Resume(c, killed) => Section(y, c, killed)
    case Aside(e) => y.(s := Do(y.s, e))
  }

  /** The bytes that call c has stored, in the order in which they lie in the pipe. */
  function StoredBy(stored: seq<char>, tags: seq<nat>, c: nat): seq<char>
    requires |tags| == |stored|
  {
    if stored == [] then []
    else
      var n := |stored| - 1;
      StoredBy(stored[..n], tags[..n], c) + if tags[n] == c then [stored[n]] else []
  }

  lemma {:induction false} StoredMore(stored: seq<char>, tags: seq<nat>, more: seq<char>, c: nat, d: nat)
    requires |tags| == |stored|
    ensures StoredBy(stored + more, tags + Repeat(c, |more|), d) ==
            StoredBy(stored, tags, d) + if d == c then more else []
  {
    if more == [] {
      assert stored + more == stored && tags + Repeat(c, 0) == tags;
    } else {
      var n := |more| - 1;
      StoredMore(stored, tags, more[..n], c, d);
      assert (stored + more)[..|stored| + n] == stored + more[..n];
      assert (tags + Repeat(c, n + 1))[..|stored| + n] == tags + Repeat(c, n);
      assert more == more[..n] + [more[n]];
    }
  }

  lemma {:induction false} StoredNone(stored: seq<char>, tags: seq<nat>, c: nat)
    requires |tags| == |stored| && forall k :: 0 <= k < |tags| ==> tags[k] < c
    ensures StoredBy(stored, tags, c) == []
  {
    if stored == [] {
    } else {
      StoredNone(stored[..|stored| - 1], tags[..|stored| - 1], c);
    }
  }

  /** Every call has stored its first i bytes, each once and in order, and has not ended before its last
      byte unless it returns -1. */
  ghost predicate CallOk(y: System, c: nat)
    requires c < |y.calls| && |y.tags| == |y.s.stored|
  {
    var call := y.calls[c];
    && call.i <= |call.addr| && StoredBy(y.s.stored, y.tags, c) == call.addr[..call.i]
    && (call.open ==> call.i < |call.addr|)
    && (!call.open ==> call.res == -1 || call.res == call.i == |call.addr|)
  }

  /** And nothing else is in the pipe. */
  ghost predicate CallsOk(y: System) {
    && Bounded(y.s) && |y.tags| == |y.s.stored| && (forall k :: 0 <= k < |y.tags| ==> y.tags[k] < |y.calls|)
    && forall c :: 0 <= c < |y.calls| ==> CallOk(y, c)
  }

  lemma {:induction false} SectionOk(y: System, c: nat, killed: bool)
    requires Bounded(y.s) && |y.tags| == |y.s.stored|
    requires c < |y.calls| && y.calls[c].open && y.calls[c].i <= |y.calls[c].addr|
    requires forall k :: 0 <= k < |y.tags| ==> y.tags[k] < |y.calls|
    requires StoredBy(y.s.stored, y.tags, c) == y.calls[c].addr[..y.calls[c].i]
    requires forall d :: 0 <= d < |y.calls| && d != c ==> CallOk(y, d)
    ensures CallsOk(Section(y, c, killed))
  {
    hide Write, StoredBy;
    var call, z := y.calls[c], Section(y, c, killed);
    WriteStores(y.s, call.pid, call.addr, call.i, killed);
    var n := |z.s.stored| - |y.s.stored|;
    var more := z.s.stored[|y.s.stored|..];
    assert z.s.stored == y.s.stored + more;
    assert call.addr[call.i..call.i + n] == more;
    assert call.addr[..call.i] + more == call.addr[..call.i + n];
    assert z.calls[c].i == call.i + n && z.tags == y.tags + Repeat(c, |more|);
    forall d | 0 <= d < |z.calls| ensures CallOk(z, d) {
      StoredMore(y.s.stored, y.tags, more, c, d);
      assert d != c ==> CallOk(y, d);
    }
  }

  /** Every turn keeps that. */
  lemma {:induction false} TurnOk(y: System, u: Turn)
    requires CallsOk(y) && Ready(y, u)
    ensures CallsOk(Take(y, u))
  {
    hide StoredBy;
    match u
    case Enter(pid, addr, killed) =>
      var x := y.(calls := y.calls + [Call(pid, addr, 0, true, 0)]);
      StoredNone(y.s.stored, y.tags, |y.calls|);
      forall d | 0 <= d < |y.calls| ensures CallOk(x, d) {
        assert CallOk(y, d);
      }
      SectionOk(x, |y.calls|, killed);
    case Resume(c, killed) =>
      assert CallOk(y, c);
      SectionOk(y, c, killed);
    case Aside(e) =>
      var z := Take(y, u);
      forall d | 0 <= d < |z.calls| ensures CallOk(z, d) {
        assert CallOk(y, d);
      }
  }

  /** What a turn is to the pipe. */
  function EventOf(y: System, u: Turn): Event
    requires Ready(y, u)
  {
    match u
    case Enter(pid, addr, killed) => WriteEv(pid, addr, 0, killed)
    case Resume(c, killed) => WriteEv(y.calls[c].pid, y.calls[c].addr, y.calls[c].i, killed)
    case Aside(e) => e
  }

  predicate IsHistory(run: seq<System>, turns: seq<Turn>) {
    && |run| == |turns| + 1 && Fresh(run[0].s) && run[0].calls == [] && run[0].tags == []
    && forall i {:trigger turns[i]} :: 0 <= i < |turns| ==>
         Bounded(run[i].s) && Ready(run[i], turns[i]) && run[i + 1] == Take(run[i], turns[i])
  }

  /** The pipe of a history goes through a run of the pipe. */
  lemma {:induction false} HistoryIsRun(run: seq<System>, turns: seq<Turn>, n: nat)
    returns (states: seq<State>, events: seq<Event>)
    requires IsHistory(run, turns) && n < |run|
    ensures IsRun(states, events) && Fresh(states[0]) && |events| == n
    ensures forall i :: 0 <= i <= n ==> states[i] == run[i].s
  {
    if n == 0 {
      states, events := [run[0].s], [];
    } else {
      states, events := HistoryIsRun(run, turns, n - 1);
      var u := turns[n - 1];
      TurnIsEvent(run[n - 1], u);
      hide Do, Enabled, Take, Ready, EventOf;
      states, events := states + [run[n].s], events + [EventOf(run[n - 1], u)];
    }
  }

  lemma TurnIsEvent(y: System, u: Turn)
    requires Bounded(y.s) && Ready(y, u)
    ensures Enabled(y.s, EventOf(y, u)) && Take(y, u).s == Do(y.s, EventOf(y, u))
  {
  }

  /** Over every run of any readers, writers, kills and closes: the sections of one call of pipewrite,
      each entered where the one before it went to sleep, together store the call's bytes once and in
      order: all of them if it returns |addr|, a beginning of them if it sleeps or returns -1. */
  lemma {:induction false} CallsStoreOnce(run: seq<System>, turns: seq<Turn>, n: nat, c: nat)
    requires IsHistory(run, turns) && n < |run|
    ensures CallsOk(run[n])
    ensures c < |run[n].calls| ==>
              var call, mine := run[n].calls[c], StoredBy(run[n].s.stored, run[n].tags, c);
              && mine <= call.addr
              && (!call.open ==> call.res == -1 || (call.res == |call.addr| && mine == call.addr))
  {
    hide StoredBy, Take, Ready;
    if n == 0 {
    } else {
      CallsStoreOnce(run, turns, n - 1, c);
      var u := turns[n - 1];
      TurnOk(run[n - 1], u);
    }
    assert c < |run[n].calls| ==> CallOk(run[n], c);
  }

  // ----- the code

  lemma Remainder(a: nat, q: nat, r: nat)
    requires a == q * UINT + r && r < UINT
    ensures a % UINT == r
  {
  }

  lemma ModAdd(b: nat, d: nat)
    requires d < UINT
    ensures (b % UINT + d) % UINT == (b + d) % UINT
  {
    var q, r := b / UINT, b % UINT;
    if r + d < UINT {
      Remainder(b + d, q, r + d);
      Remainder(r + d, 0, r + d);
    } else {
      Remainder(b + d, q + 1, r + d - UINT);
      Remainder(r + d, 1, r + d - UINT);
    }
  }

  lemma ModInjective(a: nat, b: nat)
    requires b <= a < b + UINT
    ensures a % UINT == b % UINT <==> a == b
  {
    ModAdd(b, a - b);
  }

  lemma Place(a: nat, q: nat, r: nat)
    requires a == q * PIPESIZE + r && r < PIPESIZE
    ensures a % PIPESIZE == r
  {
  }

  lemma ModMod(a: nat)
    ensures a % UINT % PIPESIZE == a % PIPESIZE
  {
    var q, r := a / UINT, a % UINT;
    calc {
      a;
      q * UINT + r;
      { assert UINT == 8388608 * PIPESIZE; }
      (8388608 * q + r / PIPESIZE) * PIPESIZE + r % PIPESIZE;
    }
    Place(a, 8388608 * q + r / PIPESIZE, r % PIPESIZE);
  }

  /** Wrapped counters tell a full pipe and an empty pipe from the others, and because PIPESIZE divides
      2^32 they index the ring as the true counts would. */
  lemma Wrapped(a: nat, b: nat)
    requires b <= a <= b + PIPESIZE
    ensures a % UINT == (b % UINT + PIPESIZE) % UINT <==> a == b + PIPESIZE
    ensures a % UINT == b % UINT <==> a == b
    ensures (a % UINT + 1) % UINT == (a + 1) % UINT && (b % UINT + 1) % UINT == (b + 1) % UINT
    ensures a % UINT % PIPESIZE == a % PIPESIZE && b % UINT % PIPESIZE == b % PIPESIZE
  {
    ModAdd(b, PIPESIZE);
    ModAdd(a, 1);
    ModAdd(b, 1);
    ModInjective(b + PIPESIZE, a);
    ModInjective(a, b);
    ModMod(a);
    ModMod(b);
  }

  /** Two bytes of one window lie in different places of the ring. */
  lemma Places(k: nat, n: nat)
    requires n < k + PIPESIZE && k < n
    ensures k % PIPESIZE != n % PIPESIZE
  {
  }

  class Buffer {
    const data: array<char>
    var nread: nat
    var nwrite: nat
    var readopen: bool
    var writeopen: bool
    /** Processes asleep on &p->nread and on &p->nwrite. */
    var readers: set<nat>
    var writers: set<nat>
    ghost var stored: seq<char>
    ghost var delivered: seq<char>

    /** pipealloc's part of the work. */
    constructor ()
      ensures Valid() && fresh(data) && Fresh(Abs())
    {
      data := new char[PIPESIZE];
      nread, nwrite, readopen, writeopen := 0, 0, true, true;
      readers, writers := {}, {};
      stored, delivered := [], [];
    }

    ghost function Abs(): State
      reads this
    {
      State(stored, delivered, readopen, writeopen, readers, writers)
    }

    ghost predicate Valid()
      reads this, data
    {
      && data.Length == PIPESIZE && Bounded(Abs())
      && nread == |delivered| % UINT && nwrite == |stored| % UINT
      && forall k :: |delivered| <= k < |stored| ==> data[k % PIPESIZE] == stored[k]
    }

    /** p->data[p->nwrite++ % PIPESIZE] = c */
    method Put(c: char)
      requires Valid() && |stored| - |delivered| < PIPESIZE
      modifies this`nwrite, this`stored, data
      ensures Valid() && stored == old(stored) + [c]
    {
      Wrapped(|stored|, |delivered|);
      forall k | |delivered| <= k < |stored| ensures k % PIPESIZE != |stored| % PIPESIZE {
        Places(k, |stored|);
      }
      data[nwrite % PIPESIZE] := c;
      nwrite := (nwrite + 1) % UINT;
      stored := stored + [c];
    }

    /** addr[i] = p->data[p->nread++ % PIPESIZE] */
    method Get() returns (c: char)
      requires Valid() && |delivered| < |stored|
      modifies this`nread, this`delivered
      ensures Valid() && delivered == old(delivered) + [c] && c == stored[old(|delivered|)]
    {
      Wrapped(|stored|, |delivered|);
      c := data[nread % PIPESIZE];
      nread := (nread + 1) % UINT;
      delivered := delivered + [c];
    }

    /** pipewrite, entered at byte `i`: at the start, or where it went to sleep before. */
    method PipeWrite(pid: nat, addr: seq<char>, i: nat, killed: bool) returns (o: Outcome)
      requires Valid() && i <= |addr|
      modifies this, data
      ensures Valid() && (Abs(), o) == Write(old(Abs()), pid, addr, i, killed)
      ensures o.Blocked? ==> i <= o.i < |addr| && stored == old(stored) + addr[i..o.i]
      ensures o.Returned? && o.r >= 0 ==> o.r == |addr| && stored == old(stored) + addr[i..]
    {
      var j := i;
      while j < |addr|
        invariant i <= j <= |addr| && Valid()
        invariant Abs() == old(Abs()).(stored := old(stored) + addr[i..j])
      {
        Wrapped(|stored|, |delivered|);
        if nwrite == (nread + PIPESIZE) % UINT {
          if !readopen || killed {
            return Returned(-1);
          }
          readers := {};
          writers := writers + {pid};
          return Blocked(j);
        }
        Put(addr[j]);
        assert addr[i..j + 1] == addr[i..j] + [addr[j]];
        j := j + 1;
      }
      assert addr[i..|addr|] == addr[i..];
      readers := {};
      o := Returned(|addr|);
    }

    /** piperead, entered at the start or where it went to sleep before. */
    method PipeRead(pid: nat, n: nat, killed: bool) returns (o: Outcome, addr: seq<char>)
      requires Valid()
      modifies this
      ensures Valid() && (Abs(), o) == Read(old(Abs()), pid, n, killed)
      ensures delivered == old(delivered) + addr
      ensures if o.Returned? && o.r >= 0 then o.r == |addr| else addr == []
    {
      addr := [];
      Wrapped(|stored|, |delivered|);
      if nread == nwrite && writeopen {
        if killed {
          return Returned(-1), [];
        }
        readers := readers + {pid};
        return Blocked(0), [];
      }
      addr := Drain(n);
      writers := {};
      o := Returned(|addr|);
    }

    /** The copy loop of piperead. */
    method Drain(n: nat) returns (addr: seq<char>)
      requires Valid()
      modifies this`nread, this`delivered
      ensures Valid() && addr == old(Contents(Abs()))[..Min(n, |old(Contents(Abs()))|)]
      ensures delivered == old(delivered) + addr
    {
      addr := [];
      var i := 0;
      while i < n
        invariant 0 <= i <= n && |addr| == i <= |old(Contents(Abs()))| && Valid()
        invariant addr == old(Contents(Abs()))[..i]
        invariant delivered == old(delivered) + addr
      {
        Wrapped(|stored|, |delivered|);
        if nread == nwrite {
          break;
        }
        var c := Get();
        assert c == old(Contents(Abs()))[i];
        addr := addr + [c];
        i := i + 1;
      }
    }

    /** pipeclose, up to the release of the page. */
    method PipeClose(writable: bool)
      requires Valid()
      modifies this
      ensures Valid() && Abs() == Close(old(Abs()), writable)
    {
      if writable {
        writeopen := false;
        readers := {};
      } else {
        readopen := false;
        writers := {};
      }
    }
  }
}
