/** Runs of the paging simulator (lab-07/sim.c) that reach the limit NUM_MAX. With -l, one page accessed
    1002 times and then seven others leave every resident counter above NUM_MAX. With -f, nine pages
    exchanged in turn bring every resident counter to NUM_MAX or more. In both cases the next page that
    needs room finds no victim. */
module PagingLimit {
  import opened PagingSim
  import opened PagingRun

  const JUNK := Mem(0, 0, 0, 0)

  /** A run of accesses that ends in state s. */
  ghost predicate Reached(s: State, h: seq<Ref>, mode: Mode) {
    exists states, junk :: Run(states, mode, h, junk) && states[|h|] == s
  }

  lemma {:induction false} Extend(s: State, h: seq<Ref>, x: Ref, mode: Mode)
    requires Reached(s, h, mode) && |s.tables| == MAX_PROCESS && ValidRef(x)
    requires RunStep(s, Access(s, x, mode, JUNK), mode, x, JUNK)
    ensures Reached(Access(s, x, mode, JUNK), Append(h, x), mode)
  {
    hide RunStep, Access, Initial;
    var states, junk :| Run(states, mode, h, junk) && states[|h|] == s;
    var t := Access(s, x, mode, JUNK);
    var states', junk', h' := states + [t], junk + [JUNK], Append(h, x);
    forall i | 0 <= i < |h'| ensures RunStep(states'[i], states'[i + 1], mode, h'[i], junk'[i]) {
      if i < |h| { assert RunStep(states[i], states[i + 1], mode, h[i], junk[i]); }
    }
    assert Run(states', mode, h', junk');
  }

  // ----- filling primary memory

  /** Pages 1 to n of process 1 are in primary memory, and secondary memory is empty. */
  ghost predicate Filling(s: State, h: seq<Ref>, n: nat, mode: Mode) {
    && 0 < n <= TAM_PRIMARY && Inv(s, mode, h) && FindFree(s.primary) == n && FindFree(s.secondary) == 0
    && (forall y :: y in h ==> y.pid == 1 && y.page <= n) && Ref(1, 1) in h
  }

  /** What an access does at such a stage: no process is created, and no victim is needed. */
  lemma {:induction false} FillingStep(s: State, h: seq<Ref>, n: nat, mode: Mode, x: Ref)
    requires Filling(s, h, n, mode) && ValidRef(x) && x.pid == 1 && x.page <= n + 1 && (n == TAM_PRIMARY ==> x in h)
    requires x in h <==> x.page <= n
    ensures Running(s) && !NeedsVictim(s, x) && |s.tables| == MAX_PROCESS
    ensures Inv(Access(s, x, mode, JUNK), mode, Append(h, x))
    ensures Access(s, x, mode, JUNK) == if x in h then Hit(s, x) else Fill(s, x, n)
    ensures x in h ==> FindRef(s.primary, x) < n
  {
    var m := FindFree(s.secondary);
    assert s.tables[1].pid == 1 && Known(s.tables, 1);
    assert Create(s, x.pid) == s;
    InvFacts(s, n, m, mode, h, x);
    assert Running(s);
    InHistory(s, n, mode, h, x);
    hide Inv, FindRef, FindFree, Modify, Hit, Fill, Evict, Swap;
    FoundIn(s, n, mode, h, x);
    ModifyIs(s, mode, h, x, JUNK);
    AccessKeeps(s, mode, h, x, JUNK);
  }

  lemma InHistory(s: State, n: nat, mode: Mode, h: seq<Ref>, x: Ref)
    requires Inv(s, mode, h) && FindFree(s.primary) == n && FindFree(s.secondary) == 0
    ensures x in h <==> OnSlot(s.primary, n, x)
  {
    hide Stamped, Located, Untouched;
  }

  lemma FoundIn(s: State, n: nat, mode: Mode, h: seq<Ref>, x: Ref)
    requires Inv(s, mode, h) && ValidRef(x) && FindFree(s.primary) == n
    ensures FindRef(s.primary, x) < |s.primary| ==> FindRef(s.primary, x) < n
  {
    hide Stamped, Located, Untouched, Kept;
    FoundAt(s.primary, n, x);
  }

  lemma {:induction false} First(mode: Mode) returns (s: State, h: seq<Ref>)
    ensures Filling(s, h, 1, mode) && Reached(s, h, mode)
    ensures |s.primary| == TAM_PRIMARY
    ensures s.primary[0].fifo == s.primary[0].lru == 0 && s.contFifo == s.contLru == 1
  {
    var z := State(seq(TAM_PRIMARY, _ => Mem(-1, 0, 0, 0)), seq(TAM_SECONDARY, _ => Mem(-1, 0, 0, 0)),
                   seq(MAX_PROCESS, _ => Proc(0, seq(TAM_PROCESS, _ => 0), false)), 0, 0);
    assert Initial(z);
    hide *;
    s, h := FirstStage(z, mode);
  }

  lemma {:induction false} FirstStage(z: State, mode: Mode) returns (s: State, h: seq<Ref>)
    requires Initial(z)
    ensures Filling(s, h, 1, mode) && Reached(s, h, mode)
    ensures |s.primary| == TAM_PRIMARY
    ensures s.primary[0].fifo == s.primary[0].lru == 0 && s.contFifo == s.contLru == 1
  {
    hide Inv, Create, Modify, FindFree, FindRef, Access;
    var x := Ref(1, 1);
    InitialInv(z, mode);
    FirstIs(z, mode, x);
    AccessKeeps(z, mode, [], x, JUNK);
    s, h := Access(z, x, mode, JUNK), Append([], x);
    assert Run([z], mode, [], []) && [z][0] == z;
    Extend(z, [], x, mode);
  }

  lemma FirstIs(z: State, mode: Mode, x: Ref)
    requires Initial(z) && x == Ref(1, 1)
    ensures !NeedsVictim(z, x)
    ensures var s := Access(z, x, mode, JUNK);
      && s.primary == z.primary[0 := Mem(1, 1, 0, 0)] && s.contLru == s.contFifo == 1
      && FindFree(s.primary) == 1 && FindFree(s.secondary) == 0
  {
    assert FindRef(z.primary, x) == |z.primary| && FindRef(z.secondary, x) == |z.secondary|;
    assert FindFree(z.primary) == 0 && FindFree(z.secondary) == 0;
    FillFree(Create(z, 1), x);
  }

  /** One more page into the next free slot. */
  lemma {:induction false} FillNext(s: State, h: seq<Ref>, n: nat, mode: Mode, x: Ref)
    requires Filling(s, h, n, mode) && Reached(s, h, mode) && n < TAM_PRIMARY && x == Ref(1, n + 1)
    ensures |s.tables| == MAX_PROCESS && n < |s.primary| && Access(s, x, mode, JUNK) == Fill(s, x, n)
    ensures Filling(Access(s, x, mode, JUNK), Append(h, x), n + 1, mode)
    ensures Reached(Access(s, x, mode, JUNK), Append(h, x), mode)
  {
    hide Inv, Running, NeedsVictim, FindFree, FindRef, Access, Reached, SetEntry, BelowMax;
    FreeAbove(s, mode, h);
    FillingStep(s, h, n, mode, x);
    Extend(s, h, x, mode);
    FillFree(s, x);
  }

  lemma FreeAbove(s: State, mode: Mode, h: seq<Ref>)
    requires Inv(s, mode, h)
    ensures |s.primary| == TAM_PRIMARY
    ensures forall i :: FindFree(s.primary) <= i < |s.primary| ==> s.primary[i].process == -1
  {
  }

  lemma FillFree(s: State, x: Ref)
    requires FindFree(s.primary) < |s.primary| && ValidRef(x)
    requires forall i :: FindFree(s.primary) <= i < |s.primary| ==> s.primary[i].process == -1
    ensures FindFree(Fill(s, x, FindFree(s.primary)).primary) == FindFree(s.primary) + 1
  {
    var n := FindFree(s.primary);
    var a := Fill(s, x, n).primary;
    assert a[n].process == x.pid && forall i :: 0 <= i < n ==> a[i] == s.primary[i];
    assert n + 1 < |a| ==> a[n + 1].process == -1;
  }

  // ----- with -l

  /** The counters of the used slots are at least c. */
  ghost predicate Late(s: State, h: seq<Ref>, n: nat, c: int) {
    && Filling(s, h, n, Lru) && n <= |s.primary|
    && (forall i :: 0 <= i < n ==> s.primary[i].lru >= c) && s.contLru >= c + 1
  }

  /** Page 1 over and over: its counter grows by one each time. */
  lemma {:induction false} Repeat(k: nat) returns (s: State, h: seq<Ref>)
    ensures Late(s, h, 1, k) && Reached(s, h, Lru)
  {
    if k == 0 {
      s, h := First(Lru);
    } else {
      s, h := Repeat(k - 1);
      hide *;
      RepeatStep(s, h, k - 1);
      s, h := Access(s, Ref(1, 1), Lru, JUNK), Append(h, Ref(1, 1));
    }
  }

  lemma {:induction false} RepeatStep(s: State, h: seq<Ref>, k: nat)
    requires Late(s, h, 1, k) && Reached(s, h, Lru)
    ensures |s.tables| == MAX_PROCESS && Late(Access(s, Ref(1, 1), Lru, JUNK), Append(h, Ref(1, 1)), 1, k + 1)
    ensures Reached(Access(s, Ref(1, 1), Lru, JUNK), Append(h, Ref(1, 1)), Lru)
  {
    hide Inv, Running, NeedsVictim, Access, FindRef, FindFree, Reached, BelowMax;
    FillingStep(s, h, 1, Lru, Ref(1, 1));
    Extend(s, h, Ref(1, 1), Lru);
    HitFree(s, Ref(1, 1));
  }

  lemma HitFree(s: State, x: Ref)
    requires FindRef(s.primary, x) < FindFree(s.primary)
    ensures FindFree(Hit(s, x).primary) == FindFree(s.primary)
  {
    var t := Hit(s, x);
    forall i | 0 <= i < |s.primary| ensures t.primary[i].process == s.primary[i].process {}
    hide FindRef;
  }

  /** Seven more pages. */
  lemma {:induction false} Grow(n: nat, c: nat) returns (s: State, h: seq<Ref>)
    requires 0 < n <= TAM_PRIMARY
    ensures Late(s, h, n, c) && Reached(s, h, Lru)
  {
    hide Filling, Access, Reached;
    if n == 1 {
      s, h := Repeat(c);
    } else {
      s, h := Grow(n - 1, c);
      FillNext(s, h, n - 1, Lru, Ref(1, n));
      s, h := Access(s, Ref(1, n), Lru, JUNK), Append(h, Ref(1, n));
    }
  }

  /** The simulator is not right on every run: here is a reachable state, with -l, and an access after
      which memories and tables disagree with the history, whatever rem_memory held. */
  lemma {:induction false} LimitIsReached() returns (s: State, h: seq<Ref>, x: Ref)
    ensures Reached(s, h, Lru) && ValidRef(x) && Running(s) && NeedsVictim(s, x) && AboveMax(s, Lru)
    ensures |s.tables| == MAX_PROCESS
    ensures forall junk :: !Inv(Access(s, x, Lru, junk), Lru, Append(h, x))
  {
    s, h := Grow(TAM_PRIMARY, NUM_MAX + 1);
    x := Ref(1, 9);
    InvFacts(s, TAM_PRIMARY, 0, Lru, h, x);
    InHistory(s, TAM_PRIMARY, Lru, h, x);
    hide Inv, Access;
    forall junk ensures !Inv(Access(s, x, Lru, junk), Lru, Append(h, x)) {
      StuckAboveMax(s, Lru, h, x, junk);
    }
  }

  // ----- with -f

  /** Slot i holds the load number i. */
  ghost predicate Loaded(s: State, h: seq<Ref>, n: nat) {
    && Filling(s, h, n, Fifo) && n <= |s.primary|
    && (forall i :: 0 <= i < n ==> s.primary[i].fifo == i) && s.contFifo == n
  }

  lemma {:induction false} Load(n: nat) returns (s: State, h: seq<Ref>)
    requires 0 < n <= TAM_PRIMARY
    ensures Loaded(s, h, n) && Reached(s, h, Fifo)
  {
    hide Filling, Access, Reached;
    if n == 1 {
      s, h := First(Fifo);
    } else {
      s, h := Load(n - 1);
      FillNext(s, h, n - 1, Fifo, Ref(1, n));
      s, h := Access(s, Ref(1, n), Fifo, JUNK), Append(h, Ref(1, n));
    }
  }

  /** The loads go round the slots: slots 0 to j - 1 hold the last j loads below k, and the slots from
      j on the ones before those, so that slot j is next. */
  predicate InTurn(mem: seq<Mem>, k: nat, j: nat) {
    && |mem| == TAM_PRIMARY <= k && j < TAM_PRIMARY
    && forall i :: 0 <= i < TAM_PRIMARY ==> mem[i].fifo == k - j + i - if i < j then 0 else TAM_PRIMARY
  }

  function After(j: nat): nat { if j == TAM_PRIMARY - 1 then 0 else j + 1 }

  /** Both memories are in use, one page in secondary memory. */
  ghost predicate Turning(s: State, h: seq<Ref>, k: nat, j: nat) {
    && Inv(s, Fifo, h) && FindFree(s.primary) == TAM_PRIMARY && FindFree(s.secondary) == 1
    && s.contFifo == k && InTurn(s.primary, k, j)
  }

  /** The slot whose turn it is has the smallest counter. */
  lemma OldestSlot(mem: seq<Mem>, k: nat, j: nat)
    requires InTurn(mem, k, j) && k < NUM_MAX + TAM_PRIMARY
    ensures mem[j].fifo == k - TAM_PRIMARY
    ensures MinSlot(mem, Fifo) == (j, k - TAM_PRIMARY)
    ensures FindCounter(mem, Fifo, k - TAM_PRIMARY) == j
  {
    hide MinSlot, FindCounter;
    assert Ctr(Fifo, mem[j]) == k - TAM_PRIMARY;
  }

  /** Its page gives way; the loads go on in turn. */
  lemma NextTurn(mem: seq<Mem>, k: nat, j: nat, m: Mem)
    requires InTurn(mem, k, j) && m.fifo == k
    ensures InTurn(mem[j := m], k + 1, After(j))
  {
  }

  /** The eviction of a page by a new one, and the exchange with the page in secondary memory. */
  lemma {:induction false} TurnIs(u: State, k: nat, j: nat, x: Ref)
    requires InTurn(u.primary, k, j) && k < NUM_MAX + TAM_PRIMARY && u.contFifo == k
    requires FindRef(u.primary, x) == FindFree(u.primary) == TAM_PRIMARY
    requires |u.secondary| == TAM_SECONDARY && FindFree(u.secondary) <= 1
    requires FindRef(u.secondary, x) == if FindFree(u.secondary) == 1 then 0 else TAM_SECONDARY
    ensures var t := Modify(u, x, Fifo, JUNK);
            && InTurn(t.primary, k + 1, After(j)) && t.contFifo == k + 1
            && t.secondary == u.secondary[0 := t.secondary[0]]
            && t.secondary[0].process == u.primary[j].process
  {
    assert |u.primary| == TAM_PRIMARY && j < TAM_PRIMARY;
    OldestSlot(u.primary, k, j);
    hide FindRef, FindFree, MinSlot, FindCounter, SetEntry, InTurn;
    NextTurn(u.primary, k, j, Put(u.primary[j], x, Fifo, k));
    assert Replace(u, x, Fifo).primary == u.primary[j := Put(u.primary[j], x, Fifo, k)];
  }

  lemma OneStored(a: seq<Mem>, b: seq<Mem>)
    requires FindFree(a) <= 1 && |a| == |b| == TAM_SECONDARY && b == a[0 := b[0]] && b[0].process != -1
    requires forall i :: 1 <= i < |a| ==> a[i].process == -1
    ensures FindFree(b) == 1
  {
    assert b[1].process == -1;
  }

  lemma {:induction false} TurnStep(s: State, h: seq<Ref>, k: nat, j: nat, x: Ref)
    requires Inv(s, Fifo, h) && Reached(s, h, Fifo) && ValidRef(x) && FindFree(s.primary) == TAM_PRIMARY
    requires InTurn(s.primary, k, j) && k < NUM_MAX + TAM_PRIMARY && s.contFifo == k
    requires FindRef(s.primary, x) == TAM_PRIMARY && FindFree(s.secondary) <= 1
    requires FindRef(s.secondary, x) == if FindFree(s.secondary) == 1 then 0 else TAM_SECONDARY
    ensures |s.tables| == MAX_PROCESS
    ensures Turning(Access(s, x, Fifo, JUNK), Append(h, x), k + 1, After(j))
    ensures Reached(Access(s, x, Fifo, JUNK), Append(h, x), Fifo)
  {
    Rows(s, h);
    OldestSlot(s.primary, k, j);
    assert j < TAM_PRIMARY;
    hide Inv, FindRef, FindFree, Modify, MinSlot, FindCounter, InTurn, Create, Reached;
    assert BelowMax(s, Fifo) by { assert Ctr(Fifo, s.primary[j]) < NUM_MAX; }
    AccessKeeps(s, Fifo, h, x, JUNK);
    Extend(s, h, x, Fifo);
    var u, t := Create(s, x.pid), Access(s, x, Fifo, JUNK);
    CreateKeeps(s, Fifo, h, x);
    Created(s, x.pid);
    TurnIs(u, k, j, x);
    OneStored(s.secondary, t.secondary);
    StillFull(t, Append(h, x));
  }

  lemma Created(s: State, pid: int)
    requires 0 <= pid < |s.tables|
    ensures Create(s, pid).contFifo == s.contFifo
  {
  }

  lemma {:induction false} Rows(s: State, h: seq<Ref>)
    requires Inv(s, Fifo, h) && FindFree(s.primary) == TAM_PRIMARY && FindFree(s.secondary) <= 1
    ensures |s.tables| == MAX_PROCESS && |s.primary| == TAM_PRIMARY && |s.secondary| == TAM_SECONDARY && Running(s)
    ensures forall i :: 1 <= i < |s.secondary| ==> s.secondary[i].process == -1
    ensures forall i :: 0 <= i < |s.primary| ==> s.primary[i].process != -1
  {
    hide Stamped, Kept, Located, Untouched, Apart;
    forall i | 0 <= i < |s.primary| ensures s.primary[i].process != -1 { assert ValidRef(Key(s.primary[i])); }
  }

  lemma {:induction false} StillFull(t: State, h: seq<Ref>)
    requires Inv(t, Fifo, h) && FindFree(t.secondary) > 0
    ensures FindFree(t.primary) == TAM_PRIMARY
  {
  }

  /** Page 1 to 9, and then always the one that is in secondary memory. */
  lemma {:induction false} Turn(k: nat) returns (s: State, h: seq<Ref>, j: nat)
    requires TAM_PRIMARY < k <= NUM_MAX + TAM_PRIMARY
    ensures Turning(s, h, k, j) && Reached(s, h, Fifo)
  {
    hide Inv, FindRef, FindFree, Access, InTurn, Filling, Reached;
    if k == TAM_PRIMARY + 1 {
      s, h := FirstTurn();
      j := 1;
    } else {
      s, h, j := Turn(k - 1);
      var x := Waiting(s, h);
      TurnStep(s, h, k - 1, j, x);
      s, h, j := Access(s, x, Fifo, JUNK), Append(h, x), After(j);
    }
  }

  lemma {:induction false} FirstTurn() returns (s: State, h: seq<Ref>)
    ensures Turning(s, h, TAM_PRIMARY + 1, 1) && Reached(s, h, Fifo)
  {
    s, h := Load(TAM_PRIMARY);
    var x := Ref(1, 9);
    hide FindRef, FindFree, Access, Reached;
    NewPage(s, h, x);
    hide Inv;
    TurnStep(s, h, TAM_PRIMARY, 0, x);
    s, h := Access(s, x, Fifo, JUNK), Append(h, x);
  }

  lemma NewPage(s: State, h: seq<Ref>, x: Ref)
    requires Loaded(s, h, TAM_PRIMARY) && x == Ref(1, 9)
    ensures InTurn(s.primary, TAM_PRIMARY, 0)
    ensures FindRef(s.primary, x) == TAM_PRIMARY && FindRef(s.secondary, x) == TAM_SECONDARY
  {
    hide FindRef, FindFree, Stamped, Kept, Located, Untouched;
    InvFacts(s, TAM_PRIMARY, 0, Fifo, h, x);
    InHistory(s, TAM_PRIMARY, Fifo, h, x);
  }

  /** The page in secondary memory. */
  lemma {:induction false} Waiting(s: State, h: seq<Ref>) returns (x: Ref)
    requires Inv(s, Fifo, h) && FindFree(s.primary) == TAM_PRIMARY && FindFree(s.secondary) == 1
    ensures ValidRef(x) && FindRef(s.primary, x) == |s.primary| == TAM_PRIMARY && FindRef(s.secondary, x) == 0
  {
    hide Stamped, Kept, Located, Untouched;
    x := Key(s.secondary[0]);
  }

  /** With -f too: after a thousand loads the search for a victim finds nothing, and for a value that
      rem_memory may hold the access is wrong. */
  lemma {:induction false} FifoLimitIsReached() returns (s: State, h: seq<Ref>, x: Ref, junk: Mem)
    ensures Reached(s, h, Fifo) && ValidRef(x) && Running(s) && NeedsVictim(s, x) && !BelowMax(s, Fifo)
    ensures |s.tables| == MAX_PROCESS && !Inv(Access(s, x, Fifo, junk), Fifo, Append(h, x))
  {
    var j;
    s, h, j := Turn(NUM_MAX + TAM_PRIMARY);
    Rows(s, h);
    x := Waiting(s, h);
    junk := Mem(x.pid, x.page, 0, 0);
    FailsAtMax(s, Fifo, h, x, junk);
  }
}
