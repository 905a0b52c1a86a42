/** The paging simulator (lab-07/sim.c): primary and secondary memory, one page table per process,
    FIFO or LRU replacement. A state is a value here; PagingRun.dfy has the arrays and loops. */
module PagingSim {

  const MAX_PROCESS := 100
  const TAM_PROCESS := 16
  const TAM_PRIMARY := 8
  const TAM_SECONDARY := 16
  const NUM_MAX := 1000

  datatype Mode = Fifo | Lru

  /** A page of a process; pages count from 1. */
  datatype Ref = Ref(pid: int, page: int)

  predicate ValidRef(x: Ref) { 1 <= x.pid < MAX_PROCESS && 1 <= x.page <= TAM_PROCESS }

  /** A slot of either memory; free when process is -1. */
  datatype Mem = Mem(process: int, page: int, fifo: int, lru: int)

  datatype Proc = Proc(pid: int, pages: seq<int>, created: bool)

  datatype State = State(primary: seq<Mem>, secondary: seq<Mem>, tables: seq<Proc>, contFifo: int, contLru: int)

  function Key(m: Mem): Ref { Ref(m.process, m.page) }

  function Ctr(mode: Mode, m: Mem): int { if mode.Fifo? then m.fifo else m.lru }

  function Cont(mode: Mode, s: State): int { if mode.Fifo? then s.contFifo else s.contLru }

  // ----- the searches

  /** First slot that holds x, or the number of slots. */
  function FindRef(mem: seq<Mem>, x: Ref): (i: nat)
    ensures i <= |mem| && (i < |mem| ==> Key(mem[i]) == x)
    ensures forall j :: 0 <= j < i ==> Key(mem[j]) != x
  {
    if mem == [] then 0 else if Key(mem[0]) == x then 0 else FindRef(mem[1..], x) + 1
  }

  /** First free slot, or the number of slots. */
  function FindFree(mem: seq<Mem>): (i: nat)
    ensures i <= |mem| && (i < |mem| ==> mem[i].process == -1)
    ensures forall j :: 0 <= j < i ==> mem[j].process != -1
  {
    if mem == [] then 0 else if mem[0].process == -1 then 0 else FindFree(mem[1..]) + 1
  }

  /** First slot whose counter is c, or the number of slots. */
  function FindCounter(mem: seq<Mem>, mode: Mode, c: int): (i: nat)
    ensures i <= |mem| && (i < |mem| ==> Ctr(mode, mem[i]) == c)
    ensures forall j :: 0 <= j < i ==> Ctr(mode, mem[j]) != c
  {
    if mem == [] then 0 else if Ctr(mode, mem[0]) == c then 0 else FindCounter(mem[1..], mode, c) + 1
  }

  /** The victim search: the slot with the smallest counter below NUM_MAX, and that counter; the
      number of slots and NUM_MAX when there is none. */
  function MinSlot(mem: seq<Mem>, mode: Mode): (r: (nat, int))
    ensures r.0 <= |mem| && r.1 <= NUM_MAX
    ensures r.0 < |mem| ==> Ctr(mode, mem[r.0]) == r.1 < NUM_MAX
    ensures r.0 == |mem| ==> r.1 == NUM_MAX
    ensures forall j :: 0 <= j < |mem| ==> r.1 <= Ctr(mode, mem[j])
  {
    if mem == [] then (0, NUM_MAX)
    else
      var n := |mem| - 1;
      var r := MinSlot(mem[..n], mode);
      assert forall j :: 0 <= j < n ==> mem[..n][j] == mem[j];
      if Ctr(mode, mem[n]) < r.1 then (n, Ctr(mode, mem[n]))
      else if r.0 == n then (|mem|, r.1) else r
  }

  // ----- the steps

  /** Overwriting the page of a slot and stamping it, in the counter of the mode only. */
  function Put(m: Mem, x: Ref, mode: Mode, c: int): Mem {
    if mode.Fifo? then Mem(x.pid, x.page, c, m.lru) else Mem(x.pid, x.page, m.fifo, c)
  }

  function Bump(s: State, mode: Mode): State {
    if mode.Fifo? then s.(contFifo := s.contFifo + 1) else s.(contLru := s.contLru + 1)
  }

  predicate InTable(tables: seq<Proc>, x: Ref) {
    0 <= x.pid < |tables| && 1 <= x.page <= |tables[x.pid].pages|
  }

  /** An entry outside the tables, which the C program would write somewhere else, is skipped. */
  function SetEntry(tables: seq<Proc>, x: Ref, v: int): (t: seq<Proc>)
    ensures |t| == |tables|
  {
    if InTable(tables, x) then
      var p := tables[x.pid];
      tables[x.pid := p.(pages := p.pages[x.page - 1 := v])]
    else tables
  }

  predicate Known(tables: seq<Proc>, pid: int) { exists i :: 0 <= i < |tables| && tables[i].pid == pid }

  /** create_process, when no row has the pid. */
  function Create(s: State, pid: int): State
    requires 0 <= pid < |s.tables|
  {
    if Known(s.tables, pid) then s
    else s.(tables := s.tables[pid := Proc(pid, seq(TAM_PROCESS, _ => -1), true)])
  }

  /** A page already in primary memory: only its LRU counter moves, whatever the mode. */
  function Hit(s: State, x: Ref): State {
    var i := FindRef(s.primary, x);
    if i == |s.primary| then s
    else s.(primary := s.primary[i := s.primary[i].(lru := s.contLru)], contLru := s.contLru + 1)
  }

  /** A page put into the free slot i. */
  function Fill(s: State, x: Ref, i: nat): State
    requires i < |s.primary|
  {
    s.(primary := s.primary[i := Mem(x.pid, x.page, s.contFifo, s.contLru)],
       tables := SetEntry(s.tables, x, i), contFifo := s.contFifo + 1, contLru := s.contLru + 1)
  }

  /** What rem_memory holds after the victim search: `junk` is its value before. */
  function Victim(s: State, mode: Mode, junk: Mem): Mem {
    var k := MinSlot(s.primary, mode).0;
    if k < |s.primary| then s.primary[k] else junk
  }

  /** The slot with the smallest counter gets the page x. */
  function Replace(s: State, x: Ref, mode: Mode): State {
    var j := FindCounter(s.primary, mode, MinSlot(s.primary, mode).1);
    if j == |s.primary| then s
    else
      Bump(s.(primary := s.primary[j := Put(s.primary[j], x, mode, Cont(mode, s))],
              tables := SetEntry(s.tables, x, j)), mode)
  }

  /** Page v with counter c into slot i of secondary memory. */
  function Store(s: State, i: nat, v: Mem, mode: Mode): State
    requires i < |s.secondary|
  {
    s.(secondary := s.secondary[i := Put(s.secondary[i], Key(v), mode, Ctr(mode, v))],
       tables := SetEntry(s.tables, Key(v), i))
  }

  /** A new page when primary memory is full. */
  function Evict(s: State, x: Ref, mode: Mode, junk: Mem): State
  {
    var t := Replace(s, x, mode);
    var i := FindFree(t.secondary);
    if i == |t.secondary| then t else Store(t, i, Victim(s, mode, junk), mode)
  }

  /** A page found in secondary memory at i changes places with the victim. */
  function Swap(s: State, x: Ref, i: nat, mode: Mode, junk: Mem): State
    requires i < |s.secondary|
  {
    Replace(Store(s, i, Victim(s, mode, junk), mode), x, mode)
  }

  /** modify_process, before its test for the end of the run. */
  function Modify(s: State, x: Ref, mode: Mode, junk: Mem): State
  {
    var pass := FindRef(s.primary, x) < |s.primary|;
    var i := FindRef(s.secondary, x);
    var t := Hit(s, x);
    if i < |s.secondary| then Swap(t, x, i, mode, junk)
    else if pass then t
    else
      var f := FindFree(t.primary);
      if f < |t.primary| then Fill(t, x, f) else Evict(t, x, mode, junk)
  }

  // ----- the history specification

  ghost predicate IsOldest(r: map<Ref, nat>, k: Ref) { k in r && forall y :: y in r ==> r[k] <= r[y] }

  lemma {:induction false} OldestExists(r: map<Ref, nat>)
    requires r != map[]
    ensures exists k :: IsOldest(r, k)
    decreases |r.Keys|
  {
    var x :| x in r;
    var rest := Drop(r, x);
    assert rest.Keys == r.Keys - {x};
    var k := x;
    if rest.Keys != {} {
      OldestExists(rest);
      var o :| IsOldest(rest, o);
      if r[o] < r[x] { k := o; }
    }
    forall y | y in r ensures r[k] <= r[y] {
      if y != x { assert y in rest.Keys && rest[y] == r[y]; }
    }
    assert IsOldest(r, k);
  }

  ghost function Oldest(r: map<Ref, nat>): (k: Ref)
    requires r != map[]
    ensures IsOldest(r, k)
  {
    OldestExists(r);
    var k :| IsOldest(r, k);
    k
  }

  ghost function Drop(r: map<Ref, nat>, k: Ref): map<Ref, nat> { map y | y in r && y != k :: r[y] }

  /** What an access at time t does to the resident pages and their times. */
  ghost function Touch(mode: Mode, r: map<Ref, nat>, x: Ref, t: nat): map<Ref, nat> {
    if x in r then if mode.Lru? then r[x := t] else r
    else if |r.Keys| < TAM_PRIMARY then r[x := t]
    else Drop(r, Oldest(r))[x := t]
  }

  /** The resident pages after a history, each with the time that decides its turn: when it was
      loaded (FIFO) or last accessed (LRU). */
  ghost function Resident(mode: Mode, h: seq<Ref>): (r: map<Ref, nat>)
    ensures forall k :: k in r ==> r[k] < |h| && h[r[k]] == k
  {
    if h == [] then map[]
    else Touch(mode, Resident(mode, h[..|h| - 1]), h[|h| - 1], |h| - 1)
  }

  ghost function Append(h: seq<Ref>, x: Ref): seq<Ref> { h + [x] }

  lemma {:induction false} ResidentNext(mode: Mode, h: seq<Ref>, x: Ref)
    ensures Resident(mode, Append(h, x)) == Touch(mode, Resident(mode, h), x, |h|)
  {
    assert Append(h, x)[..|h|] == h;
  }

  // ----- the invariant

  ghost predicate OnSlot(mem: seq<Mem>, n: nat, x: Ref) {
    n <= |mem| && exists i :: 0 <= i < n && Key(mem[i]) == x
  }

  ghost predicate Distinct(mem: seq<Mem>, n: nat) {
    n <= |mem| && forall i, j :: 0 <= i < j < n ==> Key(mem[i]) != Key(mem[j])
  }

  /** The first n slots hold different pages; the others are free. */
  ghost predicate Packed(mem: seq<Mem>, n: nat) {
    && n <= |mem|
    && (forall i :: 0 <= i < n ==> ValidRef(Key(mem[i])))
    && Distinct(mem, n)
    && (forall i :: n <= i < |mem| ==> mem[i].process == -1)
  }

  /** No page is in both memories. */
  ghost predicate Apart(a: seq<Mem>, n: nat, b: seq<Mem>, m: nat) {
    && n <= |a| && m <= |b|
    && forall i, j :: 0 <= i < n && 0 <= j < m ==> Key(a[i]) != Key(b[j])
  }

  /** The first n slots hold the pages of r. */
  ghost predicate Holds(mem: seq<Mem>, n: nat, r: map<Ref, nat>) {
    && n <= |mem|
    && (forall i :: 0 <= i < n ==> Key(mem[i]) in r)
    && (forall k :: k in r ==> OnSlot(mem, n, k))
  }

  ghost predicate SameOrder(a: Mem, b: Mem, mode: Mode, r: map<Ref, nat>) {
    Key(a) in r && Key(b) in r && (Ctr(mode, a) < Ctr(mode, b) <==> r[Key(a)] < r[Key(b)])
  }

  /** The first n slots hold the pages of r, and their counters are in the order of r's times. */
  ghost predicate Stamped(mem: seq<Mem>, n: nat, mode: Mode, cont: int, r: map<Ref, nat>) {
    && Holds(mem, n, r)
    && (forall i :: 0 <= i < n ==> Ctr(mode, mem[i]) < cont)
    && (forall i, j :: 0 <= i < n && 0 <= j < n ==> SameOrder(mem[i], mem[j], mode, r))
  }

  /** Exactly the accessed pages are in a memory. */
  ghost predicate Kept(a: seq<Mem>, n: nat, b: seq<Mem>, m: nat, h: seq<Ref>) {
    && n <= |a| && m <= |b|
    && (forall x :: x in h ==> ValidRef(x) && (OnSlot(a, n, x) || OnSlot(b, m, x)))
    && (forall i :: 0 <= i < n ==> Key(a[i]) in h)
    && (forall i :: 0 <= i < m ==> Key(b[i]) in h)
  }

  function Entry(tables: seq<Proc>, x: Ref): int
    requires InTable(tables, x)
  {
    tables[x.pid].pages[x.page - 1]
  }

  ghost predicate RowsOk(tables: seq<Proc>) {
    && |tables| == MAX_PROCESS
    && forall p :: 0 <= p < MAX_PROCESS ==> |tables[p].pages| == TAM_PROCESS && tables[p].pid in {0, p}
  }

  /** The entries of the first n pages of a memory are their slots. */
  ghost predicate Located(tables: seq<Proc>, mem: seq<Mem>, n: nat) {
    && n <= |mem|
    && forall i :: 0 <= i < n ==> InTable(tables, Key(mem[i])) && Entry(tables, Key(mem[i])) == i
  }

  /** Rows of accessed pages exist, and in every row the pages never accessed are at -1. */
  ghost predicate Untouched(tables: seq<Proc>, h: seq<Ref>)
    requires RowsOk(tables)
  {
    && (forall x :: x in h && ValidRef(x) ==> tables[x.pid].pid == x.pid)
    && (forall x {:trigger Entry(tables, x)} :: ValidRef(x) && x !in h && tables[x.pid].pid == x.pid ==>
        Entry(tables, x) == -1)
  }

  ghost predicate InvAt(s: State, n: nat, m: nat, mode: Mode, h: seq<Ref>) {
    && |s.primary| == TAM_PRIMARY && |s.secondary| == TAM_SECONDARY && RowsOk(s.tables)
    && Packed(s.primary, n) && Packed(s.secondary, m) && Apart(s.primary, n, s.secondary, m)
    && (m > 0 ==> n == TAM_PRIMARY)
    && Stamped(s.primary, n, mode, Cont(mode, s), Resident(mode, h))
    && Kept(s.primary, n, s.secondary, m, h)
    && Located(s.tables, s.primary, n) && Located(s.tables, s.secondary, m)
    && Untouched(s.tables, h)
  }

  /** What holds after the history h. */
  ghost predicate Inv(s: State, mode: Mode, h: seq<Ref>) {
    InvAt(s, FindFree(s.primary), FindFree(s.secondary), mode, h)
  }

  // ----- what the searches find

  lemma FreeIs(mem: seq<Mem>, n: nat)
    requires Packed(mem, n)
    ensures FindFree(mem) == n
  {
    forall i | 0 <= i < n ensures mem[i].process != -1 { assert ValidRef(Key(mem[i])); }
    assert n < |mem| ==> mem[n].process == -1;
  }

  ghost function Keys(mem: seq<Mem>, n: nat): (r: set<Ref>)
    requires n <= |mem|
    ensures forall i :: 0 <= i < n ==> Key(mem[i]) in r
    ensures forall x :: x in r ==> OnSlot(mem, n, x)
  {
    if n == 0 then {} else Keys(mem, n - 1) + {Key(mem[n - 1])}
  }

  lemma {:induction false} CountKeys(mem: seq<Mem>, n: nat)
    requires Distinct(mem, n)
    ensures n <= |mem| && |Keys(mem, n)| == n
  {
    hide Distinct, OnSlot;
    if n > 0 {
      NotEarlier(mem, n);
      CountKeys(mem, n - 1);
      assert Key(mem[n - 1]) !in Keys(mem, n - 1);
    }
  }

  lemma NotEarlier(mem: seq<Mem>, n: nat)
    requires Distinct(mem, n)
    ensures n <= |mem| && (n > 0 ==> Distinct(mem, n - 1) && !OnSlot(mem, n - 1, Key(mem[n - 1])))
  {
  }

  /** As many pages are resident as slots are used. */
  lemma {:induction false} CountIs(mem: seq<Mem>, n: nat, mode: Mode, cont: int, r: map<Ref, nat>)
    requires Packed(mem, n) && Stamped(mem, n, mode, cont, r)
    ensures |r.Keys| == n
  {
    forall k | k in r.Keys ensures k in Keys(mem, n) { assert OnSlot(mem, n, k); }
    assert r.Keys == Keys(mem, n);
    CountKeys(mem, n);
  }

  /** Each resident page has its own time. */
  ghost predicate Times(r: map<Ref, nat>, t: nat) {
    && (forall k :: k in r ==> r[k] < t)
    && (forall k, l :: k in r && l in r && r[k] == r[l] ==> k == l)
  }

  lemma TimesOf(mode: Mode, h: seq<Ref>)
    ensures Times(Resident(mode, h), |h|)
  {
  }

  /** The victim is the oldest resident page, and the second search finds the same slot. */
  lemma {:induction false} VictimIsOldest(mem: seq<Mem>, mode: Mode, cont: int, r: map<Ref, nat>,
                                          t: nat) returns (k: nat)
    requires Packed(mem, |mem|) && Stamped(mem, |mem|, mode, cont, r) && Times(r, t)
    requires MinSlot(mem, mode).0 < |mem|
    ensures k == MinSlot(mem, mode).0 == FindCounter(mem, mode, MinSlot(mem, mode).1)
    ensures k < |mem| && r != map[] && Key(mem[k]) == Oldest(r)
  {
    hide MinSlot, FindCounter;
    k := MinSlot(mem, mode).0;
    assert Key(mem[k]) in r;
    var o := Oldest(r);
    assert OnSlot(mem, |mem|, o);
    var i :| 0 <= i < |mem| && Key(mem[i]) == o;
    assert SameOrder(mem[i], mem[k], mode, r) && r[o] == r[Key(mem[k])];
    var j := FindCounter(mem, mode, MinSlot(mem, mode).1);
    assert j <= k;
    assert SameOrder(mem[j], mem[k], mode, r) && SameOrder(mem[k], mem[j], mode, r);
  }

  /** A page in a slot is found there. */
  lemma FoundAt(mem: seq<Mem>, n: nat, x: Ref)
    requires Packed(mem, n) && ValidRef(x)
    ensures OnSlot(mem, n, x) <==> FindRef(mem, x) < |mem|
    ensures FindRef(mem, x) < |mem| ==> FindRef(mem, x) < n
  {
  }

  // ----- each part of the invariant under each step

  /** Slot j is in both, with the same counter and time. */
  ghost predicate SameSlot(a: Mem, b: Mem, mode: Mode, r: map<Ref, nat>, r': map<Ref, nat>) {
    Key(a) in r && Key(b) in r' && Ctr(mode, a) == Ctr(mode, b) && r[Key(a)] == r'[Key(b)]
  }

  /** One slot gets the newest counter and the newest time, the others keep theirs. */
  lemma {:induction false} StampNewest(mem: seq<Mem>, n: nat, mem': seq<Mem>, n': nat, mode: Mode, cont: int,
                                       r: map<Ref, nat>, r': map<Ref, nat>, k: nat, t: nat)
    requires Stamped(mem, n, mode, cont, r) && Times(r, t) && Holds(mem', n', r') && k < n'
    requires n' == n || (n' == n + 1 && k == n)
    requires forall j :: 0 <= j < n' && j != k ==> SameSlot(mem[j], mem'[j], mode, r, r')
    requires Ctr(mode, mem'[k]) == cont && r'[Key(mem'[k])] == t
    ensures Stamped(mem', n', mode, cont + 1, r')
  {
    hide OnSlot;
    forall i, j | 0 <= i < n' && 0 <= j < n' ensures SameOrder(mem'[i], mem'[j], mode, r') {
      if i != k && j != k {
        assert SameOrder(mem[i], mem[j], mode, r);
        assert SameSlot(mem[i], mem'[i], mode, r, r') && SameSlot(mem[j], mem'[j], mode, r, r');
      } else if i != k {
        assert SameSlot(mem[i], mem'[i], mode, r, r');
      } else if j != k {
        assert SameSlot(mem[j], mem'[j], mode, r, r');
      }
    }
    forall i | 0 <= i < n' ensures Ctr(mode, mem'[i]) < cont + 1 {
      if i != k { assert SameSlot(mem[i], mem'[i], mode, r, r'); }
    }
  }

  lemma {:induction false} StampedHit(mem: seq<Mem>, n: nat, mode: Mode, c: int, cont: int, r: map<Ref, nat>, i: nat,
                                      t: nat)
    requires Stamped(mem, n, mode, cont, r) && Times(r, t) && i < n && Distinct(mem, n)
    requires mode.Lru? ==> c == cont
    ensures Stamped(mem[i := mem[i].(lru := c)], n, mode, if mode.Lru? then cont + 1 else cont,
                    Touch(mode, r, Key(mem[i]), t))
  {
    hide OnSlot;
    var mem' := mem[i := mem[i].(lru := c)];
    var r' := Touch(mode, r, Key(mem[i]), t);
    forall j | 0 <= j < |mem| ensures Key(mem'[j]) == Key(mem[j]) {}
    HoldsSame(mem, mem', n, r, r');
    if mode.Lru? {
      hide Holds, Stamped;
      forall j | 0 <= j < n && j != i ensures SameSlot(mem[j], mem'[j], mode, r, r') {
        assert Key(mem[j]) in r && Key(mem[j]) != Key(mem[i]) by { DistinctAt(mem, n, i, j, r); }
      }
      StampNewest(mem, n, mem', n, mode, cont, r, r', i, t);
    } else {
      forall a, b | 0 <= a < n && 0 <= b < n ensures SameOrder(mem'[a], mem'[b], mode, r') {
        assert SameOrder(mem[a], mem[b], mode, r);
      }
    }
  }

  lemma DistinctAt(mem: seq<Mem>, n: nat, i: nat, j: nat, r: map<Ref, nat>)
    requires Distinct(mem, n) && Holds(mem, n, r) && i < n && j < n && i != j
    ensures Key(mem[i]) != Key(mem[j]) && Key(mem[j]) in r
  {
  }

  lemma {:induction false} HoldsSame(mem: seq<Mem>, mem': seq<Mem>, n: nat, r: map<Ref, nat>, r': map<Ref, nat>)
    requires Holds(mem, n, r) && r.Keys == r'.Keys && |mem'| == |mem|
    requires forall j :: 0 <= j < |mem| ==> Key(mem'[j]) == Key(mem[j])
    ensures Holds(mem', n, r')
  {
    forall k | k in r' ensures OnSlot(mem', n, k) {
      assert OnSlot(mem, n, k);
      var j :| 0 <= j < n && Key(mem[j]) == k;
      assert Key(mem'[j]) == k;
    }
  }

  lemma {:induction false} HoldsFill(mem: seq<Mem>, n: nat, r: map<Ref, nat>, m: Mem, t: nat)
    requires Holds(mem, n, r) && n < |mem|
    ensures Holds(mem[n := m], n + 1, r[Key(m) := t])
  {
    var mem', r' := mem[n := m], r[Key(m) := t];
    forall k | k in r' ensures OnSlot(mem', n + 1, k) {
      if k == Key(m) {
        assert Key(mem'[n]) == k;
      } else {
        assert OnSlot(mem, n, k);
        var j :| 0 <= j < n && Key(mem[j]) == k;
        assert Key(mem'[j]) == k;
      }
    }
  }

  lemma {:induction false} StampedFill(mem: seq<Mem>, n: nat, mode: Mode, cont: int, r: map<Ref, nat>, m: Mem, t: nat)
    requires Stamped(mem, n, mode, cont, r) && Times(r, t) && n < |mem|
    requires !OnSlot(mem, n, Key(m)) && Ctr(mode, m) == cont
    ensures Stamped(mem[n := m], n + 1, mode, cont + 1, r[Key(m) := t])
  {
    HoldsFill(mem, n, r, m, t);
    StampNewest(mem, n, mem[n := m], n + 1, mode, cont, r, r[Key(m) := t], n, t);
  }

  lemma {:induction false} HoldsReplace(mem: seq<Mem>, r: map<Ref, nat>, k: nat, m: Mem, t: nat)
    requires Holds(mem, |mem|, r) && k < |mem| && Distinct(mem, |mem|)
    ensures Holds(mem[k := m], |mem|, Drop(r, Key(mem[k]))[Key(m) := t])
  {
    var mem', r' := mem[k := m], Drop(r, Key(mem[k]))[Key(m) := t];
    forall y | y in r' ensures OnSlot(mem', |mem|, y) {
      if y == Key(m) {
        assert Key(mem'[k]) == y;
      } else {
        assert OnSlot(mem, |mem|, y);
        var j :| 0 <= j < |mem| && Key(mem[j]) == y;
        assert Key(mem'[j]) == y;
      }
    }
  }

  lemma {:induction false} StampedReplace(mem: seq<Mem>, mode: Mode, cont: int, r: map<Ref, nat>, k: nat, m: Mem,
                                          t: nat)
    requires Stamped(mem, |mem|, mode, cont, r) && Times(r, t) && k < |mem| && Distinct(mem, |mem|)
    requires !OnSlot(mem, |mem|, Key(m)) && Ctr(mode, m) == cont
    ensures Stamped(mem[k := m], |mem|, mode, cont + 1, Drop(r, Key(mem[k]))[Key(m) := t])
  {
    HoldsReplace(mem, r, k, m, t);
    StampNewest(mem, |mem|, mem[k := m], |mem|, mode, cont, r, Drop(r, Key(mem[k]))[Key(m) := t], k, t);
  }

  /** Placing page y in slot i: its entry moves, no other does. */
  lemma {:induction false} EntryAfter(tables: seq<Proc>, y: Ref, v: int, x: Ref)
    requires RowsOk(tables) && ValidRef(y) && ValidRef(x)
    ensures RowsOk(SetEntry(tables, y, v)) && InTable(SetEntry(tables, y, v), x)
    ensures Entry(SetEntry(tables, y, v), x) == if x == y then v else Entry(tables, x)
    ensures SetEntry(tables, y, v)[x.pid].pid == tables[x.pid].pid
  {
  }

  /** `mem'` is `mem` but for slot i, which is one of its pages. */
  ghost predicate PutAt(mem: seq<Mem>, n: nat, mem': seq<Mem>, n': nat, i: nat) {
    && |mem'| == |mem| && n <= |mem| && i < n' <= |mem|
    && (n' == n || (n' == n + 1 && i == n))
    && forall j {:trigger mem'[j]} :: 0 <= j < |mem| && j != i ==> mem'[j] == mem[j]
  }

  lemma {:induction false} LocatedPut(tables: seq<Proc>, mem: seq<Mem>, n: nat, mem': seq<Mem>, n': nat, i: nat)
    requires RowsOk(tables) && Packed(mem, n) && Located(tables, mem, n)
    requires PutAt(mem, n, mem', n', i) && Packed(mem', n')
    ensures InTable(tables, Key(mem'[i])) && Located(SetEntry(tables, Key(mem'[i]), i), mem', n')
  {
    assert ValidRef(Key(mem'[i]));
    forall j | 0 <= j < n'
      ensures InTable(SetEntry(tables, Key(mem'[i]), i), Key(mem'[j]))
      ensures Entry(SetEntry(tables, Key(mem'[i]), i), Key(mem'[j])) == j
    {
      assert ValidRef(Key(mem'[j]));
      EntryAfter(tables, Key(mem'[i]), i, Key(mem'[j]));
    }
  }

  lemma {:induction false} LocatedKeeps(tables: seq<Proc>, mem: seq<Mem>, n: nat, y: Ref, v: int)
    requires RowsOk(tables) && Packed(mem, n) && Located(tables, mem, n) && ValidRef(y) && !OnSlot(mem, n, y)
    ensures InTable(tables, y) && Located(SetEntry(tables, y, v), mem, n)
  {
    forall j | 0 <= j < n
      ensures InTable(SetEntry(tables, y, v), Key(mem[j]))
      ensures Entry(SetEntry(tables, y, v), Key(mem[j])) == j
    {
      EntryAfter(tables, y, v, Key(mem[j]));
    }
  }

  lemma {:induction false} SetEntryCommutes(tables: seq<Proc>, x: Ref, v: int, y: Ref, w: int)
    requires RowsOk(tables) && ValidRef(x) && ValidRef(y) && x != y
    ensures InTable(SetEntry(tables, x, v), y) && InTable(SetEntry(tables, y, w), x)
    ensures SetEntry(SetEntry(tables, x, v), y, w) == SetEntry(SetEntry(tables, y, w), x, v)
  {
    var a, b := SetEntry(SetEntry(tables, x, v), y, w), SetEntry(SetEntry(tables, y, w), x, v);
    if x.pid == y.pid { assert a[x.pid].pages == b[x.pid].pages; }
    assert forall p :: 0 <= p < |tables| && p != x.pid && p != y.pid ==> a[p] == tables[p] == b[p];
  }

  /** A memory with a new page in slot i. */
  lemma {:induction false} PackedPut(mem: seq<Mem>, n: nat, mem': seq<Mem>, n': nat, i: nat)
    requires Packed(mem, n) && PutAt(mem, n, mem', n', i)
    requires ValidRef(Key(mem'[i])) && forall j :: 0 <= j < n && j != i ==> Key(mem[j]) != Key(mem'[i])
    ensures Packed(mem', n')
  {
  }

  /** Page x into slot k of the full primary memory, the page of slot k into slot i of secondary
      memory; x was in that slot, or nowhere. */
  ghost predicate Exchange(a: seq<Mem>, b: seq<Mem>, m: nat, a': seq<Mem>, b': seq<Mem>, m': nat, k: nat, i: nat) {
    && PutAt(a, |a|, a', |a|, k) && PutAt(b, m, b', m', i)
    && Key(b'[i]) == Key(a[k]) && ValidRef(Key(a'[k])) && !OnSlot(a, |a|, Key(a'[k]))
    && (forall j :: 0 <= j < m && Key(b[j]) == Key(a'[k]) ==> j == i)
    && (i < m ==> Key(b[i]) == Key(a'[k]))
  }

  lemma {:induction false} ExchangePlaces(a: seq<Mem>, b: seq<Mem>, m: nat, a': seq<Mem>, b': seq<Mem>, m': nat,
                                          k: nat, i: nat)
    requires Packed(a, |a|) && Packed(b, m) && Apart(a, |a|, b, m) && Exchange(a, b, m, a', b', m', k, i)
    ensures Packed(a', |a|) && Packed(b', m') && Apart(a', |a|, b', m')
  {
    PackedPut(a, |a|, a', |a|, k);
    PackedPut(b, m, b', m', i);
    forall p, q | 0 <= p < |a| && 0 <= q < m' ensures Key(a'[p]) != Key(b'[q]) {
      if p != k { assert a'[p] == a[p]; }
      if q != i { assert b'[q] == b[q]; }
    }
  }

  lemma {:induction false} ExchangeKept(a: seq<Mem>, b: seq<Mem>, m: nat, a': seq<Mem>, b': seq<Mem>, m': nat, k: nat,
                                        i: nat, h: seq<Ref>)
    requires Packed(a, |a|) && Packed(b, m) && Exchange(a, b, m, a', b', m', k, i) && Kept(a, |a|, b, m, h)
    ensures Kept(a', |a|, b', m', Append(h, Key(a'[k])))
  {
    var x := Key(a'[k]);
    forall y | y in Append(h, x) ensures ValidRef(y) && (OnSlot(a', |a|, y) || OnSlot(b', m', y)) {
      if y == x {
        assert Key(a'[k]) == y;
      } else if y == Key(a[k]) {
        assert Key(b'[i]) == y;
      } else if OnSlot(a, |a|, y) {
        var p :| 0 <= p < |a| && Key(a[p]) == y;
        assert Key(a'[p]) == y;
      } else {
        var q :| 0 <= q < m && Key(b[q]) == y;
        assert Key(b'[q]) == y;
      }
    }
    forall p | 0 <= p < |a| ensures Key(a'[p]) in Append(h, x) { if p != k { assert a'[p] == a[p]; } }
    forall q | 0 <= q < m' ensures Key(b'[q]) in Append(h, x) { if q != i { assert b'[q] == b[q]; } }
  }

  lemma {:induction false} ExchangeLocated(tables: seq<Proc>, a: seq<Mem>, b: seq<Mem>, m: nat, a': seq<Mem>,
                                           b': seq<Mem>, m': nat, k: nat, i: nat)
    requires RowsOk(tables) && Packed(a, |a|) && Packed(b, m)
    requires Apart(a, |a|, b, m) && Exchange(a, b, m, a', b', m', k, i)
    requires Located(tables, a, |a|) && Located(tables, b, m)
    ensures var x, v := Key(a'[k]), Key(a[k]);
      ValidRef(x) && ValidRef(v) && InTable(tables, v) && InTable(SetEntry(tables, v, i), x) &&
      Located(SetEntry(SetEntry(tables, v, i), x, k), a', |a|)
          && Located(SetEntry(SetEntry(tables, v, i), x, k), b', m')
  {
    hide Located, Entry, SetEntry;
    var x, v := Key(a'[k]), Key(a[k]);
    ExchangePlaces(a, b, m, a', b', m', k, i);
    assert ValidRef(v) by { assert ValidRef(Key(a[k])); }
    assert !OnSlot(b, m, v);
    assert !OnSlot(b', m', x);
    SetEntryCommutes(tables, x, k, v, i);
    LocatedPut(tables, a, |a|, a', |a|, k);
    EntryAfter(tables, x, k, v);
    EntryAfter(tables, v, i, x);
    LocatedKeeps(SetEntry(tables, x, k), a', |a|, v, i);
    LocatedPut(tables, b, m, b', m', i);
    LocatedKeeps(SetEntry(tables, v, i), b', m', x, k);
  }

  lemma {:induction false} UntouchedAfter(tables: seq<Proc>, h: seq<Ref>, y: Ref, v: int)
    requires RowsOk(tables) && Untouched(tables, h) && ValidRef(y) && y in h
    ensures RowsOk(SetEntry(tables, y, v)) && Untouched(SetEntry(tables, y, v), h)
  {
    EntryAfter(tables, y, v, y);
    forall x {:trigger Entry(SetEntry(tables, y, v), x)} | ValidRef(x)
      ensures SetEntry(tables, y, v)[x.pid].pid == tables[x.pid].pid
      ensures x !in h && tables[x.pid].pid == x.pid ==> Entry(SetEntry(tables, y, v), x) == -1
    {
      EntryAfter(tables, y, v, x);
    }
  }

  // ----- the steps keep the invariant

  /** The row of x's process exists. */
  predicate Ready(s: State, x: Ref) { ValidRef(x) && |s.tables| == MAX_PROCESS && s.tables[x.pid].pid == x.pid }

  lemma {:induction false} UntouchedMore(tables: seq<Proc>, h: seq<Ref>, x: Ref)
    requires RowsOk(tables) && Untouched(tables, h) && ValidRef(x) && tables[x.pid].pid == x.pid
    ensures Untouched(tables, Append(h, x))
  {
  }

  lemma {:induction false} SameKeys(a: seq<Mem>, n: nat, a': seq<Mem>, b: seq<Mem>, m: nat, tables: seq<Proc>,
                                    h: seq<Ref>, x: Ref)
    requires |a'| == |a| && (forall j :: 0 <= j < |a| ==> Key(a'[j]) == Key(a[j])) && x in h
    requires Packed(a, n) && Apart(a, n, b, m) && Kept(a, n, b, m, h) && Located(tables, a, n)
    ensures Packed(a', n) && Apart(a', n, b, m) && Kept(a', n, b, m, Append(h, x)) && Located(tables, a', n)
  {
    forall i | n <= i < |a'| ensures a'[i].process == -1 { assert Key(a'[i]) == Key(a[i]); }
    forall y | y in Append(h, x) ensures ValidRef(y) && (OnSlot(a', n, y) || OnSlot(b, m, y)) {
      assert y in h;
      if OnSlot(a, n, y) {
        var p :| 0 <= p < n && Key(a[p]) == y;
        assert Key(a'[p]) == y;
      }
    }
  }

  lemma {:induction false} HitStep(s: State, n: nat, m: nat, mode: Mode, h: seq<Ref>, x: Ref)
    requires InvAt(s, n, m, mode, h) && Ready(s, x) && OnSlot(s.primary, n, x)
    ensures InvAt(Hit(s, x), n, m, mode, Append(h, x))
  {
    hide Resident, Touch, Stamped, Times, Untouched, FindRef;
    FoundAt(s.primary, n, x);
    var i := FindRef(s.primary, x);
    var a' := s.primary[i := s.primary[i].(lru := s.contLru)];
    assert Key(s.primary[i]) in h;
    SameKeys(s.primary, n, a', s.secondary, m, s.tables, h, x);
    TimesOf(mode, h);
    ResidentNext(mode, h, x);
    StampedHit(s.primary, n, mode, s.contLru, Cont(mode, s), Resident(mode, h), i, |h|);
    UntouchedMore(s.tables, h, x);
  }

  lemma {:induction false} FillKept(a: seq<Mem>, n: nat, b: seq<Mem>, c: Mem, h: seq<Ref>)
    requires Kept(a, n, b, 0, h) && n < |a| && ValidRef(Key(c))
    ensures Kept(a[n := c], n + 1, b, 0, Append(h, Key(c)))
  {
    var a' := a[n := c];
    forall y | y in Append(h, Key(c)) ensures ValidRef(y) && OnSlot(a', n + 1, y) {
      if y == Key(c) {
        assert Key(a'[n]) == y;
      } else {
        assert OnSlot(a, n, y);
        var p :| 0 <= p < n && Key(a[p]) == y;
        assert Key(a'[p]) == y;
      }
    }
  }

  lemma {:induction false} FillPlaces(a: seq<Mem>, n: nat, c: Mem, b: seq<Mem>)
    requires Packed(a, n) && n < |a| && ValidRef(Key(c)) && !OnSlot(a, n, Key(c))
    ensures Packed(a[n := c], n + 1) && Apart(a[n := c], n + 1, b, 0) && PutAt(a, n, a[n := c], n + 1, n)
  {
    PackedPut(a, n, a[n := c], n + 1, n);
  }

  lemma LocatedNone(tables: seq<Proc>, mem: seq<Mem>)
    ensures Located(tables, mem, 0)
  {
  }

  lemma {:induction false} FillStep(s: State, n: nat, mode: Mode, h: seq<Ref>, x: Ref)
    requires InvAt(s, n, 0, mode, h) && Ready(s, x) && n < TAM_PRIMARY && !OnSlot(s.primary, n, x)
    ensures InvAt(Fill(s, x, n), n + 1, 0, mode, Append(h, x))
  {
    hide Resident, Stamped, Times, Untouched, Kept, SetEntry, RowsOk, Distinct, Packed, Apart, Located, OnSlot;
    var c := Mem(x.pid, x.page, s.contFifo, s.contLru);
    var a' := s.primary[n := c];
    assert x == Key(c);
    FillPlaces(s.primary, n, c, s.secondary);
    LocatedNone(SetEntry(s.tables, x, n), s.secondary);
    FillKept(s.primary, n, s.secondary, c, h);
    LocatedPut(s.tables, s.primary, n, a', n + 1, n);
    UntouchedMore(s.tables, h, x);
    UntouchedAfter(s.tables, Append(h, x), x, n);
    TimesOf(mode, h);
    ResidentNext(mode, h, x);
    var r := Resident(mode, h);
    CountIs(s.primary, n, mode, Cont(mode, s), r);
    if x in r { HoldsOn(s.primary, n, mode, Cont(mode, s), r, x); }
    StampedFill(s.primary, n, mode, Cont(mode, s), r, c, |h|);
  }

  lemma HoldsOn(mem: seq<Mem>, n: nat, mode: Mode, cont: int, r: map<Ref, nat>, x: Ref)
    requires Stamped(mem, n, mode, cont, r) && x in r
    ensures OnSlot(mem, n, x)
  {
  }

  /** The oldest page in primary memory makes room for x, and takes the place x had or the next free
      one. */
  lemma {:induction false} ExchangeStep(s: State, m: nat, mode: Mode, h: seq<Ref>, x: Ref, t: State, m': nat, i: nat)
    requires InvAt(s, TAM_PRIMARY, m, mode, h) && Ready(s, x) && MinSlot(s.primary, mode).0 < TAM_PRIMARY
    requires var k := MinSlot(s.primary, mode).0;
      && Exchange(s.primary, s.secondary, m, t.primary, t.secondary, m', k, i)
      && t.primary == s.primary[k := Put(s.primary[k], x, mode, Cont(mode, s))]
      && t.tables == SetEntry(SetEntry(s.tables, Key(s.primary[k]), i), x, k)
      && Cont(mode, t) == Cont(mode, s) + 1
    ensures InvAt(t, TAM_PRIMARY, m', mode, Append(h, x))
  {
    hide Resident, Stamped, Times, Untouched, Kept, Located, SetEntry, MinSlot, FindCounter, Exchange, Packed, Apart;
    hide OnSlot,
      RowsOk, Distinct, Drop;
    var r := Resident(mode, h);
    TimesOf(mode, h);
    var k := VictimIsOldest(s.primary, mode, Cont(mode, s), r, |h|);
    ExchangePlaces(s.primary, s.secondary, m, t.primary, t.secondary, m', k, i);
    ExchangeKept(s.primary, s.secondary, m, t.primary, t.secondary, m', k, i, h);
    ExchangeLocated(s.tables, s.primary, s.secondary, m, t.primary, t.secondary, m', k, i);
    UntouchedMore(s.tables, h, x);
    assert Key(s.primary[k]) in Append(h, x) by { KeptAt(s.primary, TAM_PRIMARY, s.secondary, m, h, k); }
    UntouchedAfter(s.tables, Append(h, x), Key(s.primary[k]), i);
    UntouchedAfter(SetEntry(s.tables, Key(s.primary[k]), i), Append(h, x), x, k);
    ResidentNext(mode, h, x);
    CountIs(s.primary, TAM_PRIMARY, mode, Cont(mode, s), r);
    ExchangeNew(s.primary, s.secondary, m, t.primary, t.secondary, m', k, i);
    if x in r { HoldsOn(s.primary, TAM_PRIMARY, mode, Cont(mode, s), r, x); }
    DistinctOf(s.primary, TAM_PRIMARY);
    StampedReplace(s.primary, mode, Cont(mode, s), r, k, t.primary[k], |h|);
  }

  lemma KeptAt(a: seq<Mem>, n: nat, b: seq<Mem>, m: nat, h: seq<Ref>, k: nat)
    requires Kept(a, n, b, m, h) && k < n
    ensures Key(a[k]) in h
  {
  }

  lemma DistinctOf(mem: seq<Mem>, n: nat)
    requires Packed(mem, n)
    ensures Distinct(mem, n)
  {
  }

  lemma ExchangeNew(a: seq<Mem>, b: seq<Mem>, m: nat, a': seq<Mem>, b': seq<Mem>, m': nat, k: nat, i: nat)
    requires Exchange(a, b, m, a', b', m', k, i)
    ensures k < |a'| == |a| && |b'| == |b| && !OnSlot(a, |a|, Key(a'[k]))
  {
  }

  /** The access needs a victim: x is not in primary memory, and that is full. */
  predicate NeedsVictim(s: State, x: Ref) {
    FindRef(s.primary, x) == |s.primary| && FindFree(s.primary) == |s.primary|
  }

  /** Some resident counter is below NUM_MAX, so the oldest is. */
  predicate BelowMax(s: State, mode: Mode) { exists i :: 0 <= i < |s.primary| && Ctr(mode, s.primary[i]) < NUM_MAX }

  /** The run goes on while the last slot of secondary memory is free. */
  predicate Running(s: State) { |s.secondary| == TAM_SECONDARY && s.secondary[TAM_SECONDARY - 1].process == -1 }

  lemma {:induction false} EvictStep(s: State, m: nat, mode: Mode, h: seq<Ref>, x: Ref, junk: Mem)
    requires InvAt(s, TAM_PRIMARY, m, mode, h) && Ready(s, x) && MinSlot(s.primary, mode).0 < TAM_PRIMARY
    requires m < TAM_SECONDARY && !OnSlot(s.primary, TAM_PRIMARY, x) && !OnSlot(s.secondary, m, x)
    ensures InvAt(Evict(s, x, mode, junk), TAM_PRIMARY, m + 1, mode, Append(h, x))
  {
    hide Resident, Stamped, Untouched, Kept, Located, MinSlot, FindCounter, SetEntry;
    var t := Evict(s, x, mode, junk);
    TimesOf(mode, h);
    var k := VictimIsOldest(s.primary, mode, Cont(mode, s), Resident(mode, h), |h|);
    FreeIs(s.secondary, m);
    assert ValidRef(Key(s.primary[k]));
    SetEntryCommutes(s.tables, x, k, Key(s.primary[k]), m);
    ExchangeStep(s, m, mode, h, x, t, m + 1, m);
  }

  lemma {:induction false} SwapStep(s: State, m: nat, mode: Mode, h: seq<Ref>, x: Ref, i: nat, junk: Mem)
    requires InvAt(s, TAM_PRIMARY, m, mode, h) && Ready(s, x) && MinSlot(s.primary, mode).0 < TAM_PRIMARY
    requires i < m && Key(s.secondary[i]) == x
    ensures InvAt(Swap(s, x, i, mode, junk), TAM_PRIMARY, m, mode, Append(h, x))
  {
    hide Resident, Stamped, Untouched, Kept, Located, MinSlot, FindCounter, SetEntry;
    var t := Swap(s, x, i, mode, junk);
    TimesOf(mode, h);
    var k := VictimIsOldest(s.primary, mode, Cont(mode, s), Resident(mode, h), |h|);
    ExchangeStep(s, m, mode, h, x, t, m, i);
  }

  lemma {:induction false} CreateKeeps(s: State, mode: Mode, h: seq<Ref>, x: Ref)
    requires Inv(s, mode, h) && ValidRef(x)
    ensures Inv(Create(s, x.pid), mode, h) && Ready(Create(s, x.pid), x)
    ensures var t := Create(s, x.pid); t.primary == s.primary && t.secondary == s.secondary
  {
    hide Resident, Stamped, FindFree, Located, Untouched;
    var t := Create(s, x.pid);
    if !Known(s.tables, x.pid) {
      LocatedCreate(s.tables, s.primary, FindFree(s.primary), h, t.tables, x.pid);
      LocatedCreate(s.tables, s.secondary, FindFree(s.secondary), h, t.tables, x.pid);
      UntouchedCreate(s.tables, h, t.tables, x.pid);
    } else {
      assert s.tables[x.pid].pid == x.pid by { RowIs(s.tables, x.pid); }
    }
  }

  lemma RowIs(tables: seq<Proc>, pid: int)
    requires RowsOk(tables) && 1 <= pid < MAX_PROCESS && Known(tables, pid)
    ensures tables[pid].pid == pid
  {
  }

  /** A new row is -1 throughout, and no accessed page is in it. */
  ghost predicate NewRow(tables: seq<Proc>, h: seq<Ref>, tables': seq<Proc>, pid: int) {
    && RowsOk(tables) && Untouched(tables, h)
    && 1 <= pid < MAX_PROCESS && tables[pid].pid != pid
    && tables' == tables[pid := Proc(pid, seq(TAM_PROCESS, _ => -1), true)]
  }

  lemma {:induction false} LocatedCreate(tables: seq<Proc>, mem: seq<Mem>, n: nat, h: seq<Ref>, tables': seq<Proc>,
                                         pid: int)
    requires NewRow(tables, h, tables', pid) && Packed(mem, n) && Located(tables, mem, n)
    requires forall i :: 0 <= i < n ==> Key(mem[i]) in h
    ensures Located(tables', mem, n)
  {
    forall i | 0 <= i < n ensures InTable(tables', Key(mem[i])) && Entry(tables', Key(mem[i])) == i {
      assert ValidRef(Key(mem[i])) && tables[Key(mem[i]).pid].pid == Key(mem[i]).pid;
    }
  }

  lemma {:induction false} UntouchedCreate(tables: seq<Proc>, h: seq<Ref>, tables': seq<Proc>, pid: int)
    requires NewRow(tables, h, tables', pid)
    ensures RowsOk(tables') && Untouched(tables', h)
  {
    forall x {:trigger Entry(tables', x)} | ValidRef(x) && x !in h && tables'[x.pid].pid == x.pid
      ensures Entry(tables', x) == -1
    {
      if x.pid != pid { assert Entry(tables, x) == -1; }
    }
  }

  /** One access by the main loop. */
  function Access(s: State, x: Ref, mode: Mode, junk: Mem): State
    requires 0 <= x.pid < |s.tables|
  {
    Modify(Create(s, x.pid), x, mode, junk)
  }

  lemma {:induction false} ModifyKeeps(s: State, mode: Mode, h: seq<Ref>, x: Ref, junk: Mem)
    requires Inv(s, mode, h) && Ready(s, x) && Running(s) && (NeedsVictim(s, x) ==> BelowMax(s, mode))
    ensures Inv(Modify(s, x, mode, junk), mode, Append(h, x))
  {
    hide InvAt, Evict, Swap, Fill, Append, MinSlot, FindRef, FindFree;
    var n, m := FindFree(s.primary), FindFree(s.secondary);
    var t := Modify(s, x, mode, junk);
    InvFacts(s, n, m, mode, h, x);
    if OnSlot(s.primary, n, x) {
      HitStep(s, n, m, mode, h, x);
      InvIs(t, n, m, mode, Append(h, x));
    } else if FindRef(s.secondary, x) < |s.secondary| {
      SwapStep(s, m, mode, h, x, FindRef(s.secondary, x), junk);
      InvIs(t, TAM_PRIMARY, m, mode, Append(h, x));
    } else if n < TAM_PRIMARY {
      FillStep(s, n, mode, h, x);
      InvIs(t, n + 1, 0, mode, Append(h, x));
    } else {
      EvictStep(s, m, mode, h, x, junk);
      InvIs(t, TAM_PRIMARY, m + 1, mode, Append(h, x));
    }
  }

  lemma {:induction false} InvIs(s: State, n: nat, m: nat, mode: Mode, h: seq<Ref>)
    requires InvAt(s, n, m, mode, h)
    ensures Inv(s, mode, h)
  {
    hide Stamped, Apart, Kept, Located, Untouched;
    FreeIs(s.primary, n);
    FreeIs(s.secondary, m);
  }

  lemma {:induction false} InvFacts(s: State, n: nat, m: nat, mode: Mode, h: seq<Ref>, x: Ref)
    requires InvAt(s, n, m, mode, h) && ValidRef(x)
    ensures |s.primary| == TAM_PRIMARY && |s.secondary| == TAM_SECONDARY && n <= TAM_PRIMARY
    ensures FindFree(s.primary) == n && FindFree(s.secondary) == m
    ensures m > 0 ==> n == TAM_PRIMARY
    ensures OnSlot(s.primary, n, x) <==> FindRef(s.primary, x) < TAM_PRIMARY
    ensures OnSlot(s.secondary, m, x) <==> FindRef(s.secondary, x) < TAM_SECONDARY
    ensures FindRef(s.secondary, x) < TAM_SECONDARY ==>
        FindRef(s.secondary, x) < m && Key(s.secondary[FindRef(s.secondary, x)]) == x
    ensures OnSlot(s.primary, n, x) ==> !OnSlot(s.secondary, m, x)
    ensures Running(s) ==> m < TAM_SECONDARY
    ensures BelowMax(s, mode) ==> MinSlot(s.primary, mode).0 < TAM_PRIMARY
  {
    hide Stamped, Kept, Located, Untouched;
    FreeIs(s.primary, n);
    FreeIs(s.secondary, m);
    FoundAt(s.primary, n, x);
    FoundAt(s.secondary, m, x);
  }

  // ----- whole runs

  /** main before its first access: all slots free, all rows zero. */
  ghost predicate Initial(s: State) {
    && |s.primary| == TAM_PRIMARY && |s.secondary| == TAM_SECONDARY && |s.tables| == MAX_PROCESS
    && (forall i :: 0 <= i < TAM_PRIMARY ==> s.primary[i].process == -1)
    && (forall i :: 0 <= i < TAM_SECONDARY ==> s.secondary[i].process == -1)
    && (forall p :: 0 <= p < MAX_PROCESS ==> s.tables[p].pid == 0 && |s.tables[p].pages| == TAM_PROCESS)
    && s.contFifo == 0 && s.contLru == 0
  }

  /** The states of a run over the accesses h, each access begun while the run goes on and a victim,
      if one is needed, is below NUM_MAX. */
  ghost predicate Run(states: seq<State>, mode: Mode, h: seq<Ref>, junk: seq<Mem>) {
    && |states| == |h| + 1 && |junk| == |h| && Initial(states[0])
    && forall i :: 0 <= i < |h| ==> RunStep(states[i], states[i + 1], mode, h[i], junk[i])
  }

  ghost predicate RunStep(s: State, t: State, mode: Mode, x: Ref, junk: Mem) {
    && ValidRef(x) && |s.tables| == MAX_PROCESS && Running(s) && (NeedsVictim(s, x) ==> BelowMax(s, mode))
    && t == Access(s, x, mode, junk)
  }

  lemma {:induction false} InitialInv(s: State, mode: Mode)
    requires Initial(s)
    ensures Inv(s, mode, [])
  {
    assert InvAt(s, 0, 0, mode, []);
    InvIs(s, 0, 0, mode, []);
  }

  lemma {:induction false} AccessKeeps(s: State, mode: Mode, h: seq<Ref>, x: Ref, junk: Mem)
    requires Inv(s, mode, h) && ValidRef(x) && Running(s) && (NeedsVictim(s, x) ==> BelowMax(s, mode))
    ensures Inv(Access(s, x, mode, junk), mode, Append(h, x))
  {
    assert |s.tables| == MAX_PROCESS;
    hide InvAt, Modify, Create, Append;
    CreateKeeps(s, mode, h, x);
    ModifyKeeps(Create(s, x.pid), mode, h, x, junk);
  }

  /** Every run keeps the memories and page tables in agreement with the history of its accesses. */
  lemma {:induction false} RunRefines(states: seq<State>, mode: Mode, h: seq<Ref>, junk: seq<Mem>)
    requires Run(states, mode, h, junk)
    ensures Inv(states[|h|], mode, h)
    decreases |h|
  {
    hide Inv, Access, Running, NeedsVictim, BelowMax;
    if h == [] {
      InitialInv(states[0], mode);
    } else {
      var n := |h| - 1;
      assert RunStep(states[n], states[n + 1], mode, h[n], junk[n]);
      forall i | 0 <= i < n ensures RunStep(states[i], states[i + 1], mode, h[..n][i], junk[..n][i]) {
        assert RunStep(states[i], states[i + 1], mode, h[i], junk[i]);
      }
      RunRefines(states[..n + 1], mode, h[..n], junk[..n]);
      AccessKeeps(states[n], mode, h[..n], h[n], junk[n]);
      assert Append(h[..n], h[n]) == h;
    }
  }

  /** Page x is in a slot if and only if it was accessed; it is in one slot, and its entry is that
      slot; never accessed, its entry is -1 once its process exists. */
  ghost predicate Placed(s: State, h: seq<Ref>, x: Ref) {
    && |s.primary| == TAM_PRIMARY && |s.secondary| == TAM_SECONDARY && InTable(s.tables, x)
    && (x in h <==> OnSlot(s.primary, TAM_PRIMARY, x) || OnSlot(s.secondary, TAM_SECONDARY, x))
    && (forall i, j :: 0 <= i < TAM_PRIMARY && 0 <= j < TAM_SECONDARY && Key(s.primary[i]) == x ==>
        Key(s.secondary[j]) != x)
    && (forall i :: 0 <= i < TAM_PRIMARY && Key(s.primary[i]) == x ==> Entry(s.tables, x) == i)
    && (forall i :: 0 <= i < TAM_SECONDARY && Key(s.secondary[i]) == x ==> Entry(s.tables, x) == i)
    && (x !in h && s.tables[x.pid].pid == x.pid ==> Entry(s.tables, x) == -1)
  }

  /** After any run each accessed page is in exactly one slot of one memory, its table entry is that
      slot, and in the rows that exist every other entry is -1. */
  lemma {:induction false} PlaceOfPage(states: seq<State>, mode: Mode, h: seq<Ref>, junk: seq<Mem>, x: Ref)
    requires Run(states, mode, h, junk) && ValidRef(x)
    ensures Placed(states[|h|], h, x)
  {
    hide Stamped, RunStep, Initial, FindFree, Inv, InvAt;
    RunRefines(states, mode, h, junk);
    PlaceInState(states[|h|], mode, h, x);
  }

  lemma {:induction false} PlaceInState(s: State, mode: Mode, h: seq<Ref>, x: Ref)
    requires Inv(s, mode, h) && ValidRef(x)
    ensures Placed(s, h, x)
  {
    hide Stamped, FindFree;
    var n, m := FindFree(s.primary), FindFree(s.secondary);
    OnlyUsed(s.primary, n, x);
    OnlyUsed(s.secondary, m, x);
  }

  lemma {:induction false} OnlyUsed(mem: seq<Mem>, n: nat, x: Ref)
    requires Packed(mem, n) && ValidRef(x)
    ensures OnSlot(mem, n, x) <==> OnSlot(mem, |mem|, x)
    ensures forall i :: 0 <= i < |mem| && Key(mem[i]) == x ==> i < n
  {
  }

  /** Primary memory holds exactly the resident pages. */
  lemma {:induction false} PrimaryIsResident(s: State, mode: Mode, h: seq<Ref>, y: Ref)
    requires Inv(s, mode, h) && ValidRef(y)
    ensures OnSlot(s.primary, |s.primary|, y) <==> y in Resident(mode, h)
    ensures y in h ==> y in Resident(mode, h) || OnSlot(s.secondary, |s.secondary|, y)
  {
    hide Resident, Stamped, Untouched, Located, FindFree;
    HoldsIff(s.primary, FindFree(s.primary), mode, Cont(mode, s), Resident(mode, h), y);
    OnlyUsed(s.primary, FindFree(s.primary), y);
    OnlyUsed(s.secondary, FindFree(s.secondary), y);
  }

  /** A victim is needed exactly when a page that is not resident meets a full memory. */
  lemma {:induction false} NeedsVictimIs(s: State, mode: Mode, h: seq<Ref>, x: Ref)
    requires Inv(s, mode, h) && ValidRef(x)
    ensures NeedsVictim(s, x) <==> x !in Resident(mode, h) && |Resident(mode, h).Keys| == TAM_PRIMARY
  {
    hide Resident, Stamped, Untouched, Located, FindFree, Kept, Apart;
    var n := FindFree(s.primary);
    FoundAt(s.primary, n, x);
    HoldsIff(s.primary, n, mode, Cont(mode, s), Resident(mode, h), x);
    CountIs(s.primary, n, mode, Cont(mode, s), Resident(mode, h));
  }

  /** An access that needs a victim moves the oldest resident page, and only it, to secondary memory. */
  lemma {:induction false} EvictsOldest(s: State, mode: Mode, h: seq<Ref>, x: Ref, junk: Mem, y: Ref)
    requires Inv(s, mode, h) && ValidRef(x) && ValidRef(y) && Running(s) && NeedsVictim(s, x) && BelowMax(s, mode)
    ensures var r, t := Resident(mode, h), Access(s, x, mode, junk);
      && r != map[] && OnSlot(t.secondary, |t.secondary|, Oldest(r))
      && (OnSlot(t.primary, |t.primary|, y) <==> y == x || (OnSlot(s.primary, |s.primary|, y) && y != Oldest(r)))
  {
    var r := Resident(mode, h);
    NeedsVictimIs(s, mode, h, x);
    var o := Oldest(r);
    assert o in h && ValidRef(o);
    hide Access, Running, Resident, Inv, NeedsVictim, BelowMax, OnSlot;
    var t := Access(s, x, mode, junk);
    AccessKeeps(s, mode, h, x, junk);
    ResidentNext(mode, h, x);
    PrimaryIsResident(s, mode, h, y);
    PrimaryIsResident(t, mode, Append(h, x), y);
    PrimaryIsResident(t, mode, Append(h, x), o);
  }

  lemma HoldsIff(mem: seq<Mem>, n: nat, mode: Mode, cont: int, r: map<Ref, nat>, y: Ref)
    requires Stamped(mem, n, mode, cont, r)
    ensures OnSlot(mem, n, y) <==> y in r
  {
  }

  // ----- what the times of the specification are

  /** LRU: the time of a resident page is its last access, and every page accessed but not resident
      was last accessed before every resident page. */
  lemma {:induction false} LruMeaning(h: seq<Ref>)
    ensures var r := Resident(Lru, h);
      && (forall k, j :: k in r && r[k] < j < |h| ==> h[j] != k)
      && (forall j, k :: 0 <= j < |h| && h[j] !in r && k in r ==> j < r[k])
  {
    if h != [] {
      hide Resident;
      var n, x := |h| - 1, h[|h| - 1];
      var g := h[..n];
      LruMeaning(g);
      assert Append(g, x) == h;
      ResidentNext(Lru, g, x);
      TimesOf(Lru, g);
      LruTouch(Resident(Lru, g), g, x);
    }
  }

  ghost predicate Recent(r: map<Ref, nat>, h: seq<Ref>) {
    && (forall k :: k in r ==> r[k] < |h| && h[r[k]] == k)
    && (forall k, j :: k in r && r[k] < j < |h| ==> h[j] != k)
    && (forall j, k :: 0 <= j < |h| && h[j] !in r && k in r ==> j < r[k])
  }

  lemma {:induction false} LruTouch(r: map<Ref, nat>, g: seq<Ref>, x: Ref)
    requires Recent(r, g)
    ensures Recent(Touch(Lru, r, x, |g|), Append(g, x))
  {
    var rest := if x in r || |r.Keys| < TAM_PRIMARY then r else Drop(r, Oldest(r));
    assert Recent(rest, g) by {
      if rest != r { RecentDrop(r, g); }
    }
    RecentPut(rest, g, x);
    assert Touch(Lru, r, x, |g|) == rest[x := |g|];
  }

  lemma {:induction false} RecentDrop(r: map<Ref, nat>, g: seq<Ref>)
    requires Recent(r, g) && r != map[]
    ensures Recent(Drop(r, Oldest(r)), g)
  {
    var o := Oldest(r);
    var d := Drop(r, o);
    forall j, k | 0 <= j < |g| && g[j] !in d && k in d ensures j < d[k] {
      assert r[o] <= r[k] && r[o] != r[k];
      if g[j] in r { assert g[j] == o; }
    }
  }

  lemma {:induction false} RecentPut(r: map<Ref, nat>, g: seq<Ref>, x: Ref)
    requires Recent(r, g)
    ensures Recent(r[x := |g|], Append(g, x))
  {
    var r', h := r[x := |g|], Append(g, x);
    forall k, j | k in r' && r'[k] < j < |h| ensures h[j] != k {
      if j < |g| { assert h[j] == g[j]; }
    }
    forall j, k | 0 <= j < |h| && h[j] !in r' && k in r' ensures j < r'[k] {
      assert h[j] == g[j];
    }
  }

  /** FIFO: the time of a resident page is when it was loaded; it has been resident ever since. */
  lemma {:induction false} FifoMeaning(h: seq<Ref>, k: Ref)
    requires k in Resident(Fifo, h)
    ensures LoadedAt(h, k, Resident(Fifo, h)[k])
  {
    hide Resident, Touch;
    var n, x := |h| - 1, h[|h| - 1];
    var g := h[..n];
    assert Append(g, x) == h;
    ResidentNext(Fifo, g, x);
    var t := Resident(Fifo, h)[k];
    FifoTouch(Resident(Fifo, g), x, n, k);
    if k in Resident(Fifo, g) && Resident(Fifo, g)[k] == t {
      FifoMeaning(g, k);
      forall j | t < j <= |h| ensures StaysAt(h, k, t, j) {
        if j < |h| {
          assert StaysAt(g, k, t, j) && g[..j] == h[..j];
        } else {
          assert h[..j] == h;
        }
      }
      assert g[..t] == h[..t];
    } else {
      assert h[..|h|] == h && StaysAt(h, k, t, |h|);
    }
  }

  lemma FifoTouch(r: map<Ref, nat>, x: Ref, t: nat, k: Ref)
    requires k in Touch(Fifo, r, x, t)
    ensures (k in r && Touch(Fifo, r, x, t)[k] == r[k]) || (k == x && k !in r && Touch(Fifo, r, x, t)[k] == t)
  {
  }

  ghost predicate StaysAt(h: seq<Ref>, k: Ref, t: nat, j: nat) {
    j <= |h| && k in Resident(Fifo, h[..j]) && Resident(Fifo, h[..j])[k] == t
  }

  /** Page k was loaded by access t of h and has been resident ever since. */
  ghost predicate LoadedAt(h: seq<Ref>, k: Ref, t: nat) {
    && t < |h| && h[t] == k && k !in Resident(Fifo, h[..t])
    && forall j :: t < j <= |h| ==> StaysAt(h, k, t, j)
  }

  // ----- the limit NUM_MAX

  /** With every resident counter at NUM_MAX or more the victim search finds nothing, and what is put
      into secondary memory is whatever rem_memory held: for `junk` naming x itself, x ends up in
      both memories or not in primary memory. */
  lemma {:induction false} FailsAtMax(s: State, mode: Mode, h: seq<Ref>, x: Ref, junk: Mem)
    requires Inv(s, mode, h) && ValidRef(x) && Running(s) && NeedsVictim(s, x) && !BelowMax(s, mode) && Key(junk) == x
    ensures !Inv(Access(s, x, mode, junk), mode, Append(h, x))
  {
    CreateKeeps(s, mode, h, x);
    var u := Create(s, x.pid);
    InvFacts(u, FindFree(u.primary), FindFree(u.secondary), mode, h, x);
    assert MinSlot(u.primary, mode).0 == |u.primary|;
    hide Inv, Modify;
    JunkStored(u, x, mode, junk);
    var t := Modify(u, x, mode, junk);
    if Inv(t, mode, Append(h, x)) { NotInBoth(t, mode, h, x); }
  }

  lemma {:induction false} JunkStored(u: State, x: Ref, mode: Mode, junk: Mem)
    requires FindRef(u.primary, x) == FindFree(u.primary) == MinSlot(u.primary, mode).0 == |u.primary|
    requires FindFree(u.secondary) < |u.secondary| && Key(junk) == x
    ensures var t := Modify(u, x, mode, junk); OnSlot(t.secondary, |t.secondary|, x)
  {
    hide FindRef, FindFree, MinSlot, FindCounter, SetEntry;
    var t := Modify(u, x, mode, junk);
    var i := if FindRef(u.secondary, x) < |u.secondary| then FindRef(u.secondary, x) else FindFree(u.secondary);
    assert Key(t.secondary[i]) == x;
  }

  lemma {:induction false} NotInBoth(t: State, mode: Mode, h: seq<Ref>, x: Ref)
    requires Inv(t, mode, Append(h, x)) && ValidRef(x)
    ensures !OnSlot(t.secondary, |t.secondary|, x)
  {
    hide Stamped, Untouched, Located, Kept, FindFree;
    ResidentNext(mode, h, x);
    PrimaryIsResident(t, mode, Append(h, x), x);
    OnlyUsed(t.primary, FindFree(t.primary), x);
    OnlyUsed(t.secondary, FindFree(t.secondary), x);
  }

  /** An access that needs a victim is right for every value rem_memory may hold if and only if some
      resident counter is below NUM_MAX. */
  lemma {:induction false} RightExactlyWhen(s: State, mode: Mode, h: seq<Ref>, x: Ref)
    requires Inv(s, mode, h) && ValidRef(x) && Running(s) && NeedsVictim(s, x)
    ensures (forall junk :: Inv(Access(s, x, mode, junk), mode, Append(h, x))) <==> BelowMax(s, mode)
  {
    assert |s.tables| == MAX_PROCESS;
    hide Inv, Running, Access, NeedsVictim, BelowMax, Append;
    if BelowMax(s, mode) {
      forall junk ensures Inv(Access(s, x, mode, junk), mode, Append(h, x)) { AccessKeeps(s, mode, h, x, junk); }
    } else {
      var junk := Mem(x.pid, x.page, 0, 0);
      FailsAtMax(s, mode, h, x, junk);
      assert !Inv(Access(s, x, mode, junk), mode, Append(h, x));
    }
  }

  predicate AboveMax(s: State, mode: Mode) { forall i :: 0 <= i < |s.primary| ==> Ctr(mode, s.primary[i]) > NUM_MAX }

  lemma NothingReplaced(u: State, x: Ref, mode: Mode, junk: Mem)
    requires FindRef(u.primary, x) == FindFree(u.primary) == |u.primary| && AboveMax(u, mode)
    ensures Modify(u, x, mode, junk).primary == u.primary
  {
    hide FindRef, FindFree, MinSlot, FindCounter, SetEntry;
    assert MinSlot(u.primary, mode) == (|u.primary|, NUM_MAX);
  }

  /** With every resident counter above NUM_MAX no slot is replaced, so the page accessed never gets
      into primary memory: the access is wrong whatever rem_memory held. */
  lemma {:induction false} StuckAboveMax(s: State, mode: Mode, h: seq<Ref>, x: Ref, junk: Mem)
    requires Inv(s, mode, h) && ValidRef(x) && NeedsVictim(s, x) && AboveMax(s, mode)
    ensures |s.tables| == MAX_PROCESS && !Inv(Access(s, x, mode, junk), mode, Append(h, x))
  {
    assert |s.tables| == MAX_PROCESS;
    CreateKeeps(s, mode, h, x);
    hide Inv, Create, Modify, FindRef, FindFree;
    NothingReplaced(Create(s, x.pid), x, mode, junk);
    var t := Access(s, x, mode, junk);
    assert !OnSlot(t.primary, |t.primary|, x);
    if Inv(t, mode, Append(h, x)) { NowResident(t, mode, h, x); }
  }

  lemma {:induction false} NowResident(t: State, mode: Mode, h: seq<Ref>, x: Ref)
    requires Inv(t, mode, Append(h, x)) && ValidRef(x)
    ensures OnSlot(t.primary, |t.primary|, x)
  {
    hide Inv;
    ResidentNext(mode, h, x);
    PrimaryIsResident(t, mode, Append(h, x), x);
  }
}
