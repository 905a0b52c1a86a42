/** The arrays, counters and loops of the paging simulator (lab-07/sim.c), proved against PagingSim. */
module PagingRun {
  import opened PagingSim

  // ----- the search loops

  method SearchRef(mem: array<Mem>, x: Ref) returns (i: nat)
    ensures i == FindRef(mem[..], x)
  {
    i := 0;
    while i < mem.Length
      invariant i <= mem.Length && forall j :: 0 <= j < i ==> Key(mem[j]) != x
    {
      if mem[i].process == x.pid && mem[i].page == x.page { break; }
      i := i + 1;
    }
    assert forall j :: 0 <= j < mem.Length ==> mem[..][j] == mem[j];
  }

  method SearchFree(mem: array<Mem>) returns (i: nat)
    ensures i == FindFree(mem[..])
  {
    i := 0;
    while i < mem.Length
      invariant i <= mem.Length && forall j :: 0 <= j < i ==> mem[j].process != -1
    {
      if mem[i].process == -1 { break; }
      i := i + 1;
    }
    assert forall j :: 0 <= j < mem.Length ==> mem[..][j] == mem[j];
  }

  method SearchCounter(mem: array<Mem>, mode: Mode, cont: int) returns (i: nat)
    ensures i == FindCounter(mem[..], mode, cont)
  {
    i := 0;
    while i < mem.Length
      invariant i <= mem.Length && forall j :: 0 <= j < i ==> Ctr(mode, mem[j]) != cont
    {
      if Ctr(mode, mem[i]) == cont { break; }
      i := i + 1;
    }
    assert forall j :: 0 <= j < mem.Length ==> mem[..][j] == mem[j];
  }

  /** The victim search; `junk` is what rem_memory held before. */
  method SearchVictim(mem: array<Mem>, mode: Mode, junk: Mem) returns (cont: int, rem: Mem)
    ensures cont == MinSlot(mem[..], mode).1
    ensures rem == if MinSlot(mem[..], mode).0 < mem.Length then mem[MinSlot(mem[..], mode).0] else junk
  {
    cont, rem := NUM_MAX, junk;
    var i := 0;
    while i < mem.Length
      invariant 0 <= i <= mem.Length
      invariant var r := MinSlot(mem[..i], mode); cont == r.1 && rem == if r.0 < i then mem[r.0] else junk
    {
      assert mem[..i + 1][..i] == mem[..i];
      if Ctr(mode, mem[i]) < cont {
        cont, rem := Ctr(mode, mem[i]), mem[i];
      }
      i := i + 1;
    }
    assert mem[..i] == mem[..];
  }

  // ----- the simulator

  lemma Lengths(s: State, mode: Mode, h: seq<Ref>)
    requires Inv(s, mode, h)
    ensures |s.primary| == TAM_PRIMARY && |s.secondary| == TAM_SECONDARY && |s.tables| == MAX_PROCESS
  {
  }

  /** The pages whose entries an exchange writes are in the tables. */
  ghost predicate InRange(s: State, x: Ref, mode: Mode, junk: Mem) {
    RowsOk(s.tables) && ValidRef(x) && ValidRef(Key(Victim(s, mode, junk)))
  }

  lemma RowsRange(tables: seq<Proc>, x: Ref)
    requires RowsOk(tables) && ValidRef(x)
    ensures 0 <= x.pid < |tables| && 1 <= x.page <= |tables[x.pid].pages|
  {
  }

  lemma ReplaceKeepsRows(s: State, x: Ref, mode: Mode)
    requires RowsOk(s.tables) && ValidRef(x)
    ensures RowsOk(Replace(s, x, mode).tables)
  {
    hide MinSlot, FindCounter;
  }

  /** The branch modify_process takes. */
  lemma {:induction false} ModifyIs(s: State, mode: Mode, h: seq<Ref>, x: Ref, junk: Mem)
    requires Inv(s, mode, h) && Ready(s, x) && Running(s) && (NeedsVictim(s, x) ==> BelowMax(s, mode))
    ensures |s.primary| == TAM_PRIMARY && |s.secondary| == TAM_SECONDARY
    ensures 0 <= x.pid < |s.tables| && 1 <= x.page <= |s.tables[x.pid].pages|
    ensures var i, f := FindRef(s.secondary, x), FindFree(s.primary);
      if FindRef(s.primary, x) < TAM_PRIMARY then i == TAM_SECONDARY && Modify(s, x, mode, junk) == Hit(s, x)
      else
        && Hit(s, x) == s
        && (if i < TAM_SECONDARY then Modify(s, x, mode, junk) == Swap(s, x, i, mode, junk) && InRange(s, x, mode, junk)
            else if f < TAM_PRIMARY then Modify(s, x, mode, junk) == Fill(s, x, f)
            else Modify(s, x, mode, junk) == Evict(s, x, mode, junk) && InRange(s, x, mode, junk))
  {
    hide Stamped, Kept, Located, Untouched, Apart, FindRef, FindFree, MinSlot, Evict, Swap, Fill;
    InvFacts(s, FindFree(s.primary), FindFree(s.secondary), mode, h, x);
    if NeedsVictim(s, x) { assert ValidRef(Key(s.primary[MinSlot(s.primary, mode).0])); }
  }

  class Simulator {
    const mode: Mode
    const primary: array<Mem>
    const secondary: array<Mem>
    const processes: array<Proc>
    var contFifo: int
    var contLru: int
    ghost var history: seq<Ref>

    ghost function Now(): State
      reads this, primary, secondary, processes
    {
      State(primary[..], secondary[..], processes[..], contFifo, contLru)
    }

    ghost predicate Valid()
      reads this, primary, secondary, processes
    {
      primary != secondary && Inv(Now(), mode, history)
    }

    /** The globals, and main up to its loop. */
    constructor (option: Mode)
      ensures Valid() && fresh(primary) && fresh(secondary) && fresh(processes)
      ensures mode == option && history == [] && Initial(Now())
    {
      mode := option;
      primary := new Mem[TAM_PRIMARY](_ => Mem(-1, 0, 0, 0));
      secondary := new Mem[TAM_SECONDARY](_ => Mem(-1, 0, 0, 0));
      processes := new Proc[MAX_PROCESS](_ => Proc(0, seq(TAM_PROCESS, _ => 0), false));
      contFifo, contLru := 0, 0;
      history := [];
      new;
      InitialInv(Now(), mode);
    }

    /** Writing a page-table entry. */
    method Point(x: Ref, v: int)
      requires 0 <= x.pid < processes.Length && 1 <= x.page <= |processes[x.pid].pages|
      modifies processes
      ensures Now() == old(Now()).(tables := SetEntry(old(Now()).tables, x, v))
    {
      var p := processes[x.pid];
      processes[x.pid] := p.(pages := p.pages[x.page - 1 := v]);
    }

    /** The first loop of modify_process. */
    method HitPrimary(x: Ref) returns (pass: bool)
      requires primary != secondary
      modifies this`contLru, primary
      ensures Now() == Hit(old(Now()), x)
      ensures pass == (FindRef(old(Now()).primary, x) < primary.Length)
    {
      hide FindRef;
      var i := SearchRef(primary, x);
      pass := i < primary.Length;
      if pass {
        primary[i] := primary[i].(lru := contLru);
        contLru := contLru + 1;
      }
    }

    /** The free-slot branch. */
    method FillSlot(x: Ref, i: nat)
      requires primary != secondary && i < primary.Length
      requires 0 <= x.pid < processes.Length && 1 <= x.page <= |processes[x.pid].pages|
      modifies this, primary, processes
      ensures Now() == Fill(old(Now()), x, i) && history == old(history)
    {
      primary[i] := primary[i].(process := x.pid, page := x.page);
      Point(x, i);
      primary[i] := primary[i].(fifo := contFifo);
      contFifo := contFifo + 1;
      primary[i] := primary[i].(lru := contLru);
      contLru := contLru + 1;
    }

    /** The loop that gives the victim's slot to page x. */
    method ReplaceSlot(x: Ref, cont: int)
      requires primary != secondary && cont == MinSlot(primary[..], mode).1
      requires 0 <= x.pid < processes.Length && 1 <= x.page <= |processes[x.pid].pages|
      modifies this, primary, processes
      ensures Now() == Replace(old(Now()), x, mode) && history == old(history)
    {
      hide MinSlot, FindCounter, SetEntry;
      var j := SearchCounter(primary, mode, cont);
      if j < primary.Length {
        primary[j] := Put(primary[j], x, mode, if mode.Fifo? then contFifo else contLru);
        if mode.Fifo? { contFifo := contFifo + 1; } else { contLru := contLru + 1; }
        Point(x, j);
      }
    }

    /** Page v into slot i of secondary memory. */
    method StoreSlot(i: nat, v: Mem)
      requires primary != secondary && i < secondary.Length
      requires 0 <= v.process < processes.Length && 1 <= v.page <= |processes[v.process].pages|
      modifies secondary, processes
      ensures Now() == Store(old(Now()), i, v, mode)
    {
      hide SetEntry;
      secondary[i] := Put(secondary[i], Key(v), mode, Ctr(mode, v));
      Point(Key(v), i);
    }

    method EvictPage(x: Ref, junk: Mem)
      requires primary != secondary && InRange(Now(), x, mode, junk)
      modifies this, primary, secondary, processes
      ensures Now() == Evict(old(Now()), x, mode, junk) && history == old(history)
    {
      hide MinSlot, FindCounter, FindFree, SetEntry, RowsOk, Put;
      var cont, rem := SearchVictim(primary, mode, junk);
      RowsRange(Now().tables, x);
      ReplaceKeepsRows(Now(), x, mode);
      ReplaceSlot(x, cont);
      RowsRange(Now().tables, Key(rem));
      var i := SearchFree(secondary);
      if i < secondary.Length {
        StoreSlot(i, rem);
      }
    }

    method SwapPage(x: Ref, i: nat, junk: Mem)
      requires primary != secondary && InRange(Now(), x, mode, junk) && i < secondary.Length
      modifies this, primary, secondary, processes
      ensures Now() == Swap(old(Now()), x, i, mode, junk) && history == old(history)
    {
      hide MinSlot, FindCounter, FindFree, SetEntry, RowsOk, Put;
      var cont, rem := SearchVictim(primary, mode, junk);
      RowsRange(Now().tables, Key(rem));
      EntryAfter(Now().tables, Key(rem), i, x);
      StoreSlot(i, rem);
      RowsRange(Now().tables, x);
      ReplaceSlot(x, cont);
    }

    /** modify_process. */
    method ModifyProcess(x: Ref, junk: Mem)
      requires Valid() && Ready(Now(), x) && Running(Now()) && (NeedsVictim(Now(), x) ==> BelowMax(Now(), mode))
      modifies this, primary, secondary, processes
      ensures Now() == Modify(old(Now()), x, mode, junk) && history == old(history) + [x]
      ensures Valid()
    {
      hide Inv, FindRef, FindFree, Evict, Swap, Fill, Running, BelowMax, Hit, Modify, Ready, NeedsVictim, InRange;
      ghost var before := Now();
      ModifyKeeps(before, mode, history, x, junk);
      ModifyIs(before, mode, history, x, junk);
      var pass := HitPrimary(x);
      var i := SearchRef(secondary, x);
      var between := i < secondary.Length;
      if !pass && !between {
        var f := SearchFree(primary);
        if f < primary.Length {
          FillSlot(x, f);
        } else {
          EvictPage(x, junk);
        }
      }
      if between {
        SwapPage(x, i, junk);
      }
      history := history + [x];
      assert history == Append(old(history), x);
    }

    /** create_process, when main finds no row with the pid. */
    method CreateProcess(pid: int)
      requires 1 <= pid < processes.Length
      modifies processes
      ensures Now() == Create(old(Now()), pid)
    {
      var create, i := true, 0;
      while i < processes.Length
        invariant 0 <= i <= processes.Length && (create <==> forall j :: 0 <= j < i ==> processes[j].pid != pid)
      {
        if processes[i].pid == pid { create := false; }
        i := i + 1;
      }
      assert Known(processes[..], pid) == !create;
      if create {
        processes[pid] := Proc(pid, seq(TAM_PROCESS, _ => -1), true);
      }
    }

    /** One turn of main's loop: `done` when the program writes its report and exits. */
    method Step(x: Ref, junk: Mem) returns (done: bool)
      requires Valid() && ValidRef(x) && Running(Now()) && (NeedsVictim(Now(), x) ==> BelowMax(Now(), mode))
      modifies this, primary, secondary, processes
      ensures Valid() && history == old(history) + [x]
      ensures processes.Length == MAX_PROCESS && Now() == Access(old(Now()), x, mode, junk)
      ensures done == !Running(Now())
    {
      assert processes.Length == MAX_PROCESS;
      CreateKeeps(Now(), mode, history, x);
      hide Inv, InvAt, Create, Modify, Ready, FindRef, FindFree;
      CreateProcess(x.pid);
      ModifyProcess(x, junk);
      assert secondary.Length == TAM_SECONDARY by { Lengths(Now(), mode, history); }
      done := secondary[TAM_SECONDARY - 1].process != -1;
    }
  }
}
