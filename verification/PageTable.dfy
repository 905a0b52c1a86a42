/** The page allocator (xv6/kalloc.c) and the page-table code (xv6/vm.c) on physical memory. Frames
    stand for their kernel addresses; kalloc's null is frame 0, which is in the kernel image. */
module PageTable {
  import opened Common
  import opened PageOwner
  import opened PageView
  import opened PageCopy
  import opened PageCount

  /** The kernel address of a frame. */
  function P2V(f: nat): nat { KERNBASE + f * PGSIZE }

  /** Following `next` words from `head` visits the frames of `free` in order. */
  ghost predicate Links(mem: seq<seq<nat>>, head: nat, free: seq<nat>)
    decreases |free|
  {
    if free == [] then head == 0
    else
      && head == P2V(free[0]) && free[0] < |mem| && |mem[free[0]]| == NENTRIES
      && Links(mem, mem[free[0]][0], free[1..])
  }

  /** The free list is exactly the free frames, each once; frames from `first` on can be allocated. */
  ghost predicate FreeOk(mem: seq<seq<nat>>, own: seq<Owner>, first: nat, head: nat, free: seq<nat>) {
    && |own| == |mem| && 0 < first
    && (forall i, j :: 0 <= i < j < |free| ==> free[i] != free[j])
    && (forall f {:trigger own[f]} :: 0 <= f < |own| ==>
        (own[f].Free? <==> f in free) && (own[f].Kernel? || first <= f))
    && (forall i :: 0 <= i < |free| ==> free[i] < |own|)
    && Links(mem, head, free)
  }

  lemma {:induction false} LinksKeep(mem: seq<seq<nat>>, head: nat, free: seq<nat>, f: nat, page: seq<nat>)
    requires Links(mem, head, free) && f < |mem| && f !in free
    ensures Links(mem[f := page], head, free)
    decreases |free|
  {
    if free != [] { LinksKeep(mem, mem[free[0]][0], free[1..], f, page); }
  }

  /** Writing a page that is not free. */
  lemma {:induction false} FreeKeepsPage(mem: seq<seq<nat>>, own: seq<Owner>, first: nat, head: nat, free: seq<nat>,
                                         f: nat, page: seq<nat>)
    requires FreeOk(mem, own, first, head, free) && f < |mem| && !own[f].Free?
    ensures FreeOk(mem[f := page], own, first, head, free)
  {
    LinksKeep(mem, head, free, f, page);
  }

  /** Changing the owner of a page that is not free. */
  lemma FreeKeepsOwner(mem: seq<seq<nat>>, own: seq<Owner>, first: nat, head: nat, free: seq<nat>, f: nat, o: Owner)
    requires FreeOk(mem, own, first, head, free) && f < |mem| && !own[f].Free? && !own[f].Kernel? && !o.Free?
    ensures FreeOk(mem, own[f := o], first, head, free)
  {
    var here := own[f];
  }

  lemma {:induction false} PushFree(mem: seq<seq<nat>>, own: seq<Owner>, first: nat, head: nat, free: seq<nat>,
                                    f: nat, page: seq<nat>)
    requires FreeOk(mem, own, first, head, free) && f < |mem| && own[f].Held?
    requires |page| == NENTRIES && page[0] == head
    ensures FreeOk(mem[f := page], own[f := Free], first, P2V(f), [f] + free)
  {
    LinksKeep(mem, head, free, f, page);
    assert ([f] + free)[1..] == free;
    assert f !in free;
  }

  lemma {:induction false} PopFree(mem: seq<seq<nat>>, own: seq<Owner>, first: nat, head: nat, free: seq<nat>)
    requires FreeOk(mem, own, first, head, free) && head != 0
    ensures free != [] && head == P2V(free[0]) && first <= free[0] < |mem|
    ensures own[free[0]].Free? && |mem[free[0]]| == NENTRIES
    ensures FreeOk(mem, own[free[0] := Held], first, mem[free[0]][0], free[1..])
  {
    var f := free[0];
    assert own[f].Free? && f !in free[1..];
    forall g {:trigger own[f := Held][g]} | 0 <= g < |own| ensures own[f := Held][g].Free? <==> g in free[1..] {
      if g != f && g in free { assert g in free[1..]; }
    }
  }

  lemma BornFacts(s: Vm, t: Vm, d: nat)
    requires Born(s, t, d)
    ensures Tree(t) && Shape(t) && d < |t.mem| == |t.own| && t.own[d].Dir?
  {
  }

  lemma CopiedFacts(s: Vm, t: Vm, src: nat, d: nat, data: nat, a: nat)
    requires Copied(s, t, src, d, data, a)
    ensures Tree(t) && Shape(t) && Born(s, t, d) && src < |t.mem| == |t.own|
    ensures d < |t.mem| && t.own[d].Dir? && t.own[src].Dir?
    ensures a < USERPAGES ==> !Present(Pte(t, d, a)) && Pte(t, src, a) == Pte(s, src, a)
    ensures a < USERPAGES && Present(Pte(s, src, a)) ==>
      Frame(Pte(s, src, a)) < |s.mem| && t.mem[Frame(Pte(s, src, a))] == s.mem[Frame(Pte(s, src, a))]
  {
    assert t.own[src] == s.own[src];
    if a < USERPAGES {
      SourceStays(s, t, src, d, a);
      KWordUser(data, 4, a);
    }
  }

  lemma SourceEntry(t: Vm, src: nat, v: nat, tab: nat, found: bool)
    requires Tree(t) && src < |t.mem| && t.own[src].Dir? && v < USERPAGES && Present(Pte(t, src, v))
    requires found <==> Present(t.mem[src][Pdx(v)])
    requires found ==> tab < |t.mem| && t.own[tab] == Table(src, Pdx(v))
    ensures found && t.mem[tab][Ptx(v)] == Pte(t, src, v) && |t.mem[tab]| == NENTRIES && Frame(Pte(t, src, v)) < |t.mem|
    ensures |t.mem[Frame(Pte(t, src, v))]| == NENTRIES
  {
    TableAt(t, src, Pdx(v), if found then tab else src);
    LeafAt(t, src, v, Frame(Pte(t, src, v)));
  }

  lemma AllocatedFacts(s: Vm, t: Vm, d: nat, lo: nat, a: nat, hi: nat)
    requires Allocated(s, t, d, lo, a)
    ensures Tree(t) && Shape(t) && d < |t.mem| && t.own[d].Dir?
    ensures lo <= a < hi <= PAGES && RangeFree(s, d, lo, hi) ==> !Present(Pte(t, d, a))
  {
    if lo <= a < hi <= PAGES { assert Pte(t, d, a) == Pte(s, d, a); }
  }

  lemma GaveUpAt(s: Vm, t: Vm, d: nat, lo: nat, a: nat)
    requires Allocated(s, t, d, lo, a)
    ensures GaveUp(s, t, d, lo, a, {})
  {
  }

  lemma GaveUpFacts(s: Vm, t: Vm, d: nat, lo: nat, a: nat, loose: set<nat>)
    requires GaveUp(s, t, d, lo, a, loose)
    ensures Tree(t) && d < |t.mem| && t.own[d].Dir?
  {
  }

  lemma FailedFacts(s: Vm, t: Vm, d: nat, lo: nat, hi: nat, loose: set<nat>)
    requires AllocFailed(s, t, d, lo, hi, loose)
    ensures Tree(t) && |t.mem| == |t.own| == |s.own|
    ensures forall f :: f in loose && f < |s.own| && s.own[f].Free? ==> t.own[f].Held?
  {
    assert forall f :: 0 <= f < |t.own| ==> t.own[f] == t.own[f];
  }

  lemma FreeingFacts(c: Vm, t: Vm, d: nat, i: nat)
    requires Freeing(c, t, d, i)
    ensures Tree(t) && d < |t.mem| == |c.mem| == |t.own| && t.mem[d] == c.mem[d] && |t.mem[d]| == NENTRIES
  {
    assert t.own[d].Held?;
  }

  lemma {:induction false} FreeKeepsDetach(mem: seq<seq<nat>>, own: seq<Owner>, first: nat, head: nat, free: seq<nat>,
                                           d: nat)
    requires FreeOk(mem, own, first, head, free) && d < |own| && own[d].Dir?
    ensures FreeOk(mem, Detach(own, d), first, head, free)
  {
    forall f {:trigger Detach(own, d)[f]} | 0 <= f < |own|
      ensures (Detach(own, d)[f].Free? <==> f in free) && (Detach(own, d)[f].Kernel? || first <= f)
    {
      var here := own[f];
    }
  }

  lemma CanFreeFacts(s: Vm, d: nat, v: nat, t: nat)
    requires CanFree(s, d, v, t)
    ensures t < |s.mem| == |s.own| && |s.mem[t]| == NENTRIES && s.own[t].Table?
  {
  }

  lemma ClearedTree(s: Vm, c: Vm, d: nat, lo: nat, hi: nat)
    requires Cleared(s, c, d, lo, hi)
    ensures Tree(c)
  {
  }

  lemma ClearedFacts(s: Vm, c: Vm, d: nat, lo: nat, v: nat)
    requires Cleared(s, c, d, lo, v)
    ensures Tree(c) && |c.mem| == |s.mem| == |c.own| && d < |c.mem| && c.own[d].Dir?
    ensures forall f :: 0 <= f < |c.mem| ==> |c.mem[f]| == NENTRIES
  {
  }

  lemma CanFreeIs(c: Vm, d: nat, v: nat, t: nat)
    requires Tree(c) && d < |c.mem| && c.own[d].Dir? && v < USERPAGES && t < |c.mem|
    requires c.own[t] == Table(d, Pdx(v)) && Present(c.mem[t][Ptx(v)])
    ensures CanFree(c, d, v, t)
  {
  }

  lemma {:induction false} SkipTable(s: Vm, c: Vm, d: nat, lo: nat, v: nat, v': nat)
    requires Cleared(s, c, d, lo, v) && lo <= v < v' <= USERPAGES && v' <= (v / 1024 + 1) * 1024
    requires !Present(c.mem[d][Pdx(v)])
    ensures Cleared(s, c, d, lo, v')
  {
    ClearedFacts(s, c, d, lo, v);
    hide Tree, Pte, Cleared;
    ShapeOf(c);
    forall w {:trigger Pte(c, d, w)} | v <= w < v' ensures !Present(Pte(c, d, w)) { NoTable(c, d, v, w); }
    ClearedSkip(s, c, d, lo, v, v');
  }

  lemma {:induction false} SkipPage(s: Vm, c: Vm, d: nat, lo: nat, v: nat, t: nat)
    requires Cleared(s, c, d, lo, v) && lo <= v < USERPAGES
    requires t < |c.mem| && c.own[t] == Table(d, Pdx(v)) && !Present(c.mem[t][Ptx(v)])
    ensures Cleared(s, c, d, lo, v + 1)
  {
    ClearedFacts(s, c, d, lo, v);
    TableAt(c, d, Pdx(v), t);
    ClearedSkip(s, c, d, lo, v, v + 1);
  }

  lemma CanMapFacts(s: Vm, d: nat, v: nat, t: nat, f: nat, perm: nat)
    requires CanMap(s, d, v, t, f, perm)
    ensures t < |s.mem| == |s.own| && |s.mem[t]| == NENTRIES && s.own[t].Table?
    ensures v < USERPAGES ==> f < |s.mem| && s.own[f].Held?
  {
  }

  lemma ProgressFacts(s: Vm, t: Vm, d: nat, a: nat, n: nat, pa: nat, perm: nat)
    requires Progress(s, t, d, a, n, pa, perm)
    ensures Tree(t) && d < |t.mem| == |s.mem| && t.own[d].Dir?
  {
  }

  lemma TablePresent(s: Vm, d: nat, i: nat)
    requires Tree(s) && d < |s.mem| && s.own[d].Dir? && i < NENTRIES && Present(s.mem[d][i])
    ensures Frame(s.mem[d][i]) < |s.mem| && s.own[Frame(s.mem[d][i])] == Table(d, i)
  {
    assert SlotOk(s, d, i);
  }

  /** Storing a page-table entry does not touch the directory. */
  lemma SameDir(s: Vm, d: nat, v: nat, t: nat, f: nat, perm: nat)
    requires CanMap(s, d, v, t, f, perm)
    ensures d < |s.mem| && MapOne(s, v, t, f, perm).mem[d] == s.mem[d]
  {
    hide Tree, Pte;
  }

  lemma PaidEnough(was: seq<nat>, now: seq<nat>, lo: nat, a: nat, n: nat, m: nat)
    requires Paid(was, now, lo, a, n, m)
    ensures |was| == NENTRIES && a <= PAGES && n >= Tables(was, lo, a)
  {
  }

  lemma SpentEnough(was: seq<nat>, now: seq<nat>, lo: nat, a: nat, n: nat, m: nat)
    requires Spent(was, now, lo, a, n, m)
    ensures |was| == NENTRIES && a <= PAGES && n == m + Frames(was, lo, a)
  {
  }

  // ----- what setupkvm takes

  /** The directory, 56 page tables for physical memory and 8 for the devices. */
  const KVMTABLES: nat := 64

  /** The directory entries that the first k entries of the kernel's table need end here. */
  function KernelEnd(data: nat, k: nat): nat
    requires GoodData(data)
  {
    if k == 0 then USER else if k == 1 then USER + 1 else if k == 2 then Pdx(data / PGSIZE - 1) + 1 else 568
  }

  /** Exactly those are present, and m of n frames are left. */
  ghost predicate KernelDir(dir: seq<nat>, data: nat, k: nat, n: nat, m: nat)
    requires GoodData(data) && k <= 4
  {
    && |dir| == NENTRIES && n == m + (KernelEnd(data, k) - USER) + (if k == 4 then 8 else 0)
    && forall i {:trigger dir[i]} :: 0 <= i < NENTRIES ==>
         (Present(dir[i]) <==> USER <= i < KernelEnd(data, k) || (k == 4 && 1016 <= i))
  }

  /** Where the directory entries of entry k lie: next to those of the entries before, but for the
      devices. */
  lemma {:induction false} KernelSpan(data: nat, k: nat)
    requires GoodData(data) && k < 4
    ensures var lo := StartOf(data, k);
            var i, j := Pdx(lo), End(lo, lo + CountOf(data, k));
            if k == 3 then i == 1016 && j == NENTRIES
            else USER <= i <= KernelEnd(data, k) <= j && j == KernelEnd(data, k + 1) <= 568
  {
    DataRange(data);
    var lo, n := StartOf(data, k), CountOf(data, k);
    hide Pdx, StartOf, CountOf;
    assert 0 < n && lo + n <= PAGES;
  }

  lemma {:induction false} KernelDirStep(dir: seq<nat>, dir': seq<nat>, data: nat, k: nat, n: nat, m: nat, m': nat)
    requires GoodData(data) && k < 4 && KernelDir(dir, data, k, n, m)
    requires Paid(dir, dir', StartOf(data, k), StartOf(data, k) + CountOf(data, k), m, m')
    ensures KernelDir(dir', data, k + 1, n, m')
  {
    KernelTables(dir, data, k, n, m);
    KernelSpan(data, k);
    hide Pdx, StartOf, CountOf, Absent;
    forall i {:trigger dir'[i]} | 0 <= i < NENTRIES
      ensures Present(dir'[i]) <==> USER <= i < KernelEnd(data, k + 1) || (k == 3 && 1016 <= i)
    {
      var x := dir[i];
    }
  }

  lemma {:induction false} KernelAbsent(dir: seq<nat>, data: nat, k: nat, n: nat, m: nat, i: nat, j: nat)
    requires GoodData(data) && k < 4 && KernelDir(dir, data, k, n, m)
    requires if k == 3 then i == 1016 && j == NENTRIES
             else USER <= i <= KernelEnd(data, k) <= j && j == KernelEnd(data, k + 1) <= 568
    ensures Absent(dir, i, j) == if k == 3 then 8 else KernelEnd(data, k + 1) - KernelEnd(data, k)
  {
    assert KernelEnd(data, 3) == 568;
    hide Absent, KernelEnd;
    if k == 3 {
      AllAbsent(dir, i, j);
    } else {
      AbsentFrom(dir, i, KernelEnd(data, k), j);
    }
  }

  /** What entry k takes. */
  lemma {:induction false} KernelTables(dir: seq<nat>, data: nat, k: nat, n: nat, m: nat)
    requires GoodData(data) && k < 4 && KernelDir(dir, data, k, n, m)
    ensures StartOf(data, k) + CountOf(data, k) <= PAGES
    ensures Tables(dir, StartOf(data, k), StartOf(data, k) + CountOf(data, k)) ==
            if k == 3 then 8 else KernelEnd(data, k + 1) - KernelEnd(data, k)
  {
    KernelSpan(data, k);
    var lo, hi := StartOf(data, k), StartOf(data, k) + CountOf(data, k);
    hide Pdx, StartOf, CountOf, Absent, KernelEnd, End, KernelDir;
    KernelAbsent(dir, data, k, n, m, Pdx(lo), End(lo, hi));
  }

  lemma {:induction false} KernelShort(dir: seq<nat>, data: nat, k: nat, n: nat, m: nat)
    requires GoodData(data) && k < 4 && KernelDir(dir, data, k, n, m)
    requires m < if k == 3 then 8 else KernelEnd(data, k + 1) - KernelEnd(data, k)
    ensures n < KVMTABLES
  {
    KernelSpan(data, k);
    hide Pdx;
  }

  lemma EmptyKernelDir(data: nat, n: nat)
    requires GoodData(data)
    ensures KernelDir(Zeros(), data, 0, n, n)
  {
  }

  lemma KernelCost(dir: seq<nat>, data: nat, n: nat, m: nat)
    requires GoodData(data) && KernelDir(dir, data, 4, n, m)
    ensures n == m + KVMTABLES && |dir| == NENTRIES && forall i :: 0 <= i < USER ==> !Present(dir[i])
  {
  }

  /** memset(v, 1, PGSIZE), by words. */
  function Junk(): (page: seq<nat>)
    ensures |page| == NENTRIES && forall i :: 0 <= i < NENTRIES ==> page[i] == 0x0101_0101
  {
    seq(NENTRIES, _ => 0x0101_0101)
  }

  class Machine {
    /** Physical memory, a frame at a time. */
    const mem: array<seq<nat>>
    /** The first frame after the kernel image. */
    const first: nat
    /** kmem.freelist: a kernel address, 0 at the end. */
    var freelist: nat
    ghost var own: seq<Owner>
    ghost var free: seq<nat>

    ghost function Now(): Vm
      reads this, mem
    {
      Vm(mem[..], own)
    }

    ghost predicate Lists()
      reads this, mem
    {
      FreeOk(mem[..], own, first, freelist, free)
    }

    ghost predicate Valid()
      reads this, mem
    {
      Lists() && Tree(Now())
    }

    /** Memory with the kernel image in its first frames and nothing on the free list. */
    constructor (frames: nat, kernel: nat)
      requires 0 < kernel
      ensures Valid() && fresh(mem) && mem.Length == frames && first == kernel && free == []
      ensures forall f {:trigger own[f]} :: 0 <= f < frames ==> own[f] == if f < kernel then Kernel else Held
    {
      mem := new seq<nat>[frames](_ => Zeros());
      first := kernel;
      freelist := 0;
      own := seq(frames, f => if f < kernel then Kernel else Held);
      free := [];
      new;
      assert forall f :: 0 <= f < frames ==> Now().mem[f] == Zeros();
      forall f, k {:trigger SlotOk(Now(), f, k)} | 0 <= f < frames && 0 <= k < NENTRIES ensures SlotOk(Now(), f, k) {}
      forall f {:trigger FrameOk(Now(), f)} | 0 <= f < frames ensures FrameOk(Now(), f) {}
    }

    /** kfree; its panic is for frames outside [first, PHYSTOP). */
    method KFree(f: nat)
      requires Lists() && f < mem.Length && own[f].Held?
      modifies this, mem
      ensures Lists() && own == old(own)[f := Free] && free == [f] + old(free)
      ensures mem[..] == old(mem[..])[f := Junk()[0 := old(freelist)]]
    {
      PushFree(mem[..], own, first, freelist, free, f, Junk()[0 := freelist]);
      mem[f] := Junk();
      mem[f] := mem[f][0 := freelist];
      freelist := P2V(f);
      own, free := own[f := Free], [f] + free;
    }

    /** kalloc; frame 0 stands for failure. */
    method KAlloc() returns (f: nat)
      requires Lists()
      modifies this
      ensures Lists()
      ensures f == 0 <==> old(free) == []
      ensures f == 0 ==> own == old(own) && free == []
      ensures f != 0 ==> f < mem.Length && old(own)[f].Free? && own == old(own)[f := Held] && |mem[f]| == NENTRIES
      ensures f != 0 ==> f == old(free)[0] && free == old(free)[1..]
    {
      if freelist == 0 {
        return 0;
      }
      PopFree(mem[..], own, first, freelist, free);
      f := (freelist - KERNBASE) / PGSIZE;
      assert f == free[0];
      freelist := mem[f][0];
      own, free := own[f := Held], free[1..];
    }

    /** freerange over byte offsets of physical memory: the whole pages between them. */
    method FreeRange(vstart: nat, vend: nat)
      requires Valid() && vend <= mem.Length * PGSIZE
      requires forall f {:trigger own[f]} ::
          0 <= f < mem.Length && vstart <= f * PGSIZE && (f + 1) * PGSIZE <= vend ==> own[f].Held?
      modifies this, mem
      ensures Valid()
      ensures |own| == |old(own)| && forall f {:trigger own[f]} :: 0 <= f < mem.Length ==>
        own[f] == if vstart <= f * PGSIZE && (f + 1) * PGSIZE <= vend then Free else old(own)[f]
    {
      var p := (vstart + PGSIZE - 1) / PGSIZE;
      var lo := p;
      while (p + 1) * PGSIZE <= vend
        invariant Valid() && |own| == |old(own)| == mem.Length
        invariant lo <= p && forall f {:trigger own[f]} :: 0 <= f < mem.Length ==>
          own[f] == if lo <= f < p && (f + 1) * PGSIZE <= vend then Free else old(own)[f]
        decreases vend - p * PGSIZE
      {
        ghost var s := Now();
        KFree(p);
        assert Now() == SetOwner(SetPage(s, p, mem[p]), p, Free);
        RewriteKeeps(s, p, mem[p]);
        ReownKeeps(SetPage(s, p, mem[p]), p, Free);
        p := p + 1;
      }
    }

    /** walkpgdir: the page table of page v, made when missing if `alloc` says so. */
    method WalkPgdir(d: nat, v: nat, alloc: bool) returns (ok: bool, t: nat)
      requires Valid() && d < mem.Length && own[d].Dir? && v < PAGES
      modifies this, mem
      ensures Valid()
      ensures ok ==> t < mem.Length && own[t] == Table(d, Pdx(v))
      ensures !ok ==> Now() == old(Now()) && !Present(mem[d][Pdx(v)]) && (alloc ==> old(free) == [])
      ensures !alloc ==> Now() == old(Now()) && (ok <==> Present(mem[d][Pdx(v)]))
      ensures own[d].Dir? && Grew(old(own), own, d, {})
      ensures KeptPages(old(Now()), Now(), d) && SameView(old(Now()), Now(), d)
      ensures alloc ==> Walked(old(mem[d]), mem[d], v, |old(free)|, |free|, ok)
      ensures !alloc ==> free == old(free)
    {
      hide Tree, FreeOk, Pte, Pdx, Ptx;
      ghost var s := Now();
      ShapeOf(s);
      Split(v);
      var i := v / 1024;
      if Present(mem[d][i]) {
        t := Frame(mem[d][i]);
        ok := true;
        TablePresent(s, d, i);
        return;
      }
      if !alloc {
        return false, 0;
      }
      t := KAlloc();
      if t == 0 {
        return false, 0;
      }
      NewTableKeeps(s, d, i, t);
      NewTableView(s, d, i, t);
      FreeKeepsPage(mem[..], own, first, freelist, free, t, Zeros());
      mem[t] := Zeros();
      FreeKeepsPage(mem[..], own, first, freelist, free, d, mem[d][i := Entry(t, PTE_W + PTE_U)]);
      mem[d] := mem[d][i := Entry(t, PTE_W + PTE_U)];
      FreeKeepsOwner(mem[..], own, first, freelist, free, t, Table(d, i));
      own := own[t := Table(d, i)];
      assert Now() == NewTable(s, d, i, t);
      ok := true;
    }

    /** The store of a page-table entry. */
    method WriteEntry(ghost d: nat, a: nat, t: nat, f: nat, perm: nat)
      requires Lists() && CanMap(Now(), d, a, t, f, perm)
      modifies this, mem
      ensures Lists() && Now() == MapOne(old(Now()), a, t, f, perm) && free == old(free)
    {
      CanMapFacts(Now(), d, a, t, f, perm);
      hide FreeOk, CanMap, Pdx, Ptx;
      Split(a);
      var j := a % 1024;
      FreeKeepsPage(mem[..], own, first, freelist, free, t, mem[t][j := Entry(f, perm)]);
      mem[t] := mem[t][j := Entry(f, perm)];
      if a < USERPAGES {
        FreeKeepsOwner(mem[..], own, first, freelist, free, f, Leaf(t, j));
        own := own[f := Leaf(t, j)];
      }
    }

    /** The loop of mappages: the frames from pa on at the pages from lo to last, until a page table
        cannot be made. Its panic is for entries already present. */
    method MapRange(d: nat, lo: nat, last: nat, pa: nat, perm: nat) returns (ok: bool, ghost n: nat)
      requires Lists() && lo <= last && MapRequest(Now(), d, lo, last - lo + 1, pa, perm)
      modifies this, mem
      ensures Valid() && Progress(old(Now()), Now(), d, lo, n, pa, perm)
      ensures n <= last - lo + 1 && (ok <==> n == last - lo + 1)
      ensures d < mem.Length && last < PAGES && |old(mem[d])| == NENTRIES
      ensures ok <==> |old(free)| >= Tables(old(mem[d]), lo, last + 1)
      ensures ok ==> Paid(old(mem[d]), mem[d], lo, last + 1, |old(free)|, |free|)
    {
      hide Tree, FreeOk, Progress, MapRequest, SameView, KeptPages, Grew, Pte, MapOne, CanMap, Paid, Walked, Tables;
      var a, f := lo, pa;
      ghost var s, m := Now(), last - lo + 1;
      n := 0;
      ProgressStart(s, d, lo, m, pa, perm);
      ProgressFacts(s, s, d, lo, n, pa, perm);
      ShapeOf(s);
      ghost var dir, total := mem[d], |free|;
      PaidStart(dir, lo, total);
      while true
        invariant Lists() && Progress(s, Now(), d, lo, n, pa, perm) && n < m && a == lo + n && f == pa + n
        invariant Paid(dir, mem[d], lo, a, total, |free|)
        decreases last - a
      {
        ghost var s1, now, left := Now(), mem[d], |free|;
        ProgressFacts(s, s1, d, lo, n, pa, perm);
        var found, t := WalkPgdir(d, a, true);
        PaidStep(dir, now, mem[d], lo, a, last + 1, total, left, |free|, found);
        ProgressWalk(s, s1, Now(), d, lo, n, m, pa, perm);
        if !found { return false, n; }
        ProgressMap(s, Now(), d, lo, n, m, pa, perm, t);
        ghost var s2 := Now();
        WriteEntry(d, a, t, f, perm);
        SameDir(s2, d, a, t, f, perm);
        PaidEnough(dir, mem[d], lo, a + 1, total, |free|);
        n := n + 1;
        ProgressFacts(s, Now(), d, lo, n, pa, perm);
        if a == last { return true, n; }
        a, f := a + 1, f + 1;
      }
    }

    /** mappages on addresses: the pages of va up to va + size. */
    method MapPages(d: nat, va: nat, size: nat, pa: nat, perm: nat) returns (ok: bool, ghost n: nat)
      requires Lists() && 0 < size && va + size <= UINT
      requires MapRequest(Now(), d, va / PGSIZE, (va + size - 1) / PGSIZE - va / PGSIZE + 1, pa, perm)
      modifies this, mem
      ensures Valid() && Progress(old(Now()), Now(), d, va / PGSIZE, n, pa, perm)
      ensures n <= (va + size - 1) / PGSIZE - va / PGSIZE + 1
      ensures ok <==> n == (va + size - 1) / PGSIZE - va / PGSIZE + 1
      ensures d < mem.Length && (va + size - 1) / PGSIZE < PAGES && |old(mem[d])| == NENTRIES
      ensures ok <==> |old(free)| >= Tables(old(mem[d]), va / PGSIZE, (va + size - 1) / PGSIZE + 1)
      ensures ok ==>
                Paid(old(mem[d]), mem[d], va / PGSIZE, (va + size - 1) / PGSIZE + 1, |old(free)|, |free|)
    {
      hide Progress, MapRequest, Tree, FreeOk, Paid, Tables;
      ok, n := MapRange(d, va / PGSIZE, (va + size - 1) / PGSIZE, pa, perm);
    }

    /** One present page in deallocuvm: kfree, then the entry is zeroed. */
    method ReleasePage(ghost d: nat, a: nat, t: nat) returns (ghost junk: seq<nat>)
      requires Lists() && CanFree(Now(), d, a, t)
      modifies this, mem
      ensures Lists() && |junk| == NENTRIES
      ensures Frame(old(Now()).mem[t][Ptx(a)]) < mem.Length && Now() == FreePage(old(Now()), a, t, junk)
    {
      hide Tree, FreeOk, Pdx, Ptx;
      ghost var s := Now();
      FreePageKeeps(s, d, a, t, Zeros());
      CanFreeFacts(s, d, a, t);
      Split(a);
      var j := a % 1024;
      var g := Frame(mem[t][j]);
      FreeKeepsOwner(mem[..], own, first, freelist, free, g, Held);
      own := own[g := Held];
      KFree(g);
      junk := mem[g];
      FreeKeepsPage(mem[..], own, first, freelist, free, t, mem[t][j := 0]);
      mem[t] := mem[t][j := 0];
    }

    /** The loop of deallocuvm: the pages from lo up to the size oldsz; where a page table is missing
        it goes on with the next one. */
    method DeallocRange(d: nat, lo: nat, oldsz: nat)
      requires Valid() && d < mem.Length && own[d].Dir? && oldsz <= KERNBASE && lo * PGSIZE <= oldsz + PGSIZE - 1
      modifies this, mem
      ensures Lists() && Cleared(old(Now()), Now(), d, lo, PagesOf(oldsz))
    {
      hide Tree, FreeOk, Cleared, CanFree, SameView, KeptPages, Grew, Pte, FreePage, Pdx, Ptx;
      var a := lo;
      ghost var s, hi := Now(), PagesOf(oldsz);
      ClearedStart(s, d, lo);
      while a * PGSIZE < oldsz
        invariant lo <= a && Lists() && Cleared(s, Now(), d, lo, Min(a, hi))
        decreases oldsz - a * PGSIZE
      {
        ghost var c := Now();
        ClearedFacts(s, c, d, lo, a);
        Split(a);
        var found, t := WalkPgdir(d, a, false);
        if !found {
          SkipTable(s, c, d, lo, a, Min((a / 1024 + 1) * 1024, hi));
          a := (a / 1024 + 1) * 1024 - 1;
        } else if Present(mem[t][a % 1024]) {
          CanFreeIs(c, d, a, t);
          ghost var junk := ReleasePage(d, a, t);
          ClearedStep(s, c, d, lo, a, t, junk);
        } else {
          SkipPage(s, c, d, lo, a, t);
        }
        a := a + 1;
      }
    }

    /** deallocuvm. */
    method DeallocUvm(d: nat, oldsz: nat, newsz: nat) returns (sz: nat)
      requires Valid() && d < mem.Length && own[d].Dir? && oldsz <= KERNBASE
      modifies this, mem
      ensures Valid()
      ensures oldsz <= newsz ==> sz == oldsz && Now() == old(Now())
      ensures newsz < oldsz ==> sz == newsz && Cleared(old(Now()), Now(), d, PagesOf(newsz), PagesOf(oldsz))
    {
      hide Tree, FreeOk, Cleared;
      if newsz >= oldsz {
        return oldsz;
      }
      DeallocRange(d, (newsz + PGSIZE - 1) / PGSIZE, oldsz);
      ClearedTree(old(Now()), Now(), d, PagesOf(newsz), PagesOf(oldsz));
      return newsz;
    }

    /** The loop of freevm over the directory. */
    method FreeTables(d: nat, ghost s: Vm)
      requires Valid() && Freeing(s, Now(), d, 0)
      modifies this, mem
      ensures Lists() && Freeing(s, Now(), d, NENTRIES)
    {
      hide Tree, FreeOk, Freeing;
      var i := 0;
      while i < NENTRIES
        invariant i <= NENTRIES && Lists() && Freeing(s, Now(), d, i)
      {
        ghost var t := Now();
        FreeingFacts(s, t, d, i);
        if Present(mem[d][i]) {
          FreeingStep(s, t, d, i, Zeros());
          var g := Frame(mem[d][i]);
          KFree(g);
          FreeingStep(s, t, d, i, mem[g]);
          assert Now() == Vm(t.mem[g := mem[g]], t.own[g := Free]);
        } else {
          FreeingSkip(s, t, d, i);
        }
        i := i + 1;
      }
    }

    /** freevm: the user pages, the page tables and the directory go back to the free list. */
    method FreeVm(d: nat)
      requires Valid() && d < mem.Length && own[d].Dir?
      modifies this, mem
      ensures Valid() && own == Reclaim(old(own), d) && KeptUsed(old(Now()), Now())
    {
      hide Tree, FreeOk, Cleared, Freeing;
      ghost var s := Now();
      var sz := DeallocUvm(d, KERNBASE, 0);
      ghost var c := Now();
      FreeingStart(s, c, d);
      ClearedFacts(s, c, d, 0, USERPAGES);
      FreeKeepsDetach(mem[..], own, first, freelist, free, d);
      own := Detach(own, d);
      FreeingFacts(c, Now(), d, 0);
      FreeTables(d, c);
      ghost var t := Now();
      FreeingFacts(c, t, d, NENTRIES);
      FreeingEnd(s, c, t, d, Zeros());
      KFree(d);
      FreeingEnd(s, c, t, d, mem[d]);
      assert Now() == Vm(t.mem[d := mem[d]], t.own[d := Free]);
    }

    /** The body of the loops of allocuvm and copyuvm: a frame, its contents, its entry. Without an
        entry the frame stays with the caller; frame 0 says that there was none. */
    method AddPage(d: nat, v: nat, page: seq<nat>, perm: nat) returns (ok: bool, g: nat)
      requires Valid() && d < mem.Length && own[d].Dir? && v < USERPAGES && perm < PGSIZE && |page| == NENTRIES
      requires !Present(Pte(Now(), d, v))
      modifies this, mem
      ensures Valid()
      ensures ok ==> Added(old(Now()), Now(), d, v, g, page, perm)
      ensures !ok && g != 0 ==> NotAdded(old(Now()), Now(), d, g)
      ensures !ok && g == 0 ==> Now() == old(Now()) && old(free) == []
      ensures |old(mem[d])| == NENTRIES && (ok <==> |old(free)| >= Frames(old(mem[d]), v, v + 1))
      ensures ok ==>
                && Filled(old(mem[d]), mem[d], Pdx(v), Pdx(v) + 1)
                && |old(free)| == |free| + Frames(old(mem[d]), v, v + 1)
    {
      hide Tree, FreeOk, Pte, MapRequest, Progress, Added, NotAdded, Filled, Absent, Pdx;
      ghost var s := Now();
      ShapeOf(s);
      g := KAlloc();
      if g == 0 {
        return false, 0;
      }
      FreeKeepsPage(mem[..], own, first, freelist, free, g, page);
      mem[g] := page;
      assert Now() == Taken(s, g, page);
      assert g != d;
      AddRequest(s, d, v, g, page, perm);
      ghost var n;
      ok, n := MapPages(d, v * PGSIZE, PGSIZE, g, perm);
      AddResult(s, Now(), d, v, g, page, perm, n);
    }

    /** The loop of setupkvm over the kernel's table. */
    method MapKernel(d: nat, data: nat, ghost s: Vm) returns (ok: bool)
      requires Lists() && GoodData(data) && Born(s, Now(), d) && KernelPart(Now(), d, data, 0)
      requires d < mem.Length && KernelDir(mem[d], data, 0, |free|, |free|)
      modifies this, mem
      ensures Valid() && Born(s, Now(), d) && (ok ==> KernelPart(Now(), d, data, 4))
      ensures ok <==> |old(free)| >= KVMTABLES
      ensures ok ==> KernelDir(mem[d], data, 4, |old(free)|, |free|)
    {
      hide Tree, FreeOk, Pte, MapRequest, Progress, Born, KernelPart, CountOf, KernelDir, Paid, Tables;
      var k := 0;
      BornFacts(s, Now(), d);
      ghost var total := |free|;
      while k < 4
        invariant d < mem.Length && KernelDir(mem[d], data, k, total, |free|)
        invariant k <= 4 && Lists() && Born(s, Now(), d)
        invariant Shape(Now()) && d < mem.Length && KernelPart(Now(), d, data, k)
      {
        ghost var t := Now();
        BornFacts(s, t, d);
        KernelRequest(t, d, data, k);
        var e := KmapTable(data)[k];
        ghost var n, dir, left := 0, mem[d], |free|;
        KernelTables(dir, data, k, total, left);
        ok, n := MapPages(d, e.virt, SizeOf(e), e.physStart / PGSIZE, e.perm);
        BornMapped(s, t, Now(), d, data, k, n);
        BornFacts(s, Now(), d);
        if !ok {
          KernelShort(dir, data, k, total, left);
          return false;
        }
        KernelDirStep(dir, mem[d], data, k, total, left, |free|);
        k := k + 1;
      }
      BornFacts(s, Now(), d);
      KernelCost(mem[d], data, total, |free|);
      ok := true;
    }

    /** setupkvm; `data` is the end of the kernel's text. */
    method SetupKvm(data: nat) returns (ok: bool, d: nat)
      requires Valid() && GoodData(data)
      modifies this, mem
      ensures Valid()
      ensures ok ==> Born(old(Now()), Now(), d) && KernelPart(Now(), d, data, 4)
      ensures !ok ==> own == old(own) && KeptUsed(old(Now()), Now())
      ensures ok <==> |old(free)| >= 1 + KVMTABLES
      ensures ok ==>
                && |old(free)| == |free| + 1 + KVMTABLES && d < mem.Length && |mem[d]| == NENTRIES
                && forall k :: 0 <= k < USER ==> !Present(mem[d][k])
    {
      hide Tree, FreeOk, Pte, Born, KernelPart, KernelDir;
      ghost var s := Now();
      ShapeOf(s);
      d := KAlloc();
      if d == 0 {
        return false, 0;
      }
      FreeKeepsPage(mem[..], own, first, freelist, free, d, Zeros());
      mem[d] := Zeros();
      FreeKeepsOwner(mem[..], own, first, freelist, free, d, Dir);
      own := own[d := Dir];
      assert Now() == EmptyDir(s, d);
      BornEmpty(s, d, data);
      BornFacts(s, Now(), d);
      ghost var left := |free|;
      EmptyKernelDir(data, left);
      ok := MapKernel(d, data, s);
      if ok { KernelCost(mem[d], data, left, |free|); }
      if !ok {
        ghost var t := Now();
        BornFacts(s, t, d);
        FreeVm(d);
        BornUndone(s, t, Now(), d);
      }
    }

    /** allocuvm; `done` tells a size of 0 from a failure. */
    method AllocUvm(d: nat, oldsz: nat, newsz: nat) returns (sz: nat, ghost done: bool)
      requires Valid() && d < mem.Length && own[d].Dir?
      requires newsz < KERNBASE ==> PagesOf(newsz) <= PAGES && RangeFree(Now(), d, PagesOf(oldsz), PagesOf(newsz))
      modifies this, mem
      ensures Valid()
      ensures newsz >= KERNBASE ==> sz == 0 && Now() == old(Now())
      ensures newsz < KERNBASE && newsz < oldsz ==> sz == oldsz && Now() == old(Now())
      ensures oldsz <= newsz < KERNBASE && done ==>
          sz == newsz && Allocated(old(Now()), Now(), d, PagesOf(oldsz), PagesOf(newsz))
      ensures oldsz <= newsz < KERNBASE && !done ==>
          sz == 0 && AllocFailed(old(Now()), Now(), d, PagesOf(oldsz), PagesOf(newsz), {})
      ensures oldsz <= newsz < KERNBASE ==>
                && |old(mem[d])| == NENTRIES && PagesOf(newsz) <= PAGES
                && (done <==> |old(free)| >= Frames(old(mem[d]), PagesOf(oldsz), PagesOf(newsz)))
                && (done ==> |old(free)| == |free| + Frames(old(mem[d]), PagesOf(oldsz), PagesOf(newsz)))
    {
      hide Tree, FreeOk, Pte, Added, NotAdded, Allocated, GaveUp, AllocFailed, Cleared, RangeFree, Spent, Frames,
          Filled;
      done := true;
      if newsz >= KERNBASE {
        return 0, true;
      }
      if newsz < oldsz {
        return oldsz, true;
      }
      ghost var s, lo, hi := Now(), PagesOf(oldsz), PagesOf(newsz);
      var a := (oldsz + PGSIZE - 1) / PGSIZE;
      AllocatedStart(s, d, lo);
      ShapeOf(s);
      ghost var dir, total := mem[d], |free|;
      SpentStart(dir, lo, total);
      while a * PGSIZE < newsz
        invariant lo <= a <= hi && Lists() && Allocated(s, Now(), d, lo, a)
        invariant Spent(dir, mem[d], lo, a, total, |free|)
        decreases hi - a
      {
        ghost var t, now, left := Now(), mem[d], |free|;
        AllocatedFacts(s, t, d, lo, a, hi);
        var ok, g := AddPage(d, a, Zeros(), PTE_W + PTE_U);
        SpentStep(dir, now, mem[d], lo, a, hi, total, left, |free|, ok);
        if ok {
          AllocatedStep(s, t, Now(), d, lo, a, g);
          a := a + 1;
        } else {
          ghost var u := Now();
          if g == 0 { GaveUpAt(s, t, d, lo, a); } else { GaveUpNotAdded(s, t, u, d, lo, a, g); }
          ghost var loose := if g == 0 then {} else {g};
          GaveUpFacts(s, u, d, lo, a, loose);
          var r := DeallocUvm(d, newsz, oldsz);
          GaveUpCleared(s, u, Now(), d, lo, a, hi, loose);
          if g != 0 {
            FreeLoose(s, d, lo, hi, g);
          }
          FailedFacts(s, Now(), d, lo, hi, {});
          return 0, false;
        }
      }
      AllocatedFacts(s, Now(), d, lo, a, hi);
      SpentEnough(dir, mem[d], lo, a, total, |free|);
      return newsz, true;
    }

    /** copyuvm. Its panics are for pages of the source below sz that are not present. */
    method CopyUvm(src: nat, sz: nat, data: nat) returns (ok: bool, d: nat)
      requires Valid() && GoodData(data) && src < mem.Length && own[src].Dir? && sz <= KERNBASE
      requires forall v {:trigger Pte(Now(), src, v)} :: 0 <= v < PagesOf(sz) && v < PAGES ==>
          Present(Pte(Now(), src, v))
      modifies this, mem
      ensures Valid()
      ensures ok ==> Copied(old(Now()), Now(), src, d, data, PagesOf(sz))
      ensures !ok ==> own == old(own) && KeptUsed(old(Now()), Now())
      ensures var need := 1 + KVMTABLES + PagesOf(sz) + (PagesOf(sz) + 1023) / 1024;
              (ok <==> |old(free)| >= need) && (ok ==> |old(free)| == |free| + need)
    {
      hide Tree, FreeOk, Pte, Born, KernelPart, Copied, Added, NotAdded, Pdx, Ptx, Spent, Frames, Filled;
      ghost var s, hi := Now(), PagesOf(sz);
      ShapeOf(s);
      ok, d := SetupKvm(data);
      if !ok {
        return;
      }
      CopiedStart(s, Now(), src, d, data);
      var i := 0;
      ghost var dir, total := mem[d], |free|;
      SpentStart(dir, 0, total);
      FreshFrames(dir, hi);
      while i * PGSIZE < sz
        invariant i <= hi <= USERPAGES && Lists() && Copied(s, Now(), src, d, data, i)
        invariant d < mem.Length && Spent(dir, mem[d], 0, i, total, |free|)
        decreases hi - i
      {
        ghost var t, now, left := Now(), mem[d], |free|;
        CopiedFacts(s, t, src, d, data, i);
        var found, tab := WalkPgdir(src, i, false);
        assert Present(Pte(s, src, i));
        SourceEntry(t, src, i, tab, found);
        Split(i);
        var w := mem[tab][i % 1024];
        var g;
        ok, g := AddPage(d, i, mem[Frame(w)], Flags(w));
        SpentStep(dir, now, mem[d], 0, i, hi, total, left, |free|, ok);
        if !ok {
          if g != 0 {
            DropLoose(s, t, d, g);
          }
          ghost var u := Now();
          BornFacts(s, u, d);
          FreeVm(d);
          BornUndone(s, u, Now(), d);
          return;
        }
        CopiedStep(s, t, Now(), src, d, data, i, g);
        i := i + 1;
      }
      CopiedFacts(s, Now(), src, d, data, i);
      SpentEnough(dir, mem[d], 0, i, total, |free|);
      ok := true;
    }

    /** The kfree of copyuvm's failure path. */
    method DropLoose(ghost s: Vm, ghost t: Vm, ghost d: nat, g: nat)
      requires Lists() && Born(s, t, d) && NotAdded(t, Now(), d, g)
      modifies this, mem
      ensures Lists() && Born(s, Now(), d)
    {
      hide Tree, FreeOk, Born;
      ghost var u := Now();
      KFree(g);
      BornFreed(s, t, u, d, g, mem[g]);
      assert Now() == Vm(u.mem[g := mem[g]], u.own[g := Free]);
    }

    /** The kfree of allocuvm's failure path. */
    method FreeLoose(ghost s: Vm, ghost d: nat, ghost lo: nat, ghost hi: nat, g: nat)
      requires Lists() && AllocFailed(s, Now(), d, lo, hi, {g}) && g < mem.Length && g < |s.own| && s.own[g].Free?
      modifies this, mem
      ensures Lists() && AllocFailed(s, Now(), d, lo, hi, {})
    {
      hide Tree, FreeOk, AllocFailed;
      ghost var t := Now();
      FailedFacts(s, t, d, lo, hi, {g});
      KFree(g);
      FailedFreed(s, t, d, lo, hi, g, mem[g]);
      assert Now() == Vm(t.mem[g := mem[g]], t.own[g := Free]);
    }
  }
}
