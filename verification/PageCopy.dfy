/** The steps of setupkvm, allocuvm and copyuvm (xv6/vm.c) on values: what each loop has done so far,
    and what its failure path leaves. */
module PageCopy {
  import opened PageOwner
  import opened PageView

  const KERNBASE: nat := 0x8000_0000
  const UINT: nat := 0x1_0000_0000
  const EXTMEM: nat := 0x10_0000
  const PHYSTOP: nat := 0xE00_0000
  const DEVSPACE: nat := 0xFE00_0000
  const KERNLINK: nat := KERNBASE + EXTMEM

  /** How many pages a size takes: PGROUNDUP(sz) / PGSIZE. */
  function PagesOf(sz: nat): (n: nat)
    ensures n * PGSIZE < sz + PGSIZE && sz <= n * PGSIZE
  {
    (sz + PGSIZE - 1) / PGSIZE
  }

  // ----- the kernel part

  datatype Kmap = Kmap(virt: nat, physStart: nat, physEnd: nat, perm: nat)

  /** The linker script puts `data`, the end of the kernel's text, on a page boundary. */
  predicate GoodData(data: nat) { data % PGSIZE == 0 && KERNLINK < data < KERNBASE + PHYSTOP }

  function KmapTable(data: nat): seq<Kmap>
    requires GoodData(data)
  {
    [Kmap(KERNBASE, 0, EXTMEM, PTE_W),
     Kmap(KERNLINK, KERNLINK - KERNBASE, data - KERNBASE, 0),
     Kmap(data, data - KERNBASE, PHYSTOP, PTE_W),
     Kmap(DEVSPACE, DEVSPACE, 0, PTE_W)]
  }

  /** phys_end - phys_start as unsigned words. */
  function SizeOf(e: Kmap): nat { (e.physEnd - e.physStart) % UINT }

  /** The pages of entry k: where they start and how many. */
  function StartOf(data: nat, k: nat): nat
    requires GoodData(data) && k < 4
  {
    KmapTable(data)[k].virt / PGSIZE
  }

  function CountOf(data: nat, k: nat): (n: nat)
    requires GoodData(data) && k < 4
    ensures 0 < SizeOf(KmapTable(data)[k]) && KmapTable(data)[k].virt + SizeOf(KmapTable(data)[k]) <= UINT
    ensures n == (KmapTable(data)[k].virt
        + SizeOf(KmapTable(data)[k]) - 1) / PGSIZE - KmapTable(data)[k].virt / PGSIZE + 1
    ensures USERPAGES <= StartOf(data, k) && StartOf(data, k) + n <= PAGES
    ensures k == 0 ==> StartOf(data, k) == 0x8_0000 && n == 0x100
    ensures k == 1 ==> StartOf(data, k) == 0x8_0100 && n == data / PGSIZE - 0x8_0100
    ensures k == 2 ==> StartOf(data, k) == data / PGSIZE && n == 0x8_E000 - data / PGSIZE
    ensures k == 3 ==> StartOf(data, k) == 0xF_E000 && n == 0x2000
  {
    var e := KmapTable(data)[k];
    (e.virt + SizeOf(e) - 1) / PGSIZE - e.virt / PGSIZE + 1
  }

  /** The word the first k entries of the kernel's table give page v. */
  function KWord(data: nat, k: nat, v: nat): nat
    requires GoodData(data) && k <= 4
  {
    if k == 0 then 0
    else
      var e, a := KmapTable(data)[k - 1], StartOf(data, k - 1);
      if a <= v < a + CountOf(data, k - 1) then Entry(e.physStart / PGSIZE + (v - a), e.perm)
      else KWord(data, k - 1, v)
  }

  predicate Writable(w: nat) { Flags(w) / PTE_W % 2 == 1 }

  predicate UserMode(w: nat) { Flags(w) / PTE_U % 2 == 1 }

  /** What the kernel part of every address space is: the pages from KERNBASE on map physical memory up
      to PHYSTOP frame by frame, those from DEVSPACE on map the devices at their own addresses, nothing
      else is mapped, no page is open to user mode, and exactly the kernel's text is read-only. */
  lemma {:induction false} KernelMap(data: nat, v: nat)
    requires GoodData(data) && v < PAGES
    ensures var w, memory, devices := KWord(data, 4, v), 0x8_0000 <= v < 0x8_E000, 0xF_E000 <= v;
            && (Present(w) <==> memory || devices) && (!Present(w) ==> w == 0)
            && (memory ==> Frame(w) == v - KERNBASE / PGSIZE) && (devices ==> Frame(w) == v)
            && !UserMode(w) && (Present(w) ==> (Writable(w) <==> !(KERNLINK / PGSIZE <= v < data / PGSIZE)))
  {
    DataRange(data);
    KWordIs(data, v);
  }

  lemma DataRange(data: nat)
    requires GoodData(data)
    ensures 0x8_0100 < data / PGSIZE < 0x8_E000 && (data - KERNBASE) / PGSIZE == data / PGSIZE - 0x8_0000
  {
  }

  lemma {:induction false} KWordIs(data: nat, v: nat)
    requires GoodData(data) && v < PAGES
    ensures KWord(data, 4, v) ==
            if 0xF_E000 <= v then Entry(v, PTE_W)
            else if data / PGSIZE <= v < 0x8_E000 then Entry(v - 0x8_0000, PTE_W)
            else if 0x8_0100 <= v < data / PGSIZE then Entry(v - 0x8_0000, 0)
            else if 0x8_0000 <= v < 0x8_0100 then Entry(v - 0x8_0000, PTE_W) else 0
  {
    DataRange(data);
    var c0, c1, c2, c3 := CountOf(data, 0), CountOf(data, 1), CountOf(data, 2), CountOf(data, 3);
    assert KWord(data, 0, v) == 0;
    hide CountOf;
    assert KWord(data, 1, v) == if 0x8_0000 <= v < 0x8_0100 then Entry(v - 0x8_0000, PTE_W) else 0;
    assert KWord(data, 2, v) ==
           if 0x8_0100 <= v < data / PGSIZE then Entry(v - 0x8_0000, 0) else KWord(data, 1, v);
    assert KWord(data, 3, v) ==
           if data / PGSIZE <= v < 0x8_E000 then Entry(v - 0x8_0000, PTE_W) else KWord(data, 2, v);
  }

  /** The entries do not overlap. */
  lemma {:induction false} KmapApart(data: nat, k: nat, j: nat, v: nat)
    requires GoodData(data) && j <= k < 4 && StartOf(data, k) <= v < StartOf(data, k) + CountOf(data, k)
    ensures KWord(data, j, v) == 0
    decreases j
  {
    if j > 0 {
      assert !(StartOf(data, j - 1) <= v < StartOf(data, j - 1) + CountOf(data, j - 1))
          by { KmapOrder(data, j - 1, k); }
      hide CountOf, StartOf;
      KmapApart(data, k, j - 1, v);
    }
  }

  lemma KmapOrder(data: nat, j: nat, k: nat)
    requires GoodData(data) && j < k < 4
    ensures StartOf(data, j) + CountOf(data, j) <= StartOf(data, k)
  {
  }

  // ----- a new directory

  /** Directory d did not exist in s; nothing else has changed. */
  ghost predicate Born(s: Vm, t: Vm, d: nat) {
    && Tree(s) && Tree(t) && d < |s.mem| == |t.mem| && s.own[d].Free? && t.own[d].Dir?
    && Extends(s.own, t.own, d, {}) && KeptPages(s, t, d)
  }

  /** It maps what the first k entries of the kernel's table say. */
  ghost predicate KernelPart(t: Vm, d: nat, data: nat, k: nat)
    requires Shape(t) && d < |t.mem| && GoodData(data) && k <= 4
  {
    forall v {:trigger Pte(t, d, v)} :: 0 <= v < PAGES ==> Pte(t, d, v) == KWord(data, k, v)
  }

  function EmptyDir(s: Vm, d: nat): Vm
    requires d < |s.mem| == |s.own|
  {
    SetOwner(Taken(s, d, Zeros()), d, Dir)
  }

  lemma {:induction false} BornEmpty(s: Vm, d: nat, data: nat)
    requires Tree(s) && d < |s.mem| && s.own[d].Free? && GoodData(data)
    ensures Born(s, EmptyDir(s, d), d) && KernelPart(EmptyDir(s, d), d, data, 0)
  {
    ReownKeeps(s, d, Held);
    RewriteKeeps(SetOwner(s, d, Held), d, Zeros());
    DirKeeps(Taken(s, d, Zeros()), d);
    var t := EmptyDir(s, d);
    forall f {:trigger t.own[f]} | 0 <= f < |s.own| ensures t.own[f] == if f == d then Dir else s.own[f] {}
    assert t.mem[d] == Zeros();
  }

  /** After one call of mappages for entry k. */
  lemma {:induction false} BornMapped(s: Vm, t: Vm, u: Vm, d: nat, data: nat, k: nat, n: nat)
    requires Born(s, t, d) && GoodData(data) && k < 4 && Shape(t) && KernelPart(t, d, data, k)
    requires Progress(t, u, d, StartOf(data, k), n, KmapTable(data)[k].physStart / PGSIZE, KmapTable(data)[k].perm)
    requires n <= CountOf(data, k)
    ensures Born(s, u, d)
    ensures n == CountOf(data, k) ==> KernelPart(u, d, data, k + 1)
  {
    hide Tree, Pte, KmapTable;
    ShapeOf(u);
    BornGrows(s, t, u, d, data, k, n);
    if n == CountOf(data, k) {
      hide CountOf, StartOf;
      forall v {:trigger Pte(u, d, v)} | 0 <= v < PAGES ensures Pte(u, d, v) == KWord(data, k + 1, v) {
        assert Pte(t, d, v) == KWord(data, k, v);
      }
    }
  }

  lemma {:induction false} BornGrows(s: Vm, t: Vm, u: Vm, d: nat, data: nat, k: nat, n: nat)
    requires Born(s, t, d) && GoodData(data) && k < 4
    requires Progress(t, u, d, StartOf(data, k), n, KmapTable(data)[k].physStart / PGSIZE, KmapTable(data)[k].perm)
    ensures Born(s, u, d)
  {
    hide Tree, Pte, Grew, Extends, KeptPages;
    assert StartOf(data, k) + CountOf(data, k) <= PAGES && USERPAGES <= StartOf(data, k);
    assert Given(StartOf(data, k), KmapTable(data)[k].physStart / PGSIZE, n) == {};
    var none: set<nat> := {};
    ExtendsGrew(s.own, t.own, u.own, d, none, none);
    assert none - none == none;
    KeptExtends(s, t, u, d, {});
  }

  lemma {:induction false} KernelRequest(t: Vm, d: nat, data: nat, k: nat)
    requires Tree(t) && d < |t.mem| && t.own[d].Dir? && GoodData(data) && k < 4 && KernelPart(t, d, data, k)
    ensures KmapTable(data)[k].perm < PGSIZE
    ensures MapRequest(t, d, StartOf(data, k), CountOf(data, k), KmapTable(data)[k].physStart / PGSIZE,
        KmapTable(data)[k].perm)
  {
    hide Tree, Pte;
    ShapeOf(t);
    forall v {:trigger Pte(t, d, v)} | StartOf(data, k) <= v < StartOf(data, k) + CountOf(data, k)
      ensures !Present(Pte(t, d, v))
    {
      assert Pte(t, d, v) == KWord(data, k, v);
      KmapApart(data, k, k, v);
    }
  }

  // ----- allocuvm

  /** Page v of d is a new user page: writable, zeroed, its own. */
  ghost predicate NewPage(t: Vm, d: nat, v: nat)
    requires Shape(t) && d < |t.mem| && v < PAGES
  {
    var w := Pte(t, d, v);
    && Present(w) && Flags(w) == PTE_P + PTE_W + PTE_U && Frame(w) < |t.mem|
    && t.own[Frame(w)].Leaf? && t.mem[Frame(w)] == Zeros()
  }

  /** Pages lo up to a of d are new; nothing else has changed. */
  ghost predicate Allocated(s: Vm, t: Vm, d: nat, lo: nat, a: nat) {
    && Tree(s) && Tree(t) && d < |s.mem| == |t.mem| && s.own[d].Dir? && t.own[d].Dir?
    && Extends(s.own, t.own, d, {}) && KeptPages(s, t, d)
    && a <= PAGES && (forall v {:trigger NewPage(t, d, v)} :: lo <= v < a ==> NewPage(t, d, v))
    && (forall v {:trigger Pte(t, d, v)} :: 0 <= v < PAGES && !(lo <= v < a) ==> Pte(t, d, v) == Pte(s, d, v))
  }

  lemma {:induction false} AllocatedStart(s: Vm, d: nat, lo: nat)
    requires Tree(s) && d < |s.mem| && s.own[d].Dir? && lo <= PAGES
    ensures Allocated(s, s, d, lo, lo)
  {
    ExtendsSelf(s.own, d);
  }

  lemma {:induction false} AllocatedStep(s: Vm, t: Vm, u: Vm, d: nat, lo: nat, a: nat, g: nat)
    requires Allocated(s, t, d, lo, a) && lo <= a < USERPAGES && Added(t, u, d, a, g, Zeros(), PTE_W + PTE_U)
    ensures Allocated(s, u, d, lo, a + 1)
  {
    hide Tree, Pte, Extends;
    ShapeOf(s);
    ShapeOf(t);
    ShapeOf(u);
    ExtendsThen(s.own, t.own, u.own, d, {});
    KeptExtends(s, t, u, d, {});
    forall v {:trigger NewPage(u, d, v)} | lo <= v < a + 1 ensures NewPage(u, d, v) {
      var here := Pte(u, d, v);
      if v < a {
        assert NewPage(t, d, v);
        ExtendsAt(t.own, u.own, d, {}, Frame(Pte(t, d, v)));
        assert u.mem[Frame(Pte(t, d, v))] == t.mem[Frame(Pte(t, d, v))];
      }
    }
    forall v {:trigger Pte(u, d, v)} | 0 <= v < PAGES && !(lo <= v < a + 1) ensures Pte(u, d, v) == Pte(s, d, v) {
      var here := Pte(t, d, v);
    }
  }

  lemma ExtendsAt(s: seq<Owner>, t: seq<Owner>, d: nat, loose: set<nat>, f: nat)
    requires Extends(s, t, d, loose) && f < |s| && !s[f].Free?
    ensures |t| == |s| && t[f] == s[f]
  {
    var here := t[f];
  }

  /** After a failure d maps what it did before, and has gained page tables only. */
  ghost predicate AllocFailed(s: Vm, t: Vm, d: nat, lo: nat, hi: nat, loose: set<nat>) {
    && Tree(s) && Tree(t) && d < |s.mem| == |t.mem| && s.own[d].Dir? && t.own[d].Dir?
    && Extends(s.own, t.own, d, loose) && KeptPages(s, t, d)
    && forall v {:trigger Pte(t, d, v)} :: 0 <= v < PAGES ==>
        if lo <= v < hi then !Present(Pte(t, d, v)) else Pte(t, d, v) == Pte(s, d, v)
  }

  /** The state in which allocuvm gives up: pages up to a, and maybe a loose frame. */
  ghost predicate GaveUp(s: Vm, t: Vm, d: nat, lo: nat, a: nat, loose: set<nat>) {
    && Tree(s) && Tree(t) && d < |s.mem| == |t.mem| && s.own[d].Dir? && t.own[d].Dir?
    && Extends(s.own, t.own, d, loose) && KeptPages(s, t, d)
    && forall v {:trigger Pte(t, d, v)} :: 0 <= v < PAGES && !(lo <= v < a) ==> Pte(t, d, v) == Pte(s, d, v)
  }

  lemma {:induction false} GaveUpNotAdded(s: Vm, t: Vm, u: Vm, d: nat, lo: nat, a: nat, g: nat)
    requires Allocated(s, t, d, lo, a) && NotAdded(t, u, d, g)
    ensures GaveUp(s, u, d, lo, a, {g}) && g < |u.mem| && g < |s.own| && s.own[g].Free?
  {
    hide Tree, Pte, Extends;
    WasFree(s.own, t.own, d, g);
    ShapeOf(s);
    ShapeOf(t);
    ShapeOf(u);
    ExtendsThen(s.own, t.own, u.own, d, {g});
    KeptExtends(s, t, u, d, {});
    forall v {:trigger Pte(u, d, v)} | 0 <= v < PAGES && !(lo <= v < a) ensures Pte(u, d, v) == Pte(s, d, v) {
      var here := Pte(t, d, v);
    }
  }

  /** No page of the range was present before. */
  ghost predicate RangeFree(s: Vm, d: nat, lo: nat, hi: nat)
    requires Shape(s) && d < |s.mem| && hi <= PAGES
  {
    forall v {:trigger Pte(s, d, v)} :: lo <= v < hi ==> !Present(Pte(s, d, v))
  }

  /** deallocuvm then takes out exactly the new pages. */
  lemma {:induction false} GaveUpCleared(s: Vm, t: Vm, c: Vm, d: nat, lo: nat, a: nat, hi: nat, loose: set<nat>)
    requires GaveUp(s, t, d, lo, a, loose) && lo <= a <= hi <= USERPAGES && RangeFree(s, d, lo, hi)
    requires Cleared(t, c, d, lo, hi)
    ensures AllocFailed(s, c, d, lo, hi, loose)
  {
    hide Tree, Pte, IsLeaf;
    ShapeOf(s);
    ShapeOf(t);
    ShapeOf(c);
    DirStays(t.own, d, lo, hi);
    forall f | 0 <= f < |s.own| && !s.own[f].Free? ensures c.own[f] == s.own[f] {
      assert t.own[f] == s.own[f];
      OldPageStays(s, t, d, lo, hi, loose, f);
    }
    forall f {:trigger c.own[f]} | 0 <= f < |s.own|
      ensures if s.own[f].Free? then (if f in loose then c.own[f].Held? else c.own[f].Free? || Root(c.own, f) == d)
              else f !in loose && c.own[f] == s.own[f]
    {
      var here := t.own[f];
      LooseStays(t.own, d, lo, hi, f);
    }
    forall f {:trigger c.mem[f]} | 0 <= f < |s.mem| && !s.own[f].Free? && f != d
        && !(s.own[f].Table? && s.own[f].p == d)
      ensures c.mem[f] == s.mem[f]
    {
      assert t.own[f] == s.own[f] && t.mem[f] == s.mem[f];
    }
    forall v {:trigger Pte(c, d, v)} | 0 <= v < PAGES
      ensures if lo <= v < hi then !Present(Pte(c, d, v)) else Pte(c, d, v) == Pte(s, d, v)
    {
      var here, there := Pte(t, d, v), Pte(s, d, v);
    }
  }

  /** A page that was in use before is not among those freed. */
  lemma {:induction false} OldPageStays(s: Vm, t: Vm, d: nat, lo: nat, hi: nat, loose: set<nat>, f: nat)
    requires Tree(s) && Extends(s.own, t.own, d, loose) && d < |s.mem| && s.own[d].Dir?
    requires hi <= USERPAGES && RangeFree(s, d, lo, hi) && f < |s.own| && !s.own[f].Free?
    ensures !InRange(t.own, f, d, lo, hi)
  {
    hide Pte;
    assert t.own[f] == s.own[f] && FrameOk(s, f);
    if s.own[f].Leaf? {
      assert FrameOk(s, s.own[f].p) && t.own[s.own[f].p] == s.own[s.own[f].p];
      forall v | lo <= v < hi ensures !IsLeaf(t.own, f, d, v) {
        LeafAt(s, d, v, f);
        assert !Present(Pte(s, d, v));
      }
    }
  }

  /** Clearing frees a page or leaves its owner and root. */
  lemma {:induction false} LooseStays(own: seq<Owner>, d: nat, lo: nat, hi: nat, f: nat)
    requires f < |own|
    ensures var r := Clear(own, d, lo, hi);
      && (own[f].Held? ==> r[f].Held?) && (own[f].Free? ==> r[f].Free?)
      && (r[f].Free? || Root(r, f) == Root(own, f) || own[f].Leaf?)
      && (Root(own, f) == d && d < |own| ==> r[f].Free? || Root(r, f) == d)
  {
  }

  /** The loose frame goes back as well. */
  lemma {:induction false} FailedFreed(s: Vm, t: Vm, d: nat, lo: nat, hi: nat, g: nat, junk: seq<nat>)
    requires AllocFailed(s, t, d, lo, hi, {g}) && g < |t.mem| && |junk| == NENTRIES && s.own[g].Free? && t.own[g].Held?
    ensures AllocFailed(s, Vm(t.mem[g := junk], t.own[g := Free]), d, lo, hi, {})
  {
    var n := Vm(t.mem[g := junk], t.own[g := Free]);
    LooseFreed(t, d, g, junk);
    hide Tree, Pte, Extends;
    ShapeOf(s);
    ShapeOf(t);
    ShapeOf(n);
    ExtendsDrop(s.own, t.own, d, g);
    forall v {:trigger Pte(n, d, v)} | 0 <= v < PAGES
      ensures if lo <= v < hi then !Present(Pte(n, d, v)) else Pte(n, d, v) == Pte(s, d, v)
    {
      assert Pte(t, d, v) == Pte(n, d, v);
    }
  }

  lemma {:induction false} LooseFreed(t: Vm, d: nat, g: nat, junk: seq<nat>)
    requires Tree(t) && d < |t.mem| && t.own[d].Dir? && g < |t.mem| && t.own[g].Held? && |junk| == NENTRIES
    ensures var n := Vm(t.mem[g := junk], t.own[g := Free]); Tree(n) && n.own[d].Dir? && SameView(t, n, d)
  {
    RewriteKeeps(t, g, junk);
    ReownKeeps(SetPage(t, g, junk), g, Free);
    var n := Vm(t.mem[g := junk], t.own[g := Free]);
    assert n == SetOwner(SetPage(t, g, junk), g, Free);
    forall v {:trigger Pte(n, d, v)} | 0 <= v < PAGES ensures Pte(n, d, v) == Pte(t, d, v) {
      assert SlotOk(t, d, Pdx(v));
    }
  }

  /** So the only frames a failed allocuvm keeps are page tables of d. */
  lemma {:induction false} FailedKeepsTables(s: Vm, t: Vm, d: nat, lo: nat, hi: nat, f: nat)
    requires AllocFailed(s, t, d, lo, hi, {}) && f < |s.own|
    ensures if s.own[f].Free? then t.own[f].Free? || (t.own[f].Table? && t.own[f].p == d) else t.own[f] == s.own[f]
  {
    hide Pte;
    var here := t.own[f];
    if s.own[f].Free? { NoNewLeaf(s, t, d, lo, hi, f); }
  }

  // ----- copyuvm

  /** Page v of d is a copy of page v of src in another frame: same bytes, same flags. */
  ghost predicate Copy(s: Vm, t: Vm, src: nat, d: nat, v: nat)
    requires Shape(s) && Shape(t) && src < |s.mem| && d < |t.mem| && v < PAGES
  {
    var x, y := Pte(s, src, v), Pte(t, d, v);
    && Present(x) && Present(y) && Flags(y) == Flags(x) && Frame(x) < |s.mem| == |t.mem| && Frame(y) < |t.mem|
    && s.own[Frame(y)].Free? && t.own[Frame(y)].Leaf? && t.mem[Frame(y)] == s.mem[Frame(x)]
  }

  /** The pages of d below a are copies; the rest of d is the kernel part. */
  ghost predicate Copied(s: Vm, t: Vm, src: nat, d: nat, data: nat, a: nat) {
    && Born(s, t, d) && src < |s.mem| && s.own[src].Dir? && GoodData(data) && a <= PAGES
    && (forall v {:trigger Copy(s, t, src, d, v)} :: 0 <= v < a ==> Copy(s, t, src, d, v))
    && (forall v {:trigger Pte(t, d, v)} :: a <= v < PAGES ==> Pte(t, d, v) == KWord(data, 4, v))
  }

  lemma {:induction false} CopiedStart(s: Vm, t: Vm, src: nat, d: nat, data: nat)
    requires Born(s, t, d) && src < |s.mem| && s.own[src].Dir? && GoodData(data) && KernelPart(t, d, data, 4)
    ensures Copied(s, t, src, d, data, 0)
  {
  }

  /** The source directory maps the same pages, with the same contents, all along. */
  lemma {:induction false} SourceStays(s: Vm, t: Vm, src: nat, d: nat, v: nat)
    requires Born(s, t, d) && src < |s.mem| && s.own[src].Dir? && v < USERPAGES
    ensures Pte(t, src, v) == Pte(s, src, v) && t.own[src].Dir?
    ensures Present(Pte(s, src, v)) ==>
        Frame(Pte(s, src, v)) < |s.mem| && t.mem[Frame(Pte(s, src, v))] == s.mem[Frame(Pte(s, src, v))]
  {
    OtherView(s, t, d, src, v);
    assert t.own[src] == s.own[src];
    if Present(Pte(s, src, v)) {
      var g := Frame(Pte(s, src, v));
      LeafAt(s, src, v, g);
      assert t.mem[g] == s.mem[g];
    }
  }

  lemma KWordUser(data: nat, k: nat, v: nat)
    requires GoodData(data) && k <= 4 && v < USERPAGES
    ensures KWord(data, k, v) == 0
  {
    if k > 0 { assert USERPAGES <= StartOf(data, k - 1) && CountOf(data, k - 1) >= 0; KWordUser(data, k - 1, v); }
  }

  lemma {:induction false} CopiedStep(s: Vm, t: Vm, u: Vm, src: nat, d: nat, data: nat, a: nat, g: nat)
    requires Copied(s, t, src, d, data, a) && a < USERPAGES && Present(Pte(s, src, a))
    requires Frame(Pte(s, src, a)) < |s.mem|
    requires Added(t, u, d, a, g, s.mem[Frame(Pte(s, src, a))], Flags(Pte(s, src, a)))
    ensures Copied(s, u, src, d, data, a + 1)
  {
    hide Tree, Pte, Extends, KWord;
    ShapeOf(s);
    ShapeOf(t);
    ShapeOf(u);
    ExtendsThen(s.own, t.own, u.own, d, {});
    KeptExtends(s, t, u, d, {});
    WasFree(s.own, t.own, d, g);
    forall v {:trigger Copy(s, u, src, d, v)} | 0 <= v < a + 1 ensures Copy(s, u, src, d, v) {
      var here := Pte(u, d, v);
      if v < a {
        assert Copy(s, t, src, d, v);
        ExtendsAt(t.own, u.own, d, {}, Frame(Pte(t, d, v)));
        assert u.mem[Frame(Pte(t, d, v))] == t.mem[Frame(Pte(t, d, v))];
      }
    }
    forall v {:trigger Pte(u, d, v)} | a + 1 <= v < PAGES ensures Pte(u, d, v) == KWord(data, 4, v) {
      var here := Pte(t, d, v);
    }
  }

  lemma WasFree(s: seq<Owner>, t: seq<Owner>, d: nat, g: nat)
    requires Extends(s, t, d, {}) && g < |t| && t[g].Free?
    ensures s[g].Free?
  {
  }

  /** A frame that could not be mapped, freed again. */
  lemma {:induction false} BornFreed(s: Vm, t: Vm, u: Vm, d: nat, g: nat, junk: seq<nat>)
    requires Born(s, t, d) && NotAdded(t, u, d, g) && |junk| == NENTRIES
    ensures Born(s, Vm(u.mem[g := junk], u.own[g := Free]), d)
  {
    LooseFreed(u, d, g, junk);
    hide Tree, Pte, Extends;
    ShapeOf(u);
    WasFree(s.own, t.own, d, g);
    ExtendsThen(s.own, t.own, u.own, d, {g});
    ExtendsDrop(s.own, u.own, d, g);
    KeptExtends(s, t, u, d, {});
  }

  /** Freeing the directory then leaves everything as it was. */
  lemma {:induction false} BornUndone(s: Vm, t: Vm, u: Vm, d: nat)
    requires Born(s, t, d) && |t.own| == |t.mem| && u.own == Reclaim(t.own, d) && KeptUsed(t, u)
    ensures u.own == s.own && KeptUsed(s, u)
  {
    Undo(s, t, d);
    UndoContents(s, t, u, d);
  }

  // ----- conservation

  /** Frame f is the directory d, one of its page tables or one of its user pages, as the tables say. */
  ghost predicate Reaches(s: Vm, d: nat, f: nat)
    requires Shape(s) && d < |s.mem|
  {
    || f == d
    || (exists i :: 0 <= i < NENTRIES && Present(s.mem[d][i]) && Frame(s.mem[d][i]) == f)
    || (exists v :: 0 <= v < USERPAGES && Present(Pte(s, d, v)) && Frame(Pte(s, d, v)) == f)
  }

  lemma {:induction false} ReachesIsRoot(s: Vm, d: nat, f: nat)
    requires Tree(s) && d < |s.mem| && s.own[d].Dir? && f < |s.mem|
    ensures Reaches(s, d, f) <==> Root(s.own, f) == d
  {
    hide Pte;
    assert FrameOk(s, f);
    forall i | 0 <= i < NENTRIES ensures Present(s.mem[d][i]) && Frame(s.mem[d][i]) == f <==> s.own[f] == Table(d, i) {
      TableAt(s, d, i, f);
    }
    forall v | 0 <= v < USERPAGES
      ensures Present(Pte(s, d, v)) && Frame(Pte(s, d, v)) == f <==> IsLeaf(s.own, f, d, v)
    {
      LeafAt(s, d, v, f);
    }
    if s.own[f].Leaf? {
      var v := LeafHasPage(s, f);
      assert Root(s.own, f) == d ==> IsLeaf(s.own, f, d, v);
    }
  }

  /** No frame is reached from two directories, and none that is reached is free. */
  lemma {:induction false} DirectoriesApart(s: Vm, d: nat, e: nat, f: nat)
    requires Tree(s) && d < |s.mem| && e < |s.mem| && s.own[d].Dir? && s.own[e].Dir? && f < |s.mem| && Reaches(s, d, f)
    ensures !s.own[f].Free? && (Reaches(s, e, f) ==> d == e)
  {
    hide Reaches;
    ReachesIsRoot(s, d, f);
    ReachesIsRoot(s, e, f);
  }

  /** Free, or reached from d if d is a directory. */
  ghost predicate InPool(s: Vm, d: nat, f: nat)
    requires Shape(s) && d < |s.mem| && f < |s.mem|
  {
    s.own[f].Free? || (s.own[d].Dir? && Reaches(s, d, f))
  }

  /** Growing, freeing a range and freeing the whole directory move frames between the free list and
      the directory: together they stay the same. */
  lemma {:induction false} PoolIsConstant(s: Vm, t: Vm, d: nat, lo: nat, hi: nat, f: nat)
    requires Tree(s) && Tree(t) && d < |s.mem| == |t.mem| && f < |s.mem|
    requires
      || (Extends(s.own, t.own, d, {}) && t.own[d].Dir? && (s.own[d].Dir? || s.own[d].Free?))
      || (t.own == Clear(s.own, d, lo, hi) && s.own[d].Dir?)
      || (t.own == Reclaim(s.own, d) && s.own[d].Dir?)
    ensures InPool(s, d, f) <==> InPool(t, d, f)
  {
    hide Reaches, Pte;
    assert FrameOk(s, f) && FrameOk(t, f);
    if s.own[d].Dir? { ReachesIsRoot(s, d, f); }
    if t.own[d].Dir? { ReachesIsRoot(t, d, f); }
    var here := t.own[f];
    if s.own[f].Leaf? { assert FrameOk(s, s.own[f].p) && t.own[s.own[f].p] == t.own[s.own[f].p]; }
  }
}
