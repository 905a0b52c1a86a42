/** What a page directory maps (xv6/vm.c), and how the owners of frames change with it. Virtual pages
    are numbered; page v is entry v % 1024 of page table v / 1024. */
module PageView {
  import opened PageOwner

  const PAGES: nat := 0x10_0000
  /** Pages below this one are user pages: KERNBASE / PGSIZE. */
  const USERPAGES: nat := 0x8_0000

  /** v / 1024, by subtraction: proofs only see its bounds. */
  function Pdx(v: nat): (i: nat)
    ensures i * 1024 <= v < (i + 1) * 1024
  {
    if v < 1024 then 0 else Pdx(v - 1024) + 1
  }

  /** v % 1024. */
  function Ptx(v: nat): (j: nat)
    ensures j < NENTRIES
  {
    v - Pdx(v) * 1024
  }

  lemma Split(v: nat)
    ensures v / 1024 == Pdx(v) && v % 1024 == Ptx(v)
  {
  }

  function Vpn(i: nat, j: nat): (v: nat)
    requires i < NENTRIES && j < NENTRIES
    ensures v < PAGES && Pdx(v) == i && Ptx(v) == j
  {
    i * 1024 + j
  }

  lemma VpnOf(v: nat)
    requires v < PAGES
    ensures Vpn(Pdx(v), Ptx(v)) == v
  {
  }

  /** The page-table word of page v; 0 when there is no page table. */
  ghost function Pte(s: Vm, d: nat, v: nat): nat
    requires Shape(s) && d < |s.mem| && v < PAGES
  {
    var w := s.mem[d][Pdx(v)];
    if Present(w) && Frame(w) < |s.mem| then s.mem[Frame(w)][Ptx(v)] else 0
  }

  /** Frame g is the user page v of directory d. */
  ghost predicate IsLeaf(own: seq<Owner>, g: nat, d: nat, v: nat) {
    && g < |own| && own[g].Leaf? && own[g].p < |own| && own[g].k < NENTRIES
    && own[own[g].p].Table? && own[own[g].p].p == d && own[own[g].p].k < NENTRIES
    && Vpn(own[own[g].p].k, own[g].k) == v
  }

  /** A present user page belongs to that entry and to no other. */
  lemma {:induction false} LeafAt(s: Vm, d: nat, v: nat, g: nat)
    requires Tree(s) && d < |s.mem| && s.own[d].Dir? && v < USERPAGES
    ensures IsLeaf(s.own, g, d, v) <==> Present(Pte(s, d, v)) && g == Frame(Pte(s, d, v))
  {
    VpnOf(v);
    assert SlotOk(s, d, Pdx(v));
    var w := s.mem[d][Pdx(v)];
    if Present(w) { assert SlotOk(s, Frame(w), Ptx(v)); }
    if g < |s.mem| {
      assert FrameOk(s, g);
      if s.own[g].Leaf? { assert FrameOk(s, s.own[g].p); }
    }
  }

  lemma {:induction false} TableAt(s: Vm, d: nat, i: nat, g: nat)
    requires Tree(s) && d < |s.mem| && s.own[d].Dir? && i < NENTRIES && g < |s.mem|
    ensures s.own[g] == Table(d, i) <==> Present(s.mem[d][i]) && g == Frame(s.mem[d][i])
  {
    assert SlotOk(s, d, i) && FrameOk(s, g);
  }

  /** Every user page is a leaf of some directory. */
  lemma {:induction false} LeafHasPage(s: Vm, g: nat) returns (v: nat)
    requires Tree(s) && g < |s.mem| && s.own[g].Leaf?
    ensures v < USERPAGES && Root(s.own, g) < |s.mem|
    ensures s.own[Root(s.own, g)].Dir? && IsLeaf(s.own, g, Root(s.own, g), v)
  {
    assert FrameOk(s, g) && FrameOk(s, s.own[g].p);
    v := Vpn(s.own[s.own[g].p].k, s.own[g].k);
  }

  // ----- freeing a range of user pages

  ghost predicate InRange(own: seq<Owner>, g: nat, d: nat, lo: nat, hi: nat) {
    exists v :: lo <= v < hi && IsLeaf(own, g, d, v)
  }

  /** The owners once pages lo up to hi of directory d are freed. */
  ghost function Clear(own: seq<Owner>, d: nat, lo: nat, hi: nat): (r: seq<Owner>)
    ensures |r| == |own|
    ensures forall f {:trigger r[f]} :: 0 <= f < |own| ==> r[f] == if InRange(own, f, d, lo, hi) then Free else own[f]
  {
    seq(|own|, f requires 0 <= f < |own| => if InRange(own, f, d, lo, hi) then Free else own[f])
  }

  lemma LeafUnique(own: seq<Owner>, g: nat, d: nat, v: nat, w: nat)
    requires IsLeaf(own, g, d, v) && IsLeaf(own, g, d, w)
    ensures v == w
  {
  }

  /** Leaves of the cleared owners are leaves of the original, outside the range. */
  lemma {:induction false} ClearLeaf(own: seq<Owner>, d: nat, lo: nat, hi: nat, g: nat, v: nat)
    requires g < |own|
    ensures IsLeaf(Clear(own, d, lo, hi), g, d, v) <==> IsLeaf(own, g, d, v) && !(lo <= v < hi)
  {
    if IsLeaf(own, g, d, v) && InRange(own, g, d, lo, hi) {
      var w :| lo <= w < hi && IsLeaf(own, g, d, w);
      LeafUnique(own, g, d, v, w);
    }
    if IsLeaf(own, g, d, v) { assert !own[own[g].p].Leaf?; }
  }

  /** One more page freed, when it is present. */
  lemma {:induction false} ClearOne(own: seq<Owner>, d: nat, lo: nat, v: nat, g: nat)
    requires lo <= v && IsLeaf(Clear(own, d, lo, v), g, d, v)
    requires forall f :: 0 <= f < |own| && IsLeaf(Clear(own, d, lo, v), f, d, v) ==> f == g
    ensures Clear(own, d, lo, v + 1) == Clear(own, d, lo, v)[g := Free]
  {
    assert g < |own|;
    hide IsLeaf;
    var r := Clear(own, d, lo, v)[g := Free];
    ClearLeaf(own, d, lo, v, g, v);
    forall f | 0 <= f < |own| ensures Clear(own, d, lo, v + 1)[f] == r[f] {
      ClearLeaf(own, d, lo, v, f, v);
      ClearMore(own, d, lo, v, v + 1, f);
    }
  }

  lemma {:induction false} ClearMore(own: seq<Owner>, d: nat, lo: nat, hi: nat, hi': nat, f: nat)
    requires lo <= hi <= hi'
    ensures InRange(own, f, d, lo, hi') <==> InRange(own, f, d, lo, hi) || InRange(own, f, d, hi, hi')
  {
    hide IsLeaf;
    if InRange(own, f, d, lo, hi') {
      var v :| lo <= v < hi' && IsLeaf(own, f, d, v);
      assert v < hi || hi <= v;
    }
  }

  /** A stretch with no page present. */
  lemma {:induction false} ClearNone(own: seq<Owner>, d: nat, lo: nat, hi: nat, hi': nat)
    requires lo <= hi <= hi'
    requires forall f, v {:trigger IsLeaf(Clear(own, d, lo, hi), f, d, v)} :: 0 <= f < |own| && hi <= v < hi' ==>
        !IsLeaf(Clear(own, d, lo, hi), f, d, v)
    ensures Clear(own, d, lo, hi') == Clear(own, d, lo, hi)
  {
    hide IsLeaf;
    forall f | 0 <= f < |own| ensures Clear(own, d, lo, hi')[f] == Clear(own, d, lo, hi)[f] {
      ClearMore(own, d, lo, hi, hi', f);
      if InRange(own, f, d, hi, hi') {
        var v :| hi <= v < hi' && IsLeaf(own, f, d, v);
        ClearLeaf(own, d, lo, hi, f, v);
      }
    }
  }

  /** All user pages of d cleared: none is left. */
  lemma {:induction false} ClearAll(s: Vm, d: nat)
    requires Tree(s)
    ensures forall g :: 0 <= g < |s.mem| && Clear(s.own, d, 0, USERPAGES)[g].Leaf? ==> Root(s.own, g) != d
    ensures forall g :: 0 <= g < |s.mem| ==>
      Clear(s.own, d, 0, USERPAGES)[g] == if s.own[g].Leaf? && Root(s.own, g) == d then Free else s.own[g]
  {
    forall g | 0 <= g < |s.mem|
      ensures Clear(s.own, d, 0, USERPAGES)[g] == if s.own[g].Leaf? && Root(s.own, g) == d then Free else s.own[g]
    {
      if s.own[g].Leaf? {
        var v := LeafHasPage(s, g);
      }
    }
  }

  // ----- growing

  /** From s to t directory d only gained page tables, and the frames in `given` became its pages. */
  ghost predicate Grew(s: seq<Owner>, t: seq<Owner>, d: nat, given: set<nat>) {
    && |t| == |s| && d < |s|
    && forall f {:trigger t[f]} :: 0 <= f < |s| ==>
         if f in given then t[f].Leaf? && Root(t, f) == d
         else if s[f].Free? then t[f].Free? || (t[f].Table? && t[f].p == d)
         else t[f] == s[f]
  }

  /** Contents kept: all frames in use, but for the directory d and its page tables. */
  ghost predicate KeptPages(s: Vm, t: Vm, d: nat) {
    && |t.mem| == |s.mem| == |s.own|
    && forall f {:trigger t.mem[f]} ::
        0 <= f < |s.mem| && !s.own[f].Free? && f != d && !(s.own[f].Table? && s.own[f].p == d) ==>
         t.mem[f] == s.mem[f]
  }

  lemma {:induction false} KeptThen(s: Vm, t: Vm, u: Vm, d: nat, given: set<nat>)
    requires KeptPages(s, t, d) && KeptPages(t, u, d) && |t.own| == |s.own| && Grew(s.own, t.own, d, given)
    requires forall f :: f in given ==> f < |s.own| && s.own[f].Held?
    ensures KeptPages(s, u, d)
  {
  }

  /** The view of another directory depends only on pages that were kept. */
  lemma {:induction false} OtherView(s: Vm, t: Vm, d: nat, e: nat, v: nat)
    requires Tree(s) && Shape(t) && KeptPages(s, t, d) && e < |s.mem| && e != d && s.own[e].Dir? && v < PAGES
    requires d < |s.own| ==> !s.own[d].Table?
    ensures Pte(t, e, v) == Pte(s, e, v)
  {
    assert SlotOk(s, e, Pdx(v));
    assert t.mem[e] == s.mem[e];
    var w := s.mem[e][Pdx(v)];
    if Present(w) { assert t.mem[Frame(w)] == s.mem[Frame(w)]; }
  }

  lemma {:induction false} GrewThen(s: seq<Owner>, t: seq<Owner>, u: seq<Owner>, d: nat, a: set<nat>, b: set<nat>)
    requires Grew(s, t, d, a) && Grew(t, u, d, b)
    requires forall f :: f in b ==> f < |s| && s[f].Held? && f !in a
    ensures Grew(s, u, d, a + b)
  {
    forall f {:trigger u[f]} | 0 <= f < |s|
      ensures if f in a + b then u[f].Leaf? && Root(u, f) == d
              else if s[f].Free? then u[f].Free? || (u[f].Table? && u[f].p == d)
              else u[f] == s[f]
    {
      if f in a && f !in b {
        assert t[f].Leaf? && Root(t, f) == d;
        assert t[t[f].p] == u[t[f].p];
      } else {
        var here := t[f];
      }
    }
  }

  // ----- a new page table

  ghost predicate SameView(s: Vm, t: Vm, d: nat)
    requires Shape(s) && Shape(t) && d < |s.mem| == |t.mem|
  {
    forall v {:trigger Pte(t, d, v)} :: 0 <= v < PAGES ==> Pte(t, d, v) == Pte(s, d, v)
  }

  /** Frame t, zeroed, as the page table of entry i of d. */
  function NewTable(s: Vm, d: nat, i: nat, t: nat): Vm
    requires d < |s.mem| == |s.own| && t < |s.mem| && t != d && i < |s.mem[d]|
  {
    Linked(SetPage(SetOwner(s, t, Held), t, Zeros()), d, i, Entry(t, PTE_W + PTE_U))
  }

  lemma {:induction false} NewTableKeeps(s: Vm, d: nat, i: nat, t: nat)
    requires Tree(s) && d < |s.mem| && t < |s.mem| && i < NENTRIES
    requires s.own[d].Dir? && s.own[t].Free? && !Present(s.mem[d][i])
    ensures Tree(NewTable(s, d, i, t)) && NewTable(s, d, i, t).own[t] == Table(d, i)
    ensures NewTable(s, d, i, t).mem[d][i] == Entry(t, PTE_W + PTE_U)
    ensures Grew(s.own, NewTable(s, d, i, t).own, d, {}) && KeptPages(s, NewTable(s, d, i, t), d)
  {
    hide Tree;
    assert Shape(s) by { ShapeOf(s); }
    ReownKeeps(s, t, Held);
    RewriteKeeps(SetOwner(s, t, Held), t, Zeros());
    LinkKeeps(SetPage(SetOwner(s, t, Held), t, Zeros()), d, i, Entry(t, PTE_W + PTE_U));
  }

  lemma ShapeOf(s: Vm)
    requires Tree(s)
    ensures Shape(s)
  {
  }

  lemma {:induction false} NewTableView(s: Vm, d: nat, i: nat, t: nat)
    requires Tree(s) && d < |s.mem| && t < |s.mem| && i < NENTRIES
    requires s.own[d].Dir? && s.own[t].Free? && !Present(s.mem[d][i])
    ensures Shape(NewTable(s, d, i, t)) && SameView(s, NewTable(s, d, i, t), d)
  {
    var n := NewTable(s, d, i, t);
    assert Shape(n) by { NewTableKeeps(s, d, i, t); }
    forall v {:trigger Pte(n, d, v)} | 0 <= v < PAGES ensures Pte(n, d, v) == Pte(s, d, v) {
      if Pdx(v) != i && Present(s.mem[d][Pdx(v)]) {
        var g := Frame(s.mem[d][Pdx(v)]);
        TableAt(s, d, Pdx(v), if g < |s.mem| then g else d);
        assert SlotOk(s, d, Pdx(v));
        assert n.mem[g] == s.mem[g];
      }
    }
  }

  // ----- one entry written

  /** Entry v of d, in page table t, becomes frame f with flags perm; a user page is owned. */
  function MapOne(s: Vm, v: nat, t: nat, f: nat, perm: nat): Vm
    requires t < |s.mem| == |s.own| && v < PAGES && |s.mem[t]| == NENTRIES
    requires perm < PGSIZE && (v < USERPAGES ==> f < |s.own|)
  {
    if v < USERPAGES then Linked(s, t, Ptx(v), Entry(f, perm)) else SetWord(s, t, Ptx(v), Entry(f, perm))
  }

  ghost predicate CanMap(s: Vm, d: nat, v: nat, t: nat, f: nat, perm: nat) {
    && Tree(s) && d < |s.mem| && t < |s.mem| && v < PAGES && perm < PGSIZE
    && s.own[d].Dir? && s.own[t] == Table(d, Pdx(v)) && !Present(Pte(s, d, v))
    && (v < USERPAGES ==> f < |s.mem| && s.own[f].Held?)
  }

  lemma {:induction false} MapOneKeeps(s: Vm, d: nat, v: nat, t: nat, f: nat, perm: nat)
    requires CanMap(s, d, v, t, f, perm)
    ensures var n := MapOne(s, v, t, f, perm);
      && Tree(n) && KeptPages(s, n, d) && n.own[t] == s.own[t] && n.own[d] == s.own[d]
      && Grew(s.own, n.own, d, if v < USERPAGES then {f} else {})
  {
    TableAt(s, d, Pdx(v), t);
    if v < USERPAGES {
      LinkKeeps(s, t, Ptx(v), Entry(f, perm));
      assert Root(MapOne(s, v, t, f, perm).own, f) == d;
    } else {
      RewriteKeeps(s, t, s.mem[t][Ptx(v) := Entry(f, perm)]);
    }
  }

  lemma {:induction false} MapOneView(s: Vm, d: nat, v: nat, t: nat, f: nat, perm: nat, w: nat)
    requires CanMap(s, d, v, t, f, perm) && w < PAGES
    ensures var n := MapOne(s, v, t, f, perm);
      Shape(n) && Pte(n, d, w) == if w == v then Entry(f, perm) else Pte(s, d, w)
  {
    TableAt(s, d, Pdx(v), t);
    var n := MapOne(s, v, t, f, perm);
    VpnOf(v);
    VpnOf(w);
    assert SlotOk(s, d, Pdx(w));
    assert n.mem[d] == s.mem[d];
    if Present(s.mem[d][Pdx(w)]) && Pdx(w) != Pdx(v) {
      assert n.mem[Frame(s.mem[d][Pdx(w)])] == s.mem[Frame(s.mem[d][Pdx(w)])];
    }
  }

  // ----- a range of entries written

  /** The frames that become pages of the directory; kernel mappings own nothing. */
  ghost function Given(a: nat, pa: nat, n: nat): (r: set<nat>)
    ensures forall f {:trigger f in r} :: f in r <==> a < USERPAGES && pa <= f < pa + n
  {
    if a >= USERPAGES || n == 0 then {} else Given(a, pa, n - 1) + {pa + n - 1}
  }

  /** Entries a up to a + n are the frames from pa on; the others are as they were. */
  ghost predicate Mapped(s: Vm, t: Vm, d: nat, a: nat, n: nat, pa: nat, perm: nat)
    requires Shape(s) && Shape(t) && d < |s.mem| == |t.mem| && perm < PGSIZE
  {
    forall v {:trigger Pte(t, d, v)} :: 0 <= v < PAGES ==>
      Pte(t, d, v) == if a <= v < a + n then Entry(pa + (v - a), perm) else Pte(s, d, v)
  }

  /** What mappages may be asked for: free entries, all user or all kernel, and for user entries
      frames that are allocated and in no page table. */
  ghost predicate MapRequest(s: Vm, d: nat, a: nat, n: nat, pa: nat, perm: nat) {
    && Tree(s) && d < |s.mem| && s.own[d].Dir? && perm < PGSIZE && a + n <= PAGES
    && (a + n <= USERPAGES || USERPAGES <= a)
    && (forall v {:trigger Pte(s, d, v)} :: a <= v < a + n ==> !Present(Pte(s, d, v)))
    && (a < USERPAGES ==> pa + n <= |s.own| && forall f {:trigger s.own[f]} :: pa <= f < pa + n ==> s.own[f].Held?)
  }

  ghost predicate Progress(s: Vm, t: Vm, d: nat, a: nat, n: nat, pa: nat, perm: nat) {
    && Shape(s) && Tree(t) && d < |s.mem| == |t.mem| && perm < PGSIZE && t.own[d].Dir?
    && Grew(s.own, t.own, d, Given(a, pa, n)) && KeptPages(s, t, d) && Mapped(s, t, d, a, n, pa, perm)
  }

  lemma {:induction false} ProgressStart(s: Vm, d: nat, a: nat, m: nat, pa: nat, perm: nat)
    requires MapRequest(s, d, a, m, pa, perm)
    ensures Progress(s, s, d, a, 0, pa, perm) && a + m <= PAGES
  {
  }

  lemma {:induction false} ProgressWalk(s: Vm, t: Vm, u: Vm, d: nat, a: nat, n: nat, m: nat, pa: nat, perm: nat)
    requires MapRequest(s, d, a, m, pa, perm) && n <= m && Progress(s, t, d, a, n, pa, perm)
    requires Tree(u) && |u.mem| == |t.mem| && u.own[d].Dir?
    requires Grew(t.own, u.own, d, {}) && KeptPages(t, u, d) && SameView(t, u, d)
    ensures Progress(s, u, d, a, n, pa, perm)
  {
    hide Tree, Pte, Grew, KeptPages;
    ShapeOf(t);
    ShapeOf(u);
    GrewThen(s.own, t.own, u.own, d, Given(a, pa, n), {});
    assert Given(a, pa, n) + {} == Given(a, pa, n);
    GivenHeld(s, d, a, m, pa, perm, n);
    assert |t.own| == |s.own| by { SizeOfGrew(s.own, t.own, d, Given(a, pa, n)); }
    KeptThen(s, t, u, d, Given(a, pa, n));
  }

  lemma SizeOfGrew(s: seq<Owner>, t: seq<Owner>, d: nat, given: set<nat>)
    requires Grew(s, t, d, given)
    ensures |t| == |s|
  {
  }

  lemma {:induction false} GivenHeld(s: Vm, d: nat, a: nat, m: nat, pa: nat, perm: nat, n: nat)
    requires MapRequest(s, d, a, m, pa, perm) && n <= m
    ensures forall f :: f in Given(a, pa, n) ==> f < |s.own| && s.own[f].Held?
  {
  }

  lemma {:induction false} ProgressMap(s: Vm, u: Vm, d: nat, a: nat, n: nat, m: nat, pa: nat, perm: nat, t: nat)
    requires MapRequest(s, d, a, m, pa, perm) && n < m && Progress(s, u, d, a, n, pa, perm)
    requires t < |u.mem| && u.own[t] == Table(d, Pdx(a + n))
    ensures CanMap(u, d, a + n, t, pa + n, perm)
    ensures Progress(s, MapOne(u, a + n, t, pa + n, perm), d, a, n + 1, pa, perm)
  {
    hide Tree, Pte, Grew, KeptPages;
    ShapeOf(s);
    ShapeOf(u);
    GivenHeld(s, d, a, m, pa, perm, n);
    var more := if a + n < USERPAGES then {pa + n} else {};
    assert Pte(u, d, a + n) == Pte(s, d, a + n);
    if a < USERPAGES {
      assert s.own[pa + n].Held?;
      assert pa + n !in Given(a, pa, n);
      StillHeld(s.own, u.own, d, Given(a, pa, n), pa + n);
    }
    var x := MapOne(u, a + n, t, pa + n, perm);
    MapOneKeeps(u, d, a + n, t, pa + n, perm);
    ShapeOf(x);
    assert Given(a, pa, n + 1) == Given(a, pa, n) + more;
    GrewThen(s.own, u.own, x.own, d, Given(a, pa, n), more);
    SizeOfGrew(s.own, u.own, d, Given(a, pa, n));
    KeptThen(s, u, x, d, Given(a, pa, n));
    forall v {:trigger Pte(x, d, v)} | 0 <= v < PAGES
      ensures Pte(x, d, v) == if a <= v < a + n + 1 then Entry(pa + (v - a), perm) else Pte(s, d, v)
    {
      MapOneView(u, d, a + n, t, pa + n, perm, v);
      var here := Pte(u, d, v);
    }
  }

  lemma StillHeld(s: seq<Owner>, t: seq<Owner>, d: nat, given: set<nat>, f: nat)
    requires Grew(s, t, d, given) && f < |s| && s[f].Held? && f !in given
    ensures f < |t| && t[f].Held?
  {
    var here := t[f];
  }

  // ----- a range of user pages freed

  /** Contents kept while pages of d are freed: frames still in use, but for page tables of d. */
  ghost predicate KeptInUse(s: Vm, t: Vm, d: nat) {
    && |t.mem| == |s.mem| == |s.own| == |t.own|
    && forall f {:trigger t.mem[f]} :: 0 <= f < |s.mem| && !t.own[f].Free? && !(s.own[f].Table? && s.own[f].p == d) ==>
         t.mem[f] == s.mem[f]
  }

  /** From s to t pages lo up to hi of d were freed, and nothing else happened. */
  ghost predicate Cleared(s: Vm, t: Vm, d: nat, lo: nat, hi: nat) {
    && Tree(s) && Tree(t) && d < |s.mem| == |t.mem| && s.own[d].Dir?
    && t.own == Clear(s.own, d, lo, hi) && KeptInUse(s, t, d)
    && forall v {:trigger Pte(t, d, v)} :: 0 <= v < PAGES ==>
         Pte(t, d, v) == if lo <= v < hi && Present(Pte(s, d, v)) then 0 else Pte(s, d, v)
  }

  lemma {:induction false} ClearedStart(s: Vm, d: nat, lo: nat)
    requires Tree(s) && d < |s.mem| && s.own[d].Dir?
    ensures Cleared(s, s, d, lo, lo)
  {
    assert forall f :: 0 <= f < |s.own| ==> !InRange(s.own, f, d, lo, lo);
    assert Clear(s.own, d, lo, lo) == s.own;
  }

  lemma DirStays(own: seq<Owner>, d: nat, lo: nat, hi: nat)
    requires d < |own| && own[d].Dir?
    ensures Clear(own, d, lo, hi)[d].Dir?
  {
  }

  /** Page v of d, frame g in entry v of page table t, freed: g's contents become `junk`. */
  function FreePage(s: Vm, v: nat, t: nat, junk: seq<nat>): Vm
    requires t < |s.mem| == |s.own| && |s.mem[t]| == NENTRIES && Frame(s.mem[t][Ptx(v)]) < |s.mem|
  {
    var g := Frame(s.mem[t][Ptx(v)]);
    Vm(s.mem[g := junk][t := s.mem[t][Ptx(v) := 0]], s.own[g := Free])
  }

  ghost predicate CanFree(s: Vm, d: nat, v: nat, t: nat) {
    && Tree(s) && d < |s.mem| && t < |s.mem| && v < USERPAGES
    && s.own[d].Dir? && s.own[t] == Table(d, Pdx(v)) && Present(s.mem[t][Ptx(v)])
  }

  lemma {:induction false} FreePageKeeps(s: Vm, d: nat, v: nat, t: nat, junk: seq<nat>)
    requires CanFree(s, d, v, t) && |junk| == NENTRIES
    ensures var g := Frame(s.mem[t][Ptx(v)]);
      && g < |s.mem| && g != t && s.own[g] == Leaf(t, Ptx(v)) && g == Frame(Pte(s, d, v)) && Present(Pte(s, d, v))
      && Tree(FreePage(s, v, t, junk))
  {
    TableAt(s, d, Pdx(v), t);
    var g := Frame(s.mem[t][Ptx(v)]);
    UnlinkKeeps(s, t, Ptx(v));
    var a := Unlinked(s, t, Ptx(v));
    RewriteKeeps(a, g, junk);
    ReownKeeps(SetPage(a, g, junk), g, Free);
    assert SetOwner(SetPage(a, g, junk), g, Free) == FreePage(s, v, t, junk);
  }

  lemma {:induction false} FreePageView(s: Vm, d: nat, v: nat, t: nat, junk: seq<nat>, w: nat)
    requires CanFree(s, d, v, t) && |junk| == NENTRIES && w < PAGES
    ensures Frame(s.mem[t][Ptx(v)]) < |s.mem|
    ensures var n := FreePage(s, v, t, junk); Shape(n) && Pte(n, d, w) == if w == v then 0 else Pte(s, d, w)
  {
    TableAt(s, d, Pdx(v), t);
    assert SlotOk(s, t, Ptx(v));
    var n := FreePage(s, v, t, junk);
    VpnOf(v);
    VpnOf(w);
    assert SlotOk(s, d, Pdx(w));
    assert n.mem[d] == s.mem[d];
    if Present(s.mem[d][Pdx(w)]) && Pdx(w) != Pdx(v) {
      assert n.mem[Frame(s.mem[d][Pdx(w)])] == s.mem[Frame(s.mem[d][Pdx(w)])];
    }
  }

  lemma {:induction false} ClearedStep(s: Vm, c: Vm, d: nat, lo: nat, v: nat, t: nat, junk: seq<nat>)
    requires Cleared(s, c, d, lo, v) && lo <= v && CanFree(c, d, v, t) && |junk| == NENTRIES
    ensures Frame(c.mem[t][Ptx(v)]) < |c.mem| && Cleared(s, FreePage(c, v, t, junk), d, lo, v + 1)
  {
    hide Tree, Pte, IsLeaf;
    ShapeOf(s);
    ShapeOf(c);
    FreePageKeeps(c, d, v, t, junk);
    var n, g := FreePage(c, v, t, junk), Frame(c.mem[t][Ptx(v)]);
    ShapeOf(n);
    forall f | 0 <= f < |c.own| ensures IsLeaf(c.own, f, d, v) <==> f == g { LeafAt(c, d, v, f); }
    ClearOne(s.own, d, lo, v, g);
    assert Pte(c, d, v) == Pte(s, d, v);
    forall w {:trigger Pte(n, d, w)} | 0 <= w < PAGES
      ensures Pte(n, d, w) == if lo <= w < v + 1 && Present(Pte(s, d, w)) then 0 else Pte(s, d, w)
    {
      FreePageView(c, d, v, t, junk, w);
      var here := Pte(c, d, w);
    }
    assert KeptInUse(s, n, d) by {
      assert s.own[t] == Table(d, Pdx(v));
      forall f {:trigger n.mem[f]} | 0 <= f < |s.mem| && !n.own[f].Free? && !(s.own[f].Table? && s.own[f].p == d)
        ensures n.mem[f] == s.mem[f]
      {
        assert c.mem[f] == s.mem[f];
      }
    }
  }

  /** A stretch in which no page is present. */
  lemma {:induction false} ClearedSkip(s: Vm, c: Vm, d: nat, lo: nat, v: nat, v': nat)
    requires Cleared(s, c, d, lo, v) && lo <= v <= v' <= USERPAGES
    requires forall w {:trigger Pte(c, d, w)} :: v <= w < v' ==> !Present(Pte(c, d, w))
    ensures Cleared(s, c, d, lo, v')
  {
    hide Tree, Pte, IsLeaf;
    ShapeOf(s);
    ShapeOf(c);
    DirStays(s.own, d, lo, v);
    forall f, w {:trigger IsLeaf(Clear(s.own, d, lo, v), f, d, w)} | 0 <= f < |s.own| && v <= w < v'
      ensures !IsLeaf(Clear(s.own, d, lo, v), f, d, w)
    {
      assert !Present(Pte(c, d, w));
      LeafAt(c, d, w, f);
    }
    ClearNone(s.own, d, lo, v, v');
    forall w {:trigger Pte(c, d, w)} | 0 <= w < PAGES
      ensures Pte(c, d, w) == if lo <= w < v' && Present(Pte(s, d, w)) then 0 else Pte(s, d, w)
    {
      var here := Pte(c, d, w);
    }
  }

  /** Without a page table no page of it is present. */
  lemma NoTable(s: Vm, d: nat, v: nat, w: nat)
    requires Tree(s) && d < |s.mem| && s.own[d].Dir? && v < PAGES
    requires w < PAGES && Pdx(w) == Pdx(v) && !Present(s.mem[d][Pdx(v)])
    ensures Pte(s, d, w) == 0
  {
  }

  // ----- a whole directory freed

  /** The owners once every frame of directory d is free. */
  ghost function Reclaim(own: seq<Owner>, d: nat): (r: seq<Owner>)
    ensures |r| == |own|
    ensures forall f {:trigger r[f]} :: 0 <= f < |own| ==> r[f] == if Root(own, f) == d then Free else own[f]
  {
    seq(|own|, f requires 0 <= f < |own| => if Root(own, f) == d then Free else own[f])
  }

  /** The directory detached and its page tables below entry i freed. */
  ghost function Partly(own: seq<Owner>, d: nat, i: nat): (r: seq<Owner>)
    ensures |r| == |own|
    ensures forall f {:trigger r[f]} :: 0 <= f < |own| ==>
      r[f] ==
      if own[f].Table? && own[f].p == d then (if own[f].k < i then Free else Held)
      else if f == d then Held else own[f]
  {
    seq(|own|, f requires 0 <= f < |own| =>
      if own[f].Table? && own[f].p == d then (if own[f].k < i then Free else Held) else if f == d then Held else own[f])
  }

  /** Contents of all frames in use are kept. */
  ghost predicate KeptUsed(s: Vm, t: Vm) {
    && |t.mem| == |s.mem| == |t.own|
    && forall f {:trigger t.mem[f]} :: 0 <= f < |s.mem| && !t.own[f].Free? ==> t.mem[f] == s.mem[f]
  }

  /** c is the state after deallocuvm; t the state of the loop that frees page tables. */
  ghost predicate Freeing(c: Vm, t: Vm, d: nat, i: nat) {
    && Tree(c) && Tree(t) && d < |c.mem| == |t.mem| && c.own[d].Dir?
    && t.own == Partly(c.own, d, i) && KeptUsed(c, t)
  }

  lemma {:induction false} FreeingStart(s: Vm, c: Vm, d: nat)
    requires Cleared(s, c, d, 0, USERPAGES)
    ensures Freeing(c, Vm(c.mem, Detach(c.own, d)), d, 0)
  {
    hide Pte, IsLeaf;
    ClearAll(s, d);
    DirStays(s.own, d, 0, USERPAGES);
    forall g | 0 <= g < |c.mem| && c.own[g].Leaf? ensures Root(c.own, g) != d {
      assert FrameOk(c, g) && c.own[g] == s.own[g] && c.own[c.own[g].p] == s.own[s.own[g].p];
    }
    DetachKeeps(c, d);
    assert Detach(c.own, d) == Partly(c.own, d, 0);
  }

  lemma {:induction false} FreeingStep(c: Vm, t: Vm, d: nat, i: nat, junk: seq<nat>)
    requires Freeing(c, t, d, i) && i < NENTRIES && Present(c.mem[d][i]) && |junk| == NENTRIES
    ensures t.mem[d] == c.mem[d]
    ensures var g := Frame(c.mem[d][i]);
      && g < |t.mem| && g != d && t.own[g].Held?
      && Freeing(c, Vm(t.mem[g := junk], t.own[g := Free]), d, i + 1)
  {
    var g := Frame(c.mem[d][i]);
    forall f | 0 <= f < |c.mem| ensures c.own[f] == Table(d, i) <==> f == g { TableAt(c, d, i, f); }
    assert SlotOk(c, d, i);
    var n := Vm(t.mem[g := junk], t.own[g := Free]);
    assert t.own[d].Held? && t.mem[d] == c.mem[d];
    RewriteKeeps(t, g, junk);
    ReownKeeps(SetPage(t, g, junk), g, Free);
    assert n == SetOwner(SetPage(t, g, junk), g, Free);
    assert n.own == Partly(c.own, d, i + 1);
  }

  lemma {:induction false} FreeingSkip(c: Vm, t: Vm, d: nat, i: nat)
    requires Freeing(c, t, d, i) && i < NENTRIES && !Present(c.mem[d][i])
    ensures t.mem[d] == c.mem[d] && Freeing(c, t, d, i + 1)
  {
    forall f | 0 <= f < |c.mem| ensures c.own[f] != Table(d, i) { TableAt(c, d, i, f); }
    assert t.own[d].Held? && t.mem[d] == c.mem[d];
    assert t.own == Partly(c.own, d, i + 1);
  }

  lemma {:induction false} FreeingEnd(s: Vm, c: Vm, t: Vm, d: nat, junk: seq<nat>)
    requires Cleared(s, c, d, 0, USERPAGES) && Freeing(c, t, d, NENTRIES) && |junk| == NENTRIES
    ensures t.own[d].Held?
    ensures var n := Vm(t.mem[d := junk], t.own[d := Free]); Tree(n) && n.own == Reclaim(s.own, d) && KeptUsed(s, n)
  {
    hide Pte, IsLeaf;
    ClearAll(s, d);
    var n := Vm(t.mem[d := junk], t.own[d := Free]);
    RewriteKeeps(t, d, junk);
    ReownKeeps(SetPage(t, d, junk), d, Free);
    assert n == SetOwner(SetPage(t, d, junk), d, Free);
    forall f | 0 <= f < |s.own| ensures n.own[f] == Reclaim(s.own, d)[f] {
      assert FrameOk(s, f);
      assert c.own[f] == if s.own[f].Leaf? && Root(s.own, f) == d then Free else s.own[f];
      var here := t.own[f];
    }
    assert n.own == Reclaim(s.own, d);
    forall f {:trigger n.mem[f]} | 0 <= f < |s.mem| && !n.own[f].Free? ensures n.mem[f] == s.mem[f] {
      assert t.mem[f] == c.mem[f] && c.mem[f] == s.mem[f];
    }
  }

  // ----- a directory that grows

  /** From s to t frames were only added to directory d; `loose` is one that is still in no page
      table. */
  ghost predicate Extends(s: seq<Owner>, t: seq<Owner>, d: nat, loose: set<nat>) {
    && |t| == |s| && d < |s|
    && forall f {:trigger t[f]} {:trigger ExtendsAt(s, t, d, loose, f)} :: 0 <= f < |s| ==> ExtendsAt(s, t, d, loose, f)
  }

  ghost predicate ExtendsAt(s: seq<Owner>, t: seq<Owner>, d: nat, loose: set<nat>, f: nat)
    requires f < |s| == |t|
  {
    if s[f].Free? then (if f in loose then t[f].Held? else t[f].Free? || Root(t, f) == d)
    else f !in loose && t[f] == s[f]
  }

  lemma {:induction false} ExtendsGrew(s: seq<Owner>, t: seq<Owner>, u: seq<Owner>, d: nat, loose: set<nat>,
                                       given: set<nat>)
    requires Extends(s, t, d, loose) && Grew(t, u, d, given) && given <= loose
    ensures Extends(s, u, d, loose - given)
  {
    forall f | 0 <= f < |s| ensures ExtendsAt(s, u, d, loose - given, f) {
      var x, y := t[f], u[f];
      if x.Leaf? && x.p < |t| {
        var table := u[x.p];
        assert f !in given ==> y == x;
        assert t[x.p].Table? && x.p !in given ==> table == t[x.p];
      }
    }
  }

  lemma {:induction false} ExtendsHold(s: seq<Owner>, t: seq<Owner>, d: nat, g: nat)
    requires Extends(s, t, d, {}) && g < |t| && t[g].Free?
    ensures Extends(s, t[g := Held], d, {g}) && s[g].Free?
  {
    var here := t[g];
    forall f {:trigger t[g := Held][f]} | 0 <= f < |s|
      ensures Root(t[g := Held], f) == if f == g then |t| else Root(t, f)
    {
      var here := t[f];
    }
  }

  lemma {:induction false} ExtendsDrop(s: seq<Owner>, t: seq<Owner>, d: nat, g: nat)
    requires Extends(s, t, d, {g}) && g < |t| && t[g].Held? && s[g].Free?
    ensures Extends(s, t[g := Free], d, {})
  {
    forall f {:trigger t[g := Free][f]} | 0 <= f < |s|
      ensures Root(t[g := Free], f) == if f == g then |t| else Root(t, f)
    {
      var here := t[f];
    }
  }

  lemma KeptTable(t: seq<Owner>, u: seq<Owner>, d: nat, loose: set<nat>, p: nat)
    requires Extends(t, u, d, loose) && p < |t|
    ensures t[p].Table? ==> u[p] == t[p]
  {
    var x := u[p];
  }

  lemma {:induction false} ExtendsThen(s: seq<Owner>, t: seq<Owner>, u: seq<Owner>, d: nat, loose: set<nat>)
    requires Extends(s, t, d, {}) && Extends(t, u, d, loose)
    ensures Extends(s, u, d, loose)
  {
    forall f | 0 <= f < |s| ensures ExtendsAt(s, u, d, loose, f) {
      var x, y := t[f], u[f];
      assert ExtendsAt(s, t, d, {}, f) && ExtendsAt(t, u, d, loose, f);
      if !x.Free? {
        assert y == x;
        if x.Leaf? && x.p < |t| { KeptTable(t, u, d, loose, x.p); }
      }
    }
  }

  lemma {:induction false} KeptExtends(s: Vm, t: Vm, u: Vm, d: nat, loose: set<nat>)
    requires KeptPages(s, t, d) && Extends(s.own, t.own, d, loose) && KeptPages(t, u, d)
    ensures KeptPages(s, u, d)
  {
  }

  /** Freeing a directory that did not exist before gives back the owners there were. */
  lemma {:induction false} Undo(s: Vm, t: Vm, d: nat)
    requires Tree(s) && Extends(s.own, t.own, d, {}) && s.own[d].Free?
    ensures Reclaim(t.own, d) == s.own
  {
    forall f | 0 <= f < |s.own| ensures Reclaim(t.own, d)[f] == s.own[f] {
      assert FrameOk(s, f);
      var here := t.own[f];
      if s.own[f].Leaf? { assert FrameOk(s, s.own[f].p) && t.own[s.own[f].p] == s.own[s.own[f].p]; }
    }
  }

  lemma {:induction false} UndoContents(s: Vm, t: Vm, u: Vm, d: nat)
    requires Tree(s) && Extends(s.own, t.own, d, {}) && s.own[d].Free?
    requires KeptPages(s, t, d) && KeptUsed(t, u) && u.own == s.own
    ensures KeptUsed(s, u)
  {
    forall f {:trigger u.mem[f]} | 0 <= f < |s.mem| && !u.own[f].Free? ensures u.mem[f] == s.mem[f] {
      assert FrameOk(s, f);
      assert t.mem[f] == s.mem[f];
    }
  }

  /** When the user pages of d are those it had, the frames it gained are page tables. */
  lemma {:induction false} NoNewLeaf(s: Vm, t: Vm, d: nat, lo: nat, hi: nat, f: nat)
    requires Tree(s) && Tree(t) && Extends(s.own, t.own, d, {}) && |t.mem| == |s.mem| && d < |s.mem| && s.own[d].Dir?
    requires forall v {:trigger Pte(t, d, v)} :: 0 <= v < PAGES ==>
      if lo <= v < hi then !Present(Pte(t, d, v)) else Pte(t, d, v) == Pte(s, d, v)
    requires f < |s.own| && s.own[f].Free?
    ensures t.own[f].Free? || (t.own[f].Table? && t.own[f].p == d)
  {
    hide Pte;
    var here := t.own[f];
    assert t.own[d].Dir?;
    if t.own[f].Leaf? {
      var v := LeafHasPage(t, f);
      LeafAt(t, d, v, f);
      LeafAt(s, d, v, f);
    }
  }

  // ----- one user page more

  /** A free frame g with contents `page` became page v of d. */
  ghost predicate Added(s: Vm, t: Vm, d: nat, v: nat, g: nat, page: seq<nat>, perm: nat) {
    && Tree(s) && Tree(t) && d < |s.mem| == |t.mem| && perm < PGSIZE && g < |s.mem|
    && s.own[d].Dir? && t.own[d].Dir? && s.own[g].Free? && t.own[g].Leaf? && t.mem[g] == page
    && Extends(s.own, t.own, d, {}) && KeptPages(s, t, d)
    && forall w {:trigger Pte(t, d, w)} :: 0 <= w < PAGES ==>
        Pte(t, d, w) == if w == v then Entry(g, perm) else Pte(s, d, w)
  }

  /** A free frame g was taken but could not be mapped. */
  ghost predicate NotAdded(s: Vm, t: Vm, d: nat, g: nat) {
    && Tree(s) && Tree(t) && d < |s.mem| == |t.mem| && g < |s.mem|
    && s.own[d].Dir? && t.own[d].Dir? && s.own[g].Free? && t.own[g].Held?
    && Extends(s.own, t.own, d, {g}) && KeptPages(s, t, d) && SameView(s, t, d)
  }

  function Taken(s: Vm, g: nat, page: seq<nat>): Vm
    requires g < |s.mem| == |s.own|
  {
    SetPage(SetOwner(s, g, Held), g, page)
  }

  lemma {:induction false} TakenKeeps(s: Vm, d: nat, g: nat, page: seq<nat>)
    requires Tree(s) && d < |s.mem| && s.own[d].Dir? && g < |s.mem| && s.own[g].Free? && |page| == NENTRIES
    ensures Tree(Taken(s, g, page)) && KeptPages(s, Taken(s, g, page), d) && SameView(s, Taken(s, g, page), d)
    ensures Extends(s.own, Taken(s, g, page).own, d, {g})
  {
    ReownKeeps(s, g, Held);
    RewriteKeeps(SetOwner(s, g, Held), g, page);
    var t := Taken(s, g, page);
    forall w {:trigger Pte(t, d, w)} | 0 <= w < PAGES ensures Pte(t, d, w) == Pte(s, d, w) {
      assert SlotOk(s, d, Pdx(w));
    }
    ExtendsSelf(s.own, d);
    ExtendsHold(s.own, s.own, d, g);
  }

  lemma ExtendsSelf(s: seq<Owner>, d: nat)
    requires d < |s|
    ensures Extends(s, s, d, {})
  {
  }

  lemma {:induction false} AddRequest(s: Vm, d: nat, v: nat, g: nat, page: seq<nat>, perm: nat)
    requires Tree(s) && d < |s.mem| && s.own[d].Dir? && g < |s.mem| && s.own[g].Free? && |page| == NENTRIES
    requires v < USERPAGES && perm < PGSIZE && !Present(Pte(s, d, v))
    ensures MapRequest(Taken(s, g, page), d, v, 1, g, perm)
  {
    TakenKeeps(s, d, g, page);
    hide Tree, Pte;
    ShapeOf(s);
    ShapeOf(Taken(s, g, page));
    assert Pte(Taken(s, g, page), d, v) == Pte(s, d, v);
  }

  lemma {:induction false} AddResult(s: Vm, t: Vm, d: nat, v: nat, g: nat, page: seq<nat>, perm: nat, n: nat)
    requires Tree(s) && d < |s.mem| && s.own[d].Dir? && g < |s.mem| && s.own[g].Free? && |page| == NENTRIES
    requires v < USERPAGES && n <= 1 && Progress(Taken(s, g, page), t, d, v, n, g, perm)
    ensures if n == 1 then Added(s, t, d, v, g, page, perm) else NotAdded(s, t, d, g)
  {
    TakenKeeps(s, d, g, page);
    hide Tree, Pte, Grew;
    var u := Taken(s, g, page);
    ShapeOf(s);
    ShapeOf(u);
    ShapeOf(t);
    KeptExtends(s, u, t, d, {g});
    assert t.mem[g] == u.mem[g];
    if n == 1 {
      assert Given(v, g, n) == {g};
      ExtendsGrew(s.own, u.own, t.own, d, {g}, {g});
      GivenLeaf(u.own, t.own, d, {g}, g);
      assert {g} - {g} == {};
      forall w {:trigger Pte(t, d, w)} | 0 <= w < PAGES
        ensures Pte(t, d, w) == if w == v then Entry(g, perm) else Pte(s, d, w)
      {
        assert Pte(u, d, w) == Pte(s, d, w);
      }
    } else {
      assert Given(v, g, n) == {};
      ExtendsGrew(s.own, u.own, t.own, d, {g}, {});
      StillHeld(u.own, t.own, d, {}, g);
      assert {g} - {} == {g};
      forall w {:trigger Pte(t, d, w)} | 0 <= w < PAGES ensures Pte(t, d, w) == Pte(s, d, w) {
        assert Pte(u, d, w) == Pte(s, d, w);
      }
    }
  }

  lemma GivenLeaf(s: seq<Owner>, t: seq<Owner>, d: nat, given: set<nat>, f: nat)
    requires Grew(s, t, d, given) && f in given && f < |s|
    ensures t[f].Leaf?
  {
    var here := t[f];
  }
}
