/** The storage allocator of xv6/umalloc.c (section 8.7 of The C Programming Language, 2nd ed.):
    an address-ordered circular free list of blocks. Addresses count units of one header; a header
    at address `a` has the fields ptr[a] and size[a]. */
module KRHeap {
  import opened Common

  // ----- blocks in address order

  datatype Blk = Blk(a: nat, n: nat) {
    function End(): nat { a + n }
    predicate Has(u: nat) { a <= u < End() }
  }

  /** The base, of no units, then nonempty blocks, each ending strictly below the next: the blocks are
      in address order and no two are adjacent. */
  ghost predicate Ordered(fs: seq<Blk>) {
    && 0 < |fs| && fs[0].n == 0
    && (forall i :: 0 < i < |fs| ==> fs[i].n > 0)
    && (forall i, j :: 0 <= i < j < |fs| ==> fs[i].End() < fs[j].a)
  }

  ghost predicate Covers(fs: seq<Blk>, u: nat) {
    exists i :: 0 <= i < |fs| && fs[i].Has(u)
  }

  /** Block `b` belongs right after fs[k]. */
  ghost predicate Fits(fs: seq<Blk>, k: nat, b: Blk) {
    && Ordered(fs) && k < |fs| && b.n > 0 && fs[0].a < b.a
    && fs[k].End() <= b.a && (k + 1 < |fs| ==> b.End() <= fs[k + 1].a)
  }

  /** The first half of free(): `b` goes behind fs[k], merged with the next block if it touches it. */
  function AddAfter(fs: seq<Blk>, k: nat, b: Blk): (gs: seq<Blk>)
    requires k < |fs|
    ensures k + 1 < |gs|
  {
    if k + 1 < |fs| && b.End() == fs[k + 1].a then fs[k + 1 := Blk(b.a, b.n + fs[k + 1].n)]
    else InsertAt(fs, k + 1, b)
  }

  /** The second half of free(): block k is merged with the block behind it if it touches it. */
  function Coalesce(fs: seq<Blk>, k: nat): seq<Blk>
    requires k + 1 < |fs|
  {
    if fs[k].End() == fs[k + 1].a then RemoveAt(fs, k + 1)[k := Blk(fs[k].a, fs[k].n + fs[k + 1].n)]
    else fs
  }

  /** The list once `b` is freed. */
  function Insert(fs: seq<Blk>, k: nat, b: Blk): seq<Blk>
    requires k < |fs|
  {
    Coalesce(AddAfter(fs, k, b), k)
  }

  /** Ordered, except that blocks k and k+1 may touch. */
  ghost predicate OrderedBut(fs: seq<Blk>, k: nat) {
    && 0 < |fs| && fs[0].n == 0
    && (forall i :: 0 < i < |fs| ==> fs[i].n > 0)
    && (forall i, j :: 0 <= i < j < |fs| ==>
          fs[i].End() < fs[j].a || (i == k && j == k + 1 && fs[i].End() == fs[j].a))
  }

  lemma AddAfterOrdered(fs: seq<Blk>, k: nat, b: Blk)
    requires Fits(fs, k, b)
    ensures OrderedBut(AddAfter(fs, k, b), k)
    ensures AddAfter(fs, k, b)[0].a == fs[0].a
    ensures k == 0 ==> AddAfter(fs, k, b)[k].End() != AddAfter(fs, k, b)[k + 1].a
  {
    hide InsertAt;
  }

  lemma CoalesceOrdered(fs: seq<Blk>, k: nat)
    requires OrderedBut(fs, k) && k + 1 < |fs|
    requires k == 0 ==> fs[k].End() != fs[k + 1].a
    ensures Ordered(Coalesce(fs, k)) && Coalesce(fs, k)[0].a == fs[0].a
  {
    hide RemoveAt;
  }

  lemma AddAfterCovers(fs: seq<Blk>, k: nat, b: Blk, u: nat)
    requires k < |fs|
    ensures Covers(AddAfter(fs, k, b), u) <==> Covers(fs, u) || b.Has(u)
  {
    hide InsertAt;
    var gs := AddAfter(fs, k, b);
    var next := k + 1 < |fs| && b.End() == fs[k + 1].a;
    if i :| 0 <= i < |fs| && fs[i].Has(u) {
      assert gs[if next || i <= k then i else i + 1].Has(u);
    }
    if b.Has(u) {
      assert gs[k + 1].Has(u);
    }
    if j :| 0 <= j < |gs| && gs[j].Has(u) && !b.Has(u) {
      assert fs[if next || j <= k then j else j - 1].Has(u);
    }
  }

  lemma CoalesceCovers(fs: seq<Blk>, k: nat, u: nat)
    requires k + 1 < |fs|
    ensures Covers(Coalesce(fs, k), u) <==> Covers(fs, u)
  {
    hide RemoveAt;
    var gs := Coalesce(fs, k);
    if fs[k].End() == fs[k + 1].a {
      if i :| 0 <= i < |fs| && fs[i].Has(u) {
        assert gs[if i <= k then i else i - 1].Has(u);
      }
      if j :| 0 <= j < |gs| && gs[j].Has(u) {
        assert fs[if j < k then j else j + 1].Has(u) || fs[k].Has(u);
      }
    }
  }

  /** Freeing keeps the list ordered with no two blocks adjacent, and the free units become those
      that were free and those of the block. */
  lemma InsertCorrect(fs: seq<Blk>, k: nat, b: Blk)
    requires Fits(fs, k, b)
    ensures Ordered(Insert(fs, k, b)) && Insert(fs, k, b)[0].a == fs[0].a
    ensures forall u: nat :: Covers(Insert(fs, k, b), u) <==> Covers(fs, u) || b.Has(u)
  {
    hide Ordered, OrderedBut, Covers, AddAfter, Coalesce;
    AddAfterOrdered(fs, k, b);
    CoalesceOrdered(AddAfter(fs, k, b), k);
    forall u: nat ensures Covers(Insert(fs, k, b), u) <==> Covers(fs, u) || b.Has(u) {
      AddAfterCovers(fs, k, b, u);
      CoalesceCovers(AddAfter(fs, k, b), k, u);
    }
  }

  /** Some block of the list holds at least the freed units. */
  lemma InsertHolds(fs: seq<Blk>, k: nat, b: Blk)
    requires Fits(fs, k, b)
    ensures exists i :: 0 <= i < |Insert(fs, k, b)| && Insert(fs, k, b)[i].n >= b.n
    ensures k < |Insert(fs, k, b)| && Insert(fs, k, b)[k].a == fs[k].a
  {
    hide InsertAt, RemoveAt;
    var gs := AddAfter(fs, k, b);
    assert gs[k + 1].n >= b.n;
    var hs := Insert(fs, k, b);
    assert hs[if gs[k].End() == gs[k + 1].a then k else k + 1].n >= b.n;
  }

  /** Allocating `n` units from the end of block t. */
  function Take(fs: seq<Blk>, t: nat, n: nat): seq<Blk>
    requires t < |fs| && n <= fs[t].n
  {
    if fs[t].n == n then RemoveAt(fs, t) else fs[t := Blk(fs[t].a, fs[t].n - n)]
  }

  function Taken(fs: seq<Blk>, t: nat, n: nat): Blk
    requires t < |fs| && n <= fs[t].n
  {
    Blk(fs[t].a + (fs[t].n - n), n)
  }

  lemma TakeCorrect(fs: seq<Blk>, t: nat, n: nat)
    requires Ordered(fs) && t < |fs| && 0 < n <= fs[t].n
    ensures 0 < t && Ordered(Take(fs, t, n)) && Take(fs, t, n)[0] == fs[0]
    ensures fs[0].a < Taken(fs, t, n).a
    ensures forall i :: 0 <= i < |Take(fs, t, n)| ==>
              Take(fs, t, n)[i].End() <= Taken(fs, t, n).a || Taken(fs, t, n).End() <= Take(fs, t, n)[i].a
  {
    hide RemoveAt;
  }

  lemma TakeCovers(fs: seq<Blk>, t: nat, n: nat, u: nat)
    requires t < |fs| && 0 < n <= fs[t].n
    ensures Covers(fs, u) <==> Covers(Take(fs, t, n), u) || Taken(fs, t, n).Has(u)
  {
    hide RemoveAt;
    var gs := Take(fs, t, n);
    if i :| 0 <= i < |fs| && fs[i].Has(u) && !Taken(fs, t, n).Has(u) {
      assert gs[if |gs| == |fs| || i < t then i else i - 1].Has(u);
    }
    if Taken(fs, t, n).Has(u) {
      assert fs[t].Has(u);
    }
    if j :| 0 <= j < |gs| && gs[j].Has(u) {
      assert fs[if |gs| == |fs| || j < t then j else j + 1].Has(u);
    }
  }

  // ----- the list in memory

  type Words = map<nat, nat>

  function NextA(fs: seq<Blk>, i: nat): nat
    requires i < |fs|
  {
    if i + 1 < |fs| then fs[i + 1].a else fs[0].a
  }

  /** The headers hold the list: following `ptr` from any block goes round all of them in address
      order, wrapping once. Where `hole` names a block, its pointer is not yet set. */
  ghost predicate Links(ptr: Words, size: Words, fs: seq<Blk>, hole: nat) {
    && (forall i :: 0 <= i < |fs| ==> fs[i].a in ptr && fs[i].a in size)
    && (forall i :: 0 <= i < |fs| ==> size[fs[i].a] == fs[i].n)
    && (forall i {:trigger NextA(fs, i)} :: 0 <= i < |fs| && i != hole ==> ptr[fs[i].a] == NextA(fs, i))
  }

  lemma Apart(fs: seq<Blk>, k: nat, b: Blk)
    requires Fits(fs, k, b)
    ensures forall i :: 0 <= i < |fs| ==> fs[i].a != b.a
    ensures b.End() == NextA(fs, k) <==> k + 1 < |fs| && b.End() == fs[k + 1].a
  {
  }

  lemma AddLinks(ptr: Words, size: Words, fs: seq<Blk>, k: nat, b: Blk)
    requires Fits(fs, k, b) && Links(ptr, size, fs, |fs|)
    ensures var next := NextA(fs, k);
            if b.End() == next then Links(ptr[b.a := ptr[next]], size[b.a := b.n + size[next]], AddAfter(fs, k, b), k)
            else Links(ptr[b.a := next], size[b.a := b.n], AddAfter(fs, k, b), k)
  {
    hide InsertAt, Ordered;
    Apart(fs, k, b);
    var next := NextA(fs, k);
    var gs := AddAfter(fs, k, b);
    var merged := b.End() == next;
    var ptr' := if merged then ptr[b.a := ptr[next]] else ptr[b.a := next];
    forall i | 0 <= i < |gs| && i != k ensures ptr'[gs[i].a] == NextA(gs, i) {
      var j := if merged || i <= k then i else i - 1;
      var next' := NextA(fs, j);
      assert ptr[fs[j].a] == next';
    }
  }

  lemma Separate(fs: seq<Blk>, k: nat)
    requires OrderedBut(fs, k) && k + 1 < |fs|
    requires k == 0 ==> fs[k].End() != fs[k + 1].a
    ensures forall i :: 0 <= i < |fs| && i != k ==> fs[i].a != fs[k].a
  {
  }

  lemma CoalesceLinks(ptr: Words, size: Words, fs: seq<Blk>, k: nat)
    requires OrderedBut(fs, k) && k + 1 < |fs| && Links(ptr, size, fs, k)
    requires k == 0 ==> fs[k].End() != fs[k + 1].a
    ensures var p, bp := fs[k].a, fs[k + 1].a;
            if fs[k].End() == bp then
              Links(ptr[p := ptr[bp]], size[p := size[p] + size[bp]], Coalesce(fs, k), |Coalesce(fs, k)|)
            else Links(ptr[p := bp], size, Coalesce(fs, k), |Coalesce(fs, k)|)
  {
    hide RemoveAt, OrderedBut;
    var p, bp := fs[k].a, fs[k + 1].a;
    var merged := fs[k].End() == bp;
    Separate(fs, k);
    var gs := Coalesce(fs, k);
    var ptr' := if merged then ptr[p := ptr[bp]] else ptr[p := bp];
    forall i | 0 <= i < |gs| ensures ptr'[gs[i].a] == NextA(gs, i) {
      var j := if !merged || i < k then i else i + 1;
      var next := NextA(fs, j);
      assert j != k ==> ptr[fs[j].a] == next;
    }
  }

  lemma TakeApart(fs: seq<Blk>, t: nat, n: nat)
    requires Ordered(fs) && 0 < t < |fs| && 0 < n <= fs[t].n
    ensures forall i :: 0 <= i < |fs| && i != t - 1 ==> fs[i].a != fs[t - 1].a
    ensures forall i :: 0 <= i < |fs| && i != t ==> fs[i].a != fs[t].a && fs[i].a != fs[t].a + (fs[t].n - n)
  {
  }

  lemma TakeLinks(ptr: Words, size: Words, fs: seq<Blk>, t: nat, n: nat)
    requires Ordered(fs) && 0 < t < |fs| && 0 < n <= fs[t].n && Links(ptr, size, fs, |fs|)
    ensures if fs[t].n == n then Links(ptr[fs[t - 1].a := ptr[fs[t].a]], size, Take(fs, t, n), |Take(fs, t, n)|)
            else
              var m := fs[t].n - n; Links(ptr, size[fs[t].a := m][fs[t].a + m := n], Take(fs, t, n), |Take(fs, t, n)|)
  {
    hide RemoveAt, Ordered;
    TakeApart(fs, t, n);
    var gs := Take(fs, t, n);
    var next := NextA(fs, t);
    assert ptr[fs[t].a] == next;
    var ptr' := if fs[t].n == n then ptr[fs[t - 1].a := ptr[fs[t].a]] else ptr;
    forall i | 0 <= i < |gs| ensures ptr'[gs[i].a] == NextA(gs, i) {
      var j := if |gs| == |fs| || i < t then i else i + 1;
      var next' := NextA(fs, j);
      assert ptr[fs[j].a] == next';
    }
  }

  // ----- free and allocated blocks together

  ghost predicate LiveAt(live: Words, u: nat) {
    exists a :: a in live && Blk(a, live[a]).Has(u)
  }

  /** Free and allocated blocks are pairwise disjoint and lie below `brk`. */
  ghost predicate Disjoint(fs: seq<Blk>, live: Words, brk: nat) {
    && Ordered(fs) && fs[0].a < brk
    && (forall i :: 0 <= i < |fs| ==> fs[i].End() <= brk)
    && (forall a :: a in live ==> fs[0].a < a && 0 < live[a] && a + live[a] <= brk)
    && (forall a, i :: a in live && 0 <= i < |fs| ==> a + live[a] <= fs[i].a || fs[i].End() <= a)
    && (forall a, b :: a in live && b in live && a < b ==> a + live[a] <= b)
  }

  /** Every unit obtained from sbrk is in a free or an allocated block, and no other unit is. */
  ghost predicate Conserved(fs: seq<Blk>, live: Words, owned: set<nat>) {
    forall u: nat :: u in owned <==> Covers(fs, u) || LiveAt(live, u)
  }

  /** The block after which `bp` belongs. */
  ghost function Place(fs: seq<Blk>, bp: nat): (k: nat)
    requires 0 < |fs| && fs[0].a < bp
    ensures k < |fs| && fs[k].a < bp && forall i :: k < i < |fs| ==> bp <= fs[i].a
  {
    if fs[|fs| - 1].a < bp then |fs| - 1
    else var k := Place(fs[..|fs| - 1], bp); k
  }

  lemma PlaceFits(fs: seq<Blk>, live: Words, brk: nat, bp: nat)
    requires Disjoint(fs, live, brk) && bp in live
    ensures Fits(fs, Place(fs, bp), Blk(bp, live[bp]))
    ensures forall i :: 0 <= i < |fs| ==> fs[i].a != bp
  {
  }

  lemma FreeCorrect(fs: seq<Blk>, live: Words, brk: nat, owned: set<nat>, bp: nat)
    requires Disjoint(fs, live, brk) && Conserved(fs, live, owned) && bp in live
    ensures var gs := Insert(fs, Place(fs, bp), Blk(bp, live[bp]));
            Disjoint(gs, live - {bp}, brk) && Conserved(gs, live - {bp}, owned)
  {
    var k, b := Place(fs, bp), Blk(bp, live[bp]);
    PlaceFits(fs, live, brk, bp);
    InsertCorrect(fs, k, b);
    FreeDisjoint(fs, live, brk, bp);
    hide Ordered, Fits, Insert, Covers;
    forall u: nat ensures u in owned <==> Covers(Insert(fs, k, b), u) || LiveAt(live - {bp}, u) {
      DropLive(live, bp, u);
    }
  }

  /** Free blocks whose units avoid the allocated ones are disjoint from the allocated blocks. */
  lemma DisjointByUnits(gs: seq<Blk>, live: Words, brk: nat)
    requires Ordered(gs) && gs[0].a < brk
    requires forall a :: a in live ==> gs[0].a < a && 0 < live[a] && a + live[a] <= brk
    requires forall a, b :: a in live && b in live && a < b ==> a + live[a] <= b
    requires forall u: nat :: Covers(gs, u) ==> u < brk && !LiveAt(live, u)
    ensures Disjoint(gs, live, brk)
  {
    forall i | 0 <= i < |gs| ensures gs[i].End() <= brk {
      if i > 0 {
        assert gs[i].Has(gs[i].End() - 1);
        assert Covers(gs, gs[i].End() - 1);
      }
    }
    forall a, i | a in live && 0 <= i < |gs| ensures a + live[a] <= gs[i].a || gs[i].End() <= a {
      if i > 0 {
        var u := if a < gs[i].a then gs[i].a else a;
        if u < a + live[a] && u < gs[i].End() {
          assert gs[i].Has(u) && Blk(a, live[a]).Has(u);
          assert Covers(gs, u);
        }
      }
    }
  }

  lemma UnitsApart(fs: seq<Blk>, live: Words, brk: nat, u: nat)
    requires Disjoint(fs, live, brk)
    ensures Covers(fs, u) ==> u < brk && !LiveAt(live, u)
    ensures forall a :: a in live && Blk(a, live[a]).Has(u) ==>
              u < brk && forall b :: b in live && b != a ==> !Blk(b, live[b]).Has(u)
  {
  }

  lemma DropLive(live: Words, bp: nat, u: nat)
    requires bp in live && forall a, b :: a in live && b in live && a < b ==> a + live[a] <= b
    ensures LiveAt(live, u) <==> LiveAt(live - {bp}, u) || Blk(bp, live[bp]).Has(u)
    ensures Blk(bp, live[bp]).Has(u) ==> !LiveAt(live - {bp}, u)
  {
    if c :| c in live && Blk(c, live[c]).Has(u) {
      assert c != bp ==> c in live - {bp} && Blk(c, (live - {bp})[c]).Has(u);
    }
    if c :| c in live - {bp} && Blk(c, (live - {bp})[c]).Has(u) {
      assert c in live && Blk(c, live[c]).Has(u);
    }
  }

  lemma FreeDisjoint(fs: seq<Blk>, live: Words, brk: nat, bp: nat)
    requires Disjoint(fs, live, brk) && bp in live
    ensures Disjoint(Insert(fs, Place(fs, bp), Blk(bp, live[bp])), live - {bp}, brk)
  {
    hide Insert, Place, Fits, Covers;
    var k, b := Place(fs, bp), Blk(bp, live[bp]);
    var live' := live - {bp};
    PlaceFits(fs, live, brk, bp);
    InsertCorrect(fs, k, b);
    forall u: nat | Covers(Insert(fs, k, b), u) ensures u < brk && !LiveAt(live', u) {
      UnitsApart(fs, live, brk, u);
      DropLive(live, bp, u);
    }
    DisjointByUnits(Insert(fs, k, b), live', brk);
  }

  function Keep(live: Words, a: nat, n: nat): Words { live[a := n] }

  lemma AllocCorrect(fs: seq<Blk>, live: Words, brk: nat, owned: set<nat>, t: nat, n: nat)
    requires Disjoint(fs, live, brk) && Conserved(fs, live, owned) && t < |fs| && 0 < n <= fs[t].n
    ensures var b := Taken(fs, t, n);
            && b.a !in live
            && Disjoint(Take(fs, t, n), Keep(live, b.a, n), brk)
            && Conserved(Take(fs, t, n), Keep(live, b.a, n), owned)
  {
    var gs, b := Take(fs, t, n), Taken(fs, t, n);
    var live' := Keep(live, b.a, n);
    TakeCorrect(fs, t, n);
    TakenApart(fs, live, brk, t, n);
    hide Take, Taken, Ordered, Covers;
    assert Disjoint(gs, live', brk) by {
      forall u: nat | Covers(gs, u) ensures u < brk && !LiveAt(live', u) {
        TakeCovers(fs, t, n, u);
        UnitsApart(fs, live, brk, u);
        KeepLive(live, b.a, n, u);
        TakeLeaves(fs, t, n, u);
      }
      DisjointByUnits(gs, live', brk);
    }
    assert Conserved(gs, live', owned) by {
      hide Disjoint;
      forall u: nat ensures u in owned <==> Covers(gs, u) || LiveAt(live', u) {
        TakeCovers(fs, t, n, u);
        KeepLive(live, b.a, n, u);
      }
    }
  }

  lemma TakenApart(fs: seq<Blk>, live: Words, brk: nat, t: nat, n: nat)
    requires Disjoint(fs, live, brk) && t < |fs| && 0 < n <= fs[t].n
    ensures Taken(fs, t, n).a !in live && Taken(fs, t, n).End() <= brk
    ensures forall a :: a in live ==> a + live[a] <= Taken(fs, t, n).a || Taken(fs, t, n).End() <= a
  {
  }

  lemma TakeLeaves(fs: seq<Blk>, t: nat, n: nat, u: nat)
    requires Ordered(fs) && t < |fs| && 0 < n <= fs[t].n && Covers(Take(fs, t, n), u)
    ensures !Taken(fs, t, n).Has(u)
  {
    hide Take, Taken;
    TakeCorrect(fs, t, n);
  }

  lemma KeepLive(live: Words, a: nat, n: nat, u: nat)
    requires a !in live
    ensures LiveAt(Keep(live, a, n), u) <==> LiveAt(live, u) || Blk(a, n).Has(u)
  {
    var live' := Keep(live, a, n);
    if c :| c in live && Blk(c, live[c]).Has(u) {
      assert c in live' && Blk(c, live'[c]).Has(u);
    }
    if Blk(a, n).Has(u) {
      assert a in live' && Blk(a, live'[a]).Has(u);
    }
    if c :| c in live' && Blk(c, live'[c]).Has(u) {
      assert c == a || (c in live && Blk(c, live[c]).Has(u));
    }
  }

  function Span(a: nat, n: nat): (s: set<nat>)
    ensures forall u: nat :: u in s <==> a <= u < a + n
  {
    if n == 0 then {} else Span(a, n - 1) + {a + n - 1}
  }

  /** A fresh region above everything counts as allocated until it is freed into the list. */
  lemma GrowCorrect(fs: seq<Blk>, live: Words, brk: nat, owned: set<nat>, g: nat, n: nat)
    requires Disjoint(fs, live, brk) && Conserved(fs, live, owned) && brk <= g && 0 < n
    ensures g !in live
    ensures Disjoint(fs, Keep(live, g, n), g + n)
    ensures Conserved(fs, Keep(live, g, n), owned + Span(g, n))
  {
    hide Covers;
    forall u: nat ensures u in owned + Span(g, n) <==> Covers(fs, u) || LiveAt(Keep(live, g, n), u) {
      KeepLive(live, g, n, u);
    }
  }

  ghost predicate OnList(fs: seq<Blk>, p: nat) {
    exists i :: 0 <= i < |fs| && fs[i].a == p
  }

  /** The header of every allocated block still holds its size. */
  ghost predicate Sized(size: Words, live: Words) {
    forall a :: a in live ==> a in size && size[a] == live[a]
  }

  // ----- scanning the ring

  /** The index of the c-th block after block f on the ring. */
  function Rot(f: nat, c: nat, n: nat): (i: nat)
    requires f < n && c < n
    ensures i < n
  {
    if f + 1 + c < n then f + 1 + c else f + 1 + c - n
  }

  function Before(i: nat, n: nat): (j: nat)
    requires i < n
    ensures j < n
  {
    if i == 0 then n - 1 else i - 1
  }

  lemma AllSmall(fs: seq<Blk>, f: nat, n: nat)
    requires f < |fs| && forall c :: 0 <= c < |fs| ==> fs[Rot(f, c, |fs|)].n < n
    ensures forall i :: 0 <= i < |fs| ==> fs[i].n < n
  {
    forall i | 0 <= i < |fs| ensures fs[i].n < n {
      var c := if i > f then i - f - 1 else i + |fs| - f - 1;
      assert Rot(f, c, |fs|) == i;
    }
  }

  // ----- the code

  const UINT: nat := 0x1_0000_0000
  const HEADER: nat := 8

  /** The size computation of malloc in 32-bit unsigned arithmetic. */
  function Units(nbytes: nat): (n: nat)
    ensures n > 0
  {
    (nbytes + HEADER - 1) % UINT / HEADER + 1
  }

  /** A block of Units(nbytes) units, header included, holds nbytes exactly when adding the rounding
      term does not wrap around. */
  lemma UnitsHold(nbytes: nat)
    requires nbytes < UINT
    ensures (Units(nbytes) - 1) * HEADER >= nbytes <==> nbytes + HEADER - 1 < UINT
    ensures nbytes + HEADER - 1 < UINT ==> (Units(nbytes) - 2) * HEADER < nbytes
  {
    if nbytes + HEADER - 1 >= UINT {
      assert (nbytes + HEADER - 1) % UINT == nbytes + HEADER - 1 - UINT;
    }
  }

  /** malloc looks at block c after freep, and every block before that was too small. */
  ghost predicate ScannedTo(fs: seq<Blk>, freep: nat, f: nat, c: nat, prevp: nat, p: nat, n: nat) {
    && f < |fs| && fs[f].a == freep && c < |fs|
    && p == fs[Rot(f, c, |fs|)].a && prevp == fs[Before(Rot(f, c, |fs|), |fs|)].a
    && forall j :: 0 <= j < c ==> fs[Rot(f, j, |fs|)].n < n
  }

  /** Block t is the first one after freep, going round the ring, with n units. */
  ghost predicate NextFit(fs: seq<Blk>, freep: nat, t: nat, n: nat) {
    && 0 < t < |fs| && n <= fs[t].n
    && exists f, c :: FirstAfter(fs, freep, f, c, t, n)
  }

  ghost predicate FirstAfter(fs: seq<Blk>, freep: nat, f: nat, c: nat, t: nat, n: nat) {
    && f < |fs| && fs[f].a == freep && c < |fs| && t == Rot(f, c, |fs|)
    && forall j :: 0 <= j < c ==> fs[Rot(f, j, |fs|)].n < n
  }

  /** The list before the first call is the base alone. */
  function Started(fs: seq<Blk>, freep: nat, base: nat): seq<Blk> { if freep == 0 then [Blk(base, 0)] else fs }

  /** malloc's block is cut from the first that fits, and the next search starts in front of it. */
  ghost predicate Allotted(fs: seq<Blk>, freep: nat, t: nat, n: nat, fs': seq<Blk>, freep': nat, bp: nat) {
    && NextFit(fs, freep, t, n)
    && fs' == Take(fs, t, n) && bp == Taken(fs, t, n).a && freep' == fs[t - 1].a
  }

  ghost predicate NoFit(fs: seq<Blk>, n: nat) { forall i :: 0 <= i < |fs| ==> fs[i].n < n }

  lemma StartOk(ptr: Words, size: Words, fs: seq<Blk>, brk: nat)
    requires |fs| == 1 && fs[0].n == 0 && fs[0].a < brk
    requires fs[0].a in ptr && ptr[fs[0].a] == fs[0].a && fs[0].a in size && size[fs[0].a] == 0
    ensures Disjoint(fs, map[], brk) && Conserved(fs, map[], {}) && Links(ptr, size, fs, |fs|)
    ensures OnList(fs, fs[0].a) && Sized(size, map[])
  {
  }

  lemma ScanStart(ptr: Words, size: Words, fs: seq<Blk>, freep: nat, n: nat) returns (f: nat)
    requires Links(ptr, size, fs, |fs|) && OnList(fs, freep)
    ensures freep in ptr && ScannedTo(fs, freep, f, 0, freep, ptr[freep], n)
  {
    f := ListIndex(fs, freep);
    LinkedBlocks(ptr, size, fs, f);
  }

  /** The block under the scan: either it is large enough, or the scan goes on, or the whole ring
      has been seen and every block is too small. */
  lemma ScanHere(ptr: Words, size: Words, fs: seq<Blk>, live: Words, brk: nat,
                 freep: nat, f: nat, c: nat, prevp: nat, p: nat, n: nat) returns (t: nat)
    requires Links(ptr, size, fs, |fs|) && Disjoint(fs, live, brk) && 0 < n
    requires ScannedTo(fs, freep, f, c, prevp, p, n)
    ensures c < |fs| && p in ptr && p in size && t < |fs| && fs[t].a == p && fs[t].n == size[p]
    ensures size[p] >= n ==> 0 < t && fs[t - 1].a == prevp && NextFit(fs, freep, t, n)
    ensures size[p] < n && p == freep ==> forall i :: 0 <= i < |fs| ==> fs[i].n < n
    ensures size[p] < n && p != freep ==> c + 1 < |fs| && ScannedTo(fs, freep, f, c + 1, p, ptr[p], n)
  {
    t := Rot(f, c, |fs|);
    LinkedBlocks(ptr, size, fs, t);
    ScanLast(fs, f, c);
    hide Disjoint, Links;
    if size[p] >= n {
      NotBase(fs, live, brk, t, n);
      assert FirstAfter(fs, freep, f, c, t, n);
    } else if p == freep {
      AllSmall(fs, f, n);
    }
  }

  lemma NotBase(fs: seq<Blk>, live: Words, brk: nat, t: nat, n: nat)
    requires Disjoint(fs, live, brk) && t < |fs| && 0 < n <= fs[t].n
    ensures 0 < t
  {
  }

  lemma ScanLast(fs: seq<Blk>, f: nat, c: nat)
    requires Ordered(fs) && f < |fs| && c < |fs|
    ensures fs[Rot(f, c, |fs|)].a == fs[f].a <==> c == |fs| - 1
  {
  }

  lemma TakeStep(ptr: Words, size: Words, fs: seq<Blk>, live: Words, brk: nat, owned: set<nat>, t: nat, n: nat)
    requires Disjoint(fs, live, brk) && Conserved(fs, live, owned) && Links(ptr, size, fs, |fs|) && Sized(size, live)
    requires 0 < t < |fs| && 0 < n <= fs[t].n
    ensures var b, gs := Taken(fs, t, n), Take(fs, t, n);
            var size' := if fs[t].n == n then size else size[fs[t].a := fs[t].n - n][b.a := n];
            var ptr' := if fs[t].n == n then ptr[fs[t - 1].a := NextA(fs, t)] else ptr;
            && b.a !in live && 0 < |gs| && gs[0].a == fs[0].a && fs[0].a <= fs[t - 1].a
            && Disjoint(gs, Keep(live, b.a, n), brk) && Conserved(gs, Keep(live, b.a, n), owned)
            && Links(ptr', size', gs, |gs|) && Sized(size', Keep(live, b.a, n)) && OnList(gs, fs[t - 1].a)
  {
    hide Conserved, RemoveAt, Covers, Links;
    AllocCorrect(fs, live, brk, owned, t, n);
    TakeCorrect(fs, t, n);
    TakeLinks(ptr, size, fs, t, n);
    LinkedBlocks(ptr, size, fs, t);
    TakeKeepsLive(size, fs, live, brk, t, n);
    assert Take(fs, t, n)[t - 1] == fs[t - 1] by { TakePrev(fs, t, n); }
  }

  lemma TakePrev(fs: seq<Blk>, t: nat, n: nat)
    requires Ordered(fs) && 0 < t < |fs| && n <= fs[t].n
    ensures t - 1 < |Take(fs, t, n)| && Take(fs, t, n)[t - 1] == fs[t - 1] && fs[0].a <= fs[t - 1].a
  {
  }

  lemma TakeKeepsLive(size: Words, fs: seq<Blk>, live: Words, brk: nat, t: nat, n: nat)
    requires Disjoint(fs, live, brk) && Sized(size, live) && 0 < t < |fs| && 0 < n <= fs[t].n
    requires fs[t].a in size && size[fs[t].a] == fs[t].n
    ensures var b := Taken(fs, t, n);
            Sized(if fs[t].n == n then size else size[fs[t].a := fs[t].n - n][b.a := n], Keep(live, b.a, n))
  {
    TakenApart(fs, live, brk, t, n);
    assert forall a :: a in live ==> a != fs[t].a;
  }

  function CoreUnits(nu: nat): nat { if nu < 4096 then 4096 else nu }

  lemma GrowSize(fs: seq<Blk>, live: Words, brk: nat, g: nat)
    requires Disjoint(fs, live, brk) && brk <= g
    ensures forall i :: 0 <= i < |fs| ==> fs[i].a != g
    ensures g !in live
  {
  }

  lemma NewHeader(ptr: Words, size: Words, fs: seq<Blk>, live: Words, g: nat, n: nat)
    requires Links(ptr, size, fs, |fs|) && forall i :: 0 <= i < |fs| ==> fs[i].a != g
    requires Sized(size, live) && g !in live
    ensures Links(ptr, size[g := n], fs, |fs|)
    ensures Sized(size[g := n], Keep(live, g, n))
  {
  }

  // The pointer and size words once free() has linked block `bp` behind `p`.

  predicate HasBlocks(ptr: Words, size: Words, p: nat, bp: nat) {
    p in ptr && p in size && bp in size && ptr[p] in ptr && ptr[p] in size
  }

  function FreedSize(ptr: Words, size: Words, p: nat, bp: nat): Words
    requires HasBlocks(ptr, size, p, bp)
  {
    var size1 := if bp + size[bp] == ptr[p] then size[bp := size[bp] + size[ptr[p]]] else size;
    if p + size1[p] == bp then size1[p := size1[p] + size1[bp]] else size1
  }

  function FreedPtr(ptr: Words, size: Words, p: nat, bp: nat): Words
    requires HasBlocks(ptr, size, p, bp)
  {
    var size1 := if bp + size[bp] == ptr[p] then size[bp := size[bp] + size[ptr[p]]] else size;
    var ptr1 := ptr[bp := if bp + size[bp] == ptr[p] then ptr[ptr[p]] else ptr[p]];
    if p + size1[p] == bp then ptr1[p := ptr1[bp]] else ptr1[p := bp]
  }

  lemma ListIndex(fs: seq<Blk>, p: nat) returns (i: nat)
    requires OnList(fs, p)
    ensures i < |fs| && fs[i].a == p
  {
    i :| 0 <= i < |fs| && fs[i].a == p;
  }

  lemma CanPlace(fs: seq<Blk>, live: Words, brk: nat, bp: nat)
    requires Disjoint(fs, live, brk) && bp in live
    ensures 0 < |fs| && fs[0].a < bp
  {
  }

  lemma AddAt(fs: seq<Blk>, k: nat, b: Blk)
    requires Fits(fs, k, b)
    ensures AddAfter(fs, k, b)[k] == fs[k] && AddAfter(fs, k, b)[k + 1].a == b.a
  {
    hide InsertAt;
  }

  lemma LinkedBlocks(ptr: Words, size: Words, fs: seq<Blk>, k: nat)
    requires 0 < |fs| && k < |fs| && Links(ptr, size, fs, |fs|)
    ensures var p := fs[k].a;
            p in ptr && p in size && ptr[p] == NextA(fs, k) && ptr[p] in ptr && ptr[p] in size && size[p] == fs[k].n
  {
    var next := NextA(fs, k);
    assert ptr[fs[k].a] == next;
  }

  lemma FreedLinks(ptr: Words, size: Words, fs: seq<Blk>, k: nat, b: Blk)
    requires Fits(fs, k, b) && Links(ptr, size, fs, |fs|) && b.a in size && size[b.a] == b.n
    ensures HasBlocks(ptr, size, fs[k].a, b.a)
    ensures var p, gs := fs[k].a, Insert(fs, k, b);
            Links(FreedPtr(ptr, size, p, b.a), FreedSize(ptr, size, p, b.a), gs, |gs|)
  {
    hide AddAfter, Coalesce, OrderedBut, Ordered, Links, NextA;
    LinkedBlocks(ptr, size, fs, k);
    var p, bp, gs := fs[k].a, b.a, AddAfter(fs, k, b);
    AddAfterOrdered(fs, k, b);
    AddLinks(ptr, size, fs, k, b);
    AddAt(fs, k, b);
    assert p != bp by { Apart(fs, k, b); }
    if bp + size[bp] == ptr[p] {
      CoalesceLinks(ptr[bp := ptr[ptr[p]]], size[bp := size[bp] + size[ptr[p]]], gs, k);
    } else {
      assert size[bp := b.n] == size;
      CoalesceLinks(ptr[bp := ptr[p]], size, gs, k);
    }
  }

  /** What the assignments of free() establish. */
  lemma FreeStep(ptr: Words, size: Words, fs: seq<Blk>, live: Words, brk: nat, owned: set<nat>, bp: nat)
    requires Disjoint(fs, live, brk) && Conserved(fs, live, owned) && Links(ptr, size, fs, |fs|) && bp in live
    requires Sized(size, live)
    ensures var k, b := Place(fs, bp), Blk(bp, live[bp]);
            var p, gs := fs[k].a, Insert(fs, k, b);
            && HasBlocks(ptr, size, p, bp)
            && Disjoint(gs, live - {bp}, brk) && Conserved(gs, live - {bp}, owned) && gs[0].a == fs[0].a
            && Links(FreedPtr(ptr, size, p, bp), FreedSize(ptr, size, p, bp), gs, |gs|)
            && OnList(gs, p) && fs[0].a <= p && bp in size && size[bp] == b.n
            && (forall u: nat :: Covers(gs, u) <==> Covers(fs, u) || b.Has(u))
            && (exists i :: 0 <= i < |gs| && gs[i].n >= b.n)
            && Sized(FreedSize(ptr, size, p, bp), live - {bp})
  {
    PlaceFits(fs, live, brk, bp);
    hide Conserved, Place, Fits, Covers, Insert, Links, HasBlocks, FreedSize, FreedPtr;
    var k, b := Place(fs, bp), Blk(bp, live[bp]);
    FreeCorrect(fs, live, brk, owned, bp);
    InsertCorrect(fs, k, b);
    InsertHolds(fs, k, b);
    FreedLinks(ptr, size, fs, k, b);
    FreedKeepsLive(ptr, size, fs, live, brk, k, bp);
    assert Insert(fs, k, b)[k].a == fs[k].a;
  }

  lemma FreedKeepsLive(ptr: Words, size: Words, fs: seq<Blk>, live: Words, brk: nat, k: nat, bp: nat)
    requires Disjoint(fs, live, brk) && bp in live && k < |fs| && HasBlocks(ptr, size, fs[k].a, bp)
    requires Sized(size, live)
    ensures Sized(FreedSize(ptr, size, fs[k].a, bp), live - {bp})
  {
    forall a | a in live ensures a != fs[k].a { }
  }

  function AfterIndex(fs: seq<Blk>, i: nat): (j: nat)
    requires i < |fs|
    ensures j < |fs| && fs[j].a == NextA(fs, i)
  {
    if i + 1 < |fs| then i + 1 else 0
  }

  /** The two exit tests of the search in free() hold together exactly at the right block. */
  lemma StopsAt(fs: seq<Blk>, k: nat, b: Blk, i: nat)
    requires Fits(fs, k, b) && i < |fs|
    ensures var p, next := fs[i].a, NextA(fs, i);
            i == k <==> (b.a > p && b.a < next) || (p >= next && (b.a > p || b.a < next))
  {
  }

  class Heap {
    const base: nat
    var ptr: Words
    var size: Words
    /** 0 stands for the null pointer before the first malloc. */
    var freep: nat
    var sbrks: nat
    ghost var fs: seq<Blk>
    ghost var live: Words
    ghost var owned: set<nat>
    ghost var brk: nat

    constructor (base: nat)
      requires 0 < base
      ensures Valid() && this.base == base && live == map[] && owned == {} && freep == 0 && brk == base + 1
    {
      this.base, ptr, size, freep, sbrks := base, map[], map[], 0, 0;
      fs, live, owned, brk := [], map[], {}, base + 1;
    }

    ghost predicate Valid()
      reads this
    {
      && 0 < base < brk
      && if freep == 0 then live == map[] && owned == {} && fs == []
         else
           && Disjoint(fs, live, brk) && Conserved(fs, live, owned) && fs[0].a == base
           && Links(ptr, size, fs, |fs|)
           && OnList(fs, freep) && Sized(size, live)
    }

    /** The search of free(): it ends within one pass of the ring, at the block after which the freed
        block belongs. */
    method FindPlace(bp: nat) returns (p: nat)
      requires Valid() && freep != 0 && bp in live
      ensures p == fs[Place(fs, bp)].a
    {
      hide Disjoint, Conserved, Place, Fits, NextA, Links, Sized, OnList;
      CanPlace(fs, live, brk, bp);
      PlaceFits(fs, live, brk, bp);
      ghost var k := Place(fs, bp);
      ghost var i := ListIndex(fs, freep);
      p := freep;
      LinkedBlocks(ptr, size, fs, i);
      StopsAt(fs, k, Blk(bp, live[bp]), i);
      while !(bp > p && bp < ptr[p])
        invariant 0 <= i < |fs| && fs[i].a == p && p in ptr && ptr[p] == NextA(fs, i)
        invariant i == k <==> (bp > p && bp < ptr[p]) || (p >= ptr[p] && (bp > p || bp < ptr[p]))
        decreases if i <= k then k - i else |fs| - i + k
      {
        if p >= ptr[p] && (bp > p || bp < ptr[p]) {
          break;
        }
        p := ptr[p];
        i := AfterIndex(fs, i);
        LinkedBlocks(ptr, size, fs, i);
        StopsAt(fs, k, Blk(bp, live[bp]), i);
      }
    }

    /** free: puts an allocated block back, merged with the free blocks it touches. */
    method Free(bp: nat)
      requires Valid() && freep != 0 && bp in live
      modifies this`ptr, this`size, this`freep, this`fs, this`live
      ensures Valid() && freep != 0 && live == old(live) - {bp}
      ensures 0 < |old(fs)| && old(fs)[0].a < bp
      ensures fs == Insert(old(fs), Place(old(fs), bp), Blk(bp, old(live)[bp]))
      ensures freep == old(fs)[Place(old(fs), bp)].a
      ensures forall u: nat :: Covers(fs, u) <==> old(Covers(fs, u)) || Blk(bp, old(live)[bp]).Has(u)
      ensures exists i :: 0 <= i < |fs| && fs[i].n >= old(live)[bp]
    {
      hide Disjoint, Conserved, Place, Fits, Covers, Insert, Links, OnList, Sized;
      CanPlace(fs, live, brk, bp);
      ghost var k, b := Place(fs, bp), Blk(bp, live[bp]);
      var p := FindPlace(bp);
      FreeStep(ptr, size, fs, live, brk, owned, bp);
      ghost var size', ptr' := FreedSize(ptr, size, p, bp), FreedPtr(ptr, size, p, bp);
      if bp + size[bp] == ptr[p] {
        size := size[bp := size[bp] + size[ptr[p]]];
        ptr := ptr[bp := ptr[ptr[p]]];
      } else {
        ptr := ptr[bp := ptr[p]];
      }
      if p + size[p] == bp {
        size := size[p := size[p] + size[bp]];
        ptr := ptr[p := ptr[bp]];
      } else {
        ptr := ptr[p := bp];
      }
      assert size == size' && ptr == ptr';
      freep := p;
      fs := Insert(fs, k, b);
      live := live - {bp};
    }

    /** morecore: asks sbrk for at least 4096 units and frees the region into the list. `grant` is
        the address sbrk returns, above every earlier region, or 0 where sbrk fails. */
    method MoreCore(nu: nat, grant: nat) returns (p: nat)
      requires Valid() && freep != 0 && 0 < nu && (grant == 0 || brk <= grant)
      modifies this
      ensures Valid() && freep != 0 && sbrks == old(sbrks) + 1 && live == old(live)
      ensures p == if grant == 0 then 0 else freep
      ensures grant == 0 ==> fs == old(fs) && owned == old(owned) && freep == old(freep)
      ensures grant != 0 ==> owned == old(owned) + Span(grant, CoreUnits(nu))
      ensures grant != 0 ==> exists i :: 0 <= i < |fs| && fs[i].n >= nu
      ensures grant != 0 ==> 0 < |old(fs)| && old(fs)[0].a < grant
      ensures grant != 0 ==>
                var k := Place(old(fs), grant);
                fs == Insert(old(fs), k, Blk(grant, CoreUnits(nu))) && freep == old(fs)[k].a
    {
      hide Disjoint, Conserved, Insert, Covers, Place, Links, Span, OnList, Sized;
      sbrks := sbrks + 1;
      var n := if nu < 4096 then 4096 else nu;
      if grant == 0 {
        return 0;
      }
      GrowCorrect(fs, live, brk, owned, grant, n);
      GrowSize(fs, live, brk, grant);
      NewHeader(ptr, size, fs, live, grant, n);
      size := size[grant := n];
      live, owned, brk := Keep(live, grant, n), owned + Span(grant, n), grant + n;
      Free(grant);
      assert live == old(live);
      p := freep;
    }

    /** The branch of malloc that found a block: unlinks it if it fits exactly, else cuts the request
        off its end. */
    method TakeBlock(prevp: nat, p: nat, nunits: nat, ghost t: nat) returns (ap: nat)
      requires Valid() && freep != 0 && 0 < t < |fs| && 0 < nunits <= fs[t].n
      requires fs[t].a == p && fs[t - 1].a == prevp
      modifies this`ptr, this`size, this`freep, this`fs, this`live
      ensures Valid() && freep != 0 && ap != 0
      ensures ap - 1 !in old(live) && live == Keep(old(live), ap - 1, nunits)
      ensures fs == Take(old(fs), t, nunits) && ap - 1 == Taken(old(fs), t, nunits).a && freep == prevp
    {
      hide Disjoint, Conserved, Covers, Links, OnList, Sized, Take, RemoveAt;
      LinkedBlocks(ptr, size, fs, t);
      LinkedBlocks(ptr, size, fs, t - 1);
      TakeStep(ptr, size, fs, live, brk, owned, t, nunits);
      var q := p;
      if size[p] == nunits {
        ptr := ptr[prevp := ptr[p]];
      } else {
        size := size[p := size[p] - nunits];
        q := p + size[p];
        size := size[q := nunits];
      }
      freep := prevp;
      live := Keep(live, q, nunits);
      fs := Take(fs, t, nunits);
      ap := q + 1;
    }

    /** The first call of malloc makes a list of the base alone. */
    method InitList()
      requires Valid() && freep == 0
      modifies this`ptr, this`size, this`freep, this`fs
      ensures Valid() && freep == base && fs == [Blk(base, 0)]
    {
      hide Disjoint, Conserved, Links, OnList, Sized;
      ptr, size := ptr[base := base], size[base := 0];
      freep := base;
      fs := [Blk(base, 0)];
      StartOk(ptr, size, fs, brk);
    }

    /** malloc: the address behind a header of a block that holds nbytes, cut from the first block after
        freep that is large enough. sbrk is asked, once, exactly when no free block is large enough, and
        then the same search is made in the list with the new region; 0 is returned exactly when sbrk is
        asked and fails. */
    method Malloc(nbytes: nat, grant: nat) returns (ap: nat, ghost t: nat)
      requires Valid() && nbytes < UINT && Units(nbytes) * HEADER < UINT / 2
      requires grant == 0 || brk <= grant
      modifies this
      ensures Valid() && sbrks == old(sbrks) + if NoFit(old(fs), Units(nbytes)) then 1 else 0
      ensures ap == 0 <==> NoFit(old(fs), Units(nbytes)) && grant == 0
      ensures ap != 0 ==> ap - 1 !in old(live) && live == Keep(old(live), ap - 1, Units(nbytes))
      ensures ap != 0 ==> nbytes + HEADER - 1 < UINT ==> (Units(nbytes) - 1) * HEADER >= nbytes
      ensures sbrks == old(sbrks) ==>
                && owned == old(owned)
                && Allotted(old(fs), old(freep), t, Units(nbytes), fs, freep, ap - 1)
      ensures sbrks != old(sbrks) && grant != 0 ==>
                && owned == old(owned) + Span(grant, CoreUnits(Units(nbytes))) && base < grant
                && var start := Started(old(fs), old(freep), base);
                   var k := Place(start, grant);
                   Allotted(Insert(start, k, Blk(grant, CoreUnits(Units(nbytes)))), start[k].a, t,
                            Units(nbytes), fs, freep, ap - 1)
      ensures ap == 0 ==>
                owned == old(owned) && live == old(live) && fs == Started(old(fs), old(freep), base)
    {
      hide Disjoint, Conserved, Links, OnList, Sized, Take, Taken, Span, ScannedTo, Units, CoreUnits, Insert;
      UnitsHold(nbytes);
      t := 0;
      var nunits := Units(nbytes);
      if freep == 0 {
        InitList();
      }
      var prevp := freep;
      ghost var start, from, at := fs, fs, freep;
      ghost var f: nat := ScanStart(ptr, size, fs, freep, nunits);
      var p := ptr[prevp];
      ghost var c: nat, grown := 0, false;
      while true
        invariant Valid() && freep != 0 && live == old(live) && fs == from && freep == at
        invariant ScannedTo(fs, freep, f, c, prevp, p, nunits)
        invariant sbrks == old(sbrks) + if grown then 1 else 0
        invariant !grown ==> owned == old(owned) && brk == old(brk) && from == start
        invariant !grown && old(freep) != 0 ==> at == old(freep)
        invariant grown ==> grant != 0 && owned == old(owned) + Span(grant, CoreUnits(nunits))
        invariant grown ==> NoFit(start, nunits) && 0 < |start| && start[0].a < grant
        invariant grown ==>
                    var k := Place(start, grant);
                    from == Insert(start, k, Blk(grant, CoreUnits(nunits))) && at == start[k].a
        invariant grown ==> exists i :: 0 <= i < |fs| && fs[i].n >= nunits
        decreases if grown then 0 else 1, |fs| - c
      {
        t := ScanHere(ptr, size, fs, live, brk, freep, f, c, prevp, p, nunits);
        if size[p] >= nunits {
          ap := TakeBlock(prevp, p, nunits, t);
          return;
        }
        if p == freep {
          p := MoreCore(nunits, grant);
          if p == 0 {
            return 0, t;
          }
          f := ScanStart(ptr, size, fs, freep, nunits);
          c, grown, from, at := 0, true, fs, freep;
        } else {
          c := c + 1;
        }
        prevp, p := p, ptr[p];
      }
    }
  }
}
