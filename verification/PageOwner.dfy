/** Physical pages and who uses each of them (xv6/vm.c, xv6/kalloc.c). A page-table entry is a word:
    frame number times 4096, plus flags. Every frame has one owner, so ownership is disjoint by
    construction; the invariant ties owners to what the page tables say. */
module PageOwner {

  const PGSIZE: nat := 4096
  const NENTRIES: nat := 1024
  /** Directory entries below this one map user memory: PDX(KERNBASE). */
  const USER: nat := 512

  const PTE_P: nat := 1
  const PTE_W: nat := 2
  const PTE_U: nat := 4

  /** Kernel image; on the free list; allocated but in no page table; a page directory; the page table
      of entry k of directory p; the user page of entry k of page table p. */
  datatype Owner = Kernel | Free | Held | Dir | Table(p: nat, k: nat) | Leaf(p: nat, k: nat)

  datatype Vm = Vm(mem: seq<seq<nat>>, own: seq<Owner>)

  predicate Present(w: nat) { w % 2 == 1 }

  function Frame(w: nat): nat { w / PGSIZE }

  function Flags(w: nat): nat { w % PGSIZE }

  /** The word `pa | perm | PTE_P`. */
  function Entry(frame: nat, perm: nat): (w: nat)
    requires perm < PGSIZE
    ensures Present(w) && Frame(w) == frame && Flags(w) == if Present(perm) then perm else perm + 1
  {
    EntryParts(frame, if Present(perm) then perm else perm + PTE_P);
    frame * PGSIZE + if Present(perm) then perm else perm + PTE_P
  }

  lemma EntryParts(q: nat, r: nat)
    requires r < PGSIZE
    ensures (q * PGSIZE + r) / PGSIZE == q && (q * PGSIZE + r) % PGSIZE == r && (q * PGSIZE + r) % 2 == r % 2
  {
    assert q * PGSIZE + r == 2 * (q * 2048) + r;
  }

  function Zeros(): (p: seq<nat>)
    ensures |p| == NENTRIES && forall k {:trigger p[k]} :: 0 <= k < NENTRIES ==> p[k] == 0
  {
    seq(NENTRIES, _ => 0)
  }

  ghost predicate Shape(s: Vm) {
    && |s.own| == |s.mem|
    && forall f {:trigger s.mem[f]} :: 0 <= f < |s.mem| ==> |s.mem[f]| == NENTRIES
  }

  /** Directories own page tables, and page tables of the user part own user pages. The page tables of
      the kernel part map physical memory that they do not own. */
  predicate Owns(o: Owner) { o.Dir? || (o.Table? && o.k < USER) }

  function Child(o: Owner, f: nat, k: nat): Owner { if o.Dir? then Table(f, k) else Leaf(f, k) }

  /** Entry k of frame f. */
  ghost predicate SlotOk(s: Vm, f: nat, k: nat)
    requires Shape(s) && f < |s.mem| && k < NENTRIES
  {
    Owns(s.own[f]) && Present(s.mem[f][k]) ==>
      Frame(s.mem[f][k]) < |s.mem| && s.own[Frame(s.mem[f][k])] == Child(s.own[f], f, k)
  }

  /** The entry that frame g is in. */
  ghost predicate FrameOk(s: Vm, g: nat)
    requires Shape(s) && g < |s.mem|
  {
    s.own[g].Table? || s.own[g].Leaf? ==>
      var f, k := s.own[g].p, s.own[g].k;
      && f < |s.mem| && k < NENTRIES && Owns(s.own[f]) && s.own[g] == Child(s.own[f], f, k)
      && Present(s.mem[f][k]) && Frame(s.mem[f][k]) == g
  }

  /** Page tables and owners agree. */
  ghost predicate Tree(s: Vm) {
    && Shape(s)
    && (forall f, k {:trigger SlotOk(s, f, k)} :: 0 <= f < |s.mem| && 0 <= k < NENTRIES ==> SlotOk(s, f, k))
    && (forall g {:trigger FrameOk(s, g)} :: 0 <= g < |s.mem| ==> FrameOk(s, g))
  }

  // ----- the changes, one at a time

  function SetPage(s: Vm, f: nat, page: seq<nat>): Vm
    requires f < |s.mem|
  {
    s.(mem := s.mem[f := page])
  }

  function SetOwner(s: Vm, f: nat, o: Owner): Vm
    requires f < |s.own|
  {
    s.(own := s.own[f := o])
  }

  function SetWord(s: Vm, f: nat, k: nat, w: nat): Vm
    requires f < |s.mem| && k < |s.mem[f]|
  {
    SetPage(s, f, s.mem[f][k := w])
  }

  lemma {:induction false} RewriteKeeps(s: Vm, g: nat, page: seq<nat>)
    requires Tree(s) && g < |s.mem| && |page| == NENTRIES && !Owns(s.own[g])
    ensures Tree(SetPage(s, g, page))
  {
    var t := SetPage(s, g, page);
    forall f, k {:trigger SlotOk(t, f, k)} | 0 <= f < |t.mem| && 0 <= k < NENTRIES ensures SlotOk(t, f, k) {
      assert SlotOk(s, f, k);
    }
    forall f {:trigger FrameOk(t, f)} | 0 <= f < |t.mem| ensures FrameOk(t, f) { assert FrameOk(s, f); }
  }

  /** A frame outside all page tables. */
  predicate Loose(o: Owner) { o.Free? || o.Held? }

  lemma {:induction false} ReownKeeps(s: Vm, g: nat, o: Owner)
    requires Tree(s) && g < |s.mem| && Loose(s.own[g]) && Loose(o)
    ensures Tree(SetOwner(s, g, o))
  {
    var t := SetOwner(s, g, o);
    forall f, k {:trigger SlotOk(t, f, k)} | 0 <= f < |t.mem| && 0 <= k < NENTRIES ensures SlotOk(t, f, k) {
      assert SlotOk(s, f, k);
    }
    forall f {:trigger FrameOk(t, f)} | 0 <= f < |t.mem| ensures FrameOk(t, f) { assert FrameOk(s, f); }
  }

  /** A held frame becomes a directory: it must be empty. */
  lemma {:induction false} DirKeeps(s: Vm, g: nat)
    requires Tree(s) && g < |s.mem| && s.own[g].Held? && s.mem[g] == Zeros()
    ensures Tree(SetOwner(s, g, Dir))
  {
    var t := SetOwner(s, g, Dir);
    forall f, k {:trigger SlotOk(t, f, k)} | 0 <= f < |t.mem| && 0 <= k < NENTRIES ensures SlotOk(t, f, k) {
      assert SlotOk(s, f, k);
    }
    forall f {:trigger FrameOk(t, f)} | 0 <= f < |t.mem| ensures FrameOk(t, f) { assert FrameOk(s, f); }
  }

  /** A held frame put into a free entry of a frame that owns. */
  function Linked(s: Vm, f: nat, k: nat, w: nat): Vm
    requires f < |s.mem| == |s.own| && k < |s.mem[f]| && Frame(w) < |s.own|
  {
    SetOwner(SetWord(s, f, k, w), Frame(w), Child(s.own[f], f, k))
  }

  lemma {:induction false} LinkKeeps(s: Vm, f: nat, k: nat, w: nat)
    requires Tree(s) && f < |s.mem| && k < NENTRIES && Owns(s.own[f]) && !Present(s.mem[f][k])
    requires Present(w) && Frame(w) < |s.mem| && s.own[Frame(w)].Held?
    requires s.own[f].Dir? && k < USER ==> s.mem[Frame(w)] == Zeros()
    ensures Tree(Linked(s, f, k, w))
  {
    var t, g := Linked(s, f, k, w), Frame(w);
    forall e, j {:trigger SlotOk(t, e, j)} | 0 <= e < |t.mem| && 0 <= j < NENTRIES ensures SlotOk(t, e, j) {
      assert SlotOk(s, e, j);
    }
    forall e {:trigger FrameOk(t, e)} | 0 <= e < |t.mem| ensures FrameOk(t, e) { assert FrameOk(s, e); }
  }

  /** A user page taken out of its entry. */
  function Unlinked(s: Vm, f: nat, k: nat): Vm
    requires f < |s.mem| == |s.own| && k < |s.mem[f]| && Frame(s.mem[f][k]) < |s.own|
  {
    SetWord(SetOwner(s, Frame(s.mem[f][k]), Held), f, k, 0)
  }

  lemma {:induction false} UnlinkKeeps(s: Vm, f: nat, k: nat)
    requires Tree(s) && f < |s.mem| && k < NENTRIES && s.own[f].Table? && Owns(s.own[f]) && Present(s.mem[f][k])
    ensures Frame(s.mem[f][k]) < |s.mem| && s.own[Frame(s.mem[f][k])] == Leaf(f, k) && Tree(Unlinked(s, f, k))
  {
    assert SlotOk(s, f, k);
    var t, g := Unlinked(s, f, k), Frame(s.mem[f][k]);
    forall e, j {:trigger SlotOk(t, e, j)} | 0 <= e < |t.mem| && 0 <= j < NENTRIES ensures SlotOk(t, e, j) {
      assert SlotOk(s, e, j);
    }
    forall e {:trigger FrameOk(t, e)} | 0 <= e < |t.mem| ensures FrameOk(t, e) { assert FrameOk(s, e); }
  }

  // ----- directories as wholes

  /** The directory a frame belongs to; |own| when none. */
  function Root(own: seq<Owner>, f: nat): nat
    requires f < |own|
  {
    match own[f]
    case Dir => f
    case Table(p, _) => p
    case Leaf(t, _) => if t < |own| && own[t].Table? then own[t].p else |own|
    case _ => |own|
  }

  /** The directory and its page tables, held. */
  function Detach(own: seq<Owner>, d: nat): (r: seq<Owner>)
    ensures |r| == |own|
    ensures forall f {:trigger r[f]} :: 0 <= f < |own| ==>
      r[f] == if f == d || (own[f].Table? && own[f].p == d) then Held else own[f]
  {
    seq(|own|, f requires 0 <= f < |own| => if f == d || (own[f].Table? && own[f].p == d) then Held else own[f])
  }

  lemma {:induction false} DetachKeeps(s: Vm, d: nat)
    requires Tree(s) && d < |s.mem| && s.own[d].Dir?
    requires forall g :: 0 <= g < |s.mem| && s.own[g].Leaf? ==> Root(s.own, g) != d
    ensures Tree(Vm(s.mem, Detach(s.own, d)))
  {
    var t := Vm(s.mem, Detach(s.own, d));
    forall e, j {:trigger SlotOk(t, e, j)} | 0 <= e < |t.mem| && 0 <= j < NENTRIES ensures SlotOk(t, e, j) {
      assert SlotOk(s, e, j);
      if Owns(t.own[e]) && Present(t.mem[e][j]) {
        var g := Frame(s.mem[e][j]);
        assert s.own[g] == Child(s.own[e], e, j) && t.own[g] == s.own[g];
      }
    }
    forall e {:trigger FrameOk(t, e)} | 0 <= e < |t.mem| ensures FrameOk(t, e) { assert FrameOk(s, e); }
  }

  /** No frame is in two entries, whichever directories they are in. */
  lemma {:induction false} NoSharing(s: Vm, f: nat, k: nat, e: nat, j: nat)
    requires Tree(s) && f < |s.mem| && e < |s.mem| && k < NENTRIES && j < NENTRIES
    requires Owns(s.own[f]) && Owns(s.own[e]) && Present(s.mem[f][k]) && Present(s.mem[e][j])
    requires Frame(s.mem[f][k]) == Frame(s.mem[e][j])
    ensures f == e && k == j
  {
    assert SlotOk(s, f, k) && SlotOk(s, e, j);
  }
}
