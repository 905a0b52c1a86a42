/** How many blocks a write to a file of xv6/fs.c allocates, which ones, and which blocks it passes to
    log_write, all in terms of the state before the write. */
module FsCount {
  import opened Common
  import opened FsLayout
  import opened FsOwner

  const MAXOPBLOCKS: nat := 10

  // ----- free blocks

  /** The free blocks from `from` on, lowest first: the order in which balloc hands them out. */
  function FreeFrom(g: Geometry, blocks: seq<Block>, from: nat): (s: seq<nat>)
    requires Shaped(g, blocks) && from <= g.size
    ensures forall k :: 0 <= k < |s| ==> from <= s[k] < g.size && !Used(g, blocks, s[k])
    ensures forall j, k :: 0 <= j < k < |s| ==> s[j] < s[k]
    decreases g.size - from
  {
    if from == g.size then [] else
      var rest := FreeFrom(g, blocks, from + 1);
      if Used(g, blocks, from) then rest else [from] + rest
  }

  function Free(g: Geometry, blocks: seq<Block>): (s: seq<nat>)
    requires Shaped(g, blocks)
  {
    FreeFrom(g, blocks, 0)
  }

  /** The blocks from `from` on have the same bits. */
  ghost predicate SameBits(g: Geometry, a: seq<Block>, b: seq<Block>, from: nat)
    requires Shaped(g, a) && Shaped(g, b)
  {
    forall c {:trigger Used(g, b, c)} :: from <= c < g.size ==> (Used(g, a, c) <==> Used(g, b, c))
  }

  lemma {:induction false} FreeSame(g: Geometry, a: seq<Block>, b: seq<Block>, from: nat)
    requires Shaped(g, a) && Shaped(g, b) && from <= g.size && SameBits(g, a, b, from)
    ensures FreeFrom(g, a, from) == FreeFrom(g, b, from)
    decreases g.size - from
  {
    hide Used;
    if from < g.size {
      FreeSame(g, a, b, from + 1);
    }
  }

  /** Blocks in use at the start of the disk are not on the list. */
  lemma {:induction false} FreeSkip(g: Geometry, blocks: seq<Block>, from: nat, b: nat)
    requires Shaped(g, blocks) && from <= b <= g.size
    requires forall c :: from <= c < b ==> Used(g, blocks, c)
    ensures FreeFrom(g, blocks, from) == FreeFrom(g, blocks, b)
    decreases b - from
  {
    hide Used;
    if from < b {
      FreeSkip(g, blocks, from + 1, b);
    }
  }

  /** There is no free block exactly when every bit is set. */
  lemma {:induction false} FreeNone(g: Geometry, blocks: seq<Block>, from: nat)
    requires Shaped(g, blocks) && from <= g.size
    ensures FreeFrom(g, blocks, from) == [] <==> forall c :: from <= c < g.size ==> Used(g, blocks, c)
    decreases g.size - from
  {
    hide Used;
    if from < g.size {
      FreeNone(g, blocks, from + 1);
    }
  }

  /** Setting the bit of the first free block takes it off the list. */
  lemma {:induction false} FreeTake(g: Geometry, blocks: seq<Block>, blocks': seq<Block>, b: nat)
    requires Shaped(g, blocks) && Shaped(g, blocks') && b < g.size && !Used(g, blocks, b)
    requires forall c :: 0 <= c < b ==> Used(g, blocks, c)
    requires forall c {:trigger Used(g, blocks', c)} :: 0 <= c < g.size ==>
        (Used(g, blocks', c) <==> c == b || Used(g, blocks, c))
    ensures Free(g, blocks) == [b] + Free(g, blocks')
  {
    hide Used;
    FreeSkip(g, blocks, 0, b);
    FreeSkip(g, blocks', 0, b + 1);
    FreeSame(g, blocks, blocks', b + 1);
  }

  // ----- the blocks of a file

  /** The data blocks of a file, 0 where there is none, and its indirect block. */
  datatype Shape = Shape(data: seq<nat>, ind: nat)

  predicate Proper(sh: Shape) {
    |sh.data| == MAXFILE && (sh.ind == 0 ==> forall m :: NDIRECT <= m < MAXFILE ==> sh.data[m] == 0)
  }

  function ShapeOf(g: Geometry, blocks: seq<Block>, ip: Inode): (sh: Shape)
    requires Shaped(g, blocks) && InodeOk(g, ip)
    ensures |sh.data| == MAXFILE && sh.ind == ip.addrs[NDIRECT] && Proper(sh)
    ensures forall m {:trigger sh.data[m]} :: 0 <= m < MAXFILE ==> sh.data[m] == BlockOf(g, blocks, ip, m)
  {
    Shape(seq(MAXFILE, m requires 0 <= m < MAXFILE => BlockOf(g, blocks, ip, m)), ip.addrs[NDIRECT])
  }

  /** How many blocks bmap allocates to give the file its m-th block. */
  function Cost(sh: Shape, m: nat): nat
    requires Proper(sh) && m < MAXFILE
  {
    if sh.data[m] != 0 then 0 else if m < NDIRECT || sh.ind != 0 then 1 else 2
  }

  /** The shape once bmap has done so, with the blocks of `f` free. */
  function Mapped(sh: Shape, f: seq<nat>, m: nat): (t: Shape)
    requires Proper(sh) && m < MAXFILE && Cost(sh, m) <= |f|
    ensures |t.data| == MAXFILE
  {
    match Cost(sh, m)
    case 0 => sh
    case 1 => sh.(data := sh.data[m := f[0]])
    case _ => Shape(sh.data[m := f[1]], f[0])
  }

  /** How many of the data blocks lo up to hi are missing. */
  function Missing(sh: Shape, lo: nat, hi: nat): (n: nat)
    requires Proper(sh) && hi <= MAXFILE
    ensures lo <= hi ==> n <= hi - lo
  {
    if hi <= lo then 0 else Missing(sh, lo, hi - 1) + if sh.data[hi - 1] == 0 then 1 else 0
  }

  /** 1 if mapping blocks lo up to hi takes a new indirect block. */
  function NewInd(sh: Shape, lo: nat, hi: nat): nat {
    if sh.ind == 0 && lo < hi && NDIRECT < hi then 1 else 0
  }

  /** How many blocks are allocated to give the file its data blocks lo up to hi. */
  function Need(sh: Shape, lo: nat, hi: nat): nat
    requires Proper(sh) && hi <= MAXFILE
  {
    Missing(sh, lo, hi) + NewInd(sh, lo, hi)
  }

  /** Data blocks lo up to hi that are there. */
  function Present(sh: Shape, lo: nat, hi: nat): set<nat>
    requires Proper(sh) && hi <= MAXFILE
  {
    if hi <= lo then {} else Present(sh, lo, hi - 1) + if sh.data[hi - 1] == 0 then {} else {sh.data[hi - 1]}
  }

  /** The indirect block, if it is there and gets a new entry. */
  function Entered(sh: Shape, lo: nat, hi: nat): set<nat>
    requires Proper(sh) && hi <= MAXFILE
  {
    if sh.ind != 0 && Missing(sh, if lo < NDIRECT then NDIRECT else lo, hi) > 0 then {sh.ind} else {}
  }

  function Elems(s: seq<nat>): (r: set<nat>)
    ensures forall b :: b in r <==> b in s
    ensures |r| <= |s|
  {
    if s == [] then {} else Elems(s[..|s| - 1]) + {s[|s| - 1]}
  }

  /** The bitmap blocks of the blocks of `s`. */
  function BitBlocks(g: Geometry, s: seq<nat>): (r: set<nat>)
    ensures |r| <= |s|
  {
    if s == [] then {} else BitBlocks(g, s[..|s| - 1]) + {g.BitBlock(s[|s| - 1])}
  }

  /** What balloc logs for the blocks of `s`: each block and its bitmap block. */
  function Taken(g: Geometry, s: seq<nat>): set<nat> { Elems(s) + BitBlocks(g, s) }

  /** What writing data blocks lo up to hi logs, with the blocks of `f` free. */
  function Logs(g: Geometry, sh: Shape, f: seq<nat>, lo: nat, hi: nat): set<nat>
    requires Proper(sh) && hi <= MAXFILE && Need(sh, lo, hi) <= |f|
  {
    Present(sh, lo, hi) + Taken(g, f[..Need(sh, lo, hi)]) + Entered(sh, lo, hi)
  }

  /** `t` is `sh` with data blocks lo up to hi mapped out of `f`. */
  ghost predicate Filled(sh: Shape, f: seq<nat>, t: Shape, lo: nat, hi: nat)
    requires Proper(sh) && hi <= MAXFILE && Need(sh, lo, hi) <= |f|
  {
    && Proper(t)
    && (forall m {:trigger t.data[m]} :: 0 <= m < MAXFILE ==>
          if lo <= m < hi then t.data[m] != 0 && (sh.data[m] != 0 ==> t.data[m] == sh.data[m])
          else t.data[m] == sh.data[m])
    && (sh.ind != 0 ==> t.ind == sh.ind)
    && (sh.ind == 0 ==> (t.ind != 0 <==> NewInd(sh, lo, hi) == 1))
    && (sh.ind == 0 && t.ind != 0 ==> t.ind in f[..Need(sh, lo, hi)])
  }

  lemma FilledStart(sh: Shape, f: seq<nat>, lo: nat)
    requires Proper(sh) && lo <= MAXFILE
    ensures Need(sh, lo, lo) == 0 && Filled(sh, f, sh, lo, lo)
  {
  }

  /** One more block needs what bmap takes for it. */
  lemma {:induction false} NeedStep(sh: Shape, f: seq<nat>, t: Shape, lo: nat, m: nat)
    requires Proper(sh) && lo <= m < MAXFILE && Need(sh, lo, m) <= |f| && Filled(sh, f, t, lo, m)
    ensures Need(sh, lo, m + 1) == Need(sh, lo, m) + Cost(t, m)
  {
    assert t.data[m] == sh.data[m];
  }

  lemma {:induction false} FilledStep(sh: Shape, f: seq<nat>, t: Shape, lo: nat, m: nat)
    requires Proper(sh) && lo <= m < MAXFILE && Need(sh, lo, m) <= |f| && Filled(sh, f, t, lo, m)
    requires Need(sh, lo, m) + Cost(t, m) <= |f| && forall k :: 0 <= k < |f| ==> f[k] != 0
    ensures Need(sh, lo, m + 1) == Need(sh, lo, m) + Cost(t, m)
    ensures Filled(sh, f, Mapped(t, f[Need(sh, lo, m)..], m), lo, m + 1)
  {
    hide Missing;
    NeedStep(sh, f, t, lo, m);
    var k, c := Need(sh, lo, m), Cost(t, m);
    var u := Mapped(t, f[k..], m);
    assert t.data[m] == sh.data[m];
    assert f[..k] <= f[..k + c];
    if c == 2 {
      assert u.ind == f[k] && f[..k + c][k] == f[k];
    }
    if sh.ind == 0 && t.ind != 0 {
      assert t.ind in f[..k + c];
    }
  }

  /** Need grows with the range. */
  lemma {:induction false} NeedMore(sh: Shape, lo: nat, m: nat, hi: nat)
    requires Proper(sh) && lo <= m <= hi <= MAXFILE
    ensures Need(sh, lo, m) <= Need(sh, lo, hi)
    decreases hi - m
  {
    if m < hi {
      NeedMore(sh, lo, m, hi - 1);
    }
  }

  /** What one round of writei logs: what bmap takes, the indirect block if it gets an entry, and the
      data block itself. */
  function Round(g: Geometry, sh: Shape, f: seq<nat>, m: nat): set<nat>
    requires Proper(sh) && m < MAXFILE && Cost(sh, m) <= |f|
  {
    var t := Mapped(sh, f, m);
    Taken(g, f[..Cost(sh, m)]) + {t.data[m]} + if Cost(sh, m) > 0 && m >= NDIRECT then {t.ind} else {}
  }

  lemma {:induction false} BitsJoin(g: Geometry, a: seq<nat>, b: seq<nat>)
    ensures BitBlocks(g, a + b) == BitBlocks(g, a) + BitBlocks(g, b)
  {
    if b == [] {
      assert a + b == a;
    } else {
      assert (a + b)[..|a + b| - 1] == a + b[..|b| - 1];
      BitsJoin(g, a, b[..|b| - 1]);
    }
  }

  lemma TakenJoin(g: Geometry, a: seq<nat>, b: seq<nat>)
    ensures Taken(g, a + b) == Taken(g, a) + Taken(g, b)
  {
    BitsJoin(g, a, b);
    assert Elems(a + b) == Elems(a) + Elems(b);
  }

  lemma {:induction false} EnteredStep(sh: Shape, lo: nat, m: nat)
    requires Proper(sh) && lo <= m < MAXFILE
    ensures Entered(sh, lo, m + 1) ==
            Entered(sh, lo, m) + if sh.ind != 0 && sh.data[m] == 0 && m >= NDIRECT then {sh.ind} else {}
  {
  }

  /** The rounds together log what the range logs. */
  lemma {:induction false} LogsStep(g: Geometry, sh: Shape, f: seq<nat>, t: Shape, lo: nat, m: nat)
    requires Proper(sh) && lo <= m < MAXFILE && Need(sh, lo, m) <= |f| && Filled(sh, f, t, lo, m)
    requires Need(sh, lo, m) + Cost(t, m) <= |f|
    ensures Need(sh, lo, m + 1) == Need(sh, lo, m) + Cost(t, m)
    ensures Logs(g, sh, f, lo, m + 1) == Logs(g, sh, f, lo, m) + Round(g, t, f[Need(sh, lo, m)..], m)
  {
    hide Missing, Taken, Entered;
    NeedStep(sh, f, t, lo, m);
    EnteredStep(sh, lo, m);
    var k, c := Need(sh, lo, m), Cost(t, m);
    var rest := f[k..];
    assert t.data[m] == sh.data[m];
    assert f[..k + c] == f[..k] + rest[..c];
    TakenJoin(g, f[..k], rest[..c]);
    var u := Mapped(t, rest, m);
    if c > 0 {
      assert u.data[m] == rest[..c][c - 1];
      InTaken(g, rest[..c], c - 1);
      if m >= NDIRECT {
        if c == 2 {
          assert u.ind == rest[..c][0];
          InTaken(g, rest[..c], 0);
        } else if sh.ind == 0 {
          var j :| 0 <= j < k && f[..k][j] == t.ind;
          InTaken(g, f[..k], j);
        }
      }
    }
  }

  lemma InTaken(g: Geometry, s: seq<nat>, k: nat)
    requires k < |s|
    ensures s[k] in Taken(g, s)
  {
    assert s[k] in s;
  }

  /** Two writes, the second starting inside or right after the first: what the second needs then is
      what both together needed before, less what the first took. */
  lemma {:induction false} NeedSplit(sh: Shape, f: seq<nat>, t: Shape, lo: nat, mid: nat, lo2: nat, hi: nat)
    requires Proper(sh) && lo < mid && lo <= lo2 <= mid <= hi <= MAXFILE
    requires Need(sh, lo, mid) <= |f| && Filled(sh, f, t, lo, mid)
    ensures lo2 < hi ==> Need(sh, lo, hi) == Need(sh, lo, mid) + Need(t, lo2, hi)
  {
    MissingSplit(sh, f, t, lo, mid, lo2, hi);
  }

  lemma {:induction false} MissingSplit(sh: Shape, f: seq<nat>, t: Shape, lo: nat, mid: nat, lo2: nat, hi: nat)
    requires Proper(sh) && lo <= lo2 <= mid <= hi <= MAXFILE && Need(sh, lo, mid) <= |f| && Filled(sh, f, t, lo, mid)
    ensures Missing(sh, lo, hi) == Missing(sh, lo, mid) + Missing(t, lo2, hi)
    decreases hi
  {
    if hi > mid {
      MissingSplit(sh, f, t, lo, mid, lo2, hi - 1);
      assert t.data[hi - 1] == sh.data[hi - 1];
    } else if lo2 < hi {
      NoneMissing(t, lo2, hi);
    }
  }

  lemma {:induction false} NoneMissing(t: Shape, lo: nat, hi: nat)
    requires Proper(t) && hi <= MAXFILE && forall m :: lo <= m < hi ==> t.data[m] != 0
    ensures Missing(t, lo, hi) == 0
    decreases hi
  {
    if lo < hi {
      NoneMissing(t, lo, hi - 1);
    }
  }

  /** A second write on top: what is filled then. */
  lemma {:induction false} FilledThen(sh: Shape, f: seq<nat>, t: Shape, u: Shape, lo: nat, mid: nat, lo2: nat, hi: nat)
    requires Proper(sh) && lo < mid && lo <= lo2 <= mid <= hi <= MAXFILE && lo2 < hi
    requires Need(sh, lo, mid) <= |f| && Filled(sh, f, t, lo, mid)
    requires Need(t, lo2, hi) <= |f| - Need(sh, lo, mid) && Filled(t, f[Need(sh, lo, mid)..], u, lo2, hi)
    ensures Need(sh, lo, hi) == Need(sh, lo, mid) + Need(t, lo2, hi) && Filled(sh, f, u, lo, hi)
  {
    NeedSplit(sh, f, t, lo, mid, lo2, hi);
    hide Missing;
    var k, c := Need(sh, lo, mid), Need(t, lo2, hi);
    assert f[..k + c] == f[..k] + f[k..][..c];
    forall m {:trigger u.data[m]} | 0 <= m < MAXFILE
      ensures if lo <= m < hi then u.data[m] != 0 && (sh.data[m] != 0 ==> u.data[m] == sh.data[m])
              else u.data[m] == sh.data[m]
    {
      var x := t.data[m];
    }
  }

  // ----- a write of bytes

  /** The data blocks that [off, off+n) meets are First(off) up to Last(off, n). */
  function First(off: nat): nat { off / BSIZE }

  function Last(off: nat, n: nat): (hi: nat)
    ensures First(off) <= hi && (n > 0 ==> First(off) < hi)
    ensures n > 0 ==> (hi - 1) * BSIZE < off + n <= hi * BSIZE
  {
    if n == 0 then off / BSIZE else (off + n + BSIZE - 1) / BSIZE
  }

  predicate InRange(off: nat, n: nat) { off + n <= MAXFILE * BSIZE }

  lemma LastFits(off: nat, n: nat)
    requires InRange(off, n)
    ensures Last(off, n) <= MAXFILE
  {
  }

  /** How many blocks a write of n bytes at off allocates. */
  function WriteNeed(sh: Shape, off: nat, n: nat): nat
    requires Proper(sh) && InRange(off, n)
  {
    LastFits(off, n);
    Need(sh, First(off), Last(off, n))
  }

  /** What it logs: blocks as above, and the inode if the file grows beyond `size`. */
  function WriteLogs(g: Geometry, sh: Shape, f: seq<nat>, i: nat, size: nat, off: nat, n: nat): set<nat>
    requires Proper(sh) && InRange(off, n) && WriteNeed(sh, off, n) <= |f|
  {
    LastFits(off, n);
    Logs(g, sh, f, First(off), Last(off, n)) + if n > 0 && off + n > size then {g.InodeBlock(i)} else {}
  }

  // ----- how many blocks that is

  /** The most blocks a write can log: data and bitmap block for each new block, data block alone for
      the first block of an unaligned write; plus the indirect block, its bitmap block, and the inode. */
  function LogBound(off: nat, n: nat): nat {
    if n == 0 then 0 else 2 * (Last(off, n) - First(off)) + 3 - (if off % BSIZE != 0 then 1 else 0)
  }

  lemma {:induction false} PresentSize(sh: Shape, lo: nat, hi: nat)
    requires Proper(sh) && lo <= hi <= MAXFILE
    ensures |Present(sh, lo, hi)| <= hi - lo - Missing(sh, lo, hi)
    decreases hi
  {
    if lo < hi {
      PresentSize(sh, lo, hi - 1);
    }
  }

  lemma {:induction false} EnteredSize(sh: Shape, lo: nat, hi: nat)
    requires Proper(sh) && lo <= hi <= MAXFILE
    ensures |Entered(sh, lo, hi)| + NewInd(sh, lo, hi) <= 1
  {
    hide Missing;
  }

  /** A bound from the number of bitmap blocks written to. */
  lemma {:induction false} LogsSize(g: Geometry, sh: Shape, f: seq<nat>, lo: nat, hi: nat, bits: nat)
    requires Proper(sh) && lo <= hi <= MAXFILE && Need(sh, lo, hi) <= |f|
    requires |BitBlocks(g, f[..Need(sh, lo, hi)])| <= bits
    ensures |Logs(g, sh, f, lo, hi)| <= hi - lo + bits + 1
  {
    hide Missing, Present, Entered, Elems, BitBlocks;
    var s := f[..Need(sh, lo, hi)];
    PresentSize(sh, lo, hi);
    EnteredSize(sh, lo, hi);
    var a, b, c, d := Present(sh, lo, hi), Elems(s), BitBlocks(g, s), Entered(sh, lo, hi);
    assert Logs(g, sh, f, lo, hi) == a + b + c + d;
  }

  lemma {:induction false} NotAllMissing(sh: Shape, lo: nat, hi: nat)
    requires Proper(sh) && lo < hi <= MAXFILE && sh.data[lo] != 0
    ensures Missing(sh, lo, hi) <= hi - lo - 1
    decreases hi
  {
    if lo < hi - 1 {
      NotAllMissing(sh, lo, hi - 1);
    }
  }

  /** A write logs at most LogBound blocks; the first block of an unaligned write is there already. */
  lemma {:induction false} WriteLogsSize(g: Geometry, sh: Shape, f: seq<nat>, i: nat, size: nat, off: nat, n: nat)
    requires Proper(sh) && InRange(off, n) && WriteNeed(sh, off, n) <= |f|
    requires n > 0 && off % BSIZE != 0 ==> First(off) < MAXFILE && sh.data[First(off)] != 0
    ensures |WriteLogs(g, sh, f, i, size, off, n)| <= LogBound(off, n)
  {
    hide Missing, Present, Entered, BitBlocks, Elems;
    LastFits(off, n);
    var lo, hi := First(off), Last(off, n);
    var need := Need(sh, lo, hi);
    if n > 0 {
      LogsSize(g, sh, f, lo, hi, need);
      if off % BSIZE != 0 { NotAllMissing(sh, lo, hi); }
    } else {
      NoLogs(g, sh, f, lo, hi);
    }
  }

  lemma NoLogs(g: Geometry, sh: Shape, f: seq<nat>, lo: nat, hi: nat)
    requires Proper(sh) && lo == hi <= MAXFILE
    ensures Need(sh, lo, hi) == 0 && Logs(g, sh, f, lo, hi) == {}
  {
  }

  /** The bound filewrite puts on a transaction: ((MAXOPBLOCKS - 1 - 1 - 2) / 2) blocks. */
  const MAXCHUNK: nat := (MAXOPBLOCKS - 1 - 1 - 2) / 2 * BSIZE

  /** A write of one chunk logs at most MAXOPBLOCKS blocks. */
  lemma ChunkFits(off: nat, n: nat)
    requires n <= MAXCHUNK
    ensures LogBound(off, n) <= MAXOPBLOCKS
  {
  }

  lemma {:induction false} OneBitBlock(g: Geometry, s: seq<nat>)
    requires forall k :: 0 <= k < |s| ==> s[k] < BPB
    ensures BitBlocks(g, s) <= {g.bmapstart}
  {
    if s != [] {
      OneBitBlock(g, s[..|s| - 1]);
    }
  }

  /** With a single bitmap block, as on the disk that mkfs makes, a chunk logs at most seven blocks. */
  lemma {:induction false} SmallDiskLogsLess(g: Geometry, sh: Shape, f: seq<nat>, i: nat, size: nat, off: nat, n: nat)
    requires Proper(sh) && InRange(off, n) && WriteNeed(sh, off, n) <= |f| && n <= MAXCHUNK
    requires g.size <= BPB && forall k :: 0 <= k < |f| ==> f[k] < g.size
    ensures |WriteLogs(g, sh, f, i, size, off, n)| <= 7
  {
    hide Missing, Present, Entered, BitBlocks, Elems;
    LastFits(off, n);
    var lo, hi := First(off), Last(off, n);
    var s := f[..Need(sh, lo, hi)];
    OneBitBlock(g, s);
    SubsetSize(BitBlocks(g, s), {g.bmapstart});
    LogsSize(g, sh, f, lo, hi, 1);
  }

  ghost predicate Unlike(s: seq<nat>) { forall j, k :: 0 <= j < k < |s| ==> s[j] != s[k] }

  ghost predicate UnlikeBits(g: Geometry, s: seq<nat>) {
    forall j, k :: 0 <= j < k < |s| ==> g.BitBlock(s[j]) != g.BitBlock(s[k])
  }

  lemma {:induction false} ElemsExact(s: seq<nat>)
    requires Unlike(s)
    ensures |Elems(s)| == |s|
  {
    if s != [] {
      ElemsExact(s[..|s| - 1]);
    }
  }

  lemma {:induction false} BitsFrom(g: Geometry, s: seq<nat>, x: nat)
    requires x in BitBlocks(g, s)
    ensures exists k :: 0 <= k < |s| && x == g.BitBlock(s[k])
  {
    var n := |s| - 1;
    if x != g.BitBlock(s[n]) {
      BitsFrom(g, s[..n], x);
      var k :| 0 <= k < n && x == g.BitBlock(s[..n][k]);
      assert x == g.BitBlock(s[k]);
    }
  }

  lemma {:induction false} BitsExact(g: Geometry, s: seq<nat>)
    requires UnlikeBits(g, s)
    ensures |BitBlocks(g, s)| == |s|
  {
    if s != [] {
      var n := |s| - 1;
      BitsExact(g, s[..n]);
      if g.BitBlock(s[n]) in BitBlocks(g, s[..n]) {
        BitsFrom(g, s[..n], g.BitBlock(s[n]));
      }
    }
  }

  /** A file that ends inside its last direct block and has no indirect block, with the next four
      blocks that balloc hands out in four different bitmap blocks. */
  ghost predicate Spread(g: Geometry, sh: Shape, f: seq<nat>, i: nat, off: nat) {
    && g.Valid() && Proper(sh) && i < g.ninodes
    && First(off) == NDIRECT - 1 && off % BSIZE != 0
    && sh.ind == 0 && g.nmeta <= sh.data[NDIRECT - 1] < g.size
    && 5 <= |f| && Unlike(f) && UnlikeBits(g, f[..4])
    && forall k :: 0 <= k < |f| ==> g.nmeta <= f[k] < g.size && f[k] != sh.data[NDIRECT - 1]
  }

  /** How many different blocks such a write logs when it takes the blocks of `s`. */
  lemma {:induction false} SpreadSize(g: Geometry, s: seq<nat>, d: nat, i: nat)
    requires g.Valid() && i < g.ninodes && g.nmeta <= d && Unlike(s)
    requires forall k :: 0 <= k < |s| ==> g.nmeta <= s[k] < g.size && s[k] != d
    ensures |{d} + Taken(g, s) + {g.InodeBlock(i)}| == 1 + |s| + |BitBlocks(g, s)| + 1
  {
    hide Elems, BitBlocks;
    ElemsExact(s);
    var e, b, n := Elems(s), BitBlocks(g, s), g.InodeBlock(i);
    forall x | x in b ensures g.bmapstart <= x < g.nmeta {
      BitsAreMeta(g, s, x);
    }
    assert i / IPB <= g.ninodes / IPB;
    assert Taken(g, s) == e + b;
    hide Taken;
    FourParts(d, e, b, n);
  }

  lemma {:induction false} BitsAreMeta(g: Geometry, s: seq<nat>, x: nat)
    requires g.Valid() && x in BitBlocks(g, s) && forall k :: 0 <= k < |s| ==> s[k] < g.size
    ensures g.bmapstart <= x < g.nmeta
  {
    hide BitBlocks;
    BitsFrom(g, s, x);
    var k :| 0 <= k < |s| && x == g.BitBlock(s[k]);
    assert s[k] / BPB <= g.size / BPB;
  }

  lemma FourParts(d: nat, e: set<nat>, b: set<nat>, n: nat)
    requires d !in e && d !in b && e !! b && n !in e && n !in b && n != d
    ensures |{d} + (e + b) + {n}| == 1 + |e| + |b| + 1
  {
    assert |e + b| == |e| + |b|;
    var t := {d} + (e + b);
    assert |t| == 1 + |e + b|;
    assert n !in t;
  }

  /** Then a chunk at the end of the file logs exactly MAXOPBLOCKS blocks, and one whole block more
      logs more: the chunk of filewrite cannot be longer. */
  lemma {:induction false} ChunkIsTight(g: Geometry, sh: Shape, f: seq<nat>, i: nat, off: nat, n: nat)
    requires Spread(g, sh, f, i, off) && (n == MAXCHUNK || n == MAXCHUNK + BSIZE)
    ensures Proper(sh) && InRange(off, n) && WriteNeed(sh, off, n) <= |f|
    ensures var logged := WriteLogs(g, sh, f, i, off, off, n);
            if n == MAXCHUNK then |logged| == MAXOPBLOCKS else |logged| > MAXOPBLOCKS
  {
    hide Elems, BitBlocks, Taken, Missing, Present, WriteNeed, WriteLogs, Spread;
    SpreadCount(g, sh, f, i, off, if n == MAXCHUNK then 4 else 5);
    FourBitBlocks(g, f);
  }

  lemma {:induction false} FourBitBlocks(g: Geometry, f: seq<nat>)
    requires 5 <= |f| && UnlikeBits(g, f[..4])
    ensures |BitBlocks(g, f[..4])| == 4 && |BitBlocks(g, f[..5])| >= 4
  {
    hide BitBlocks;
    BitsExact(g, f[..4]);
    assert f[..5] == f[..4] + [f[4]];
    BitsJoin(g, f[..4], [f[4]]);
    SubsetSize(BitBlocks(g, f[..4]), BitBlocks(g, f[..5]));
  }

  lemma {:induction false} SpreadCount(g: Geometry, sh: Shape, f: seq<nat>, i: nat, off: nat, k: nat)
    requires Spread(g, sh, f, i, off) && 4 <= k <= 5
    ensures Proper(sh) && 5 <= |f| && UnlikeBits(g, f[..4])
    ensures InRange(off, (k - 1) * BSIZE) && WriteNeed(sh, off, (k - 1) * BSIZE) == k
    ensures |WriteLogs(g, sh, f, i, off, off, (k - 1) * BSIZE)| == 2 + k + |BitBlocks(g, f[..k])|
  {
    hide Taken, BitBlocks, UnlikeBits, WriteNeed, WriteLogs;
    SpreadNeed(g, sh, f, i, off, k);
    SpreadSize(g, f[..k], sh.data[NDIRECT - 1], i);
  }

  lemma {:induction false} SpreadNeed(g: Geometry, sh: Shape, f: seq<nat>, i: nat, off: nat, k: nat)
    requires Spread(g, sh, f, i, off) && 4 <= k <= 5
    ensures InRange(off, (k - 1) * BSIZE) && WriteNeed(sh, off, (k - 1) * BSIZE) == k
    ensures WriteLogs(g, sh, f, i, off, off, (k - 1) * BSIZE) ==
            {sh.data[NDIRECT - 1]} + Taken(g, f[..k]) + {g.InodeBlock(i)}
  {
    hide Taken;
    var hi := NDIRECT + k - 1;
    assert Last(off, (k - 1) * BSIZE) == hi;
    MissingFrom(sh, hi);
  }

  /** The last direct block is there and nothing after it. */
  lemma {:induction false} MissingFrom(sh: Shape, hi: nat)
    requires Proper(sh) && sh.ind == 0 && sh.data[NDIRECT - 1] != 0 && NDIRECT <= hi <= MAXFILE
    ensures Missing(sh, NDIRECT - 1, hi) == hi - NDIRECT && Present(sh, NDIRECT - 1, hi) == {sh.data[NDIRECT - 1]}
    decreases hi
  {
    if hi == NDIRECT {
      assert Missing(sh, NDIRECT - 1, NDIRECT - 1) == 0 && Present(sh, NDIRECT - 1, NDIRECT - 1) == {};
    } else {
      MissingFrom(sh, hi - 1);
    }
  }
}
