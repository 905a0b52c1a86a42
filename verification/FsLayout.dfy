/** What xv6/fs.c stores inside disk blocks: little-endian words of an indirect block and the bits
    of the free map. */
module FsLayout {

  const BSIZE: nat := 512
  const NDIRECT: nat := 12
  const NINDIRECT: nat := 128
  const MAXFILE: nat := NDIRECT + NINDIRECT
  const BPB: nat := 4096
  const IPB: nat := 8
  const UINT: nat := 0x1_0000_0000

  type Byte = x: nat | x < 256
  type Block = seq<Byte>

  // ----- words

  function At(b: Block, i: nat): (n: nat)
    requires i < |b|
    ensures n < 256
  {
    b[i]
  }

  function Word(b: Block, j: nat): (w: nat)
    requires |b| == BSIZE && j < NINDIRECT
    ensures w < UINT
  {
    At(b, 4 * j) + 256 * At(b, 4 * j + 1) + 65536 * At(b, 4 * j + 2) + 16777216 * At(b, 4 * j + 3)
  }

  function PutWord(b: Block, j: nat, v: nat): (r: Block)
    requires |b| == BSIZE && j < NINDIRECT && v < UINT
    ensures |r| == BSIZE
  {
    b[4 * j := v % 256][4 * j + 1 := v / 256 % 256][4 * j + 2 := v / 65536 % 256][4 * j + 3 := v / 16777216]
  }

  lemma GetPut(b: Block, j: nat, v: nat, k: nat)
    requires |b| == BSIZE && j < NINDIRECT && k < NINDIRECT && v < UINT
    ensures Word(PutWord(b, j, v), k) == if j == k then v else Word(b, k)
  {
    if j == k {
      Digits(v);
    } else {
      assert 4 * j + 3 < 4 * k || 4 * k + 3 < 4 * j;
    }
  }

  lemma Digits(v: nat)
    ensures v == v % 256 + 256 * (v / 256 % 256) + 65536 * (v / 65536 % 256) + 16777216 * (v / 16777216)
  {
    var a := v / 256;
    var b := a / 256;
    assert v / 65536 == b;
    assert v / 16777216 == b / 256;
  }

  function Zeroes(): (b: Block)
    ensures |b| == BSIZE && forall i :: 0 <= i < BSIZE ==> b[i] == 0
  {
    seq(BSIZE, i => 0)
  }

  // ----- bits of a byte, lowest first

  /** (b & (1 << k)) != 0 */
  predicate Test(b: nat, k: nat) {
    if k == 0 then b % 2 == 1 else Test(b / 2, k - 1)
  }

  /** b | (1 << k) */
  function Set(b: nat, k: nat): nat {
    if k == 0 then (if b % 2 == 1 then b else b + 1) else 2 * Set(b / 2, k - 1) + b % 2
  }

  /** b & ~(1 << k) */
  function Clear(b: nat, k: nat): nat {
    if k == 0 then b - b % 2 else 2 * Clear(b / 2, k - 1) + b % 2
  }

  function Pow2(k: nat): (p: nat)
    ensures p > 0
  {
    if k == 0 then 1 else 2 * Pow2(k - 1)
  }

  lemma {:induction false} SetBits(b: nat, k: nat, j: nat)
    ensures Test(Set(b, k), j) <==> j == k || Test(b, j)
  {
    if k > 0 && j > 0 {
      SetBits(b / 2, k - 1, j - 1);
    } else if k == 0 && j > 0 {
      assert Set(b, k) / 2 == b / 2;
    }
  }

  lemma {:induction false} ClearBits(b: nat, k: nat, j: nat)
    ensures Test(Clear(b, k), j) <==> j != k && Test(b, j)
  {
    if k > 0 && j > 0 {
      ClearBits(b / 2, k - 1, j - 1);
    } else if k == 0 && j > 0 {
      assert Clear(b, k) / 2 == b / 2;
    }
  }

  lemma {:induction false} BitsFit(b: nat, k: nat, w: nat)
    requires k < w && b < Pow2(w)
    ensures Set(b, k) < Pow2(w) && Clear(b, k) < Pow2(w)
  {
    if k > 0 {
      BitsFit(b / 2, k - 1, w - 1);
    }
  }

  lemma Pow8()
    ensures Pow2(8) == 256
  {
    assert Pow2(4) == 16;
  }

  function SetByte(b: Byte, k: nat): Byte
    requires k < 8
  {
    Pow8();
    BitsFit(b, k, 8);
    Set(b, k)
  }

  function ClearByte(b: Byte, k: nat): Byte
    requires k < 8
  {
    Pow8();
    BitsFit(b, k, 8);
    Clear(b, k)
  }

  function PutByte(b: Block, i: nat, v: Byte): (r: Block)
    requires i < |b|
    ensures |r| == |b|
  {
    b[i := v]
  }

  // ----- the free map

  /** The superblock fields fs.c uses; the first `nmeta` blocks are boot, super, log, inode and free
      map blocks. */
  datatype Geometry = Geometry(size: nat, inodestart: nat, ninodes: nat, bmapstart: nat, nmeta: nat) {

    predicate Valid() {
      && 0 < nmeta <= size < UINT
      && inodestart + ninodes / IPB < bmapstart
      && bmapstart + size / BPB < nmeta
    }

    /** BBLOCK */
    function BitBlock(b: nat): nat { b / BPB + bmapstart }

    /** IBLOCK */
    function InodeBlock(i: nat): nat { i / IPB + inodestart }
  }

  predicate Shaped(g: Geometry, blocks: seq<Block>) {
    && g.Valid() && |blocks| == g.size
    && forall b :: 0 <= b < |blocks| ==> |blocks[b]| == BSIZE
  }

  /** The bit of block `b` in the free map. */
  predicate Used(g: Geometry, blocks: seq<Block>, b: nat)
    requires Shaped(g, blocks) && b < g.size
  {
    var bi := b % BPB;
    Test(blocks[g.BitBlock(b)][bi / 8], bi % 8)
  }

  function WithBit(g: Geometry, blocks: seq<Block>, b: nat, on: bool): (r: seq<Block>)
    requires Shaped(g, blocks) && b < g.size
    ensures Shaped(g, r)
  {
    var bb, bi := g.BitBlock(b), b % BPB;
    var was := blocks[bb][bi / 8];
    blocks[bb := PutByte(blocks[bb], bi / 8, if on then SetByte(was, bi % 8) else ClearByte(was, bi % 8))]
  }

  /** Setting or clearing one bit changes the state of that block and of no other. */
  lemma WithBitUsed(g: Geometry, blocks: seq<Block>, b: nat, on: bool, c: nat)
    requires Shaped(g, blocks) && b < g.size && c < g.size
    ensures Used(g, WithBit(g, blocks, b, on), c) <==> if c == b then on else Used(g, blocks, c)
  {
    var bi, ci := b % BPB, c % BPB;
    var was := blocks[g.BitBlock(b)][bi / 8];
    if on {
      SetBits(was, bi % 8, ci % 8);
    } else {
      ClearBits(was, bi % 8, ci % 8);
    }
    if g.BitBlock(b) == g.BitBlock(c) && bi / 8 == ci / 8 && bi % 8 == ci % 8 {
      assert b == c;
    }
  }
}
