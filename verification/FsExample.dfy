/** A disk on which the bound of filewrite in xv6/file.c is reached: the free blocks 4095, 4096, 12287
    and 12288 lie in four different bitmap blocks, everything between them belongs to 58 files of the
    largest size and to one file that ends inside its last direct block. */
module FsExample {
  import opened FsLayout
  import opened FsOwner
  import opened FsCount
  import opened FileSystem

  const DATA: nat := 4097
  const OWNED: nat := 8190
  const SHORT: nat := 58
  const SHORTSIZE: nat := (NDIRECT - 1) * BSIZE + 1

  function Disk(): (g: Geometry)
    ensures g.Valid() && g.size == 12290 && g.nmeta == 4095 && g.bmapstart == 20 && SHORT < g.ninodes
  {
    Geometry(12290, 2, 64, 20, 4095)
  }

  /** The block in slot `s` of file `k`: the slots of all files follow each other. */
  function SlotBlock(k: nat, s: nat): nat {
    if SLOTS * k + s < OWNED then DATA + SLOTS * k + s else 0
  }

  /** Byte `r` of a little-endian word below 2^16. */
  function EntryByte(v: nat, r: nat): Byte {
    if r == 0 then v % 256 else if r == 1 then v / 256 % 256 else 0
  }

  /** The indirect block of file `k`. */
  function Entries(k: nat): (b: Block)
    requires k < SHORT
    ensures |b| == BSIZE
    ensures forall i {:trigger b[i]} :: 0 <= i < BSIZE ==> b[i] == EntryByte(SlotBlock(k, NDIRECT + 1 + i / 4), i % 4)
  {
    seq(BSIZE, i requires 0 <= i < BSIZE => EntryByte(SlotBlock(k, NDIRECT + 1 + i / 4), i % 4))
  }

  lemma EntryIndex(j: nat)
    ensures (4 * j) / 4 == (4 * j + 1) / 4 == (4 * j + 2) / 4 == (4 * j + 3) / 4 == j
    ensures (4 * j) % 4 == 0 && (4 * j + 1) % 4 == 1 && (4 * j + 2) % 4 == 2 && (4 * j + 3) % 4 == 3
  {
  }

  lemma {:induction false} EntriesAre(k: nat, j: nat)
    requires k < SHORT && j < NINDIRECT
    ensures Word(Entries(k), j) == SlotBlock(k, NDIRECT + 1 + j)
  {
    hide Entries, EntryByte, SlotBlock;
    var b, v := Entries(k), SlotBlock(k, NDIRECT + 1 + j);
    EntryIndex(j);
    assert At(b, 4 * j) == EntryByte(v, 0) && At(b, 4 * j + 1) == EntryByte(v, 1);
    assert At(b, 4 * j + 2) == EntryByte(v, 2) && At(b, 4 * j + 3) == EntryByte(v, 3);
    SmallWord(k, NDIRECT + 1 + j);
  }

  lemma SmallWord(k: nat, s: nat)
    ensures var v := SlotBlock(k, s);
            EntryByte(v, 0) + 256 * EntryByte(v, 1) + 65536 * EntryByte(v, 2) + 16777216 * EntryByte(v, 3) == v
  {
    var v := SlotBlock(k, s);
    assert v < 65536;
  }

  /** Full but for the last bit, full but for the first. */
  function AllButLast(): (b: Block)
    ensures |b| == BSIZE && forall i {:trigger b[i]} :: 0 <= i < BSIZE ==> b[i] == if i == BSIZE - 1 then 127 else 255
  {
    seq(BSIZE, i => if i == BSIZE - 1 then 127 else 255)
  }

  function AllButFirst(): (b: Block)
    ensures |b| == BSIZE && forall i {:trigger b[i]} :: 0 <= i < BSIZE ==> b[i] == if i == 0 then 254 else 255
  {
    seq(BSIZE, i => if i == 0 then 254 else 255)
  }

  function BlockAt(b: nat): (v: Block)
    ensures |v| == BSIZE
  {
    if b == 20 || b == 22 then AllButLast()
    else if b == 21 then AllButFirst()
    else if DATA <= b < DATA + SLOTS * SHORT && (b - DATA) % SLOTS == NDIRECT then Entries((b - DATA) / SLOTS)
    else Zeroes()
  }

  function Blocks(): (r: seq<Block>)
    ensures Shaped(Disk(), r)
    ensures forall b {:trigger r[b]} :: 0 <= b < 12290 ==> r[b] == BlockAt(b)
  {
    seq(12290, b requires 0 <= b => BlockAt(b))
  }

  function Inodes(): (r: seq<Inode>)
    ensures |r| == SHORT + 1
    ensures forall k {:trigger r[k]} :: 0 <= k <= SHORT ==>
              && |r[k].addrs| == NDIRECT + 1 && r[k].size == SizeOf(k)
              && forall s {:trigger r[k].addrs[s]} :: 0 <= s <= NDIRECT ==> r[k].addrs[s] == SlotBlock(k, s)
  {
    seq(SHORT + 1, k requires 0 <= k => Inode(seq(NDIRECT + 1, s requires 0 <= s => SlotBlock(k, s)), SizeOf(k)))
  }

  function SizeOf(k: nat): nat { if k < SHORT then MAXFILE * BSIZE else SHORTSIZE }

  function Files(): (r: seq<seq<Byte>>)
    ensures |r| == SHORT + 1
    ensures forall k {:trigger r[k]} :: 0 <= k <= SHORT ==>
              |r[k]| == SizeOf(k) && forall x :: 0 <= x < |r[k]| ==> r[k][x] == 0
  {
    seq(SHORT + 1, k requires 0 <= k => seq(SizeOf(k), x => 0))
  }

  function OwnerAt(b: nat): (nat, nat)
    requires DATA <= b
  {
    ((b - DATA) / SLOTS, (b - DATA) % SLOTS)
  }

  ghost function Owners(): (r: Owner)
    ensures forall b {:trigger b in r} :: b in r <==> DATA <= b < DATA + OWNED
    ensures forall b {:trigger r[b]} :: b in r ==> r[b] == OwnerAt(b)
  {
    map b: nat {:trigger OwnerAt(b)} | DATA <= b < DATA + OWNED :: OwnerAt(b)
  }

  /** Slots and blocks correspond. */
  lemma SlotBlockOwner(k: nat, s: nat)
    requires k <= SHORT && s < SLOTS
    ensures SlotBlock(k, s) != 0 ==> DATA <= SlotBlock(k, s) < DATA + OWNED && OwnerAt(SlotBlock(k, s)) == (k, s)
  {
  }

  lemma OwnerSlotBlock(b: nat)
    requires DATA <= b < DATA + OWNED
    ensures OwnerAt(b).0 <= SHORT && OwnerAt(b).1 < SLOTS && SlotBlock(OwnerAt(b).0, OwnerAt(b).1) == b
  {
  }

  lemma SlotIs(k: nat, s: nat)
    requires k <= SHORT && s < SLOTS
    ensures Shapes(Disk(), Blocks(), Inodes())
    ensures Slot(Disk(), Blocks(), Inodes()[k], s) == SlotBlock(k, s)
  {
    hide Word, Entries;
    ShapesHold();
    if NDIRECT < s && k < SHORT {
      var ind := Inodes()[k].addrs[NDIRECT];
      SlotBlockOwner(k, NDIRECT);
      assert Blocks()[ind] == Entries(k);
      EntriesAre(k, s - NDIRECT - 1);
    }
  }

  lemma ShapesHold()
    ensures Shapes(Disk(), Blocks(), Inodes())
  {
  }

  // ----- the free map

  lemma ByteBits(k: nat)
    requires k < 8
    ensures Test(255, k) && (Test(127, k) <==> k != 7) && (Test(254, k) <==> k != 0) && !Test(0, k)
  {
    assert k == 0 || k == 1 || k == 2 || k == 3 || k == 4 || k == 5 || k == 6 || k == 7;
  }

  predicate InUse(b: nat) { b < 4095 || DATA <= b < DATA + OWNED }

  lemma UsedIs(b: nat)
    requires b < 12290
    ensures Used(Disk(), Blocks(), b) <==> InUse(b)
  {
    hide Test, Entries;
    var bi := b % BPB;
    ByteBits(bi % 8);
    BitIs(b);
  }

  lemma BitIs(b: nat)
    requires b < 12290
    ensures var bi := b % BPB;
            Blocks()[Disk().BitBlock(b)][bi / 8] ==
            if b / BPB == 3 then 0
            else if b / BPB == 1 then (if bi / 8 == 0 then 254 else 255)
            else (if bi / 8 == BSIZE - 1 then 127 else 255)
  {
    hide Entries, AllButFirst, AllButLast;
    assert Disk().BitBlock(b) == b / BPB + 20;
  }

  lemma MapHolds()
    ensures MapOk(Disk(), Blocks(), Owners(), {})
  {
    hide Used, Blocks, Owners;
    forall b | 0 <= b < 12290 ensures Used(Disk(), Blocks(), b) <==> b < 4095 || b in Owners() {
      UsedIs(b);
    }
  }

  /** The free blocks, first the four in different bitmap blocks. */
  lemma {:induction false} FiveFree(g: Geometry, blocks: seq<Block>)
    requires Shaped(g, blocks) && g.size == 12290
    requires forall b {:trigger Used(g, blocks, b)} :: 0 <= b < 12290 ==> (Used(g, blocks, b) <==> InUse(b))
    ensures Free(g, blocks) == [4095, 4096, 12287, 12288, 12289]
  {
    hide Used, FreeFrom;
    FreeSkip(g, blocks, 0, 4095);
    FreeNext(g, blocks, 4095);
    FreeNext(g, blocks, 4096);
    FreeSkip(g, blocks, 4097, 12287);
    FreeNext(g, blocks, 12287);
    FreeNext(g, blocks, 12288);
    FreeNext(g, blocks, 12289);
    FreeNone(g, blocks, 12290);
  }

  lemma FreeNext(g: Geometry, blocks: seq<Block>, b: nat)
    requires Shaped(g, blocks) && b < g.size && !Used(g, blocks, b)
    ensures FreeFrom(g, blocks, b) == [b] + FreeFrom(g, blocks, b + 1)
  {
  }

  // ----- the invariant

  lemma SlotsHold()
    ensures Shapes(Disk(), Blocks(), Inodes())
    ensures SlotsOwn(Disk(), Blocks(), Inodes(), Owners(), {}) && OwnersHold(Disk(), Blocks(), Inodes(), Owners())
  {
    hide Slot, SlotBlock, OwnerAt, Blocks, Inodes, Owners;
    ShapesHold();
    var g, blocks, inodes, owner := Disk(), Blocks(), Inodes(), Owners();
    forall i, s {:trigger Slot(g, blocks, inodes[i], s)} | 0 <= i < |inodes| && 0 <= s < SLOTS
      ensures var a := Slot(g, blocks, inodes[i], s); a != 0 ==> a in owner && owner[a] == (i, s)
    {
      SlotIs(i, s);
      SlotBlockOwner(i, s);
    }
    forall b | b in owner
      ensures g.nmeta <= b < g.size && owner[b].0 < |inodes| && owner[b].1 < SLOTS
      ensures Slot(g, blocks, inodes[owner[b].0], owner[b].1) == b
    {
      OwnerSlotBlock(b);
      SlotIs(owner[b].0, owner[b].1);
    }
  }

  /** The data blocks of the files hold zeroes. */
  lemma DataIsZero(k: nat, s: nat)
    requires k <= SHORT && s < SLOTS && s != NDIRECT && SlotBlock(k, s) != 0
    ensures SlotBlock(k, s) < 12290 && Blocks()[SlotBlock(k, s)] == Zeroes()
  {
    SlotBlockOwner(k, s);
  }

  lemma ByteHolds(k: nat, x: nat)
    requires k <= SHORT && x < SizeOf(k)
    ensures Shapes(Disk(), Blocks(), Inodes())
    ensures var a := BlockOf(Disk(), Blocks(), Inodes()[k], x / BSIZE);
            a != 0 && a < 12290 && Blocks()[a] == Zeroes()
  {
    hide Slot, Blocks, Inodes;
    var s := SlotOf(x / BSIZE);
    SlotIs(k, s);
    DataIsZero(k, s);
  }

  lemma FilesAre()
    ensures Shapes(Disk(), Blocks(), Inodes()) && FilesHold(Disk(), Blocks(), Inodes(), Files())
  {
    hide BlockOf, Blocks, Inodes, Files;
    ShapesHold();
    forall k | 0 <= k <= SHORT ensures Holds(Disk(), Blocks(), Inodes()[k], Files()[k]) {
      forall x | 0 <= x < |Files()[k]|
        ensures var a := BlockOf(Disk(), Blocks(), Inodes()[k], x / BSIZE);
                a != 0 && a < 12290 && Blocks()[a][x % BSIZE] == Files()[k][x]
      {
        ByteHolds(k, x);
      }
    }
  }

  lemma CoreHolds()
    ensures Core(Disk(), Blocks(), Inodes(), Owners(), {}, {}, Files())
  {
    hide Slot, Blocks, Inodes, Files, Owners, SlotsOwn, OwnersHold, MapOk, FilesHold;
    SlotsHold();
    MapHolds();
    FilesAre();
  }

  /** On this disk a chunk of filewrite, appended to the short file, logs MAXOPBLOCKS blocks, and one
      whole block more logs more. */
  method AppendToShort(data: seq<Byte>) returns (r: Io, fs: FileSys)
    requires |data| == MAXCHUNK || |data| == MAXCHUNK + BSIZE
    ensures fresh(fs) && r.Done? && fs.Valid()
    ensures if |data| == MAXCHUNK then |fs.logged| == MAXOPBLOCKS else |fs.logged| > MAXOPBLOCKS
  {
    hide Slot, Blocks, Inodes, Files, Owners, Core, Used, Free;
    CoreHolds();
    ShapesHold();
    forall b | 0 <= b < 12290 ensures Used(Disk(), Blocks(), b) <==> InUse(b) {
      UsedIs(b);
    }
    FiveFree(Disk(), Blocks());
    fs := new FileSys(Disk(), Blocks(), Inodes(), Owners(), Files());
    assert Free(fs.g, fs.blocks)[..4] == [4095, 4096, 12287, 12288];
    r := fs.AppendSpread(SHORT, data);
  }
}
