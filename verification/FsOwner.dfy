/** Which disk block belongs to which file in xv6/fs.c. A file has 141 block slots: 12 direct ones,
    slot 12 for the indirect block, and 13..140 for the entries of the indirect block. */
module FsOwner {
  import opened FsLayout

  datatype Inode = Inode(addrs: seq<nat>, size: nat)

  const SLOTS: nat := NDIRECT + 1 + NINDIRECT

  /** The slot of the n-th data block of a file. */
  function SlotOf(bn: nat): nat { if bn < NDIRECT then bn else bn + 1 }

  predicate InodeOk(g: Geometry, ip: Inode) {
    |ip.addrs| == NDIRECT + 1 && ip.addrs[NDIRECT] < g.size
  }

  /** The block number in slot `s`, 0 if there is none. */
  function Slot(g: Geometry, blocks: seq<Block>, ip: Inode, s: nat): nat
    requires Shaped(g, blocks) && InodeOk(g, ip) && s < SLOTS
  {
    if s <= NDIRECT then ip.addrs[s]
    else if ip.addrs[NDIRECT] == 0 then 0
    else Word(blocks[ip.addrs[NDIRECT]], s - NDIRECT - 1)
  }

  /** Owner of each block in use: file and slot. */
  type Owner = map<nat, (nat, nat)>

  predicate Shapes(g: Geometry, blocks: seq<Block>, inodes: seq<Inode>) {
    && Shaped(g, blocks)
    && forall i :: 0 <= i < |inodes| ==> InodeOk(g, inodes[i])
  }

  /** Each slot in use owns its block, apart from the `dead` slots. */
  ghost predicate SlotsOwn(g: Geometry, blocks: seq<Block>, inodes: seq<Inode>, owner: Owner, dead: set<(nat, nat)>)
    requires Shapes(g, blocks, inodes)
  {
    forall i, s {:trigger Slot(g, blocks, inodes[i], s)} :: 0 <= i < |inodes| && 0 <= s < SLOTS && (i, s) !in dead ==>
      var a := Slot(g, blocks, inodes[i], s); a != 0 ==> a in owner && owner[a] == (i, s)
  }

  /** Each owned block is a data block that its owner's slot names. */
  ghost predicate OwnersHold(g: Geometry, blocks: seq<Block>, inodes: seq<Inode>, owner: Owner)
    requires Shapes(g, blocks, inodes)
  {
    forall b :: b in owner ==>
      && g.nmeta <= b < g.size && owner[b].0 < |inodes| && owner[b].1 < SLOTS
      && Slot(g, blocks, inodes[owner[b].0], owner[b].1) == b
  }

  /** The set bits are those of the metadata, of the owned blocks, and of `extra`. */
  ghost predicate MapOk(g: Geometry, blocks: seq<Block>, owner: Owner, extra: set<nat>)
    requires Shaped(g, blocks)
  {
    forall b {:trigger Used(g, blocks, b)} :: 0 <= b < g.size ==>
        (Used(g, blocks, b) <==> b < g.nmeta || b in owner || b in extra)
  }

  /** The set bits of the free map are the metadata blocks plus the disjoint union of the blocks of
      all files; `extra` blocks are allocated and in no file yet. */
  ghost predicate Owned(g: Geometry, blocks: seq<Block>, inodes: seq<Inode>, owner: Owner,
                        extra: set<nat>, dead: set<(nat, nat)>) {
    && Shapes(g, blocks, inodes)
    && SlotsOwn(g, blocks, inodes, owner, dead)
    && OwnersHold(g, blocks, inodes, owner)
    && MapOk(g, blocks, owner, extra)
    && (forall b :: b in extra ==> g.nmeta <= b < g.size && b !in owner)
    && (forall b :: b in owner ==> owner[b] !in dead)
  }

  /** Writing a block that is no file's indirect block changes no slot. */
  lemma SlotFrame(g: Geometry, blocks: seq<Block>, blocks': seq<Block>, ip: Inode, s: nat)
    requires Shaped(g, blocks) && Shaped(g, blocks') && InodeOk(g, ip) && s < SLOTS
    requires ip.addrs[NDIRECT] != 0 ==> blocks'[ip.addrs[NDIRECT]] == blocks[ip.addrs[NDIRECT]]
    ensures Slot(g, blocks', ip, s) == Slot(g, blocks, ip, s)
  {
  }

  /** The blocks a data write may touch: free ones, extra ones, metadata and data blocks of files. */
  ghost predicate NotIndirect(g: Geometry, inodes: seq<Inode>, b: nat)
  {
    forall i :: 0 <= i < |inodes| && InodeOk(g, inodes[i]) && inodes[i].addrs[NDIRECT] != 0 ==>
      inodes[i].addrs[NDIRECT] != b
  }

  lemma BlockFrame(g: Geometry, blocks: seq<Block>, inodes: seq<Inode>, owner: Owner, dead: set<(nat, nat)>, b: nat,
                   v: Block)
    requires Shapes(g, blocks, inodes) && b < g.size && |v| == BSIZE && NotIndirect(g, inodes, b)
    requires SlotsOwn(g, blocks, inodes, owner, dead) && OwnersHold(g, blocks, inodes, owner)
    ensures var blocks' := blocks[b := v];
            && Shapes(g, blocks', inodes)
            && SlotsOwn(g, blocks', inodes, owner, dead) && OwnersHold(g, blocks', inodes, owner)
  {
    hide Word, Used;
    var blocks' := blocks[b := v];
    forall i, s | 0 <= i < |inodes| && 0 <= s < SLOTS
      ensures Slot(g, blocks', inodes[i], s) == Slot(g, blocks, inodes[i], s)
    {
      SlotFrame(g, blocks, blocks', inodes[i], s);
    }
  }

  lemma IndirectIsOwned(g: Geometry, blocks: seq<Block>, inodes: seq<Inode>, owner: Owner, dead: set<(nat, nat)>,
                        b: nat)
    requires Shapes(g, blocks, inodes) && SlotsOwn(g, blocks, inodes, owner, dead)
    requires forall i :: 0 <= i < |inodes| ==> (i, NDIRECT) !in dead
    requires b !in owner || owner[b].1 != NDIRECT
    ensures NotIndirect(g, inodes, b)
  {
    hide Word, Used;
    forall i | 0 <= i < |inodes| && InodeOk(g, inodes[i]) && inodes[i].addrs[NDIRECT] != 0
      ensures inodes[i].addrs[NDIRECT] != b
    {
      assert Slot(g, blocks, inodes[i], NDIRECT) == inodes[i].addrs[NDIRECT];
    }
  }

  // ----- file contents

  /** The block of the n-th data block of a file. */
  function BlockOf(g: Geometry, blocks: seq<Block>, ip: Inode, bn: nat): nat
    requires Shaped(g, blocks) && InodeOk(g, ip) && bn < MAXFILE
  {
    Slot(g, blocks, ip, SlotOf(bn))
  }

  /** The file's blocks hold the bytes `c`, with no hole below its length. */
  ghost predicate Holds(g: Geometry, blocks: seq<Block>, ip: Inode, c: seq<Byte>)
    requires Shaped(g, blocks) && InodeOk(g, ip)
  {
    && |c| <= MAXFILE * BSIZE
    && forall i :: 0 <= i < |c| ==>
         var a := BlockOf(g, blocks, ip, i / BSIZE); a != 0 && a < g.size && blocks[a][i % BSIZE] == c[i]
  }

  ghost predicate FilesHold(g: Geometry, blocks: seq<Block>, inodes: seq<Inode>, files: seq<seq<Byte>>)
    requires Shapes(g, blocks, inodes)
  {
    && |files| == |inodes|
    && forall k :: 0 <= k < |files| ==> Holds(g, blocks, inodes[k], files[k])
  }

  /** A file with dead slots has no contents left. */
  ghost predicate DeadEmpty(files: seq<seq<Byte>>, dead: set<(nat, nat)>) {
    forall d :: d in dead ==> d.0 < |files| && files[d.0] == [] && d.1 != NDIRECT
  }

  /** The bytes `c` with `d` written at `off`, extending the end if need be. */
  function Overwrite(c: seq<Byte>, off: nat, d: seq<Byte>): (r: seq<Byte>)
    requires off <= |c|
    ensures |r| == if off + |d| > |c| then off + |d| else |c|
    ensures forall i {:trigger r[i]} :: 0 <= i < |r| ==> r[i] == if off <= i < off + |d| then d[i - off] else c[i]
  {
    c[..off] + d + if off + |d| < |c| then c[off + |d|..] else []
  }

  lemma OverwriteConcat(c: seq<Byte>, off: nat, d: seq<Byte>, e: seq<Byte>)
    requires off <= |c|
    ensures Overwrite(Overwrite(c, off, d), off + |d|, e) == Overwrite(c, off, d + e)
  {
    hide Overwrite;
  }

  /** A block outside every file, or one whose bytes do not change, can be written. */
  lemma FilesFrame(g: Geometry, blocks: seq<Block>, inodes: seq<Inode>, owner: Owner, dead: set<(nat, nat)>,
                   files: seq<seq<Byte>>, b: nat, v: Block)
    requires Shapes(g, blocks, inodes) && b < g.size && |v| == BSIZE && NotIndirect(g, inodes, b)
    requires SlotsOwn(g, blocks, inodes, owner, dead) && FilesHold(g, blocks, inodes, files)
    requires b !in owner && DeadEmpty(files, dead)
    ensures FilesHold(g, blocks[b := v], inodes, files)
  {
    hide Word, Used;
    var blocks' := blocks[b := v];
    forall k | 0 <= k < |files| ensures Holds(g, blocks', inodes[k], files[k]) {
      var ip := inodes[k];
      forall i | 0 <= i < |files[k]|
        ensures var a := BlockOf(g, blocks', ip, i / BSIZE);
            a != 0 && a < g.size && blocks'[a][i % BSIZE] == files[k][i]
      {
        var s := SlotOf(i / BSIZE);
        SlotFrame(g, blocks, blocks', ip, s);
        assert Holds(g, blocks, inodes[k], files[k]);
        assert BlockOf(g, blocks, ip, i / BSIZE) != 0;
        assert (k, s) !in dead;
        assert s < SLOTS;
        assert Slot(g, blocks, inodes[k], s) in owner;
      }
    }
  }

  // ----- the steps of balloc, bmap and writei

  /** What every step keeps. */
  ghost predicate Core(g: Geometry, blocks: seq<Block>, inodes: seq<Inode>, owner: Owner,
                       extra: set<nat>, dead: set<(nat, nat)>, files: seq<seq<Byte>>) {
    && Owned(g, blocks, inodes, owner, extra, dead)
    && FilesHold(g, blocks, inodes, files)
    && DeadEmpty(files, dead)
  }

  lemma UsedFrame(g: Geometry, blocks: seq<Block>, b: nat, v: Block, c: nat)
    requires Shaped(g, blocks) && g.nmeta <= b < g.size && |v| == BSIZE && c < g.size
    ensures Shaped(g, blocks[b := v]) && (Used(g, blocks[b := v], c) <==> Used(g, blocks, c))
  {
    assert c / BPB <= g.size / BPB;
  }

  /** Writing a block that is in no file, metadata included. */
  lemma OutsideFrame(g: Geometry, blocks: seq<Block>, inodes: seq<Inode>, owner: Owner, extra: set<nat>,
                     dead: set<(nat, nat)>, files: seq<seq<Byte>>, b: nat, v: Block)
    requires Core(g, blocks, inodes, owner, extra, dead, files)
    requires b < g.size && |v| == BSIZE && b !in owner
    ensures var blocks' := blocks[b := v];
            && Shapes(g, blocks', inodes) && FilesHold(g, blocks', inodes, files)
            && SlotsOwn(g, blocks', inodes, owner, dead) && OwnersHold(g, blocks', inodes, owner)
  {
    hide Word, Used, FilesHold, SlotsOwn, OwnersHold, MapOk;
    IndirectIsOwned(g, blocks, inodes, owner, dead, b);
    BlockFrame(g, blocks, inodes, owner, dead, b, v);
    FilesFrame(g, blocks, inodes, owner, dead, files, b, v);
  }

  /** Flipping the bit of a block in no file. */
  lemma BitStep(g: Geometry, blocks: seq<Block>, inodes: seq<Inode>, owner: Owner, extra: set<nat>,
                dead: set<(nat, nat)>, files: seq<seq<Byte>>, b: nat, on: bool)
    requires Core(g, blocks, inodes, owner, extra, dead, files)
    requires g.nmeta <= b < g.size && b !in owner
    ensures Core(g, WithBit(g, blocks, b, on), inodes, owner, if on then extra + {b} else extra - {b}, dead, files)
  {
    hide Word, Used, FilesHold, SlotsOwn, DeadEmpty, PutByte;
    var bb := g.BitBlock(b);
    assert b / BPB <= g.size / BPB;
    var blocks' := WithBit(g, blocks, b, on);
    assert blocks' == blocks[bb := blocks'[bb]];
    OutsideFrame(g, blocks, inodes, owner, extra, dead, files, bb, blocks'[bb]);
    hide WithBit, OwnersHold;
    forall c | 0 <= c < g.size ensures Used(g, blocks', c) <==> if c == b then on else Used(g, blocks, c) {
      WithBitUsed(g, blocks, b, on, c);
    }
  }

  lemma FreeIsOutside(g: Geometry, blocks: seq<Block>, inodes: seq<Inode>, owner: Owner, extra: set<nat>,
                      dead: set<(nat, nat)>, b: nat)
    requires Owned(g, blocks, inodes, owner, extra, dead) && b < g.size && !Used(g, blocks, b)
    ensures g.nmeta <= b && b !in owner && b !in extra
  {
  }

  /** balloc: a free block gets its bit and is zeroed. */
  lemma AllocStep(g: Geometry, blocks: seq<Block>, inodes: seq<Inode>, owner: Owner, extra: set<nat>,
                  files: seq<seq<Byte>>, b: nat)
    requires Core(g, blocks, inodes, owner, extra, {}, files)
    requires b < g.size && !Used(g, blocks, b)
    ensures g.nmeta <= b && b !in owner
    ensures Core(g, WithBit(g, blocks, b, true)[b := Zeroes()], inodes, owner, extra + {b}, {}, files)
  {
    hide Word, Used, WithBit, FilesHold, SlotsOwn, OwnersHold, DeadEmpty;
    FreeIsOutside(g, blocks, inodes, owner, extra, {}, b);
    var mid := WithBit(g, blocks, b, true);
    BitStep(g, blocks, inodes, owner, extra, {}, files, b, true);
    OutsideFrame(g, mid, inodes, owner, extra + {b}, {}, files, b, Zeroes());
    assert MapOk(g, mid, owner, extra + {b});
    var blocks' := mid[b := Zeroes()];
    forall c | 0 <= c < g.size ensures Used(g, blocks', c) <==> c < g.nmeta || c in owner || c in extra + {b} {
      UsedFrame(g, mid, b, Zeroes(), c);
      assert Used(g, mid, c) <==> c < g.nmeta || c in owner || c in extra + {b};
    }
  }

  function Given(owner: Owner, b: nat, i: nat, s: nat): Owner { owner[b := (i, s)] }

  lemma ZeroWord(j: nat)
    requires j < NINDIRECT
    ensures Word(Zeroes(), j) == 0
  {
  }

  function SetAddr(ip: Inode, s: nat, b: nat): Inode
    requires s < |ip.addrs|
  {
    ip.(addrs := ip.addrs[s := b])
  }

  /** Entering a zeroed block in an empty inode slot changes that slot only. */
  lemma SetAddrSlots(g: Geometry, blocks: seq<Block>, ip: Inode, s: nat, b: nat, t: nat)
    requires Shaped(g, blocks) && InodeOk(g, ip) && s <= NDIRECT && ip.addrs[s] == 0 && t < SLOTS
    requires 0 < b < g.size && blocks[b] == Zeroes()
    ensures InodeOk(g, SetAddr(ip, s, b))
    ensures Slot(g, blocks, SetAddr(ip, s, b), t) == if t == s then b else Slot(g, blocks, ip, t)
  {
    hide Word;
    if t > NDIRECT {
      ZeroWord(t - NDIRECT - 1);
    }
  }

  /** A file keeps its contents when its slots in use keep their blocks and those blocks their bytes. */
  lemma SameFile(g: Geometry, blocks: seq<Block>, ip: Inode, blocks': seq<Block>, ip': Inode, c: seq<Byte>)
    requires Shaped(g, blocks) && InodeOk(g, ip) && Shaped(g, blocks') && InodeOk(g, ip')
    requires Holds(g, blocks, ip, c)
    requires forall bn {:trigger BlockOf(g, blocks, ip, bn)} :: 0 <= bn < MAXFILE ==>
               var a := BlockOf(g, blocks, ip, bn);
               a != 0 && a < g.size ==> BlockOf(g, blocks', ip', bn) == a && blocks'[a] == blocks[a]
    ensures Holds(g, blocks', ip', c)
  {
    hide BlockOf;
    forall i | 0 <= i < |c|
      ensures var a := BlockOf(g, blocks', ip', i / BSIZE); a != 0 && a < g.size && blocks'[a][i % BSIZE] == c[i]
    {
      var a := BlockOf(g, blocks, ip, i / BSIZE);
    }
  }

  /** bmap: a direct block, or the zeroed indirect block, is entered in the inode. */
  lemma LinkDirect(g: Geometry, blocks: seq<Block>, inodes: seq<Inode>, owner: Owner,
                   files: seq<seq<Byte>>, b: nat, i: nat, s: nat)
    requires Core(g, blocks, inodes, owner, {b}, {}, files)
    requires i < |inodes| && s <= NDIRECT && |inodes[i].addrs| == NDIRECT + 1 && inodes[i].addrs[s] == 0
    requires b < |blocks| && blocks[b] == Zeroes()
    ensures Core(g, blocks, inodes[i := SetAddr(inodes[i], s, b)], Given(owner, b, i, s), {}, {}, files)
  {
    hide Word, Used, Slot;
    assert b in {b};
    var inodes' := inodes[i := SetAddr(inodes[i], s, b)];
    var owner' := Given(owner, b, i, s);
    forall k, t | 0 <= k < |inodes| && 0 <= t < SLOTS
      ensures InodeOk(g, inodes'[k])
      ensures Slot(g, blocks, inodes'[k], t) == if k == i && t == s then b else Slot(g, blocks, inodes[k], t)
    {
      if k == i {
        SetAddrSlots(g, blocks, inodes[i], s, b, t);
      }
    }
    assert InodeOk(g, inodes'[i]) by { SetAddrSlots(g, blocks, inodes[i], s, b, 0); }
    SlotZero(g, blocks, inodes, i, s);
    forall k | 0 <= k < |files| ensures Holds(g, blocks, inodes'[k], files[k]) {
      SameFile(g, blocks, inodes[k], blocks, inodes'[k], files[k]);
    }
  }

  lemma SlotZero(g: Geometry, blocks: seq<Block>, inodes: seq<Inode>, i: nat, s: nat)
    requires Shapes(g, blocks, inodes) && i < |inodes| && s <= NDIRECT && inodes[i].addrs[s] == 0
    ensures Slot(g, blocks, inodes[i], s) == 0
  {
  }

  /** Entering a block in the indirect block changes that slot only. */
  lemma PutWordSlots(g: Geometry, blocks: seq<Block>, ip: Inode, j: nat, b: nat, t: nat)
    requires Shaped(g, blocks) && InodeOk(g, ip) && ip.addrs[NDIRECT] != 0 && j < NINDIRECT && b < UINT && t < SLOTS
    ensures var ind := ip.addrs[NDIRECT];
            var blocks' := blocks[ind := PutWord(blocks[ind], j, b)];
            && Shaped(g, blocks')
            && Slot(g, blocks', ip, t) == if t == NDIRECT + 1 + j then b else Slot(g, blocks, ip, t)
  {
    hide Word, PutWord;
    if t > NDIRECT {
      GetPut(blocks[ip.addrs[NDIRECT]], j, b, t - NDIRECT - 1);
    }
  }

  lemma OwnIndirect(g: Geometry, blocks: seq<Block>, inodes: seq<Inode>, owner: Owner, i: nat)
    requires Shapes(g, blocks, inodes) && SlotsOwn(g, blocks, inodes, owner, {}) && i < |inodes|
    ensures var a := inodes[i].addrs[NDIRECT]; a != 0 ==> a in owner && owner[a] == (i, NDIRECT)
  {
    assert Slot(g, blocks, inodes[i], NDIRECT) == inodes[i].addrs[NDIRECT];
  }

  /** A file's block is owned by the file and the block's slot. */
  lemma OwnBlock(g: Geometry, blocks: seq<Block>, inodes: seq<Inode>, owner: Owner, k: nat, bn: nat)
    requires Shapes(g, blocks, inodes) && SlotsOwn(g, blocks, inodes, owner, {}) && k < |inodes| && bn < MAXFILE
    ensures var a := BlockOf(g, blocks, inodes[k], bn); a != 0 ==> a in owner && owner[a] == (k, SlotOf(bn))
  {
    hide Slot;
    assert SlotOf(bn) < SLOTS;
    assert Slot(g, blocks, inodes[k], SlotOf(bn)) == BlockOf(g, blocks, inodes[k], bn);
  }

  /** bmap: a data block is entered in the indirect block. */
  lemma LinkEntry(g: Geometry, blocks: seq<Block>, inodes: seq<Inode>, owner: Owner,
                  files: seq<seq<Byte>>, b: nat, i: nat, j: nat)
    requires Core(g, blocks, inodes, owner, {b}, {}, files) && i < |inodes| && j < NINDIRECT
    requires var ip := inodes[i];
             |ip.addrs| == NDIRECT + 1 && 0 < ip.addrs[NDIRECT] < |blocks| && |blocks[ip.addrs[NDIRECT]]| == BSIZE &&
             Word(blocks[ip.addrs[NDIRECT]], j) == 0
    requires b < UINT
    ensures var ind := inodes[i].addrs[NDIRECT];
            Core(g, blocks[ind := PutWord(blocks[ind], j, b)], inodes, Given(owner, b, i, NDIRECT + 1 + j),
                 {}, {}, files)
  {
    hide Word, Used, Slot, PutWord, BlockOf, MapOk;
    assert b in {b};
    var ind := inodes[i].addrs[NDIRECT];
    var blocks' := blocks[ind := PutWord(blocks[ind], j, b)];
    var s := NDIRECT + 1 + j;
    EntrySlots(g, blocks, inodes, owner, i, j, b);
    OwnIndirect(g, blocks, inodes, owner, i);
    WasZero(g, blocks, inodes[i], j);
    forall k | 0 <= k < |files| ensures Holds(g, blocks', inodes[k], files[k]) {
      forall bn | 0 <= bn < MAXFILE
        ensures var a := BlockOf(g, blocks, inodes[k], bn);
                a != 0 && a < g.size ==> BlockOf(g, blocks', inodes[k], bn) == a && blocks'[a] == blocks[a]
      {
        OwnBlock(g, blocks, inodes, owner, k, bn);
        EntryBlocks(g, blocks, inodes, owner, i, j, b, k, bn);
      }
      SameFile(g, blocks, inodes[k], blocks', inodes[k], files[k]);
    }
    EntryMap(g, blocks, owner, b, ind, PutWord(blocks[ind], j, b), i, s);
  }

  lemma WasZero(g: Geometry, blocks: seq<Block>, ip: Inode, j: nat)
    requires Shaped(g, blocks) && InodeOk(g, ip) && j < NINDIRECT && ip.addrs[NDIRECT] != 0
    ensures Slot(g, blocks, ip, NDIRECT + 1 + j) == Word(blocks[ip.addrs[NDIRECT]], j)
  {
  }

  lemma EntrySlots(g: Geometry, blocks: seq<Block>, inodes: seq<Inode>, owner: Owner, i: nat, j: nat, b: nat)
    requires Shapes(g, blocks, inodes) && SlotsOwn(g, blocks, inodes, owner, {}) && i < |inodes| && j < NINDIRECT
    requires inodes[i].addrs[NDIRECT] != 0 && b < UINT
    ensures var ind := inodes[i].addrs[NDIRECT];
            var blocks' := blocks[ind := PutWord(blocks[ind], j, b)];
            && Shapes(g, blocks', inodes)
            && forall k, t {:trigger Slot(g, blocks', inodes[k], t)} :: 0 <= k < |inodes| && 0 <= t < SLOTS ==>
                 Slot(g, blocks', inodes[k], t) ==
                 if k == i && t == NDIRECT + 1 + j then b else Slot(g, blocks, inodes[k], t)
  {
    hide Word, PutWord, Slot;
    var ind := inodes[i].addrs[NDIRECT];
    var blocks' := blocks[ind := PutWord(blocks[ind], j, b)];
    forall k, t | 0 <= k < |inodes| && 0 <= t < SLOTS
      ensures Slot(g, blocks', inodes[k], t) ==
              if k == i && t == NDIRECT + 1 + j then b else Slot(g, blocks, inodes[k], t)
    {
      if k == i {
        PutWordSlots(g, blocks, inodes[i], j, b, t);
      } else {
        OwnIndirect(g, blocks, inodes, owner, i);
        OwnIndirect(g, blocks, inodes, owner, k);
        SlotFrame(g, blocks, blocks', inodes[k], t);
      }
    }
  }

  lemma EntryBlocks(g: Geometry, blocks: seq<Block>, inodes: seq<Inode>, owner: Owner, i: nat, j: nat, b: nat, k: nat,
                    bn: nat)
    requires Shapes(g, blocks, inodes) && SlotsOwn(g, blocks, inodes, owner, {}) && i < |inodes| && j < NINDIRECT
    requires inodes[i].addrs[NDIRECT] != 0 && b < UINT && k < |inodes| && bn < MAXFILE
    requires Word(blocks[inodes[i].addrs[NDIRECT]], j) == 0
    ensures var ind := inodes[i].addrs[NDIRECT];
            var blocks' := blocks[ind := PutWord(blocks[ind], j, b)];
            && Shapes(g, blocks', inodes)
            && (BlockOf(g, blocks, inodes[k], bn) != 0 ==>
                BlockOf(g, blocks', inodes[k], bn) == BlockOf(g, blocks, inodes[k], bn))
  {
    hide Word, PutWord;
    EntrySlots(g, blocks, inodes, owner, i, j, b);
  }

  lemma EntryMap(g: Geometry, blocks: seq<Block>, owner: Owner, b: nat, ind: nat, v: Block, i: nat, s: nat)
    requires Shaped(g, blocks) && MapOk(g, blocks, owner, {b}) && g.nmeta <= ind < g.size && |v| == BSIZE
    ensures Shaped(g, blocks[ind := v]) && MapOk(g, blocks[ind := v], Given(owner, b, i, s), {})
  {
    hide Used;
    var blocks' := blocks[ind := v];
    forall c | 0 <= c < g.size ensures Used(g, blocks', c) <==> c < g.nmeta || c in Given(owner, b, i, s) || c in {} {
      UsedFrame(g, blocks, ind, v, c);
      assert Used(g, blocks, c) <==> c < g.nmeta || c in owner || c in {b};
    }
  }

  /** The bytes `c` are those of `v` in block `bn` of the file and the earlier ones elsewhere. */
  ghost predicate Updated(was: seq<Byte>, bn: nat, v: Block, c: seq<Byte>)
    requires |v| == BSIZE
  {
    forall x :: 0 <= x < |c| ==>
      if x / BSIZE == bn then v[x % BSIZE] == c[x] else x < |was| && c[x] == was[x]
  }

  /** writei: storing into a data block of file i changes the bytes of that block of that file. */
  lemma StoreStep(g: Geometry, blocks: seq<Block>, inodes: seq<Inode>, owner: Owner,
                  files: seq<seq<Byte>>, i: nat, bn: nat, v: Block, c: seq<Byte>)
    requires Core(g, blocks, inodes, owner, {}, {}, files) && i < |inodes| && bn < MAXFILE && |v| == BSIZE
    requires BlockOf(g, blocks, inodes[i], bn) != 0 && |c| <= MAXFILE * BSIZE
    requires i < |files| && Updated(files[i], bn, v, c)
    ensures var a := BlockOf(g, blocks, inodes[i], bn);
            a < g.size && Core(g, blocks[a := v], inodes, owner, {}, {}, files[i := c])
  {
    hide Word, Used, Slot, BlockOf, MapOk;
    var a := BlockOf(g, blocks, inodes[i], bn);
    OwnBlock(g, blocks, inodes, owner, i, bn);
    var blocks' := blocks[a := v];
    IndirectIsOwned(g, blocks, inodes, owner, {}, a);
    BlockFrame(g, blocks, inodes, owner, {}, a, v);
    MapFrame(g, blocks, owner, {}, a, v);
    forall k | 0 <= k < |files| ensures Holds(g, blocks', inodes[k], files[i := c][k]) {
      forall m | 0 <= m < MAXFILE
        ensures BlockOf(g, blocks', inodes[k], m) == BlockOf(g, blocks, inodes[k], m)
        ensures BlockOf(g, blocks, inodes[k], m) == a ==> k == i && m == bn
        ensures BlockOf(g, blocks, inodes[k], m) != 0 ==> BlockOf(g, blocks, inodes[k], m) < g.size
      {
        OwnBlock(g, blocks, inodes, owner, k, m);
        BlockOfFrame(g, blocks, blocks', inodes[k], m);
      }
      if k != i {
        SameFile(g, blocks, inodes[k], blocks', inodes[k], files[k]);
      } else {
        StoreHolds(g, blocks, blocks', inodes[i], files[i], bn, v, c);
      }
    }
  }

  lemma MapFrame(g: Geometry, blocks: seq<Block>, owner: Owner, extra: set<nat>, a: nat, v: Block)
    requires Shaped(g, blocks) && MapOk(g, blocks, owner, extra) && g.nmeta <= a < g.size && |v| == BSIZE
    ensures Shaped(g, blocks[a := v]) && MapOk(g, blocks[a := v], owner, extra)
  {
    hide Used;
    forall c | 0 <= c < g.size ensures Used(g, blocks[a := v], c) <==> c < g.nmeta || c in owner || c in extra {
      UsedFrame(g, blocks, a, v, c);
      assert Used(g, blocks, c) <==> c < g.nmeta || c in owner || c in extra;
    }
  }

  lemma BlockOfFrame(g: Geometry, blocks: seq<Block>, blocks': seq<Block>, ip: Inode, bn: nat)
    requires Shaped(g, blocks) && Shaped(g, blocks') && InodeOk(g, ip) && bn < MAXFILE
    requires ip.addrs[NDIRECT] != 0 ==> blocks'[ip.addrs[NDIRECT]] == blocks[ip.addrs[NDIRECT]]
    ensures BlockOf(g, blocks', ip, bn) == BlockOf(g, blocks, ip, bn)
  {
    SlotFrame(g, blocks, blocks', ip, SlotOf(bn));
  }

  lemma StoreHolds(g: Geometry, blocks: seq<Block>, blocks': seq<Block>, ip: Inode, was: seq<Byte>, bn: nat, v: Block,
                   c: seq<Byte>)
    requires Shaped(g, blocks) && Shaped(g, blocks') && InodeOk(g, ip) && bn < MAXFILE && |v| == BSIZE
    requires Holds(g, blocks, ip, was) && |c| <= MAXFILE * BSIZE
    requires var a := BlockOf(g, blocks, ip, bn); 0 < a < g.size && blocks' == blocks[a := v]
    requires forall m :: 0 <= m < MAXFILE ==>
               && BlockOf(g, blocks', ip, m) == BlockOf(g, blocks, ip, m)
               && (BlockOf(g, blocks, ip, m) == BlockOf(g, blocks, ip, bn) ==> m == bn)
    requires Updated(was, bn, v, c)
    ensures Holds(g, blocks', ip, c)
  {
    hide BlockOf;
    forall x | 0 <= x < |c|
      ensures var a := BlockOf(g, blocks', ip, x / BSIZE); a != 0 && a < g.size && blocks'[a][x % BSIZE] == c[x]
    {
      var bx := x / BSIZE;
      assert BlockOf(g, blocks', ip, bx) == BlockOf(g, blocks, ip, bx);
      if bx != bn {
        var y := c[x];
        assert x < |was| && y == was[x];
      }
    }
  }

  // ----- the steps of itrunc

  lemma TruncFiles(g: Geometry, blocks: seq<Block>, inodes: seq<Inode>, owner: Owner, files: seq<seq<Byte>>, i: nat)
    requires Core(g, blocks, inodes, owner, {}, {}, files) && i < |files|
    ensures Core(g, blocks, inodes, owner, {}, {}, files[i := []])
  {
    hide Owned;
  }

  function Without(owner: Owner, b: nat): Owner { owner - {b} }

  /** Emptying an inode slot other than the indirect one, of a file with no contents. */
  lemma UnlinkDirect(g: Geometry, blocks: seq<Block>, inodes: seq<Inode>, owner: Owner,
                     files: seq<seq<Byte>>, i: nat, s: nat)
    requires Core(g, blocks, inodes, owner, {}, {}, files) && i < |inodes| && s < NDIRECT
    requires |inodes[i].addrs| == NDIRECT + 1 && inodes[i].addrs[s] != 0 && i < |files| && files[i] == []
    ensures var b := inodes[i].addrs[s];
            b in owner && Core(g, blocks, inodes[i := SetAddr(inodes[i], s, 0)], Without(owner, b), {b}, {}, files)
  {
    hide Word, Used;
    var b := inodes[i].addrs[s];
    assert Slot(g, blocks, inodes[i], s) == b;
    var inodes' := inodes[i := SetAddr(inodes[i], s, 0)];
    forall k, t | 0 <= k < |inodes| && 0 <= t < SLOTS
      ensures Slot(g, blocks, inodes'[k], t) == if k == i && t == s then 0 else Slot(g, blocks, inodes[k], t)
    {
    }
    hide Slot;
    forall k | 0 <= k < |files| ensures Holds(g, blocks, inodes'[k], files[k]) {
      assert k != i ==> Holds(g, blocks, inodes[k], files[k]);
    }
  }

  /** Giving up an entry of the indirect block without erasing it. */
  lemma KillEntry(g: Geometry, blocks: seq<Block>, inodes: seq<Inode>, owner: Owner, dead: set<(nat, nat)>,
                  files: seq<seq<Byte>>, i: nat, s: nat)
    requires Core(g, blocks, inodes, owner, {}, dead, files) && i < |inodes| && NDIRECT < s < SLOTS
    requires i < |files| && files[i] == [] && (i, s) !in dead
    requires Shapes(g, blocks, inodes) && Slot(g, blocks, inodes[i], s) != 0
    ensures var b := Slot(g, blocks, inodes[i], s);
            b in owner && Core(g, blocks, inodes, Without(owner, b), {b}, dead + {(i, s)}, files)
  {
    hide Word, Used, Slot, FilesHold;
  }

  /** Dropping the indirect block once all its entries are given up. */
  lemma DropIndirect(g: Geometry, blocks: seq<Block>, inodes: seq<Inode>, owner: Owner, dead: set<(nat, nat)>,
                     files: seq<seq<Byte>>, i: nat)
    requires Core(g, blocks, inodes, owner, {}, dead, files) && i < |inodes|
    requires i < |files| && files[i] == [] && forall d :: d in dead ==> d.0 == i && d.1 > NDIRECT
    requires Shapes(g, blocks, inodes) && inodes[i].addrs[NDIRECT] != 0
    requires forall s :: NDIRECT < s < SLOTS ==> (i, s) in dead || Slot(g, blocks, inodes[i], s) == 0
    ensures var b := inodes[i].addrs[NDIRECT];
            && b in owner
            && Core(g, blocks, inodes[i := SetAddr(inodes[i], NDIRECT, 0)], Without(owner, b), {b}, {}, files)
  {
    hide Word, Used;
    var b := inodes[i].addrs[NDIRECT];
    assert Slot(g, blocks, inodes[i], NDIRECT) == b;
    var inodes' := inodes[i := SetAddr(inodes[i], NDIRECT, 0)];
    forall k, t | 0 <= k < |inodes| && 0 <= t < SLOTS
      ensures Slot(g, blocks, inodes'[k], t) == if k == i && t >= NDIRECT then 0 else Slot(g, blocks, inodes[k], t)
    {
    }
    hide Slot;
    forall c | c in Without(owner, b) ensures Slot(g, blocks, inodes'[owner[c].0], owner[c].1) == c {
      assert owner[c] !in dead;
    }
    forall k | 0 <= k < |files| ensures Holds(g, blocks, inodes'[k], files[k]) {
      assert k != i ==> Holds(g, blocks, inodes[k], files[k]);
    }
  }
}
