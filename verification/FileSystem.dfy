/** The block allocator and the inode contents of xv6/fs.c and the chunked write of xv6/file.c. The
    abstract state is one byte string per file; `blocks` is what the buffer cache shows, free map
    included. In-core and on-disk inodes are separate, and iupdate copies one to the other. */
module FileSystem {
  import opened Common
  import opened FsLayout
  import opened FsOwner
  import opened FsCount

  datatype Io = Done(n: nat) | Fail | Panic

  /** The file after the bytes `d` have been written at `off`; nothing happens for no bytes. */
  function WrittenSoFar(c: seq<Byte>, off: nat, d: seq<Byte>): seq<Byte> {
    if d == [] || off > |c| then c else Overwrite(c, off, d)
  }

  lemma NothingWritten(c: seq<Byte>, off: nat, data: seq<Byte>)
    ensures WrittenSoFar(c, off, data[..0]) == c
  {
  }

  /** The next chunk continues the write. */
  lemma WriteOn(c: seq<Byte>, off: nat, data: seq<Byte>, k: nat, m: nat)
    requires k + m <= |data| && 0 < m && (k > 0 ==> off <= |c|)
    ensures var w := WrittenSoFar(c, off, data[..k]);
            && (off + k > |w| <==> off > |c|)
            && (off <= |c| ==> WrittenSoFar(c, off, data[..k + m]) == Overwrite(w, off + k, data[k..k + m]))
  {
    var d, e := data[..k], data[k..k + m];
    assert d + e == data[..k + m];
    if d != [] {
      OverwriteConcat(c, off, d, e);
    }
  }

  /** Reading back what was written, and what was not. */
  lemma ReadBack(c: seq<Byte>, off: nat, d: seq<Byte>)
    requires off <= |c|
    ensures Overwrite(c, off, d)[off..off + |d|] == d
    ensures Overwrite(c, off, d)[..off] == c[..off]
    ensures off + |d| <= |c| ==> |Overwrite(c, off, d)| == |c| && Overwrite(c, off, d)[off + |d|..] == c[off + |d|..]
    ensures off + |d| > |c| ==> Overwrite(c, off, d) == c[..off] + d
  {
  }


  ghost predicate SameButAddrs(was: seq<Inode>, now: seq<Inode>, i: nat) {
    && |now| == |was| && i < |was|
    && now == was[i := was[i].(addrs := now[i].addrs)]
    && |was[i].addrs| == |now[i].addrs| == NDIRECT + 1
  }

  lemma CoreShapes(g: Geometry, blocks: seq<Block>, inodes: seq<Inode>, owner: Owner, dead: set<(nat, nat)>,
                   files: seq<seq<Byte>>)
    requires Core(g, blocks, inodes, owner, {}, dead, files)
    ensures Shapes(g, blocks, inodes)
  {
  }

  lemma CoreRange(g: Geometry, blocks: seq<Block>, inodes: seq<Inode>, owner: Owner, dead: set<(nat, nat)>,
                  files: seq<seq<Byte>>, b: nat)
    requires Core(g, blocks, inodes, owner, {}, dead, files) && b in owner
    ensures b < |blocks|
  {
  }

  lemma ExtraFacts(g: Geometry, blocks: seq<Block>, inodes: seq<Inode>, owner: Owner, dead: set<(nat, nat)>,
                   files: seq<seq<Byte>>, b: nat)
    requires Core(g, blocks, inodes, owner, {b}, dead, files)
    ensures Shaped(g, blocks) && g.nmeta <= b < g.size && b !in owner && Used(g, blocks, b)
    ensures forall c :: c in owner ==> g.nmeta <= c < g.size
  {
    assert b in {b};
  }

  lemma EntryNotIndirect(g: Geometry, blocks: seq<Block>, inodes: seq<Inode>, owner: Owner, dead: set<(nat, nat)>,
                         files: seq<seq<Byte>>, i: nat, s: nat)
    requires Core(g, blocks, inodes, owner, {}, dead, files) && i < |inodes| && NDIRECT < s < SLOTS && (i, s) !in dead
    requires Shapes(g, blocks, inodes) && Slot(g, blocks, inodes[i], s) != 0
    ensures var b := Slot(g, blocks, inodes[i], s); b in owner && owner[b] == (i, s) && b < g.size
  {
    hide Slot, Used;
  }

  lemma SlotsKept(g: Geometry, was: seq<Block>, blocks: seq<Block>, ip: Inode)
    requires Shaped(g, was) && Shaped(g, blocks) && InodeOk(g, ip)
    requires ip.addrs[NDIRECT] != 0 ==> blocks[ip.addrs[NDIRECT]] == was[ip.addrs[NDIRECT]]
    ensures forall t :: 0 <= t < SLOTS ==> Slot(g, blocks, ip, t) == Slot(g, was, ip, t)
  {
    hide Word;
  }

  lemma CoreMap(g: Geometry, blocks: seq<Block>, inodes: seq<Inode>, owner: Owner, files: seq<seq<Byte>>)
    requires Core(g, blocks, inodes, owner, {}, {}, files)
    ensures Shaped(g, blocks)
    ensures forall b :: 0 <= b < g.size ==> (Used(g, blocks, b) <==> b < g.nmeta || b in owner)
    ensures forall b :: b in owner ==> g.nmeta <= b < g.size
  {
    hide Used;
  }

  lemma NoneLeft(g: Geometry, blocks: seq<Block>, inodes: seq<Inode>, owner: Owner, files: seq<seq<Byte>>, i: nat)
    requires Core(g, blocks, inodes, owner, {}, {}, files) && i < |inodes| && |inodes[i].addrs| == NDIRECT + 1
    requires forall s :: 0 <= s <= NDIRECT ==> inodes[i].addrs[s] == 0
    ensures forall b :: b in owner ==> owner[b].0 != i
  {
    hide Used, Word;
    forall b | b in owner ensures owner[b].0 != i {
      assert Slot(g, blocks, inodes[owner[b].0], owner[b].1) == b;
    }
  }


  lemma CoreAddrs(g: Geometry, blocks: seq<Block>, inodes: seq<Inode>, owner: Owner, files: seq<seq<Byte>>)
    requires Core(g, blocks, inodes, owner, {}, {}, files)
    ensures forall k :: 0 <= k < |inodes| ==> |inodes[k].addrs| == NDIRECT + 1
  {
  }

  /** Blocks and contents do not depend on the recorded size. */
  lemma SizeIsApart(g: Geometry, blocks: seq<Block>, inodes: seq<Inode>, owner: Owner, files: seq<seq<Byte>>, i: nat,
                    n: nat)
    requires Core(g, blocks, inodes, owner, {}, {}, files) && i < |inodes|
    ensures Core(g, blocks, inodes[i := inodes[i].(size := n)], owner, {}, {}, files)
  {
    hide Word, Used;
    var inodes' := inodes[i := inodes[i].(size := n)];
    forall k, s | 0 <= k < |inodes| && 0 <= s < SLOTS
      ensures InodeOk(g, inodes'[k]) && Slot(g, blocks, inodes'[k], s) == Slot(g, blocks, inodes[k], s)
    {
    }
    assert forall k :: 0 <= k < |inodes'| ==> InodeOk(g, inodes'[k]);
    hide Slot;
    forall k | 0 <= k < |files| ensures Holds(g, blocks, inodes'[k], files[k]) {
      SameFile(g, blocks, inodes[k], blocks, inodes'[k], files[k]);
    }
  }

  lemma ShapeFacts(g: Geometry, blocks: seq<Block>, inodes: seq<Inode>)
    requires Shapes(g, blocks, inodes)
    ensures Shaped(g, blocks) && forall k :: 0 <= k < |inodes| ==> |inodes[k].addrs| == NDIRECT + 1
  {
  }

  /** memmove of `d` into a block at `o`. */
  function Splice(b: Block, o: nat, d: seq<Byte>): (v: Block)
    requires o + |d| <= |b|
    ensures |v| == |b|
    ensures forall k {:trigger v[k]} :: 0 <= k < |v| ==> v[k] == if o <= k < o + |d| then d[k - o] else b[k]
  {
    b[..o] + d + b[o + |d|..]
  }

  /** A block below the end of the file is there already. */
  lemma NotFresh(g: Geometry, blocks: seq<Block>, inodes: seq<Inode>, owner: Owner, files: seq<seq<Byte>>, i: nat,
                 at: nat)
    requires Core(g, blocks, inodes, owner, {}, {}, files)
    requires i < |inodes| == |files| && at <= |files[i]| && at / BSIZE < MAXFILE
    ensures Shapes(g, blocks, inodes)
    ensures BlockOf(g, blocks, inodes[i], at / BSIZE) == 0 ==> at == |files[i]| && at % BSIZE == 0
  {
    FileBytes(g, blocks, inodes, owner, files, i);
    hide Core, BlockOf;
    if at < |files[i]| {
      var x := files[i][at];
    } else if at % BSIZE != 0 {
      var x := files[i][at - 1];
      assert (at - 1) / BSIZE == at / BSIZE;
    }
  }

  lemma SpliceUpdated(g: Geometry, blocks: seq<Block>, inodes: seq<Inode>, owner: Owner, files: seq<seq<Byte>>,
                      i: nat, at: nat, d: seq<Byte>)
    requires Core(g, blocks, inodes, owner, {}, {}, files) && i < |inodes| == |files| && at <= |files[i]|
    requires 0 < |d| && at % BSIZE + |d| <= BSIZE && at + |d| <= MAXFILE * BSIZE
    requires Shapes(g, blocks, inodes) && 0 < BlockOf(g, blocks, inodes[i], at / BSIZE) < g.size
    ensures var a := BlockOf(g, blocks, inodes[i], at / BSIZE);
            && |blocks[a]| == BSIZE
            && |Overwrite(files[i], at, d)| <= MAXFILE * BSIZE
            && Updated(files[i], at / BSIZE, Splice(blocks[a], at % BSIZE, d), Overwrite(files[i], at, d))
  {
    FileBytes(g, blocks, inodes, owner, files, i);
    hide Core, BlockOf, Overwrite, Splice;
    var bn, a := at / BSIZE, BlockOf(g, blocks, inodes[i], at / BSIZE);
    var v, c := Splice(blocks[a], at % BSIZE, d), Overwrite(files[i], at, d);
    forall x | 0 <= x < |c|
      ensures if x / BSIZE == bn then v[x % BSIZE] == c[x] else x < |files[i]| && c[x] == files[i][x]
    {
      if at <= x < at + |d| {
        assert x / BSIZE == bn && x % BSIZE == at % BSIZE + (x - at);
      } else if x / BSIZE == bn {
        assert blocks[a][x % BSIZE] == files[i][x];
        assert !(at % BSIZE <= x % BSIZE < at % BSIZE + |d|);
      }
    }
  }


  lemma FileBytes(g: Geometry, blocks: seq<Block>, inodes: seq<Inode>, owner: Owner, files: seq<seq<Byte>>, i: nat)
    requires Core(g, blocks, inodes, owner, {}, {}, files) && i < |inodes|
    ensures Shapes(g, blocks, inodes) && i < |files| && |files[i]| <= MAXFILE * BSIZE
    ensures forall x :: 0 <= x < |files[i]| ==>
              var a := BlockOf(g, blocks, inodes[i], x / BSIZE);
              a != 0 && a < g.size && blocks[a][x % BSIZE] == files[i][x]
  {
    assert Holds(g, blocks, inodes[i], files[i]);
  }

  /** Bytes of a file within one block lie side by side in that block. */
  lemma TakeJoin(c: seq<Byte>, tot: nat, m: nat)
    requires tot + m <= |c|
    ensures c[..tot] + c[tot..tot + m] == c[..tot + m]
  {
  }

  lemma SliceJoin(c: seq<Byte>, off: nat, tot: nat, m: nat)
    requires off + tot + m <= |c|
    ensures c[off..off + tot] + c[off + tot..off + tot + m] == c[off..off + (tot + m)]
  {
  }

  lemma FileChunk(g: Geometry, blocks: seq<Block>, inodes: seq<Inode>, owner: Owner, files: seq<seq<Byte>>, i: nat,
                  at: nat, m: nat)
    requires Core(g, blocks, inodes, owner, {}, {}, files) && i < |inodes|
    requires i < |files| && at + m <= |files[i]| && at % BSIZE + m <= BSIZE && 0 < m
    ensures Shapes(g, blocks, inodes) && at / BSIZE < MAXFILE
    ensures var a := BlockOf(g, blocks, inodes[i], at / BSIZE);
            0 < a < g.size && |blocks[a]| == BSIZE && blocks[a][at % BSIZE..at % BSIZE + m] == files[i][at..at + m]
  {
    FileBytes(g, blocks, inodes, owner, files, i);
    hide Core, BlockOf;
    var a := BlockOf(g, blocks, inodes[i], at / BSIZE);
    var first := files[i][at];
    var s, t := blocks[a][at % BSIZE..at % BSIZE + m], files[i][at..at + m];
    forall k | 0 <= k < m ensures s[k] == t[k] {
      var x := at + k;
      assert x / BSIZE == at / BSIZE && x % BSIZE == at % BSIZE + k;
      assert files[i][x] == t[k];
    }
  }

  lemma CoreFacts(g: Geometry, blocks: seq<Block>, inodes: seq<Inode>, owner: Owner, extra: set<nat>,
                  files: seq<seq<Byte>>)
    requires Core(g, blocks, inodes, owner, extra, {}, files)
    ensures Shapes(g, blocks, inodes) && SlotsOwn(g, blocks, inodes, owner, {}) && |files| == |inodes|
    ensures forall c :: 0 <= c < g.nmeta ==> Used(g, blocks, c)
    ensures forall c :: c in owner ==> g.nmeta <= c < g.size && Used(g, blocks, c)
  {
  }

  lemma AddrOwned(g: Geometry, blocks: seq<Block>, inodes: seq<Inode>, owner: Owner, i: nat, s: nat)
    requires Shapes(g, blocks, inodes) && SlotsOwn(g, blocks, inodes, owner, {}) && i < |inodes| && s <= NDIRECT
    ensures inodes[i].addrs[s] != 0 ==> inodes[i].addrs[s] in owner && owner[inodes[i].addrs[s]] == (i, s)
  {
    assert Slot(g, blocks, inodes[i], s) == inodes[i].addrs[s];
  }

  lemma BlockOfIndirect(g: Geometry, blocks: seq<Block>, ip: Inode, j: nat)
    requires Shaped(g, blocks) && InodeOk(g, ip) && j < NINDIRECT
    ensures BlockOf(g, blocks, ip, NDIRECT + j) ==
            if ip.addrs[NDIRECT] == 0 then 0 else Word(blocks[ip.addrs[NDIRECT]], j)
    ensures blocks[ip.addrs[NDIRECT]] == Zeroes() ==> Word(blocks[ip.addrs[NDIRECT]], j) == 0
  {
    ZeroWord(j);
  }

  lemma WithBitFrame(g: Geometry, blocks: seq<Block>, b: nat, on: bool, c: nat)
    requires Shaped(g, blocks) && b < g.size && g.nmeta <= c < g.size
    ensures WithBit(g, blocks, b, on)[c] == blocks[c]
  {
    assert b / BPB <= g.size / BPB;
  }

  // ----- free blocks and shapes under the steps

  /** Writing a block behind the metadata leaves the list of free blocks. */
  lemma {:induction false} FreeFrame(g: Geometry, blocks: seq<Block>, b: nat, v: Block)
    requires Shaped(g, blocks) && g.nmeta <= b < g.size && |v| == BSIZE
    ensures Shaped(g, blocks[b := v]) && Free(g, blocks[b := v]) == Free(g, blocks)
  {
    hide Used;
    UsedFrame(g, blocks, b, v, b);
    forall c {:trigger Used(g, blocks[b := v], c)} | 0 <= c < g.size
      ensures Used(g, blocks, c) <==> Used(g, blocks[b := v], c)
    {
      UsedFrame(g, blocks, b, v, c);
    }
    FreeSame(g, blocks, blocks[b := v], 0);
  }

  /** balloc takes the first free block. */
  lemma {:induction false} FreeAlloc(g: Geometry, blocks: seq<Block>, b: nat)
    requires Shaped(g, blocks) && g.nmeta <= b < g.size && !Used(g, blocks, b)
    requires forall c :: 0 <= c < b ==> Used(g, blocks, c)
    ensures Shaped(g, WithBit(g, blocks, b, true)[b := Zeroes()])
    ensures Free(g, blocks) == [b] + Free(g, WithBit(g, blocks, b, true)[b := Zeroes()])
  {
    hide Used, WithBit;
    var mid := WithBit(g, blocks, b, true);
    forall c {:trigger Used(g, mid, c)} | 0 <= c < g.size ensures Used(g, mid, c) <==> c == b || Used(g, blocks, c) {
      WithBitUsed(g, blocks, b, true, c);
    }
    FreeTake(g, blocks, mid, b);
    FreeFrame(g, mid, b, Zeroes());
  }

  lemma {:induction false} ShapeFrame(g: Geometry, blocks: seq<Block>, blocks': seq<Block>, ip: Inode)
    requires Shaped(g, blocks) && Shaped(g, blocks') && InodeOk(g, ip)
    requires ip.addrs[NDIRECT] != 0 ==> blocks'[ip.addrs[NDIRECT]] == blocks[ip.addrs[NDIRECT]]
    ensures ShapeOf(g, blocks', ip) == ShapeOf(g, blocks, ip)
  {
    hide BlockOf;
    forall m | 0 <= m < MAXFILE ensures BlockOf(g, blocks', ip, m) == BlockOf(g, blocks, ip, m) {
      BlockOfFrame(g, blocks, blocks', ip, m);
    }
    assert ShapeOf(g, blocks', ip).data == ShapeOf(g, blocks, ip).data;
  }

  lemma {:induction false} ShapeSetAddr(g: Geometry, blocks: seq<Block>, ip: Inode, s: nat, b: nat)
    requires Shaped(g, blocks) && InodeOk(g, ip) && s <= NDIRECT && ip.addrs[s] == 0
    requires 0 < b < g.size && blocks[b] == Zeroes()
    ensures InodeOk(g, SetAddr(ip, s, b))
    ensures var sh := ShapeOf(g, blocks, ip);
            ShapeOf(g, blocks, SetAddr(ip, s, b)) == if s < NDIRECT then sh.(data := sh.data[s := b]) else sh.(ind := b)
  {
    hide Slot, Proper;
    SetAddrSlots(g, blocks, ip, s, b, 0);
    var sh, t := ShapeOf(g, blocks, ip), ShapeOf(g, blocks, SetAddr(ip, s, b));
    forall m | 0 <= m < MAXFILE ensures t.data[m] == if m == s && s < NDIRECT then b else sh.data[m] {
      SetAddrSlots(g, blocks, ip, s, b, SlotOf(m));
    }
    assert t.data == if s < NDIRECT then sh.data[s := b] else sh.data;
  }

  lemma {:induction false} ShapePutWord(g: Geometry, blocks: seq<Block>, ip: Inode, j: nat, b: nat)
    requires Shaped(g, blocks) && InodeOk(g, ip) && ip.addrs[NDIRECT] != 0 && j < NINDIRECT && b < UINT
    ensures var ind := ip.addrs[NDIRECT];
            var blocks' := blocks[ind := PutWord(blocks[ind], j, b)];
            var sh := ShapeOf(g, blocks, ip);
            Shaped(g, blocks') && ShapeOf(g, blocks', ip) == sh.(data := sh.data[NDIRECT + j := b])
  {
    hide Slot, Proper, PutWord;
    PutWordSlots(g, blocks, ip, j, b, 0);
    var ind := ip.addrs[NDIRECT];
    var blocks' := blocks[ind := PutWord(blocks[ind], j, b)];
    var sh, t := ShapeOf(g, blocks, ip), ShapeOf(g, blocks', ip);
    forall m | 0 <= m < MAXFILE ensures t.data[m] == if m == NDIRECT + j then b else sh.data[m] {
      PutWordSlots(g, blocks, ip, j, b, SlotOf(m));
    }
    assert t.data == sh.data[NDIRECT + j := b];
  }

  lemma TakenOne(g: Geometry, b: nat)
    ensures Taken(g, [b]) == {g.BitBlock(b), b}
  {
    assert Elems([b]) == {b};
  }

  lemma DirectIs(g: Geometry, blocks: seq<Block>, ip: Inode, bn: nat)
    requires Shaped(g, blocks) && InodeOk(g, ip) && bn < NDIRECT
    ensures ShapeOf(g, blocks, ip).data[bn] == ip.addrs[bn]
  {
  }

  lemma {:induction false} AddrInRange(g: Geometry, blocks: seq<Block>, inodes: seq<Inode>, owner: Owner,
                                       files: seq<seq<Byte>>, i: nat, s: nat)
    requires Core(g, blocks, inodes, owner, {}, {}, files) && i < |inodes| && s <= NDIRECT
    ensures Shapes(g, blocks, inodes) && inodes[i].addrs[s] < g.size
  {
    hide Used;
    assert Slot(g, blocks, inodes[i], s) == inodes[i].addrs[s];
  }

  /** Where bmap leaves file, free blocks and log when it gives the file its m-th block. */
  ghost predicate MapResult(g: Geometry, sh: Shape, f: seq<nat>, m: nat, before: set<nat>,
                            blocks: seq<Block>, ip: Inode, logged: set<nat>, addr: nat) {
    && Proper(sh) && m < MAXFILE && Cost(sh, m) <= |f| && Shaped(g, blocks) && InodeOk(g, ip)
    && ShapeOf(g, blocks, ip) == Mapped(sh, f, m) && Free(g, blocks) == f[Cost(sh, m)..]
    && addr == Mapped(sh, f, m).data[m] && 0 < addr < g.size
    && logged == before + Taken(g, f[..Cost(sh, m)])
                 + if Cost(sh, m) > 0 && m >= NDIRECT then {Mapped(sh, f, m).ind} else {}
  }

  lemma {:induction false} DirectResult(g: Geometry, sh: Shape, f: seq<nat>, m: nat, before: set<nat>,
                                        blocks: seq<Block>, ip: Inode, logged: set<nat>, addr: nat)
    requires Proper(sh) && m < NDIRECT && Shaped(g, blocks) && InodeOk(g, ip) && 0 < addr < g.size
    requires if sh.data[m] != 0 then
               addr == sh.data[m] && ShapeOf(g, blocks, ip) == sh && Free(g, blocks) == f && logged == before
             else
               && f == [addr] + Free(g, blocks) && logged == before + Taken(g, [addr])
               && ShapeOf(g, blocks, ip) == sh.(data := sh.data[m := addr])
    ensures MapResult(g, sh, f, m, before, blocks, ip, logged, addr)
  {
    hide ShapeOf, Free, BitBlocks, Elems;
    assert f[..0] == [] && Taken(g, []) == {};
    if sh.data[m] == 0 { assert f[..1] == [addr]; }
  }

  lemma {:induction false} IndirectResult(g: Geometry, sh: Shape, f: seq<nat>, mid: Shape, f1: seq<nat>, j: nat,
                                          before: set<nat>, l1: set<nat>, blocks: seq<Block>, ip: Inode,
                                          logged: set<nat>, addr: nat)
    requires Proper(sh) && Proper(mid) && j < NINDIRECT && Shaped(g, blocks) && InodeOk(g, ip) && 0 < addr < g.size
    requires if sh.ind != 0 then
               mid == sh && f1 == f && l1 == before
             else
               && mid == sh.(ind := mid.ind) && mid.ind != 0
               && f == [mid.ind] + f1 && l1 == before + Taken(g, [mid.ind])
    requires if mid.data[NDIRECT + j] != 0 then
               addr == mid.data[NDIRECT + j] && ShapeOf(g, blocks, ip) == mid && Free(g, blocks) == f1 && logged == l1
             else
               && f1 == [addr] + Free(g, blocks) && logged == l1 + Taken(g, [addr]) + {mid.ind}
               && ShapeOf(g, blocks, ip) == mid.(data := mid.data[NDIRECT + j := addr])
    ensures MapResult(g, sh, f, NDIRECT + j, before, blocks, ip, logged, addr)
  {
    hide ShapeOf, Free, BitBlocks, Elems, Taken;
    TakenNone(g);
    assert f[..0] == [];
    var m := NDIRECT + j;
    if mid.data[m] == 0 && sh.ind != 0 {
      assert f[..1] == [addr];
    } else if mid.data[m] == 0 {
      assert f[..2] == [mid.ind] + [addr];
      TakenJoin(g, [mid.ind], [addr]);
      assert f[2..] == Free(g, blocks);
    }
  }

  lemma TakenNone(g: Geometry)
    ensures Taken(g, []) == {}
  {
  }

  /** Where one round of writei leaves file, free blocks and log. */
  ghost predicate RoundResult(g: Geometry, sh: Shape, f: seq<nat>, m: nat, before: set<nat>,
                              blocks: seq<Block>, ip: Inode, logged: set<nat>) {
    && Proper(sh) && m < MAXFILE && Cost(sh, m) <= |f| && Shaped(g, blocks) && InodeOk(g, ip)
    && ShapeOf(g, blocks, ip) == Mapped(sh, f, m) && Free(g, blocks) == f[Cost(sh, m)..]
    && logged == before + Round(g, sh, f, m)
  }

  /** Data blocks hold neither bits nor block numbers of the file. */
  lemma {:induction false} StoreShape(g: Geometry, blocks: seq<Block>, inodes: seq<Inode>, owner: Owner,
                                      files: seq<seq<Byte>>, i: nat, bn: nat, v: Block)
    requires Core(g, blocks, inodes, owner, {}, {}, files) && i < |inodes| && bn < MAXFILE && |v| == BSIZE
    requires Shapes(g, blocks, inodes) && BlockOf(g, blocks, inodes[i], bn) != 0
    ensures var a := BlockOf(g, blocks, inodes[i], bn);
            && g.nmeta <= a < g.size && Shaped(g, blocks[a := v]) && Free(g, blocks[a := v]) == Free(g, blocks)
            && ShapeOf(g, blocks[a := v], inodes[i]) == ShapeOf(g, blocks, inodes[i])
  {
    hide Used, Core, ShapeOf, Slot, BlockOf, Free;
    CoreFacts(g, blocks, inodes, owner, {}, files);
    OwnBlock(g, blocks, inodes, owner, i, bn);
    var a := BlockOf(g, blocks, inodes[i], bn);
    if inodes[i].addrs[NDIRECT] != 0 { OwnIndirect(g, blocks, inodes, owner, i); }
    FreeFrame(g, blocks, a, v);
    ShapeFrame(g, blocks, blocks[a := v], inodes[i]);
  }

  /** How far the loop of writei is: data blocks lo up to hi are mapped and logged. */
  ghost predicate Progress(g: Geometry, sh: Shape, f: seq<nat>, lo: nat, hi: nat, before: set<nat>,
                           blocks: seq<Block>, ip: Inode, logged: set<nat>) {
    && Proper(sh) && lo <= hi <= MAXFILE && Need(sh, lo, hi) <= |f| && Shaped(g, blocks) && InodeOk(g, ip)
    && Filled(sh, f, ShapeOf(g, blocks, ip), lo, hi) && Free(g, blocks) == f[Need(sh, lo, hi)..]
    && logged == before + Logs(g, sh, f, lo, hi) && forall k :: 0 <= k < |f| ==> f[k] != 0
  }

  /** Block 0 is never free. */
  lemma {:induction false} FreeNotZero(g: Geometry, blocks: seq<Block>, inodes: seq<Inode>, owner: Owner,
                                       files: seq<seq<Byte>>)
    requires Core(g, blocks, inodes, owner, {}, {}, files)
    ensures Shaped(g, blocks) && forall k :: 0 <= k < |Free(g, blocks)| ==> Free(g, blocks)[k] >= g.nmeta > 0
  {
    hide Used, Core;
    CoreFacts(g, blocks, inodes, owner, {}, files);
  }

  lemma {:induction false} BlocksStart(g: Geometry, off: nat, n: nat, blocks: seq<Block>, inodes: seq<Inode>,
                                       owner: Owner,
                                       files: seq<seq<Byte>>, i: nat, logged: set<nat>)
    requires Core(g, blocks, inodes, owner, {}, {}, files) && i < |inodes| && InRange(off, n)
    ensures Shapes(g, blocks, inodes) && Last(off, 0) == First(off)
    ensures Progress(g, ShapeOf(g, blocks, inodes[i]), Free(g, blocks), First(off), First(off), logged,
                     blocks, inodes[i], logged)
  {
    hide Used, Core, ShapeOf, Free;
    CoreFacts(g, blocks, inodes, owner, {}, files);
    FreeNotZero(g, blocks, inodes, owner, files);
    LastFits(off, n);
    FilledStart(ShapeOf(g, blocks, inodes[i]), Free(g, blocks), First(off));
    NoLogs(g, ShapeOf(g, blocks, inodes[i]), Free(g, blocks), First(off), First(off));
  }

  lemma {:induction false} ProgressStep(g: Geometry, sh: Shape, f: seq<nat>, lo: nat, m: nat, hi: nat, before: set<nat>,
                                        was: seq<Block>, ip: Inode, l: set<nat>,
                                        blocks: seq<Block>, ip': Inode, l': set<nat>, ok: bool)
    requires Progress(g, sh, f, lo, m, before, was, ip, l) && m < hi <= MAXFILE
    requires ok <==> Cost(ShapeOf(g, was, ip), m) <= |Free(g, was)|
    requires ok ==> RoundResult(g, ShapeOf(g, was, ip), Free(g, was), m, l, blocks, ip', l')
    ensures ok ==> Progress(g, sh, f, lo, m + 1, before, blocks, ip', l')
    ensures !ok ==> |f| < Need(sh, lo, hi)
  {
    hide ShapeOf, Free, Logs, Round, Filled, Need, Mapped, Cost;
    var t := ShapeOf(g, was, ip);
    NeedStep(sh, f, t, lo, m);
    if ok {
      FilledStep(sh, f, t, lo, m);
      LogsStep(g, sh, f, t, lo, m);
    } else {
      NeedMore(sh, lo, m + 1, hi);
    }
  }

  lemma ProgressNeed(g: Geometry, sh: Shape, f: seq<nat>, lo: nat, hi: nat, before: set<nat>,
                     blocks: seq<Block>, ip: Inode, logged: set<nat>)
    requires Progress(g, sh, f, lo, hi, before, blocks, ip, logged)
    ensures Proper(sh) && hi <= MAXFILE && Need(sh, lo, hi) <= |f|
  {
  }

  lemma OverwriteNothing(c: seq<Byte>, off: nat)
    requires off <= |c|
    ensures Overwrite(c, off, []) == c
  {
  }

  /** Where the loop of writei stands: at its start, at its end or at the start of a block. */
  predicate Aligned(off: nat, tot: nat, n: nat) { tot == 0 || tot == n || (off + tot) % BSIZE == 0 }

  lemma AlignedStep(off: nat, tot: nat, n: nat, m: nat)
    requires tot < n && InRange(off, n) && Aligned(off, tot, n) && m == Min(n - tot, BSIZE - (off + tot) % BSIZE)
    ensures 0 < m <= n - tot && Aligned(off, tot + m, n) && (off + tot) % BSIZE + m <= BSIZE
    ensures Last(off, tot) == (off + tot) / BSIZE && Last(off, tot + m) == (off + tot) / BSIZE + 1
    ensures (off + tot) / BSIZE < Last(off, n) <= MAXFILE
  {
  }

  lemma ShapeSize(g: Geometry, blocks: seq<Block>, inodes: seq<Inode>, i: nat, n: nat)
    requires Shapes(g, blocks, inodes) && i < |inodes|
    ensures InodeOk(g, inodes[i].(size := n))
    ensures ShapeOf(g, blocks, inodes[i].(size := n)) == ShapeOf(g, blocks, inodes[i])
  {
    var ip := inodes[i].(size := n);
    forall m | 0 <= m < MAXFILE ensures BlockOf(g, blocks, ip, m) == BlockOf(g, blocks, inodes[i], m) {
      assert Slot(g, blocks, ip, SlotOf(m)) == Slot(g, blocks, inodes[i], SlotOf(m));
    }
  }

  /** The sizes once the file that has grown has its new one. */
  lemma SizesAfter(was: seq<Inode>, mid: seq<Inode>, now: seq<Inode>, files: seq<seq<Byte>>, i: nat, off: nat,
                   data: seq<Byte>)
    requires SameButAddrs(was, mid, i) && |files| == |was| && forall k :: 0 <= k < |was| ==> was[k].size == |files[k]|
    requires off <= |files[i]|
    requires var n := off + |data|; now == if data != [] && n > |files[i]| then mid[i := mid[i].(size := n)] else mid
    ensures var files' := files[i := Overwrite(files[i], off, data)];
            |now| == |files'| && forall k :: 0 <= k < |now| ==> now[k].size == |files'[k]|
  {
    hide Overwrite;
    assert mid[i].size == |files[i]|;
  }

  lemma AtMost(l: set<nat>, before: set<nat>, w: set<nat>, n: nat)
    requires l == before + w && |w| <= n
    ensures |l - before| <= n
  {
    SubsetSize(l - before, w);
  }

  /** Where a write of n bytes at off leaves a file and the free blocks. */
  ghost predicate Wrote(g: Geometry, sh: Shape, f: seq<nat>, off: nat, n: nat, blocks: seq<Block>, ip: Inode) {
    && Proper(sh) && InRange(off, n) && WriteNeed(sh, off, n) <= |f| && Shaped(g, blocks) && InodeOk(g, ip)
    && Last(off, n) <= MAXFILE && Filled(sh, f, ShapeOf(g, blocks, ip), First(off), Last(off, n))
    && Free(g, blocks) == f[WriteNeed(sh, off, n)..]
  }

  /** The loop of writei to its end; the inodes are those with the new size. */
  lemma {:induction false} ProgressEnds(g: Geometry, sh: Shape, f: seq<nat>, i: nat, size: nat, off: nat, n: nat,
                                        before: set<nat>, blocks: seq<Block>, ip: Inode, logged: set<nat>,
                                        inodes: seq<Inode>)
    requires InRange(off, n) && Progress(g, sh, f, First(off), Last(off, n), before, blocks, ip, logged)
    requires Shapes(g, blocks, inodes) && i < |inodes|
    requires ShapeOf(g, blocks, inodes[i]) == ShapeOf(g, blocks, ip)
    ensures WriteNeed(sh, off, n) <= |f| && Wrote(g, sh, f, off, n, blocks, inodes[i])
    ensures var grown := if n > 0 && off + n > size then {g.InodeBlock(i)} else {};
            logged + grown == before + WriteLogs(g, sh, f, i, size, off, n)
  {
    hide ShapeOf, Free, Need, Filled, Logs, First, Last;
  }

  /** The bound on what a write logs, from the state before it. */
  lemma {:induction false} WriteStart(g: Geometry, blocks: seq<Block>, inodes: seq<Inode>, owner: Owner,
                                      files: seq<seq<Byte>>,
                                      i: nat, off: nat, n: nat)
    requires Core(g, blocks, inodes, owner, {}, {}, files)
    requires i < |inodes| == |files| && off <= |files[i]| && InRange(off, n)
    ensures Shapes(g, blocks, inodes)
    ensures var sh, f := ShapeOf(g, blocks, inodes[i]), Free(g, blocks);
            WriteNeed(sh, off, n) <= |f| ==> |WriteLogs(g, sh, f, i, |files[i]|, off, n)| <= LogBound(off, n)
  {
    hide Core, ShapeOf, Free, BlockOf, Need, Logs;
    CoreShapes(g, blocks, inodes, owner, {}, files);
    var sh, f := ShapeOf(g, blocks, inodes[i]), Free(g, blocks);
    LastFits(off, n);
    if n > 0 && off % BSIZE != 0 { NotFresh(g, blocks, inodes, owner, files, i, off); }
    if WriteNeed(sh, off, n) <= |f| { WriteLogsSize(g, sh, f, i, |files[i]|, off, n); }
  }

  /** In a file that ends inside its last direct block that block is there, in use and so not free. */
  lemma {:induction false} SpreadHere(g: Geometry, blocks: seq<Block>, inodes: seq<Inode>, owner: Owner,
                                      files: seq<seq<Byte>>, i: nat)
    requires Core(g, blocks, inodes, owner, {}, {}, files) && i < |inodes| == |files| && i < g.ninodes
    requires Shapes(g, blocks, inodes) && inodes[i].addrs[NDIRECT] == 0
    requires First(|files[i]|) == NDIRECT - 1 && |files[i]| % BSIZE != 0
    requires 5 <= |Free(g, blocks)| && UnlikeBits(g, Free(g, blocks)[..4])
    ensures Spread(g, ShapeOf(g, blocks, inodes[i]), Free(g, blocks), i, |files[i]|)
  {
    hide Used, Core, BlockOf, ShapeOf, UnlikeBits;
    CoreFacts(g, blocks, inodes, owner, {}, files);
    FreeNotZero(g, blocks, inodes, owner, files);
    NotFresh(g, blocks, inodes, owner, files, i, |files[i]|);
    OwnBlock(g, blocks, inodes, owner, i, NDIRECT - 1);
    var f, d := Free(g, blocks), BlockOf(g, blocks, inodes[i], NDIRECT - 1);
    assert ShapeOf(g, blocks, inodes[i]).data[NDIRECT - 1] == d;
    forall k | 0 <= k < |f| ensures g.nmeta <= f[k] < g.size && f[k] != d {
      assert !Used(g, blocks, f[k]);
    }
  }

  // ----- only logged blocks change

  /** From `was` to `now` only blocks passed to log_write have changed, and none in front of the inode
      blocks has been passed. */
  ghost predicate OnlyLogged(g: Geometry, was: seq<Block>, l: set<nat>, now: seq<Block>, l': set<nat>) {
    && |now| == |was| && l <= l'
    && (forall b {:trigger b in l'} :: b in l' && b !in l ==> g.inodestart <= b < |now|)
    && (forall b {:trigger now[b]} :: 0 <= b < |now| && b !in l' ==> now[b] == was[b])
  }

  ghost predicate OnlyLoggedInodes(g: Geometry, was: seq<Inode>, now: seq<Inode>, l': set<nat>) {
    |now| == |was| && forall k {:trigger now[k]} :: 0 <= k < |now| && g.InodeBlock(k) !in l' ==> now[k] == was[k]
  }

  lemma LoggedNothing(g: Geometry, blocks: seq<Block>, inodes: seq<Inode>, l: set<nat>)
    ensures OnlyLogged(g, blocks, l, blocks, l) && OnlyLoggedInodes(g, inodes, inodes, l)
  {
  }

  lemma LoggedThen(g: Geometry, a: seq<Block>, l: set<nat>, b: seq<Block>, l': set<nat>, c: seq<Block>, l'': set<nat>)
    requires OnlyLogged(g, a, l, b, l') && OnlyLogged(g, b, l', c, l'')
    ensures OnlyLogged(g, a, l, c, l'')
  {
    forall x {:trigger c[x]} | 0 <= x < |c| && x !in l'' ensures c[x] == a[x] {
      var y := b[x];
    }
  }

  /** The inode block of file i, logged. */
  lemma LoggedInode(g: Geometry, a: seq<Block>, l: set<nat>, b: seq<Block>, l': set<nat>, i: nat,
                    was: seq<Inode>, mid: seq<Inode>, now: seq<Inode>)
    requires OnlyLogged(g, a, l, b, l') && g.inodestart <= g.InodeBlock(i) < |b|
    requires SameButAddrs(was, mid, i) && |now| == |mid| && now == mid[i := now[i]]
    ensures OnlyLogged(g, a, l, b, l' + {g.InodeBlock(i)})
    ensures OnlyLoggedInodes(g, was, now, l' + {g.InodeBlock(i)})
  {
  }

  lemma LoggedStore(g: Geometry, a: seq<Block>, l: set<nat>, b: seq<Block>, l': set<nat>, x: nat, v: Block)
    requires OnlyLogged(g, a, l, b, l') && g.inodestart <= x < |b|
    ensures OnlyLogged(g, a, l, b[x := v], l' + {x})
  {
    var c := b[x := v];
    forall y {:trigger c[y]} | 0 <= y < |c| && y !in l' + {x} ensures c[y] == a[y] {
      assert c[y] == b[y];
    }
  }

  lemma LoggedAlloc(g: Geometry, blocks: seq<Block>, l: set<nat>, b: nat)
    requires Shaped(g, blocks) && g.nmeta <= b < g.size
    ensures OnlyLogged(g, blocks, l, WithBit(g, blocks, b, true)[b := Zeroes()], l + Taken(g, [b]))
  {
    TakenOne(g, b);
    assert b / BPB <= g.size / BPB;
    var bb := g.BitBlock(b);
    var c := WithBit(g, blocks, b, true);
    assert OnlyLogged(g, blocks, l, blocks, l);
    LoggedStore(g, blocks, l, blocks, l, bb, c[bb]);
    assert c == blocks[bb := c[bb]];
    LoggedStore(g, blocks, l, c, l + {bb}, b, Zeroes());
    assert l + {bb} + {b} == l + Taken(g, [b]);
  }

  lemma LoggedFree(g: Geometry, blocks: seq<Block>, l: set<nat>, b: nat)
    requires Shaped(g, blocks) && b < g.size
    ensures OnlyLogged(g, blocks, l, WithBit(g, blocks, b, false), l + {g.BitBlock(b)})
  {
    assert b / BPB <= g.size / BPB;
    var bb := g.BitBlock(b);
    var c := WithBit(g, blocks, b, false);
    assert OnlyLogged(g, blocks, l, blocks, l);
    LoggedStore(g, blocks, l, blocks, l, bb, c[bb]);
    assert c == blocks[bb := c[bb]];
  }

  // ----- what itrunc logs

  /** From `was` to `now` blocks were given up, and exactly their bitmap blocks logged. */
  ghost predicate FreedBits(g: Geometry, was: Owner, now: Owner, l: set<nat>, l': set<nat>) {
    && (forall b {:trigger b in now} :: b in now ==> b in was)
    && (forall b {:trigger b in was} :: b in was && b !in now ==> g.BitBlock(b) in l')
    && l <= l' && (forall x {:trigger x in l'} :: x in l' && x !in l ==> BitFreed(g, was, now, x))
  }

  ghost predicate BitFreed(g: Geometry, was: Owner, now: Owner, x: nat) {
    exists b {:trigger b in was} :: b in was && b !in now && g.BitBlock(b) == x
  }

  lemma NoneFreed(g: Geometry, blocks: seq<Block>, owner: Owner, l: set<nat>)
    ensures FreedBits(g, owner, owner, l, l) && OnlyLogged(g, blocks, l, blocks, l)
  {
  }

  lemma {:induction false} FreedStep(g: Geometry, was: Owner, now: Owner, l: set<nat>, l': set<nat>, b: nat)
    requires FreedBits(g, was, now, l, l') && b in now
    ensures FreedBits(g, was, Without(now, b), l, l' + {g.BitBlock(b)})
  {
    var now', l'' := Without(now, b), l' + {g.BitBlock(b)};
    assert b in was && b !in now';
    forall x {:trigger x in l''} | x in l'' && x !in l ensures BitFreed(g, was, now', x) {
      if x in l' {
        assert BitFreed(g, was, now, x);
        var c :| c in was && c !in now && g.BitBlock(c) == x;
        assert c in was && c !in now';
      }
    }
  }

  lemma {:induction false} FreedThen(g: Geometry, was: Owner, mid: Owner, now: Owner, l: set<nat>, l': set<nat>,
                                     l'': set<nat>)
    requires FreedBits(g, was, mid, l, l') && FreedBits(g, mid, now, l', l'')
    ensures FreedBits(g, was, now, l, l'')
  {
    forall b {:trigger b in was} | b in was && b !in now ensures g.BitBlock(b) in l'' {
      assert b in mid || b !in mid;
    }
    forall x {:trigger x in l''} | x in l'' && x !in l ensures BitFreed(g, was, now, x) {
      if x in l' {
        assert BitFreed(g, was, mid, x);
        var c :| c in was && c !in mid && g.BitBlock(c) == x;
        assert c in was && c !in now;
      } else {
        assert BitFreed(g, mid, now, x);
        var c :| c in mid && c !in now && g.BitBlock(c) == x;
        assert c in was && c !in now;
      }
    }
  }

  /** The bitmap blocks of the blocks of file i. */
  ghost function BitsOf(g: Geometry, owner: Owner, i: nat): set<nat> {
    set b | b in owner && owner[b].0 == i :: g.BitBlock(b)
  }

  lemma {:induction false} FreedAll(g: Geometry, was: Owner, now: Owner, l: set<nat>, l': set<nat>, i: nat)
    requires FreedBits(g, was, now, l, l') && forall b :: b in now <==> b in was && was[b].0 != i
    ensures l' == l + BitsOf(g, was, i)
  {
    forall x | x in l' && x !in l ensures x in BitsOf(g, was, i) {
      assert BitFreed(g, was, now, x);
      var b :| b in was && b !in now && g.BitBlock(b) == x;
    }
  }

  function Interval(m: nat, n: nat): (r: set<nat>)
    ensures |r| == n && forall x :: x in r <==> m <= x < m + n
  {
    if n == 0 then {} else Interval(m, n - 1) + {m + n - 1}
  }

  /** They are metadata behind the inode blocks, and few on a disk with few bitmap blocks. */
  lemma {:induction false} BitsOfMeta(g: Geometry, owner: Owner, i: nat)
    requires g.Valid() && i < g.ninodes && forall b :: b in owner ==> b < g.size
    ensures g.InodeBlock(i) !in BitsOf(g, owner, i)
    ensures |BitsOf(g, owner, i)| <= g.size / BPB + 1
  {
    assert i / IPB <= g.ninodes / IPB;
    var bits, all := BitsOf(g, owner, i), Interval(g.bmapstart, g.size / BPB + 1);
    forall x | x in bits ensures x in all {
      var b :| b in owner && owner[b].0 == i && g.BitBlock(b) == x;
      assert b / BPB <= g.size / BPB;
    }
    SubsetSize(bits, all);
  }

  // ----- the states between transactions

  datatype Snap = Snap(blocks: seq<Block>, inodes: seq<Inode>, owner: Owner, files: seq<seq<Byte>>)

  ghost predicate Sound(g: Geometry, s: Snap) {
    && Core(g, s.blocks, s.inodes, s.owner, {}, {}, s.files) && |s.files| == |s.inodes| <= g.ninodes
    && forall k :: 0 <= k < |s.inodes| ==> s.inodes[k].size == |s.files[k]|
  }

  /** A transaction that logs the blocks `l`, as many as the log has room for. */
  ghost predicate Transacts(g: Geometry, s: Snap, s': Snap, l: set<nat>) {
    && OnlyLogged(g, s.blocks, {}, s'.blocks, l) && OnlyLoggedInodes(g, s.inodes, s'.inodes, l)
    && |l| <= MAXOPBLOCKS
  }

  /** The states of a filewrite: after t transactions the first t chunks are in the file. */
  ghost predicate Chunked(g: Geometry, snaps: seq<Snap>, ls: seq<set<nat>>, i: nat, off: nat, data: seq<Byte>) {
    && 0 < |snaps| <= |ls| + 1 && i < |snaps[0].files|
    && (forall t {:trigger snaps[t]} :: 0 <= t < |snaps| ==>
          Sound(g, snaps[t]) && HasChunks(snaps[0], snaps[t], i, off, data, t))
    && (forall t {:trigger ls[t]} :: 0 <= t < |snaps| - 1 ==> Transacts(g, snaps[t], snaps[t + 1], ls[t]))
  }

  ghost predicate HasChunks(s0: Snap, s: Snap, i: nat, off: nat, data: seq<Byte>, t: nat)
    requires i < |s0.files|
  {
    s.files == s0.files[i := WrittenSoFar(s0.files[i], off, data[..Min(t * MAXCHUNK, |data|)])]
  }

  lemma ChunkedStart(g: Geometry, s: Snap, i: nat, off: nat, data: seq<Byte>)
    requires Sound(g, s) && i < |s.files|
    ensures Chunked(g, [s], [], i, off, data)
  {
    NothingWritten(s.files[i], off, data);
    assert s.files == s.files[i := s.files[i]];
  }

  lemma ChunksFit(g: Geometry, snaps: seq<Snap>, ls: seq<set<nat>>, i: nat, off: nat, data: seq<Byte>)
    requires Chunked(g, snaps, ls, i, off, data) && |snaps| == |ls| + 1
    ensures forall t :: 0 <= t < |ls| ==> |ls[t]| <= MAXOPBLOCKS
  {
  }

  /** k bytes are what t chunks write of n. */
  predicate AtChunk(k: nat, t: nat, n: nat) { k == Min(t * MAXCHUNK, n) }

  lemma ChunkCount(k: nat, t: nat, n: nat)
    requires AtChunk(k, t, n) && k < n
    ensures k % MAXCHUNK == 0
    ensures AtChunk(k + Min(n - k, MAXCHUNK), t + 1, n) && k + Min(n - k, MAXCHUNK) <= n
  {
    var c := 3 * BSIZE;
    assert MAXCHUNK == c && k == t * c;
    assert (t * c) % c == 0;
  }

  lemma {:induction false} ChunkedMore(g: Geometry, snaps: seq<Snap>, ls: seq<set<nat>>, i: nat, off: nat,
                                       data: seq<Byte>,
                                       k: nat, n1: nat, s: Snap, l: set<nat>)
    requires Chunked(g, snaps, ls, i, off, data) && |snaps| == |ls| + 1 && Sound(g, s)
    requires AtChunk(k, |ls|, |data|) && k < |data| && n1 == Min(|data| - k, MAXCHUNK) && k + n1 <= |data|
    requires s.files == snaps[0].files[i := WrittenSoFar(snaps[0].files[i], off, data[..k + n1])]
    requires Transacts(g, snaps[|snaps| - 1], s, l)
    ensures Chunked(g, snaps + [s], ls + [l], i, off, data)
  {
    ChunkCount(k, |ls|, |data|);
    hide Sound, Transacts;
    assert HasChunks(snaps[0], s, i, off, data, |snaps|);
    hide HasChunks;
    var ss, ll := snaps + [s], ls + [l];
    forall t {:trigger ll[t]} | 0 <= t < |ss| - 1 ensures Transacts(g, ss[t], ss[t + 1], ll[t]) {
      if t < |ls| { assert ll[t] == ls[t]; }
    }
  }

  // ----- how far filewrite gets

  /** How many bytes filewrite gets to: all of them, or whole chunks up to the size limit of a file. */
  function Planned(off: nat, n: nat, size: nat): (p: nat)
    ensures p <= n
  {
    if n == 0 || off > size || off > MAXFILE * BSIZE then 0
    else if InRange(off, n) then n
    else (MAXFILE * BSIZE - off) / MAXCHUNK * MAXCHUNK
  }

  /** How many blocks those need. */
  function PlanNeed(sh: Shape, off: nat, n: nat, size: nat): nat
    requires Proper(sh)
  {
    var p := Planned(off, n, size);
    if p == 0 then 0 else WriteNeed(sh, off, p)
  }

  lemma WholeChunks(a: nat, k: nat)
    requires k % MAXCHUNK == 0
    ensures k <= a < k + MAXCHUNK ==> a / MAXCHUNK * MAXCHUNK == k
    ensures k + MAXCHUNK <= a ==> k + MAXCHUNK <= a / MAXCHUNK * MAXCHUNK
  {
    var c := 3 * BSIZE;
    assert MAXCHUNK == c;
    var q, p := k / c, a / c;
    assert k == q * c && p * c <= a < p * c + c;
  }

  lemma PlanStep(off: nat, k: nat, n1: nat, n: nat, size: nat)
    requires k < n && k % MAXCHUNK == 0 && n1 == Min(n - k, MAXCHUNK) && off <= size && off <= MAXFILE * BSIZE
    ensures InRange(off, k + n1) ==> k + n1 <= Planned(off, n, size)
    ensures InRange(off, k) && !InRange(off, k + n1) ==> Planned(off, n, size) == k
  {
    WholeChunks(MAXFILE * BSIZE - off, k);
  }

  /** Longer writes need more. */
  lemma {:induction false} WriteNeedMore(sh: Shape, off: nat, k: nat, n: nat)
    requires Proper(sh) && 0 < k <= n && InRange(off, n)
    ensures WriteNeed(sh, off, k) <= WriteNeed(sh, off, n)
  {
    hide Need;
    LastFits(off, n);
    NeedMore(sh, First(off), Last(off, k), Last(off, n));
  }

  lemma {:induction false} PlanMore(sh: Shape, off: nat, k: nat, n1: nat, n: nat, size: nat)
    requires Proper(sh) && k < n && k % MAXCHUNK == 0 && n1 == Min(n - k, MAXCHUNK) && off <= size
    requires InRange(off, k + n1)
    ensures WriteNeed(sh, off, k + n1) <= PlanNeed(sh, off, n, size)
  {
    hide WriteNeed;
    PlanStep(off, k, n1, n, size);
    WriteNeedMore(sh, off, k + n1, Planned(off, n, size));
  }

  lemma {:induction false} WroteMore(g: Geometry, sh: Shape, f: seq<nat>, off: nat, k: nat, n1: nat,
                                     blocks: seq<Block>, ip: Inode)
    requires Wrote(g, sh, f, off, k, blocks, ip) && 0 < k && 0 < n1 && InRange(off, k + n1)
    ensures WriteNeed(sh, off, k + n1) == WriteNeed(sh, off, k) + WriteNeed(ShapeOf(g, blocks, ip), off + k, n1)
    ensures |Free(g, blocks)| == |f| - WriteNeed(sh, off, k)
  {
    hide Need, ShapeOf, Free, Filled;
    LastFits(off, k + n1);
    assert Last(off + k, n1) == Last(off, k + n1);
    NeedSplit(sh, f, ShapeOf(g, blocks, ip), First(off), Last(off, k), First(off + k), Last(off, k + n1));
  }

  lemma {:induction false} WroteThen(g: Geometry, sh: Shape, f: seq<nat>, off: nat, k: nat, n1: nat,
                                     was: seq<Block>, ip: Inode, blocks: seq<Block>, ip': Inode)
    requires Wrote(g, sh, f, off, k, was, ip) && 0 < k && 0 < n1 && InRange(off, k + n1)
    requires Wrote(g, ShapeOf(g, was, ip), Free(g, was), off + k, n1, blocks, ip')
    ensures Wrote(g, sh, f, off, k + n1, blocks, ip')
  {
    hide Need, ShapeOf, Free, Filled;
    WroteMore(g, sh, f, off, k, n1, was, ip);
    LastFits(off, k + n1);
    assert Last(off + k, n1) == Last(off, k + n1);
    FilledThen(sh, f, ShapeOf(g, was, ip), ShapeOf(g, blocks, ip'),
               First(off), Last(off, k), First(off + k), Last(off, k + n1));
  }

  /** The blocks of the file after k bytes of a filewrite, from the file and the disk before it. */
  ghost predicate Got(g: Geometry, sh: Shape, f: seq<nat>, off: nat, k: nat, blocks: seq<Block>, ip: Inode) {
    && Shaped(g, blocks) && InodeOk(g, ip)
    && if k == 0 then ShapeOf(g, blocks, ip) == sh && Free(g, blocks) == f
       else Wrote(g, sh, f, off, k, blocks, ip)
  }

  /** One transaction more: where it panics the plan needs more than is free. */
  lemma {:induction false} GotMore(g: Geometry, sh: Shape, f: seq<nat>, off: nat, k: nat, n1: nat, n: nat, size: nat,
                                   was: seq<Block>, ip: Inode, blocks: seq<Block>, ip': Inode, panic: bool)
    requires Got(g, sh, f, off, k, was, ip) && Proper(sh) && InRange(off, k + n1) && off <= size
    requires k < n && k % MAXCHUNK == 0 && n1 == Min(n - k, MAXCHUNK)
    requires panic <==> |Free(g, was)| < WriteNeed(ShapeOf(g, was, ip), off + k, n1)
    requires !panic ==> Wrote(g, ShapeOf(g, was, ip), Free(g, was), off + k, n1, blocks, ip')
    ensures panic ==> |f| < PlanNeed(sh, off, n, size)
    ensures !panic ==> Got(g, sh, f, off, k + n1, blocks, ip')
  {
    assert InRange(off + k, n1) && 0 < n1;
    hide ShapeOf, Free, WriteNeed, PlanNeed;
    PlanMore(sh, off, k, n1, n, size);
    if k > 0 {
      WroteMore(g, sh, f, off, k, n1, was, ip);
      if !panic { WroteThen(g, sh, f, off, k, n1, was, ip, blocks, ip'); }
    } else {
      assert off + k == off && k + n1 == n1;
    }
  }

  /** A failing transaction: what came before it is the plan. */
  lemma {:induction false} PlanEnds(g: Geometry, sh: Shape, f: seq<nat>, off: nat, k: nat, n1: nat, n: nat, size: nat,
                                    blocks: seq<Block>, ip: Inode)
    requires Proper(sh) && k < n && k % MAXCHUNK == 0 && n1 == Min(n - k, MAXCHUNK) && size <= MAXFILE * BSIZE
    requires off > size || !InRange(off, k + n1)
    requires Got(g, sh, f, off, k, blocks, ip) && (k > 0 ==> off <= size)
    ensures Planned(off, n, size) == k && PlanNeed(sh, off, n, size) <= |f|
  {
    hide Need, ShapeOf, Free, Filled, WriteNeed;
    if off <= size { PlanStep(off, k, n1, n, size); }
  }

  lemma {:induction false} PlanWhole(g: Geometry, sh: Shape, f: seq<nat>, off: nat, n: nat, size: nat,
                                     blocks: seq<Block>, ip: Inode)
    requires Proper(sh) && Got(g, sh, f, off, n, blocks, ip)
    requires n > 0 ==> off <= size <= MAXFILE * BSIZE
    ensures Planned(off, n, size) == n && PlanNeed(sh, off, n, size) <= |f|
    ensures n > 0 ==> InRange(off, n)
  {
    hide Need, ShapeOf, Free, Filled, WriteNeed;
  }

  class FileSys {
    const g: Geometry
    var blocks: seq<Block>
    var inodes: seq<Inode>
    var dinodes: seq<Inode>
    ghost var owner: Owner
    ghost var files: seq<seq<Byte>>
    /** The blocks passed to log_write since begin_op. */
    ghost var logged: set<nat>

    constructor (g: Geometry, blocks: seq<Block>, inodes: seq<Inode>, ghost owner: Owner, ghost files: seq<seq<Byte>>)
      requires Core(g, blocks, inodes, owner, {}, {}, files)
      requires |files| == |inodes| <= g.ninodes && forall k :: 0 <= k < |files| ==> inodes[k].size == |files[k]|
      ensures Valid() && this.g == g && this.blocks == blocks && this.inodes == inodes
      ensures this.owner == owner && this.files == files && logged == {}
    {
      this.g, this.blocks, this.inodes, this.dinodes := g, blocks, inodes, inodes;
      this.owner, this.files, this.logged := owner, files, {};
    }

    /** The invariant of the allocator and the contents, with `extra` blocks not yet in a file. */
    ghost predicate Ok(extra: set<nat>, dead: set<(nat, nat)>)
      reads this
    {
      Core(g, blocks, inodes, owner, extra, dead, files)
    }

    ghost predicate Valid()
      reads this
    {
      && Ok({}, {}) && dinodes == inodes && |files| == |inodes| <= g.ninodes
      && forall k :: 0 <= k < |inodes| ==> inodes[k].size == |files[k]|
    }

    /** balloc: the first free block, zeroed; 0 where the kernel panics because there is none. */
    method BAlloc() returns (b: nat)
      requires Shaped(g, blocks) && forall c :: 0 <= c < g.nmeta ==> Used(g, blocks, c)
      modifies this`blocks, this`logged
      ensures Shaped(g, blocks)
      ensures b == 0 <==> forall c :: 0 <= c < g.size ==> Used(g, old(blocks), c)
      ensures b == 0 ==> blocks == old(blocks) && logged == old(logged)
      ensures b != 0 ==>
                && g.nmeta <= b < g.size && !Used(g, old(blocks), b)
                && (forall c :: 0 <= c < b ==> Used(g, old(blocks), c))
                && blocks == WithBit(g, old(blocks), b, true)[b := Zeroes()]
                && logged == old(logged) + {g.BitBlock(b), b}
    {
      hide Used, WithBit;
      var base := 0;
      while base < g.size
        invariant base % BPB == 0
        invariant blocks == old(blocks) && logged == old(logged)
        invariant forall c :: 0 <= c < base && c < g.size ==> Used(g, blocks, c)
        decreases g.size - base
      {
        var bi := 0;
        while bi < BPB && base + bi < g.size
          invariant 0 <= bi <= BPB && base + bi <= g.size
          invariant blocks == old(blocks) && logged == old(logged)
          invariant forall c :: 0 <= c < base + bi ==> Used(g, blocks, c)
        {
          var free := BitClear(base + bi);
          if free {
            b := base + bi;
            MarkBit(b, true);
            blocks := blocks[b := Zeroes()];
            logged := logged + {b};
            return;
          }
          bi := bi + 1;
        }
        base := base + BPB;
      }
      b := 0;
    }

    /** The test (bp->data[bi/8] & m) == 0 of balloc and bfree. */
    method BitClear(b: nat) returns (free: bool)
      requires Shaped(g, blocks) && b < g.size
      ensures free <==> !Used(g, blocks, b)
    {
      assert b / BPB <= g.size / BPB;
      var bp := blocks[b / BPB + g.bmapstart];
      var bi := b % BPB;
      free := !Test(bp[bi / 8], bi % 8);
    }

    /** The store bp->data[bi/8] |= m or &= ~m of balloc and bfree, and its log_write. */
    method MarkBit(b: nat, on: bool)
      requires Shaped(g, blocks) && b < g.size
      modifies this`blocks, this`logged
      ensures Shaped(g, blocks) && blocks == WithBit(g, old(blocks), b, on)
      ensures logged == old(logged) + {g.BitBlock(b)}
    {
      assert b / BPB <= g.size / BPB;
      var bb := b / BPB + g.bmapstart;
      var bp := blocks[bb];
      var bi := b % BPB;
      if on {
        bp := PutByte(bp, bi / 8, SetByte(bp[bi / 8], bi % 8));
      } else {
        bp := PutByte(bp, bi / 8, ClearByte(bp[bi / 8], bi % 8));
      }
      blocks := blocks[bb := bp];
      logged := logged + {bb};
    }

    /** bfree; the panic on a free block is the precondition. */
    method BFree(b: nat)
      requires Shaped(g, blocks) && b < g.size && Used(g, blocks, b)
      modifies this`blocks, this`logged
      ensures Shaped(g, blocks) && blocks == WithBit(g, old(blocks), b, false)
      ensures logged == old(logged) + {g.BitBlock(b)}
    {
      MarkBit(b, false);
    }

    ghost function Here(): Snap
      reads this
    {
      Snap(blocks, inodes, owner, files)
    }

    /** Every block of the disk is in use. */
    ghost predicate DiskFull()
      reads this
    {
      Shaped(g, blocks) && forall c :: 0 <= c < g.size ==> Used(g, blocks, c)
    }

    /** balloc on a consistent file system. */
    method AllocExtra() returns (b: nat)
      requires Ok({}, {})
      modifies this`blocks, this`logged
      ensures Shaped(g, old(blocks)) && Shaped(g, blocks) && (b == 0 <==> Free(g, old(blocks)) == [])
      ensures b == 0 ==> Ok({}, {}) && DiskFull() && blocks == old(blocks) && logged == old(logged)
      ensures b != 0 ==> Ok({b}, {}) && 0 < b < g.size < UINT && b < |blocks| && blocks[b] == Zeroes()
      ensures b != 0 ==>
                b !in owner && forall c :: c in owner ==> c < |blocks| == |old(blocks)| && blocks[c] == old(blocks[c])
      ensures b != 0 ==> Free(g, old(blocks)) == [b] + Free(g, blocks) && logged == old(logged) + Taken(g, [b])
      ensures OnlyLogged(g, old(blocks), old(logged), blocks, logged)
    {
      hide Used, WithBit, Core, Owned;
      CoreFacts(g, blocks, inodes, owner, {}, files);
      FreeNone(g, blocks, 0);
      b := BAlloc();
      if b != 0 {
        FreeAlloc(g, old(blocks), b);
        AllocStep(g, old(blocks), inodes, owner, {}, files, b);
        assert {} + {b} == {b};
        forall c | c in owner ensures c < |blocks| && blocks[c] == old(blocks[c]) {
          WithBitFrame(g, old(blocks), b, true, c);
        }
        TakenOne(g, b);
        LoggedAlloc(g, old(blocks), old(logged), b);
      }
    }

    /** The pattern of bmap on the inode: if ip->addrs[s] is 0, allocate a block and enter it. */
    method EnsureAddr(i: nat, s: nat) returns (addr: nat)
      requires Ok({}, {}) && i < |inodes| && s <= NDIRECT
      modifies this`blocks, this`inodes, this`owner, this`logged
      ensures Ok({}, {}) && Shapes(g, blocks, inodes)
      ensures Shapes(g, old(blocks), old(inodes)) && |inodes| == |old(inodes)|
      ensures old(inodes)[i].addrs[s] != 0 ==>
                && addr == old(inodes)[i].addrs[s]
                && blocks == old(blocks) && inodes == old(inodes) && logged == old(logged)
      ensures old(inodes)[i].addrs[s] == 0 ==> (addr == 0 <==> Free(g, old(blocks)) == [])
      ensures addr == 0 ==> DiskFull() && blocks == old(blocks) && inodes == old(inodes)
      ensures old(inodes)[i].addrs[s] == 0 && addr != 0 ==>
                && inodes == old(inodes)[i := SetAddr(old(inodes)[i], s, addr)]
                && addr < g.size && blocks[addr] == Zeroes()
                && Free(g, old(blocks)) == [addr] + Free(g, blocks) && logged == old(logged) + Taken(g, [addr])
                && var sh := ShapeOf(g, old(blocks), old(inodes)[i]);
                   ShapeOf(g, blocks, inodes[i]) ==
                   if s < NDIRECT then sh.(data := sh.data[s := addr]) else sh.(ind := addr)
      ensures OnlyLogged(g, old(blocks), old(logged), blocks, logged)
    {
      hide Used, WithBit, Core, Owned, SlotsOwn, Slot, Taken, Proper;
      CoreFacts(g, blocks, inodes, owner, {}, files);
      AddrOwned(g, blocks, inodes, owner, i, s);
      OwnIndirect(g, blocks, inodes, owner, i);
      addr := inodes[i].addrs[s];
      if addr == 0 {
        addr := AllocExtra();
        if addr != 0 {
          ShapeFrame(g, old(blocks), blocks, inodes[i]);
          ShapeSetAddr(g, blocks, inodes[i], s, addr);
          LinkDirect(g, blocks, inodes, owner, files, addr, i, s);
          inodes := inodes[i := SetAddr(inodes[i], s, addr)];
          owner := Given(owner, addr, i, s);
          CoreFacts(g, blocks, inodes, owner, {}, files);
        }
      }
    }

    /** bmap: the block of the bn-th block of file i. It allocates exactly Cost blocks, the first free
        ones, and fails, where balloc panics, exactly when there are fewer. */
    method BMap(i: nat, bn: nat) returns (addr: nat)
      requires Ok({}, {}) && i < |inodes| && bn < MAXFILE
      modifies this`blocks, this`inodes, this`owner, this`logged
      ensures Ok({}, {}) && Shapes(g, blocks, inodes) && Shapes(g, old(blocks), old(inodes))
      ensures SameButAddrs(old(inodes), inodes, i) && (addr == 0 ==> DiskFull())
      ensures var sh, f := ShapeOf(g, old(blocks), old(inodes)[i]), Free(g, old(blocks));
              && (addr == 0 <==> |f| < Cost(sh, bn))
              && (Cost(sh, bn) == 0 ==> blocks == old(blocks) && inodes == old(inodes) && logged == old(logged))
              && (addr != 0 ==> MapResult(g, sh, f, bn, old(logged), blocks, inodes[i], logged, addr))
      ensures OnlyLogged(g, old(blocks), old(logged), blocks, logged)
    {
      hide Used, WithBit, Core, Owned, SlotsOwn, Slot, Taken, Proper, BlockOf;
      CoreFacts(g, blocks, inodes, owner, {}, files);
      ghost var sh, f := ShapeOf(g, blocks, inodes[i]), Free(g, blocks);
      if bn < NDIRECT {
        DirectIs(g, blocks, inodes[i], bn);
        addr := EnsureAddr(i, bn);
        if addr != 0 {
          AddrInRange(g, blocks, inodes, owner, files, i, bn);
          DirectResult(g, sh, f, bn, old(logged), blocks, inodes[i], logged, addr);
        }
      } else {
        addr := BMapIndirect(i, bn - NDIRECT);
      }
    }

    method BMapIndirect(i: nat, j: nat) returns (addr: nat)
      requires Ok({}, {}) && i < |inodes| && j < NINDIRECT
      modifies this`blocks, this`inodes, this`owner, this`logged
      ensures Ok({}, {}) && Shapes(g, blocks, inodes) && Shapes(g, old(blocks), old(inodes))
      ensures SameButAddrs(old(inodes), inodes, i) && (addr == 0 ==> DiskFull())
      ensures var sh, f, bn := ShapeOf(g, old(blocks), old(inodes)[i]), Free(g, old(blocks)), NDIRECT + j;
              && (addr == 0 <==> |f| < Cost(sh, bn))
              && (Cost(sh, bn) == 0 ==> blocks == old(blocks) && inodes == old(inodes) && logged == old(logged))
              && (addr != 0 ==> MapResult(g, sh, f, bn, old(logged), blocks, inodes[i], logged, addr))
      ensures OnlyLogged(g, old(blocks), old(logged), blocks, logged)
    {
      hide Used, WithBit, Core, Owned, SlotsOwn, Slot, Word, Taken, BlockOf, MapResult;
      CoreFacts(g, blocks, inodes, owner, {}, files);
      ghost var sh, f := ShapeOf(g, blocks, inodes[i]), Free(g, blocks);
      var ind := EnsureAddr(i, NDIRECT);
      CoreFacts(g, blocks, inodes, owner, {}, files);
      if ind == 0 {
        return 0;
      }
      ghost var b1 := blocks;
      ghost var mid, f1, l1 := ShapeOf(g, blocks, inodes[i]), Free(g, blocks), logged;
      OwnIndirect(g, blocks, inodes, owner, i);
      addr := Word(blocks[ind], j);
      BlockOfIndirect(g, blocks, inodes[i], j);
      if addr == 0 {
        addr := EnsureEntry(i, ind, j);
        LoggedThen(g, old(blocks), old(logged), b1, l1, blocks, logged);
      } else {
        OwnBlock(g, blocks, inodes, owner, i, NDIRECT + j);
      }
      if addr != 0 {
        IndirectResult(g, sh, f, mid, f1, j, old(logged), l1, blocks, inodes[i], logged, addr);
      }
    }

    /** The pattern of bmap on the indirect block. */
    method EnsureEntry(i: nat, ind: nat, j: nat) returns (addr: nat)
      requires Ok({}, {}) && i < |inodes| && j < NINDIRECT && Shapes(g, blocks, inodes)
      requires ind == inodes[i].addrs[NDIRECT] && ind != 0 && Word(blocks[ind], j) == 0 && ind in owner
      modifies this`blocks, this`owner, this`logged
      ensures Ok({}, {}) && Shapes(g, blocks, inodes) && Shaped(g, old(blocks))
      ensures addr == 0 <==> Free(g, old(blocks)) == []
      ensures addr == 0 ==> DiskFull() && blocks == old(blocks) && logged == old(logged)
      ensures addr != 0 ==>
                && addr < g.size && Free(g, old(blocks)) == [addr] + Free(g, blocks)
                && logged == old(logged) + Taken(g, [addr]) + {ind}
                && var sh := ShapeOf(g, old(blocks), inodes[i]);
                   ShapeOf(g, blocks, inodes[i]) == sh.(data := sh.data[NDIRECT + j := addr])
      ensures OnlyLogged(g, old(blocks), old(logged), blocks, logged)
    {
      hide Used, WithBit, Core, Owned, SlotsOwn, Slot, Word, PutWord, Taken, Proper, BlockOf;
      CoreFacts(g, blocks, inodes, owner, {}, files);
      addr := AllocExtra();
      if addr != 0 {
        ShapeFrame(g, old(blocks), blocks, inodes[i]);
        LinkEntry(g, blocks, inodes, owner, files, addr, i, j);
        ShapePutWord(g, blocks, inodes[i], j, addr);
        FreeFrame(g, blocks, ind, PutWord(blocks[ind], j, addr));
        LoggedStore(g, old(blocks), old(logged), blocks, logged, ind, PutWord(blocks[ind], j, addr));
        blocks := blocks[ind := PutWord(blocks[ind], j, addr)];
        owner := Given(owner, addr, i, NDIRECT + 1 + j);
        logged := logged + {ind};
        CoreFacts(g, blocks, inodes, owner, {}, files);
      }
    }

    /** readi: the bytes of the file from `off`, up to its end; bmap never allocates on the way,
        because a file has no holes. */
    method ReadI(i: nat, off: nat, n: nat) returns (r: Io, dst: seq<Byte>)
      requires Valid() && i < |inodes| && off < UINT && n < UINT
      modifies this`blocks, this`inodes, this`owner, this`logged
      ensures Valid() && blocks == old(blocks) && inodes == old(inodes) && logged == old(logged)
      ensures r.Fail? <==> off > |files[i]| || off + n >= UINT
      ensures !r.Panic?
      ensures r.Done? ==>
                && r.n == (if off + n > |files[i]| then |files[i]| - off else n)
                && dst == files[i][off..off + r.n]
    {
      hide Core, BlockOf, Shapes, Free, ShapeOf, Taken, SameButAddrs;
      dst := [];
      var size := inodes[i].size;
      if off > size || off + n >= UINT {
        return Fail, [];
      }
      var n' := if off + n > size then size - off else n;
      var tot := 0;
      while tot < n'
        invariant 0 <= tot <= n' && Valid() && blocks == old(blocks) && inodes == old(inodes) && logged == old(logged)
        invariant |dst| == tot && dst == files[i][off..off + tot]
      {
        var at := off + tot;
        var o := at % BSIZE;
        var m := Min(n' - tot, BSIZE - o);
        FileChunk(g, blocks, inodes, owner, files, i, at, m);
        var bp := BMap(i, at / BSIZE);
        SliceJoin(files[i], off, tot, m);
        dst := dst + blocks[bp][o..o + m];
        tot := tot + m;
      }
      r := Done(n');
    }

    /** One round of the loop of writei: bytes that fall in one block. The result is false where balloc
        panics. */
    method WriteChunk(i: nat, at: nat, d: seq<Byte>) returns (ok: bool)
      requires Ok({}, {}) && i < |inodes| == |files| && at <= |files[i]|
      requires 0 < |d| && at % BSIZE + |d| <= BSIZE && at + |d| <= MAXFILE * BSIZE
      modifies this`blocks, this`inodes, this`owner, this`logged, this`files
      ensures Ok({}, {}) && SameButAddrs(old(inodes), inodes, i) && (!ok ==> DiskFull() && files == old(files))
      ensures ok ==> files == old(files)[i := Overwrite(old(files[i]), at, d)]
      ensures at < old(|files[i]|) ==> inodes == old(inodes)
      ensures Shapes(g, old(blocks), old(inodes)) && Shapes(g, blocks, inodes)
      ensures var sh, f := ShapeOf(g, old(blocks), old(inodes)[i]), Free(g, old(blocks));
              && (ok <==> Cost(sh, at / BSIZE) <= |f|)
              && (ok ==> RoundResult(g, sh, f, at / BSIZE, old(logged), blocks, inodes[i], logged))
      ensures OnlyLogged(g, old(blocks), old(logged), blocks, logged)
    {
      hide Core, BlockOf, Shapes, SlotsOwn, Updated, Overwrite, Taken, Free;
      FileBytes(g, blocks, inodes, owner, files, i);
      ShapeFacts(g, blocks, inodes);
      NotFresh(g, blocks, inodes, owner, files, i, at);
      var bp := BMap(i, at / BSIZE);
      ShapeFacts(g, blocks, inodes);
      if bp == 0 {
        return false;
      }
      var o := at % BSIZE;
      SpliceUpdated(g, blocks, inodes, owner, files, i, at, d);
      var v := Splice(blocks[bp], o, d);
      StoreStep(g, blocks, inodes, owner, files, i, at / BSIZE, v, Overwrite(files[i], at, d));
      StoreShape(g, blocks, inodes, owner, files, i, at / BSIZE, v);
      LoggedStore(g, old(blocks), old(logged), blocks, logged, bp, v);
      files := files[i := Overwrite(files[i], at, d)];
      blocks := blocks[bp := v];
      logged := logged + {bp};
      CoreShapes(g, blocks, inodes, owner, {}, files);
      ok := true;
    }

    /** The loop of writei. It panics exactly when the range needs more blocks than are free. */
    method WriteBlocks(i: nat, off: nat, data: seq<Byte>) returns (ok: bool)
      requires Ok({}, {}) && i < |inodes| == |files| && off <= |files[i]| && InRange(off, |data|)
      modifies this`blocks, this`inodes, this`owner, this`logged, this`files
      ensures !ok ==> DiskFull()
      ensures ok ==> Ok({}, {}) && |files| == |inodes| && files == old(files)[i := Overwrite(old(files[i]), off, data)]
      ensures SameButAddrs(old(inodes), inodes, i) && (off + |data| <= old(|files[i]|) ==> inodes == old(inodes))
      ensures Shapes(g, old(blocks), old(inodes)) && Shapes(g, blocks, inodes)
      ensures var sh, f := ShapeOf(g, old(blocks), old(inodes)[i]), Free(g, old(blocks));
              && (ok <==> WriteNeed(sh, off, |data|) <= |f|)
              && (ok ==> Progress(g, sh, f, First(off), Last(off, |data|), old(logged), blocks, inodes[i], logged))
      ensures OnlyLogged(g, old(blocks), old(logged), blocks, logged)
    {
      hide Core, BlockOf, Overwrite, SlotsOwn, Shapes, Need, Progress, RoundResult, Free, First, Last;
      var n := |data|;
      LastFits(off, n);
      CoreShapes(g, blocks, inodes, owner, {}, files);
      ShapeFacts(g, blocks, inodes);
      ghost var c0, lo, sh, f := files[i], First(off), ShapeOf(g, blocks, inodes[i]), Free(g, blocks);
      BlocksStart(g, off, n, blocks, inodes, owner, files, i, logged);
      assert data[..0] == [] && Overwrite(c0, off, []) == c0 by { OverwriteNothing(c0, off); }
      var tot := 0;
      while tot < n
        invariant 0 <= tot <= n && Ok({}, {}) && |files| == |inodes| && Shapes(g, blocks, inodes)
        invariant files == old(files)[i := Overwrite(c0, off, data[..tot])]
        invariant SameButAddrs(old(inodes), inodes, i) && Aligned(off, tot, n)
        invariant off + n <= |c0| ==> inodes == old(inodes)
        invariant OnlyLogged(g, old(blocks), old(logged), blocks, logged)
        invariant Progress(g, sh, f, lo, Last(off, tot), old(logged), blocks, inodes[i], logged)
      {
        var at := off + tot;
        var o := at % BSIZE;
        var m := Min(n - tot, BSIZE - o);
        AlignedStep(off, tot, n, m);
        ghost var was, ip, before := blocks, inodes[i], logged;
        ok := WriteChunk(i, at, data[tot..tot + m]);
        ProgressStep(g, sh, f, lo, at / BSIZE, Last(off, n), old(logged),
                     was, ip, before, blocks, inodes[i], logged, ok);
        LoggedThen(g, old(blocks), old(logged), was, before, blocks, logged);
        if !ok {
          return false;
        }
        OverwriteConcat(c0, off, data[..tot], data[tot..tot + m]);
        TakeJoin(data, tot, m);
        tot := tot + m;
      }
      assert data[..n] == data;
      ProgressNeed(g, sh, f, lo, Last(off, n), old(logged), blocks, inodes[i], logged);
      ok := true;
    }

    /** ip->size = size; iupdate(ip): the end of itrunc, and of writei when the file has grown. */
    method SetSize(i: nat, size: nat)
      requires Ok({}, {}) && i < |inodes| == |dinodes| <= g.ninodes
      modifies this`inodes, this`dinodes, this`logged
      ensures Ok({}, {}) && Shapes(g, blocks, old(inodes)) && Shapes(g, blocks, inodes)
      ensures inodes == old(inodes)[i := old(inodes)[i].(size := size)]
      ensures dinodes == old(dinodes)[i := inodes[i]] && logged == old(logged) + {g.InodeBlock(i)}
      ensures g.inodestart <= g.InodeBlock(i) < |blocks|
      ensures ShapeOf(g, blocks, inodes[i]) == ShapeOf(g, blocks, old(inodes)[i])
    {
      hide Core, ShapeOf;
      CoreShapes(g, blocks, inodes, owner, {}, files);
      SizeIsApart(g, blocks, inodes, owner, files, i, size);
      ShapeSize(g, blocks, inodes, i, size);
      assert i / IPB <= g.ninodes / IPB;
      inodes := inodes[i := inodes[i].(size := size)];
      dinodes := dinodes[i := inodes[i]];
      logged := logged + {g.InodeBlock(i)};
    }

    /** writei: overwrites or extends exactly [off, off+n) of file i and leaves every other file as it
        was; the on-disk inode equals the in-core one again when it returns. Unless it fails, balloc
        panics on the way exactly when fewer blocks are free than the range lacks; the blocks it takes
        are the first free ones, and the blocks it logs are exactly WriteLogs. */
    method WriteI(i: nat, off: nat, data: seq<Byte>) returns (r: Io)
      requires Valid() && i < |inodes| && off < UINT && |data| < UINT
      modifies this
      ensures r.Fail? <==> off > old(|files[i]|) || !InRange(off, |data|)
      ensures r.Fail? ==> Valid() && Here() == old(Here()) && logged == old(logged)
      ensures r.Panic? ==> DiskFull()
      ensures r.Done? ==>
                && Valid() && r.n == |data| && |inodes| == |old(inodes)|
                && files == old(files)[i := Overwrite(old(files[i]), off, data)]
      ensures Shapes(g, old(blocks), old(inodes))
      ensures var sh, f := ShapeOf(g, old(blocks), old(inodes)[i]), Free(g, old(blocks));
              && (!r.Fail? ==> (r.Panic? <==> |f| < WriteNeed(sh, off, |data|)))
              && (r.Done? ==>
                    && Wrote(g, sh, f, off, |data|, blocks, inodes[i])
                    && logged == old(logged) + WriteLogs(g, sh, f, i, old(|files[i]|), off, |data|))
      ensures r.Done? ==> |logged - old(logged)| <= LogBound(off, |data|)
      ensures OnlyLogged(g, old(blocks), old(logged), blocks, logged)
      ensures r.Done? ==> OnlyLoggedInodes(g, old(inodes), inodes, logged)
    {
      hide Core, BlockOf, SlotsOwn, LogBound, Shapes, ShapeOf, Free, Need, Filled, Logs, First, Last, Overwrite;
      hide Progress, Wrote, WriteNeed, WriteLogs, OnlyLogged, OnlyLoggedInodes;
      LoggedNothing(g, blocks, inodes, logged);
      var n := |data|;
      CoreShapes(g, blocks, inodes, owner, {}, files);
      if off > inodes[i].size || off + n >= UINT {
        return Fail;
      }
      if off + n > MAXFILE * BSIZE {
        return Fail;
      }
      WriteStart(g, blocks, inodes, owner, files, i, off, n);
      var ok := WriteBlocks(i, off, data);
      if !ok {
        return Panic;
      }
      ghost var ip, l := inodes[i], logged;
      ghost var mid := inodes;
      if n > 0 && off + n > inodes[i].size {
        SetSize(i, off + n);
        LoggedInode(g, old(blocks), old(logged), blocks, l, i, old(inodes), mid, inodes);
      } else {
        LoggedNothing(g, blocks, inodes, logged);
      }
      ghost var sh, f := ShapeOf(g, old(blocks), old(inodes)[i]), Free(g, old(blocks));
      ProgressEnds(g, sh, f, i, old(|files[i]|), off, n, old(logged), blocks, ip, l, inodes);
      ghost var w := WriteLogs(g, sh, f, i, old(|files[i]|), off, n);
      AtMost(logged, old(logged), w, LogBound(off, n));
      SizesAfter(old(inodes), mid, inodes, old(files), i, off, data);
      r := Done(n);
    }

    /** What writei has written, readi returns. */
    method WriteThenRead(i: nat, off: nat, data: seq<Byte>) returns (w: Io, r: Io, dst: seq<Byte>)
      requires Valid() && i < |inodes| && off < UINT && |data| < UINT
      modifies this
      ensures w.Fail? <==> off > old(|files[i]|) || !InRange(off, |data|)
      ensures Shapes(g, old(blocks), old(inodes))
      ensures !w.Fail? ==>
                (w.Panic? <==> |Free(g, old(blocks))| < WriteNeed(ShapeOf(g, old(blocks), old(inodes)[i]), off, |data|))
      ensures w.Done? ==> Valid() && w.n == |data| && r == Done(|data|) && dst == data
    {
      hide Core, Shapes, ShapeOf, Free, WriteNeed, Wrote, WriteLogs, LogBound;
      r, dst := Fail, [];
      w := WriteI(i, off, data);
      if w.Done? {
        r, dst := ReadI(i, off, |data|);
        ReadBack(old(files[i]), off, data);
      }
    }

    /** Frees block `b`, which the step before has taken out of its file. */
    method FreeUnlinked(b: nat, ghost dead: set<(nat, nat)>)
      requires Ok({b}, dead) && b < |blocks|
      modifies this`blocks, this`logged
      ensures Ok({}, dead) && |blocks| == |old(blocks)|
      ensures forall c :: c in owner && c < |blocks| ==> blocks[c] == old(blocks[c])
      ensures logged == old(logged) + {g.BitBlock(b)} && OnlyLogged(g, old(blocks), old(logged), blocks, logged)
    {
      hide Used, WithBit, Core;
      ExtraFacts(g, blocks, inodes, owner, dead, files, b);
      BitStep(g, blocks, inodes, owner, {b}, dead, files, b, false);
      assert {b} - {b} == {};
      forall c | c in owner && c < |blocks| ensures WithBit(g, blocks, b, false)[c] == blocks[c] {
        WithBitFrame(g, blocks, b, false, c);
      }
      LoggedFree(g, blocks, logged, b);
      BFree(b);
    }

    /** The blocks of other files are still owned, and nothing else has been added. */
    twostate predicate OnlyLosesFrom(i: nat)
      reads this
    {
      && (forall b :: b in owner ==> b in old(owner) && owner[b] == old(owner)[b])
      && (forall b :: b in old(owner) && old(owner)[b].0 != i ==> b in owner)
      && FreedBits(g, old(owner), owner, old(logged), logged)
      && OnlyLogged(g, old(blocks), old(logged), blocks, logged)
    }

    /** The first loop of itrunc. */
    method TruncDirect(i: nat)
      requires Ok({}, {}) && i < |inodes| == |files| && files[i] == []
      modifies this`blocks, this`inodes, this`owner, this`logged
      ensures Ok({}, {}) && OnlyLosesFrom(i) && SameButAddrs(old(inodes), inodes, i)
      ensures forall s :: 0 <= s < NDIRECT ==> inodes[i].addrs[s] == 0
      ensures inodes[i].addrs[NDIRECT] == old(inodes)[i].addrs[NDIRECT]
    {
      hide Used, WithBit, Core, SlotsOwn, FreedBits, OnlyLogged;
      CoreAddrs(g, blocks, inodes, owner, files);
      NoneFreed(g, blocks, owner, logged);
      for s := 0 to NDIRECT
        invariant Ok({}, {}) && OnlyLosesFrom(i) && SameButAddrs(old(inodes), inodes, i)
        invariant forall t :: 0 <= t < s ==> inodes[i].addrs[t] == 0
        invariant inodes[i].addrs[NDIRECT] == old(inodes)[i].addrs[NDIRECT]
      {
        var b := inodes[i].addrs[s];
        if b != 0 {
          CoreFacts(g, blocks, inodes, owner, {}, files);
          AddrOwned(g, blocks, inodes, owner, i, s);
          ghost var mid, l := blocks, logged;
          FreedStep(g, old(owner), owner, old(logged), logged, b);
          UnlinkDirect(g, blocks, inodes, owner, files, i, s);
          inodes := inodes[i := SetAddr(inodes[i], s, 0)];
          owner := Without(owner, b);
          FreeUnlinked(b, {});
          LoggedThen(g, old(blocks), old(logged), mid, l, blocks, logged);
        }
      }
    }

    /** The second loop of itrunc: frees the blocks listed in the indirect block, without erasing the
        list. */
    method TruncEntries(i: nat, ind: nat) returns (ghost dead: set<(nat, nat)>)
      requires Ok({}, {}) && i < |inodes| == |files| && files[i] == [] && Shapes(g, blocks, inodes)
      requires ind == inodes[i].addrs[NDIRECT] && ind in owner && owner[ind] == (i, NDIRECT) && ind != 0
      modifies this`blocks, this`owner, this`logged
      ensures Ok({}, dead) && OnlyLosesFrom(i) && Shapes(g, blocks, inodes) && ind in owner
      ensures forall d :: d in dead ==> d.0 == i && NDIRECT < d.1
      ensures forall t :: NDIRECT < t < SLOTS ==> (i, t) in dead || Slot(g, blocks, inodes[i], t) == 0
    {
      hide Used, WithBit, Core, SlotsOwn, Word, Slot, FreedBits, OnlyLogged;
      var a := blocks[ind];
      dead := {};
      NoneFreed(g, blocks, owner, logged);
      for j := 0 to NINDIRECT
        invariant Ok({}, dead) && OnlyLosesFrom(i)
        invariant ind in owner && owner[ind] == (i, NDIRECT) && ind < |blocks| && blocks[ind] == a
        invariant Shapes(g, blocks, inodes)
        invariant forall d :: d in dead ==> d.0 == i && NDIRECT < d.1 <= NDIRECT + j
        invariant forall t :: NDIRECT < t <= NDIRECT + j ==> (i, t) in dead || Slot(g, blocks, inodes[i], t) == 0
      {
        ghost var s := NDIRECT + 1 + j;
        WasZero(g, blocks, inodes[i], j);
        ghost var was, l := blocks, logged;
        var b := Word(a, j);
        if b != 0 {
          KillEntry(g, blocks, inodes, owner, dead, files, i, s);
          EntryNotIndirect(g, blocks, inodes, owner, dead, files, i, s);
          FreedStep(g, old(owner), owner, old(logged), logged, b);
          owner := Without(owner, b);
          dead := dead + {(i, s)};
          FreeUnlinked(b, dead);
          LoggedThen(g, old(blocks), old(logged), was, l, blocks, logged);
          CoreShapes(g, blocks, inodes, owner, dead, files);
          SlotsKept(g, was, blocks, inodes[i]);
        }
      }
    }

    /** The part of itrunc that deals with the indirect block. */
    method TruncIndirect(i: nat)
      requires Ok({}, {}) && i < |inodes| == |files| && files[i] == []
      requires |inodes[i].addrs| == NDIRECT + 1 && inodes[i].addrs[NDIRECT] != 0
      modifies this`blocks, this`inodes, this`owner, this`logged
      ensures Ok({}, {}) && OnlyLosesFrom(i)
      ensures inodes == old(inodes)[i := SetAddr(old(inodes)[i], NDIRECT, 0)]
    {
      hide Used, WithBit, Core, SlotsOwn, Slot, Shapes, FreedBits, OnlyLogged;
      CoreFacts(g, blocks, inodes, owner, {}, files);
      OwnIndirect(g, blocks, inodes, owner, i);
      var ind := inodes[i].addrs[NDIRECT];
      ghost var dead := TruncEntries(i, ind);
      ShapeFacts(g, blocks, inodes);
      DropIndirect(g, blocks, inodes, owner, dead, files, i);
      CoreRange(g, blocks, inodes, owner, dead, files, ind);
      ghost var mid, l := blocks, logged;
      FreedStep(g, old(owner), owner, old(logged), logged, ind);
      inodes := inodes[i := SetAddr(inodes[i], NDIRECT, 0)];
      owner := Without(owner, ind);
      FreeUnlinked(ind, {});
      LoggedThen(g, old(blocks), old(logged), mid, l, blocks, logged);
    }

    /** itrunc: frees every block of file i exactly once, never a free one, and no block of another
        file. It logs exactly the bitmap blocks of those blocks and the inode block, and changes nothing
        else. */
    method ITrunc(i: nat)
      requires Valid() && i < |inodes|
      modifies this
      ensures Valid() && files == old(files)[i := []] && |inodes| == |old(inodes)|
      ensures forall b :: b in owner <==> b in old(owner) && old(owner)[b].0 != i
      ensures Shaped(g, blocks) && Shaped(g, old(blocks))
      ensures forall b :: 0 <= b < g.size ==>
                (Used(g, blocks, b) <==> Used(g, old(blocks), b) && (b in old(owner) ==> old(owner)[b].0 != i))
      ensures logged == old(logged) + BitsOf(g, old(owner), i) + {g.InodeBlock(i)}
      ensures OnlyLogged(g, old(blocks), old(logged), blocks, logged)
      ensures OnlyLoggedInodes(g, old(inodes), inodes, logged)
    {
      hide Used, WithBit, Core, SlotsOwn, FreedBits, OnlyLogged, OnlyLoggedInodes, BitsOf;
      CoreMap(g, blocks, inodes, owner, files);
      TruncFiles(g, blocks, inodes, owner, files, i);
      files := files[i := []];
      TruncDirect(i);
      ghost var mid, was, l := blocks, owner, logged;
      if inodes[i].addrs[NDIRECT] != 0 {
        TruncIndirect(i);
        LoggedThen(g, old(blocks), old(logged), mid, l, blocks, logged);
        FreedThen(g, old(owner), was, owner, old(logged), l, logged);
      }
      NoneLeft(g, blocks, inodes, owner, files, i);
      FreedAll(g, old(owner), owner, old(logged), logged, i);
      ghost var ips, l' := inodes, logged;
      SetSize(i, 0);
      LoggedInode(g, old(blocks), old(logged), blocks, l', i, old(inodes), ips, inodes);
      CoreMap(g, blocks, inodes, owner, files);
    }

    /** begin_op, itrunc, end_op. It is a transaction that the log has room for exactly when the blocks of
        the file lie in fewer than MAXOPBLOCKS bitmap blocks, as they do on every disk with at most nine. */
    method Truncate(i: nat)
      requires Valid() && i < |inodes|
      modifies this
      ensures Valid() && files == old(files)[i := []] && Sound(g, Here())
      ensures logged == BitsOf(g, old(owner), i) + {g.InodeBlock(i)}
      ensures Transacts(g, old(Here()), Here(), logged) <==> |BitsOf(g, old(owner), i)| < MAXOPBLOCKS
      ensures g.size / BPB < MAXOPBLOCKS - 1 ==> Transacts(g, old(Here()), Here(), logged)
    {
      hide Core, OnlyLogged, OnlyLoggedInodes, BitsOf, Used;
      CoreMap(g, blocks, inodes, owner, files);
      BitsOfMeta(g, owner, i);
      logged := {};
      ITrunc(i);
    }

    /** The chunk of filewrite cannot be longer: appended to a file that ends inside its last direct
        block, has no indirect block, and will get its next four blocks from four different bitmap
        blocks, a chunk logs exactly MAXOPBLOCKS blocks and one whole block more logs more. */
    method AppendSpread(i: nat, data: seq<Byte>) returns (r: Io)
      requires Valid() && i < |inodes| && Shapes(g, blocks, inodes) && i < g.ninodes && logged == {}
      requires First(|files[i]|) == NDIRECT - 1 && |files[i]| % BSIZE != 0 && inodes[i].addrs[NDIRECT] == 0
      requires 5 <= |Free(g, blocks)| && UnlikeBits(g, Free(g, blocks)[..4])
      requires |data| == MAXCHUNK || |data| == MAXCHUNK + BSIZE
      modifies this
      ensures r.Done? && Valid() && files == old(files)[i := old(files[i]) + data]
      ensures if |data| == MAXCHUNK then |logged| == MAXOPBLOCKS else |logged| > MAXOPBLOCKS
    {
      hide Core, ShapeOf, Free, UnlikeBits, WriteNeed, WriteLogs, Wrote, Spread;
      ghost var off := |files[i]|;
      SpreadHere(g, blocks, inodes, owner, files, i);
      ChunkIsTight(g, ShapeOf(g, blocks, inodes[i]), Free(g, blocks), i, off, |data|);
      r := WriteI(i, inodes[i].size, data);
      assert old(files[i]) + data == Overwrite(old(files[i]), off, data);
      assert {} + logged == logged;
    }

    /** begin_op, writei of one chunk, end_op. */
    method Transaction(i: nat, off: nat, d: seq<Byte>) returns (w: Io)
      requires Valid() && i < |inodes| && off < UINT && |d| <= MAXCHUNK
      modifies this
      ensures w.Fail? <==> off > old(|files[i]|) || !InRange(off, |d|)
      ensures w.Panic? ==> DiskFull()
      ensures !w.Panic? ==> Valid() && |inodes| == |old(inodes)| && |logged| <= MAXOPBLOCKS
      ensures w.Fail? ==> Here() == old(Here())
      ensures w.Done? ==> files == old(files)[i := Overwrite(old(files[i]), off, d)]
      ensures Shapes(g, old(blocks), old(inodes))
      ensures var sh, f := ShapeOf(g, old(blocks), old(inodes)[i]), Free(g, old(blocks));
              && (!w.Fail? ==> (w.Panic? <==> |f| < WriteNeed(sh, off, |d|)))
              && (w.Done? ==>
                    && Wrote(g, sh, f, off, |d|, blocks, inodes[i])
                    && logged == WriteLogs(g, sh, f, i, old(|files[i]|), off, |d|))
      ensures !w.Panic? ==> Sound(g, Here())
      ensures w.Done? ==> Transacts(g, old(Here()), Here(), logged)
    {
      hide Core, SlotsOwn, LogBound, Overwrite, Shapes, ShapeOf, Free, WriteNeed, Wrote, WriteLogs;
      logged := {};
      w := WriteI(i, off, d);
      ChunkFits(off, |d|);
      assert w.Done? ==> logged - {} == logged;
    }

    /** filewrite on a file at offset `off`: whole transactions of at most 3 blocks each, none of which
        logs more than MAXOPBLOCKS blocks. A failing transaction keeps the ones before it. It panics
        exactly when the bytes it would get to need more blocks than are free. `snaps` are the states
        between the transactions. */
    method FileWrite(i: nat, off: nat, data: seq<Byte>)
      returns (r: Io, off': nat, ghost done: nat, ghost transactions: seq<set<nat>>, ghost snaps: seq<Snap>)
      requires Valid() && i < |inodes| && off < UINT && |data| < UINT / 2
      modifies this
      ensures r.Panic? ==> DiskFull()
      ensures !r.Panic? ==> Valid() && off' == off + done && done == Planned(off, |data|, old(|files[i]|))
      ensures !r.Panic? ==> files == old(files)[i := WrittenSoFar(old(files[i]), off, data[..done])]
      ensures forall t :: 0 <= t < |transactions| ==> |transactions[t]| <= MAXOPBLOCKS
      ensures r.Done? ==> done == |data| == r.n
      ensures r.Fail? ==> done < |data| && done % MAXCHUNK == 0
      ensures r.Fail? ==> off > old(|files[i]|) || !InRange(off, done + Min(|data| - done, MAXCHUNK))
      ensures !r.Panic? ==> (r.Done? <==> data == [] || (off <= old(|files[i]|) && InRange(off, |data|)))
      ensures Shapes(g, old(blocks), old(inodes))
      ensures r.Panic? <==>
                |Free(g, old(blocks))|
                < PlanNeed(ShapeOf(g, old(blocks), old(inodes)[i]), off, |data|, old(|files[i]|))
      ensures Chunked(g, snaps, transactions, i, off, data) && snaps[0] == old(Here())
      ensures !r.Panic? ==> snaps[|snaps| - 1] == Here()
    {
      hide Core, SlotsOwn, Overwrite, WrittenSoFar, Shapes, ShapeOf, Free, Wrote;
      hide WriteNeed, WriteLogs, Planned, PlanNeed;
      var n := |data|;
      done, off', transactions, snaps := 0, off, [], [Here()];
      CoreShapes(g, blocks, inodes, owner, {}, files);
      ghost var c0, sh, f := files[i], ShapeOf(g, blocks, inodes[i]), Free(g, blocks);
      FileBytes(g, blocks, inodes, owner, files, i);
      var k := 0;
      NothingWritten(c0, off, data);
      ChunkedStart(g, Here(), i, off, data);
      assert |files| == |inodes|;
      hide Chunked, Sound, Transacts, AtChunk, Got, FileSys.Valid;
      while k < n
        invariant Valid() && 0 <= k <= n && done == k && off' == off + k
        invariant |inodes| == |old(inodes)| == |files| && files == old(files)[i := WrittenSoFar(c0, off, data[..k])]
        invariant k > 0 ==> off <= |c0|
        invariant Got(g, sh, f, off, k, blocks, inodes[i])
        invariant Chunked(g, snaps, transactions, i, off, data) && snaps[0] == old(Here())
        invariant |snaps| == |transactions| + 1 && snaps[|snaps| - 1] == Here()
        invariant AtChunk(k, |transactions|, n)
      {
        ChunksFit(g, snaps, transactions, i, off, data);
        var n1 := n - k;
        if n1 > MAXCHUNK {
          n1 := MAXCHUNK;
        }
        WriteOn(c0, off, data, k, n1);
        ChunkCount(k, |transactions|, n);
        ghost var was, ip := blocks, inodes[i];
        var w := Transaction(i, off', data[k..k + n1]);
        if !w.Fail? {
          GotMore(g, sh, f, off, k, n1, n, |c0|, was, ip, blocks, if w.Panic? then ip else inodes[i], w.Panic?);
        }
        if w.Panic? {
          return Panic, off', done, transactions, snaps;
        }
        if w.Fail? {
          PlanEnds(g, sh, f, off, k, n1, n, |c0|, blocks, inodes[i]);
          return Fail, off', done, transactions, snaps;
        }
        ChunkedMore(g, snaps, transactions, i, off, data, k, n1, Here(), logged);
        transactions, snaps := transactions + [logged], snaps + [Here()];
        off' := off' + n1;
        k := k + n1;
        done := k;
      }
      PlanWhole(g, sh, f, off, n, |c0|, blocks, inodes[i]);
      ChunksFit(g, snaps, transactions, i, off, data);
      r := Done(n);
    }
  }
}
