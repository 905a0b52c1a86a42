/** Files across a power failure: the transactions of the file system (xv6/fs.c, xv6/file.c) committed
    through the log (xv6/log.c). What a recovery finds on disk are the files after a whole number of
    transactions. */
module FsCrash {
  import opened Common
  import opened FsLayout
  import opened FsOwner
  import opened FsCount
  import opened FileSystem
  import R = RedoLog

  // ----- what the home blocks hold

  const WORDS: nat := NDIRECT + 2

  /** An inode as it lies in an inode block, by words. */
  function InodeWords(ip: Inode): (r: seq<nat>)
    ensures |ip.addrs| == NDIRECT + 1 ==> |r| == WORDS
  {
    [ip.size] + ip.addrs
  }

  function InodeBlockAt(g: Geometry, inodes: seq<Inode>, b: nat): (r: R.Block)
    requires g.inodestart <= b && forall k :: 0 <= k < |inodes| ==> |inodes[k].addrs| == NDIRECT + 1
    ensures |r| == IPB * WORDS
    ensures forall w {:trigger r[w]} :: 0 <= w < IPB * WORDS ==> r[w] == WordAt(g, inodes, b, w)
  {
    seq(IPB * WORDS, w requires 0 <= w < IPB * WORDS => WordAt(g, inodes, b, w))
  }

  function WordAt(g: Geometry, inodes: seq<Inode>, b: nat, w: nat): nat
    requires g.inodestart <= b && forall k :: 0 <= k < |inodes| ==> |inodes[k].addrs| == NDIRECT + 1
  {
    var k := IPB * (b - g.inodestart) + w / WORDS;
    if k < |inodes| then InodeWords(inodes[k])[w % WORDS] else 0
  }

  /** Block `b` of the disk: inodes, free map or data. */
  function ImageAt(g: Geometry, s: Snap, b: nat): R.Block
    requires Shapes(g, s.blocks, s.inodes) && g.inodestart <= b < g.size
  {
    if b < g.bmapstart then InodeBlockAt(g, s.inodes, b) else s.blocks[b]
  }

  function Image(g: Geometry, s: Snap): (home: map<nat, R.Block>)
    requires Shapes(g, s.blocks, s.inodes)
    ensures forall b {:trigger b in home} :: b in home <==> g.inodestart <= b < g.size
    ensures forall b {:trigger home[b]} :: g.inodestart <= b < g.size ==> home[b] == ImageAt(g, s, b)
  {
    map b | g.inodestart <= b < g.size :: ImageAt(g, s, b)
  }

  lemma SoundShapes(g: Geometry, s: Snap)
    requires Sound(g, s)
    ensures Shapes(g, s.blocks, s.inodes)
  {
  }

  /** A block that a transaction has not logged is the same after it. */
  lemma {:induction false} Unlogged(g: Geometry, s: Snap, s': Snap, l: set<nat>, b: nat)
    requires Shapes(g, s.blocks, s.inodes) && Shapes(g, s'.blocks, s'.inodes) && Transacts(g, s, s', l)
    requires g.inodestart <= b < g.size && b !in l
    ensures ImageAt(g, s', b) == ImageAt(g, s, b)
  {
    if b < g.bmapstart {
      forall w | 0 <= w < IPB * WORDS ensures WordAt(g, s'.inodes, b, w) == WordAt(g, s.inodes, b, w) {
        var k := IPB * (b - g.inodestart) + w / WORDS;
        InodeBlockOf(g, b, w / WORDS);
        if k < |s'.inodes| { var ip := s'.inodes[k]; }
      }
      assert InodeBlockAt(g, s'.inodes, b) == InodeBlockAt(g, s.inodes, b);
    } else {
      assert s'.blocks[b] == s.blocks[b];
    }
  }

  lemma InodeBlockOf(g: Geometry, b: nat, j: nat)
    requires g.inodestart <= b && j < IPB
    ensures g.InodeBlock(IPB * (b - g.inodestart) + j) == b
  {
  }

  // ----- the files are what the home blocks say

  lemma WordPlace(k: nat, j: nat)
    requires j < WORDS
    ensures var w := k % IPB * WORDS + j; 0 <= w < IPB * WORDS && w / WORDS == k % IPB && w % WORDS == j
  {
  }

  lemma {:induction false} SameInode(g: Geometry, s: Snap, s': Snap, k: nat)
    requires Sound(g, s) && Sound(g, s') && |s.inodes| == |s'.inodes| && k < |s.inodes|
    requires Shapes(g, s.blocks, s.inodes) && Shapes(g, s'.blocks, s'.inodes) && Image(g, s) == Image(g, s')
    ensures s.inodes[k] == s'.inodes[k]
  {
    hide Core, Image, InodeBlockAt, InodeWords;
    var b := g.InodeBlock(k);
    assert k / IPB <= g.ninodes / IPB;
    assert Image(g, s)[b] == Image(g, s')[b];
    var x, y := s.inodes[k], s'.inodes[k];
    forall j | 0 <= j < WORDS ensures InodeWords(x)[j] == InodeWords(y)[j] {
      var w := k % IPB * WORDS + j;
      WordPlace(k, j);
      assert IPB * (b - g.inodestart) + w / WORDS == k;
      assert InodeBlockAt(g, s.inodes, b)[w] == InodeBlockAt(g, s'.inodes, b)[w];
    }
    SameWords(x, y);
  }

  lemma SameWords(x: Inode, y: Inode)
    requires |x.addrs| == |y.addrs| == NDIRECT + 1
    requires forall j :: 0 <= j < WORDS ==> InodeWords(x)[j] == InodeWords(y)[j]
    ensures x == y
  {
    assert InodeWords(x) == InodeWords(y);
    assert x.addrs == InodeWords(x)[1..] && y.addrs == InodeWords(y)[1..];
  }

  lemma {:induction false} SameByte(g: Geometry, s: Snap, s': Snap, k: nat, x: nat)
    requires Sound(g, s) && Sound(g, s') && s.inodes == s'.inodes && k < |s.inodes|
    requires Shapes(g, s.blocks, s.inodes) && Shapes(g, s'.blocks, s'.inodes) && Image(g, s) == Image(g, s')
    requires x < |s.files[k]| == |s'.files[k]|
    ensures s.files[k][x] == s'.files[k][x]
  {
    hide Core, Image, BlockOf, Used;
    FileBytes(g, s.blocks, s.inodes, s.owner, s.files, k);
    FileBytes(g, s'.blocks, s'.inodes, s'.owner, s'.files, k);
    var bn := x / BSIZE;
    CoreFacts(g, s.blocks, s.inodes, s.owner, {}, s.files);
    CoreFacts(g, s'.blocks, s'.inodes, s'.owner, {}, s'.files);
    var ind := s.inodes[k].addrs[NDIRECT];
    if ind != 0 {
      OwnIndirect(g, s.blocks, s.inodes, s.owner, k);
      SameData(g, s, s', ind);
    }
    BlockOfFrame(g, s.blocks, s'.blocks, s.inodes[k], bn);
    OwnBlock(g, s.blocks, s.inodes, s.owner, k, bn);
    SameData(g, s, s', BlockOf(g, s.blocks, s.inodes[k], bn));
  }

  lemma SameData(g: Geometry, s: Snap, s': Snap, b: nat)
    requires Shapes(g, s.blocks, s.inodes) && Shapes(g, s'.blocks, s'.inodes) && Image(g, s) == Image(g, s')
    requires g.nmeta <= b < g.size
    ensures s.blocks[b] == s'.blocks[b]
  {
    hide Image;
    assert Image(g, s)[b] == Image(g, s')[b];
  }

  /** Home blocks hold one set of files. */
  lemma {:induction false} FilesAreDetermined(g: Geometry, s: Snap, s': Snap)
    requires Sound(g, s) && Sound(g, s') && |s.inodes| == |s'.inodes|
    requires Shapes(g, s.blocks, s.inodes) && Shapes(g, s'.blocks, s'.inodes) && Image(g, s) == Image(g, s')
    ensures s.files == s'.files
  {
    hide Core, Image;
    forall k | 0 <= k < |s.inodes| ensures s.inodes[k] == s'.inodes[k] { SameInode(g, s, s', k); }
    assert s.inodes == s'.inodes;
    forall k | 0 <= k < |s.files| ensures s.files[k] == s'.files[k] {
      forall x | 0 <= x < |s.files[k]| ensures s.files[k][x] == s'.files[k][x] { SameByte(g, s, s', k, x); }
    }
  }

  /** The home blocks hold these files. */
  ghost predicate FilesOn(g: Geometry, home: map<nat, R.Block>, n: nat, files: seq<seq<Byte>>) {
    exists s: Snap :: OnDisk(g, s, home, n) && s.files == files
  }

  ghost predicate OnDisk(g: Geometry, s: Snap, home: map<nat, R.Block>, n: nat) {
    Sound(g, s) && Shapes(g, s.blocks, s.inodes) && |s.inodes| == n && Image(g, s) == home
  }

  lemma {:induction false} FilesOnce(g: Geometry, home: map<nat, R.Block>, n: nat, a: seq<seq<Byte>>, b: seq<seq<Byte>>)
    requires FilesOn(g, home, n, a) && FilesOn(g, home, n, b)
    ensures a == b
  {
    var s :| OnDisk(g, s, home, n) && s.files == a;
    var t :| OnDisk(g, t, home, n) && t.files == b;
    hide Sound, Image;
    FilesAreDetermined(g, s, t);
  }

  // ----- one transaction

  /** What log_write has recorded when the transaction from s to s' calls end_op: the list of the logged
      blocks, in any order, and their new contents pinned in the cache. */
  ghost predicate Recorded(g: Geometry, c: R.Commit, s': Snap, l: set<nat>) {
    && Shapes(g, s'.blocks, s'.inodes) && c.phase == R.StartPhase(c.lh) && Distinct(c.lh)
    && (forall b {:trigger b in c.lh} {:trigger b in l} :: b in c.lh <==> b in l)
    && (forall b {:trigger b in c.cache} :: b in c.cache <==> b in l)
    && (forall b {:trigger c.cache[b]} :: b in l && g.inodestart <= b < g.size ==> c.cache[b] == ImageAt(g, s', b))
  }

  /** A disk with an empty log that holds the state s. */
  ghost predicate Holding(g: Geometry, d: R.Disk, s: Snap) {
    && Shapes(g, s.blocks, s.inodes) && d.head == [] && |d.log| >= MAXOPBLOCKS && d.home == Image(g, s)
  }

  lemma {:induction false} ListSize(lh: seq<nat>, l: set<nat>)
    requires Distinct(lh) && forall b :: b in lh <==> b in l
    ensures |lh| == |l|
  {
    SizeOfElems(lh);
    assert (set i | 0 <= i < |lh| :: lh[i]) == l;
  }

  lemma PinnedList(c: R.Commit)
    requires forall b :: b in c.cache <==> b in c.lh
    ensures R.Pinned(c, 0)
  {
    forall b ensures b in c.lh <==> R.IndexOf(c.lh, b) < |c.lh| {
    }
  }

  lemma {:induction false} RecordedInv(g: Geometry, c: R.Commit, s: Snap, s': Snap, l: set<nat>)
    requires Recorded(g, c, s', l) && Transacts(g, s, s', l) && Holding(g, c.disk, s)
    ensures R.CommitInv(c) && R.View(c) == Image(g, s') && |c.lh| <= MAXOPBLOCKS
  {
    ListSize(c.lh, l);
    hide Image, ImageAt, R.View, R.IndexOf;
    forall k | 0 <= k < |c.lh| ensures c.lh[k] in c.disk.home {
      assert c.lh[k] in l;
    }
    ViewIs(g, c, s, s', l);
    assert R.ValidList(c.disk, c.lh);
    PinnedList(c);
    StartsCommit(c);
  }

  lemma StartsCommit(c: R.Commit)
    requires c.disk.head == [] && R.ValidList(c.disk, c.lh) && R.Pinned(c, 0) && c.phase == R.StartPhase(c.lh)
    ensures R.CommitInv(c)
  {
    assert Distinct([]);
    hide Distinct;
    if c.lh == [] {
      forall b ensures b !in c.cache { assert R.IndexOf([], b) == 0; }
      assert c.cache == map[];
    }
  }

  lemma {:induction false} ViewIs(g: Geometry, c: R.Commit, s: Snap, s': Snap, l: set<nat>)
    requires Recorded(g, c, s', l) && Transacts(g, s, s', l) && Holding(g, c.disk, s)
    ensures R.View(c) == Image(g, s')
  {
    hide Image, ImageAt;
    forall b | g.inodestart <= b < g.size ensures R.ViewAt(c, b) == ImageAt(g, s', b) {
      if b !in l { Unlogged(g, s, s', l, b); }
    }
  }

  /** The machine up again after a power failure behind the i-th write of the commit, recoveries that
      failed after crashes[0], crashes[1], ... steps, and one with n steps. */
  function Restarted(c: R.Commit, i: nat, crashes: seq<nat>, n: nat): R.Recovery
    requires R.CommitInv(c) && c.phase == R.StartPhase(c.lh)
  {
    R.RecoverSteps(R.CrashyRecovery(R.CommitSteps(c, i).disk, crashes), n)
  }

  /** A power failure after any number of writes of the commit, and any number of power failures during
      recovery: the disk holds the state before the transaction or the state after it. */
  lemma {:induction false} TransactionIsAtomic(g: Geometry, c: R.Commit, s: Snap, s': Snap, l: set<nat>,
                                               i: nat, crashes: seq<nat>, n: nat)
    requires Recorded(g, c, s', l) && Transacts(g, s, s', l) && Holding(g, c.disk, s) && n >= MAXOPBLOCKS + 2
    ensures R.CommitInv(c) && c.phase == R.StartPhase(c.lh)
    ensures var r := Restarted(c, i, crashes, n);
            r.phase.Up? && r.disk.home == Image(g, if i <= |c.lh| then s else s')
  {
    hide Recorded, Transacts, Image, R.CommitInv, R.View, R.CommitSteps, R.RecoverSteps, R.CrashyRecovery;
    RecordedInv(g, c, s, s', l);
    assert c.phase == R.StartPhase(c.lh) by { RecordedPhase(g, c, s', l); }
    R.CommitIsAtomic(c, i, crashes, n);
  }

  lemma RecordedPhase(g: Geometry, c: R.Commit, s': Snap, l: set<nat>)
    requires Recorded(g, c, s', l)
    ensures c.phase == R.StartPhase(c.lh) && Shapes(g, s'.blocks, s'.inodes)
  {
  }

  // ----- a run of transactions

  lemma {:induction false} LogLength(c: R.Commit, i: nat)
    requires R.CommitInv(c) && c.phase == R.StartPhase(c.lh)
    ensures |R.CommitSteps(c, i).disk.log| == |c.disk.log|
  {
    hide R.CommitInv;
    if i > 0 {
      LogLength(c, i - 1);
    }
  }

  /** The disk when commit() returns. */
  ghost function DiskAfter(c: R.Commit): R.Disk {
    if R.CommitInv(c) && c.phase == R.StartPhase(c.lh) then R.CommitSteps(c, 2 * |c.lh| + 2).disk else c.disk
  }

  /** When commit() returns the disk holds the new state and the log is empty. */
  lemma {:induction false} CommitEnds(g: Geometry, c: R.Commit, s: Snap, s': Snap, l: set<nat>)
    requires Recorded(g, c, s', l) && Transacts(g, s, s', l) && Holding(g, c.disk, s)
    ensures Holding(g, DiskAfter(c), s')
  {
    hide Recorded, Transacts, Image, R.View, R.CommitSteps;
    RecordedInv(g, c, s, s', l);
    RecordedPhase(g, c, s', l);
    R.CommitIsAtomic(c, 0, [], |c.lh| + 2);
    LogLength(c, 2 * |c.lh| + 2);
  }

  /** Transactions one after the other, each committed to the disk that the one before it has left. */
  ghost predicate Session(g: Geometry, snaps: seq<Snap>, ls: seq<set<nat>>, commits: seq<R.Commit>) {
    && |commits| < |snaps| && |commits| <= |ls|
    && (forall t {:trigger ls[t]} :: 0 <= t < |commits| ==> Transacts(g, snaps[t], snaps[t + 1], ls[t]))
    && (forall t {:trigger commits[t]} :: 0 <= t < |commits| ==> Recorded(g, commits[t], snaps[t + 1], ls[t]))
    && (0 < |commits| ==> Holding(g, commits[0].disk, snaps[0]))
    && (forall t {:trigger commits[t]} :: 0 < t < |commits| ==> commits[t].disk == DiskAfter(commits[t - 1]))
  }

  lemma {:induction false} SessionHolds(g: Geometry, snaps: seq<Snap>, ls: seq<set<nat>>, commits: seq<R.Commit>,
                                        t: nat)
    requires Session(g, snaps, ls, commits) && t < |commits|
    ensures Holding(g, commits[t].disk, snaps[t])
  {
    hide Holding, Recorded, Transacts, DiskAfter;
    if t == 0 {
    } else {
      SessionHolds(g, snaps, ls, commits, t - 1);
      var c, l := commits[t - 1], ls[t - 1];
      CommitEnds(g, c, snaps[t - 1], snaps[t], l);
      assert commits[t].disk == DiskAfter(c);
    }
  }

  /** A power failure anywhere in the run, during the commit of transaction t after i writes, and any
      number of further ones during recovery: the disk holds the files after t transactions or after
      t + 1, and no others. */
  lemma {:induction false} CrashInSession(g: Geometry, snaps: seq<Snap>, ls: seq<set<nat>>, commits: seq<R.Commit>,
                                          t: nat, i: nat, crashes: seq<nat>, n: nat) returns (u: nat)
    requires Session(g, snaps, ls, commits) && t < |commits| && n >= MAXOPBLOCKS + 2
    requires forall k :: 0 <= k < |snaps| ==> Sound(g, snaps[k])
    ensures R.CommitInv(commits[t]) && commits[t].phase == R.StartPhase(commits[t].lh)
    ensures u == (if i <= |commits[t].lh| then t else t + 1)
    ensures var r := Restarted(commits[t], i, crashes, n);
            && r.phase.Up? && FilesOn(g, r.disk.home, |snaps[u].inodes|, snaps[u].files)
            && forall files :: FilesOn(g, r.disk.home, |snaps[u].inodes|, files) ==> files == snaps[u].files
  {
    hide Holding, Recorded, Transacts, DiskAfter, Sound, Image, R.CommitInv, Restarted;
    SessionHolds(g, snaps, ls, commits, t);
    var c, l := commits[t], ls[t];
    TransactionIsAtomic(g, c, snaps[t], snaps[t + 1], l, i, crashes, n);
    RecordedPhase(g, c, snaps[t + 1], l);
    u := if i <= |c.lh| then t else t + 1;
    SoundShapes(g, snaps[u]);
    var home := Restarted(c, i, crashes, n).disk.home;
    assert OnDisk(g, snaps[u], home, |snaps[u].inodes|);
    forall files | FilesOn(g, home, |snaps[u].inodes|, files) ensures files == snaps[u].files {
      FilesOnce(g, home, |snaps[u].inodes|, files, snaps[u].files);
    }
  }

  /** So for filewrite: after a power failure in the middle of it the file holds its old contents with
      the first u chunks written, for some u, and every other file is as it was. */
  lemma {:induction false} CrashInFileWrite(g: Geometry, snaps: seq<Snap>, ls: seq<set<nat>>, commits: seq<R.Commit>,
                                            k: nat, off: nat, data: seq<Byte>,
                                            t: nat, i: nat, crashes: seq<nat>, n: nat) returns (u: nat)
    requires Chunked(g, snaps, ls, k, off, data) && Session(g, snaps, ls, commits)
    requires t < |commits| && n >= MAXOPBLOCKS + 2
    ensures R.CommitInv(commits[t]) && commits[t].phase == R.StartPhase(commits[t].lh) && t <= u <= t + 1 < |snaps|
    ensures var r := Restarted(commits[t], i, crashes, n);
            var files := snaps[0].files;
            && r.phase.Up?
            && FilesOn(g, r.disk.home, |snaps[u].inodes|,
                       files[k := WrittenSoFar(files[k], off, data[..Min(u * MAXCHUNK, |data|)])])
  {
    hide Session, Sound, Transacts, FilesOn, R.CommitInv, Restarted, WrittenSoFar;
    assert |commits| < |snaps| by { SessionLength(g, snaps, ls, commits); }
    u := CrashInSession(g, snaps, ls, commits, t, i, crashes, n);
    assert HasChunks(snaps[0], snaps[u], k, off, data, u);
  }

  /** And for itrunc: the file is whole or it is empty, and every other file is as it was. */
  lemma {:induction false} CrashInTruncate(g: Geometry, c: R.Commit, s: Snap, s': Snap, l: set<nat>, k: nat,
                                           i: nat, crashes: seq<nat>, n: nat) returns (files: seq<seq<Byte>>)
    requires Sound(g, s) && Sound(g, s') && Transacts(g, s, s', l)
    requires k < |s.files| && s'.files == s.files[k := []]
    requires Recorded(g, c, s', l) && Holding(g, c.disk, s) && n >= MAXOPBLOCKS + 2
    ensures R.CommitInv(c) && c.phase == R.StartPhase(c.lh)
    ensures files == if i <= |c.lh| then s.files else s.files[k := []]
    ensures var r := Restarted(c, i, crashes, n);
            r.phase.Up? && FilesOn(g, r.disk.home, |s.files|, files)
  {
    hide Recorded, Transacts, Holding, FilesOn, Core, Image, R.CommitInv, Restarted;
    assert Session(g, [s, s'], [l], [c]);
    var u := CrashInSession(g, [s, s'], [l], [c], 0, i, crashes, n);
    files := if i <= |c.lh| then s.files else s'.files;
  }

  lemma SessionLength(g: Geometry, snaps: seq<Snap>, ls: seq<set<nat>>, commits: seq<R.Commit>)
    requires Session(g, snaps, ls, commits)
    ensures |commits| < |snaps|
  {
  }
}
