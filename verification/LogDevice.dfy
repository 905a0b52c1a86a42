/** The code of xv6/log.c on a flat disk: the log header as words in a block, and the loops of
    write_log, write_head, install_trans and read_head, proved to make exactly the disk writes of
    RedoLog.dfy, in order. */
module LogDevice {
  import opened RedoLog

  type Flat = seq<Block>

  /** log.start and log.size, the number of disk blocks and of words in a block. */
  datatype Geometry = Geometry(start: nat, size: nat, nblocks: nat, words: nat) {

    /** initlog panics unless a header fits in a block. */
    predicate Valid() {
      1 <= size <= words && start + size <= nblocks
    }

    predicate InLog(b: nat) { start <= b < start + size }
  }

  // ----- the header block: word 0 is the count, words 1..n the block numbers

  function PutHead(b: Block, lh: seq<nat>): Block
    requires |lh| + 1 <= |b|
  {
    [|lh|] + lh + b[|lh| + 1..]
  }

  predicate HasHead(b: Block) { |b| > 0 && b[0] + 1 <= |b| }

  function GetHead(b: Block): seq<nat>
    requires HasHead(b)
  {
    b[1..b[0] + 1]
  }

  lemma HeadRoundTrip(b: Block, lh: seq<nat>)
    requires |lh| + 1 <= |b|
    ensures |PutHead(b, lh)| == |b| && HasHead(PutHead(b, lh))
    ensures GetHead(PutHead(b, lh)) == lh
  {
    assert PutHead(b, lh)[1..|lh| + 1] == lh;
  }

  // ----- the flat disk

  predicate Shaped(g: Geometry, d: Flat) {
    && g.Valid() && |d| == g.nblocks
    && (forall b :: 0 <= b < |d| ==> |d[b]| == g.words)
    && HasHead(d[g.start])
  }

  function Decode(g: Geometry, d: Flat): Disk
    requires Shaped(g, d)
  {
    Disk(GetHead(d[g.start]), d[g.start + 1..g.start + g.size],
         map b | 0 <= b < |d| && !g.InLog(b) :: d[b])
  }

  lemma WriteLogBlock(g: Geometry, d: Flat, i: nat, v: Block)
    requires Shaped(g, d) && i < g.size - 1 && |v| == g.words
    ensures var d' := d[g.start + 1 + i := v]; var x := Decode(g, d);
            Shaped(g, d') && Decode(g, d') == x.(log := x.log[i := v])
  {
    var d' := d[g.start + 1 + i := v];
    assert d'[g.start + 1..g.start + g.size] == d[g.start + 1..g.start + g.size][i := v];
  }

  lemma WriteHomeBlock(g: Geometry, d: Flat, b: nat, v: Block)
    requires Shaped(g, d) && b < |d| && !g.InLog(b) && |v| == g.words
    ensures var d' := d[b := v]; var x := Decode(g, d);
            Shaped(g, d') && Decode(g, d') == x.(home := x.home[b := v])
  {
    var d' := d[b := v];
    assert d'[g.start + 1..g.start + g.size] == d[g.start + 1..g.start + g.size];
  }

  lemma WriteHeadBlock(g: Geometry, d: Flat, lh: seq<nat>)
    requires Shaped(g, d) && |lh| + 1 <= g.words
    ensures var d' := d[g.start := PutHead(d[g.start], lh)]; var x := Decode(g, d);
            Shaped(g, d') && Decode(g, d') == x.(head := lh)
  {
    var d' := d[g.start := PutHead(d[g.start], lh)];
    HeadRoundTrip(d[g.start], lh);
    assert d'[g.start + 1..g.start + g.size] == d[g.start + 1..g.start + g.size];
  }

  // ----- the code

  lemma RecoverStepAt(d: Disk, i: nat)
    requires ValidDisk(d) && i <= |d.head| + 1
    ensures RecoverSteps(d, i).phase == if i == 0 then ReadHead else if i <= |d.head| then Reinstall(i - 1) else Clear
    ensures RecoverInv(RecoverSteps(d, i))
    ensures RecoverSteps(d, i + 1) == NextRecover(RecoverSteps(d, i))
    ensures 0 < i ==> RecoverSteps(d, i).lh == d.head
    ensures i <= 1 ==> RecoverSteps(d, i).disk == d
  {
    RecoverStepsProgress(d, i);
  }

  lemma LastClear(d: Disk)
    requires ValidDisk(d)
    ensures var n := |d.head| + 1;
            && RecoverSteps(d, n + 1).disk == RecoverSteps(d, n).disk.(head := [])
            && RecoverSteps(d, n + 1).disk.home == Recovered(d)
  {
    RecoverStepAt(d, |d.head| + 1);
    RecoveryIsIdempotent(d, [], |d.head| + 2);
  }

  lemma HasRoom(g: Geometry, d: Flat)
    requires Shaped(g, d)
    ensures 1 <= g.words
  {
  }

  lemma ReinstallAt(g: Geometry, d: Flat, r: Recovery, k: nat)
    requires Shaped(g, d) && Decode(g, d) == r.disk && RecoverInv(r) && r.phase == Reinstall(k)
    ensures k < |r.lh| && r.lh[k] < |d| && !g.InLog(r.lh[k]) && k < g.size - 1
    ensures r.disk.log[k] == d[g.start + 1 + k]
  {
  }

  /** CommitPhases, with the step taken from there. */
  lemma StepAt(c: Commit, i: nat)
    requires CommitInv(c) && c.phase == StartPhase(c.lh)
    ensures CommitSteps(c, i).phase == Position(|c.lh|, i)
    ensures !CommitSteps(c, i).phase.Finished? ==> CommitSteps(c, i).lh == c.lh
    ensures CanStep(CommitSteps(c, i)) <==> Position(|c.lh|, i) != Finished
    ensures i == 0 ==> CommitSteps(c, i) == c
    ensures i > 0 && CanStep(CommitSteps(c, i - 1)) ==> CommitSteps(c, i) == NextCommit(CommitSteps(c, i - 1))
  {
    CommitPhases(c, i);
    CommitNeverStuck(CommitSteps(c, i));
  }

  lemma InHomeAll(g: Geometry, d: Flat, c: Commit)
    requires Shaped(g, d) && Decode(g, d) == c.disk && CommitInv(c)
    ensures |c.lh| + 1 <= g.words
  {
  }

  lemma InHome(g: Geometry, d: Flat, c: Commit, k: nat)
    requires Shaped(g, d) && Decode(g, d) == c.disk && ValidList(c.disk, c.lh) && k < |c.lh|
    ensures c.lh[k] < |d| && !g.InLog(c.lh[k]) && k < g.size - 1
    ensures ViewAt(c, c.lh[k]) == if c.lh[k] in c.cache then c.cache[c.lh[k]] else d[c.lh[k]]
    ensures c.disk.log[k] == d[g.start + 1 + k]
  {
  }

  /** One block of install_trans. */
  lemma InstallStep(g: Geometry, d: Flat, c: Commit, k: nat)
    requires CommitInv(c) && c.phase == StartPhase(c.lh) && k < |c.lh| && Shaped(g, d)
    requires Decode(g, d) == CommitSteps(c, |c.lh| + 1 + k).disk && CommitSteps(c, |c.lh| + 1 + k).lh == c.lh
    ensures c.lh[k] < |d| && g.start + 1 + k < |d|
    ensures var r, r' := CommitSteps(c, |c.lh| + 1 + k), CommitSteps(c, |c.lh| + 2 + k);
            var d' := d[c.lh[k] := d[g.start + 1 + k]];
            && Shaped(g, d') && Decode(g, d') == r'.disk && r'.cache == r.cache - {c.lh[k]}
            && r'.lh == c.lh
  {
    hide CommitInv, Decode, ViewAt, CommitSteps;
    StepAt(c, |c.lh| + 1 + k);
    StepAt(c, |c.lh| + 2 + k);
    InHome(g, d, CommitSteps(c, |c.lh| + 1 + k), k);
    WriteHomeBlock(g, d, c.lh[k], d[g.start + 1 + k]);
  }

  class Log {
    const g: Geometry
    var disk: Flat
    var cache: map<nat, Block>
    var lh: seq<nat>
    /** The disk before the first write and after each write of the last commit or recovery. */
    ghost var trace: seq<Flat>

    constructor (g: Geometry, disk: Flat)
      ensures this.g == g && this.disk == disk && cache == map[] && lh == [] && trace == []
    {
      this.g, this.disk, cache, lh, trace := g, disk, map[], [], [];
    }

    ghost predicate Valid()
      reads this
    {
      && Shaped(g, disk)
      && (forall b :: b in cache ==> |cache[b]| == g.words)
    }

    ghost function Now(phase: Phase): Commit
      requires Shaped(g, disk)
      reads this
    {
      Commit(Decode(g, disk), cache, lh, phase)
    }

    /** The present state is that of `c` after `i` disk writes, and the trace so far agrees. */
    ghost predicate Reached(c: Commit, i: nat)
      requires CommitInv(c) && c.phase == StartPhase(c.lh)
      reads this
    {
      && Valid() && |trace| == i + 1
      && Now(CommitSteps(c, i).phase) == CommitSteps(c, i)
      && (forall k :: 0 <= k <= i ==> Shaped(g, trace[k]) && Decode(g, trace[k]) == CommitSteps(c, k).disk)
    }

    /** write_head: copies the block list into the header buffer word by word and writes it. */
    method WriteHead()
      requires Shaped(g, disk) && |lh| + 1 <= g.words
      modifies this`disk, this`trace
      ensures Shaped(g, disk) && Decode(g, disk) == old(Decode(g, disk)).(head := lh)
      ensures trace == old(trace) + [disk]
    {
      WriteHeadBlock(g, disk, lh);
      hide Decode;
      var buf := disk[g.start];
      buf := buf[0 := |lh|];
      for i := 0 to |lh|
        invariant |buf| == g.words && buf[0] == |lh|
        invariant forall k :: 0 <= k < i ==> buf[k + 1] == lh[k]
        invariant forall k :: i < k < g.words ==> buf[k] == disk[g.start][k]
      {
        buf := buf[i + 1 := lh[i]];
      }
      assert buf == PutHead(disk[g.start], lh);
      disk := disk[g.start := buf];
      trace := trace + [disk];
    }

    /** What bread hands out: the cached buffer if the block is pinned, else the disk block. */
    function BRead(b: nat): Block
      requires b < |disk|
      reads this
    {
      if b in cache then cache[b] else disk[b]
    }

    /** log_write: the size test, then the search for the block in the list, which is extended only
        if the search fails; B_DIRTY pins the buffer. The result is false where the kernel panics. */
    method LogWrite(logsize: nat, b: nat, v: Block) returns (ok: bool)
      modifies this`lh, this`cache
      ensures ok <==> old(|lh|) < logsize && old(|lh|) < g.size - 1
      ensures lh == if ok then Listed(old(lh), b) else old(lh)
      ensures cache == if ok then old(cache)[b := v] else old(cache)
    {
      if |lh| >= logsize || |lh| >= g.size - 1 {
        return false;
      }
      var i := 0;
      while i < |lh| && lh[i] != b
        invariant 0 <= i <= |lh|
        invariant forall k :: 0 <= k < i ==> lh[k] != b
      {
        i := i + 1;
      }
      if i == |lh| {
        lh := lh + [b];
      } else {
        lh := lh[i := b];
      }
      cache := cache[b := v];
      ok := true;
    }

    /** write_log: copies the pinned buffers to the log blocks. */
    method WriteLog(ghost c: Commit)
      requires CommitInv(c) && 0 < |c.lh| && c.phase == StartPhase(c.lh)
      requires lh == c.lh && Reached(c, 0)
      modifies this`disk, this`trace
      ensures Reached(c, |c.lh|)
    {
      hide CommitInv, Decode, ViewAt, CommitSteps;
      StepAt(c, 0);
      var tail := 0;
      while tail < |lh|
        invariant 0 <= tail <= |lh| && lh == c.lh && cache == c.cache
        invariant Reached(c, tail)
      {
        StepAt(c, tail);
        StepAt(c, tail + 1);
        InHome(g, disk, CommitSteps(c, tail), tail);
        var from := BRead(lh[tail]);
        WriteLogBlock(g, disk, tail, from);
        disk := disk[g.start + tail + 1 := from];
        trace := trace + [disk];
        tail := tail + 1;
      }
    }

    /** install_trans: copies the log blocks to their homes; bwrite clears B_DIRTY, which unpins
        the buffer. */
    method InstallTrans(ghost c: Commit)
      requires CommitInv(c) && 0 < |c.lh| && c.phase == StartPhase(c.lh)
      requires lh == c.lh && Reached(c, |c.lh| + 1)
      modifies this`disk, this`cache, this`trace
      ensures Reached(c, 2 * |c.lh| + 1)
    {
      hide CommitInv, Decode, ViewAt, CommitSteps, NextCommit;
      var tail := 0;
      while tail < |lh|
        invariant 0 <= tail <= |lh| && lh == c.lh
        invariant Reached(c, |lh| + 1 + tail)
      {
        InstallStep(g, disk, c, tail);
        disk := disk[lh[tail] := disk[g.start + tail + 1]];
        cache := cache - {lh[tail]};
        trace := trace + [disk];
        tail := tail + 1;
      }
    }

    /** The branch of commit() taken when something is logged. */
    method CommitLogged(ghost c: Commit)
      requires CommitInv(c) && 0 < |c.lh| && c.phase == StartPhase(c.lh)
      requires lh == c.lh && Reached(c, 0)
      modifies this
      ensures Reached(c, 2 * |c.lh| + 2)
    {
      hide CommitInv, Decode, CommitSteps, ViewAt, CanStep, ValidList, Shaped;
      ghost var n := |lh|;
      StepAt(c, 0);
      InHomeAll(g, disk, c);
      WriteLog(c);
      StepAt(c, n);
      StepAt(c, n + 1);
      WriteHead();
      InstallTrans(c);
      StepAt(c, 2 * n + 1);
      StepAt(c, 2 * n + 2);
      lh := [];
      WriteHead();
    }

    /** commit: the disk passes through exactly the states of RedoLog's commit, so by
        CommitIsAtomic a crash at any of them recovers to all of the old or all of the new. */
    method CommitTransaction(ghost c: Commit)
      requires Valid() && CommitInv(Now(Idle)) && c == Now(StartPhase(lh))
      modifies this
      ensures CommitInv(c) && c.phase == StartPhase(c.lh)
      ensures Reached(c, if c.lh == [] then 0 else 2 * |c.lh| + 2)
      ensures lh == [] && cache == map[] && Decode(g, disk).head == []
      ensures Decode(g, disk).home == View(c)
    {
      trace := [disk];
      StartCommitInv(Now(Idle));
      hide Decode, CommitSteps, View, ViewAt;
      CommitIsAtomic(c, 0, [], |lh| + 2);
      StepAt(c, 0);
      if |lh| > 0 {
        CommitLogged(c);
      } else {
        FinishedIsInstalled(c);
      }
    }

    /** read_head: reads the block list off the header word by word. */
    method ReadHead()
      requires Shaped(g, disk)
      modifies this`lh
      ensures lh == Decode(g, disk).head
    {
      var n := disk[g.start][0];
      lh := [];
      for i := 0 to n
        invariant lh == disk[g.start][1..i + 1]
      {
        lh := lh + [disk[g.start][i + 1]];
      }
    }

    /** The disk is that of a recovery of `d` after `i` of its steps, and the trace agrees. */
    ghost predicate RecoveryReached(d: Disk, i: nat)
      requires ValidDisk(d)
      reads this
    {
      && Shaped(g, disk) && Decode(g, disk) == RecoverSteps(d, i).disk && |trace| == i
      && (forall k :: 0 <= k < i ==>
            Shaped(g, trace[k]) && Decode(g, trace[k]) == RecoverSteps(d, k + 1).disk)
    }

    /** install_trans as recovery runs it, with no buffer pinned. */
    method Reinstall(ghost d: Disk)
      requires ValidDisk(d) && lh == d.head && RecoveryReached(d, 1)
      modifies this`disk, this`trace
      ensures RecoveryReached(d, |lh| + 1)
    {
      hide Decode, RecoverSteps, RecoverInv;
      var tail := 0;
      while tail < |lh|
        invariant 0 <= tail <= |lh| && lh == d.head
        invariant RecoveryReached(d, tail + 1)
      {
        RecoverStepAt(d, tail + 1);
        ReinstallAt(g, disk, RecoverSteps(d, tail + 1), tail);
        WriteHomeBlock(g, disk, lh[tail], disk[g.start + tail + 1]);
        disk := disk[lh[tail] := disk[g.start + tail + 1]];
        trace := trace + [disk];
        tail := tail + 1;
      }
    }

    /** recover_from_log: the disk passes through exactly the states of RedoLog's recovery, so by
        RecoveryIsIdempotent a crash at any of them does not change what recovery yields, and ends
        with that on the platter and an empty log. */
    method RecoverFromLog(ghost d: Disk)
      requires Shaped(g, disk) && d == Decode(g, disk) && ValidDisk(d)
      modifies this`disk, this`lh, this`trace
      ensures RecoveryReached(d, |d.head| + 2)
      ensures lh == [] && Decode(g, disk).head == [] && Decode(g, disk).home == Recovered(d)
    {
      hide Decode, RecoverSteps, Recovered, ValidDisk, Shaped;
      ReadHead();
      trace := [disk];
      RecoverStepAt(d, 0);
      assert RecoveryReached(d, 1) by { RecoverStepAt(d, 1); }
      Reinstall(d);
      LastClear(d);
      HasRoom(g, disk);
      lh := [];
      WriteHead();
    }
  }
}
