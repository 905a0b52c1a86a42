/** The redo log of xv6/log.c: the block writes of commit() and of recover_from_log() one at a
    time, and what a recovery started after any of them yields.

    A disk is split into the log header's block list, the log blocks behind it and the home
    blocks; LogDevice.dfy shows how the three lie on a flat disk. */
module RedoLog {
  import opened Common

  type Block = seq<nat>

  datatype Disk = Disk(head: seq<nat>, log: seq<Block>, home: map<nat, Block>)

  /** A block list that log_write could have built for this disk. */
  predicate ValidList(d: Disk, lh: seq<nat>) {
    && |lh| <= |d.log|
    && Distinct(lh)
    && forall k :: 0 <= k < |lh| ==> lh[k] in d.home
  }

  predicate ValidDisk(d: Disk) { ValidList(d, d.head) }

  /** The first position of `b` in `s`, or |s|. */
  function IndexOf(s: seq<nat>, b: nat): (k: nat)
    ensures k <= |s|
    ensures k < |s| ==> s[k] == b
    ensures forall i :: 0 <= i < k ==> s[i] != b
  {
    if s == [] then 0 else if s[0] == b then 0 else 1 + IndexOf(s[1..], b)
  }

  /** What a completed recovery would leave in home block `b`. */
  function RecoveredAt(d: Disk, b: nat): Block
    requires ValidDisk(d) && b in d.home
  {
    var k := IndexOf(d.head, b);
    if k < |d.head| then d.log[k] else d.home[b]
  }

  function Recovered(d: Disk): map<nat, Block>
    requires ValidDisk(d)
  {
    map b | b in d.home :: RecoveredAt(d, b)
  }

  /** log absorption: a block already listed is not listed twice. */
  function Listed(lh: seq<nat>, b: nat): seq<nat> {
    if b in lh then lh else lh + [b]
  }

  // ----- commit(), one disk write per step

  datatype Phase = Idle | WriteLog(i: nat) | WriteHead | Install(i: nat) | EraseHead | Finished

  /** The state commit() works on: the disk, the dirty buffers pinned in the cache, the in-memory
      header and how far commit() has come. */
  datatype Commit = Commit(disk: Disk, cache: map<nat, Block>, lh: seq<nat>, phase: Phase)

  /** What bread of home block `b` returns: the pinned buffer if there is one. */
  function ViewAt(c: Commit, b: nat): Block
    requires b in c.disk.home
  {
    if b in c.cache then c.cache[b] else c.disk.home[b]
  }

  function View(c: Commit): map<nat, Block> {
    map b | b in c.disk.home :: ViewAt(c, b)
  }

  predicate CanStep(c: Commit) {
    && ValidList(c.disk, c.lh)
    && match c.phase
       case Idle => false
       case Finished => false
       case WriteLog(i) => i < |c.lh|
       case Install(i) => i < |c.lh|
       case WriteHead => 0 < |c.lh|
       case EraseHead => true
  }

  /** One bwrite of commit(), with the in-memory changes made next to it. */
  function NextCommit(c: Commit): Commit
    requires CanStep(c)
  {
    match c.phase
    case WriteLog(i) =>
      c.(disk := c.disk.(log := c.disk.log[i := ViewAt(c, c.lh[i])]),
         phase := if i + 1 < |c.lh| then WriteLog(i + 1) else WriteHead)
    case WriteHead =>
      c.(disk := c.disk.(head := c.lh), phase := Install(0))
    case Install(i) =>
      c.(disk := c.disk.(home := c.disk.home[c.lh[i] := c.disk.log[i]]),
         cache := c.cache - {c.lh[i]},
         phase := if i + 1 < |c.lh| then Install(i + 1) else EraseHead)
    case EraseHead =>
      c.(disk := c.disk.(head := []), lh := [], phase := Finished)
  }

  function StartPhase(lh: seq<nat>): Phase {
    if |lh| > 0 then WriteLog(0) else Finished
  }

  /** The pinned buffers are those of the blocks lh[i..]. */
  ghost predicate Pinned(c: Commit, i: nat) {
    forall b :: b in c.cache <==> i <= IndexOf(c.lh, b) < |c.lh|
  }

  /** What holds between any two disk writes of a commit. */
  ghost predicate CommitInv(c: Commit) {
    && ValidDisk(c.disk)
    && ValidList(c.disk, c.lh)
    && match c.phase
    case Idle => c.disk.head == [] && Pinned(c, 0)
    case WriteLog(i) =>
      && i < |c.lh| && c.disk.head == [] && Pinned(c, 0)
      && (forall k :: 0 <= k < i ==> c.disk.log[k] == ViewAt(c, c.lh[k]))
    case WriteHead =>
      && 0 < |c.lh| && c.disk.head == [] && Pinned(c, 0)
      && (forall k :: 0 <= k < |c.lh| ==> c.disk.log[k] == ViewAt(c, c.lh[k]))
    case Install(i) =>
      && i < |c.lh| && c.disk.head == c.lh && Pinned(c, i)
      && (forall k :: 0 <= k < |c.lh| ==> c.disk.log[k] == ViewAt(c, c.lh[k]))
    case EraseHead =>
      && c.disk.head == c.lh && c.cache == map[]
      && (forall k :: 0 <= k < |c.lh| ==> c.disk.log[k] == ViewAt(c, c.lh[k]))
    case Finished => c.disk.head == [] && c.lh == [] && c.cache == map[]
  }

  lemma IndexOfDistinct(s: seq<nat>, k: nat)
    requires Distinct(s) && k < |s|
    ensures IndexOf(s, s[k]) == k
  {
  }

  /** Between two disk writes of commit() the logical contents never change, and what a recovery
      would restore changes only at the write of the header, from the old contents to the new. */
  lemma CommitStepSafe(c: Commit)
    requires CommitInv(c) && CanStep(c)
    ensures CommitInv(NextCommit(c))
    ensures View(NextCommit(c)) == View(c)
    ensures Recovered(NextCommit(c).disk) ==
            if c.phase.WriteHead? then View(c) else Recovered(c.disk)
  {
    hide CommitInv, View, Recovered, NextCommit;
    match c.phase
    case WriteLog(i) => WriteLogSafe(c, i);
    case WriteHead => WriteHeadSafe(c);
    case Install(i) => InstallSafe(c, i);
    case EraseHead => EraseHeadSafe(c);
  }

  lemma WriteLogSafe(c: Commit, i: nat)
    requires CommitInv(c) && CanStep(c) && c.phase == WriteLog(i)
    ensures CommitInv(NextCommit(c))
    ensures View(NextCommit(c)) == View(c)
    ensures Recovered(NextCommit(c).disk) == Recovered(c.disk)
  {
    hide Distinct, Recovered, View;
    var c' := NextCommit(c);
    SameView(c, c');
    InstalledIsHome(c.disk);
    InstalledIsHome(c'.disk);
  }

  lemma SameView(c: Commit, c': Commit)
    requires c'.cache == c.cache && c'.disk.home == c.disk.home
    ensures View(c') == View(c)
  {
  }

  lemma WriteHeadSafe(c: Commit)
    requires CommitInv(c) && CanStep(c) && c.phase.WriteHead?
    ensures CommitInv(NextCommit(c))
    ensures View(NextCommit(c)) == View(c)
    ensures Recovered(NextCommit(c).disk) == View(c)
  {
  }

  lemma InstallSafe(c: Commit, i: nat)
    requires CommitInv(c) && CanStep(c) && c.phase == Install(i)
    ensures CommitInv(NextCommit(c))
    ensures View(NextCommit(c)) == View(c)
    ensures Recovered(NextCommit(c).disk) == Recovered(c.disk)
  {
    hide Recovered, View;
    var c' := NextCommit(c);
    IndexOfDistinct(c.lh, i);
    ReinstallSafe(c.disk, i);
    InstallKeepsView(c, i);
    forall k | 0 <= k < |c.lh| ensures c'.disk.log[k] == ViewAt(c', c.lh[k]) {
      IndexOfDistinct(c.lh, k);
    }
  }

  lemma InstallKeepsView(c: Commit, i: nat)
    requires CommitInv(c) && CanStep(c) && c.phase == Install(i)
    ensures Pinned(NextCommit(c), i + 1)
    ensures View(NextCommit(c)) == View(c)
  {
    hide Distinct, Recovered, View, IndexOf;
    var c' := NextCommit(c);
    UnpinFirst(c, c', i);
    UnpinnedView(c, c', c.lh[i], c.disk.log[i]);
  }

  lemma UnpinFirst(c: Commit, c': Commit, i: nat)
    requires Pinned(c, i) && Distinct(c.lh) && i < |c.lh|
    requires c'.lh == c.lh && c'.cache == c.cache - {c.lh[i]}
    ensures Pinned(c', i + 1)
  {
    IndexOfDistinct(c.lh, i);
    hide IndexOf, Distinct;
    forall b ensures b in c'.cache <==> i + 1 <= IndexOf(c.lh, b) < |c.lh| {
      assert b in c'.cache <==> b in c.cache && b != c.lh[i];
    }
  }

  /** A buffer whose contents are home can be dropped. */
  lemma UnpinnedView(c: Commit, c': Commit, x: nat, v: Block)
    requires x in c.disk.home && v == ViewAt(c, x)
    requires c'.disk.home == c.disk.home[x := v] && c'.cache == c.cache - {x}
    ensures View(c') == View(c)
  {
    assert c'.disk.home.Keys == c.disk.home.Keys;
    forall b | b in c.disk.home ensures ViewAt(c', b) == ViewAt(c, b) {
      if b == x {
        assert b !in c'.cache && c'.disk.home[b] == v;
      } else {
        assert (b in c'.cache <==> b in c.cache) && c'.disk.home[b] == c.disk.home[b];
      }
    }
  }

  lemma EraseHeadSafe(c: Commit)
    requires CommitInv(c) && CanStep(c) && c.phase.EraseHead?
    ensures CommitInv(NextCommit(c))
    ensures View(NextCommit(c)) == View(c)
    ensures Recovered(NextCommit(c).disk) == Recovered(c.disk)
  {
    InstalledIsHome(c.disk);
    InstalledIsHome(NextCommit(c).disk);
  }

  lemma StartCommitInv(c: Commit)
    requires CommitInv(c) && c.phase.Idle?
    ensures CommitInv(c.(phase := StartPhase(c.lh)))
  {
  }

  /** When every log block agrees with its home block, recovery has nothing to change. */
  lemma InstalledIsHome(d: Disk)
    requires ValidDisk(d)
    requires forall k :: 0 <= k < |d.head| ==> d.log[k] == d.home[d.head[k]]
    ensures Recovered(d) == d.home
  {
    forall b | b in d.home ensures RecoveredAt(d, b) == d.home[b] {
      var k := IndexOf(d.head, b);
      assert k < |d.head| ==> d.log[k] == d.home[d.head[k]];
    }
  }

  // ----- recover_from_log(), one disk write per step

  datatype RecoverPhase = ReadHead | Reinstall(i: nat) | Clear | Up

  datatype Recovery = Recovery(disk: Disk, lh: seq<nat>, phase: RecoverPhase)

  predicate RecoverInv(r: Recovery) {
    && ValidDisk(r.disk)
    && (r.phase.Reinstall? || r.phase.Clear? ==> r.disk.head == r.lh)
    && (r.phase.Reinstall? ==> r.phase.i < |r.lh|)
    && (forall k :: 0 <= k < |r.lh| && (r.phase.Clear? || (r.phase.Reinstall? && k < r.phase.i)) ==>
          k < |r.disk.log| && r.lh[k] in r.disk.home && r.disk.log[k] == r.disk.home[r.lh[k]])
    && (r.phase.Up? ==> r.disk.head == [] && r.lh == [])
  }

  function NextRecover(r: Recovery): Recovery
    requires RecoverInv(r) && !r.phase.Up?
  {
    match r.phase
    case ReadHead =>
      r.(lh := r.disk.head, phase := if |r.disk.head| > 0 then Reinstall(0) else Clear)
    case Reinstall(i) =>
      r.(disk := r.disk.(home := r.disk.home[r.lh[i] := r.disk.log[i]]),
         phase := if i + 1 < |r.lh| then Reinstall(i + 1) else Clear)
    case Clear =>
      r.(disk := r.disk.(head := []), lh := [], phase := Up)
  }

  /** No step of recovery changes what recovery yields. */
  lemma RecoverStepSafe(r: Recovery)
    requires RecoverInv(r) && !r.phase.Up?
    ensures RecoverInv(NextRecover(r))
    ensures Recovered(NextRecover(r).disk) == Recovered(r.disk)
  {
    match r.phase
    case ReadHead =>
    case Reinstall(i) => ReinstallSafe(r.disk, i);
    case Clear =>
      InstalledIsHome(r.disk);
      InstalledIsHome(r.disk.(head := []));
  }

  lemma ReinstallSafe(d: Disk, i: nat)
    requires ValidDisk(d) && i < |d.head|
    ensures var d' := d.(home := d.home[d.head[i] := d.log[i]]);
            ValidDisk(d') && Recovered(d') == Recovered(d)
  {
    var d' := d.(home := d.home[d.head[i] := d.log[i]]);
    assert d'.home.Keys == d.home.Keys;
    IndexOfDistinct(d.head, i);
  }

  /** `n` steps of a recovery started on disk `d`; it stays put once it is up. */
  function RecoverSteps(d: Disk, n: nat): (r: Recovery)
    requires ValidDisk(d)
    ensures RecoverInv(r)
  {
    if n == 0 then Recovery(d, [], ReadHead)
    else
      var r := RecoverSteps(d, n - 1);
      if r.phase.Up? then r else RecoverStepSafe(r); NextRecover(r)
  }

  /** The disk after recovery attempts that crashed after crashes[0], crashes[1], ... steps. */
  function CrashyRecovery(d: Disk, crashes: seq<nat>): (d': Disk)
    requires ValidDisk(d)
    ensures ValidDisk(d')
  {
    if crashes == [] then d
    else RecoverSteps(CrashyRecovery(d, crashes[..|crashes| - 1]), crashes[|crashes| - 1]).disk
  }

  lemma {:induction false} RecoverStepsKeep(d: Disk, n: nat)
    requires ValidDisk(d)
    ensures Recovered(RecoverSteps(d, n).disk) == Recovered(d)
  {
    if n > 0 {
      RecoverStepsKeep(d, n - 1);
      var r := RecoverSteps(d, n - 1);
      if !r.phase.Up? {
        RecoverStepSafe(r);
      }
    }
  }

  /** A recovery that is not interrupted is up after |head| + 2 steps. */
  lemma {:induction false} RecoverStepsProgress(d: Disk, n: nat)
    requires ValidDisk(d)
    ensures var h, r := d.head, RecoverSteps(d, n);
            && (0 < n < |h| + 2 ==> r.lh == h)
            && r.phase == if n == 0 then ReadHead
                          else if n <= |h| then Reinstall(n - 1)
                          else if n == |h| + 1 then Clear
                          else Up
  {
    hide ValidDisk, RecoverInv;
    if n > 0 {
      RecoverStepsProgress(d, n - 1);
    }
  }

  lemma {:induction false} CrashyRecoveryKeeps(d: Disk, crashes: seq<nat>)
    requires ValidDisk(d)
    ensures Recovered(CrashyRecovery(d, crashes)) == Recovered(d)
    ensures |CrashyRecovery(d, crashes).head| <= |d.head|
  {
    if crashes != [] {
      var d1 := CrashyRecovery(d, crashes[..|crashes| - 1]);
      CrashyRecoveryKeeps(d, crashes[..|crashes| - 1]);
      RecoverStepsKeep(d1, crashes[|crashes| - 1]);
      RecoverStepsProgress(d1, crashes[|crashes| - 1]);
      HeadShrinks(d1, crashes[|crashes| - 1]);
    }
  }

  lemma {:induction false} HeadShrinks(d: Disk, n: nat)
    requires ValidDisk(d)
    ensures |RecoverSteps(d, n).disk.head| <= |d.head|
  {
    if n > 0 {
      HeadShrinks(d, n - 1);
    }
  }

  /** Any number of crashes during recovery, at any steps, followed by one recovery that
      finishes: the home blocks are what the first recovery would have left. */
  lemma RecoveryIsIdempotent(d: Disk, crashes: seq<nat>, n: nat)
    requires ValidDisk(d) && n >= |d.head| + 2
    ensures var r := RecoverSteps(CrashyRecovery(d, crashes), n);
            r.phase.Up? && r.disk.home == Recovered(d)
  {
    var d' := CrashyRecovery(d, crashes);
    CrashyRecoveryKeeps(d, crashes);
    RecoverStepsKeep(d', n);
    RecoverStepsProgress(d', n);
    InstalledIsHome(RecoverSteps(d', n).disk);
  }

  // ----- a whole commit

  /** The state of a commit after `i` disk writes. */
  function CommitSteps(c: Commit, i: nat): (r: Commit)
    requires CommitInv(c) && c.phase == StartPhase(c.lh)
    ensures CommitInv(r)
  {
    if i == 0 then c
    else
      var r := CommitSteps(c, i - 1);
      if CanStep(r) then CommitStepSafe(r); NextCommit(r) else r
  }

  /** Where a commit of `n` blocks stands after `i` writes. */
  function Position(n: nat, i: nat): Phase {
    if n == 0 || i > 2 * n + 1 then Finished
    else if i < n then WriteLog(i)
    else if i == n then WriteHead
    else if i <= 2 * n then Install(i - n - 1)
    else EraseHead
  }

  lemma CommitNeverStuck(c: Commit)
    requires CommitInv(c)
    ensures CanStep(c) <==> !c.phase.Idle? && !c.phase.Finished?
  {
  }

  lemma {:induction false} CommitPhases(c: Commit, i: nat)
    requires CommitInv(c) && c.phase == StartPhase(c.lh)
    ensures CommitSteps(c, i).phase == Position(|c.lh|, i)
    ensures !CommitSteps(c, i).phase.Finished? ==> CommitSteps(c, i).lh == c.lh
  {
    hide CommitInv, ViewAt;
    if i > 0 {
      CommitPhases(c, i - 1);
      CommitNeverStuck(CommitSteps(c, i - 1));
    }
  }

  lemma {:induction false} CommitProgress(c: Commit, i: nat)
    requires CommitInv(c) && c.phase == StartPhase(c.lh)
    ensures View(CommitSteps(c, i)) == View(c)
    ensures Recovered(CommitSteps(c, i).disk) == if i <= |c.lh| then Recovered(c.disk) else View(c)
  {
    hide CommitInv, Recovered, View, NextCommit;
    if i > 0 {
      CommitProgress(c, i - 1);
      CommitPhases(c, i - 1);
      var r := CommitSteps(c, i - 1);
      CommitNeverStuck(r);
      if CanStep(r) {
        CommitStepSafe(r);
      }
    }
    if c.lh == [] {
      FinishedIsInstalled(c);
    }
  }

  lemma FinishedIsInstalled(c: Commit)
    requires CommitInv(c) && c.phase.Finished?
    ensures View(c) == c.disk.home == Recovered(c.disk)
  {
    InstalledIsHome(c.disk);
  }

  /** Crash commit() after `i` disk writes, crash recovery any number of times anywhere, then let
      one recovery finish: the home blocks are the old ones if the header had not been written
      (i <= |lh|) and the new ones if it had. */
  lemma CommitIsAtomic(c: Commit, i: nat, crashes: seq<nat>, n: nat)
    requires CommitInv(c) && c.phase == StartPhase(c.lh)
    requires n >= |c.lh| + 2
    ensures var r := RecoverSteps(CrashyRecovery(CommitSteps(c, i).disk, crashes), n);
            && r.phase.Up?
            && r.disk.home == if i <= |c.lh| then c.disk.home else View(c)
    ensures CommitSteps(c, 2 * |c.lh| + 2).phase.Finished?
    ensures CommitSteps(c, 2 * |c.lh| + 2).disk.home == View(c)
  {
    hide RecoverSteps, CrashyRecovery, CommitSteps, View, Recovered;
    CommitProgress(c, i);
    CommitProgress(c, 2 * |c.lh| + 2);
    CommitPhases(c, i);
    CommitPhases(c, 2 * |c.lh| + 2);
    InstalledIsHome(c.disk);
    FinishedIsInstalled(CommitSteps(c, 2 * |c.lh| + 2));
    RecoveryIsIdempotent(CommitSteps(c, i).disk, crashes, n);
  }
}
