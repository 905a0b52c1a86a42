/** The buffer cache of xv6/bio.c over the in-memory disk of xv6/memide.c. Buffers are numbered
    0..NBUF-1 and the list head is node NBUF; `next` and `prev` are relinked in place. Each method is
    one critical section of bcache.lock or of a buffer's sleep-lock, so a run of the kernel is any
    sequence of calls by any processes and what Valid() states holds in every reachable state. */
module BufferCache {
  import opened Common

  type Data = seq<nat>

  datatype Buf = Buf(dev: nat, blockno: nat, valid: bool, dirty: bool, refcnt: nat,
                     locked: bool, pid: nat, data: Data)

  // ----- the doubly linked ring

  /** Following `nx` from s[0] visits s and returns; `pv` goes the other way. */
  ghost predicate Ring(nx: seq<nat>, pv: seq<nat>, s: seq<nat>) {
    && |nx| == |pv| && 0 < |s| && Distinct(s)
    && (forall i :: 0 <= i < |s| ==> s[i] < |nx|)
    && (forall i :: 0 <= i < |s| - 1 ==> nx[s[i]] == s[i + 1])
    && (forall i :: 0 < i < |s| ==> pv[s[i]] == s[i - 1])
    && nx[s[|s| - 1]] == s[0] && pv[s[0]] == s[|s| - 1]
  }

  /** The two assignments that take node s[k] out of the ring. */
  lemma Unlink(nx: seq<nat>, pv: seq<nat>, s: seq<nat>, k: nat)
    requires Ring(nx, pv, s) && 0 < k < |s|
    ensures nx[s[k]] < |nx| && pv[s[k]] < |nx|
    ensures var pv' := pv[nx[s[k]] := pv[s[k]]]; var nx' := nx[pv[s[k]] := nx[s[k]]];
            Ring(nx', pv', RemoveAt(s, k))
  {
    var after := if k + 1 < |s| then s[k + 1] else s[0];
    assert nx[s[k]] == after && pv[s[k]] == s[k - 1];
    var t := RemoveAt(s, k);
    var pv', nx' := pv[after := s[k - 1]], nx[s[k - 1] := after];
    assert Distinct(t);
    forall i | 0 <= i < |t| - 1 ensures nx'[t[i]] == t[i + 1] { }
    forall i | 0 < i < |t| ensures pv'[t[i]] == t[i - 1] { }
  }

  /** The four assignments that put a node outside the ring behind the head. */
  lemma Link(nx: seq<nat>, pv: seq<nat>, s: seq<nat>, b: nat)
    requires Ring(nx, pv, s) && b < |nx| && b !in s
    ensures nx[s[0]] < |nx|
    ensures var pv' := pv[b := s[0]][nx[s[0]] := b]; var nx' := nx[b := nx[s[0]]][s[0] := b];
            Ring(nx', pv', InsertAt(s, 1, b))
  {
    var after := if |s| > 1 then s[1] else s[0];
    assert nx[s[0]] == after;
    var t := InsertAt(s, 1, b);
    var pv', nx' := pv[b := s[0]][after := b], nx[b := after][s[0] := b];
    assert Distinct(t);
    forall i | 0 <= i < |t| - 1 ensures nx'[t[i]] == t[i + 1] { }
    forall i | 0 < i < |t| ensures pv'[t[i]] == t[i - 1] { }
  }

  // ----- what the cache promises

  datatype Stage = Waiting | Holding | Leaving

  /** A reference taken by bget for block (dev, blockno) and not yet dropped by brelse. */
  datatype Ref = Ref(stage: Stage, dev: nat, blockno: nat)

  predicate Eligible(b: Buf) { b.refcnt == 0 && !b.dirty }

  predicate Names(b: Buf, dev: nat, blockno: nat) { b.dev == dev && b.blockno == blockno }

  predicate Agrees(b: Buf, disk: seq<Data>) {
    b.dev == 1 && b.blockno < |disk| && b.data == disk[b.blockno]
  }

  ghost predicate RefsOk(b: Buf, users: map<nat, Ref>) {
    && b.refcnt == |users|
    && (b.locked ==> b.pid in users)
    && (forall p :: p in users ==> Names(b, users[p].dev, users[p].blockno))
    && (forall p :: p in users ==> (users[p].stage.Holding? <==> b.locked && b.pid == p))
  }

  /** Reference counts count references, a reference names the buffer's block, no block of a real
      device is cached twice, and a valid clean buffer nobody has locked equals its disk block. */
  ghost predicate CacheInv(bufs: seq<Buf>, users: seq<map<nat, Ref>>, disk: seq<Data>) {
    && |users| == |bufs|
    && (forall b :: 0 <= b < |bufs| ==> RefsOk(bufs[b], users[b]))
    && (forall b, c :: 0 <= b < c < |bufs| && bufs[b].dev != 0 ==> !Names(bufs[b], bufs[c].dev, bufs[c].blockno))
    && (forall b :: 0 <= b < |bufs| && bufs[b].valid && !bufs[b].dirty && !bufs[b].locked ==> Agrees(bufs[b], disk))
    && (forall b :: 0 <= b < |bufs| && bufs[b].dirty ==> bufs[b].dev == 1 && bufs[b].blockno < |disk|)
  }

  function With(users: map<nat, Ref>, p: nat, r: Ref): map<nat, Ref> { users[p := r] }

  lemma WithSize(users: map<nat, Ref>, p: nat, r: Ref)
    ensures |With(users, p, r)| == if p in users then |users| else |users| + 1
  {
    assert With(users, p, r).Keys == users.Keys + {p};
  }

  /** One buffer and its references change, keeping its block or taking one not cached. */
  lemma UpdateOne(bufs: seq<Buf>, users: seq<map<nat, Ref>>, disk: seq<Data>,
                  b: nat, buf: Buf, us: map<nat, Ref>)
    requires CacheInv(bufs, users, disk) && b < |bufs| && RefsOk(buf, us)
    requires Names(buf, bufs[b].dev, bufs[b].blockno) ||
             forall c :: 0 <= c < |bufs| ==> !Names(bufs[c], buf.dev, buf.blockno)
    requires buf.valid && !buf.dirty && !buf.locked ==> Agrees(buf, disk)
    requires buf.dirty ==> buf.dev == 1 && buf.blockno < |disk|
    ensures CacheInv(bufs[b := buf], users[b := us], disk)
  {
    hide RefsOk;
  }

  /** Writing a disk block leaves the buffers of other blocks in agreement. */
  lemma WriteThrough(bufs: seq<Buf>, users: seq<map<nat, Ref>>, disk: seq<Data>, b: nat, v: Data)
    requires CacheInv(bufs, users, disk) && b < |bufs| && bufs[b].locked
    requires bufs[b].dev == 1 && bufs[b].blockno < |disk|
    ensures CacheInv(bufs, users, disk[bufs[b].blockno := v])
  {
    hide RefsOk;
    forall c | 0 <= c < |bufs| && bufs[c].valid && !bufs[c].dirty && !bufs[c].locked
      ensures Agrees(bufs[c], disk[bufs[b].blockno := v])
    {
      assert c != b;
      assert !Names(bufs[c], bufs[b].dev, bufs[b].blockno);
    }
  }

  lemma TakeRef(bufs: seq<Buf>, users: seq<map<nat, Ref>>, disk: seq<Data>, b: nat, p: nat, dev: nat, blockno: nat)
    requires CacheInv(bufs, users, disk) && b < |bufs| && p !in users[b] && Names(bufs[b], dev, blockno)
    ensures CacheInv(bufs[b := bufs[b].(refcnt := bufs[b].refcnt + 1)],
                     users[b := With(users[b], p, Ref(Waiting, dev, blockno))], disk)
  {
    WithSize(users[b], p, Ref(Waiting, dev, blockno));
    UpdateOne(bufs, users, disk, b, bufs[b].(refcnt := bufs[b].refcnt + 1),
              With(users[b], p, Ref(Waiting, dev, blockno)));
  }

  lemma Recycle(bufs: seq<Buf>, users: seq<map<nat, Ref>>, disk: seq<Data>, b: nat, p: nat, dev: nat, blockno: nat)
    requires CacheInv(bufs, users, disk) && b < |bufs| && Eligible(bufs[b])
    requires forall c :: 0 <= c < |bufs| ==> !Names(bufs[c], dev, blockno)
    ensures CacheInv(bufs[b := bufs[b].(dev := dev, blockno := blockno, valid := false, dirty := false, refcnt := 1)],
                     users[b := With(users[b], p, Ref(Waiting, dev, blockno))], disk)
  {
    assert users[b] == map[];
    WithSize(users[b], p, Ref(Waiting, dev, blockno));
    UpdateOne(bufs, users, disk, b,
              bufs[b].(dev := dev, blockno := blockno, valid := false, dirty := false, refcnt := 1),
              With(users[b], p, Ref(Waiting, dev, blockno)));
  }

  lemma DropRef(bufs: seq<Buf>, users: seq<map<nat, Ref>>, disk: seq<Data>, b: nat, p: nat)
    requires CacheInv(bufs, users, disk) && b < |bufs| && p in users[b] && !users[b][p].stage.Holding?
    ensures bufs[b].refcnt > 0
    ensures CacheInv(bufs[b := bufs[b].(refcnt := bufs[b].refcnt - 1)], users[b := users[b] - {p}], disk)
  {
    assert (users[b] - {p}).Keys == users[b].Keys - {p};
    UpdateOne(bufs, users, disk, b, bufs[b].(refcnt := bufs[b].refcnt - 1), users[b] - {p});
  }

  /** The holder changes its buffer, or the lock changes hands. */
  lemma Relock(bufs: seq<Buf>, users: seq<map<nat, Ref>>, disk: seq<Data>, b: nat, p: nat, buf: Buf, stage: Stage)
    requires CacheInv(bufs, users, disk) && b < |bufs| && p in users[b]
    requires buf.refcnt == bufs[b].refcnt && Names(buf, bufs[b].dev, bufs[b].blockno)
    requires bufs[b].locked ==> bufs[b].pid == p
    requires buf.locked ==> buf.pid == p
    requires stage.Holding? <==> buf.locked
    requires buf.valid && !buf.dirty && !buf.locked ==> Agrees(buf, disk)
    requires buf.dirty ==> buf.dev == 1 && buf.blockno < |disk|
    ensures CacheInv(bufs[b := buf], users[b := With(users[b], p, users[b][p].(stage := stage))], disk)
  {
    var us := With(users[b], p, users[b][p].(stage := stage));
    WithSize(users[b], p, users[b][p].(stage := stage));
    UpdateOne(bufs, users, disk, b, buf, us);
  }

  lemma CleanAgrees(bufs: seq<Buf>, users: seq<map<nat, Ref>>, disk: seq<Data>, b: nat)
    requires CacheInv(bufs, users, disk) && b < |bufs| && bufs[b].valid && !bufs[b].dirty && !bufs[b].locked
    ensures Agrees(bufs[b], disk)
  {
  }

  lemma EligibleIsFree(bufs: seq<Buf>, users: seq<map<nat, Ref>>, disk: seq<Data>, b: nat)
    requires CacheInv(bufs, users, disk) && b < |bufs| && Eligible(bufs[b])
    ensures !bufs[b].locked
  {
    assert RefsOk(bufs[b], users[b]);
  }

  // ----- what a block holds

  predicate DirtyFor(b: Buf, k: nat) { b.dirty && b.dev == 1 && b.blockno == k }

  /** What a block holds for its readers: the contents of its buffer if that is dirty, else the disk's. */
  ghost function Contents(bufs: seq<Buf>, disk: seq<Data>, k: nat): Data
    requires k < |disk|
  {
    if exists b :: 0 <= b < |bufs| && DirtyFor(bufs[b], k) then
      var b :| 0 <= b < |bufs| && DirtyFor(bufs[b], k);
      bufs[b].data
    else disk[k]
  }

  ghost predicate SameContents(bufs: seq<Buf>, disk: seq<Data>, bufs': seq<Buf>, disk': seq<Data>) {
    |disk'| == |disk| && forall k :: 0 <= k < |disk| ==> Contents(bufs', disk', k) == Contents(bufs, disk, k)
  }

  /** Block x holds v now, and every other block what it held. */
  ghost predicate NewContents(bufs: seq<Buf>, disk: seq<Data>, bufs': seq<Buf>, disk': seq<Data>, x: nat, v: Data) {
    |disk'| == |disk| && forall k :: 0 <= k < |disk| ==>
      Contents(bufs', disk', k) == if k == x then v else Contents(bufs, disk, k)
  }

  lemma SameThen(bufs: seq<Buf>, disk: seq<Data>, bufs1: seq<Buf>, disk1: seq<Data>, bufs2: seq<Buf>, disk2: seq<Data>)
    requires SameContents(bufs, disk, bufs1, disk1) && SameContents(bufs1, disk1, bufs2, disk2)
    ensures SameContents(bufs, disk, bufs2, disk2)
  {
  }

  lemma ContentsOf(bufs: seq<Buf>, users: seq<map<nat, Ref>>, disk: seq<Data>, b: nat, k: nat)
    requires CacheInv(bufs, users, disk) && b < |bufs| && k < |disk| && Names(bufs[b], 1, k)
    ensures Contents(bufs, disk, k) == if bufs[b].dirty then bufs[b].data else disk[k]
  {
    hide RefsOk, Agrees;
    forall c | 0 <= c < |bufs| && c != b ensures !DirtyFor(bufs[c], k) {
      var x, y := if c < b then c else b, if c < b then b else c;
      assert !Names(bufs[x], bufs[y].dev, bufs[y].blockno);
    }
  }

  /** One buffer changes, which is not dirty for block k before or after. */
  lemma ContentsElsewhere(bufs: seq<Buf>, users: seq<map<nat, Ref>>, disk: seq<Data>,
                          bufs': seq<Buf>, users': seq<map<nat, Ref>>, disk': seq<Data>, b: nat, k: nat)
    requires CacheInv(bufs, users, disk) && CacheInv(bufs', users', disk') && b < |bufs| == |bufs'|
    requires bufs' == bufs[b := bufs'[b]] && !DirtyFor(bufs[b], k) && !DirtyFor(bufs'[b], k)
    requires k < |disk| == |disk'| && disk'[k] == disk[k]
    ensures Contents(bufs', disk', k) == Contents(bufs, disk, k)
  {
    hide CacheInv;
    if c :| 0 <= c < |bufs| && DirtyFor(bufs[c], k) {
      assert bufs'[c] == bufs[c];
      ContentsOf(bufs, users, disk, c, k);
      ContentsOf(bufs', users', disk', c, k);
    }
  }

  /** A change of a buffer and its block on disk that leaves the block's contents, if it is dirty or was. */
  lemma {:induction false} ContentsKept(bufs: seq<Buf>, users: seq<map<nat, Ref>>, disk: seq<Data>,
                                        bufs': seq<Buf>, users': seq<map<nat, Ref>>, disk': seq<Data>, b: nat)
    requires CacheInv(bufs, users, disk) && CacheInv(bufs', users', disk') && b < |bufs| == |bufs'|
    requires bufs' == bufs[b := bufs'[b]] && |disk'| == |disk|
    requires forall k :: 0 <= k < |disk| && disk'[k] != disk[k] ==> DirtyFor(bufs[b], k)
    requires bufs'[b].dirty ==> bufs[b].dirty
    requires bufs[b].dirty ==> Names(bufs'[b], bufs[b].dev, bufs[b].blockno)
    requires bufs[b].dirty ==> bufs[b].data == if bufs'[b].dirty then bufs'[b].data else disk'[bufs[b].blockno]
    ensures SameContents(bufs, disk, bufs', disk')
  {
    hide CacheInv;
    forall k | 0 <= k < |disk| ensures Contents(bufs', disk', k) == Contents(bufs, disk, k) {
      if DirtyFor(bufs[b], k) {
        ContentsOf(bufs, users, disk, b, k);
        ContentsOf(bufs', users', disk', b, k);
      } else {
        ContentsElsewhere(bufs, users, disk, bufs', users', disk', b, k);
      }
    }
  }

  /** A store into a buffer that is dirty afterwards. */
  lemma {:induction false} ContentsStored(bufs: seq<Buf>, users: seq<map<nat, Ref>>, disk: seq<Data>,
                                          bufs': seq<Buf>, users': seq<map<nat, Ref>>, b: nat)
    requires CacheInv(bufs, users, disk) && CacheInv(bufs', users', disk) && b < |bufs| == |bufs'|
    requires bufs' == bufs[b := bufs'[b]] && bufs'[b].dirty && Names(bufs[b], bufs'[b].dev, bufs'[b].blockno)
    ensures NewContents(bufs, disk, bufs', disk, bufs'[b].blockno, bufs'[b].data)
  {
    forall k | 0 <= k < |disk|
      ensures Contents(bufs', disk, k) == if k == bufs'[b].blockno then bufs'[b].data else Contents(bufs, disk, k)
    {
      if k == bufs'[b].blockno {
        ContentsOf(bufs', users', disk, b, k);
      } else {
        ContentsElsewhere(bufs, users, disk, bufs', users', disk, b, k);
      }
    }
  }

  /** Moving the k-th buffer to the front with the newest stamp keeps the list by release time. */
  lemma ReleaseOrder(order: seq<nat>, stamp: seq<nat>, clock: nat, k: nat)
    requires ByRelease(order, stamp, clock) && k < |order| && Distinct(order)
    ensures ByRelease([order[k]] + RemoveAt(order, k), stamp[order[k] := clock], clock + 1)
  {
  }

  // ----- when a buffer can be recycled

  /** How many of the first n buffers are referenced without being dirty. */
  function HeldCount(bufs: seq<Buf>, n: nat): (r: nat)
    requires n <= |bufs|
  {
    if n == 0 then 0 else HeldCount(bufs, n - 1) + if !bufs[n - 1].dirty && bufs[n - 1].refcnt > 0 then 1 else 0
  }

  /** How many of the first n buffers are dirty. */
  function DirtyCount(bufs: seq<Buf>, n: nat): (r: nat)
    requires n <= |bufs|
  {
    if n == 0 then 0 else DirtyCount(bufs, n - 1) + if bufs[n - 1].dirty then 1 else 0
  }

  /** The blocks in dirty buffers among the first n. */
  function DirtyBlocks(bufs: seq<Buf>, n: nat): (r: set<nat>)
    requires n <= |bufs|
  {
    if n == 0 then {} else DirtyBlocks(bufs, n - 1) + if bufs[n - 1].dirty then {bufs[n - 1].blockno} else {}
  }

  lemma {:induction false} NotDirty(bufs: seq<Buf>, n: nat, x: nat)
    requires n <= |bufs| && forall b :: 0 <= b < n && bufs[b].dirty ==> bufs[b].blockno != x
    ensures x !in DirtyBlocks(bufs, n)
  {
    if n == 0 {
    } else {
      NotDirty(bufs, n - 1, x);
    }
  }

  /** A block is in one buffer. */
  lemma {:induction false} DirtyOnce(bufs: seq<Buf>, users: seq<map<nat, Ref>>, disk: seq<Data>, n: nat)
    requires CacheInv(bufs, users, disk) && n < |bufs| && bufs[n].dirty
    ensures bufs[n].blockno !in DirtyBlocks(bufs, n)
  {
    hide RefsOk, Agrees, DirtyBlocks;
    forall b | 0 <= b < n && bufs[b].dirty ensures bufs[b].blockno != bufs[n].blockno {
      assert !Names(bufs[b], bufs[n].dev, bufs[n].blockno);
    }
    NotDirty(bufs, n, bufs[n].blockno);
  }

  lemma {:induction false} DirtySize(bufs: seq<Buf>, users: seq<map<nat, Ref>>, disk: seq<Data>, n: nat)
    requires CacheInv(bufs, users, disk) && n <= |bufs|
    ensures |DirtyBlocks(bufs, n)| == DirtyCount(bufs, n)
  {
    hide CacheInv;
    if n == 0 {
    } else {
      DirtySize(bufs, users, disk, n - 1);
      if bufs[n - 1].dirty { DirtyOnce(bufs, users, disk, n - 1); }
    }
  }

  lemma {:induction false} BusyCount(bufs: seq<Buf>, n: nat)
    requires n <= |bufs|
    ensures var busy := DirtyCount(bufs, n) + HeldCount(bufs, n);
            busy <= n && (busy == n <==> forall b :: 0 <= b < n ==> !Eligible(bufs[b]))
  {
    if n == 0 {
    } else {
      BusyCount(bufs, n - 1);
    }
  }

  /** While the blocks that the log lists are the dirty ones, bget finds a buffer to recycle if and only
      if there are more buffers than listed blocks and buffers held for other blocks. */
  lemma {:induction false} VictimExactlyWhen(bufs: seq<Buf>, users: seq<map<nat, Ref>>, disk: seq<Data>,
                                             listed: set<nat>)
    requires CacheInv(bufs, users, disk) && DirtyBlocks(bufs, |bufs|) == listed
    ensures (exists b :: 0 <= b < |bufs| && Eligible(bufs[b])) <==> |bufs| > |listed| + HeldCount(bufs, |bufs|)
  {
    hide CacheInv, DirtyBlocks, DirtyCount, HeldCount;
    DirtySize(bufs, users, disk, |bufs|);
    BusyCount(bufs, |bufs|);
  }

  lemma RingFacts(nx: seq<nat>, pv: seq<nat>, s: seq<nat>)
    requires Ring(nx, pv, s)
    ensures Distinct(s) && Distinct(s[1..])
    ensures forall k :: 0 < k < |s| ==> s[k] !in RemoveAt(s, k)
  {
    forall k | 0 < k < |s| ensures s[k] !in RemoveAt(s, k) {
      var t := RemoveAt(s, k);
      forall i | 0 <= i < |t| ensures t[i] != s[k] { }
    }
  }

  lemma MovedFirst(n: nat, order: seq<nat>, k: nat)
    requires k < |order|
    ensures InsertAt(RemoveAt([n] + order, k + 1), 1, order[k]) == [n] + ([order[k]] + RemoveAt(order, k))
  {
  }

  /** The list runs from the most to the least recently released buffer. */
  predicate ByRelease(order: seq<nat>, stamp: seq<nat>, clock: nat) {
    && |order| == |stamp|
    && (forall i :: 0 <= i < |order| ==> order[i] < |stamp| && stamp[order[i]] < clock)
    && (forall i, j :: 0 <= i < j < |order| ==> stamp[order[i]] > stamp[order[j]])
  }

  /** The relinking that binit and brelse share: node `b` goes behind the head. */
  method LinkFirst(next: array<nat>, prev: array<nat>, ghost s: seq<nat>, b: nat)
    requires next != prev && Ring(next[..], prev[..], s) && b < next.Length && b !in s
    requires s[0] == next.Length - 1
    modifies next, prev
    ensures Ring(next[..], prev[..], InsertAt(s, 1, b))
  {
    Link(next[..], prev[..], s, b);
    hide Ring;
    var head := next.Length - 1;
    next[b] := next[head];
    prev[b] := head;
    prev[next[head]] := b;
    next[head] := b;
    assert next[..] == old(next[..])[b := old(next[head])][head := b];
    assert prev[..] == old(prev[..])[b := head][old(next[head]) := b];
  }

  /** The relinking of brelse that takes node s[k] out. */
  method UnlinkNode(next: array<nat>, prev: array<nat>, ghost s: seq<nat>, ghost k: nat, b: nat)
    requires next != prev && Ring(next[..], prev[..], s) && 0 < k < |s| && s[k] == b
    modifies next, prev
    ensures Ring(next[..], prev[..], RemoveAt(s, k))
  {
    Unlink(next[..], prev[..], s, k);
    assert b < next.Length == prev.Length;
    hide Ring;
    prev[next[b]] := prev[b];
    next[prev[b]] := next[b];
    assert prev[..] == old(prev[..])[old(next[b]) := old(prev[b])];
    assert next[..] == old(next[..])[old(prev[b]) := old(next[b])];
  }

  function Descending(n: nat): (s: seq<nat>)
    ensures |s| == n && forall i :: 0 <= i < n ==> s[i] == n - 1 - i
  {
    if n == 0 then [] else [n - 1] + Descending(n - 1)
  }

  lemma HeadAlone(next: seq<nat>, prev: seq<nat>, n: nat)
    requires |next| == |prev| == n + 1 && next[n] == n && prev[n] == n
    ensures Ring(next, prev, [n] + Descending(0))
  {
  }

  /** binit: pushes the buffers one by one behind the head. */
  method InitRing(next: array<nat>, prev: array<nat>)
    requires next != prev && 0 < next.Length == prev.Length
    modifies next, prev
    ensures Ring(next[..], prev[..], [next.Length - 1] + Descending(next.Length - 1))
  {
    hide Ring;
    var n := next.Length - 1;
    prev[n], next[n] := n, n;
    HeadAlone(next[..], prev[..], n);
    var b := 0;
    while b < n
      invariant 0 <= b <= n
      invariant Ring(next[..], prev[..], [n] + Descending(b))
    {
      LinkFirst(next, prev, [n] + Descending(b), b);
      assert InsertAt([n] + Descending(b), 1, b) == [n] + Descending(b + 1);
      b := b + 1;
    }
  }

  class Cache {
    const n: nat
    var disk: seq<Data>
    const bufs: array<Buf>
    const next: array<nat>
    const prev: array<nat>
    /** The buffers from head.next on. */
    ghost var order: seq<nat>
    /** When each buffer was last released by its last user. */
    ghost var stamp: seq<nat>
    ghost var clock: nat
    ghost var users: seq<map<nat, Ref>>

    ghost predicate Shape()
      reads this
    {
      && bufs.Length == n && next.Length == n + 1 && prev.Length == n + 1 && next != prev
      && |order| == n && |stamp| == n && |users| == n
    }

    ghost predicate Valid()
      reads this, bufs, next, prev
    {
      && Shape()
      && Ring(next[..], prev[..], [n] + order)
      && ByRelease(order, stamp, clock)
      && CacheInv(bufs[..], users, disk)
    }

    /** A cache as binit leaves it. */
    constructor (n: nat, disk: seq<Data>)
      ensures Valid() && fresh(bufs) && fresh(next) && fresh(prev)
      ensures this.n == n && this.disk == disk
      ensures forall b :: 0 <= b < n ==> !bufs[b].valid && !bufs[b].dirty && bufs[b].refcnt == 0
    {
      hide Ring, Descending;
      this.n, this.disk := n, disk;
      bufs := new Buf[n](_ => Buf(0, 0, false, false, 0, false, 0, []));
      next := new nat[n + 1];
      prev := new nat[n + 1];
      order, clock := Descending(n), n;
      stamp := seq(n, i => i);
      users := seq(n, _ => map[]);
      new;
      InitRing(next, prev);
    }

    /** Every buffer is on the ring exactly once. */
    lemma AllOnRing(b: nat)
      requires Valid() && b < n
      ensures exists k :: 0 <= k < n && order[k] == b
    {
      var s := [n] + order;
      assert forall i :: 0 <= i < n ==> order[i] == s[i + 1];
      forall i | 0 <= i < n ensures order[i] < n {
        assert s[0] != s[i + 1];
      }
      PigeonHole(order, n, b);
    }

    /** The position of a node met on a walk of the ring. */
    lemma Position(i: nat)
      requires Valid() && i <= n
      ensures var s := [n] + order;
              && s[i] <= n && (s[i] == n <==> i == 0)
              && next[s[i]] == (if i < n then s[i + 1] else n)
              && prev[s[i]] == (if i > 0 then s[i - 1] else s[n])
    {
      var s := [n] + order;
      assert i > 0 ==> s[0] != s[i];
    }

    ghost predicate Cached(dev: nat, blockno: nat)
      reads this, bufs
    {
      exists b :: 0 <= b < bufs.Length && Names(bufs[b], dev, blockno)
    }

    /** The first loop of bget: the block's buffer if it is cached, else the head. */
    method FindCached(dev: nat, blockno: nat) returns (b: nat)
      requires Valid()
      ensures b <= n
      ensures b < n ==> Names(bufs[b], dev, blockno)
      ensures b == n ==> !Cached(dev, blockno)
    {
      ghost var s := [n] + order;
      ghost var i := 1;
      Position(0);
      b := next[n];
      while b != n
        invariant 1 <= i <= n + 1 && b == (if i <= n then s[i] else n)
        invariant forall j :: 1 <= j < i ==> !Names(bufs[s[j]], dev, blockno)
        decreases n + 1 - i
      {
        Position(i);
        if Names(bufs[b], dev, blockno) {
          return;
        }
        b := next[b];
        i := i + 1;
      }
      forall c | 0 <= c < n ensures !Names(bufs[c], dev, blockno) {
        AllOnRing(c);
        var k :| 0 <= k < n && order[k] == c;
        assert s[k + 1] == c;
      }
    }

    /** The second loop of bget: from the tail, the first buffer that is neither referenced nor
        dirty. It is the least recently released one of those. */
    method FindVictim() returns (b: nat)
      requires Valid()
      ensures b <= n
      ensures b < n ==> Eligible(bufs[b])
      ensures b < n ==> forall c :: 0 <= c < n && Eligible(bufs[c]) ==> stamp[b] <= stamp[c]
      ensures b == n ==> forall c :: 0 <= c < n ==> !Eligible(bufs[c])
    {
      hide CacheInv, Ring, Eligible;
      ghost var s := [n] + order;
      ghost var i := n;
      Position(0);
      b := prev[n];
      while b != n
        invariant 0 <= i <= n && b == s[i]
        invariant forall j :: i < j <= n ==> !Eligible(bufs[s[j]])
        decreases i
      {
        Position(i);
        if Eligible(bufs[b]) {
          break;
        }
        b := prev[b];
        i := i - 1;
      }
      Position(i);
      forall c | 0 <= c < n && Eligible(bufs[c]) ensures i > 0 && stamp[s[i]] <= stamp[c] {
        AllOnRing(c);
        var k :| 0 <= k < n && order[k] == c;
        assert s[k + 1] == c;
        assert i > 0 ==> s[i] == order[i - 1];
      }
    }

    /** The buffers other than `b` are untouched. */
    twostate predicate OnlyBuf(b: nat)
      reads this, bufs
    {
      forall c :: 0 <= c < bufs.Length && c != b ==> bufs[c] == old(bufs[c])
    }

    /** bget up to the release of bcache.lock, for process `p`: takes a reference on the buffer of
        the block, recycling the least recently released eligible buffer if the block is not cached.
        `n` stands for the panic when every buffer is referenced or dirty. */
    method BGet(p: nat, dev: nat, blockno: nat) returns (b: nat)
      requires Valid()
      requires forall c :: 0 <= c < n && Names(bufs[c], dev, blockno) ==> p !in users[c]
      modifies this`users, bufs
      ensures Valid() && b <= n
      ensures b == n <==> !old(Cached(dev, blockno)) && forall c :: 0 <= c < n ==> !old(Eligible(bufs[c]))
      ensures b == n ==> users == old(users) && bufs[..] == old(bufs[..])
      ensures b < n && old(Cached(dev, blockno)) ==>
                old(Names(bufs[b], dev, blockno)) && bufs[b] == old(bufs[b]).(refcnt := old(bufs[b].refcnt) + 1)
      ensures b < n && !old(Cached(dev, blockno)) ==>
                && old(Eligible(bufs[b]))
                && (forall c :: 0 <= c < n && old(Eligible(bufs[c])) ==> stamp[b] <= stamp[c])
                && bufs[b] == old(bufs[b]).(dev := dev, blockno := blockno, valid := false, refcnt := 1)
      ensures b < n ==> OnlyBuf(b) && users == old(users)[b := With(old(users)[b], p, Ref(Waiting, dev, blockno))]
      ensures SameContents(old(bufs[..]), old(disk), bufs[..], disk)
    {
      hide CacheInv, Ring, ByRelease;
      b := FindCached(dev, blockno);
      if b < n {
        TakeRef(bufs[..], users, disk, b, p, dev, blockno);
        users := users[b := With(users[b], p, Ref(Waiting, dev, blockno))];
        bufs[b] := bufs[b].(refcnt := bufs[b].refcnt + 1);
        assert bufs[..] == old(bufs[..])[b := bufs[b]];
        ContentsKept(old(bufs[..]), old(users), old(disk), bufs[..], users, disk, b);
        return;
      }
      b := FindVictim();
      if b < n {
        Recycle(bufs[..], users, disk, b, p, dev, blockno);
        users := users[b := With(users[b], p, Ref(Waiting, dev, blockno))];
        bufs[b] := bufs[b].(dev := dev, blockno := blockno, valid := false, dirty := false, refcnt := 1);
        assert bufs[..] == old(bufs[..])[b := bufs[b]];
        ContentsKept(old(bufs[..]), old(users), old(disk), bufs[..], users, disk, b);
      }
    }

    ghost predicate Holds(p: nat, b: nat)
      reads this
    {
      b < n == |users| && p in users[b] && users[b][p].stage.Holding?
    }

    /** The end of acquiresleep: the process gets the lock once it is free, and the buffer still
        names the block it asked bget for. */
    method AcquireSleep(p: nat, b: nat)
      requires Valid() && b < n && p in users[b] && users[b][p].stage.Waiting? && !bufs[b].locked
      modifies this`users, bufs
      ensures Valid() && Holds(p, b)
      ensures Names(bufs[b], old(users[b][p].dev), old(users[b][p].blockno))
      ensures bufs[b] == old(bufs[b]).(locked := true, pid := p) && OnlyBuf(b)
      ensures users == old(users)[b := With(old(users[b]), p, old(users[b][p]).(stage := Holding))]
      ensures SameContents(old(bufs[..]), old(disk), bufs[..], disk)
    {
      ghost var buf := bufs[b].(locked := true, pid := p);
      assert RefsOk(bufs[..][b], users[b]);
      Relock(bufs[..], users, disk, b, p, buf, Holding);
      hide CacheInv, Ring, ByRelease;
      users := users[b := With(users[b], p, users[b][p].(stage := Holding))];
      bufs[b] := bufs[b].(locked := true, pid := p);
      assert bufs[..] == old(bufs[..])[b := buf];
      ContentsKept(old(bufs[..]), old(users), old(disk), bufs[..], users, disk, b);
    }

    /** iderw: writes a dirty buffer to disk or fills an invalid one from it. The result is false
        where the driver panics. */
    method IdeRW(p: nat, b: nat) returns (ok: bool)
      requires Valid() && Holds(p, b)
      modifies this`disk, this`users, bufs
      ensures Valid() && OnlyBuf(b) && users == old(users)
      ensures ok <==> old(!bufs[b].valid || bufs[b].dirty) && bufs[b].dev == 1 && bufs[b].blockno < |disk|
      ensures !ok ==> bufs[b] == old(bufs[b]) && disk == old(disk)
      ensures ok ==> disk == if old(bufs[b].dirty) then old(disk)[bufs[b].blockno := old(bufs[b].data)] else old(disk)
      ensures ok ==> bufs[b] == old(bufs[b]).(valid := true, dirty := false, data := disk[bufs[b].blockno])
      ensures SameContents(old(bufs[..]), old(disk), bufs[..], disk)
    {
      if (bufs[b].valid && !bufs[b].dirty) || bufs[b].dev != 1 || bufs[b].blockno >= |disk| {
        return false;
      }
      assert RefsOk(bufs[..][b], users[b]);
      ghost var r := users[b][p].(stage := Holding);
      assert With(users[b], p, r) == users[b];
      if bufs[b].dirty {
        WriteThrough(bufs[..], users, disk, b, bufs[b].data);
        disk := disk[bufs[b].blockno := bufs[b].data];
      }
      ghost var buf := bufs[b].(valid := true, dirty := false, data := disk[bufs[b].blockno]);
      Relock(bufs[..], users, disk, b, p, buf, Holding);
      hide CacheInv, Ring, ByRelease;
      if bufs[b].dirty {
        bufs[b] := bufs[b].(dirty := false, valid := true);
      } else {
        bufs[b] := bufs[b].(data := disk[bufs[b].blockno], valid := true);
      }
      assert users == users[b := users[b]];
      assert bufs[..] == old(bufs[..])[b := buf];
      ContentsKept(old(bufs[..]), old(users), old(disk), bufs[..], users, disk, b);
      ok := true;
    }

    /** The rest of bread, for a process that bget has given the lock: the buffer is read from disk
        only if it is not valid, so a dirty buffer keeps its uncommitted contents. */
    method BRead(p: nat, b: nat) returns (ok: bool)
      requires Valid() && Holds(p, b)
      modifies this`disk, this`users, bufs
      ensures Valid() && OnlyBuf(b) && users == old(users)
      ensures ok <==> old(bufs[b].valid) || (bufs[b].dev == 1 && bufs[b].blockno < |disk|)
      ensures old(!bufs[b].dirty) ==> disk == old(disk)
      ensures ok ==> bufs[b].valid
      ensures old(bufs[b].valid) ==> bufs[b] == old(bufs[b])
      ensures !ok ==> bufs[b] == old(bufs[b])
      ensures ok && old(!bufs[b].valid) ==>
                bufs[b] == old(bufs[b]).(valid := true, dirty := false, data := disk[bufs[b].blockno])
      ensures SameContents(old(bufs[..]), old(disk), bufs[..], disk)
    {
      ok := true;
      if !bufs[b].valid {
        ok := IdeRW(p, b);
      }
    }

    /** bget of a block whose buffer, if there is one, is not locked. */
    method LockBlock(p: nat, blockno: nat) returns (b: nat)
      requires Valid()
      requires forall c :: 0 <= c < n && Names(bufs[c], 1, blockno) ==> p !in users[c] && !bufs[c].locked
      modifies this`users, bufs
      ensures Valid() && b <= n && SameContents(old(bufs[..]), disk, bufs[..], disk)
      ensures b < n ==> Holds(p, b) && Names(bufs[b], 1, blockno)
      ensures b < n && bufs[b].valid && !bufs[b].dirty ==> Agrees(bufs[b], disk)
      ensures b < n <==> old(Cached(1, blockno)) || exists c :: 0 <= c < n && old(Eligible(bufs[c]))
    {
      hide CacheInv, Ring, ByRelease, SameContents;
      forall c | 0 <= c < n && Eligible(bufs[c]) ensures !bufs[c].locked {
        EligibleIsFree(bufs[..], users, disk, c);
      }
      b := BGet(p, 1, blockno);
      if b < n {
        ghost var s1 := bufs[..];
        assert !bufs[b].locked;
        if bufs[b].valid && !bufs[b].dirty { CleanAgrees(bufs[..], users, disk, b); }
        AcquireSleep(p, b);
        SameThen(old(bufs[..]), old(disk), s1, disk, bufs[..], disk);
      }
    }

    /** bread of a block whose buffer, if there is one, is not locked: the caller gets a buffer with what
        the block holds, exactly if the disk has the block and it is cached or a buffer can be recycled. */
    method ReadBlock(p: nat, blockno: nat) returns (ok: bool, b: nat)
      requires Valid()
      requires forall c :: 0 <= c < n && Names(bufs[c], 1, blockno) ==> p !in users[c] && !bufs[c].locked
      modifies this`disk, this`users, bufs
      ensures Valid() && SameContents(old(bufs[..]), old(disk), bufs[..], disk)
      ensures ok <==> blockno < |disk| && (old(Cached(1, blockno)) || exists c :: 0 <= c < n && old(Eligible(bufs[c])))
      ensures ok ==> Holds(p, b) && Names(bufs[b], 1, blockno) && bufs[b].valid
      ensures ok ==> bufs[b].data == old(Contents(bufs[..], disk, blockno))
    {
      hide Ring, ByRelease, Contents, RefsOk;
      b := LockBlock(p, blockno);
      if b == n {
        return false, b;
      }
      assert bufs[b].dirty ==> bufs[..][b].blockno < |disk|;
      hide CacheInv;
      ok := BRead(p, b);
      if ok { ContentsOf(bufs[..], users, disk, b, blockno); }
    }

    /** The lock holder stores into the buffer. */
    method Modify(p: nat, b: nat, data: Data)
      requires Valid() && Holds(p, b)
      modifies bufs
      ensures Valid() && OnlyBuf(b) && bufs[b] == old(bufs[b]).(data := data)
      ensures if bufs[b].dirty then NewContents(old(bufs[..]), disk, bufs[..], disk, bufs[b].blockno, data)
              else SameContents(old(bufs[..]), disk, bufs[..], disk)
    {
      SetHeld(p, b, bufs[b].(data := data));
    }

    /** log_write's effect on the buffer: B_DIRTY keeps it in the cache until it is committed. */
    method Pin(p: nat, b: nat)
      requires Valid() && Holds(p, b) && bufs[b].dev == 1 && bufs[b].blockno < |disk|
      modifies bufs
      ensures Valid() && OnlyBuf(b) && bufs[b] == old(bufs[b]).(dirty := true)
      ensures NewContents(old(bufs[..]), disk, bufs[..], disk, bufs[b].blockno, bufs[b].data)
    {
      SetHeld(p, b, bufs[b].(dirty := true));
    }

    /** A store by the lock holder that keeps the block and the lock. */
    method SetHeld(p: nat, b: nat, buf: Buf)
      requires Valid() && Holds(p, b)
      requires buf == bufs[b].(data := buf.data, dirty := buf.dirty)
      requires buf.dirty ==> buf.dev == 1 && buf.blockno < |disk|
      modifies bufs
      ensures Valid() && OnlyBuf(b) && bufs[b] == buf
      ensures if buf.dirty then NewContents(old(bufs[..]), disk, bufs[..], disk, buf.blockno, buf.data)
              else !old(bufs[b].dirty) ==> SameContents(old(bufs[..]), disk, bufs[..], disk)
    {
      assert RefsOk(bufs[..][b], users[b]);
      ghost var r := users[b][p].(stage := Holding);
      assert With(users[b], p, r) == users[b];
      Relock(bufs[..], users, disk, b, p, buf, Holding);
      hide CacheInv, Ring, ByRelease;
      bufs[b] := buf;
      assert users == users[b := users[b]];
      assert bufs[..] == old(bufs[..])[b := buf];
      if buf.dirty {
        ContentsStored(old(bufs[..]), users, disk, bufs[..], users, b);
      } else if !old(bufs[b].dirty) {
        ContentsKept(old(bufs[..]), users, disk, bufs[..], users, disk, b);
      }
    }

    /** bwrite: afterwards the disk block is the buffer's contents and the buffer is clean. */
    method BWrite(p: nat, b: nat)
      requires Valid() && Holds(p, b) && bufs[b].dev == 1 && bufs[b].blockno < |disk|
      modifies this`disk, this`users, bufs
      ensures Valid() && OnlyBuf(b) && users == old(users)
      ensures disk == old(disk)[bufs[b].blockno := old(bufs[b].data)]
      ensures bufs[b] == old(bufs[b]).(valid := true, dirty := false)
      ensures NewContents(old(bufs[..]), old(disk), bufs[..], disk, bufs[b].blockno, bufs[b].data)
    {
      SetHeld(p, b, bufs[b].(dirty := true));
      var ok := IdeRW(p, b);
    }

    /** The releasesleep of brelse, by a holder that has called bwrite or log_write on anything it
        changed. */
    method ReleaseSleep(p: nat, b: nat)
      requires Valid() && Holds(p, b)
      requires bufs[b].valid && !bufs[b].dirty ==> Agrees(bufs[b], disk)
      modifies this`users, bufs
      ensures Valid() && OnlyBuf(b) && bufs[b] == old(bufs[b]).(locked := false, pid := 0)
      ensures users == old(users)[b := With(old(users[b]), p, old(users[b][p]).(stage := Leaving))]
      ensures SameContents(old(bufs[..]), old(disk), bufs[..], disk)
    {
      ghost var buf := bufs[b].(locked := false, pid := 0);
      assert RefsOk(bufs[..][b], users[b]);
      Relock(bufs[..], users, disk, b, p, buf, Leaving);
      hide CacheInv, Ring, ByRelease;
      users := users[b := With(users[b], p, users[b][p].(stage := Leaving))];
      bufs[b] := bufs[b].(locked := false, pid := 0);
      assert bufs[..] == old(bufs[..])[b := buf];
      ContentsKept(old(bufs[..]), old(users), old(disk), bufs[..], users, disk, b);
    }

    /** The rest of brelse: drops the reference, and the last one moves the buffer behind the head
        as the most recently released. */
    method Drop(p: nat, b: nat)
      requires Valid() && b < n && p in users[b] && users[b][p].stage.Leaving?
      modifies this`users, this`order, this`stamp, this`clock, bufs, next, prev
      ensures Valid() && OnlyBuf(b) && users == old(users)[b := old(users[b]) - {p}]
      ensures bufs[b] == old(bufs[b]).(refcnt := old(bufs[b].refcnt) - 1)
      ensures bufs[b].refcnt > 0 ==> order == old(order) && stamp == old(stamp)
      ensures bufs[b].refcnt == 0 ==> order[0] == b && stamp == old(stamp)[b := old(clock)]
      ensures SameContents(old(bufs[..]), old(disk), bufs[..], disk)
    {
      hide CacheInv, Ring, ByRelease;
      DropRef(bufs[..], users, disk, b, p);
      AllOnRing(b);
      ghost var k :| 0 <= k < n && order[k] == b;
      users := users[b := users[b] - {p}];
      bufs[b] := bufs[b].(refcnt := bufs[b].refcnt - 1);
      assert bufs[..] == old(bufs[..])[b := bufs[b]];
      ContentsKept(old(bufs[..]), old(users), old(disk), bufs[..], users, disk, b);
      if bufs[b].refcnt == 0 {
        MoveFirst(b, k);
      }
    }

    method MoveFirst(b: nat, ghost k: nat)
      requires Valid() && b < n && k < n && order[k] == b
      modifies this`order, this`stamp, this`clock, next, prev
      ensures Valid() && order[0] == b && stamp == old(stamp)[b := old(clock)]
    {
      hide CacheInv, Ring, ByRelease, RemoveAt, InsertAt, Distinct;
      ghost var s := [n] + order;
      ghost var t := RemoveAt(s, k + 1);
      RingFacts(next[..], prev[..], s);
      assert s[1..] == order;
      UnlinkNode(next, prev, s, k + 1, b);
      LinkFirst(next, prev, t, b);
      ReleaseOrder(order, stamp, clock, k);
      MovedFirst(n, order, k);
      order := [b] + RemoveAt(order, k);
      stamp := stamp[b := clock];
      clock := clock + 1;
    }
  }
}
