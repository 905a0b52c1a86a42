/** How many frames the page-table code of xv6/vm.c takes from the free list: one for each page that it
    allocates and one for each page table that is missing. */
module PageCount {
  import opened PageOwner
  import opened PageView

  /** How many of the directory entries i up to j are not present. */
  function Absent(dir: seq<nat>, i: nat, j: nat): nat
    requires j <= |dir|
  {
    if j <= i then 0 else Absent(dir, i, j - 1) + if Present(dir[j - 1]) then 0 else 1
  }

  /** Entries i up to j are present in `now` and otherwise the same ones as in `was`. */
  ghost predicate Filled(was: seq<nat>, now: seq<nat>, i: nat, j: nat) {
    && |was| == |now| == NENTRIES
    && forall k {:trigger now[k]} :: 0 <= k < NENTRIES ==> (Present(now[k]) <==> Present(was[k]) || i <= k < j)
  }

  /** Where the directory entries of pages lo up to hi end. */
  function End(lo: nat, hi: nat): (e: nat)
    requires lo <= hi <= PAGES && lo < PAGES
    ensures Pdx(lo) <= e <= NENTRIES
  {
    if hi == lo then Pdx(lo) else Pdx(hi - 1) + 1
  }

  lemma EndStep(lo: nat, a: nat)
    requires lo <= a < PAGES
    ensures End(lo, a + 1) == Pdx(a) + 1 && Pdx(a) <= End(lo, a) <= Pdx(a) + 1
  {
  }

  /** How many page tables pages lo up to hi lack. */
  function Tables(dir: seq<nat>, lo: nat, hi: nat): nat
    requires |dir| == NENTRIES && hi <= PAGES
  {
    if hi <= lo then 0 else Absent(dir, Pdx(lo), End(lo, hi))
  }

  lemma {:induction false} AbsentMore(dir: seq<nat>, i: nat, j: nat, k: nat)
    requires j <= k <= |dir|
    ensures Absent(dir, i, j) <= Absent(dir, i, k)
  {
    if j == k {
    } else {
      AbsentMore(dir, i, j, k - 1);
    }
  }

  lemma {:induction false} TablesMore(dir: seq<nat>, lo: nat, a: nat, hi: nat)
    requires |dir| == NENTRIES && lo <= a <= hi <= PAGES
    ensures Tables(dir, lo, a) <= Tables(dir, lo, hi)
  {
    hide Pdx;
    if lo < a {
      assert Pdx(a - 1) <= Pdx(hi - 1);
      AbsentMore(dir, Pdx(lo), End(lo, a), End(lo, hi));
    }
  }

  /** One page more lacks one table more, unless its table is there or has been made. */
  lemma {:induction false} TablesStep(was: seq<nat>, now: seq<nat>, lo: nat, a: nat)
    requires lo <= a < PAGES && Filled(was, now, Pdx(lo), End(lo, a))
    ensures Tables(was, lo, a + 1) == Tables(was, lo, a) + if Present(now[Pdx(a)]) then 0 else 1
  {
    EndStep(lo, a);
    hide Pdx;
    var i := Pdx(a);
    var x := now[i];
    if a == lo {
      assert Absent(was, i, i) == 0;
    } else if End(lo, a) == i + 1 {
      assert Pdx(lo) <= i;
    }
  }

  /** The tables of pages lo up to a are made, out of n frames of which m are left. */
  ghost predicate Paid(was: seq<nat>, now: seq<nat>, lo: nat, a: nat, n: nat, m: nat) {
    && lo <= a <= PAGES && lo < PAGES && Filled(was, now, Pdx(lo), End(lo, a)) && n == m + Tables(was, lo, a)
  }

  lemma PaidStart(dir: seq<nat>, lo: nat, n: nat)
    requires |dir| == NENTRIES && lo < PAGES
    ensures Paid(dir, dir, lo, lo, n, n)
  {
  }

  /** walkpgdir at page a, from `now` to `then`: the entry is there, or it is made, or no frame is left. */
  ghost predicate Walked(now: seq<nat>, then': seq<nat>, a: nat, m: nat, m': nat, ok: bool) {
    && a < PAGES && |now| == |then'| == NENTRIES
    && if Present(now[Pdx(a)]) then ok && then' == now && m' == m
       else if ok then m == m' + 1 && Present(then'[Pdx(a)]) && then' == now[Pdx(a) := then'[Pdx(a)]]
       else m == 0
  }

  lemma {:induction false} PaidStep(was: seq<nat>, now: seq<nat>, then': seq<nat>, lo: nat, a: nat, hi: nat,
                                    n: nat, m: nat, m': nat, ok: bool)
    requires Paid(was, now, lo, a, n, m) && a < hi <= PAGES && Walked(now, then', a, m, m', ok)
    ensures ok ==> Paid(was, then', lo, a + 1, n, m')
    ensures !ok ==> n < Tables(was, lo, hi)
  {
    hide Pdx;
    EndStep(lo, a);
    TablesStep(was, now, lo, a);
    TablesMore(was, lo, a + 1, hi);
    var i := Pdx(a);
    if ok {
      forall k {:trigger then'[k]} | 0 <= k < NENTRIES
        ensures Present(then'[k]) <==> Present(was[k]) || Pdx(lo) <= k < i + 1
      {
        var y := now[k];
      }
    }
  }

  // ----- with a frame for each page

  /** What pages lo up to hi take: a frame each, and their page tables. */
  function Frames(dir: seq<nat>, lo: nat, hi: nat): nat
    requires |dir| == NENTRIES && hi <= PAGES
  {
    if hi <= lo then 0 else hi - lo + Tables(dir, lo, hi)
  }

  /** Pages lo up to a are allocated, out of n frames of which m are left. */
  ghost predicate Spent(was: seq<nat>, now: seq<nat>, lo: nat, a: nat, n: nat, m: nat) {
    && lo <= a <= PAGES && lo < PAGES && Filled(was, now, Pdx(lo), End(lo, a)) && n == m + Frames(was, lo, a)
  }

  lemma SpentStart(dir: seq<nat>, lo: nat, n: nat)
    requires |dir| == NENTRIES && lo < PAGES
    ensures Spent(dir, dir, lo, lo, n, n)
  {
  }

  lemma {:induction false} SpentStep(was: seq<nat>, now: seq<nat>, then': seq<nat>, lo: nat, a: nat, hi: nat,
                                     n: nat, m: nat, m': nat, ok: bool)
    requires Spent(was, now, lo, a, n, m) && a < hi <= PAGES
    requires ok <==> m >= Frames(now, a, a + 1)
    requires ok ==> Filled(now, then', Pdx(a), Pdx(a) + 1) && m == m' + Frames(now, a, a + 1)
    ensures ok ==> Spent(was, then', lo, a + 1, n, m')
    ensures !ok ==> n < Frames(was, lo, hi)
  {
    hide Pdx;
    EndStep(lo, a);
    EndStep(a, a);
    TablesMore(was, lo, a + 1, hi);
    var i := Pdx(a);
    var x := now[i];
    assert Tables(now, a, a + 1) == if Present(x) then 0 else 1 by { OneTable(now, a); }
    TablesStep(was, now, lo, a);
    if ok {
      forall k {:trigger then'[k]} | 0 <= k < NENTRIES
        ensures Present(then'[k]) <==> Present(was[k]) || Pdx(lo) <= k < i + 1
      {
        var y := now[k];
      }
    }
  }

  lemma OneTable(dir: seq<nat>, a: nat)
    requires |dir| == NENTRIES && a < PAGES
    ensures Tables(dir, a, a + 1) == if Present(dir[Pdx(a)]) then 0 else 1
  {
    hide Pdx;
    EndStep(a, a);
    assert Absent(dir, Pdx(a), Pdx(a)) == 0;
  }

  /** In a directory without user entries the first hi user pages take a table for every 1024. */
  lemma {:induction false} FreshFrames(dir: seq<nat>, hi: nat)
    requires |dir| == NENTRIES && hi <= USERPAGES && forall k :: 0 <= k < USER ==> !Present(dir[k])
    ensures Frames(dir, 0, hi) == hi + (hi + 1023) / 1024
  {
    if 0 < hi {
      Split(hi - 1);
      AllAbsent(dir, 0, End(0, hi));
    }
  }

  lemma {:induction false} AllAbsent(dir: seq<nat>, i: nat, j: nat)
    requires i <= j <= |dir| && forall k :: i <= k < j ==> !Present(dir[k])
    ensures Absent(dir, i, j) == j - i
  {
    if i == j {
    } else {
      AllAbsent(dir, i, j - 1);
    }
  }

  /** Entries i up to m are there, and none from m to j. */
  lemma {:induction false} AbsentFrom(dir: seq<nat>, i: nat, m: nat, j: nat)
    requires i <= m <= j <= |dir| && (forall k :: i <= k < m ==> Present(dir[k]))
    requires forall k :: m <= k < j ==> !Present(dir[k])
    ensures Absent(dir, i, j) == j - m
  {
    if i == j {
    } else if j == m {
      AbsentFrom(dir, i, j - 1, j - 1);
    } else {
      AbsentFrom(dir, i, m, j - 1);
    }
  }
}
