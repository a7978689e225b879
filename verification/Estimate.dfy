/** `swap_needed` is an estimate; when the pages to save exceed it, what the kernel
    could still give does not help. */
module Estimate {
  import opened Utils
  import opened Extents
  import opened LittleEndian
  import opened SwapSpace
  import opened AllocSwap
  import opened SwapWriter
  import opened WriterProofs
  import opened WriterRuns
  import opened Reuse
  import opened EnoughSwap

  /** Pages left in the batch can be saved whatever the estimate. */
  lemma {:induction false} SavesLeft(v: Writer, header: nat, pages: seq<Bytes>)
    requires v.Shaped() && RunOk(v, header) && |pages| <= |Left(v)|
    ensures SavePages(v, pages).Some?
    ensures var u := SavePages(v, pages).value;
            u.Shaped() && RunOk(u, header) && |Left(u)| == |Left(v)| - |pages| && u.needed == v.needed - |pages|
    decreases |pages|
  {
    hide RunOk, Left, SavePage;
    if pages != [] {
      var n := |pages| - 1;
      SavesLeft(v, header, pages[..n]);
      TakesOne(SavePages(v, pages[..n]).value, header, pages[n]);
    }
  }

  lemma TakesOne(u: Writer, header: nat, src: Bytes)
    requires u.Shaped() && RunOk(u, header) && |Left(u)| > 0
    ensures SavePage(u, src).Some?
    ensures var v := SavePage(u, src).value;
            v.Shaped() && RunOk(v, header) && |Left(v)| == |Left(u)| - 1 && v.needed == u.needed - 1
  {
    hide RunOk;
    if Exhausted(u) { NothingLeft(u, header); }
    InBatch(u, header);
    StaysOk(u, header, src);
    assert Left(SavePage(u, src).value) == Left(NextSwapPage(u).value);
  }

  lemma StaysOk(u: Writer, header: nat, src: Bytes)
    requires u.Shaped() && RunOk(u, header) && SavePage(u, src).Some?
    ensures RunOk(SavePage(u, src).value, header)
  {
    SavePageKeeps(u, header, src);
  }

  /** At the end of a batch nothing more can be saved once the estimate is used up. */
  lemma NothingMore(u: Writer, header: nat, src: Bytes)
    requires u.Shaped() && RunOk(u, header) && Left(u) == [] && u.needed <= 0
    ensures SavePage(u, src) == None
  {
    if !Exhausted(u) { NextInBatch(u, header); }
    NextBatchReopens(u);
  }

  lemma Overdrawn(v: Writer, header: nat, pages: seq<Bytes>)
    requires v.Shaped() && RunOk(v, header) && v.needed <= 0 && |pages| > |Left(v)|
    ensures SavePages(v, pages) == None
  {
    hide RunOk, Left, SavePage;
    var k := |Left(v)|;
    SavesLeft(v, header, pages[..k]);
    NothingMore(SavePages(v, pages[..k]).value, header, pages[k]);
    var some := pages[..k + 1];
    assert some[..|some| - 1] == pages[..k];
    SavePagesConcat(v, some, pages[k + 1..]);
    assert some + pages[k + 1..] == pages;
  }

  /** With pages enough to give, n pages can be saved exactly when they do not exceed
      the estimate by more than what is left in the batch when it is used up. */
  lemma {:induction false} SavesExactly(w: Writer, header: nat, pages: seq<Bytes>)
    requires w.Shaped() && RunOk(w, header) && w.needed >= 0
    requires Supplied(w, if |pages| <= w.needed then |pages| else w.needed)
    ensures |pages| <= w.needed ==> SavePages(w, pages).Some?
    ensures |pages| > w.needed ==> SavePages(w, pages[..w.needed]).Some?
    ensures |pages| > w.needed ==>
              (SavePages(w, pages).Some? <==> |pages| - w.needed <= |Left(SavePages(w, pages[..w.needed]).value)|)
  {
    hide RunOk, Left, SavePages, Supplied;
    if |pages| <= w.needed {
      SuppliedPages(w, header, pages, 0);
    } else {
      SuppliedPages(w, header, pages[..w.needed], 0);
      BeyondEstimate(w, header, pages);
    }
  }

  lemma BeyondEstimate(w: Writer, header: nat, pages: seq<Bytes>)
    requires w.Shaped() && RunOk(w, header) && 0 <= w.needed < |pages| && SavePages(w, pages[..w.needed]).Some?
    ensures SavePages(w, pages).Some? <==> |pages| - w.needed <= |Left(SavePages(w, pages[..w.needed]).value)|
    ensures SavePages(w, pages[..w.needed]).value.needed == 0
  {
    hide RunOk, Left, SavePages;
    var a, b := pages[..w.needed], pages[w.needed..];
    Counted(w, header, a);
    var v := SavePages(w, a).value;
    SavePagesConcat(w, a, b);
    assert a + b == pages;
    if |b| <= |Left(v)| { SavesLeft(v, header, b); } else { Overdrawn(v, header, b); }
  }

  lemma Counted(w: Writer, header: nat, pages: seq<Bytes>)
    requires w.Shaped() && RunOk(w, header) && SavePages(w, pages).Some?
    ensures var v := SavePages(w, pages).value; v.Shaped() && RunOk(v, header) && v.needed == w.needed - |pages|
  {
    SavePagesKeeps(w, header, pages);
  }

  // ---------------------------------------------------------------------
  // A batch exceeds the estimate by at most the carry.

  lemma {:induction false} AllocLoopAtMost(s: seq<Extent>, nr: int, size: int, total: int, kernel: seq<nat>)
    requires |s| >= 2 && 1 <= nr <= |s| && size <= total
    ensures match AllocLoop(s, nr, size, total, kernel)
            case None => true
            case Some(a) => |kernel| - |a.kernel| <= total - size
    decreases total - size
  {
    hide Place;
    if size < total && nr < |s| && kernel != [] && kernel[0] != 0 {
      var r := Place(s, nr, kernel[0]);
      AllocLoopAtMost(r.slots, r.nr, size + 1, total, kernel[1..]);
    }
  }

  lemma PreallocateAtMost(w: Writer)
    requires |w.slots| >= 2 && w.nr <= |w.slots| && Preallocate(w).Some?
    ensures w.needed >= 1 && |w.kernel| - |Preallocate(w).value.kernel| <= w.needed
  {
    hide AllocLoop;
    var total := Request(w.compress, w.needed);
    if w.nr > 0 {
      AllocLoopAtMost(w.slots, w.nr, 0, total, w.kernel);
    } else {
      AllocLoopAtMost(w.slots[0 := Extent(w.kernel[0], w.kernel[0] + 1)], 1, 1, total, w.kernel[1..]);
    }
  }

  ghost predicate Tight(w: Writer)
    requires w.Shaped()
  {
    |Left(w)| <= w.needed + 1
  }

  lemma TightStep(w: Writer, header: nat, src: Bytes)
    requires w.Shaped() && RunOk(w, header) && Tight(w) && NoStale(w) && SavePage(w, src).Some?
    ensures Tight(SavePage(w, src).value)
  {
    hide RunOk, Left;
    if Exhausted(w) {
      TightBatch(w, header);
      NeededKept(w, header);
    } else {
      InBatch(w, header);
    }
    SameBatchLeft(w, src);
  }

  lemma SameBatchLeft(w: Writer, src: Bytes)
    requires w.Shaped() && SavePage(w, src).Some?
    ensures NextSwapPage(w).Some? && Left(SavePage(w, src).value) == Left(NextSwapPage(w).value)
    ensures SavePage(w, src).value.needed == NextSwapPage(w).value.needed - 1
  {
  }

  lemma TightBatch(w: Writer, header: nat)
    requires w.Shaped() && RunOk(w, header) && NoStale(w) && Exhausted(w) && NextSwapPage(w).Some?
    ensures |Left(NextSwapPage(w).value)| <= w.needed
  {
    hide NextBatch, Left, Taken, Carry, Offsets, BatchOk, StalePages, Locations;
    BatchIs(w, header);
    var u := NextBatch(w).value;
    SizesOfBatch(Offsets(u.slots[..u.nr]), Carry(u), u.kernel, Taken(w), w.kernel[1..]);
    CarryIsOne(w);
    FirstOfBatch(u);
    var v := u.(used := u.used + [u.cur]);
    assert NextSwapPage(w) == Some(v);
    SameLeft(u, v);
  }

  lemma BatchIs(w: Writer, header: nat)
    requires w.Shaped() && RunOk(w, header) && NoStale(w) && Exhausted(w) && NextSwapPage(w).Some?
    ensures NextBatch(w).Some? && w.kernel != [] && Taken(w) == Carry(w)
    ensures var u := NextBatch(w).value;
            && BatchOk(u) && u.idx == 0 && u.cur == u.slots[0].start > 0
            && multiset(Offsets(u.slots[..u.nr])) + Carry(u) + multiset(u.kernel) == Taken(w) + multiset(w.kernel[1..])
            && |w.kernel| - 1 - |u.kernel| <= w.needed
  {
    hide Preallocate, SavedSlots;
    NextBatchReopens(w);
    NextBatchKeeps(w, header);
    PreallocateAtMost(Reopened(w));
    BehindIs(w);
    NoStaleMeans(w);
  }

  lemma {:induction false} TightRun(w: Writer, header: nat, pages: seq<Bytes>)
    requires w.Shaped() && RunOk(w, header) && Tight(w) && NeverStale(w, pages) && SavePages(w, pages).Some?
    ensures Tight(SavePages(w, pages).value)
    decreases |pages|
  {
    hide RunOk, Tight, SavePage, NoStale;
    if pages != [] {
      var n := |pages| - 1;
      LastCall(w, header, pages);
      TightRun(w, header, pages[..n]);
      TightStep(SavePages(w, pages[..n]).value, header, pages[n]);
    }
  }

  lemma StartTight(compress: bool, length: int, needed: int, kernel: seq<nat>, disk: Disk, header: nat)
    requires length >= 2 && header > 0 && NoDup(multiset{header} + multiset(kernel))
    requires Start(compress, length, needed, kernel, disk).Some?
    ensures var w := Start(compress, length, needed, kernel, disk).value;
            RunOk(w, header) && Tight(w) && w.needed == needed && needed >= 1
  {
    hide RunOk, Preallocate, Left, Carry, DataPages, Reserved;
    StartKeeps(compress, length, needed, kernel, disk, header);
    var o := Opened(compress, length, needed, kernel, disk);
    PreallocateAtMost(o);
    var w := Start(compress, length, needed, kernel, disk).value;
    StartSizes(w, header, kernel);
  }

  lemma StartSizes(w: Writer, header: nat, kernel: seq<nat>)
    requires w.Shaped() && DataPages(w) + Reserved(w, header) == multiset{header} + multiset(kernel)
    requires w.used == [] && w.closed == []
    ensures |Left(w)| + |Carry(w)| + 1 + |w.kernel| == |kernel|
  {
    hide Left, Carry;
    var d, r := multiset(Left(w)) + Carry(w), multiset{header} + multiset{w.spc} + multiset(w.kernel);
    assert DataPages(w) + Reserved(w, header) == d + r;
    assert |d| == |Left(w)| + |Carry(w)| && |r| == 2 + |w.kernel|;
    assert |d + r| == 1 + |kernel|;
  }

  /** A run that meets no stale extent saves at most one page more than estimated,
      however many pages the kernel has. */
  lemma {:induction false} AtMostOneMore(compress: bool, length: int, needed: int, kernel: seq<nat>, disk: Disk,
                                         header: nat, pages: seq<Bytes>)
    requires length >= 2 && header > 0 && NoDup(multiset{header} + multiset(kernel))
    requires Start(compress, length, needed, kernel, disk).Some?
    requires NeverStale(Start(compress, length, needed, kernel, disk).value, pages) && |pages| > needed + 1
    ensures SavePages(Start(compress, length, needed, kernel, disk).value, pages) == None
  {
    hide RunOk, Start, SavePages, NeverStale, Left;
    StartTight(compress, length, needed, kernel, disk, header);
    var w := Start(compress, length, needed, kernel, disk).value;
    if SavePages(w, pages).Some? {
      var a := pages[..needed];
      PrefixRuns(w, pages, needed);
      TightRun(w, header, a);
      BeyondEstimate(w, header, pages);
    }
  }

  /** What holds of a run holds of its beginning. */
  lemma {:induction false} PrefixRuns(w: Writer, pages: seq<Bytes>, k: nat)
    requires w.Shaped() && SavePages(w, pages).Some? && NeverStale(w, pages) && k <= |pages|
    ensures SavePages(w, pages[..k]).Some? && NeverStale(w, pages[..k])
    decreases |pages|
  {
    if k < |pages| {
      PrefixRuns(w, pages[..|pages| - 1], k);
      assert pages[..|pages| - 1][..k] == pages[..k];
    } else {
      assert pages[..k] == pages;
    }
  }
}
