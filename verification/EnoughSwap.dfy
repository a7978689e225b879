/** Saving succeeds when the kernel has enough pages to give, however scattered. */
module EnoughSwap {
  import opened Utils
  import opened Extents
  import opened LittleEndian
  import opened SwapSpace
  import opened AllocSwap
  import opened SwapWriter
  import opened WriterProofs
  import opened WriterRuns

  lemma {:induction false} AllocLoopSucceeds(s: seq<Extent>, nr: int, size: int, total: int, kernel: seq<nat>)
    requires |s| >= 2 && 1 <= nr <= |s| && 0 !in kernel && total - size <= |kernel|
    ensures AllocLoop(s, nr, size, total, kernel).Some?
    decreases total - size
  {
    hide Place;
    if size < total && nr < |s| {
      var r := Place(s, nr, kernel[0]);
      AllocLoopSucceeds(r.slots, r.nr, size + 1, total, kernel[1..]);
    }
  }

  lemma PreallocateSucceeds(w: Writer)
    requires |w.slots| >= 2 && w.nr <= |w.slots| && w.needed >= 1
    requires 0 !in w.kernel && Request(w.compress, w.needed) <= |w.kernel|
    ensures Preallocate(w).Some?
  {
    hide AllocLoop;
    var total := Request(w.compress, w.needed);
    if w.nr > 0 {
      AllocLoopSucceeds(w.slots, w.nr, 0, total, w.kernel);
    } else {
      AllocLoopSucceeds(w.slots[0 := Extent(w.kernel[0], w.kernel[0] + 1)], 1, 1, total, w.kernel[1..]);
    }
  }

  /** Enough pages for n more calls of save_page: two for each page beyond the batch,
      for the page and for an array of extents, and a last batch to spare. */
  ghost predicate Supplied(w: Writer, n: nat)
    requires w.Shaped()
  {
    0 !in w.kernel && w.needed >= n && (n <= |Left(w)| || |w.kernel| >= 2 * (n - |Left(w)|) + w.needed + 1)
  }

  lemma SizesOfBatch(batch: seq<int>, carry: multiset<int>, kernel': seq<nat>, taken: multiset<int>, kernel: seq<nat>)
    requires multiset(batch) + carry + multiset(kernel') == taken + multiset(kernel)
    ensures |batch| + |carry| + |kernel'| == |taken| + |kernel|
  {
    assert |multiset(batch) + carry + multiset(kernel')| == |batch| + |carry| + |kernel'|;
    assert |taken + multiset(kernel)| == |taken| + |kernel|;
  }

  lemma NoZero(a: seq<nat>, b: seq<nat>)
    requires multiset(a) <= multiset(b) && 0 !in b
    ensures 0 !in a
  {
    assert multiset(a)[0] <= multiset(b)[0];
  }

  /** A new batch can be had, and leaves enough for the calls to come. */
  lemma SuppliedBatch(w: Writer, header: nat, n: nat)
    requires w.Shaped() && RunOk(w, header) && Exhausted(w) && Supplied(w, n) && n >= 1
    ensures NextSwapPage(w).Some?
    ensures var u := NextSwapPage(w).value;
            0 !in u.kernel && (n - 1 <= |Left(u)| || |u.kernel| >= 2 * (n - 1 - |Left(u)|) + w.needed)
  {
    hide RunOk, NextBatch, Left, Taken, Carry, Offsets, BatchOk;
    NothingLeft(w, header);
    BatchFollows(w, header);
    var u := NextBatch(w).value;
    SizesOfBatch(Offsets(u.slots[..u.nr]), Carry(u), u.kernel, Taken(w), w.kernel[1..]);
    NoZero(u.kernel, w.kernel[1..]);
    FirstOfBatch(u);
    CarryIsOne(u);
    var v := u.(used := u.used + [u.cur]);
    assert NextSwapPage(w) == Some(v);
    SameLeft(u, v);
  }

  lemma SameLeft(u: Writer, v: Writer)
    requires u.Shaped() && v == u.(used := v.used)
    ensures v.Shaped() && Left(v) == Left(u)
  {
  }

  lemma CarryIsOne(u: Writer)
    requires u.Shaped()
    ensures |Carry(u)| <= 1
  {
  }

  lemma NothingLeft(w: Writer, header: nat)
    requires w.Shaped() && RunOk(w, header) && Exhausted(w)
    ensures Left(w) == []
  {
    ExhaustedMeans(w);
  }

  lemma BatchFollows(w: Writer, header: nat)
    requires w.Shaped() && RunOk(w, header) && Exhausted(w) && w.needed >= 1 && 0 !in w.kernel && |w.kernel| > w.needed
    ensures NextBatch(w).Some? && 0 !in w.kernel[1..]
    ensures var u := NextBatch(w).value;
            && BatchOk(u) && u.idx == 0 && u.cur == u.slots[0].start > 0
            && multiset(Offsets(u.slots[..u.nr])) + Carry(u) + multiset(u.kernel) == Taken(w) + multiset(w.kernel[1..])
            && multiset(u.kernel) <= multiset(w.kernel[1..])
  {
    hide Preallocate, SavedSlots;
    NextBatchReopens(w);
    PreallocateSucceeds(Reopened(w));
    NextBatchKeeps(w, header);
  }

  lemma SuppliedStep(w: Writer, header: nat, n: nat, src: Bytes)
    requires w.Shaped() && RunOk(w, header) && Supplied(w, n) && n >= 1
    ensures SavePage(w, src).Some? && Supplied(SavePage(w, src).value, n - 1)
  {
    hide RunOk;
    if Exhausted(w) {
      SuppliedBatch(w, header, n);
      NeededKept(w, header);
    } else {
      InBatch(w, header);
    }
    var u, v := NextSwapPage(w).value, SavePage(w, src).value;
    assert Left(v) == Left(u);
  }

  lemma NeededKept(w: Writer, header: nat)
    requires w.Shaped() && RunOk(w, header) && NextSwapPage(w).Some?
    ensures NextSwapPage(w).value.needed == w.needed
  {
    NextKeeps(w, header);
  }

  lemma InBatch(w: Writer, header: nat)
    requires w.Shaped() && RunOk(w, header) && !Exhausted(w)
    ensures NextSwapPage(w).Some?
    ensures var u := NextSwapPage(w).value;
            u.kernel == w.kernel && u.needed == w.needed && |Left(w)| == |Left(u)| + 1
  {
    NextInBatch(w, header);
  }

  lemma KeepsGoing(w: Writer, header: nat, pages: seq<Bytes>)
    requires w.Shaped() && RunOk(w, header) && SavePages(w, pages).Some?
    ensures SavePages(w, pages).value.Shaped() && RunOk(SavePages(w, pages).value, header)
  {
    SavePagesKeeps(w, header, pages);
  }

  lemma {:induction false} SuppliedPages(w: Writer, header: nat, pages: seq<Bytes>, more: nat)
    requires w.Shaped() && RunOk(w, header) && Supplied(w, |pages| + more)
    ensures SavePages(w, pages).Some? && Supplied(SavePages(w, pages).value, more)
    decreases |pages|
  {
    hide RunOk, Supplied, SavePage, BatchOk;
    if pages != [] {
      var first := pages[..|pages| - 1];
      SuppliedPages(w, header, first, more + 1);
      KeepsGoing(w, header, first);
      SuppliedStep(SavePages(w, first).value, header, more + 1, pages[|pages| - 1]);
    }
  }

  /** With 2n + needed + 3 pages to give, none of them 0, the kernel cannot make the
      saving of n pages fail: the preallocation and every save_page succeed. */
  lemma {:induction false} EnoughSwapSaves(compress: bool, length: int, needed: int, kernel: seq<nat>, disk: Disk,
                        header: nat, pages: seq<Bytes>)
    requires length >= 2 && header > 0 && NoDup(multiset{header} + multiset(kernel)) && 0 !in kernel
    requires needed >= 1 && needed >= |pages| && |kernel| >= 2 * |pages| + needed + 3
    ensures Start(compress, length, needed, kernel, disk).Some?
    ensures SavePages(Start(compress, length, needed, kernel, disk).value, pages).Some?
  {
    hide RunOk, Preallocate, SavePages;
    PreallocateSucceeds(Opened(compress, length, needed, kernel, disk));
    StartKeeps(compress, length, needed, kernel, disk, header);
    var w := Start(compress, length, needed, kernel, disk).value;
    StartSupplied(w, header, kernel, compress, needed, |pages|);
    SuppliedPages(w, header, pages, 0);
  }

  lemma StartSupplied(w: Writer, header: nat, kernel: seq<nat>, compress: bool, needed: int, n: nat)
    requires w.Shaped() && Started(compress, needed, kernel, header, w)
    requires 0 !in kernel && header > 0 && needed >= n && |kernel| >= 2 * n + needed + 3
    ensures Supplied(w, n)
  {
    hide RunOk, Left, Carry;
    CarryIsOne(w);
    var d, r := multiset(Left(w)) + Carry(w), multiset{header} + multiset{w.spc} + multiset(w.kernel);
    assert DataPages(w) + Reserved(w, header) == d + r;
    BagsOfStart(Left(w), Carry(w), w.spc, w.kernel, header, kernel);
  }

  lemma BagsOfStart(left: seq<int>, carry: multiset<int>, spc: nat, rest: seq<nat>, header: nat, kernel: seq<nat>)
    requires multiset(left) + carry + (multiset{header} + multiset{spc} + multiset(rest))
             == multiset{header} + multiset(kernel)
    requires 0 !in kernel && header > 0
    ensures |left| + |carry| + 1 + |rest| == |kernel| && 0 !in rest
  {
    var d, r := multiset(left) + carry, multiset{header} + multiset{spc} + multiset(rest);
    assert |d| == |left| + |carry| && |r| == 2 + |rest|;
    assert |d + r| == 1 + |kernel|;
    assert (d + r)[0] >= multiset(rest)[0];
    assert (multiset{header} + multiset(kernel))[0] == 0;
  }
}
