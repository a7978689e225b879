/** Whole runs of the writer: where everything ends up, and when two things end
    up in the same place. */
module WriterRuns {
  import opened Utils
  import opened Extents
  import opened LittleEndian
  import opened SwapSpace
  import opened AllocSwap
  import opened SwapWriter
  import opened WriterProofs

  /** The offsets of saved arrays, in the order of the chain. */
  function ClosedOffsets(closed: seq<Closed>): seq<int>
    requires forall c :: c in closed ==> 0 <= c.nr <= |c.slots|
  {
    if closed == [] then []
    else var c := closed[|closed| - 1];
         ClosedOffsets(closed[..|closed| - 1]) + Offsets(c.slots[..c.nr])
  }

  /** Every saved array is on the disk and points at the next one. */
  ghost predicate Linked(disk: Disk, closed: seq<Closed>, last: nat, length: int) {
    && (forall i :: 0 <= i < |closed| ==>
          ClosedOk(closed[i]) && closed[i].loc > 0 && |closed[i].slots| == length)
    && (forall i :: 0 <= i < |closed| ==> ReadPage(disk, closed[i].loc) == Table(closed[i].slots))
    && (forall i :: 0 <= i < |closed| - 1 ==>
          closed[i].slots[|closed[i].slots| - 1].start == closed[i + 1].loc)
    && (closed != [] ==> var c := closed[|closed| - 1]; c.slots[|c.slots| - 1].start == last)
  }

  function FirstTable(w: Writer): nat {
    if w.closed == [] then w.spc else w.closed[0].loc
  }

  /** What holds between two calls of save_page, with or without compression. */
  ghost predicate RunOk(w: Writer, header: nat) {
    && Tracked(w)
    && Apart(w, header)
    && Linked(w.disk, w.closed, w.spc, |w.slots|)
    && w.spc > 0
    && w.used == ClosedOffsets(w.closed) + Consumed(w)
  }

  lemma {:induction false} InLocations(closed: seq<Closed>, i: int)
    requires 0 <= i < |closed|
    ensures closed[i].loc in Locations(closed)
  {
    if i < |closed| - 1 {
      InLocations(closed[..|closed| - 1], i);
    }
  }

  /** Writing to a page that is not reserved leaves the chain alone. */
  lemma LinkedFrame(disk: Disk, closed: seq<Closed>, last: nat, length: int, o: nat, page: Page)
    requires Linked(disk, closed, last, length) && o !in Locations(closed)
    ensures Linked(disk[o := page], closed, last, length)
  {
    forall i | 0 <= i < |closed| ensures closed[i].loc != o {
      InLocations(closed, i);
    }
  }

  lemma LinkedGrow(disk: Disk, closed: seq<Closed>, c: Closed, next: nat, length: int)
    requires Linked(disk, closed, c.loc, length) && |c.slots| == length && c.loc > 0 && c.loc !in Locations(closed)
    requires ClosedOk(c) && c.slots[|c.slots| - 1].start == next
    ensures Linked(disk[c.loc := Table(c.slots)], closed + [c], next, length)
  {
    LinkedFrame(disk, closed, c.loc, length, c.loc, Table(c.slots));
  }

  /** Reservations never pair up with data, and stay distinct. */
  lemma ApartStep(w: Writer, u: Writer, header: nat)
    requires Apart(w, header) && u.Shaped() && Conserves(w, u, header)
    requires forall q :: q in StalePages(w) ==> q in DataPages(w)
    requires 0 !in Tables(u, header)
    ensures Apart(u, header)
  {
    var d, d', r, r', s := DataPages(w), DataPages(u), Reserved(w, header), Reserved(u, header), StalePages(w);
    forall x ensures r'[x] <= 1 && (x in d' ==> x !in r') {
      assert (d' + r')[x] == (d + r + s)[x];
      assert r'[x] <= r[x];
    }
  }

  /** next_swap_page, in a batch or across batches, keeps the run in order. */
  lemma NextKeeps(w: Writer, header: nat)
    requires RunOk(w, header)
    ensures match NextSwapPage(w)
            case None => true
            case Some(u) =>
              && RunOk(u, header)
              && Conserves(w, u, header)
              && u.used == w.used + [u.cur]
              && u.cur > 0
              && FirstTable(u) == FirstTable(w)
              && u.needed == w.needed && u.compress == w.compress && u.written == w.written
              && |u.slots| == |w.slots|
  {
    if NextSwapPage(w).Some? {
      if Exhausted(w) {
        NextInNewBatch(w, header);
        AcrossBatches(w, NextSwapPage(w).value, header);
      } else {
        NextInBatch(w, header);
        var u := NextSwapPage(w).value;
        Assoc(ClosedOffsets(w.closed), Consumed(w), [u.cur]);
        assert StalePages(w) == multiset{};
        ConsumedGrows(w, u);
        ApartStep(w, u, header);
      }
    }
  }

  lemma ConsumedGrows(w: Writer, u: Writer)
    requires BatchOk(w) && !Exhausted(w) && NextSwapPage(w) == Some(u)
    ensures Consumed(u) == Consumed(w) + [u.cur]
  {
    StepInBatch(w);
    SameBatch(Advance(w).value, u);
  }

  lemma StaleIsUsed(w: Writer)
    requires Tracked(w)
    ensures forall q :: q in StalePages(w) ==> q in w.used && q in DataPages(w)
  {
    if Exhausted(w) { BehindIs(w); }
  }

  lemma AcrossBatches(w: Writer, u: Writer, header: nat)
    requires RunOk(w, header) && Exhausted(w) && w.kernel != [] && w.kernel[0] != 0
    requires Tracked(u) && Conserves(w, u, header)
    requires u == Reopened(w).(slots := u.slots, nr := u.nr, idx := 0, cur := u.cur,
                               kernel := u.kernel, used := w.used + [u.cur])
    requires Consumed(u) == [u.cur] && |u.slots| == |w.slots|
    ensures RunOk(u, header) && FirstTable(u) == FirstTable(w)
  {
    var used := w.used;
    ChainAcross(w, u, header);
    ApartAcross(w, u, header);
    assert u.used == ClosedOffsets(u.closed) + Consumed(u);
  }

  lemma ApartAcross(w: Writer, u: Writer, header: nat)
    requires Tracked(w) && Apart(w, header) && u.Shaped() && Conserves(w, u, header)
    requires w.kernel != [] && w.kernel[0] != 0
    requires u.closed == Reopened(w).closed && u.spc == w.kernel[0]
    ensures Apart(u, header)
  {
    StaleIsUsed(w);
    TablesGrow(w, u, header);
    ApartStep(w, u, header);
  }

  lemma ChainAcross(w: Writer, u: Writer, header: nat)
    requires RunOk(w, header) && Exhausted(w) && w.kernel != []
    requires u.closed == Reopened(w).closed && u.spc == w.kernel[0] && u.disk == Reopened(w).disk
    ensures Linked(u.disk, u.closed, u.spc, |w.slots|) && FirstTable(u) == FirstTable(w)
    ensures ClosedOffsets(u.closed) == w.used
  {
    ExhaustedMeans(w);
    SavedSlotsOk(w, w.kernel[0]);
    SpcIsFresh(w, header);
    var c := Closed(w.spc, SavedSlots(w, w.kernel[0]), w.nr);
    LinkedGrow(w.disk, w.closed, c, u.spc, |w.slots|);
    assert u.closed == w.closed + [c] && u.closed[..|w.closed|] == w.closed;
  }

  lemma SpcIsFresh(w: Writer, header: nat)
    requires Apart(w, header)
    ensures w.spc !in Locations(w.closed)
  {
    assert Reserved(w, header)[w.spc] <= 1;
  }

  /** save_page: the page goes to the next offset. */
  lemma SavePageKeeps(w: Writer, header: nat, src: Bytes)
    requires RunOk(w, header)
    ensures match SavePage(w, src)
            case None => true
            case Some(v) =>
              && RunOk(v, header)
              && Conserves(w, v, header)
              && v.used == w.used + [v.cur]
              && FirstTable(v) == FirstTable(w)
              && v.needed == w.needed - 1 && v.compress == w.compress && v.written == w.written + 1
              && |v.slots| == |w.slots|
              && v.cur > 0 && ReadPage(v.disk, v.cur) == Data(src)
  {
    NextKeeps(w, header);
    if SavePage(w, src).Some? {
      var u := NextSwapPage(w).value;
      UsedIsNotReserved(u, header);
      LinkedFrame(u.disk, u.closed, u.spc, |u.slots|, u.cur, Data(src));
      WriteKeeps(u, SavePage(w, src).value, header);
    }
  }

  /** save_page writes at most two pages: the array of extents and the data. */
  lemma SavePageDisk(w: Writer, src: Bytes)
    requires w.Shaped()
    ensures match SavePage(w, src)
            case None => true
            case Some(v) =>
              forall o: nat :: o != w.spc && o != v.cur ==> ReadPage(v.disk, o) == ReadPage(w.disk, o)
  {
    NextBatchReopens(w);
  }

  lemma UsedIsNotReserved(u: Writer, header: nat)
    requires Apart(u, header)
    ensures forall o :: o in u.used ==> o !in Reserved(u, header)
    ensures forall o :: o in u.used ==> o !in Locations(u.closed)
  {
    forall o | o in u.used ensures o !in Reserved(u, header) {
      assert o in DataPages(u);
    }
    forall o | o in u.used ensures o !in Locations(u.closed) {
      assert o !in Reserved(u, header);
    }
  }

  lemma WriteKeeps(u: Writer, v: Writer, header: nat)
    requires RunOk(u, header) && v == u.(disk := v.disk, needed := v.needed, written := v.written)
    requires Linked(v.disk, u.closed, u.spc, |u.slots|)
    ensures RunOk(v, header) && DataPages(v) == DataPages(u) && Reserved(v, header) == Reserved(u, header)
    ensures FirstTable(v) == FirstTable(u)
  {
    assert Consumed(v) == Consumed(u) && Left(v) == Left(u) && Carry(v) == Carry(u);
  }

  // ---------------------------------------------------------------------
  // Runs.

  lemma ClearedInitial(length: int)
    requires length >= 2
    ensures var s := Cleared(length, NO_EXTENT); Initial(s, 0) && Bag(s, 0) == multiset{}
  {
    assert Cleared(length, NO_EXTENT)[..0] == [];
  }

  lemma NoDupLess(a: multiset<int>, b: multiset<int>)
    requires NoDup(b) && a <= b
    ensures NoDup(a)
  {
    forall x ensures a[x] <= 1 { assert a[x] <= b[x]; }
  }

  /** The writer as write_image sets it up. */
  ghost predicate Started(compress: bool, needed: int, kernel: seq<nat>, header: nat, w: Writer) {
    && RunOk(w, header)
    && DataPages(w) + Reserved(w, header) == multiset{header} + multiset(kernel)
    && NoDup(DataPages(w))
    && w.used == [] && w.closed == [] && kernel != [] && w.spc == kernel[0]
    && w.needed == needed && w.written == 0 && w.compress == compress
    && (HasCarry(w) || |Left(w)| >= Request(compress, needed))
  }

  lemma StartKeeps(compress: bool, length: int, needed: int, kernel: seq<nat>, disk: Disk, header: nat)
    requires length >= 2 && header > 0 && NoDup(multiset{header} + multiset(kernel))
    ensures match Start(compress, length, needed, kernel, disk)
            case None => true
            case Some(w) => Started(compress, needed, kernel, header, w)
  {
    hide Started, Preallocate;
    if Start(compress, length, needed, kernel, disk).Some? {
      var p := Preallocate(Opened(compress, length, needed, kernel, disk)).value;
      StartedFrom(compress, length, needed, kernel, disk, header, p);
    }
  }

  lemma StartedFrom(compress: bool, length: int, needed: int, kernel: seq<nat>, disk: Disk, header: nat, p: Writer)
    requires length >= 2 && header > 0 && NoDup(multiset{header} + multiset(kernel))
    requires kernel != [] && kernel[0] != 0
    requires Preallocate(Opened(compress, length, needed, kernel, disk)) == Some(p)
    ensures Started(compress, needed, kernel, header, p.(cur := p.cur - 1))
  {
    FirstBatch(compress, length, needed, kernel, disk, header);
    StartShift(p, p.(cur := p.cur - 1), header, kernel);
  }

  lemma FirstBatch(compress: bool, length: int, needed: int, kernel: seq<nat>, disk: Disk, header: nat)
    requires length >= 2 && NoDup(multiset{header} + multiset(kernel)) && kernel != []
    ensures match Preallocate(Opened(compress, length, needed, kernel, disk))
            case None => true
            case Some(p) =>
              && BatchOk(p) && p.idx == 0 && p.cur == p.slots[0].start
              && p.used == [] && p.closed == [] && p.spc == kernel[0]
              && p.needed == needed && p.written == 0 && p.compress == compress
              && multiset(Offsets(p.slots[..p.nr])) + Carry(p) + multiset(p.kernel) == multiset(kernel[1..])
              && (HasCarry(p) || |Offsets(p.slots[..p.nr])| >= Request(compress, needed))
  {
    var v := Opened(compress, length, needed, kernel, disk);
    BagHead(kernel);
    ClearedInitial(length);
    assert Bag(v.slots, v.nr) + multiset(v.kernel) == multiset(kernel[1..]);
    NoDupLess(multiset(kernel[1..]), multiset{header} + multiset(kernel));
    PreallocateKeeps(v);
  }

  /** Moving the cursor back makes the first page of the batch the next one. */
  lemma StartShift(p: Writer, w: Writer, header: nat, kernel: seq<nat>)
    requires BatchOk(p) && p.idx == 0 && p.cur == p.slots[0].start && w == p.(cur := p.cur - 1)
    requires p.used == [] && p.closed == [] && header > 0
    requires kernel != [] && p.spc == kernel[0] > 0
    requires multiset(Offsets(p.slots[..p.nr])) + Carry(p) + multiset(p.kernel) == multiset(kernel[1..])
    requires NoDup(multiset{header} + multiset(kernel))
    requires p.written == 0 && (HasCarry(p) || |Offsets(p.slots[..p.nr])| >= Request(p.compress, p.needed))
    ensures Started(p.compress, p.needed, kernel, header, w)
  {
    CursorShift(p, w);
    BagHead(kernel);
    assert Locations(w.closed) == [];
    StartBags(w, header, kernel);
  }

  lemma CursorShift(p: Writer, w: Writer)
    requires BatchOk(p) && p.idx == 0 && p.cur == p.slots[0].start && w == p.(cur := p.cur - 1)
    ensures BatchOk(w) && Consumed(w) == [] && Left(w) == Offsets(p.slots[..p.nr]) && Carry(w) == Carry(p)
  {
    BatchAround(p);
    assert p.slots[..p.nr][..0] == [];
    CursorSplits(p.slots[..p.nr], 0, w.cur);
  }

  lemma StartBags(w: Writer, header: nat, kernel: seq<nat>)
    requires w.Shaped() && w.used == [] && Locations(w.closed) == [] && header > 0
    requires kernel != [] && w.spc == kernel[0] > 0
    requires multiset(Left(w)) + Carry(w) + multiset(w.kernel) == multiset(kernel[1..])
    requires multiset(kernel) == multiset{kernel[0]} + multiset(kernel[1..])
    requires NoDup(multiset{header} + multiset(kernel))
    ensures DataPages(w) + Reserved(w, header) == multiset{header} + multiset(kernel)
    ensures Apart(w, header) && NoDup(DataPages(w))
  {
    hide Left, Carry, Locations;
    var d, r := DataPages(w), Reserved(w, header);
    AllBags(multiset(Left(w)) + Carry(w), multiset{header}, multiset{kernel[0]}, multiset(w.kernel),
            multiset(kernel[1..]), multiset(kernel));
    assert d == multiset(Left(w)) + Carry(w);
    assert r == multiset{header} + multiset{kernel[0]} + multiset(w.kernel);
    SplitNoDup(d, r);
  }

  lemma AllBags(d: multiset<int>, h: multiset<int>, k0: multiset<int>, k: multiset<int>, rest: multiset<int>,
                all: multiset<int>)
    requires d + k == rest && all == k0 + rest
    ensures d + (h + k0 + k) == h + all
  {
    forall x ensures (d + (h + k0 + k))[x] == (h + all)[x] {
      assert (d + k)[x] == rest[x];
    }
  }

  lemma SplitNoDup(d: multiset<int>, r: multiset<int>)
    requires NoDup(d + r)
    ensures NoDup(d) && NoDup(r) && forall x :: x in d ==> x !in r
  {
    forall x ensures d[x] <= 1 && r[x] <= 1 && (x in d ==> x !in r) {
      assert (d + r)[x] <= 1;
    }
  }

  /** Save a sequence of pages: each gets one offset, in order. */
  lemma {:induction false} SavePagesKeeps(w: Writer, header: nat, pages: seq<Bytes>)
    requires RunOk(w, header)
    ensures match SavePages(w, pages)
            case None => true
            case Some(v) =>
              && RunOk(v, header)
              && |v.used| == |w.used| + |pages|
              && FirstTable(v) == FirstTable(w)
              && v.needed == w.needed - |pages| && v.written == w.written + |pages| && v.compress == w.compress
              && |v.slots| == |w.slots|
    decreases |pages|
  {
    SavePagesLast(w, pages);
    hide RunOk, FirstTable, SavePage, SavePages, Conserves, ReadPage;
    if pages != [] {
      var first := pages[..|pages| - 1];
      SavePagesKeeps(w, header, first);
      if SavePages(w, first).Some? {
        SavePageKeeps(SavePages(w, first).value, header, pages[|pages| - 1]);
      }
    }
  }

  lemma SavePagesLast(w: Writer, pages: seq<Bytes>)
    requires w.Shaped()
    ensures pages == [] ==> SavePages(w, pages) == Some(w)
    ensures pages != [] ==> SavePages(w, pages) == match SavePages(w, pages[..|pages| - 1])
                                                   case None => None
                                                   case Some(v) => SavePage(v, pages[|pages| - 1])
  {
  }

  // ---------------------------------------------------------------------
  // When are all pages distinct?

  /** The next call of next_swap_page will not take a stale extent for a carry. */
  predicate NoStale(w: Writer)
    requires w.Shaped()
  {
    !(Exhausted(w) && w.nr < |w.slots| - 1 && Holds(Behind(w)))
  }

  /** No call of a run takes a stale extent for a carry. */
  predicate NeverStale(w: Writer, pages: seq<Bytes>)
    requires w.Shaped()
    decreases |pages|
  {
    pages == [] || (
      && NeverStale(w, pages[..|pages| - 1])
      && (SavePages(w, pages[..|pages| - 1]).Some? ==> NoStale(SavePages(w, pages[..|pages| - 1]).value))
    )
  }

  lemma NoStaleMeans(w: Writer)
    requires w.Shaped()
    ensures NoStale(w) <==> StalePages(w) == multiset{}
  {
    var b := Behind(w);
    if Holds(b) {
      InRun(b.start, b.end, b.start);
      assert b.start in multiset(Run(b.start, b.end));
    }
  }

  /** One step keeps the data pages distinct exactly when it meets no stale extent. */
  lemma StepExact(w: Writer, u: Writer, header: nat)
    requires Tracked(w) && Apart(w, header) && u.Shaped() && Conserves(w, u, header)
    ensures NoDup(DataPages(u)) <==> NoDup(DataPages(w)) && NoStale(w)
  {
    NoStaleMeans(w);
    StaleIsUsed(w);
    StepBags(DataPages(w), DataPages(u), Reserved(w, header), Reserved(u, header), StalePages(w));
  }

  lemma StepBags(d: multiset<int>, d': multiset<int>, r: multiset<int>, r': multiset<int>, s: multiset<int>)
    requires d' + r' == d + r + s && r' <= r
    requires NoDup(r) && (forall x :: x in d ==> x !in r) && (forall x :: x in s ==> x in d)
    ensures NoDup(d') <==> NoDup(d) && s == multiset{}
  {
    forall x ensures d'[x] == d[x] + (r[x] - r'[x]) + s[x] {
      assert (d' + r')[x] == (d + r + s)[x];
    }
    if NoDup(d') {
      forall x ensures d[x] <= 1 && s[x] == 0 {
        assert d'[x] <= 1 && r'[x] <= r[x];
      }
    }
  }

  /** The data pages of an image, used or still allocated, are pairwise distinct
      exactly when no call of the run took a stale extent for a carry. */
  lemma {:induction false} DistinctExactly(w: Writer, header: nat, pages: seq<Bytes>)
    requires RunOk(w, header) && NoDup(DataPages(w)) && SavePages(w, pages).Some?
    ensures NoDup(DataPages(SavePages(w, pages).value)) <==> NeverStale(w, pages)
    decreases |pages|
  {
    if pages != [] {
      var n := |pages| - 1;
      var v := SavePages(w, pages[..n]).value;
      SavePagesKeeps(w, header, pages[..n]);
      DistinctExactly(w, header, pages[..n]);
      SavePageKeeps(v, header, pages[n]);
      StepExact(v, SavePages(w, pages).value, header);
    }
  }

  // ---------------------------------------------------------------------
  // Without compression no stale extent is ever met.

  ghost predicate Enough(w: Writer)
    requires w.Shaped()
  {
    HasCarry(w) || |Left(w)| >= w.needed
  }

  lemma EnoughStays(w: Writer, header: nat, src: Bytes)
    requires RunOk(w, header) && !w.compress && Enough(w) && SavePage(w, src).Some?
    ensures Enough(SavePage(w, src).value) && NoStale(w)
  {
    var u := NextSwapPage(w).value;
    var v := SavePage(w, src).value;
    if Exhausted(w) {
      NextInNewBatch(w, header);
      ExhaustedMeans(w);
    } else {
      NextInBatch(w, header);
    }
    assert Left(v) == Left(u) && HasCarry(v) == HasCarry(u);
  }

  lemma {:induction false} UncompressedNeverStale(w: Writer, header: nat, pages: seq<Bytes>)
    requires RunOk(w, header) && !w.compress && Enough(w) && SavePages(w, pages).Some?
    ensures NeverStale(w, pages) && Enough(SavePages(w, pages).value)
    decreases |pages|
  {
    if pages != [] {
      var n := |pages| - 1;
      UncompressedNeverStale(w, header, pages[..n]);
      SavePagesKeeps(w, header, pages[..n]);
      EnoughStays(SavePages(w, pages[..n]).value, header, pages[n]);
    }
  }

  /** Without compression the header page, every extents page and every data page
      of one image get pairwise distinct locations, over any number of batches. */
  lemma {:induction false} UncompressedDistinct(length: int, needed: int, kernel: seq<nat>, disk: Disk, header: nat,
                             pages: seq<Bytes>)
    requires length >= 2 && header > 0 && NoDup(multiset{header} + multiset(kernel))
    requires Start(false, length, needed, kernel, disk).Some?
    requires SavePages(Start(false, length, needed, kernel, disk).value, pages).Some?
    ensures var w := SavePages(Start(false, length, needed, kernel, disk).value, pages).value;
            NoDup(multiset{header} + multiset(Locations(w.closed) + [w.spc]) + multiset(w.used))
  {
    StartKeeps(false, length, needed, kernel, disk, header);
    var s := Start(false, length, needed, kernel, disk).value;
    SavePagesKeeps(s, header, pages);
    UncompressedNeverStale(s, header, pages);
    DistinctExactly(s, header, pages);
    var w := SavePages(s, pages).value;
    forall x
      ensures (multiset{header} + multiset(Locations(w.closed) + [w.spc]) + multiset(w.used))[x] <= 1
    {
      DistinctAt(w, header, x);
    }
  }

  lemma DistinctAt(w: Writer, header: nat, x: int)
    requires Apart(w, header) && NoDup(DataPages(w))
    ensures (multiset{header} + multiset(Locations(w.closed) + [w.spc]) + multiset(w.used))[x] <= 1
  {
    var d, r := DataPages(w), Reserved(w, header);
    assert d[x] <= 1 && r[x] <= 1 && (x in d ==> x !in r);
    assert multiset(w.used)[x] <= d[x];
    assert (multiset{header} + multiset(Locations(w.closed) + [w.spc]))[x] <= r[x];
  }
}
