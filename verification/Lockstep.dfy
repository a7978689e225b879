/** Writer and reader in lockstep: what is saved is what is loaded. */
module Lockstep {
  import opened Utils
  import opened Extents
  import opened LittleEndian
  import opened SwapSpace
  import opened SwapWriter
  import opened WriterProofs
  import opened WriterRuns
  import opened Reuse
  import opened SwapReader

  /** The saved arrays of a finished image. */
  function Arrays(w: Writer): seq<Closed> {
    w.closed + [Closed(w.spc, w.slots, w.nr)]
  }

  /** The disk after save_extents(handle, 1) and after the header was written. */
  function Finished(w: Writer, header: nat, page: Page): Disk {
    w.disk[w.spc := Table(w.slots)][header := page]
  }

  /** The swap pages that make up a saved image. */
  predicate InImage(w: Writer, header: nat, o: nat) {
    o == header || o == w.spc || o in Locations(w.closed) || o in w.used
  }

  /** The disk carries the finished image, whatever else is on it. */
  ghost predicate Carries(disk: Disk, w: Writer, header: nat, page: Page) {
    forall o: nat :: InImage(w, header, o) ==> ReadPage(disk, o) == ReadPage(Finished(w, header, page), o)
  }

  lemma ReservedApart(w: Writer, header: nat)
    requires Apart(w, header)
    ensures w.spc !in Locations(w.closed) && header !in Locations(w.closed) && header != w.spc
    ensures w.spc !in w.used && header !in w.used
  {
    assert Reserved(w, header)[w.spc] <= 1 && Reserved(w, header)[header] <= 1;
    UsedIsNotReserved(w, header);
  }

  lemma ChainFinished(w: Writer, header: nat, page: Page)
    requires RunOk(w, header)
    ensures Chain(Finished(w, header, page), Arrays(w), |w.slots|)
  {
    ReservedApart(w, header);
    LinkedFrame(w.disk, w.closed, w.spc, |w.slots|, w.spc, Table(w.slots));
    LinkedFrame(w.disk[w.spc := Table(w.slots)], w.closed, w.spc, |w.slots|, header, page);
    AllHold(w);
    ChainOf(Finished(w, header, page), w.closed, Closed(w.spc, w.slots, w.nr), |w.slots|);
  }

  lemma ChainCarried(disk: Disk, w: Writer, header: nat, page: Page)
    requires w.Shaped() && RunOk(w, header) && Carries(disk, w, header, page)
    ensures Chain(disk, Arrays(w), |w.slots|)
  {
    hide RunOk, Finished, ReadPage;
    var ts := Arrays(w);
    ChainFinished(w, header, page);
    forall i | 0 <= i < |ts| ensures ReadPage(disk, ts[i].loc) == Table(ts[i].slots) {
      if i < |w.closed| { InLocations(w.closed, i); }
      assert InImage(w, header, ts[i].loc);
    }
  }

  /** The arrays on the swap, one after the other: array i is at its page, the start field of
      its last slot is the page of array i + 1, and the places of the run are what the arrays
      hold, in order. */
  lemma {:induction false} ArraysOnSwap(disk: Disk, w: Writer, header: nat, page: Page)
    requires w.Shaped() && RunOk(w, header) && Carries(disk, w, header, page)
    ensures var ts := Arrays(w);
            && ts != [] && ts[0].loc == FirstTable(w)
            && (forall i :: 0 <= i < |ts| ==>
                  1 <= ts[i].nr < |ts[i].slots| == |w.slots| && ReadPage(disk, ts[i].loc) == Table(ts[i].slots))
            && (forall i :: 0 <= i < |ts| - 1 ==> ts[i].slots[|w.slots| - 1].start == ts[i + 1].loc)
            && w.used <= ClosedOffsets(ts)
    ensures forall o :: o in w.used ==>
              exists i, m :: 0 <= i < |Arrays(w)| && 0 <= m < Arrays(w)[i].nr
                             && Arrays(w)[i].slots[m].start <= o < Arrays(w)[i].slots[m].end
  {
    hide RunOk, Carries, Chain, ClosedOffsets;
    ChainCarried(disk, w, header, page);
    ChainIs(disk, Arrays(w), |w.slots|);
    OffsetsInArrays(w, header);
  }

  lemma ChainIs(disk: Disk, ts: seq<Closed>, length: int)
    requires Chain(disk, ts, length)
    ensures forall i :: 0 <= i < |ts| ==>
              1 <= ts[i].nr < |ts[i].slots| == length && ReadPage(disk, ts[i].loc) == Table(ts[i].slots)
    ensures forall i :: 0 <= i < |ts| - 1 ==> ts[i].slots[length - 1].start == ts[i + 1].loc
  {
    hide ReadPage, ClosedOk;
  }

  lemma OffsetsInArrays(w: Writer, header: nat)
    requires w.Shaped() && RunOk(w, header) && forall c :: c in Arrays(w) ==> 0 <= c.nr <= |c.slots|
    ensures w.used <= ClosedOffsets(Arrays(w))
    ensures forall o :: o in w.used ==>
              exists i, m :: 0 <= i < |Arrays(w)| && 0 <= m < Arrays(w)[i].nr
                             && Arrays(w)[i].slots[m].start <= o < Arrays(w)[i].slots[m].end
  {
    UsedIsPrefix(w, header);
    hide RunOk, ClosedOffsets, Left, Arrays;
    InExtents(Arrays(w), w.used);
  }

  lemma InExtents(ts: seq<Closed>, used: seq<int>)
    requires (forall c :: c in ts ==> 0 <= c.nr <= |c.slots|) && used <= ClosedOffsets(ts)
    ensures forall o :: o in used ==>
              exists i, m :: 0 <= i < |ts| && 0 <= m < ts[i].nr && ts[i].slots[m].start <= o < ts[i].slots[m].end
  {
    hide ClosedOffsets;
    forall o | o in used
      ensures exists i, m :: 0 <= i < |ts| && 0 <= m < ts[i].nr && ts[i].slots[m].start <= o < ts[i].slots[m].end
    {
      var i, m := InSomeExtent(ts, o);
    }
  }

  lemma InSomeExtent(ts: seq<Closed>, o: int) returns (i: nat, m: nat)
    requires (forall c :: c in ts ==> 0 <= c.nr <= |c.slots|) && o in ClosedOffsets(ts)
    ensures i < |ts| && m < ts[i].nr && ts[i].slots[m].start <= o < ts[i].slots[m].end
  {
    hide ClosedOffsets;
    i := InSomeArray(ts, o);
    var e := ts[i].slots[..ts[i].nr];
    InOffsets(e, o);
    m :| 0 <= m < |e| && e[m].start <= o < e[m].end;
  }

  lemma {:induction false} InSomeArray(ts: seq<Closed>, o: int) returns (i: nat)
    requires (forall c :: c in ts ==> 0 <= c.nr <= |c.slots|) && o in ClosedOffsets(ts)
    ensures i < |ts| && o in Offsets(ts[i].slots[..ts[i].nr])
  {
    var n := |ts| - 1;
    if o in ClosedOffsets(ts[..n]) {
      i := InSomeArray(ts[..n], o);
    } else {
      i := n;
    }
  }

  lemma ChainOf(disk: Disk, closed: seq<Closed>, c: Closed, length: int)
    requires Linked(disk, closed, c.loc, length) && ReadPage(disk, c.loc) == Table(c.slots)
    requires c.loc > 0 && |c.slots| == length >= 2 && 1 <= c.nr < length
    requires forall k :: 0 <= k < c.nr ==> Holds(c.slots[k])
    ensures Chain(disk, closed + [c], length)
  {
  }

  lemma AllHold(w: Writer)
    requires BatchOk(w)
    ensures forall k :: 0 <= k < w.nr ==> Holds(w.slots[k])
  {
    forall k | 0 <= k < w.nr ensures Holds(w.slots[k]) {
      CanonicalAt(w.slots[..w.nr], k, k);
    }
  }

  lemma UsedIsPrefix(w: Writer, header: nat)
    requires RunOk(w, header)
    ensures ClosedOffsets(Arrays(w)) == w.used + Left(w)
  {
    CursorSplits(w.slots[..w.nr], w.idx, w.cur);
    assert Arrays(w)[..|w.closed|] == w.closed;
    Assoc(ClosedOffsets(w.closed), Consumed(w), Left(w));
  }

  /** Cursor lockstep: over any number of batches, with or without stale
      extents, the reader visits exactly the offsets the writer used. */
  lemma {:induction false} ReaderFollowsWriter(w: Writer, header: nat, page: Page, r: Reader, glance: Glance)
    requires RunOk(w, header)
    requires r.Shaped() && |r.slots| == |w.slots| && r.next == FirstTable(w)
    requires Carries(r.disk, w, header, page)
    ensures LoadTable(r, glance).Some?
    ensures Visits(LoadTable(r, glance).value, |w.used|, glance) == w.used
  {
    var ts := Arrays(w);
    ChainCarried(r.disk, w, header, page);
    UsedIsPrefix(w, header);
    UsedIsChain(w);
    assert ts[0].loc == FirstTable(w);
    hide RunOk, Carries, Chain, ChainFrom, LoadTable, Visits, Left, Arrays;
    VisitsChain(r, ts, 0, |w.used|, glance);
  }

  lemma UsedIsChain(w: Writer)
    requires w.Shaped() && (forall c :: c in Arrays(w) ==> 0 <= c.nr <= |c.slots|)
    requires ClosedOffsets(Arrays(w)) == w.used + Left(w)
    ensures |w.used| <= |ChainFrom(Arrays(w), 0)| && ChainFrom(Arrays(w), 0)[..|w.used|] == w.used
  {
    hide ChainFrom, Left, ClosedOffsets;
    ClosedOffsetsFrom(Arrays(w), 0);
    NoneClosed(Arrays(w));
    var u, l := w.used, Left(w);
    assert ChainFrom(Arrays(w), 0) == u + l;
  }

  lemma NoneClosed(ts: seq<Closed>)
    requires forall c :: c in ts ==> 0 <= c.nr <= |c.slots|
    ensures ClosedOffsets(ts[..0]) == [] && forall s: seq<int> :: ClosedOffsets(ts[..0]) + s == s
  {
  }

  /** Every page is at the offset it was given. */
  ghost predicate Stored(disk: Disk, used: seq<int>, pages: seq<Bytes>) {
    |used| == |pages|
    && forall j :: 0 <= j < |used| ==> used[j] > 0 && ReadPage(disk, used[j]) == Data(pages[j])
  }

  /** Offsets that were given out more than once carry the same page each time. */
  ghost predicate SharedAlike(used: seq<int>, pages: seq<Bytes>) {
    |used| == |pages|
    && forall i, j :: 0 <= i < j < |used| && used[i] == used[j] ==> pages[i] == pages[j]
  }

  lemma DistinctShare(used: seq<int>, pages: seq<Bytes>)
    requires NoDup(multiset(used)) && |used| == |pages|
    ensures SharedAlike(used, pages)
  {
    forall i, j | 0 <= i < j < |used| ensures used[i] != used[j] {
      assert used == used[..j] + [used[j]] + used[j + 1..];
      assert used[..j][i] == used[i] && used[i] in multiset(used[..j]);
      assert multiset(used)[used[j]] >= multiset(used[..j])[used[j]] + 1;
    }
  }

  /** The last page written to an offset is the one that is there. */
  ghost predicate Kept(disk: Disk, used: seq<int>, pages: seq<Bytes>) {
    |used| == |pages|
    && forall j :: 0 <= j < |used| ==>
         used[j] > 0 && (used[j] !in used[j + 1..] ==> ReadPage(disk, used[j]) == Data(pages[j]))
  }

  lemma KeptStep(disk: Disk, disk': Disk, used: seq<int>, pages: seq<Bytes>, cur: int, src: Bytes, spc: nat)
    requires Kept(disk, used, pages) && cur > 0 && spc !in used
    requires ReadPage(disk', cur) == Data(src)
    requires forall o: nat :: o != spc && o != cur ==> ReadPage(disk', o) == ReadPage(disk, o)
    ensures Kept(disk', used + [cur], pages + [src])
  {
    var u, q := used + [cur], pages + [src];
    forall j | 0 <= j < |u|
      ensures u[j] > 0 && (u[j] !in u[j + 1..] ==> ReadPage(disk', u[j]) == Data(q[j]))
    {
      if j < |used| { KeptBefore(disk, disk', used, pages, cur, spc, j); }
    }
  }

  lemma KeptBefore(disk: Disk, disk': Disk, used: seq<int>, pages: seq<Bytes>, cur: int, spc: nat, j: nat)
    requires Kept(disk, used, pages) && spc !in used && j < |used|
    requires forall o: nat :: o != spc && o != cur ==> ReadPage(disk', o) == ReadPage(disk, o)
    ensures used[j] > 0
    ensures used[j] !in (used + [cur])[j + 1..] ==> ReadPage(disk', used[j]) == Data(pages[j])
  {
    hide ReadPage;
    assert (used + [cur])[j + 1..] == used[j + 1..] + [cur];
    assert used[j] in used;
  }

  lemma {:induction false} SavedIsKept(w: Writer, header: nat, pages: seq<Bytes>)
    requires w.Shaped() && RunOk(w, header) && w.used == [] && SavePages(w, pages).Some?
    ensures var v := SavePages(w, pages).value; Kept(v.disk, v.used, pages)
    decreases |pages|
  {
    hide RunOk, Kept, SavePage;
    if pages == [] {
      NothingKept(w);
    } else {
      var n := |pages| - 1;
      LastCall(w, header, pages);
      SavedIsKept(w, header, pages[..n]);
      KeptNext(SavePages(w, pages[..n]).value, header, pages[..n], pages[n]);
      assert pages == pages[..n] + [pages[n]];
    }
  }

  lemma NothingKept(w: Writer)
    requires w.used == []
    ensures Kept(w.disk, w.used, [])
  {
  }

  lemma KeptNext(u: Writer, header: nat, pages: seq<Bytes>, src: Bytes)
    requires u.Shaped() && RunOk(u, header) && Kept(u.disk, u.used, pages) && SavePage(u, src).Some?
    ensures var v := SavePage(u, src).value; Kept(v.disk, v.used, pages + [src])
  {
    hide Kept;
    var v := SavePage(u, src).value;
    SavePageKeeps(u, header, src);
    SavePageDisk(u, src);
    ReservedApart(u, header);
    KeptStep(u.disk, v.disk, u.used, pages, v.cur, src, u.spc);
  }

  /** What is kept is what was saved, exactly when shared offsets carry the same. */
  lemma KeptExactly(disk: Disk, used: seq<int>, pages: seq<Bytes>)
    requires Kept(disk, used, pages)
    ensures Stored(disk, used, pages) <==> SharedAlike(used, pages)
  {
    if SharedAlike(used, pages) {
      forall j | 0 <= j < |used| ensures used[j] > 0 && ReadPage(disk, used[j]) == Data(pages[j]) {
        var k := LastUse(used, j);
        assert used[k] !in used[k + 1..];
      }
    }
    if Stored(disk, used, pages) {
      forall i, j | 0 <= i < j < |used| && used[i] == used[j] ensures pages[i] == pages[j] {
        assert Data(pages[i]) == ReadPage(disk, used[i]) == Data(pages[j]);
      }
    }
  }

  lemma {:induction false} LastUse(used: seq<int>, j: nat) returns (k: nat)
    requires j < |used|
    ensures j <= k < |used| && used[k] == used[j] && used[k] !in used[k + 1..]
    decreases |used| - j
  {
    k := j;
    if used[j] in used[j + 1..] {
      var i :| 0 <= i < |used[j + 1..]| && used[j + 1..][i] == used[j];
      k := LastUse(used, j + 1 + i);
    }
  }

  /** Page round trip: the reader visits the offsets of the run in order and finds
      there the pages that were saved, if and only if offsets that were given out
      more than once carry the same page each time; the header is as written. */
  lemma {:induction false} SavedPagesLoad(w: Writer, v: Writer, header: nat, pages: seq<Bytes>, page: Page,
                       r: Reader, glance: Glance)
    requires w.Shaped() && RunOk(w, header) && w.used == [] && SavePages(w, pages) == Some(v)
    requires r.Shaped() && |r.slots| == |v.slots| && r.next == FirstTable(v)
    requires Carries(r.disk, v, header, page)
    ensures LoadTable(r, glance).Some?
    ensures Visits(LoadTable(r, glance).value, |pages|, glance) == v.used
    ensures Stored(r.disk, v.used, pages) <==> SharedAlike(v.used, pages)
    ensures ReadPage(r.disk, header) == page
  {
    hide Kept, Stored, SharedAlike, RunOk, Carries;
    FinishedRun(w, v, header, pages);
    KeptExactly(v.disk, v.used, pages);
    KeptLoads(v, header, pages, page, r, glance);
  }

  lemma FinishedRun(w: Writer, v: Writer, header: nat, pages: seq<Bytes>)
    requires w.Shaped() && RunOk(w, header) && w.used == [] && SavePages(w, pages) == Some(v)
    ensures v.Shaped() && RunOk(v, header) && |v.used| == |pages| && Kept(v.disk, v.used, pages)
  {
    SavePagesKeeps(w, header, pages);
    SavedIsKept(w, header, pages);
  }

  lemma KeptLoads(v: Writer, header: nat, pages: seq<Bytes>, page: Page, r: Reader, glance: Glance)
    requires v.Shaped() && RunOk(v, header) && |v.used| == |pages|
    requires r.Shaped() && |r.slots| == |v.slots| && r.next == FirstTable(v)
    requires Carries(r.disk, v, header, page)
    ensures LoadTable(r, glance).Some?
    ensures Visits(LoadTable(r, glance).value, |pages|, glance) == v.used
    ensures Stored(r.disk, v.used, pages) <==> Stored(v.disk, v.used, pages)
    ensures ReadPage(r.disk, header) == page
  {
    hide RunOk, LoadTable, Visits, Finished, ReadPage;
    ReaderFollowsWriter(v, header, page, r, glance);
    FinishedElsewhere(v, header, page);
    assert InImage(v, header, header);
    forall j | 0 <= j < |v.used| && v.used[j] > 0
      ensures ReadPage(r.disk, v.used[j]) == ReadPage(v.disk, v.used[j])
    {
      assert InImage(v, header, v.used[j]);
    }
  }

  /** Finishing does not touch the data pages. */
  lemma FinishedElsewhere(v: Writer, header: nat, page: Page)
    requires v.Shaped() && RunOk(v, header)
    ensures forall j :: 0 <= j < |v.used| && v.used[j] > 0 ==>
              ReadPage(Finished(v, header, page), v.used[j]) == ReadPage(v.disk, v.used[j])
    ensures ReadPage(Finished(v, header, page), header) == page
  {
    ReservedApart(v, header);
    hide RunOk;
    var d := Finished(v, header, page);
    forall j | 0 <= j < |v.used| && v.used[j] > 0 ensures ReadPage(d, v.used[j]) == ReadPage(v.disk, v.used[j]) {
      assert v.used[j] in v.used;
    }
  }
}
