/** A run with compression in which two data pages get the same swap page, and what
    becomes of the image. */
module StaleCarry {
  import opened Utils
  import opened Extents
  import opened LittleEndian
  import opened SwapSpace
  import opened AllocSwap
  import opened SwapWriter
  import opened WriterRuns
  import opened SwapReader
  import opened Lockstep

  /** The kernel never repeats a page. */
  const KERNEL: seq<nat> := [100, 10, 12, 11, 101, 20, 21]

  /** The first batch: 10, 12, 11; the last page joins two extents, and the slot of the
      second one keeps its value. */
  function Merged(length: nat): (s: seq<Extent>)
    requires length >= 4
    ensures |s| == length
  {
    Cleared(length, Extent(10, 13))[1 := Extent(12, 13)]
  }

  lemma FirstBatchMerges(length: nat)
    requires length >= 4
    ensures Allocate(Cleared(length, NO_EXTENT), 0, 3, [10, 12, 11, 101, 20, 21])
            == Some(Alloc(Merged(length), 1, 3, [101, 20, 21]))
  {
    var s1 := Cleared(length, Extent(10, 11));
    var s2 := s1[1 := Extent(12, 13)];
    assert s1[..1] == [Extent(10, 11)];
    assert Place(s1, 1, 12) == Placed(s2, 2);
    assert s2[..2] == [Extent(10, 11), Extent(12, 13)];
    assert Search(s2[..2], 11, 0, 1) == Above(0);
    MergeLeavesSlot(length, s2);
    var s3 := Merged(length);
    assert AllocLoop(s3, 1, 3, 3, [101, 20, 21]) == Some(Alloc(s3, 1, 3, [101, 20, 21]));
    assert AllocLoop(s2, 2, 2, 3, [11, 101, 20, 21]) == AllocLoop(s3, 1, 3, 3, [101, 20, 21]);
    assert AllocLoop(s1, 1, 1, 3, [12, 11, 101, 20, 21]) == AllocLoop(s2, 2, 2, 3, [11, 101, 20, 21]);
    assert Cleared(length, NO_EXTENT)[0 := Extent(10, 11)] == s1;
  }

  lemma MergeLeavesSlot(length: nat, s: seq<Extent>)
    requires length >= 4 && s == Cleared(length, Extent(10, 11))[1 := Extent(12, 13)]
    ensures Apply(s, 2, 11, Above(0)) == Placed(Merged(length), 1)
  {
    var t := s[0 := Extent(10, 12)];
    var u := t[0 := Extent(10, 13)];
    assert u == Merged(length);
    assert PullForward(u, 1, 2) == u;
  }

  /** The second batch starts from the stale slot. */
  lemma SecondBatchStartsStale(length: nat)
    requires length >= 4
    ensures Allocate(Cleared(length, Extent(12, 13)), 1, 2, [20, 21])
            == Some(Alloc(Cleared(length, Extent(12, 13))[1 := Extent(20, 22)], 2, 2, []))
  {
    var s1 := Cleared(length, Extent(12, 13));
    var s2 := s1[1 := Extent(20, 21)];
    var s3 := s1[1 := Extent(20, 22)];
    assert s1[..1] == [Extent(12, 13)];
    assert Place(s1, 1, 20) == Placed(s2, 2);
    assert s2[..2] == [Extent(12, 13), Extent(20, 21)];
    assert Search(s2[..2], 21, 1, 1) == Above(1);
    assert Search(s2[..2], 21, 0, 1) == Above(1);
    assert s2[1 := Extent(20, 22)] == s3;
    assert Place(s2, 2, 21) == Placed(s3, 2);
    assert AllocLoop(s3, 2, 2, 2, []) == Some(Alloc(s3, 2, 2, []));
    var last: seq<nat> := [21];
    assert last[1..] == [];
    assert AllocLoop(s2, 2, 1, 2, last) == AllocLoop(s3, 2, 2, 2, []);
    assert AllocLoop(s1, 1, 0, 2, [20, 21]) == AllocLoop(s2, 2, 1, 2, [21]);
  }

  /** The writer at its first page. */
  function Begun(length: nat, disk: Disk): (w: Writer)
    requires length >= 4
    ensures w.Shaped()
  {
    Writer(true, Merged(length), 1, 0, 9, 6, 0, 100, [101, 20, 21], disk, [], [])
  }

  lemma StartIs(length: nat, disk: Disk)
    requires length >= 4
    ensures Start(true, length, 6, KERNEL, disk) == Some(Begun(length, disk))
  {
    hide Allocate;
    FirstBatchMerges(length);
    assert KERNEL[1..] == [10, 12, 11, 101, 20, 21];
  }

  /** With any number of slots in an array and whatever is saved: the run succeeds, and
      the third and the fourth page are written to the same place. */
  lemma {:induction false} TwoPagesInOnePlace(length: nat, disk: Disk, a: Bytes, b: Bytes, c: Bytes, d: Bytes)
    requires length >= 4
    ensures Start(true, length, 6, KERNEL, disk).Some?
    ensures var s := Start(true, length, 6, KERNEL, disk).value;
            && SavePages(s, [a, b, c, d]).Some?
            && SavePages(s, [a, b, c, d]).value.used == [10, 11, 12, 12]
            && !NeverStale(s, [a, b, c, d])
  {
    hide NextBatch, Merged;
    StartIs(length, disk);
    MergedIs(length);
    var s := Begun(length, disk);
    var s1 := SavePage(s, a).value;
    var s2 := SavePage(s1, b).value;
    var s3 := SavePage(s2, c).value;
    assert s3.slots == Merged(length) && s3.nr == 1 && s3.idx == 0 && s3.cur == 12 && s3.needed == 3;
    assert s3.used == [10, 11, 12] && s3.kernel == [101, 20, 21] && s3.spc == 100;
    StaleStep(length, s3, d);
    SavePagesFour(s, a, b, c, d);
  }

  lemma MergedIs(length: nat)
    requires length >= 4
    ensures Merged(length)[0] == Extent(10, 13) && Merged(length)[1] == Extent(12, 13)
  {
  }

  lemma StaleStep(length: nat, s: Writer, d: Bytes)
    requires length >= 4 && s.slots == Merged(length) && s.nr == 1 && s.idx == 0 && s.cur == 12
    requires s.needed == 3 && s.compress && s.kernel == [101, 20, 21] && s.spc == 100 && s.used == [10, 11, 12]
    ensures SavePage(s, d).Some? && SavePage(s, d).value.used == [10, 11, 12, 12] && !NoStale(s)
  {
    hide Allocate;
    SecondBatchStartsStale(length);
    assert s.kernel[1..] == [20, 21];
  }

  lemma SavePagesFour(s: Writer, a: Bytes, b: Bytes, c: Bytes, d: Bytes)
    requires s.Shaped()
    requires SavePage(s, a).Some?
    requires SavePage(SavePage(s, a).value, b).Some?
    requires SavePage(SavePage(SavePage(s, a).value, b).value, c).Some?
    ensures var s3 := SavePage(SavePage(SavePage(s, a).value, b).value, c).value;
            && SavePages(s, [a, b, c, d]) == SavePage(s3, d)
            && (NeverStale(s, [a, b, c, d]) ==> NoStale(s3))
  {
    hide SavePage, NoStale;
    assert [a, b, c, d][..3] == [a, b, c];
    assert [a, b, c][..2] == [a, b];
    assert [a, b][..1] == [a];
    assert [a][..0] == [];
    assert SavePages(s, [a]) == SavePage(s, a);
    assert SavePages(s, [a, b]) == SavePage(SavePage(s, a).value, b);
    assert SavePages(s, [a, b, c]) == SavePage(SavePage(SavePage(s, a).value, b).value, c);
  }

  /** The reader of the finished image gets the fourth page where the third was saved. */
  lemma {:induction false} FourthForThird(length: nat, disk: Disk, a: Bytes, b: Bytes, c: Bytes, d: Bytes, header: nat,
                                          page: Page, r: Reader, glance: Glance)
    requires length >= 4 && header > 0 && header !in KERNEL
    requires Start(true, length, 6, KERNEL, disk).Some?
    requires SavePages(Start(true, length, 6, KERNEL, disk).value, [a, b, c, d]).Some?
    requires var v := SavePages(Start(true, length, 6, KERNEL, disk).value, [a, b, c, d]).value;
             r.Shaped() && |r.slots| == length && r.next == FirstTable(v) && Carries(r.disk, v, header, page)
    ensures LoadTable(r, glance).Some?
    ensures Visits(LoadTable(r, glance).value, 4, glance) == [10, 11, 12, 12]
    ensures ReadPage(r.disk, 10) == Data(a) && ReadPage(r.disk, 11) == Data(b) && ReadPage(r.disk, 12) == Data(d)
  {
    hide Start, SavePages, RunOk, Kept, Carries, LoadTable, Visits;
    var s := Start(true, length, 6, KERNEL, disk).value;
    TwoPagesInOnePlace(length, disk, a, b, c, d);
    KernelDistinct(header);
    StartKeeps(true, length, 6, KERNEL, disk, header);
    Begins(s, header);
    var v := SavePages(s, [a, b, c, d]).value;
    FinishedRun(s, v, header, [a, b, c, d]);
    SavedPagesLoad(s, v, header, [a, b, c, d], page, r, glance);
    KeptFour(v, header, page, r.disk, a, b, c, d);
  }

  lemma Begins(s: Writer, header: nat)
    requires Started(true, 6, KERNEL, header, s)
    ensures s.Shaped() && RunOk(s, header) && s.used == []
  {
  }

  lemma KernelDistinct(header: nat)
    requires header !in KERNEL
    ensures NoDup(multiset{header} + multiset(KERNEL))
  {
    forall x ensures (multiset{header} + multiset(KERNEL))[x] <= 1 { }
  }

  lemma KeptFour(v: Writer, header: nat, page: Page, disk: Disk, a: Bytes, b: Bytes, c: Bytes, d: Bytes)
    requires v.Shaped() && RunOk(v, header) && v.used == [10, 11, 12, 12] && Kept(v.disk, v.used, [a, b, c, d])
    requires Carries(disk, v, header, page)
    ensures ReadPage(disk, 10) == Data(a) && ReadPage(disk, 11) == Data(b) && ReadPage(disk, 12) == Data(d)
  {
    hide RunOk, Carries, Kept, Finished, ReadPage;
    FinishedElsewhere(v, header, page);
    AtUsed(disk, v, header, page, 10);
    AtUsed(disk, v, header, page, 11);
    AtUsed(disk, v, header, page, 12);
    KeptAt(v.disk, v.used, a, b, c, d);
  }

  lemma KeptAt(disk: Disk, used: seq<int>, a: Bytes, b: Bytes, c: Bytes, d: Bytes)
    requires used == [10, 11, 12, 12] && Kept(disk, used, [a, b, c, d])
    ensures ReadPage(disk, 10) == Data(a) && ReadPage(disk, 11) == Data(b) && ReadPage(disk, 12) == Data(d)
  {
    hide ReadPage;
    assert used[0] !in used[1..] && used[1] !in used[2..] && used[3] !in used[4..];
    assert used[0] == 10 && used[1] == 11 && used[3] == 12;
  }

  lemma AtUsed(disk: Disk, v: Writer, header: nat, page: Page, o: nat)
    requires Carries(disk, v, header, page) && o in v.used
    ensures ReadPage(disk, o) == ReadPage(Finished(v, header, page), o)
  {
    assert InImage(v, header, o);
  }
}
