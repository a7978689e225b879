/** The file-like reader of load.c: it replays the chain of saved arrays of
    extents and visits the pages they hold. */
module SwapReader {
  import opened Utils
  import opened Extents
  import opened SwapSpace
  import opened SwapWriter
  import opened WriterProofs
  import opened WriterRuns

  /** What a page that is no array of extents looks like when it is read as one. */
  type Glance = Page -> seq<Extent>

  function AsTable(glance: Glance, page: Page, length: int): (s: seq<Extent>)
    requires length >= 1
    ensures |s| == length
  {
    var s := if page.Table? then page.slots else glance(page);
    if |s| == length then s else Cleared(length, NO_EXTENT)
  }

  /** The cursor of struct swap_reader; `next` is next_extents. */
  datatype Reader = Reader(slots: seq<Extent>, idx: int, cur: int, next: int, disk: Disk) {
    predicate Shaped() {
      |slots| >= 2 && 0 <= idx < |slots| - 1
    }
  }

  /** load_extents_page: nothing is read at offset 0, and that is no error. */
  function LoadTable(r: Reader, glance: Glance): (v: Option<Reader>)
    requires r.Shaped()
    ensures v.Some? ==> v.value.Shaped() && |v.value.slots| == |r.slots|
  {
    if r.next < 0 then None
    else
      var last := |r.slots| - 1;
      var t := if r.next == 0 then r.slots else AsTable(glance, ReadPage(r.disk, r.next), |r.slots|);
      Some(r.(slots := t[last := NO_EXTENT], idx := 0, cur := t[0].start, next := t[last].start))
  }

  /** find_next_image_page: a failure to load leaves offset 0. */
  function FindNext(r: Reader, glance: Glance): (v: Reader)
    requires r.Shaped()
    ensures v.Shaped() && |v.slots| == |r.slots|
  {
    if r.cur + 1 < r.slots[r.idx].end then r.(cur := r.cur + 1)
    else if r.idx + 1 < |r.slots| - 1 && Holds(r.slots[r.idx + 1]) then
      r.(idx := r.idx + 1, cur := r.slots[r.idx + 1].start)
    else
      match LoadTable(r, glance)
      case None => r.(cur := 0)
      case Some(v) => v
  }

  /** The offsets at which the next n pages are read. */
  function Visits(r: Reader, n: nat, glance: Glance): (o: seq<int>)
    requires r.Shaped()
    ensures |o| == n
    decreases n
  {
    if n == 0 then [] else [r.cur] + Visits(FindNext(r, glance), n - 1, glance)
  }

  /** The reader is in the saved array c, at the page `cur` of slot idx. */
  ghost predicate In(r: Reader, c: Closed) {
    && |c.slots| >= 2 && 1 <= c.nr < |c.slots|
    && (forall k :: 0 <= k < c.nr ==> Holds(c.slots[k]))
    && r.slots == c.slots[|c.slots| - 1 := NO_EXTENT]
    && r.next == c.slots[|c.slots| - 1].start
    && 0 <= r.idx < c.nr
    && c.slots[r.idx].start <= r.cur < c.slots[r.idx].end
  }

  function Ahead(r: Reader, c: Closed): seq<int>
    requires 0 <= r.idx < c.nr <= |c.slots|
  {
    After(c.slots[..c.nr], r.idx, r.cur)
  }

  /** While pages of the array are ahead, the reader goes to the first of them. */
  lemma StepIn(r: Reader, c: Closed, glance: Glance)
    requires In(r, c) && Ahead(r, c) != []
    ensures var v := FindNext(r, glance);
            In(v, c) && v.disk == r.disk && Ahead(r, c) == [v.cur] + Ahead(v, c)
  {
    var e := c.slots[..c.nr];
    if r.cur + 1 < c.slots[r.idx].end {
      CursorInExtent(e, r.idx, r.cur);
    } else {
      CursorToNext(e, r.idx, r.cur);
    }
  }

  /** When the array is used up, and ends where a reader can see it, the next
      one is loaded. */
  lemma StepOut(r: Reader, c: Closed, glance: Glance)
    requires In(r, c) && ClosedOk(c) && Ahead(r, c) == []
    ensures FindNext(r, glance) == match LoadTable(r, glance) case None => r.(cur := 0) case Some(v) => v
  {
    assert |Ahead(r, c)| == 0;
    if r.idx + 1 < c.nr {
      var e := c.slots[..c.nr];
      CursorToNext(e, r.idx, r.cur);
    }
  }

  /** Visits inside one array. */
  lemma {:induction false} VisitsInside(r: Reader, c: Closed, n: nat, glance: Glance)
    requires In(r, c) && n <= 1 + |Ahead(r, c)|
    ensures Visits(r, n, glance) == ([r.cur] + Ahead(r, c))[..n]
    decreases n
  {
    if n > 1 {
      StepIn(r, c, glance);
      VisitsInside(FindNext(r, glance), c, n - 1, glance);
    } else if n == 1 {
      assert Visits(FindNext(r, glance), 0, glance) == [];
    }
  }

  /** Visits through a whole array and on into the next one. */
  lemma {:induction false} VisitsThrough(r: Reader, c: Closed, m: nat, glance: Glance)
    requires In(r, c) && ClosedOk(c) && LoadTable(r, glance).Some?
    ensures Visits(r, 1 + |Ahead(r, c)| + m, glance)
            == [r.cur] + Ahead(r, c) + Visits(LoadTable(r, glance).value, m, glance)
    decreases |Ahead(r, c)|
  {
    var rest := Visits(LoadTable(r, glance).value, m, glance);
    if Ahead(r, c) == [] {
      StepOut(r, c, glance);
      assert Visits(r, 1 + m, glance) == [r.cur] + rest;
    } else {
      StepIn(r, c, glance);
      var v := FindNext(r, glance);
      SameLoad(r, v, glance);
      VisitsThrough(v, c, m, glance);
      Assoc([r.cur], [v.cur] + Ahead(v, c), rest);
    }
  }

  /** Which array is loaded next depends only on the link. */
  lemma SameLoad(r: Reader, v: Reader, glance: Glance)
    requires r.Shaped() && v.Shaped() && v == r.(idx := v.idx, cur := v.cur)
    ensures LoadTable(r, glance) == LoadTable(v, glance)
  {
  }

  // ---------------------------------------------------------------------
  // Lockstep over the chain.

  /** A finished chain: all arrays on the disk, each but the last one linked to
      the next.  Nothing is said about the end of the last array. */
  ghost predicate Chain(disk: Disk, ts: seq<Closed>, length: int) {
    && ts != [] && length >= 2
    && (forall i :: 0 <= i < |ts| ==>
          && |ts[i].slots| == length && 1 <= ts[i].nr < length && ts[i].loc > 0
          && (forall k :: 0 <= k < ts[i].nr ==> Holds(ts[i].slots[k])))
    && (forall i :: 0 <= i < |ts| ==> ReadPage(disk, ts[i].loc) == Table(ts[i].slots))
    && (forall i :: 0 <= i < |ts| - 1 ==> ClosedOk(ts[i]) && ts[i].slots[length - 1].start == ts[i + 1].loc)
  }

  function ChainFrom(ts: seq<Closed>, i: nat): seq<int>
    requires i <= |ts| && forall c :: c in ts ==> 0 <= c.nr <= |c.slots|
    decreases |ts| - i
  {
    if i == |ts| then [] else Offsets(ts[i].slots[..ts[i].nr]) + ChainFrom(ts, i + 1)
  }

  lemma {:induction false} LoadsTable(r: Reader, c: Closed, glance: Glance)
    requires r.Shaped() && r.next == c.loc > 0 && |c.slots| == |r.slots|
    requires ReadPage(r.disk, c.loc) == Table(c.slots)
    requires 1 <= c.nr < |c.slots| && forall k :: 0 <= k < c.nr ==> Holds(c.slots[k])
    ensures var v := LoadTable(r, glance);
            && v.Some? && In(v.value, c) && v.value.disk == r.disk
            && [v.value.cur] + Ahead(v.value, c) == Offsets(c.slots[..c.nr])
  {
    var e := c.slots[..c.nr];
    var cur := e[0].start;
    assert e[..0] == [];
    assert Run(cur, cur + 1) == [cur];
    CursorSplits(e, 0, cur);
  }

  /** The reader follows the chain: the pages it visits are the pages in use of
      the arrays, in order, for as long as there are any. */
  lemma {:induction false} VisitsChain(r: Reader, ts: seq<Closed>, i: nat, n: nat, glance: Glance)
    requires r.Shaped() && Chain(r.disk, ts, |r.slots|) && i < |ts| && r.next == ts[i].loc
    requires n <= |ChainFrom(ts, i)|
    ensures LoadTable(r, glance).Some?
    ensures Visits(LoadTable(r, glance).value, n, glance) == ChainFrom(ts, i)[..n]
    decreases |ts| - i
  {
    ChainAt(r, ts, i, glance);
    hide Visits, LoadTable, Offsets, Chain, ChainFrom, In, Ahead, ClosedOk;
    var v := LoadTable(r, glance).value;
    var o := Offsets(ts[i].slots[..ts[i].nr]);
    if n <= |o| {
      VisitsInside(v, ts[i], n, glance);
      TakeFirst(o, ChainFrom(ts, i + 1), n);
    } else {
      ChainEnds(ts, i, n - |o|);
      VisitsChain(v, ts, i + 1, n - |o|, glance);
      VisitsOn(v, ts[i], o, ChainFrom(ts, i + 1), n, glance);
    }
  }

  /** Through one array and into those behind it. */
  lemma VisitsOn(v: Reader, c: Closed, o: seq<int>, rest: seq<int>, n: nat, glance: Glance)
    requires In(v, c) && ClosedOk(c) && LoadTable(v, glance).Some?
    requires o == [v.cur] + Ahead(v, c) && |o| <= n <= |o| + |rest|
    requires Visits(LoadTable(v, glance).value, n - |o|, glance) == rest[..n - |o|]
    ensures Visits(v, n, glance) == (o + rest)[..n]
  {
    hide Visits, LoadTable, Ahead, In, ClosedOk;
    VisitsThrough(v, c, n - |o|, glance);
    TakeBeyond(o, rest, n);
  }

  /** What loading array i of a chain gives. */
  lemma ChainAt(r: Reader, ts: seq<Closed>, i: nat, glance: Glance)
    requires r.Shaped() && Chain(r.disk, ts, |r.slots|) && i < |ts| && r.next == ts[i].loc
    ensures 0 <= ts[i].nr <= |ts[i].slots| && forall c :: c in ts ==> 0 <= c.nr <= |c.slots|
    ensures ChainFrom(ts, i) == Offsets(ts[i].slots[..ts[i].nr]) + ChainFrom(ts, i + 1)
    ensures LoadTable(r, glance).Some?
    ensures var v := LoadTable(r, glance).value;
            && v.Shaped() && |v.slots| == |r.slots| && In(v, ts[i]) && Chain(v.disk, ts, |v.slots|)
            && [v.cur] + Ahead(v, ts[i]) == Offsets(ts[i].slots[..ts[i].nr])
            && (i + 1 < |ts| ==> ClosedOk(ts[i]) && v.next == ts[i + 1].loc)
  {
    hide Offsets, Ahead;
    LoadsTable(r, ts[i], glance);
  }

  lemma ChainEnds(ts: seq<Closed>, i: nat, n: nat)
    requires i < |ts| && (forall c :: c in ts ==> 0 <= c.nr <= |c.slots|) && 0 < n <= |ChainFrom(ts, i + 1)|
    ensures i + 1 < |ts|
  {
  }

  lemma TakeFirst(a: seq<int>, b: seq<int>, n: nat)
    requires n <= |a|
    ensures (a + b)[..n] == a[..n]
  {
  }

  lemma TakeBeyond(a: seq<int>, b: seq<int>, n: nat)
    requires |a| <= n <= |a| + |b|
    ensures (a + b)[..n] == a + b[..n - |a|]
  {
  }

  lemma {:induction false} ClosedOffsetsFrom(ts: seq<Closed>, i: nat)
    requires i <= |ts| && forall c :: c in ts ==> 0 <= c.nr <= |c.slots|
    ensures ClosedOffsets(ts) == ClosedOffsets(ts[..i]) + ChainFrom(ts, i)
    decreases |ts| - i
  {
    if i == |ts| {
      assert ts[..i] == ts;
    } else {
      ClosedOffsetsFrom(ts, i + 1);
      assert ts[..i + 1][..i] == ts[..i];
      Assoc(ClosedOffsets(ts[..i]), Offsets(ts[i].slots[..ts[i].nr]), ChainFrom(ts, i + 1));
    }
  }
}
