/** What every call of next_swap_page keeps: which pages are where, and in which
    order they are used. */
module WriterProofs {
  import opened Utils
  import opened Extents
  import opened SwapSpace
  import opened AllocSwap
  import opened SwapWriter

  /** The pages of a list of extents up to and including the cursor, and those
      behind it. */
  function Before(s: seq<Extent>, idx: int, cur: int): seq<int>
    requires 0 <= idx < |s|
  {
    Offsets(s[..idx]) + Run(s[idx].start, cur + 1)
  }

  function After(s: seq<Extent>, idx: int, cur: int): seq<int>
    requires 0 <= idx < |s|
  {
    Run(cur + 1, s[idx].end) + Offsets(s[idx + 1..])
  }

  lemma CursorSplits(s: seq<Extent>, idx: int, cur: int)
    requires 0 <= idx < |s| && s[idx].start <= cur + 1 <= s[idx].end
    ensures Before(s, idx, cur) + After(s, idx, cur) == Offsets(s)
  {
    OffsetsCut(s, idx, idx + 1);
    OffsetsOfOne(s, idx);
    RunJoin(s[idx].start, cur + 1, s[idx].end);
    FourParts(Offsets(s[..idx]), Run(s[idx].start, cur + 1), Run(cur + 1, s[idx].end), Offsets(s[idx + 1..]));
  }

  lemma FourParts(a: seq<int>, b: seq<int>, c: seq<int>, d: seq<int>)
    ensures (a + b) + (c + d) == (a + (b + c)) + d
  {
  }

  lemma CursorInExtent(s: seq<Extent>, idx: int, cur: int)
    requires 0 <= idx < |s| && s[idx].start <= cur + 1 < s[idx].end
    ensures Before(s, idx, cur + 1) == Before(s, idx, cur) + [cur + 1]
    ensures After(s, idx, cur) == [cur + 1] + After(s, idx, cur + 1)
  {
    RunJoin(s[idx].start, cur + 1, cur + 2);
    assert Run(cur + 1, cur + 2) == [cur + 1];
  }

  lemma CursorToNext(s: seq<Extent>, idx: int, cur: int)
    requires 0 <= idx && idx + 1 < |s| && s[idx].start <= cur + 1 == s[idx].end && Holds(s[idx + 1])
    ensures var c := s[idx + 1].start;
            && Before(s, idx + 1, c) == Before(s, idx, cur) + [c]
            && After(s, idx, cur) == [c] + After(s, idx + 1, c)
  {
    var k := idx + 1;
    OffsetsCut(s[..k], idx, k);
    assert s[..k][idx..k] == s[idx..k] && s[..k][..idx] == s[..idx] && s[..k][k..] == [];
    OffsetsOfOne(s, idx);
    assert Before(s, idx, cur) == Offsets(s[..k]);
    assert Run(s[k].start, s[k].start + 1) == [s[k].start];
    assert s[k..][0] == s[k] && s[k..][1..] == s[k + 1..];
  }

  /** The pages of the current batch handed out so far, and those still to come. */
  function Consumed(w: Writer): seq<int>
    requires w.Shaped()
  {
    Before(w.slots[..w.nr], w.idx, w.cur)
  }

  function Left(w: Writer): seq<int>
    requires w.Shaped()
  {
    After(w.slots[..w.nr], w.idx, w.cur)
  }

  predicate HasCarry(w: Writer)
    requires w.Shaped()
  {
    w.nr == |w.slots| - 1 && Holds(w.slots[w.nr])
  }

  function Carry(w: Writer): multiset<int>
    requires w.Shaped()
  {
    if HasCarry(w) then multiset{w.slots[w.nr].start} else multiset{}
  }

  /** The number of slots that alloc_swap filled. */
  function Filled(w: Writer): int
    requires w.Shaped()
  {
    if HasCarry(w) then w.nr + 1 else w.nr
  }

  ghost predicate BatchOk(w: Writer) {
    && w.Shaped()
    && Tidy(w.slots, Filled(w))
    && w.slots[w.idx].start <= w.cur + 1 <= w.slots[w.idx].end
  }

  lemma BatchAround(w: Writer)
    requires BatchOk(w)
    ensures Holds(w.slots[w.idx]) && 0 < w.slots[w.idx].start
    ensures w.idx + 1 < w.nr ==> Holds(w.slots[w.idx + 1]) && 0 < w.slots[w.idx + 1].start
  {
    var e := w.slots[..w.nr];
    assert e == w.slots[..Used(w.slots, Filled(w))];
    CanonicalAround(e, w.idx);
  }

  /** Inside a batch the cursor takes the next page of those left. */
  lemma StepInBatch(w: Writer)
    requires BatchOk(w) && !Exhausted(w)
    ensures var r := Advance(w);
            && r.Some?
            && r.value == w.(idx := r.value.idx, cur := r.value.cur)
            && BatchOk(r.value) && r.value.cur > 0
            && Left(w) == [r.value.cur] + Left(r.value)
            && Consumed(r.value) == Consumed(w) + [r.value.cur]
  {
    BatchAround(w);
    var e := w.slots[..w.nr];
    if w.cur + 1 < w.slots[w.idx].end {
      CursorInExtent(e, w.idx, w.cur);
    } else {
      CursorToNext(e, w.idx, w.cur);
    }
  }

  lemma ExhaustedMeans(w: Writer)
    requires BatchOk(w) && Exhausted(w)
    ensures Left(w) == [] && w.idx + 1 == w.nr
    ensures Consumed(w) == Offsets(w.slots[..w.nr])
  {
    var e := w.slots[..w.nr];
    assert e[w.idx + 1..] == [];
    CursorSplits(e, w.idx, w.cur);
  }

  // ---------------------------------------------------------------------
  // Which pages the writer holds.

  function Locations(closed: seq<Closed>): seq<nat> {
    if closed == [] then [] else Locations(closed[..|closed| - 1]) + [closed[|closed| - 1].loc]
  }

  /** Pages set aside for the header and for arrays of extents. */
  function Tables(w: Writer, header: nat): multiset<int> {
    multiset{header} + multiset(Locations(w.closed)) + multiset{w.spc}
  }

  /** Pages set aside for image data: used, left in the batch, and the carry. */
  function DataPages(w: Writer): multiset<int>
    requires w.Shaped()
  {
    multiset(w.used) + multiset(Left(w)) + Carry(w)
  }

  /** Pages that cannot become data pages any more, or are not yet. */
  function Reserved(w: Writer, header: nat): multiset<int> {
    Tables(w, header) + multiset(w.kernel)
  }

  /** The stale extent that next_swap_page takes for a carry, if any. */
  function StalePages(w: Writer): multiset<int>
    requires w.Shaped()
  {
    if Exhausted(w) && w.nr < |w.slots| - 1 then multiset(Run(Behind(w).start, Behind(w).end)) else multiset{}
  }

  /** Table pages, data pages and the pages still with the kernel never mix. */
  ghost predicate Apart(w: Writer, header: nat) {
    && w.Shaped()
    && NoDup(Reserved(w, header))
    && (forall x :: x in DataPages(w) ==> x !in Reserved(w, header))
    && 0 !in Tables(w, header)
  }

  /** The pages used so far end with those of the current batch. */
  ghost predicate Tracked(w: Writer) {
    && BatchOk(w)
    && |Consumed(w)| <= |w.used|
    && w.used[|w.used| - |Consumed(w)|..] == Consumed(w)
  }

  lemma BagOfBatch(w: Writer)
    requires BatchOk(w)
    ensures Bag(w.slots, Filled(w)) == multiset(Offsets(w.slots[..w.nr])) + Carry(w)
  {
  }

  lemma BatchFromAlloc(w: Writer, nr: int)
    requires Tidy(w.slots, nr) && w.nr == Used(w.slots, nr) && w.idx == 0 && w.cur == w.slots[0].start
    ensures BatchOk(w) && w.cur > 0 && HasCarry(w) == (nr == |w.slots|)
    ensures multiset(Offsets(w.slots[..w.nr])) + Carry(w) == Bag(w.slots, nr)
  {
    assert Filled(w) == nr;
    CanonicalAround(w.slots[..w.nr], 0);
    BagOfBatch(w);
  }

  /** Preallocation hands over the initial pages and the pages it takes from the
      kernel, and sets the cursor to the first of them. */
  lemma PreallocateKeeps(v: Writer)
    requires Initial(v.slots, v.nr) && NoDup(Bag(v.slots, v.nr) + multiset(v.kernel))
    ensures match Preallocate(v)
            case None => true
            case Some(w) =>
              && BatchOk(w) && w.idx == 0 && w.cur == w.slots[0].start > 0
              && w == v.(slots := w.slots, nr := w.nr, idx := 0, cur := w.cur, kernel := w.kernel)
              && multiset(Offsets(w.slots[..w.nr])) + Carry(w) + multiset(w.kernel)
                 == Bag(v.slots, v.nr) + multiset(v.kernel)
              && multiset(w.kernel) <= multiset(v.kernel)
              && (HasCarry(w) || |Offsets(w.slots[..w.nr])| >= Request(v.compress, v.needed))
  {
    var total := Request(v.compress, v.needed);
    AllocateKeeps(v.slots, v.nr, total, v.kernel);
    if v.needed >= 1 {
      match Allocate(v.slots, v.nr, total, v.kernel) {
        case None =>
        case Some(a) =>
          var w := Preallocate(v).value;
          BatchFromAlloc(w, a.nr);
          if a.nr < |a.slots| {
            BagSizes(Offsets(w.slots[..w.nr]), a.kernel, Bag(v.slots, v.nr), v.kernel);
          }
      }
    }
  }

  lemma BagSizes(x: seq<int>, k': seq<nat>, b: multiset<int>, k: seq<nat>)
    requires multiset(x) + multiset(k') == b + multiset(k)
    ensures |x| + |k'| == |b| + |k|
  {
    var m: multiset<int> := multiset(k);
    var m': multiset<int> := multiset(k');
    assert |multiset(x) + m'| == |x| + |k'|;
    assert |b + m| == |b| + |k|;
  }

  /** The pages the next batch starts with: the carry, or a stale extent. */
  function Taken(w: Writer): multiset<int>
    requires w.Shaped()
  {
    multiset(Run(Behind(w).start, Behind(w).end))
  }

  lemma {:induction false} OffsetsPositive(e: seq<Extent>, q: int)
    requires Canonical(e) && q in Offsets(e)
    ensures q > 0
  {
    InRun(e[0].start, e[0].end, q);
    if q !in Run(e[0].start, e[0].end) {
      OffsetsPositive(e[1..], q);
    }
  }

  lemma {:induction false} RunNoDup(s: int, e: int)
    ensures NoDup(multiset(Run(s, e)))
    decreases e - s
  {
    if s < e {
      RunNoDup(s + 1, e);
      InRun(s + 1, e, s);
      assert multiset(Run(s, e)) == multiset{s} + multiset(Run(s + 1, e));
      assert s !in multiset(Run(s + 1, e));
    }
  }

  /** At the end of a batch, what is behind the extents in use is the carry, a
      stale copy of pages already used, or nothing. */
  lemma BehindIs(w: Writer)
    requires Tracked(w) && Exhausted(w)
    ensures Taken(w) == Carry(w) + StalePages(w)
    ensures HasCarry(w) ==> Taken(w) == multiset{Behind(w).start} && Behind(w).start > 0
    ensures !HasCarry(w) ==> forall q :: q in Taken(w) ==> q in w.used && q > 0
    ensures Holds(Behind(w)) ==> Behind(w).start in Taken(w)
  {
    ExhaustedMeans(w);
    var b := Behind(w);
    if Holds(b) { InRun(b.start, b.end, b.start); }
    if HasCarry(w) {
      assert Run(b.start, b.end) == [b.start];
    } else {
      assert Within(b, w.slots[..w.nr]);
      forall q | q in Taken(w) ensures q in w.used && q > 0 {
        assert q in Consumed(w);
        OffsetsPositive(w.slots[..w.nr], q);
      }
    }
  }

  lemma TakenFresh(w: Writer, header: nat, k: seq<nat>)
    requires Tracked(w) && Exhausted(w) && Apart(w, header)
    requires multiset(k) <= multiset(w.kernel)
    ensures NoDup(Taken(w) + multiset(k))
  {
    BehindIs(w);
    RunNoDup(Behind(w).start, Behind(w).end);
    TakenIsData(w);
    ApartFrom(Taken(w), multiset(k), DataPages(w), Reserved(w, header));
  }

  lemma TakenIsData(w: Writer)
    requires Tracked(w) && Exhausted(w)
    ensures forall x :: x in Taken(w) ==> x in DataPages(w)
  {
    BehindIs(w);
    hide Offsets, Canonical, Tidy;
  }

  lemma ApartFrom(t: multiset<int>, k: multiset<int>, d: multiset<int>, r: multiset<int>)
    requires NoDup(t) && NoDup(r) && k <= r
    requires (forall x :: x in t ==> x in d) && (forall x :: x in d ==> x !in r)
    ensures NoDup(t + k)
  {
    forall x ensures (t + k)[x] <= 1 {
      assert r[x] <= 1 && k[x] <= r[x] && t[x] <= 1;
      if x in t { assert x !in r; }
    }
  }

  /** A saved array: its slots in use all hold pages, and the next one ends the
      list for a reader that ignores the last slot. */
  ghost predicate ClosedOk(c: Closed) {
    && 1 <= c.nr < |c.slots| && |c.slots| >= 2
    && (forall k :: 0 <= k < c.nr ==> Holds(c.slots[k]))
    && (c.nr < |c.slots| - 1 ==> !Holds(c.slots[c.nr]))
  }

  /** The array as it is saved when the batch is exhausted. */
  function SavedSlots(w: Writer, next: nat): (s: seq<Extent>)
    requires w.Shaped()
    ensures |s| == |w.slots|
  {
    var t := if Holds(Behind(w)) then w.slots[w.idx + 1 := NO_EXTENT] else w.slots;
    t[|t| - 1 := Extent(next, t[|t| - 1].end)]
  }

  lemma SavedSlotsOk(w: Writer, next: nat)
    requires BatchOk(w) && Exhausted(w)
    ensures var s := SavedSlots(w, next);
            s[..w.nr] == w.slots[..w.nr] && ClosedOk(Closed(w.spc, s, w.nr)) && s[|s| - 1].start == next
  {
    ExhaustedMeans(w);
    forall k | 0 <= k < w.nr ensures Holds(w.slots[k]) {
      CanonicalAt(w.slots[..w.nr], k, k);
    }
  }

  /** The state that NextBatch preallocates from. */
  function Reopened(w: Writer): Writer
    requires w.Shaped() && w.kernel != []
  {
    var s := SavedSlots(w, w.kernel[0]);
    w.(slots := Cleared(|w.slots|, if Holds(Behind(w)) then Behind(w) else NO_EXTENT),
       nr := if Holds(Behind(w)) then 1 else 0,
       disk := w.disk[w.spc := Table(s)], spc := w.kernel[0], kernel := w.kernel[1..],
       closed := w.closed + [Closed(w.spc, s, w.nr)])
  }

  lemma NextBatchReopens(w: Writer)
    requires w.Shaped()
    ensures NextBatch(w) == if w.spc == 0 || w.kernel == [] || w.kernel[0] == 0 then None
                            else Preallocate(Reopened(w))
  {
  }

  lemma ReopenedInitial(w: Writer)
    requires Tracked(w) && Exhausted(w) && w.kernel != []
    ensures var v := Reopened(w); Initial(v.slots, v.nr) && Bag(v.slots, v.nr) == Taken(w)
  {
    BehindIs(w);
    ReopenedWith(w, Behind(w));
  }

  lemma ReopenedWith(w: Writer, b: Extent)
    requires w.Shaped() && w.kernel != [] && b == Behind(w)
    requires HasCarry(w) ==> Taken(w) == multiset{b.start} && b.start > 0
    requires !HasCarry(w) ==> forall q :: q in Taken(w) ==> q > 0
    requires Holds(b) ==> b.start in Taken(w)
    ensures var v := Reopened(w); Initial(v.slots, v.nr) && Bag(v.slots, v.nr) == Taken(w)
  {
    var v := Reopened(w);
    if Holds(b) {
      assert v.slots[..1] == [b];
      OffsetsOne(b);
    }
  }

  /** A new batch holds the pages taken over from behind the old one and pages
      that were still with the kernel. */
  lemma NextBatchKeeps(w: Writer, header: nat)
    requires Tracked(w) && Exhausted(w) && Apart(w, header)
    ensures match NextBatch(w)
            case None => true
            case Some(u) =>
              && w.kernel != [] && w.kernel[0] != 0
              && BatchOk(u) && u.idx == 0 && u.cur == u.slots[0].start > 0
              && u == Reopened(w).(slots := u.slots, nr := u.nr, idx := 0, cur := u.cur, kernel := u.kernel)
              && multiset(Offsets(u.slots[..u.nr])) + Carry(u) + multiset(u.kernel)
                 == Taken(w) + multiset(w.kernel[1..])
              && multiset(u.kernel) <= multiset(w.kernel[1..])
              && (HasCarry(u) || |Offsets(u.slots[..u.nr])| >= Request(w.compress, w.needed))
              && w.needed >= 1
  {
    NextBatchReopens(w);
    if NextBatch(w).Some? {
      BagHead(w.kernel);
      TakenFresh(w, header, w.kernel[1..]);
      ReopenedInitial(w);
      PreallocateKeeps(Reopened(w));
    }
  }

  /** One page moves from left to used. */
  lemma UseOne(used: seq<int>, left: seq<int>, left': seq<int>, c: int)
    requires left == [c] + left'
    ensures multiset(used) + multiset(left) == multiset(used + [c]) + multiset(left')
  {
  }

  lemma TrackedStep(used: seq<int>, consumed: seq<int>, c: int)
    requires |consumed| <= |used| && used[|used| - |consumed|..] == consumed
    ensures (used + [c])[|used| - |consumed|..] == consumed + [c]
  {
  }

  /** Conservation: next_swap_page moves pages between the kernel, the tables,
      the batch and the used ones; only a stale extent adds pages twice. */
  ghost predicate Conserves(w: Writer, u: Writer, header: nat)
    requires w.Shaped() && u.Shaped()
  {
    && DataPages(u) + Reserved(u, header) == DataPages(w) + Reserved(w, header) + StalePages(w)
    && Reserved(u, header) <= Reserved(w, header)
  }

  lemma NextInBatch(w: Writer, header: nat)
    requires Tracked(w) && !Exhausted(w)
    ensures NextSwapPage(w).Some?
    ensures var u := NextSwapPage(w).value;
            && Tracked(u) && Conserves(w, u, header)
            && u == w.(idx := u.idx, cur := u.cur, used := w.used + [u.cur])
            && Left(w) == [u.cur] + Left(u)
            && HasCarry(u) == HasCarry(w)
  {
    StepInBatch(w);
    var v := Advance(w).value;
    var u := v.(used := w.used + [v.cur]);
    SameBatch(v, u);
    StillTracked(w, u);
    StepConserves(w, u, header);
  }

  lemma StillTracked(w: Writer, u: Writer)
    requires Tracked(w) && BatchOk(u)
    requires u.used == w.used + [u.cur] && Consumed(u) == Consumed(w) + [u.cur]
    ensures Tracked(u)
  {
    TrackedStep(w.used, Consumed(w), u.cur);
  }

  lemma SameBatch(v: Writer, u: Writer)
    requires BatchOk(v) && u == v.(used := u.used)
    ensures BatchOk(u) && Left(u) == Left(v) && Consumed(u) == Consumed(v) && Carry(u) == Carry(v)
  {
  }

  lemma StepConserves(w: Writer, u: Writer, header: nat)
    requires w.Shaped() && u.Shaped() && !Exhausted(w)
    requires u == w.(idx := u.idx, cur := u.cur, used := w.used + [u.cur])
    requires Left(w) == [u.cur] + Left(u)
    ensures Conserves(w, u, header)
  {
    hide Offsets, Run, Locations;
    UseOne(w.used, Left(w), Left(u), u.cur);
    assert Carry(u) == Carry(w) && Reserved(u, header) == Reserved(w, header);
  }

  lemma FirstOfBatch(u: Writer)
    requires BatchOk(u) && u.idx == 0 && u.cur == u.slots[0].start
    ensures Consumed(u) == [u.cur] && Offsets(u.slots[..u.nr]) == [u.cur] + Left(u)
  {
    BatchAround(u);
    assert u.slots[..u.nr][..0] == [];
    assert Run(u.cur, u.cur + 1) == [u.cur];
    CursorSplits(u.slots[..u.nr], 0, u.cur);
  }

  lemma LocationsGrow(closed: seq<Closed>, c: Closed)
    ensures Locations(closed + [c]) == Locations(closed) + [c.loc]
  {
    assert (closed + [c])[..|closed|] == closed;
  }

  lemma TablesGrow(w: Writer, u: Writer, header: nat)
    requires w.Shaped() && w.kernel != []
    requires u.closed == Reopened(w).closed && u.spc == w.kernel[0]
    ensures Tables(u, header) == Tables(w, header) + multiset{w.kernel[0]}
  {
    LocationsGrow(w.closed, u.closed[|u.closed| - 1]);
  }

  lemma NextInNewBatch(w: Writer, header: nat)
    requires Tracked(w) && Exhausted(w) && Apart(w, header)
    ensures match NextSwapPage(w)
            case None => true
            case Some(u) =>
              && w.kernel != [] && w.kernel[0] != 0
              && Tracked(u) && Conserves(w, u, header)
              && u == Reopened(w).(slots := u.slots, nr := u.nr, idx := 0, cur := u.cur,
                                   kernel := u.kernel, used := w.used + [u.cur])
              && Consumed(u) == [u.cur]
              && u.cur > 0 && |u.slots| == |w.slots|
              && (HasCarry(u) || |Left(u)| + 1 >= Request(w.compress, w.needed))
              && w.needed >= 1
  {
    assert w.Shaped();
    assert w.kernel != [] ==> Reopened(w).spc == w.kernel[0];
    hide Tracked, Apart, Reopened, NextBatch, BatchOk, Offsets, Left, Consumed, Carry, Taken, DataPages, Reserved;
    NextBatchKeeps(w, header);
    if NextSwapPage(w).Some? {
      var v, u := NextBatch(w).value, NextSwapPage(w).value;
      assert u == v.(used := w.used + [v.cur]) by { NewBatchUsed(w); }
      FirstOfBatch(v);
      SameBatch(v, u);
      NewBatchTracked(w, u);
      NewBatchConserves(w, u, header);
    }
  }

  lemma NewBatchUsed(w: Writer)
    requires w.Shaped() && Exhausted(w) && NextSwapPage(w).Some?
    ensures NextBatch(w).Some?
    ensures NextSwapPage(w).value == NextBatch(w).value.(used := w.used + [NextBatch(w).value.cur])
  {
  }

  lemma NewBatchTracked(w: Writer, u: Writer)
    requires BatchOk(u) && Consumed(u) == [u.cur] && u.used == w.used + [u.cur]
    ensures Tracked(u)
  {
    assert u.used[|u.used| - 1..] == [u.cur];
  }

  lemma NewBatchConserves(w: Writer, u: Writer, header: nat)
    requires Tracked(w) && Exhausted(w) && w.kernel != [] && u.Shaped()
    requires u.closed == Reopened(w).closed && u.spc == w.kernel[0] && u.used == w.used + [u.cur]
    requires Offsets(u.slots[..u.nr]) == [u.cur] + Left(u)
    requires multiset(Offsets(u.slots[..u.nr])) + Carry(u) + multiset(u.kernel) == Taken(w) + multiset(w.kernel[1..])
    requires multiset(u.kernel) <= multiset(w.kernel[1..])
    ensures Conserves(w, u, header)
  {
    hide Conserves, Offsets, Left, Carry, Reopened, Tables;
    BehindIs(w);
    ExhaustedMeans(w);
    BagHead(w.kernel);
    TablesGrow(w, u, header);
    UseOne(w.used, Offsets(u.slots[..u.nr]), Left(u), u.cur);
    NewBatchAdds(w, u, header);
  }

  lemma NewBatchAdds(w: Writer, u: Writer, header: nat)
    requires w.Shaped() && u.Shaped() && w.kernel != []
    requires Tables(u, header) == Tables(w, header) + multiset{w.kernel[0]}
    requires multiset(w.kernel) == multiset{w.kernel[0]} + multiset(w.kernel[1..])
    requires Taken(w) == Carry(w) + StalePages(w) && Left(w) == []
    requires multiset(w.used) + multiset(Offsets(u.slots[..u.nr])) == multiset(u.used) + multiset(Left(u))
    requires multiset(Offsets(u.slots[..u.nr])) + Carry(u) + multiset(u.kernel) == Taken(w) + multiset(w.kernel[1..])
    requires multiset(u.kernel) <= multiset(w.kernel[1..])
    ensures Conserves(w, u, header)
  {
    Balance(multiset(w.used), multiset(Offsets(u.slots[..u.nr])), multiset(u.used), multiset(Left(u)),
            Carry(u), Carry(w), StalePages(w), multiset(w.kernel[1..]), multiset(u.kernel),
            Tables(w, header), multiset{w.kernel[0]});
  }

  lemma Balance(used: multiset<int>, batch: multiset<int>, used': multiset<int>, left': multiset<int>,
                carry': multiset<int>, carry: multiset<int>, stale: multiset<int>,
                k: multiset<int>, k': multiset<int>, tables: multiset<int>, q: multiset<int>)
    requires used + batch == used' + left'
    requires batch + carry' + k' == carry + stale + k
    requires k' <= k
    ensures (used' + left' + carry') + (tables + q + k') == (used + multiset{} + carry) + (tables + (q + k)) + stale
    ensures tables + q + k' <= tables + (q + k)
  {
    forall x
      ensures (used' + left')[x] + carry'[x] + k'[x] == used[x] + carry[x] + stale[x] + k[x]
    {
      assert (used + batch)[x] == (used' + left')[x];
      assert (batch + carry' + k')[x] == (carry + stale + k)[x];
    }
  }
}
