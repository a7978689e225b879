/** When the pages of a run are pairwise distinct. */
module Reuse {
  import opened Utils
  import opened LittleEndian
  import opened SwapWriter
  import opened WriterProofs
  import opened WriterRuns

  /** The pages of the stale extents that the calls of a run took for carries. */
  function Borrowed(w: Writer, pages: seq<Bytes>): multiset<int>
    requires w.Shaped()
    decreases |pages|
  {
    if pages == [] then multiset{}
    else
      var before := pages[..|pages| - 1];
      Borrowed(w, before)
      + (match SavePages(w, before) case None => multiset{} case Some(v) => StalePages(v))
  }

  /** Some call gave out a page of a stale extent that it, or an earlier call, took. */
  predicate Reuses(w: Writer, pages: seq<Bytes>)
    requires w.Shaped()
    decreases |pages|
  {
    pages != [] && (
      || Reuses(w, pages[..|pages| - 1])
      || (match SavePages(w, pages) case None => false case Some(v) => v.cur in Borrowed(w, pages))
    )
  }

  /** The last call of a run. */
  lemma LastCall(w: Writer, header: nat, pages: seq<Bytes>)
    requires w.Shaped() && RunOk(w, header) && SavePages(w, pages).Some? && pages != []
    ensures SavePages(w, pages[..|pages| - 1]).Some?
    ensures var v := SavePages(w, pages[..|pages| - 1]).value;
            v.Shaped() && RunOk(v, header) && SavePages(w, pages) == SavePage(v, pages[|pages| - 1])
  {
    SavePagesKeeps(w, header, pages[..|pages| - 1]);
  }

  /** A run conserves pages, up to those borrowed. */
  lemma {:induction false} BorrowedAdds(w: Writer, header: nat, pages: seq<Bytes>)
    requires w.Shaped() && RunOk(w, header) && SavePages(w, pages).Some?
    ensures var v := SavePages(w, pages).value;
            DataPages(v) + Reserved(v, header) == DataPages(w) + Reserved(w, header) + Borrowed(w, pages)
    decreases |pages|
  {
    hide RunOk, DataPages, Reserved, StalePages, SavePages;
    if pages == [] {
      SavesNothing(w);
    } else {
      var before := pages[..|pages| - 1];
      LastCall(w, header, pages);
      BorrowedAdds(w, header, before);
      BorrowedStep(SavePages(w, before).value, header, pages[|pages| - 1]);
    }
  }

  lemma SavesNothing(w: Writer)
    requires w.Shaped()
    ensures SavePages(w, []) == Some(w)
  {
  }

  lemma BorrowedStep(v: Writer, header: nat, src: Bytes)
    requires v.Shaped() && RunOk(v, header) && SavePage(v, src).Some?
    ensures var u := SavePage(v, src).value;
            && DataPages(u) + Reserved(u, header) == DataPages(v) + Reserved(v, header) + StalePages(v)
            && (forall x :: x in StalePages(v) ==> x in v.used)
            && u.used == v.used + [u.cur]
  {
    SavePageKeeps(v, header, src);
    StaleIsUsed(v);
  }

  /** What was borrowed had been used before. */
  lemma {:induction false} BorrowedIsUsed(w: Writer, header: nat, pages: seq<Bytes>)
    requires w.Shaped() && RunOk(w, header) && SavePages(w, pages).Some? && pages != []
    ensures SavePages(w, pages[..|pages| - 1]).Some?
    ensures forall x :: x in Borrowed(w, pages) ==> x in SavePages(w, pages[..|pages| - 1]).value.used
    decreases |pages|
  {
    hide RunOk, DataPages, Reserved, StalePages, SavePages, SavePage;
    var before := pages[..|pages| - 1];
    LastCall(w, header, pages);
    var v := SavePages(w, before).value;
    BorrowedStep(v, header, pages[|pages| - 1]);
    if before != [] {
      LastCall(w, header, before);
      BorrowedIsUsed(w, header, before);
      BorrowedStep(SavePages(w, before[..|before| - 1]).value, header, before[|before| - 1]);
    }
  }

  /** The pages of a run are pairwise distinct exactly when no call gives out a page
      of a stale extent that was taken for a carry. */
  lemma {:induction false} UsedDistinctExactly(w: Writer, header: nat, pages: seq<Bytes>)
    requires w.Shaped() && RunOk(w, header) && NoDup(DataPages(w)) && SavePages(w, pages).Some?
    ensures NoDup(multiset(SavePages(w, pages).value.used)) <==> !Reuses(w, pages)
    decreases |pages|
  {
    hide RunOk, Borrowed, DataPages, SavePages;
    if pages == [] {
      SavesNothing(w);
      UsedIsData(w);
      forall x ensures multiset(w.used)[x] <= 1 {
        assert multiset(w.used)[x] <= DataPages(w)[x];
      }
    } else {
      LastCall(w, header, pages);
      UsedDistinctExactly(w, header, pages[..|pages| - 1]);
      UsedStep(w, header, pages);
    }
  }

  lemma UsedStep(w: Writer, header: nat, pages: seq<Bytes>)
    requires w.Shaped() && RunOk(w, header) && NoDup(DataPages(w)) && SavePages(w, pages).Some? && pages != []
    ensures SavePages(w, pages[..|pages| - 1]).Some?
    ensures var v, u := SavePages(w, pages[..|pages| - 1]).value, SavePages(w, pages).value;
            NoDup(multiset(u.used)) <==> NoDup(multiset(v.used)) && u.cur !in Borrowed(w, pages)
  {
    hide RunOk, DataPages, Reserved, StalePages, SavePages, SavePage, Borrowed;
    LastCall(w, header, pages);
    var v, u := SavePages(w, pages[..|pages| - 1]).value, SavePages(w, pages).value;
    BorrowedAdds(w, header, pages);
    BorrowedIsUsed(w, header, pages);
    BorrowedStep(v, header, pages[|pages| - 1]);
    ApartNoDup(w, header);
    UsedIsData(u);
    LastIsBorrowed(v.used, u.cur, DataPages(u), Reserved(u, header), DataPages(w) + Reserved(w, header),
                   Borrowed(w, pages));
  }

  lemma UsedIsData(u: Writer)
    requires u.Shaped()
    ensures multiset(u.used) <= DataPages(u)
  {
  }

  lemma ApartNoDup(w: Writer, header: nat)
    requires w.Shaped() && RunOk(w, header) && NoDup(DataPages(w))
    ensures NoDup(DataPages(w) + Reserved(w, header))
  {
    var d, r := DataPages(w), Reserved(w, header);
    forall x ensures (d + r)[x] <= 1 { assert d[x] <= 1 && r[x] <= 1 && (x in d ==> x !in r); }
  }

  lemma LastIsBorrowed(used: seq<int>, cur: int, d: multiset<int>, r: multiset<int>, all: multiset<int>,
                       borrowed: multiset<int>)
    requires multiset(used + [cur]) <= d && d + r == all + borrowed && NoDup(all)
    requires forall x :: x in borrowed ==> x in used + [cur]
    requires cur in borrowed ==> cur in used
    ensures NoDup(multiset(used + [cur])) <==> NoDup(multiset(used)) && cur !in borrowed
  {
    var m := multiset(used);
    assert multiset(used + [cur]) == m + multiset{cur};
    assert (d + r)[cur] == (all + borrowed)[cur] && all[cur] <= 1;
    if NoDup(m + multiset{cur}) {
      forall x ensures m[x] <= 1 { assert (m + multiset{cur})[x] <= 1; }
      assert (m + multiset{cur})[cur] <= 1;
    }
    if NoDup(m) && cur !in borrowed {
      assert (m + multiset{cur})[cur] <= d[cur] <= 1;
      forall x ensures (m + multiset{cur})[x] <= 1 { assert m[x] <= 1; }
    }
  }
}
