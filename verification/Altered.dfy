/** Images that were altered on the swap: they are refused exactly when the digest
    differs and is compared. */
module Altered {
  import opened Utils
  import opened LittleEndian
  import opened SwapSpace
  import opened AllocSwap
  import opened SwapWriter
  import opened WriterProofs
  import opened WriterRuns
  import opened Lockstep
  import opened SwapReader
  import opened ImageFormat
  import opened ImageReader
  import opened RoundTrip
  import Md5

  // ---------------------------------------------------------------------
  // Where pages go does not depend on what they hold.

  /** Two disks that differ at these places only. */
  ghost predicate SameElsewhere(d: Disk, e: Disk, used: seq<int>) {
    forall o: nat :: o !in used ==> ReadPage(d, o) == ReadPage(e, o)
  }

  lemma SamePreallocate(w: Writer, d: Disk)
    requires |w.slots| >= 2 && w.nr <= |w.slots|
    ensures Preallocate(w.(disk := d)) ==
            match Preallocate(w) case None => None case Some(u) => Some(u.(disk := d))
    ensures Preallocate(w).Some? ==> Preallocate(w).value.disk == w.disk && Preallocate(w).value.used == w.used
  {
    hide Allocate;
  }

  lemma SameNextBatch(w: Writer, d: Disk)
    requires w.Shaped() && SameElsewhere(w.disk, d, w.used)
    ensures match NextBatch(w)
            case None => NextBatch(w.(disk := d)) == None
            case Some(u) =>
              var r := NextBatch(w.(disk := d));
              r.Some? && r.value == u.(disk := r.value.disk) && SameElsewhere(u.disk, r.value.disk, u.used)
              && u.used == w.used
  {
    hide Preallocate;
    NextBatchReopens(w);
    NextBatchReopens(w.(disk := d));
    if w.kernel != [] {
      var u := Reopened(w);
      SamePreallocate(u, Reopened(w.(disk := d)).disk);
      assert Reopened(w.(disk := d)) == u.(disk := Reopened(w.(disk := d)).disk);
    }
  }

  lemma SameNext(w: Writer, d: Disk)
    requires w.Shaped() && SameElsewhere(w.disk, d, w.used)
    ensures match NextSwapPage(w)
            case None => NextSwapPage(w.(disk := d)) == None
            case Some(u) =>
              var r := NextSwapPage(w.(disk := d));
              r.Some? && r.value == u.(disk := r.value.disk) && SameElsewhere(u.disk, r.value.disk, u.used)
  {
    hide NextBatch;
    SameNextBatch(w, d);
  }

  lemma SameSave(w: Writer, d: Disk, x: Bytes, y: Bytes)
    requires w.Shaped() && SameElsewhere(w.disk, d, w.used)
    ensures match SavePage(w, x)
            case None => true
            case Some(u) =>
              var r := SavePage(w.(disk := d), y);
              r.Some? && r.value == u.(disk := r.value.disk) && SameElsewhere(u.disk, r.value.disk, u.used)
  {
    hide NextSwapPage;
    SameNext(w, d);
    if SavePage(w, x).Some? { LastUsed(w); }
  }

  lemma LastUsed(w: Writer)
    requires w.Shaped() && NextSwapPage(w).Some?
    ensures NextSwapPage(w).value.cur in NextSwapPage(w).value.used
  {
    hide Advance;
    var v := NextSwapPage(w).value;
    assert v.used[|v.used| - 1] == v.cur;
  }

  lemma {:induction false} SameRun(w: Writer, a: seq<Bytes>, b: seq<Bytes>)
    requires w.Shaped() && |a| == |b| && SavePages(w, a).Some?
    ensures SavePages(w, b).Some?
    ensures var v, u := SavePages(w, a).value, SavePages(w, b).value;
            u == v.(disk := u.disk) && SameElsewhere(v.disk, u.disk, v.used)
    decreases |a|
  {
    hide SavePage, SameElsewhere;
    if a == [] {
      Itself(w.disk, w.used);
      assert b == [];
    } else {
      var n := |a| - 1;
      SameRun(w, a[..n], b[..n]);
      SameSave(SavePages(w, a[..n]).value, SavePages(w, b[..n]).value.disk, a[n], b[n]);
    }
  }

  lemma Itself(d: Disk, used: seq<int>)
    ensures SameElsewhere(d, d, used)
  {
  }

  // ---------------------------------------------------------------------
  // A disk with the arrays and the header of one image and the data pages of another.

  ghost predicate OtherData(later: Disk, saved: Writer, start: nat, page: Page, data: seq<Bytes>) {
    && (forall o: nat :: InImage(saved, start, o) && o !in saved.used ==>
          ReadPage(later, o) == ReadPage(Finished(saved, start, page), o))
    && Stored(later, saved.used, data)
  }

  lemma OtherCarries(w0: Writer, saved: Writer, u: Writer, start: nat, page: Page, data: seq<Bytes>, later: Disk)
    requires w0.Shaped() && RunOk(w0, start) && w0.used == [] && SavePages(w0, data) == Some(u)
    requires u == saved.(disk := u.disk) && SameElsewhere(saved.disk, u.disk, saved.used)
    requires OtherData(later, saved, start, page, data)
    ensures SharedAlike(u.used, data) && Carries(later, u, start, page)
  {
    hide RunOk, SavePages;
    FinishedRun(w0, u, start, data);
    StoredAlike(later, u.used, data);
    KeptExactly(u.disk, u.used, data);
    FinishedElsewhere(u, start, page);
    CarriesOther(saved, u, start, page, data, later);
  }

  lemma StoredAlike(disk: Disk, used: seq<int>, data: seq<Bytes>)
    requires Stored(disk, used, data)
    ensures SharedAlike(used, data)
  {
    forall i, j | 0 <= i < j < |used| && used[i] == used[j] ensures data[i] == data[j] {
      assert Data(data[i]) == ReadPage(disk, used[i]) == Data(data[j]);
    }
  }

  lemma CarriesOther(saved: Writer, u: Writer, start: nat, page: Page, data: seq<Bytes>, later: Disk)
    requires u == saved.(disk := u.disk) && SameElsewhere(saved.disk, u.disk, saved.used)
    requires OtherData(later, saved, start, page, data) && Stored(u.disk, u.used, data)
    requires forall j :: 0 <= j < |u.used| && u.used[j] > 0 ==>
               ReadPage(Finished(u, start, page), u.used[j]) == ReadPage(u.disk, u.used[j])
    ensures Carries(later, u, start, page)
  {
    forall o: nat | InImage(u, start, o) ensures ReadPage(later, o) == ReadPage(Finished(u, start, page), o) {
      if o in u.used {
        var j :| 0 <= j < |u.used| && u.used[j] == o;
        assert ReadPage(later, u.used[j]) == Data(data[j]);
      } else {
        assert InImage(saved, start, o);
        assert ReadPage(saved.disk, o) == ReadPage(u.disk, o);
      }
    }
  }

  /** What was saved as one image, with the data pages of another in their places, reads as
      that other one. */
  lemma {:induction false} OtherImageOnDisk(codec: Codec, kernel: seq<nat>, disk: Disk, f: Md5.BlockFunction,
      image: seq<Bytes>, start: nat, rests: seq<Bytes>, w0: Writer, saved: Writer, glance: Glance, checked: bool,
      other: seq<Bytes>, others: seq<Bytes>, later: Disk)
    requires codec.Lawful() && AllPages(image, codec.pageSize) && NoDup(multiset(kernel))
    requires Written(codec, kernel, disk, image, start, rests, w0, saved)
    requires ImageFacts(codec, other, others) && |other| == |image|
    requires OtherData(later, saved, start, Header(HeaderOf(w0, saved, codec, f, image, checked)),
                       DataOf(codec, other, others))
    ensures PagesOnDisk(later, start, codec, other, others, glance)
    ensures ReadPage(later, start) == Header(HeaderOf(w0, saved, codec, f, image, checked))
  {
    hide Started, Written, ImageFacts, SavePages, AllPages, SwapNeeded, Enough, RunOk, DataPages, Buffers, PlainPages,
      EncryptAll, Carries, SharedAlike, OtherData, SameElsewhere, Opens;
    WrittenFacts(codec, kernel, disk, image, start, rests, w0, saved);
    FactsPositive(codec, image, rests);
    FactsPositive(codec, other, others);
    var page := Header(HeaderOf(w0, saved, codec, f, image, checked));
    var data := DataOf(codec, other, others);
    RunCounts(w0, saved, start, DataOf(codec, image, rests));
    SameCount(later, saved, start, page, data);
    SameRun(w0, DataOf(codec, image, rests), data);
    var u := SavePages(w0, data).value;
    OtherCarries(w0, saved, u, start, page, data, later);
    StartedGives(codec.compress, SwapNeeded(codec, |image|), kernel[1..], start, w0);
    SavedSize(w0, saved, start, codec, image, rests);
    SavedOpens(w0, u, start, page, codec, other, others, glance, later);
    assert FirstTable(u) == FirstTable(saved);
  }

  lemma SameCount(later: Disk, saved: Writer, start: nat, page: Page, data: seq<Bytes>)
    requires OtherData(later, saved, start, page, data)
    ensures |data| == |saved.used|
  {
  }

  /** read_or_verify on such a disk: the other image is what is handed out, and it is
      refused exactly when the checksum is compared and is not the one of the image that
      was saved. */
  method ReadOther(dev: Device, codec: Codec, f: Md5.BlockFunction, start: nat, verify: bool, dump: Dump,
                   glance: Glance, ghost kernel: seq<nat>, ghost disk: Disk, ghost image: seq<Bytes>,
                   ghost rests: seq<Bytes>, ghost w0: Writer, ghost saved: Writer, ghost checked: bool,
                   ghost other: seq<Bytes>, ghost others: seq<Bytes>)
    returns (ok: bool, out: seq<Bytes>)
    requires codec.Lawful() && AllPages(image, codec.pageSize) && NoDup(multiset(kernel)) && image != []
    requires Written(codec, kernel, disk, image, start, rests, w0, saved)
    requires ImageFacts(codec, other, others) && |other| == |image|
    requires OtherData(dev.disk, saved, start, Header(HeaderOf(w0, saved, codec, f, image, checked)),
                       DataOf(codec, other, others))
    ensures out == other
    ensures !ok <==> (checked || verify) && Md5.Digest(f, Flatten(other)) != Md5.Digest(f, Flatten(image))
  {
    hide Written, ImageFacts, OtherData, PagesOnDisk, Md5.Digest, Flatten, DataOf;
    OtherImageOnDisk(codec, kernel, disk, f, image, start, rests, w0, saved, glance, checked, other, others, dev.disk);
    ghost var fed;
    ok, out, fed := ReadImage(dev, codec, f, start, verify, dump, glance, other, others);
  }

  /** One page overwritten behind the writer's back, in an image that is neither compressed
      nor encrypted: nothing else has to be known of the disk. */
  lemma {:induction false} OverwrittenIsOther(codec: Codec, kernel: seq<nat>, disk: Disk, f: Md5.BlockFunction,
      image: seq<Bytes>, start: nat, rests: seq<Bytes>, w0: Writer, saved: Writer, checked: bool, k: nat, x: Bytes)
    requires codec.Lawful() && AllPages(image, codec.pageSize) && NoDup(multiset(kernel))
    requires Written(codec, kernel, disk, image, start, rests, w0, saved)
    requires !codec.compress && !codec.encrypt && k < |image| && |x| == codec.pageSize
    ensures |saved.used| == |image| && saved.used[k] > 0
    ensures ImageFacts(codec, image[k := x], rests)
    ensures var page := Header(HeaderOf(w0, saved, codec, f, image, checked));
            OtherData(Finished(saved, start, page)[saved.used[k] := Data(x)], saved, start, page,
                      DataOf(codec, image[k := x], rests))
  {
    hide Started, Written, SavePages, AllPages, SwapNeeded, Enough, RunOk, DataPages, Buffers, PlainPages,
      EncryptAll, SharedAlike, Finished;
    var page := Header(HeaderOf(w0, saved, codec, f, image, checked));
    WrittenFacts(codec, kernel, disk, image, start, rests, w0, saved);
    OneReplaced(codec, image, rests, k, x);
    PlainDistinct(codec, kernel, disk, image, start, rests, w0, saved);
    PlacesHold(codec, kernel, disk, image, start, rests, w0, saved, page);
    ImageIsData(codec, image, rests);
    ImageIsData(codec, image[k := x], rests);
    Overwritten(saved, start, page, image, k, x);
  }

  lemma OneReplaced(codec: Codec, image: seq<Bytes>, rests: seq<Bytes>, k: nat, x: Bytes)
    requires ImageFacts(codec, image, rests) && k < |image| && |x| == codec.pageSize
    ensures ImageFacts(codec, image[k := x], rests)
  {
    forall p | p in image[k := x] ensures |p| == codec.pageSize { assert p == x || p in image; }
    SameBuffers(image, image[k := x]);
  }

  lemma {:induction false} SameBuffers(a: seq<Bytes>, b: seq<Bytes>)
    requires |a| == |b|
    ensures |Buffers(a)| == |Buffers(b)|
    decreases |a|
  {
    if |a| > BUFFER_PAGES { SameBuffers(a[BUFFER_PAGES..], b[BUFFER_PAGES..]); }
  }

  lemma ImageIsData(codec: Codec, image: seq<Bytes>, rests: seq<Bytes>)
    requires ImageFacts(codec, image, rests) && !codec.compress && !codec.encrypt
    ensures DataOf(codec, image, rests) == image
  {
    hide PlainPages, Buffers, EncryptAll;
    PlainPagesPlain(codec, image, rests);
    Unencrypted(codec, codec.iv, image);
  }

  lemma {:induction false} Unencrypted(codec: Codec, s: Bytes, pages: seq<Bytes>)
    requires !codec.encrypt
    ensures EncryptAll(codec, s, pages) == pages
    decreases |pages|
  {
    if pages != [] { Unencrypted(codec, s, pages[1..]); }
  }

  /** Without compression every page has a place of its own. */
  lemma PlainDistinct(codec: Codec, kernel: seq<nat>, disk: Disk, image: seq<Bytes>, start: nat, rests: seq<Bytes>,
                      w0: Writer, saved: Writer)
    requires codec.Lawful() && AllPages(image, codec.pageSize) && NoDup(multiset(kernel)) && !codec.compress
    requires Written(codec, kernel, disk, image, start, rests, w0, saved)
    ensures NoDup(multiset(saved.used)) && Undisturbed(saved, codec, image, rests)
    ensures saved.Shaped() && RunOk(saved, start)
  {
    hide Started, Written, ImageFacts, SavePages, AllPages, SwapNeeded, Enough, RunOk, DataPages, Buffers, PlainPages,
      EncryptAll, SharedAlike, NeverStale;
    WrittenFacts(codec, kernel, disk, image, start, rests, w0, saved);
    FactsPositive(codec, image, rests);
    var data := DataOf(codec, image, rests);
    RunCounts(w0, saved, start, data);
    UncompressedNeverStale(w0, start, data);
    DistinctExactly(w0, start, data);
    UsedOfDistinct(saved);
    DistinctShare(saved.used, data);
  }

  lemma Overwritten(saved: Writer, start: nat, page: Page, image: seq<Bytes>, k: nat, x: Bytes)
    requires k < |image| == |saved.used| && NoDup(multiset(saved.used))
    requires forall j :: 0 <= j < |saved.used| ==>
               saved.used[j] > 0 && ReadPage(Finished(saved, start, page), saved.used[j]) == Data(image[j])
    ensures OtherData(Finished(saved, start, page)[saved.used[k] := Data(x)], saved, start, page, image[k := x])
  {
    hide Finished;
    var u := saved.used;
    forall j | 0 <= j < |u| && j != k ensures u[j] != u[k] {
      AtMostOnce(u, if j < k then j else k, if j < k then k else j);
    }
    assert u[k] in u;
  }

  lemma AtMostOnce(u: seq<int>, i: nat, j: nat)
    requires NoDup(multiset(u)) && i < j < |u|
    ensures u[i] != u[j]
  {
    assert u == u[..j] + [u[j]] + u[j + 1..];
    assert u[..j][i] == u[i] && u[i] in multiset(u[..j]);
    assert multiset(u)[u[j]] >= multiset(u[..j])[u[j]] + 1;
  }

  /** So one overwritten page is noticed exactly when the digest differs and is compared. */
  method ReadOverwritten(codec: Codec, f: Md5.BlockFunction, start: nat, verify: bool, dump: Dump, glance: Glance,
                         ghost kernel: seq<nat>, ghost disk: Disk, ghost image: seq<Bytes>, ghost rests: seq<Bytes>,
                         ghost w0: Writer, ghost saved: Writer, ghost checked: bool, ghost k: nat, ghost x: Bytes,
                         dev: Device)
    returns (ok: bool, out: seq<Bytes>)
    requires codec.Lawful() && AllPages(image, codec.pageSize) && NoDup(multiset(kernel))
    requires Written(codec, kernel, disk, image, start, rests, w0, saved)
    requires !codec.compress && !codec.encrypt && k < |image| && |x| == codec.pageSize
    requires k < |saved.used| && saved.used[k] >= 0
    requires dev.disk == Finished(saved, start, Header(HeaderOf(w0, saved, codec, f, image, checked)))
                           [saved.used[k] := Data(x)]
    ensures out == image[k := x]
    ensures !ok <==> (checked || verify) && Md5.Digest(f, Flatten(image[k := x])) != Md5.Digest(f, Flatten(image))
  {
    hide Written, ImageFacts, OtherData, Md5.Digest, Flatten, DataOf, Finished;
    OverwrittenIsOther(codec, kernel, disk, f, image, start, rests, w0, saved, checked, k, x);
    ok, out := ReadOther(dev, codec, f, start, verify, dump, glance, kernel, disk, image, rests, w0, saved, checked,
                         image[k := x], rests);
  }
}
