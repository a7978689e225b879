/** write_image and read_or_verify: what is written is what is read. */
module RoundTrip {
  import opened Utils
  import opened LittleEndian
  import opened Extents
  import opened SwapSpace
  import opened AllocSwap
  import opened SwapWriter
  import opened WriterProofs
  import opened WriterRuns
  import opened SwapReader
  import opened Reuse
  import opened Lockstep
  import opened ImageFormat
  import opened ImageWriter
  import opened ImageReader
  import opened EnoughSwap
  import opened OnSwap
  import Md5

  /** The encrypted pages of an image. */
  function DataOf(codec: Codec, image: seq<Bytes>, rests: seq<Bytes>): seq<Bytes>
    requires codec.pageSize > 0 && |rests| == |Buffers(image)|
  {
    EncryptAll(codec, codec.iv, PlainPages(codec, Buffers(image), rests))
  }

  /** The pages a saved image needs at first: with compression, the image and its
      largest possible expansion. */
  function SwapNeeded(codec: Codec, nrPages: nat): nat
    requires codec.pageSize > 0
  {
    nrPages + if codec.compress then RoundUp(nrPages * codec.pageSize / 16 + 67, codec.pageSize) / codec.pageSize else 0
  }

  /** The image can be loaded from the disk. */
  ghost predicate OnDisk(disk: Disk, start: nat, codec: Codec, f: Md5.BlockFunction, image: seq<Bytes>,
                         rests: seq<Bytes>, glance: Glance)
  {
    && PagesOnDisk(disk, start, codec, image, rests, glance)
    && ReadPage(disk, start).header.checksum == Md5.Digest(f, Flatten(image))
  }

  /** The same, whatever checksum the header has. */
  ghost predicate PagesOnDisk(disk: Disk, start: nat, codec: Codec, image: seq<Bytes>, rests: seq<Bytes>,
                              glance: Glance)
  {
    && codec.Lawful()
    && var page := ReadPage(disk, start);
    && start > 0 && page.Header?
    && var h := page.header;
    && h.compressed == codec.compress && h.encrypted == codec.encrypt && h.mapStart > 0
    && HeaderFits(disk, codec, image, rests, glance, h)
  }

  ghost predicate HeaderFits(disk: Disk, codec: Codec, image: seq<Bytes>, rests: seq<Bytes>, glance: Glance,
                             h: ImageHeader)
  {
    && ImageFacts(codec, image, rests)
    && h.pages == |image|
    && (!codec.compress ==> h.imageDataSize == |image|)
    && Opens(disk, h.mapStart, codec, image, rests, glance)
  }

  /** Loading an array puts the plain pages of the image ahead of the reader. */
  ghost predicate LoadsImage(r: Reader, glance: Glance, codec: Codec, image: seq<Bytes>, rests: seq<Bytes>) {
    && r.Shaped() && codec.pageSize > 0 && |rests| == |Buffers(image)| && LoadTable(r, glance).Some?
    && Coming(LoadTable(r, glance).value, glance, codec, codec.iv, PlainPages(codec, Buffers(image), rests))
  }

  /** However the array of extents looked before: loading the first array puts
      the data pages of the image ahead of the reader. */
  ghost predicate Opens(disk: Disk, mapStart: nat, codec: Codec, image: seq<Bytes>, rests: seq<Bytes>, glance: Glance) {
    codec.pageSize >= 64 && |rests| == |Buffers(image)| &&
    forall slots: seq<Extent> | |slots| == codec.pageSize / 16 ::
      LoadsImage(Reader(slots, 0, 0, mapStart, disk), glance, codec, image, rests)
  }

  /** All pages of an image are pages. */
  lemma {:induction false} BuffersArePages(image: seq<Bytes>, pageSize: nat)
    requires AllPages(image, pageSize)
    ensures forall b :: b in Buffers(image) ==> AllPages(b, pageSize)
    decreases |image|
  {
    if image != [] {
      var b := image[..if |image| <= BUFFER_PAGES then |image| else BUFFER_PAGES];
      BuffersHead(image, b);
      AllPagesSplit(image, |b|, pageSize);
      BuffersArePages(image[|b|..], pageSize);
    }
  }

  lemma {:induction false} CutArePages(buffer: Bytes, size: int, pageSize: nat)
    requires pageSize > 0
    ensures AllPages(Cut(buffer, size, pageSize), pageSize)
    decreases size
  {
    if size > 0 && |buffer| >= pageSize {
      CutArePages(buffer[pageSize..], size - pageSize, pageSize);
    }
  }

  lemma {:induction false} PlainArePages(codec: Codec, buffers: seq<seq<Bytes>>, rests: seq<Bytes>)
    requires codec.pageSize > 0 && |buffers| == |rests|
    requires forall b :: b in buffers ==> AllPages(b, codec.pageSize)
    ensures AllPages(PlainPages(codec, buffers, rests), codec.pageSize)
    decreases |buffers|
  {
    if buffers != [] {
      assert AllPages(FlushPages(codec, buffers[0], rests[0]), codec.pageSize) by {
        if codec.compress {
          var block := Block(codec.lzo, Flatten(buffers[0]));
          if |block| <= |rests[0]| {
            CutArePages(Overlay(rests[0], block), |block|, codec.pageSize);
          }
        }
      }
      PlainArePages(codec, buffers[1..], rests[1..]);
    }
  }

  /** A finished run of the writer opens from every disk that carries it, unless two
      different pages were saved to one offset. */
  lemma {:induction false} SavedOpens(w0: Writer, saved: Writer, header: nat, page: Page, codec: Codec,
                   image: seq<Bytes>, rests: seq<Bytes>, glance: Glance, disk: Disk)
    requires w0.Shaped() && RunOk(w0, header) && w0.used == []
    requires codec.Lawful() && ImageFacts(codec, image, rests) && |w0.slots| == codec.pageSize / 16
    requires SavePages(w0, DataOf(codec, image, rests)) == Some(saved)
    requires SharedAlike(saved.used, DataOf(codec, image, rests)) && Carries(disk, saved, header, page)
    ensures Opens(disk, FirstTable(saved), codec, image, rests, glance)
    ensures ReadPage(disk, header) == page
  {
    hide SavePages, SharedAlike, RunOk, PlainPages, Buffers, EncryptAll, LoadTable, Stored, Carries, ReadPage,
      FirstTable, AllPages, LoadsImage;
    forall slots: seq<Extent> | |slots| == codec.pageSize / 16
      ensures LoadsImage(Reader(slots, 0, 0, FirstTable(saved), disk), glance, codec, image, rests)
    {
      SavedOpensFor(w0, saved, header, page, codec, image, rests, glance, disk, slots);
    }
    SavePagesKeeps(w0, header, DataOf(codec, image, rests));
    SavedPagesLoad(w0, saved, header, DataOf(codec, image, rests), page,
                   Reader(Cleared(codec.pageSize / 16, NO_EXTENT), 0, 0, FirstTable(saved), disk), glance);
  }

  /** With whatever the extents page of the reader held before. */
  lemma SavedOpensFor(w0: Writer, saved: Writer, header: nat, page: Page, codec: Codec,
                      image: seq<Bytes>, rests: seq<Bytes>, glance: Glance, disk: Disk, slots: seq<Extent>)
    requires w0.Shaped() && RunOk(w0, header) && w0.used == []
    requires codec.Lawful() && ImageFacts(codec, image, rests) && |w0.slots| == codec.pageSize / 16
    requires SavePages(w0, DataOf(codec, image, rests)) == Some(saved)
    requires SharedAlike(saved.used, DataOf(codec, image, rests)) && Carries(disk, saved, header, page)
    requires |slots| == codec.pageSize / 16
    ensures LoadsImage(Reader(slots, 0, 0, FirstTable(saved), disk), glance, codec, image, rests)
  {
    hide SavePages, SharedAlike, RunOk, PlainPages, Buffers, EncryptAll, Visits, LoadTable, Stored, Carries, ReadPage,
      FirstTable, AllPages;
    var data := DataOf(codec, image, rests);
    SavePagesKeeps(w0, header, data);
    BuffersArePages(image, codec.pageSize);
    PlainArePages(codec, Buffers(image), rests);
    var r := Reader(slots, 0, 0, FirstTable(saved), disk);
    SavedPagesLoad(w0, saved, header, data, page, r, glance);
    SameDiskLoaded(r, glance);
  }

  lemma SameDiskLoaded(r: Reader, glance: Glance)
    requires r.Shaped()
    ensures LoadTable(r, glance).Some? ==> LoadTable(r, glance).value.disk == r.disk
  {
  }

  /** No two different pages of the image were saved to one offset. */
  ghost predicate Undisturbed(saved: Writer, codec: Codec, image: seq<Bytes>, rests: seq<Bytes>) {
    ImageFacts(codec, image, rests) && SharedAlike(saved.used, DataOf(codec, image, rests))
  }

  /** Without compression that cannot happen; with it, it does not when no call gives
      out a page of a stale extent that was taken for a carry. */
  lemma DistinctIsUndisturbed(w0: Writer, saved: Writer, start: nat, codec: Codec, image: seq<Bytes>,
                              rests: seq<Bytes>)
    requires w0.Shaped() && RunOk(w0, start) && NoDup(DataPages(w0)) && w0.used == []
    requires ImageFacts(codec, image, rests) && SavePages(w0, DataOf(codec, image, rests)) == Some(saved)
    ensures !Reuses(w0, DataOf(codec, image, rests)) ==> Undisturbed(saved, codec, image, rests)
    ensures !w0.compress && Enough(w0) ==> Undisturbed(saved, codec, image, rests)
  {
    hide SavePages, NeverStale, PlainPages, Buffers, EncryptAll, RunOk, Enough, DataPages, Reuses, SharedAlike,
      ImageFacts;
    FactsPositive(codec, image, rests);
    var data := DataOf(codec, image, rests);
    RunCounts(w0, saved, start, data);
    UsedDistinctExactly(w0, start, data);
    if !w0.compress && Enough(w0) {
      UncompressedNeverStale(w0, start, data);
      DistinctExactly(w0, start, data);
      UsedOfDistinct(saved);
    }
    if NoDup(multiset(saved.used)) { DistinctShare(saved.used, data); }
  }

  lemma FactsPositive(codec: Codec, image: seq<Bytes>, rests: seq<Bytes>)
    requires ImageFacts(codec, image, rests)
    ensures codec.pageSize > 0 && |rests| == |Buffers(image)|
  {
  }

  lemma RunCounts(w0: Writer, saved: Writer, start: nat, data: seq<Bytes>)
    requires w0.Shaped() && RunOk(w0, start) && SavePages(w0, data) == Some(saved) && w0.used == []
    ensures saved.Shaped() && RunOk(saved, start) && |saved.used| == |data| && FirstTable(saved) == FirstTable(w0)
    ensures saved.written == w0.written + |data|
  {
    SavePagesKeeps(w0, start, data);
  }

  lemma UsedOfDistinct(w: Writer)
    requires w.Shaped() && NoDup(DataPages(w))
    ensures NoDup(multiset(w.used))
  {
    forall x ensures multiset(w.used)[x] <= 1 { assert multiset(w.used)[x] <= DataPages(w)[x]; }
  }

  lemma StartedGives(compress: bool, needed: int, kernel: seq<nat>, header: nat, w: Writer)
    requires Started(compress, needed, kernel, header, w)
    ensures RunOk(w, header) && NoDup(DataPages(w)) && w.used == [] && w.written == 0
    ensures w.Shaped() && w.compress == compress && FirstTable(w) == w.spc > 0
    ensures !compress ==> Enough(w)
  {
  }

  /** The header page of a saved image. */
  function HeaderOf(w0: Writer, saved: Writer, codec: Codec, f: Md5.BlockFunction, image: seq<Bytes>,
                    checked: bool): ImageHeader {
    ImageHeader(|image|, checked, codec.compress, codec.encrypt, w0.spc, saved.written, Md5.Digest(f, Flatten(image)))
  }

  /** Every disk that carries the finished image is one to load it from. */
  lemma FinishedOnDisk(w0: Writer, saved: Writer, needed: int, kernel: seq<nat>, start: nat, codec: Codec,
                       f: Md5.BlockFunction, image: seq<Bytes>, rests: seq<Bytes>, glance: Glance, checked: bool,
                       disk: Disk)
    requires Started(codec.compress, needed, kernel, start, w0) && start > 0
    requires codec.Lawful() && ImageFacts(codec, image, rests) && |w0.slots| == codec.pageSize / 16
    requires SavePages(w0, DataOf(codec, image, rests)) == Some(saved) && Undisturbed(saved, codec, image, rests)
    requires Carries(disk, saved, start, Header(HeaderOf(w0, saved, codec, f, image, checked)))
    ensures OnDisk(disk, start, codec, f, image, rests, glance)
  {
    hide SavePages, PlainPages, Buffers, EncryptAll, Opens, Carries, Started, RunOk, Enough, ImageFacts, SharedAlike;
    StartedGives(codec.compress, needed, kernel, start, w0);
    SavedSize(w0, saved, start, codec, image, rests);
    SavedOpens(w0, saved, start, Header(HeaderOf(w0, saved, codec, f, image, checked)), codec, image, rests, glance,
               disk);
  }

  lemma SavedSize(w0: Writer, saved: Writer, start: nat, codec: Codec, image: seq<Bytes>, rests: seq<Bytes>)
    requires w0.Shaped() && RunOk(w0, start) && ImageFacts(codec, image, rests) && w0.written == 0 && w0.used == []
    requires SavePages(w0, DataOf(codec, image, rests)) == Some(saved)
    ensures FirstTable(saved) == FirstTable(w0)
    ensures !codec.compress ==> saved.written == |image|
  {
    hide SavePages, PlainPages, Buffers, EncryptAll, RunOk;
    RunCounts(w0, saved, start, DataOf(codec, image, rests));
    if !codec.compress { PlainIsImage(codec, image, rests); }
  }

  lemma PlainIsImage(codec: Codec, image: seq<Bytes>, rests: seq<Bytes>)
    requires ImageFacts(codec, image, rests) && !codec.compress
    ensures |DataOf(codec, image, rests)| == |image|
  {
    PlainPagesPlain(codec, image, rests);
  }

  /** The data pages that flush_buffer makes of a buffer. */
  function PagesOf(codec: Codec, buffer: seq<Bytes>): nat
    requires codec.pageSize > 0
  {
    if codec.compress then ReadMore(0, |Block(codec.lzo, Flatten(buffer))|, codec.pageSize) else |buffer|
  }

  function PageCount(codec: Codec, buffers: seq<seq<Bytes>>): nat
    requires codec.pageSize > 0
    decreases |buffers|
  {
    if buffers == [] then 0 else PagesOf(codec, buffers[0]) + PageCount(codec, buffers[1..])
  }

  lemma FlushCount(codec: Codec, buffer: seq<Bytes>, rest: Bytes)
    requires codec.Lawful() && |buffer| <= BUFFER_PAGES && AllPages(buffer, codec.pageSize)
    requires codec.compress ==> |rest| == CompressBufSize(codec.pageSize)
    ensures |FlushPages(codec, buffer, rest)| == PagesOf(codec, buffer)
  {
    hide Cut, Overlay, Flatten, AllPages, CompressBufSize, Codec.Lawful, ReadMore;
    if codec.compress {
      var raw := Flatten(buffer);
      BufferBound(buffer, codec.pageSize);
      BlockFits(codec, raw);
      ReadAsManyAsWritten(Overlay(rest, Block(codec.lzo, raw)), 0, |Block(codec.lzo, raw)|, codec.pageSize);
    }
  }

  /** The number of pages that a sequence of buffers takes. */
  lemma {:induction false} PlainCount(codec: Codec, buffers: seq<seq<Bytes>>, rests: seq<Bytes>)
    requires codec.Lawful() && |buffers| == |rests|
    requires forall b :: b in buffers ==> |b| <= BUFFER_PAGES && AllPages(b, codec.pageSize)
    requires forall r :: r in rests && codec.compress ==> |r| == CompressBufSize(codec.pageSize)
    ensures |PlainPages(codec, buffers, rests)| == PageCount(codec, buffers)
    decreases |buffers|
  {
    hide FlushPages, PagesOf, AllPages, CompressBufSize;
    if buffers != [] {
      assert rests[0] in rests;
      FlushCount(codec, buffers[0], rests[0]);
      PlainCount(codec, buffers[1..], rests[1..]);
    }
  }

  lemma {:induction false} CountGrows(codec: Codec, buffers: seq<seq<Bytes>>, k: nat)
    requires codec.pageSize > 0 && k <= |buffers|
    ensures PageCount(codec, buffers[..k]) <= PageCount(codec, buffers)
    decreases |buffers|
  {
    hide PagesOf;
    if k > 0 {
      CountGrows(codec, buffers[1..], k - 1);
      assert buffers[..k][1..] == buffers[1..][..k - 1];
    }
  }

  lemma {:induction false} PlainImageCount(codec: Codec, image: seq<Bytes>)
    requires codec.pageSize > 0 && !codec.compress
    ensures PageCount(codec, Buffers(image)) == |image|
    decreases |image|
  {
    if |image| > BUFFER_PAGES {
      PlainImageCount(codec, image[BUFFER_PAGES..]);
      assert Buffers(image)[1..] == Buffers(image[BUFFER_PAGES..]);
    } else if image != [] {
      assert [image][1..] == [];
    }
  }

  /** The pages of the image fit the estimate, and the kernel has two for each, for the
      page and for an array of extents, and a batch to spare. */
  ghost predicate Plenty(codec: Codec, kernel: seq<nat>, freeSwap: int, image: seq<Bytes>)
    requires codec.pageSize > 0
  {
    var n, needed := PageCount(codec, Buffers(image)), SwapNeeded(codec, |image|);
    && 0 !in kernel && n <= needed && |kernel| >= 2 * n + needed + 4
    && 2 * freeSwap > if codec.compress then needed else 2 * needed
  }

  /** Without compression the pages always fit the estimate. */
  lemma PlainPlenty(codec: Codec, kernel: seq<nat>, freeSwap: int, image: seq<Bytes>)
    requires codec.pageSize > 0 && !codec.compress
    ensures Plenty(codec, kernel, freeSwap, image) <==>
              0 !in kernel && |kernel| >= 3 * |image| + 4 && freeSwap > |image|
  {
    PlainImageCount(codec, image);
  }

  /** The opening checks pass. */
  lemma PlentyOpens(codec: Codec, given: seq<nat>, freeSwap: int, image: seq<Bytes>, disk: Disk)
    requires codec.pageSize >= 64 && Plenty(codec, given, freeSwap, image) && NoDup(multiset(given)) && image != []
    ensures given != [] && given[0] > 0
    ensures var w0 := Start(codec.compress, codec.pageSize / 16, SwapNeeded(codec, |image|), given[1..], disk);
            w0.Some? && w0.value.cur >= 0
    ensures var needed := SwapNeeded(codec, |image|);
            2 * freeSwap > if codec.compress then needed else 2 * needed
  {
    hide Start, RunOk, SavePages, SwapNeeded;
    var needed := SwapNeeded(codec, |image|);
    var rest := Given(given);
    NeededPositive(codec, |image|);
    EnoughSwapSaves(codec.compress, codec.pageSize / 16, needed, rest, disk, given[0], []);
    StartKeeps(codec.compress, codec.pageSize / 16, needed, rest, disk, given[0]);
    CursorFits(Start(codec.compress, codec.pageSize / 16, needed, rest, disk).value, given[0]);
  }

  lemma NeededPositive(codec: Codec, n: nat)
    requires codec.pageSize > 0
    ensures SwapNeeded(codec, n) >= n
  {
    hide RoundUp;
  }

  /** The pages after the one for the header. */
  function Given(given: seq<nat>): (rest: seq<nat>)
    requires NoDup(multiset(given)) && given != [] && 0 !in given
    ensures rest == given[1..] && 0 !in rest && NoDup(multiset{given[0]} + multiset(rest))
  {
    BagHead(given);
    given[1..]
  }

  lemma CursorFits(w: Writer, header: nat)
    requires RunOk(w, header)
    ensures w.cur >= 0
  {
    BatchAround(w);
  }

  /** And no page fails. */
  lemma PlentyContinues(codec: Codec, given: seq<nat>, freeSwap: int, image: seq<Bytes>, disk: Disk, w0: Writer,
                        rests: seq<Bytes>, saved: Writer)
    requires codec.Lawful() && AllPages(image, codec.pageSize)
    requires Plenty(codec, given, freeSwap, image) && NoDup(multiset(given)) && image != []
    requires given != []
    requires Start(codec.compress, codec.pageSize / 16, SwapNeeded(codec, |image|), given[1..], disk) == Some(w0)
    ensures !NoRoom(w0, codec, codec.iv, image, rests)
    ensures ImageSaved(w0, codec, codec.iv, image, rests, saved) ==> saved.spc > 0
  {
    hide Start, SavePages, Buffers, EncryptAll, PlainPages, RunOk, Started, SwapNeeded, AllPages, CompressBufSize,
      PageCount;
    var needed := SwapNeeded(codec, |image|);
    var rest := Given(given);
    NeededPositive(codec, |image|);
    StartKeeps(codec.compress, codec.pageSize / 16, needed, rest, disk, given[0]);
    StartedGives(codec.compress, needed, rest, given[0], w0);
    if NoRoom(w0, codec, codec.iv, image, rests) {
      var some := Buffers(image)[..|rests|];
      CountOfSome(codec, image, rests);
      EnoughSwapSaves(codec.compress, codec.pageSize / 16, needed, rest, disk, given[0],
                      EncryptAll(codec, codec.iv, PlainPages(codec, some, rests)));
    }
    if ImageSaved(w0, codec, codec.iv, image, rests, saved) {
      SpcStays(w0, given[0], EncryptAll(codec, codec.iv, PlainPages(codec, Buffers(image), rests)));
    }
  }

  lemma NoPageNotPlenty(codec: Codec, kernel: seq<nat>, freeSwap: int, image: seq<Bytes>, disk: Disk)
    requires codec.Lawful() && NoDup(multiset(kernel)) && image != [] && (kernel == [] || kernel[0] == 0)
    ensures !Plenty(codec, kernel, freeSwap, image)
  {
    hide Plenty, Start;
    if Plenty(codec, kernel, freeSwap, image) { PlentyOpens(codec, kernel, freeSwap, image, disk); }
  }

  /** A failure to save means that there was not plenty. */
  lemma FailedNotPlenty(codec: Codec, kernel: seq<nat>, freeSwap: int, image: seq<Bytes>, disk: Disk, w0: Writer,
                        rests: seq<Bytes>, saved: Writer)
    requires codec.Lawful() && AllPages(image, codec.pageSize) && NoDup(multiset(kernel)) && image != []
    requires kernel != []
    requires var s := Start(codec.compress, codec.pageSize / 16, SwapNeeded(codec, |image|), kernel[1..], disk);
             || s == None || s.value.cur < 0
             || 2 * freeSwap <= (if codec.compress then 1 else 2) * SwapNeeded(codec, |image|)
             || (s == Some(w0) && NoRoom(w0, codec, codec.iv, image, rests))
             || (s == Some(w0) && ImageSaved(w0, codec, codec.iv, image, rests, saved) && saved.spc == 0)
    ensures !Plenty(codec, kernel, freeSwap, image)
  {
    hide Plenty, Start, NoRoom, ImageSaved, SwapNeeded, AllPages;
    if Plenty(codec, kernel, freeSwap, image) {
      PlentyOpens(codec, kernel, freeSwap, image, disk);
      PlentyContinues(codec, kernel, freeSwap, image, disk, w0, rests, saved);
    }
  }

  lemma CountOfSome(codec: Codec, image: seq<Bytes>, rests: seq<Bytes>)
    requires codec.Lawful() && AllPages(image, codec.pageSize) && |rests| <= |Buffers(image)|
    requires forall r :: r in rests && codec.compress ==> |r| == CompressBufSize(codec.pageSize)
    ensures |PlainPages(codec, Buffers(image)[..|rests|], rests)| <= PageCount(codec, Buffers(image))
  {
    hide PlainPages, PageCount, AllPages, CompressBufSize;
    var some := Buffers(image)[..|rests|];
    BuffersArePages(image, codec.pageSize);
    forall b | b in some ensures |b| <= BUFFER_PAGES && AllPages(b, codec.pageSize) {
      assert b in Buffers(image);
    }
    PlainCount(codec, some, rests);
    CountGrows(codec, Buffers(image), |rests|);
  }

  lemma SpcStays(w: Writer, header: nat, pages: seq<Bytes>)
    requires RunOk(w, header) && w.Shaped()
    ensures SavePages(w, pages).Some? ==> SavePages(w, pages).value.spc > 0
  {
    SavePagesKeeps(w, header, pages);
  }

  /** The run of the writer that saved an image, from the pages the kernel gave. */
  ghost predicate Written(codec: Codec, kernel: seq<nat>, disk: Disk, image: seq<Bytes>, start: nat,
                          rests: seq<Bytes>, w0: Writer, saved: Writer)
    requires codec.pageSize >= 64
  {
    && kernel != [] && start == kernel[0] > 0
    && Start(codec.compress, codec.pageSize / 16, SwapNeeded(codec, |image|), kernel[1..], disk) == Some(w0)
    && ImageSaved(w0, codec, codec.iv, image, rests, saved)
  }

  /** write_image, from the snapshot to the header page; swap offsets and sizes in
      pages.  `freeSwap` is what the kernel reports, `checked` asks for the
      checksum flag in the header.  On success w0 is the writer at its first page
      and `saved` the writer after its last one. */
  method WriteImage(dev: Device, codec: Codec, f: Md5.BlockFunction, image: seq<Bytes>, freeSwap: int,
                    checked: bool, writeBuffer: Bytes, ghost glance: Glance)
    returns (ok: bool, start: nat, ghost rests: seq<Bytes>, ghost w0: Writer, ghost saved: Writer)
    requires codec.Lawful() && image != [] && AllPages(image, codec.pageSize)
    requires codec.compress ==> |writeBuffer| == CompressBufSize(codec.pageSize)
    requires NoDup(multiset(dev.kernel))
    modifies dev
    ensures ok ==> Written(codec, old(dev.kernel), old(dev.disk), image, start, rests, w0, saved)
    ensures ok ==> dev.disk == Finished(saved, start, Header(HeaderOf(w0, saved, codec, f, image, checked)))
    ensures ok && Undisturbed(saved, codec, image, rests) ==>
              OnDisk(dev.disk, start, codec, f, image, rests, glance)
    ensures ok && !codec.compress ==> Undisturbed(saved, codec, image, rests)
    ensures ok ==> ReadPage(dev.disk, start).Header? && |old(dev.kernel)| > 1
    ensures ok ==> var h := ReadPage(dev.disk, start).header;
                   && h.pages == |image| && h.checked == checked
                   && h.compressed == codec.compress && h.encrypted == codec.encrypt
                   && h.mapStart == old(dev.kernel)[1] && h.imageDataSize == |saved.used|
                   && h.checksum == Md5.Digest(f, Flatten(image))
    ensures ok ==> 2 * freeSwap > (if codec.compress then 1 else 2) * SwapNeeded(codec, |image|)
    ensures Plenty(codec, old(dev.kernel), freeSwap, image) ==> ok
  {
    hide Undisturbed, OnDisk, Started, ImageSaved, ImageFacts, SavePages, AllPages, Start, SwapNeeded, Md5.Represents,
      Flatten, NoRoom, Plenty, Finished, Written, SaveExtents, FromLE, Md5.Absorb, Md5.Pad;
    rests, w0 := [], Opened(codec.compress, 2, 0, [1], map[]);
    saved := w0;
    start := dev.GetSwapPage();
    if start == 0 {
      NoPageNotPlenty(codec, old(dev.kernel), freeSwap, image, dev.disk);
      return false, start, rests, w0, saved;
    }
    ghost var disk := dev.disk;
    var ctx := new Md5.Context(f);
    var spc, written;
    ok, spc, written, rests, w0, saved := SaveToSwap(dev, codec, ctx, image, freeSwap, writeBuffer);
    if !ok {
      FailedNotPlenty(codec, old(dev.kernel), freeSwap, image, disk, w0, rests, saved);
      return;
    }
    var digest := ctx.Finish(Flatten(image));
    ok := WriteHeader(dev, start, image, codec, spc, written, digest, checked);
    Concluded(codec, old(dev.kernel), old(dev.disk), f, image, start, rests, w0, saved, glance, checked, dev.disk);
  }

  /** init_swap_writer, the preallocation and save_image. */
  method SaveToSwap(dev: Device, codec: Codec, ctx: Md5.Context, image: seq<Bytes>, freeSwap: int, writeBuffer: Bytes)
    returns (ok: bool, spc: nat, written: int, ghost rests: seq<Bytes>, ghost w0: Writer, ghost saved: Writer)
    requires codec.Lawful() && AllPages(image, codec.pageSize) && ctx.Fed([]) && ctx.buflen == 0
    requires codec.compress ==> |writeBuffer| == CompressBufSize(codec.pageSize)
    modifies dev, ctx, ctx.buffer
    ensures ok ==> Start(codec.compress, codec.pageSize / 16, SwapNeeded(codec, |image|), old(dev.kernel),
                         old(dev.disk)) == Some(w0)
                   && ImageSaved(w0, codec, codec.iv, image, rests, saved) && |saved.slots| >= 2
                   && SaveExtents(saved, true).Some? && dev.disk == SaveExtents(saved, true).value.disk
                   && spc == w0.spc && written == saved.written
    ensures ok ==> 2 * freeSwap > (if codec.compress then 1 else 2) * SwapNeeded(codec, |image|)
    ensures ok ==> ctx.Fed(Flatten(image))
    ensures !ok ==>
              var s := Start(codec.compress, codec.pageSize / 16, SwapNeeded(codec, |image|), old(dev.kernel),
                             old(dev.disk));
              || s == None || s.value.cur < 0
              || 2 * freeSwap <= (if codec.compress then 1 else 2) * SwapNeeded(codec, |image|)
              || (s == Some(w0) && NoRoom(w0, codec, codec.iv, image, rests))
              || (s == Some(w0) && ImageSaved(w0, codec, codec.iv, image, rests, saved) && saved.spc == 0)
  {
    hide ImageSaved, SavePages, AllPages, Start, SwapNeeded, Md5.Represents, Flatten, NoRoom;
    rests, w0 := [], Opened(codec.compress, 2, 0, [1], map[]);
    saved := w0;
    spc, written := 0, 0;
    var w := new ImageWriter(dev, codec, codec.pageSize / 16, ctx, writeBuffer);
    ok := w.Open(SwapNeeded(codec, |image|), freeSwap);
    if !ok {
      return;
    }
    w0 := w.View();
    spc := w.extentsSpc;
    ok, rests, saved := w.SaveImage(image);
    written := w.writtenData;
  }

  /** The estimate, spelled out. */
  lemma NeededIs(codec: Codec, n: nat)
    requires codec.pageSize > 0
    ensures SwapNeeded(codec, n) ==
            if codec.compress then n + (n * codec.pageSize / 16 + 67 + codec.pageSize - 1) / codec.pageSize else n
  {
    var p := codec.pageSize;
    var q := (n * p / 16 + 67 + p - 1) / p;
    Quotient(q * p, q, p);
  }

  /** The header page of a finished run is where it belongs, and what it is made of. */
  lemma WrittenHeader(codec: Codec, kernel: seq<nat>, disk: Disk, image: seq<Bytes>, start: nat, rests: seq<Bytes>,
                      w0: Writer, saved: Writer, page: Page)
    requires codec.Lawful() && AllPages(image, codec.pageSize) && NoDup(multiset(kernel))
    requires Written(codec, kernel, disk, image, start, rests, w0, saved)
    ensures |kernel| > 1 && w0.spc == kernel[1]
    ensures ReadPage(Finished(saved, start, page), start) == page
    ensures saved.written == |saved.used|
  {
    hide Started, Written, ImageFacts, SavePages, AllPages, SwapNeeded, Enough, RunOk, DataPages, Buffers, PlainPages,
      EncryptAll, Codec.Lawful;
    WrittenFacts(codec, kernel, disk, image, start, rests, w0, saved);
    LawfulSize(codec);
    FirstArray(codec, kernel, disk, image, start, rests, w0, saved);
    FactsPositive(codec, image, rests);
    RunCounts(w0, saved, start, DataOf(codec, image, rests));
  }

  lemma LawfulSize(codec: Codec)
    requires codec.Lawful()
    ensures codec.pageSize >= 64
  {
  }

  /** What a finished run has put on the disk, without the functions that computed it: with
      encryption the cipher runs through the pages in order from the initial vector on, and
      place k holds what it made of page k; without, place k holds page k. */
  lemma {:induction false} WrittenPages(codec: Codec, kernel: seq<nat>, disk: Disk, image: seq<Bytes>, start: nat,
      rests: seq<Bytes>, w0: Writer, saved: Writer, page: Page) returns (states: seq<Bytes>)
    requires codec.Lawful() && AllPages(image, codec.pageSize) && NoDup(multiset(kernel))
    requires Written(codec, kernel, disk, image, start, rests, w0, saved)
    ensures |rests| == |Buffers(image)| && |PlainPages(codec, Buffers(image), rests)| == |saved.used|
    ensures !codec.compress ==> PlainPages(codec, Buffers(image), rests) == image
    ensures |states| == |saved.used| + 1 && states[0] == codec.iv
    ensures codec.encrypt ==>
              var plain := PlainPages(codec, Buffers(image), rests);
              forall k :: 0 <= k < |plain| ==> states[k + 1] == codec.cipher.encrypt(states[k], plain[k]).0
    ensures Undisturbed(saved, codec, image, rests) ==>
              var plain := PlainPages(codec, Buffers(image), rests);
              forall k :: 0 <= k < |plain| ==>
                saved.used[k] > 0 && ReadPage(Finished(saved, start, page), saved.used[k]) ==
                Data(if codec.encrypt then codec.cipher.encrypt(states[k], plain[k]).1 else plain[k])
  {
    hide Written, AllPages, Codec.Lawful, Undisturbed, Buffers, PlainPages, EncryptAll, StateAfter, Finished, ReadPage;
    LawfulSize(codec);
    PlacesHold(codec, kernel, disk, image, start, rests, w0, saved, page);
    var plain := PlainPages(codec, Buffers(image), rests);
    states := CipherRuns(codec, codec.iv, plain);
    assert DataOf(codec, image, rests) == EncryptAll(codec, codec.iv, plain);
    forall k | 0 <= k < |plain| && Undisturbed(saved, codec, image, rests)
      ensures saved.used[k] > 0
      ensures ReadPage(Finished(saved, start, page), saved.used[k]) ==
              Data(if codec.encrypt then codec.cipher.encrypt(states[k], plain[k]).1 else plain[k])
    {
      var data := EncryptAll(codec, codec.iv, plain);
      if codec.encrypt {
        assert codec.cipher.encrypt(states[k], plain[k]) == (states[k + 1], data[k]);
      }
    }
  }

  lemma PlacesHold(codec: Codec, kernel: seq<nat>, disk: Disk, image: seq<Bytes>, start: nat, rests: seq<Bytes>,
                   w0: Writer, saved: Writer, page: Page)
    requires codec.Lawful() && AllPages(image, codec.pageSize) && NoDup(multiset(kernel))
    requires Written(codec, kernel, disk, image, start, rests, w0, saved)
    ensures |rests| == |Buffers(image)| && |PlainPages(codec, Buffers(image), rests)| == |saved.used|
    ensures !codec.compress ==> PlainPages(codec, Buffers(image), rests) == image
    ensures |saved.slots| >= 2
    ensures Undisturbed(saved, codec, image, rests) ==>
              forall k :: 0 <= k < |saved.used| ==>
                saved.used[k] > 0
                && ReadPage(Finished(saved, start, page), saved.used[k]) == Data(DataOf(codec, image, rests)[k])
  {
    hide Started, Written, ImageFacts, SavePages, AllPages, SwapNeeded, Enough, RunOk, DataPages, Buffers, PlainPages,
      EncryptAll, SharedAlike, Kept, Stored, Codec.Lawful, Finished, ReadPage;
    WrittenFacts(codec, kernel, disk, image, start, rests, w0, saved);
    FactsPositive(codec, image, rests);
    var data := DataOf(codec, image, rests);
    FinishedRun(w0, saved, start, data);
    FinishedElsewhere(saved, start, page);
    KeptExactly(saved.disk, saved.used, data);
    if !codec.compress { PlainPagesPlain(codec, image, rests); }
    if Undisturbed(saved, codec, image, rests) { AtPlaces(saved, start, data, page); }
  }

  lemma AtPlaces(saved: Writer, start: nat, data: seq<Bytes>, page: Page)
    requires |saved.slots| >= 2 && Stored(saved.disk, saved.used, data)
    requires forall j :: 0 <= j < |saved.used| && saved.used[j] > 0 ==>
               ReadPage(Finished(saved, start, page), saved.used[j]) == ReadPage(saved.disk, saved.used[j])
    ensures forall k :: 0 <= k < |saved.used| ==>
              saved.used[k] > 0 && ReadPage(Finished(saved, start, page), saved.used[k]) == Data(data[k])
  {
    hide Finished, ReadPage;
  }

  lemma FirstArray(codec: Codec, kernel: seq<nat>, disk: Disk, image: seq<Bytes>, start: nat, rests: seq<Bytes>,
                   w0: Writer, saved: Writer)
    requires codec.pageSize >= 64 && Written(codec, kernel, disk, image, start, rests, w0, saved)
    ensures |kernel| > 1 && w0.spc == kernel[1] && w0.written == 0
  {
    hide ImageSaved, SwapNeeded, Allocate;
  }

  lemma FinishedIs(saved: Writer, start: nat, page: Page)
    requires |saved.slots| >= 2
    ensures SaveExtents(saved, true).Some? ==>
              SaveExtents(saved, true).value.disk[start := page] == Finished(saved, start, page)
              && SaveExtents(saved, true).value.written == saved.written
  {
  }

  lemma Concluded(codec: Codec, kernel: seq<nat>, disk: Disk, f: Md5.BlockFunction, image: seq<Bytes>, start: nat,
                  rests: seq<Bytes>, w0: Writer, saved: Writer, glance: Glance, checked: bool, last: Disk)
    requires codec.Lawful() && AllPages(image, codec.pageSize) && NoDup(multiset(kernel))
    requires kernel != [] && start == kernel[0] > 0
    requires Start(codec.compress, codec.pageSize / 16, SwapNeeded(codec, |image|), kernel[1..], disk) == Some(w0)
    requires ImageSaved(w0, codec, codec.iv, image, rests, saved) && |saved.slots| >= 2
    requires var page := Header(HeaderOf(w0, saved, codec, f, image, checked));
             SaveExtents(saved, true).Some? && last == SaveExtents(saved, true).value.disk[start := page]
    ensures Written(codec, kernel, disk, image, start, rests, w0, saved)
    ensures var page := Header(HeaderOf(w0, saved, codec, f, image, checked));
            last == Finished(saved, start, page) && ReadPage(last, start) == page
    ensures |kernel| > 1 && w0.spc == kernel[1] && saved.written == |saved.used|
    ensures Undisturbed(saved, codec, image, rests) ==> OnDisk(last, start, codec, f, image, rests, glance)
    ensures !codec.compress ==> Undisturbed(saved, codec, image, rests)
  {
    hide Undisturbed, OnDisk, Started, ImageSaved, ImageFacts, SavePages, AllPages, Finished, Start, SwapNeeded, Enough,
      HeaderOf;
    var page := Header(HeaderOf(w0, saved, codec, f, image, checked));
    FinishedIs(saved, start, page);
    WrittenHeader(codec, kernel, disk, image, start, rests, w0, saved, page);
    ImageIsOnDisk(codec, kernel, disk, f, image, start, rests, w0, saved, glance, checked,
                  Finished(saved, start, page));
  }

  /** Any disk that carries what write_image wrote is one to load the image from. */
  lemma {:induction false} ImageIsOnDisk(codec: Codec, kernel: seq<nat>, disk: Disk, f: Md5.BlockFunction,
      image: seq<Bytes>, start: nat, rests: seq<Bytes>, w0: Writer, saved: Writer, glance: Glance, checked: bool,
      later: Disk)
    requires codec.Lawful() && AllPages(image, codec.pageSize) && NoDup(multiset(kernel))
    requires Written(codec, kernel, disk, image, start, rests, w0, saved)
    requires Carries(later, saved, start, Header(HeaderOf(w0, saved, codec, f, image, checked)))
    ensures saved.Shaped()
    ensures Undisturbed(saved, codec, image, rests) ==> OnDisk(later, start, codec, f, image, rests, glance)
    ensures !codec.compress ==> Undisturbed(saved, codec, image, rests)
  {
    hide Undisturbed, OnDisk, Started, Written, ImageFacts, SavePages, AllPages, Carries, SwapNeeded, Enough, RunOk,
      DataPages, HeaderOf;
    WrittenFacts(codec, kernel, disk, image, start, rests, w0, saved);
    DistinctIsUndisturbed(w0, saved, start, codec, image, rests);
    if Undisturbed(saved, codec, image, rests) {
      FinishedOnDisk(w0, saved, SwapNeeded(codec, |image|), kernel[1..], start, codec, f, image, rests, glance, checked,
                     later);
    }
  }

  lemma WrittenFacts(codec: Codec, kernel: seq<nat>, disk: Disk, image: seq<Bytes>, start: nat, rests: seq<Bytes>,
                     w0: Writer, saved: Writer)
    requires codec.Lawful() && AllPages(image, codec.pageSize) && NoDup(multiset(kernel))
    requires Written(codec, kernel, disk, image, start, rests, w0, saved)
    ensures kernel != [] && start > 0 && Started(codec.compress, SwapNeeded(codec, |image|), kernel[1..], start, w0)
    ensures w0.Shaped() && |w0.slots| == codec.pageSize / 16 && RunOk(w0, start) && NoDup(DataPages(w0))
    ensures w0.used == [] && w0.compress == codec.compress && (!codec.compress ==> Enough(w0))
    ensures ImageFacts(codec, image, rests) && |rests| == |Buffers(image)| && saved.Shaped()
    ensures SavePages(w0, DataOf(codec, image, rests)) == Some(saved)
  {
    hide Started, ImageSaved, ImageFacts, SavePages, AllPages, Start, SwapNeeded, Enough, RunOk, DataPages;
    var needed := SwapNeeded(codec, |image|);
    StartIs(codec, needed, kernel[1..], disk, w0, kernel, start);
    StartedGives(codec.compress, needed, kernel[1..], start, w0);
    SavedFacts(w0, codec, image, rests, saved);
    FactsPositive(codec, image, rests);
    RunCounts(w0, saved, start, DataOf(codec, image, rests));
  }

  method WriteHeader(dev: Device, start: nat, image: seq<Bytes>, codec: Codec, spc: nat, written: int,
                     digest: Bytes, checked: bool) returns (ok: bool)
    requires start > 0
    modifies dev`disk
    ensures ok && dev.disk == old(dev.disk)[start :=
      Header(ImageHeader(|image|, checked, codec.compress, codec.encrypt, spc, written, digest))]
  {
    var h := ImageHeader(|image|, checked, codec.compress, codec.encrypt, spc, written, digest);
    ok := dev.WritePage(Header(h), start);
  }

  lemma StartIs(codec: Codec, needed: int, kernel: seq<nat>, disk: Disk, w0: Writer, given: seq<nat>, start: nat)
    requires codec.pageSize >= 64 && NoDup(multiset(given)) && given != [] && start == given[0] > 0
    requires kernel == given[1..]
    requires Start(codec.compress, codec.pageSize / 16, needed, kernel, disk) == Some(w0)
    ensures Started(codec.compress, needed, kernel, start, w0)
    ensures |w0.slots| == codec.pageSize / 16 && w0.Shaped()
  {
    hide Started;
    BagHead(given);
    StartKeeps(codec.compress, codec.pageSize / 16, needed, kernel, disk, start);
  }

  lemma SavedFacts(w0: Writer, codec: Codec, image: seq<Bytes>, rests: seq<Bytes>, saved: Writer)
    requires ImageSaved(w0, codec, codec.iv, image, rests, saved) && AllPages(image, codec.pageSize)
    ensures w0.Shaped() && ImageFacts(codec, image, rests) && SavePages(w0, DataOf(codec, image, rests)) == Some(saved)
  {
    hide SavePages;
  }

  /** read_or_verify: read the header, open the chain, load the pages, compare the
      checksum if the header asks for it or the image is being verified. */
  method ReadImage(dev: Device, codec: Codec, f: Md5.BlockFunction, start: nat, verify: bool, dump: Dump,
                   glance: Glance, ghost image: seq<Bytes>, ghost rests: seq<Bytes>)
    returns (ok: bool, out: seq<Bytes>, ghost fed: Bytes)
    requires codec.Lawful()
    ensures ok ==> ReadPage(dev.disk, start).Header? && ReadPage(dev.disk, start).header.mapStart > 0
    ensures ok ==> var h := ReadPage(dev.disk, start).header;
                   && |out| == (if h.pages == 0 then 1 else h.pages) && Flatten(out) <= fed
                   && (h.checked || verify ==> Md5.Digest(f, fed) == h.checksum)
    ensures PagesOnDisk(dev.disk, start, codec, image, rests, glance) && image != [] ==>
              var h := ReadPage(dev.disk, start).header;
              out == image && (ok <==> (h.checked || verify ==> Md5.Digest(f, Flatten(image)) == h.checksum))
    ensures OnDisk(dev.disk, start, codec, f, image, rests, glance) && image != [] ==> ok && out == image
  {
    hide HeaderFits, Flatten, Md5.Digest;
    out, fed := [], [];
    var page := ReadPage(dev.disk, start);
    if !page.Header? {
      return false, out, fed;
    }
    var h := page.header;
    if h.mapStart == 0 {
      return false, out, fed;
    }
    var decoder := codec.(compress := h.compressed, encrypt := h.encrypted);
    ok, out, fed := LoadPages(dev, decoder, f, h, verify, dump, glance, image, rests);
  }

  /** init_swap_reader, load_image and the comparison of the checksums. */
  method LoadPages(dev: Device, codec: Codec, f: Md5.BlockFunction, h: ImageHeader, verify: bool, dump: Dump,
                   glance: Glance, ghost image: seq<Bytes>, ghost rests: seq<Bytes>)
    returns (ok: bool, out: seq<Bytes>, ghost fed: Bytes)
    requires codec.Lawful()
    ensures ok ==> |out| == (if h.pages == 0 then 1 else h.pages) && Flatten(out) <= fed
    ensures ok && (h.checked || verify) ==> Md5.Digest(f, fed) == h.checksum
    ensures HeaderFits(dev.disk, codec, image, rests, glance, h) && image != [] ==>
              out == image && (ok <==> (h.checked || verify ==> Md5.Digest(f, Flatten(image)) == h.checksum))
  {
    hide Opens, ImageFacts, Flatten, Coming, PlainPages, Buffers, LoadTable, Md5.Represents, Md5.Digest, FromLE,
      Md5.Absorb, Md5.Pad;
    ghost var good := HeaderFits(dev.disk, codec, image, rests, glance, h) && image != [];
    out, fed := [], [];
    var ctx := new Md5.Context(f);
    var r := new ImageReader(dev, codec, glance, dump, codec.pageSize / 16, ctx, h.mapStart, h.imageDataSize);
    if good { OpensFrom(dev.disk, h.mapStart, codec, image, rests, glance, r.extents[..], r.curOffset); }
    ok := r.LoadExtentsPage();
    if !ok {
      return;
    }
    ok, out, fed := r.LoadImage(h.pages, image, rests);
    if ok && (h.checked || verify) {
      var digest := ctx.Finish(fed);
      ok := digest == h.checksum;
    }
  }

  lemma OpensFrom(disk: Disk, mapStart: nat, codec: Codec, image: seq<Bytes>, rests: seq<Bytes>, glance: Glance,
                  slots: seq<Extent>, cur: int)
    requires Opens(disk, mapStart, codec, image, rests, glance) && |slots| == codec.pageSize / 16
    ensures LoadsImage(Reader(slots, 0, cur, mapStart, disk), glance, codec, image, rests)
  {
    hide Coming, LoadTable, PlainPages, Buffers;
    SameLoad(Reader(slots, 0, 0, mapStart, disk), Reader(slots, 0, cur, mapStart, disk), glance);
  }

  /** Image round trip: whatever the kernel hands out without repeating a page, and
      for every choice of compression and encryption, an image that was saved is
      loaded again, the same pages in the same order, and the checksum agrees,
      unless two different pages were saved to one offset; which does not happen
      when no page of a stale extent was given out, and not without compression.
      With plenty of swap the image is saved, and without compression the whole
      trip cannot fail. */
  method SaveThenLoad(kernel: seq<nat>, disk: Disk, codec: Codec, f: Md5.BlockFunction, image: seq<Bytes>,
                      freeSwap: int, checked: bool, verify: bool, writeBuffer: Bytes, dump: Dump, glance: Glance)
    returns (ok: bool, loaded: bool, out: seq<Bytes>, ghost start: nat, ghost rests: seq<Bytes>, ghost w0: Writer,
             ghost saved: Writer)
    requires codec.Lawful() && image != [] && AllPages(image, codec.pageSize)
    requires codec.compress ==> |writeBuffer| == CompressBufSize(codec.pageSize)
    requires NoDup(multiset(kernel))
    ensures ok ==> Written(codec, kernel, disk, image, start, rests, w0, saved)
    ensures ok && Undisturbed(saved, codec, image, rests) ==> loaded && out == image
    ensures ok && !Reuses(w0, DataOf(codec, image, rests)) ==> loaded && out == image
    ensures ok && !codec.compress ==> loaded && out == image
    ensures var n, needed := PageCount(codec, Buffers(image)), SwapNeeded(codec, |image|);
            && 0 !in kernel && n <= needed && |kernel| >= 2 * n + needed + 4
            && 2 * freeSwap > (if codec.compress then needed else 2 * needed)
            ==> ok
    ensures !codec.compress && 0 !in kernel && |kernel| >= 3 * |image| + 4 && freeSwap > |image| ==>
              ok && loaded && out == image
  {
    hide OnDisk, PagesOnDisk, Written, Undisturbed, Flatten, Md5.Digest, Finished, Reuses, PageCount, SwapNeeded;
    loaded, out := false, [];
    if !codec.compress { PlainPlenty(codec, kernel, freeSwap, image); }
    var dev := new Device(kernel, disk);
    var at;
    ghost var fed;
    ok, at, rests, w0, saved := WriteImage(dev, codec, f, image, freeSwap, checked, writeBuffer, glance);
    start := at;
    if ok {
      loaded, out, fed := ReadImage(dev, codec, f, at, verify, dump, glance, image, rests);
      NoReuseIsUndisturbed(codec, kernel, disk, image, at, rests, w0, saved);
    }
  }

  lemma NoReuseIsUndisturbed(codec: Codec, kernel: seq<nat>, disk: Disk, image: seq<Bytes>, start: nat,
                             rests: seq<Bytes>, w0: Writer, saved: Writer)
    requires codec.Lawful() && AllPages(image, codec.pageSize) && NoDup(multiset(kernel))
    requires Written(codec, kernel, disk, image, start, rests, w0, saved)
    ensures w0.Shaped() && |rests| == |Buffers(image)|
    ensures !Reuses(w0, DataOf(codec, image, rests)) ==> Undisturbed(saved, codec, image, rests)
  {
    hide Undisturbed, Started, Written, ImageFacts, SavePages, AllPages, SwapNeeded, Enough, RunOk, DataPages, Reuses;
    WrittenFacts(codec, kernel, disk, image, start, rests, w0, saved);
    DistinctIsUndisturbed(w0, saved, start, codec, image, rests);
  }
}
