/** An image that does not shrink: the estimate is too small for it, and saving fails
    although the kernel has pages to give. */
module Incompressible {
  import opened Utils
  import opened Extents
  import opened LittleEndian
  import opened SwapSpace
  import opened AllocSwap
  import opened SwapWriter
  import opened WriterProofs
  import opened WriterRuns
  import opened ImageFormat
  import opened RoundTrip
  import opened Estimate
  import EnoughSwap

  // ---------------------------------------------------------------------
  // When the kernel gives out consecutive pages, every batch is one extent and no
  // stale extent ever arises.

  ghost predicate Consecutive(kernel: seq<nat>) {
    forall k :: 0 <= k < |kernel| ==> kernel[k] == kernel[0] + k > 0
  }

  lemma {:induction false} OneExtent(length: nat, e: Extent, size: int, total: int, kernel: seq<nat>)
    requires length >= 2 && e.start < e.end && Consecutive(kernel) && (kernel != [] ==> kernel[0] == e.end)
    ensures match AllocLoop(Cleared(length, e), 1, size, total, kernel)
            case None => true
            case Some(a) => a.nr == 1 && a.slots == Cleared(length, a.slots[0]) && Consecutive(a.kernel)
    decreases total - size
  {
    hide Place;
    if size < total && kernel != [] && kernel[0] != 0 {
      var next := Extent(e.start, kernel[0] + 1);
      PlaceAtEnd(length, e, kernel[0]);
      OneExtent(length, next, size + 1, total, kernel[1..]);
    }
  }

  lemma PlaceAtEnd(length: nat, e: Extent, p: nat)
    requires length >= 2 && e.start < e.end == p
    ensures Place(Cleared(length, e), 1, p) == Placed(Cleared(length, Extent(e.start, p + 1)), 1)
  {
    var s := Cleared(length, e);
    assert s[..1] == [e];
    assert Search(s[..1], p, 0, 0) == Above(0);
    assert s[0 := Extent(e.start, p + 1)] == Cleared(length, Extent(e.start, p + 1));
  }

  ghost predicate InLine(w: Writer) {
    w.Shaped() && w.nr == 1 && w.slots == Cleared(|w.slots|, w.slots[0]) && Consecutive(w.kernel)
  }

  lemma BatchInLine(w: Writer)
    requires |w.slots| >= 2 && w.nr == 0 && w.slots == Cleared(|w.slots|, NO_EXTENT) && Consecutive(w.kernel)
    ensures Preallocate(w).Some? ==> InLine(Preallocate(w).value)
  {
    if w.kernel != [] && w.kernel[0] != 0 {
      var e := Extent(w.kernel[0], w.kernel[0] + 1);
      assert w.slots[0 := e] == Cleared(|w.slots|, e);
      OneExtent(|w.slots|, e, 1, Request(w.compress, w.needed), w.kernel[1..]);
    }
  }

  lemma InLineKeeps(w: Writer, src: Bytes)
    requires InLine(w)
    ensures NoStale(w) && (SavePage(w, src).Some? ==> InLine(SavePage(w, src).value))
  {
    assert !Holds(Behind(w));
    if Exhausted(w) {
      NextBatchReopens(w);
      if w.spc != 0 && w.kernel != [] && w.kernel[0] != 0 { BatchInLine(Reopened(w)); }
    }
  }

  lemma {:induction false} InLineNeverStale(w: Writer, pages: seq<Bytes>)
    requires InLine(w)
    ensures NeverStale(w, pages) && (SavePages(w, pages).Some? ==> InLine(SavePages(w, pages).value))
    decreases |pages|
  {
    hide InLine, NoStale, SavePage;
    InLineShaped(w);
    if pages != [] {
      var n := |pages| - 1;
      InLineNeverStale(w, pages[..n]);
      if SavePages(w, pages[..n]).Some? { InLineKeeps(SavePages(w, pages[..n]).value, pages[n]); }
    }
  }

  lemma InLineShaped(w: Writer)
    requires InLine(w)
    ensures w.Shaped()
  {
  }

  lemma StartInLine(compress: bool, length: int, needed: int, kernel: seq<nat>, disk: Disk)
    requires length >= 2 && Consecutive(kernel) && Start(compress, length, needed, kernel, disk).Some?
    ensures InLine(Start(compress, length, needed, kernel, disk).value)
  {
    BatchInLine(Opened(compress, length, needed, kernel, disk));
  }

  // ---------------------------------------------------------------------
  // A library that expands everything as much as LZO may.

  function Expand(raw: Bytes): Bytes {
    raw + seq(|raw| / 16 + 67, i => 0)
  }

  /** How many bytes were expanded to m. */
  function Unexpanded(m: int): int {
    (m - 67) / 17 * 16 + (m - 67) % 17
  }

  const EXPANDING: Lzo := Lzo(raw => Expand(raw),
                              (c: Bytes) => if 0 <= Unexpanded(|c|) <= |c| then Some(c[..Unexpanded(|c|)]) else None)

  lemma UnexpandedIs(n: nat)
    ensures Unexpanded(n + n / 16 + 67) == n
  {
    var q, r := n / 16, n % 16;
    assert n + n / 16 == 17 * q + r;
    assert (17 * q + r) / 17 == q && (17 * q + r) % 17 == r;
  }

  lemma ExpandingLawful()
    ensures EXPANDING.Lawful()
  {
    forall raw: Bytes
      ensures EXPANDING.decompress(EXPANDING.compress(raw)) == Some(raw)
      ensures |EXPANDING.compress(raw)| <= |raw| + |raw| / 16 + 67
    {
      UnexpandedIs(|raw|);
      assert Expand(raw)[..|raw|] == raw;
    }
  }

  /** The estimate for 96 pages. */
  lemma NeededFor96(codec: Codec)
    requires codec.compress && codec.pageSize >= 128
    ensures SwapNeeded(codec, 96) == 103
  {
    var p := codec.pageSize;
    Quotient(96 * p, 6 * p, 16);
    Quotient(6 * p + 67 + p - 1, 7, p);
    Quotient(7 * p, 7, p);
  }

  lemma {:induction false} ReadMoreIs(got: nat, size: nat, pageSize: nat, k: nat)
    requires pageSize > 0 && k >= 1 && got + (k - 1) * pageSize < size <= got + k * pageSize
    ensures ReadMore(got, size, pageSize) == k
    decreases k
  {
    assert k * pageSize == (k - 1) * pageSize + pageSize;
    if k > 1 {
      assert (k - 1) * pageSize == (k - 2) * pageSize + pageSize;
      ReadMoreIs(got + pageSize, size, pageSize, k - 1);
    } else {
      assert got + pageSize >= size;
    }
  }

  /** Each full buffer takes 35 pages. */
  lemma FullBufferTakes35(codec: Codec, buffer: seq<Bytes>)
    requires codec.compress && codec.lzo == EXPANDING && codec.pageSize >= 128
    requires |buffer| == 32 && AllPages(buffer, codec.pageSize)
    ensures PagesOf(codec, buffer) == 35
  {
    hide ReadMore, Flatten, AllPages;
    var p, raw := codec.pageSize, Flatten(buffer);
    FlattenLength(buffer, p);
    Quotient(32 * p, 2 * p, 16);
    var size := |Block(codec.lzo, raw)|;
    assert |Expand(raw)| == 34 * p + 67;
    assert size == 34 * p + 75;
    ReadMoreIs(0, size, p, 35);
  }

  lemma ThreeBuffers(codec: Codec, image: seq<Bytes>)
    requires codec.compress && codec.lzo == EXPANDING && codec.pageSize >= 128
    requires |image| == 96 && AllPages(image, codec.pageSize)
    ensures PageCount(codec, Buffers(image)) == 105
  {
    hide PagesOf, AllPages, Buffers;
    var a, b, c := SplitIn3(image);
    BuffersArePages(image, codec.pageSize);
    assert a in Buffers(image) && b in Buffers(image) && c in Buffers(image);
    FullBufferTakes35(codec, a);
    FullBufferTakes35(codec, b);
    FullBufferTakes35(codec, c);
    CountOf3(codec, a, b, c);
  }

  lemma SplitIn3(image: seq<Bytes>) returns (a: seq<Bytes>, b: seq<Bytes>, c: seq<Bytes>)
    requires |image| == 96
    ensures |a| == |b| == |c| == 32 && Buffers(image) == [a, b, c]
  {
    a, b, c := image[..32], image[32..][..32], image[32..][32..];
    assert Buffers(c) == [c];
    assert Buffers(image[32..]) == [b] + [c] == [b, c];
    assert Buffers(image) == [a] + [b, c] == [a, b, c];
  }

  lemma CountOf3(codec: Codec, a: seq<Bytes>, b: seq<Bytes>, c: seq<Bytes>)
    requires codec.pageSize > 0
    ensures PageCount(codec, [a, b, c]) == PagesOf(codec, a) + PagesOf(codec, b) + PagesOf(codec, c)
  {
    hide PagesOf;
    assert [a, b, c][1..] == [b, c] && [b, c][1..] == [c] && [c][1..] == [];
    assert PageCount(codec, [c]) == PagesOf(codec, c);
    assert PageCount(codec, [b, c]) == PagesOf(codec, b) + PagesOf(codec, c);
  }

  /** Any image of 96 pages, with the library that expands the most: 105 pages are to
      be saved and 103 are estimated.  From consecutive pages, however many the kernel
      has, saving succeeds up to the estimate and then fails. */
  lemma {:induction false} EstimateTooLow(codec: Codec, kernel: seq<nat>, disk: Disk, image: seq<Bytes>,
                                          rests: seq<Bytes>)
    requires codec.Lawful() && codec.compress && codec.lzo == EXPANDING && codec.pageSize >= 128
    requires |image| == 96 && AllPages(image, codec.pageSize) && |rests| == |Buffers(image)|
    requires forall r :: r in rests ==> |r| == CompressBufSize(codec.pageSize)
    requires |kernel| >= 316 && Consecutive(kernel)
    ensures SwapNeeded(codec, |image|) == 103 && |DataOf(codec, image, rests)| == 105
    ensures Start(true, codec.pageSize / 16, 103, kernel[1..], disk).Some?
    ensures var w0 := Start(true, codec.pageSize / 16, 103, kernel[1..], disk).value;
            && SavePages(w0, DataOf(codec, image, rests)[..103]).Some?
            && SavePages(w0, DataOf(codec, image, rests)) == None
    ensures forall w0, saved :: !Written(codec, kernel, disk, image, kernel[0], rests, w0, saved)
  {
    hide Start, SavePages, Buffers, PlainPages, EncryptAll, PageCount, AllPages, CompressBufSize, InLine, Codec.Lawful,
      SwapNeeded, NeverStale;
    NeededFor96(codec);
    CountData(codec, image, rests);
    ThreeBuffers(codec, image);
    EnoughForEstimate(codec, kernel, disk, DataOf(codec, image, rests));
  }

  lemma CountData(codec: Codec, image: seq<Bytes>, rests: seq<Bytes>)
    requires codec.Lawful() && AllPages(image, codec.pageSize) && |rests| == |Buffers(image)|
    requires forall r :: r in rests && codec.compress ==> |r| == CompressBufSize(codec.pageSize)
    ensures |DataOf(codec, image, rests)| == PageCount(codec, Buffers(image))
  {
    hide PlainPages, PageCount, AllPages, CompressBufSize;
    BuffersArePages(image, codec.pageSize);
    PlainCount(codec, Buffers(image), rests);
  }

  lemma EnoughForEstimate(codec: Codec, kernel: seq<nat>, disk: Disk, data: seq<Bytes>)
    requires codec.pageSize >= 128 && |kernel| >= 316 && Consecutive(kernel) && |data| == 105
    ensures Start(true, codec.pageSize / 16, 103, kernel[1..], disk).Some?
    ensures var w0 := Start(true, codec.pageSize / 16, 103, kernel[1..], disk).value;
            SavePages(w0, data[..103]).Some? && SavePages(w0, data) == None
  {
    hide Start, SavePages, InLine, NeverStale;
    ConsecutiveDistinct(kernel);
    BagHead(kernel);
    var rest := kernel[1..];
    EnoughSwap.EnoughSwapSaves(true, codec.pageSize / 16, 103, rest, disk, kernel[0], data[..103]);
    StartInLine(true, codec.pageSize / 16, 103, rest, disk);
    InLineNeverStale(Start(true, codec.pageSize / 16, 103, rest, disk).value, data);
    AtMostOneMore(true, codec.pageSize / 16, 103, rest, disk, kernel[0], data);
  }

  lemma {:induction false} ConsecutiveDistinct(kernel: seq<nat>)
    requires Consecutive(kernel)
    ensures NoDup(multiset(kernel)) && 0 !in kernel
    decreases |kernel|
  {
    if kernel != [] {
      var first := kernel[..|kernel| - 1];
      ConsecutiveDistinct(first);
      assert kernel == first + [kernel[|kernel| - 1]];
      forall x ensures multiset(kernel)[x] <= 1 {
        if x == kernel[|kernel| - 1] { assert x !in first; }
      }
    }
  }
}
