/** A compressed image of five pages that is saved without an error and cannot be
    read back: two pages of its block went to one place. */
module LostImage {
  import opened Utils
  import opened LittleEndian
  import opened SwapSpace
  import opened SwapWriter
  import opened WriterRuns
  import opened SwapReader
  import opened Lockstep
  import opened ImageFormat
  import opened ImageReader
  import opened RoundTrip
  import opened StaleCarry

  /** A library that shrinks x to y and keeps everything else; the first byte tells. */
  function Tagging(x: Bytes, y: Bytes): Lzo {
    Lzo(raw => if raw == x then [1] + y else [0] + raw,
        (c: Bytes) => if c == [1] + y then Some(x) else if c != [] && c[0] == 0 then Some(c[1..]) else None)
  }

  lemma TaggingLawful(x: Bytes, y: Bytes)
    requires |y| + 1 <= |x| + |x| / 16 + 67
    ensures Tagging(x, y).Lawful()
  {
    var lzo := Tagging(x, y);
    forall raw: Bytes
      ensures lzo.decompress(lzo.compress(raw)) == Some(raw)
      ensures |lzo.compress(raw)| <= |raw| + |raw| / 16 + 67
    {
      if raw != x { assert ([0] + raw)[0] != ([1] + y)[0]; }
    }
  }

  /** What the image shrinks to: just enough to fill four pages with the size field and
      the tag. */
  function Shrunk(pageSize: nat): (y: Bytes)
    requires pageSize >= 128
    ensures |y| == 4 * pageSize - 9
  {
    seq(4 * pageSize - 10, i => 0) + [1]
  }

  /** The codec that compresses this image so. */
  function ImageCodec(image: seq<Bytes>, cipher: Cipher, iv: Bytes, pageSize: nat): Codec
    requires pageSize >= 128
  {
    Codec(true, false, Tagging(Flatten(image), Shrunk(pageSize)), cipher, iv, pageSize)
  }

  /** The block of the image, and its four pages. */
  function TheBlock(pageSize: nat): (b: Bytes)
    requires pageSize >= 128
    ensures |b| == 4 * pageSize
  {
    LE(4 * pageSize - 8, 8) + ([1] + Shrunk(pageSize))
  }

  function Q(pageSize: nat, k: nat): (q: Bytes)
    requires pageSize >= 128 && k < 4
    ensures |q| == pageSize
  {
    TheBlock(pageSize)[k * pageSize..k * pageSize + pageSize]
  }

  lemma LastTwoDiffer(p: nat)
    requires p >= 128
    ensures Q(p, 2)[p - 1] == 0 && Q(p, 3)[p - 1] == 1
  {
    assert Q(p, 2)[p - 1] == TheBlock(p)[3 * p - 1] == Shrunk(p)[3 * p - 10];
    assert Q(p, 3)[p - 1] == TheBlock(p)[4 * p - 1] == Shrunk(p)[4 * p - 10];
  }

  lemma FourPages(p: nat, rest: Bytes)
    requires p >= 128 && |rest| >= 4 * p
    ensures Cut(Overlay(rest, TheBlock(p)), 4 * p, p) == [Q(p, 0), Q(p, 1), Q(p, 2), Q(p, 3)]
  {
    hide TheBlock;
    var all := Overlay(rest, TheBlock(p));
    assert all[..4 * p] == TheBlock(p);
    CutAt(all, 3 * p, p, 0, []);
    CutAt(all, 2 * p, p, p, [all[3 * p..4 * p]]);
    CutAt(all, p, p, 2 * p, [all[2 * p..3 * p], all[3 * p..4 * p]]);
    CutAt(all, 0, p, 3 * p, [all[p..2 * p], all[2 * p..3 * p], all[3 * p..4 * p]]);
    assert all[0..] == all;
    PagesOfBlock(all, p);
  }

  lemma PagesOfBlock(all: Bytes, p: nat)
    requires p >= 128 && |all| >= 4 * p && all[..4 * p] == TheBlock(p)
    ensures all[0..p] == Q(p, 0) && all[p..2 * p] == Q(p, 1)
    ensures all[2 * p..3 * p] == Q(p, 2) && all[3 * p..4 * p] == Q(p, 3)
  {
    hide TheBlock;
    var b := all[..4 * p];
    assert b[0..p] == all[0..p] && b[p..2 * p] == all[p..2 * p];
    assert b[2 * p..3 * p] == all[2 * p..3 * p] && b[3 * p..4 * p] == all[3 * p..4 * p];
  }

  /** The page at `at` in front of the rest. */
  lemma CutAt(all: Bytes, at: nat, p: nat, more: nat, tail: seq<Bytes>)
    requires p > 0 && at + p + more <= |all|
    requires more > 0 ==> Cut(all[at + p..], more, p) == tail
    requires more == 0 ==> tail == []
    ensures Cut(all[at..], p + more, p) == [all[at..at + p]] + tail
  {
    assert all[at..][p..] == all[at + p..] && all[at..][..p] == all[at..at + p];
  }

  lemma NeededFor5(codec: Codec)
    requires codec.compress && codec.pageSize >= 128
    ensures SwapNeeded(codec, 5) == 6
  {
    var p := codec.pageSize;
    var x := 5 * p / 16 + 67;
    assert 0 < x <= p;
    Quotient(x + p - 1, 1, p);
    Quotient(p, 1, p);
  }

  /** The pages of the image on their way to the swap. */
  lemma DataIs(image: seq<Bytes>, codec: Codec, cipher: Cipher, iv: Bytes, rest: Bytes)
    requires |image| == 5 && codec.pageSize >= 128 && codec == ImageCodec(image, cipher, iv, codec.pageSize)
    requires |rest| >= 4 * codec.pageSize
    ensures |Buffers(image)| == 1
    ensures var p := codec.pageSize; DataOf(codec, image, [rest]) == [Q(p, 0), Q(p, 1), Q(p, 2), Q(p, 3)]
  {
    hide Cut, Overlay, Q, Block, TheBlock, Flatten, Shrunk;
    var p := codec.pageSize;
    OneBuffer(codec, image, rest);
    BlockIs(codec, image, cipher, iv);
    FourPages(p, rest);
    PlainStays(codec, iv, [Q(p, 0), Q(p, 1), Q(p, 2), Q(p, 3)]);
  }

  lemma BlockIs(codec: Codec, image: seq<Bytes>, cipher: Cipher, iv: Bytes)
    requires codec.pageSize >= 128 && codec == ImageCodec(image, cipher, iv, codec.pageSize)
    ensures Block(codec.lzo, Flatten(image)) == TheBlock(codec.pageSize)
  {
    hide Shrunk, Flatten;
  }

  lemma OneBuffer(codec: Codec, image: seq<Bytes>, rest: Bytes)
    requires |image| == 5 && codec.pageSize > 0
    ensures Buffers(image) == [image] && PlainPages(codec, Buffers(image), [rest]) == FlushPages(codec, image, rest)
  {
    hide FlushPages;
    assert [image][1..] == [] && [rest][1..] == [];
    var f := FlushPages(codec, image, rest);
    assert f + [] == f;
  }

  lemma {:induction false} PlainStays(codec: Codec, s: Bytes, pages: seq<Bytes>)
    requires !codec.encrypt
    ensures EncryptAll(codec, s, pages) == pages
    decreases |pages|
  {
    if pages != [] { PlainStays(codec, Encrypt(codec, s, pages[0]).0, pages[1..]); }
  }

  // ---------------------------------------------------------------------
  // Saved, and lost.

  /** What the reader finds instead of the block. */
  function Found(p: nat): seq<Bytes>
    requires p >= 128
  {
    [Q(p, 0), Q(p, 1), Q(p, 3), Q(p, 3)]
  }

  lemma FlattenFour(a: Bytes, b: Bytes, c: Bytes, d: Bytes)
    ensures Flatten([a, b, c, d]) == a + b + c + d
  {
    assert [a, b, c, d][1..] == [b, c, d] && [b, c, d][1..] == [c, d] && [c, d][1..] == [d] && [d][1..] == [];
    assert Flatten([d]) == d + [] == d;
    assert Flatten([c, d]) == c + d;
    assert Flatten([b, c, d]) == b + (c + d);
    assert a + (b + (c + d)) == a + b + c + d;
  }

  /** The bytes found start like the block and differ from it at the end of the third
      page. */
  lemma FoundIs(p: nat)
    requires p >= 128
    ensures var g := Flatten(Found(p));
            && |g| == 4 * p && g[..8] == TheBlock(p)[..8] && g[8] == TheBlock(p)[8]
            && g[3 * p - 1] == 1 && TheBlock(p)[3 * p - 1] == 0
  {
    hide TheBlock;
    FlattenFour(Q(p, 0), Q(p, 1), Q(p, 3), Q(p, 3));
    var g := Q(p, 0) + Q(p, 1) + Q(p, 3) + Q(p, 3);
    LastTwoDiffer(p);
    forall i | 0 <= i < 9 ensures g[i] == TheBlock(p)[i] {
      assert g[i] == Q(p, 0)[i];
    }
    assert g[3 * p - 1] == Q(p, 3)[p - 1];
    assert Q(p, 2)[p - 1] == TheBlock(p)[3 * p - 1];
  }

  /** They have the size of the block, and do not decompress. */
  lemma DoesNotDecode(image: seq<Bytes>, cipher: Cipher, iv: Bytes, p: nat)
    requires 128 <= p < 0x800_0000
    ensures |Flatten(Found(p))| == 4 * p
    ensures FromLE(Flatten(Found(p))[..8]) == 4 * p - 8
    ensures ImageCodec(image, cipher, iv, p).lzo.decompress(Flatten(Found(p))[8..]) == None
  {
    hide Q, Shrunk, FromLE, LE, Flatten, Found;
    FoundIs(p);
    var g := Flatten(Found(p));
    SizeRoundTrip(4 * p - 8);
    assert TheBlock(p)[..8] == LE(4 * p - 8, 8);
    assert TheBlock(p)[8..] == [1] + Shrunk(p);
    assert g[8..][0] == g[8] == TheBlock(p)[8] == 1;
    assert g[8..][3 * p - 9] == g[3 * p - 1] == 1;
    assert TheBlock(p)[8..][3 * p - 9] == 0;
  }

  lemma CodecLawful(image: seq<Bytes>, codec: Codec, cipher: Cipher, iv: Bytes)
    requires |image| == 5 && AllPages(image, codec.pageSize) && cipher.Lawful()
    requires 128 <= codec.pageSize < 0x800_0000 && codec.pageSize % 64 == 0
    requires codec == ImageCodec(image, cipher, iv, codec.pageSize)
    ensures codec.Lawful()
  {
    hide Flatten, AllPages, Shrunk, Tagging, Lzo.Lawful, Cipher.Lawful;
    FlattenLength(image, codec.pageSize);
    TaggingLawful(Flatten(image), Shrunk(codec.pageSize));
  }

  lemma BufferRoom(p: nat)
    requires p > 0
    ensures CompressBufSize(p) >= 4 * p
  {
    hide RoundUp;
  }

  lemma SharesDiffer(codec: Codec, image: seq<Bytes>, rest: Bytes, saved: Writer)
    requires codec.pageSize >= 128 && |Buffers(image)| == 1 && saved.used == [10, 11, 12, 12]
    requires var p := codec.pageSize; DataOf(codec, image, [rest]) == [Q(p, 0), Q(p, 1), Q(p, 2), Q(p, 3)]
    ensures !Undisturbed(saved, codec, image, [rest])
  {
    hide Q, ImageFacts;
    var p := codec.pageSize;
    LastTwoDiffer(p);
    assert saved.used[2] == saved.used[3];
  }

  /** For every page size the program can have: write_image saves this image of five
      pages, with the swap estimated for it and from a kernel that repeats no page, and
      whoever reads the finished image gets four pages with the size of the block that
      do not decompress. */
  lemma {:induction false} SavedAndLost(image: seq<Bytes>, codec: Codec, cipher: Cipher, iv: Bytes, rest: Bytes,
                                        disk: Disk)
    returns (w0: Writer, saved: Writer)
    requires |image| == 5 && AllPages(image, codec.pageSize) && cipher.Lawful()
    requires 128 <= codec.pageSize < 0x800_0000 && codec.pageSize % 64 == 0
    requires codec == ImageCodec(image, cipher, iv, codec.pageSize) && |rest| == CompressBufSize(codec.pageSize)
    ensures codec.Lawful() && NoDup(multiset([50] + KERNEL))
    ensures Written(codec, [50] + KERNEL, disk, image, 50, [rest], w0, saved)
    ensures !Undisturbed(saved, codec, image, [rest])
    ensures forall r: Reader, page: Page, glance: Glance ::
              r.Shaped() && |r.slots| == codec.pageSize / 16 && r.next == FirstTable(saved)
              && Carries(r.disk, saved, 50, page) ==>
                Finds(r, glance, Found(codec.pageSize))
  {
    hide Q, Codec.Lawful, Flatten, Cut, Overlay, SavePages, Start, Carries, CompressBufSize, AllPages, Tagging,
      Undisturbed, Buffers, PlainPages, EncryptAll, SwapNeeded, Finds, NeverStale;
    var p := codec.pageSize;
    CodecLawful(image, codec, cipher, iv);
    NeededFor5(codec);
    BufferRoom(p);
    DataIs(image, codec, cipher, iv, rest);
    TwoPagesInOnePlace(p / 16, disk, Q(p, 0), Q(p, 1), Q(p, 2), Q(p, 3));
    w0 := Start(true, p / 16, 6, KERNEL, disk).value;
    saved := SavePages(w0, [Q(p, 0), Q(p, 1), Q(p, 2), Q(p, 3)]).value;
    KernelDistinct(50);
    assert multiset([50] + KERNEL) == multiset{50} + multiset(KERNEL);
    assert ([50] + KERNEL)[1..] == KERNEL;
    SharesDiffer(codec, image, rest, saved);
    forall r: Reader, page: Page, glance: Glance |
      r.Shaped() && |r.slots| == p / 16 && r.next == FirstTable(saved) && Carries(r.disk, saved, 50, page)
      ensures Finds(r, glance, Found(p))
    {
      FindsThem(p, disk, page, r, glance);
    }
  }

  lemma FindsThem(p: nat, disk: Disk, page: Page, r: Reader, glance: Glance)
    requires 128 <= p && Start(true, p / 16, 6, KERNEL, disk).Some?
    requires SavePages(Start(true, p / 16, 6, KERNEL, disk).value, [Q(p, 0), Q(p, 1), Q(p, 2), Q(p, 3)]).Some?
    requires var v := SavePages(Start(true, p / 16, 6, KERNEL, disk).value, [Q(p, 0), Q(p, 1), Q(p, 2), Q(p, 3)]).value;
             r.Shaped() && |r.slots| == p / 16 && r.next == FirstTable(v) && Carries(r.disk, v, 50, page)
    ensures Finds(r, glance, Found(p))
  {
    hide Q, SavePages, Start, Carries, LoadTable, Visits;
    FourthForThird(p / 16, disk, Q(p, 0), Q(p, 1), Q(p, 2), Q(p, 3), 50, page, r, glance);
  }

  /** The reader visits four pages, with these contents. */
  ghost predicate Finds(r: Reader, glance: Glance, pages: seq<Bytes>)
    requires r.Shaped()
  {
    LoadTable(r, glance).Some? && (
      var visits := Visits(LoadTable(r, glance).value, |pages|, glance);
      forall k :: 0 <= k < |pages| ==> visits[k] > 0 && ReadPage(r.disk, visits[k]) == Data(pages[k]))
  }
}
