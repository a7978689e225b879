/** struct swap_reader and the functions of load.c that load an image. */
module ImageReader {
  import opened Utils
  import opened LittleEndian
  import opened Extents
  import opened SwapSpace
  import opened SwapReader
  import opened ImageFormat
  import opened Lockstep
  import Md5

  /** The bytes of a page; those of a page that holds no data are left open. */
  type Dump = Page -> Bytes

  function AsBytes(dump: Dump, page: Page, pageSize: nat): (b: Bytes)
    ensures |b| == pageSize
  {
    var b := if page.Data? then page.bytes else dump(page);
    if |b| == pageSize then b else seq(pageSize, i => 0)
  }

  /** The pages ahead of the reader are these, once decrypted from state s on. */
  ghost predicate Coming(r: Reader, glance: Glance, codec: Codec, s: Bytes, plain: seq<Bytes>) {
    && r.Shaped()
    && AllPages(plain, codec.pageSize)
    && Stored(r.disk, Visits(r, |plain|, glance), EncryptAll(codec, s, plain))
  }

  /** Reading and decrypting one page takes the first of them. */
  lemma ComingStep(r: Reader, glance: Glance, codec: Codec, s: Bytes, plain: seq<Bytes>, dump: Dump)
    requires codec.Lawful() && Coming(r, glance, codec, s, plain) && plain != []
    ensures r.cur > 0
    ensures var (s', page) := Decrypt(codec, s, AsBytes(dump, ReadPage(r.disk, r.cur), codec.pageSize));
            page == plain[0] && Coming(FindNext(r, glance), glance, codec, s', plain[1..])
  {
    hide FindNext;
    var (s', c) := Encrypt(codec, s, plain[0]);
    assert Visits(r, |plain|, glance)[0] == r.cur && EncryptAll(codec, s, plain)[0] == c;
    AllPagesTail(plain, codec.pageSize);
    assert Visits(r, |plain|, glance) == [r.cur] + Visits(FindNext(r, glance), |plain| - 1, glance);
    assert EncryptAll(codec, s, plain) == [c] + EncryptAll(codec, s', plain[1..]);
    StoredTail(r.disk, r.cur, Visits(FindNext(r, glance), |plain| - 1, glance), c, EncryptAll(codec, s', plain[1..]));
    SameDisk(r, glance);
  }

  lemma SameDisk(r: Reader, glance: Glance)
    requires r.Shaped()
    ensures FindNext(r, glance).disk == r.disk
  {
  }

  lemma StoredTail(disk: Disk, cur: int, visits: seq<int>, c: Bytes, rest: seq<Bytes>)
    requires Stored(disk, [cur] + visits, [c] + rest)
    ensures cur > 0 && ReadPage(disk, cur) == Data(c) && Stored(disk, visits, rest)
  {
    assert ([cur] + visits)[0] == cur && ([c] + rest)[0] == c;
    forall j | 0 <= j < |visits| ensures visits[j] > 0 && ReadPage(disk, visits[j]) == Data(rest[j]) {
      assert ([cur] + visits)[j + 1] == visits[j] && ([c] + rest)[j + 1] == rest[j];
    }
  }

  class ImageReader {
    const dev: Device
    const codec: Codec
    const glance: Glance
    const dump: Dump
    const extents: array<Extent>
    const ctx: Md5.Context
    var curExtent: int
    var curOffset: int
    var nextExtents: int
    var totalSize: int
    var cipherState: Bytes

    ghost function View(): Reader
      reads this, extents, dev`disk
    {
      Reader(extents[..], curExtent, curOffset, nextExtents, dev.disk)
    }

    /** The buffers of init_swap_reader; the array of extents holds anything. */
    constructor (dev: Device, codec: Codec, glance: Glance, dump: Dump, slots: nat, ctx: Md5.Context,
                 start: nat, imageSize: int)
      requires slots >= 2
      ensures this.dev == dev && this.codec == codec && this.glance == glance && this.dump == dump
      ensures this.ctx == ctx && fresh(extents) && extents.Length == slots
      ensures curExtent == 0 && nextExtents == start && totalSize == imageSize && cipherState == codec.iv
    {
      this.dev, this.codec, this.glance, this.dump, this.ctx := dev, codec, glance, dump, ctx;
      extents := new Extent[slots](i => NO_EXTENT);
      curExtent, curOffset, nextExtents, totalSize := 0, 0, start, imageSize;
      cipherState := codec.iv;
    }

    /** load_extents_page */
    method LoadExtentsPage() returns (ok: bool)
      requires View().Shaped()
      modifies this`curExtent, this`curOffset, this`nextExtents, extents
      ensures match LoadTable(old(View()), glance)
              case None => !ok && View() == old(View())
              case Some(v) => ok && View() == v
    {
      if nextExtents < 0 {
        return false;
      }
      if nextExtents != 0 {
        var table := AsTable(glance, ReadPage(dev.disk, nextExtents), extents.Length);
        forall i | 0 <= i < extents.Length {
          extents[i] := table[i];
        }
        assert extents[..] == table;
      }
      var n := extents.Length - 1;
      nextExtents := extents[n].start;
      extents[n] := NO_EXTENT;
      curExtent := 0;
      curOffset := extents[0].start;
      return true;
    }

    /** find_next_image_page */
    method FindNextImagePage()
      requires View().Shaped()
      modifies this`curExtent, this`curOffset, this`nextExtents, extents
      ensures View() == FindNext(old(View()), glance)
    {
      if curOffset + 1 < extents[curExtent].end {
        curOffset := curOffset + 1;
        return;
      }
      if curExtent + 1 < extents.Length - 1 && extents[curExtent + 1].start < extents[curExtent + 1].end {
        curExtent := curExtent + 1;
        curOffset := extents[curExtent].start;
        return;
      }
      var ok := LoadExtentsPage();
      if !ok {
        curOffset := 0;
      }
    }

    /** load_and_decrypt_page */
    method LoadAndDecryptPage() returns (ok: bool, page: Bytes)
      requires View().Shaped() && codec.Lawful()
      modifies this`curExtent, this`curOffset, this`nextExtents, this`totalSize, this`cipherState, extents
      ensures ok <==> old(curOffset) > 0
      ensures ok ==> View() == FindNext(old(View()), glance) && totalSize == old(totalSize) - 1
      ensures ok ==> (cipherState, page) ==
                     Decrypt(codec, old(cipherState),
                              AsBytes(dump, ReadPage(old(dev.disk), old(curOffset)), codec.pageSize))
      ensures ok && codec.encrypt ==>
                (cipherState, page) ==
                codec.cipher.decrypt(old(cipherState),
                                     AsBytes(dump, ReadPage(old(dev.disk), old(curOffset)), codec.pageSize))
      ensures ok && !codec.encrypt ==>
                cipherState == old(cipherState)
                && page == AsBytes(dump, ReadPage(old(dev.disk), old(curOffset)), codec.pageSize)
      ensures View().Shaped() && |page| == codec.pageSize
    {
      if curOffset <= 0 {
        return false, seq(codec.pageSize, i => 0);
      }
      page := AsBytes(dump, ReadPage(dev.disk, curOffset), codec.pageSize);
      if codec.encrypt {
        var (s, p) := codec.cipher.decrypt(cipherState, page);
        cipherState, page := s, p;
      }
      totalSize := totalSize - 1;
      FindNextImagePage();
      return true, page;
    }

    /** What is ahead of the reader. */
    ghost predicate Ahead(plain: seq<Bytes>)
      reads this, extents, dev`disk
    {
      Coming(View(), glance, codec, cipherState, plain)
    }

    /** Take the next page of those ahead. */
    method TakePage(ghost plain: seq<Bytes>) returns (ok: bool, page: Bytes)
      requires View().Shaped() && codec.Lawful()
      modifies this`curExtent, this`curOffset, this`nextExtents, this`totalSize, this`cipherState, extents
      ensures View().Shaped() && |page| == codec.pageSize
      ensures ok ==> totalSize == old(totalSize) - 1
      ensures old(Ahead(plain)) && plain != [] ==> ok && page == plain[0] && Ahead(plain[1..])
    {
      hide FindNext, Encrypt, AsBytes, EncryptAll, Visits, Stored;
      if Ahead(plain) && plain != [] {
        ComingStep(View(), glance, codec, cipherState, plain, dump);
      }
      ok, page := LoadAndDecryptPage();
    }

    /** The first loop of load_buffer: the pages of a compressed block. */
    method LoadBlock(ghost buf: Bytes, ghost size: nat, ghost more: seq<Bytes>) returns (ok: bool, got: Bytes)
      requires View().Shaped() && codec.Lawful()
      modifies this`curExtent, this`curOffset, this`nextExtents, this`totalSize, this`cipherState, extents
      ensures View().Shaped()
      ensures ok ==> |got| >= SIZE_BYTES && |got| >= SIZE_BYTES + FromLE(got[..SIZE_BYTES])
      ensures old(Ahead(Cut(buf, size, codec.pageSize) + more)) && GoodBlock(buf, size, codec.pageSize)
              ==> ok && size <= |got| <= |buf| && got == buf[..|got|] && Ahead(more)
    {
      hide Coming, Cut, Whole, LE, FromLE;
      ghost var good := Ahead(Cut(buf, size, codec.pageSize) + more) && GoodBlock(buf, size, codec.pageSize);
      if good { CutFirst(buf, size, codec.pageSize, more); }
      ok, got := TakePage(Cut(buf, size, codec.pageSize) + more);
      if !ok {
        return;
      }
      var blockSize := FromLE(got[..SIZE_BYTES]);
      assert good ==> got == buf[..codec.pageSize];
      assert good ==> blockSize + SIZE_BYTES == size by {
        if good { assert got[..SIZE_BYTES] == buf[..SIZE_BYTES]; }
      }
      while |got| < blockSize + SIZE_BYTES
        invariant View().Shaped() && |got| >= SIZE_BYTES && blockSize == FromLE(got[..SIZE_BYTES])
        invariant good ==> |got| <= |buf| && got == buf[..|got|] && Whole(|buf| - |got|, codec.pageSize)
        invariant good ==> Ahead(Cut(buf[|got|..], size - |got|, codec.pageSize) + more)
        decreases blockSize + SIZE_BYTES - |got|
      {
        ghost var rest := buf[if good then |got| else 0..];
        if good { CutFirst(rest, size - |got|, codec.pageSize, more); }
        var page;
        ok, page := TakePage(Cut(rest, size - |got|, codec.pageSize) + more);
        if !ok {
          return;
        }
        assert good ==> rest[codec.pageSize..] == buf[|got| + codec.pageSize..];
        assert (got + page)[..SIZE_BYTES] == got[..SIZE_BYTES];
        got := got + page;
      }
      if good {
        CutEmpty(buf[|got|..], size - |got|, codec.pageSize, more);
      }
    }

    /** The second loop of load_buffer: pages of an uncompressed image. */
    method LoadPages(ghost buffer: seq<Bytes>, ghost more: seq<Bytes>)
      returns (ok: bool, data: Bytes)
      requires View().Shaped() && codec.Lawful()
      modifies this`curExtent, this`curOffset, this`nextExtents, this`totalSize, this`cipherState, extents
      ensures View().Shaped()
      ensures old(Ahead(buffer + more) && totalSize == |buffer| + |more|) && FirstBuffer(buffer, more)
              ==> ok && data == Flatten(buffer) && Ahead(more) && totalSize == |more|
    {
      hide Coming, Flatten;
      ghost var good := Ahead(buffer + more) && totalSize == |buffer| + |more| && FirstBuffer(buffer, more);
      var size := 0;
      data := [];
      NothingFlattened(buffer);
      while size < BUFFER_PAGES && totalSize > 0
        invariant View().Shaped() && 0 <= size
        invariant good ==> size <= |buffer| && data == Flatten(buffer[..size])
        invariant good ==> Ahead((buffer + more)[size..]) && totalSize == |buffer| + |more| - size
        decreases BUFFER_PAGES - size
      {
        ghost var left := if good then (buffer + more)[size..] else [];
        var page;
        ok, page := TakePage(left);
        if !ok {
          return;
        }
        if good {
          assert left[1..] == (buffer + more)[size + 1..] && left[0] == buffer[size];
          FlattenOneMore(buffer, size);
        }
        data := data + page;
        size := size + 1;
      }
      if good {
        assert size == |buffer| && buffer[..size] == buffer;
        assert (buffer + more)[size..] == more;
      }
      ok := true;
    }

    /** The compressed branch of load_buffer. */
    method LoadCompressed(ghost buffer: seq<Bytes>, ghost rest: Bytes, ghost more: seq<Bytes>)
      returns (ok: bool, data: Bytes)
      requires View().Shaped() && codec.Lawful() && codec.compress
      modifies this`curExtent, this`curOffset, this`nextExtents, this`totalSize, this`cipherState, extents
      ensures View().Shaped()
      ensures old(Ahead(FlushPages(codec, buffer, rest) + more)) && GoodBuffer(codec, buffer, rest)
              ==> ok && data == Flatten(buffer) && Ahead(more)
    {
      hide Coming, Flatten, Cut, LE, FromLE, Whole, Block;
      data := [];
      ghost var good := Ahead(FlushPages(codec, buffer, rest) + more) && GoodBuffer(codec, buffer, rest);
      ghost var buf: Bytes, size := [], 0;
      if good {
        BlockIsGood(codec, buffer, rest);
        buf, size := Overlay(rest, Block(codec.lzo, Flatten(buffer))), |Block(codec.lzo, Flatten(buffer))|;
      }
      var got;
      ok, got := LoadBlock(buf, size, more);
      if !ok {
        return;
      }
      var blockSize := FromLE(got[..SIZE_BYTES]);
      if good { BlockDecodes(codec, buffer, rest, got); }
      match codec.lzo.decompress(got[SIZE_BYTES..SIZE_BYTES + blockSize])
      case None => return false, [];
      case Some(d) => return true, d;
    }

    /** load_buffer: a block is decompressed, or pages are taken as they are; the
        checksum runs over the result.  Data that is not a whole number of blocks
        for md5_process_block is refused. */
    method LoadBuffer(ghost buffer: seq<Bytes>, ghost rest: Bytes, ghost more: seq<Bytes>, ghost fed: Bytes)
      returns (ok: bool, data: Bytes)
      requires View().Shaped() && codec.Lawful() && ctx.Fed(fed) && ctx.buflen == 0
      modifies this`curExtent, this`curOffset, this`nextExtents, this`totalSize, this`cipherState,
               extents, ctx, ctx.buffer
      ensures View().Shaped()
      ensures ok ==> ctx.Fed(fed + data) && ctx.buflen == 0
      ensures old(Ahead(FlushPages(codec, buffer, rest) + more)) && GoodBuffer(codec, buffer, rest)
              && (!codec.compress ==> old(totalSize) == |buffer| + |more| && FirstBuffer(buffer, more))
              ==> ok && data == Flatten(buffer) && Ahead(more) && (!codec.compress ==> totalSize == |more|)
    {
      hide Coming, Flatten, FirstBuffer, Cut;
      ghost var good := Ahead(FlushPages(codec, buffer, rest) + more) && GoodBuffer(codec, buffer, rest)
        && (!codec.compress ==> totalSize == |buffer| + |more| && FirstBuffer(buffer, more));
      if codec.compress {
        ok, data := LoadCompressed(buffer, rest, more);
      } else {
        ok, data := LoadPages(buffer, more);
      }
      if !ok {
        return;
      }
      if good {
        FlattenWhole(buffer, codec.pageSize);
        BufferBound(buffer, codec.pageSize);
      }
      if |data| % 64 != 0 || |data| >= 0x1_0000_0000 {
        return false, data;
      }
      ctx.FeedBlocks(data, fed);
    }

    /** Load the next buffer of the image. */
    method Refill(ghost good: bool, ghost image: seq<Bytes>, ghost out: seq<Bytes>, ghost rem: seq<Bytes>,
                  ghost rests: seq<Bytes>, ghost fed: Bytes)
      returns (ok: bool, buf: Bytes, ghost b: seq<Bytes>)
      requires View().Shaped() && codec.Lawful() && ctx.Fed(fed) && ctx.buflen == 0
      requires good ==> Progress(image, out, [], rem, [], fed, codec.pageSize) && GoodImage(rem, rests) && rem != []
      modifies this`curExtent, this`curOffset, this`nextExtents, this`totalSize, this`cipherState,
               extents, ctx, ctx.buffer
      ensures View().Shaped()
      ensures ok ==> ctx.Fed(fed + buf) && ctx.buflen == 0
      ensures good ==> ok && buf != [] && |b| <= |rem| && rests != [] && GoodImage(rem[|b|..], rests[1..])
      ensures good ==> Progress(image, out, b, rem[|b|..], buf, fed + buf, codec.pageSize)
    {
      hide Ahead, Flatten, PlainPages, Buffers, FlushPages, ImageFacts, Progress, GoodBuffer, FirstBuffer;
      ghost var r: Bytes, more: seq<Bytes>;
      b, r, more := [], [], [];
      if good { b, r, more := HeadOfImage(rem, rests); }
      ok, buf := LoadBuffer(b, r, more, fed);
      if good {
        BufferNotEmpty(codec, b, r);
        ProgressLoad(image, out, rem, fed, b, codec.pageSize);
      }
    }

    /** load_image: hand the pages to the snapshot device, loading a buffer
        whenever the last one is used up. */
    method LoadImage(nrPages: nat, ghost image: seq<Bytes>, ghost rests: seq<Bytes>)
      returns (ok: bool, out: seq<Bytes>, ghost fed: Bytes)
      requires View().Shaped() && codec.Lawful() && ctx.Fed([]) && ctx.buflen == 0
      modifies this`curExtent, this`curOffset, this`nextExtents, this`totalSize, this`cipherState,
               extents, ctx, ctx.buffer
      ensures old(GoodImage(image, rests)) && nrPages == |image| > 0
              ==> ok && out == image && fed == Flatten(image)
      ensures ok ==> ctx.Fed(fed) && |out| == (if nrPages == 0 then 1 else nrPages) && Flatten(out) <= fed
    {
      hide Ahead, Flatten, PlainPages, Buffers, FlushPages, ImageFacts, Progress, GoodBuffer, FirstBuffer,
        Coming, InHand;
      NothingInHand();
      ghost var good := GoodImage(image, rests) && nrPages == |image| > 0;
      ghost var cur, rem, rs: seq<Bytes> := [], image, rests;
      ok, out, fed := true, [], [];
      var n := 0;
      var buf: Bytes := [];
      if good { ProgressStarts(codec, image, rests); }
      while n == 0 || n < nrPages
        invariant ok && View().Shaped() && ctx.Fed(fed) && ctx.buflen == 0
        invariant n == |out| && (n == 0 || n <= nrPages || n == 1) && InHand(out, buf, fed)
        invariant good ==> Progress(image, out, cur, rem, buf, fed, codec.pageSize)
        invariant good ==> GoodImage(rem, rs)
        decreases if n == 0 then 1 else 0, nrPages - n
      {
        if |buf| == 0 {
          if good { ProgressEmpty(image, out, cur, rem, buf, fed, codec.pageSize); }
          ok, buf, cur := Refill(good, image, out, rem, rs, fed);
          if !ok || |buf| == 0 {
            return false, out, fed;
          }
          if good { rem, rs := rem[|cur|..], rs[1..]; }
          MoreInHand(out, buf, fed);
          fed := fed + buf;
        }
        var page := if |buf| >= codec.pageSize then buf[..codec.pageSize] else buf;
        if good {
          ProgressPage(image, out, cur, rem, buf, fed, codec.pageSize);
          cur := cur[1..];
        }
        HandOut(out, page, buf, fed);
        out := out + [page];
        buf := buf[|page|..];
        n := n + 1;
      }
      if good { ProgressDone(image, out, cur, rem, buf, fed, codec.pageSize); }
      HandedOut(out, buf, fed);
    }

    /** The image, or what is left of it, is ahead of the reader. */
    ghost predicate GoodImage(image: seq<Bytes>, rests: seq<Bytes>)
      reads this, extents, dev`disk
    {
      && ImageFacts(codec, image, rests)
      && (!codec.compress ==> totalSize == |image|)
      && Ahead(PlainPages(codec, Buffers(image), rests))
    }

    lemma HeadOfImage(rem: seq<Bytes>, rs: seq<Bytes>) returns (b: seq<Bytes>, r: Bytes, more: seq<Bytes>)
      requires codec.Lawful() && GoodImage(rem, rs) && rem != []
      ensures 0 < |b| <= |rem| && b == rem[..|b|] && rs != []
      ensures ImageFacts(codec, rem[|b|..], rs[1..])
      ensures more == PlainPages(codec, Buffers(rem[|b|..]), rs[1..])
      ensures Ahead(FlushPages(codec, b, r) + more) && GoodBuffer(codec, b, r)
      ensures !codec.compress ==> totalSize == |b| + |more| && FirstBuffer(b, more)
      ensures !codec.compress ==> |more| == |rem| - |b|
    {
      b := rem[..if |rem| <= BUFFER_PAGES then |rem| else BUFFER_PAGES];
      BuffersHead(rem, b);
      r := rs[0];
      more := PlainPages(codec, Buffers(rem[|b|..]), rs[1..]);
      if !codec.compress {
        PlainPagesPlain(codec, rem[|b|..], rs[1..]);
      }
    }
  }

  /** A write buffer with a block of `size` bytes at its start, the size first. */
  ghost predicate GoodBlock(buf: Bytes, size: int, pageSize: nat) {
    && SIZE_BYTES <= size <= |buf| && Whole(|buf|, pageSize) && pageSize >= SIZE_BYTES
    && FromLE(buf[..SIZE_BYTES]) + SIZE_BYTES == size
  }

  lemma CutFirst(buffer: Bytes, size: int, pageSize: nat, more: seq<Bytes>)
    requires pageSize > 0 && 0 < size <= |buffer| && Whole(|buffer|, pageSize)
    ensures |buffer| >= pageSize && Whole(|buffer| - pageSize, pageSize)
    ensures var p := Cut(buffer, size, pageSize) + more;
            && p != [] && p[0] == buffer[..pageSize]
            && p[1..] == Cut(buffer[pageSize..], size - pageSize, pageSize) + more
  {
    CutStep(buffer, size, pageSize);
  }

  lemma CutEmpty(buffer: Bytes, size: int, pageSize: nat, more: seq<Bytes>)
    requires pageSize > 0 && size <= 0
    ensures Cut(buffer, size, pageSize) + more == more
  {
  }

  /** A buffer as save_image flushes it, and what the write buffer held before. */
  ghost predicate GoodBuffer(codec: Codec, buffer: seq<Bytes>, rest: Bytes) {
    && codec.Lawful() && 0 < |buffer| <= BUFFER_PAGES && AllPages(buffer, codec.pageSize)
    && (codec.compress ==> |rest| == CompressBufSize(codec.pageSize))
  }

  /** Only the last buffer may be shorter than the others. */
  ghost predicate FirstBuffer(buffer: seq<Bytes>, more: seq<Bytes>) {
    |buffer| <= BUFFER_PAGES && (|buffer| == BUFFER_PAGES || more == [])
  }

  lemma NothingFlattened(buffer: seq<Bytes>)
    ensures Flatten(buffer[..0]) == []
  {
  }

  lemma FlattenOneMore(buffer: seq<Bytes>, k: nat)
    requires k < |buffer|
    ensures Flatten(buffer[..k + 1]) == Flatten(buffer[..k]) + buffer[k]
  {
    assert buffer[..k + 1] == buffer[..k] + [buffer[k]];
    FlattenConcat(buffer[..k], [buffer[k]]);
    assert [buffer[k]][1..] == [];
  }

  lemma BlockIsGood(codec: Codec, buffer: seq<Bytes>, rest: Bytes)
    requires GoodBuffer(codec, buffer, rest) && codec.compress
    ensures var block := Block(codec.lzo, Flatten(buffer));
            |block| <= |rest| && GoodBlock(Overlay(rest, block), |block|, codec.pageSize)
  {
    hide Flatten, LE, FromLE, Whole;
    var raw := Flatten(buffer);
    BufferBound(buffer, codec.pageSize);
    BlockFits(codec, raw);
    SizeRoundTrip(|codec.lzo.compress(raw)|);
    assert Overlay(rest, Block(codec.lzo, raw))[..SIZE_BYTES] == LE(|codec.lzo.compress(raw)|, SIZE_BYTES);
  }

  lemma BlockDecodes(codec: Codec, buffer: seq<Bytes>, rest: Bytes, got: Bytes)
    requires GoodBuffer(codec, buffer, rest) && codec.compress
    requires |Block(codec.lzo, Flatten(buffer))| <= |rest|
    requires var block := Block(codec.lzo, Flatten(buffer));
             |block| <= |got| <= |rest| && got == Overlay(rest, block)[..|got|]
    ensures |got| >= SIZE_BYTES
    ensures var n := FromLE(got[..SIZE_BYTES]);
            SIZE_BYTES + n <= |got| && codec.lzo.decompress(got[SIZE_BYTES..SIZE_BYTES + n]) == Some(Flatten(buffer))
  {
    hide LE, FromLE, Flatten, Whole;
    var raw := Flatten(buffer);
    BufferBound(buffer, codec.pageSize);
    BlockFits(codec, raw);
    var c := codec.lzo.compress(raw);
    SizeRoundTrip(|c|);
    var block := LE(|c|, SIZE_BYTES) + c;
    assert got[..|block|] == block;
    assert got[..SIZE_BYTES] == block[..SIZE_BYTES] == LE(|c|, SIZE_BYTES);
    assert got[SIZE_BYTES..SIZE_BYTES + |c|] == block[SIZE_BYTES..] == c;
    assert got[SIZE_BYTES..SIZE_BYTES + |c|] == c;
  }

  ghost predicate ImageFacts(codec: Codec, image: seq<Bytes>, rests: seq<Bytes>) {
    && AllPages(image, codec.pageSize)
    && |rests| == |Buffers(image)| && codec.pageSize > 0
    && (forall r :: r in rests && codec.compress ==> |r| == CompressBufSize(codec.pageSize))
  }

  /** Pages handed out, pages in the buffer, pages still to be loaded. */
  ghost predicate Progress(image: seq<Bytes>, out: seq<Bytes>, cur: seq<Bytes>, rem: seq<Bytes>,
                           buf: Bytes, fed: Bytes, pageSize: nat)
  {
    && image == out + (cur + rem) && pageSize > 0
    && buf == Flatten(cur) && fed == Flatten(out + cur)
    && AllPages(cur, pageSize) && AllPages(rem, pageSize)
  }

  lemma ProgressStarts(codec: Codec, image: seq<Bytes>, rests: seq<Bytes>)
    requires ImageFacts(codec, image, rests)
    ensures Progress(image, [], [], image, [], [], codec.pageSize)
  {
    var none: seq<Bytes> := [];
    assert none + none == none && none + (none + image) == image;
    assert Flatten(none) == [];
  }

  lemma ProgressEmpty(image: seq<Bytes>, out: seq<Bytes>, cur: seq<Bytes>, rem: seq<Bytes>,
                      buf: Bytes, fed: Bytes, pageSize: nat)
    requires Progress(image, out, cur, rem, buf, fed, pageSize) && buf == []
    ensures cur == [] && (|out| < |image| ==> rem != [])
    ensures Progress(image, out, [], rem, [], fed, pageSize)
  {
    hide Flatten;
    if cur != [] { FlattenHead(cur, pageSize); }
  }

  lemma ProgressLoad(image: seq<Bytes>, out: seq<Bytes>, rem: seq<Bytes>, fed: Bytes, b: seq<Bytes>, pageSize: nat)
    requires Progress(image, out, [], rem, [], fed, pageSize) && |b| <= |rem| && b == rem[..|b|]
    ensures Progress(image, out, b, rem[|b|..], Flatten(b), fed + Flatten(b), pageSize)
  {
    hide Flatten;
    AllPagesSplit(rem, |b|, pageSize);
    LoadOne(out, rem, b);
    hide AllPages;
    FlattenConcat(out, b);
  }

  lemma LoadOne(out: seq<Bytes>, rem: seq<Bytes>, b: seq<Bytes>)
    requires |b| <= |rem| && b == rem[..|b|]
    ensures [] + rem == b + rem[|b|..] && out + [] == out
  {
  }

  lemma ProgressPage(image: seq<Bytes>, out: seq<Bytes>, cur: seq<Bytes>, rem: seq<Bytes>,
                     buf: Bytes, fed: Bytes, pageSize: nat)
    requires Progress(image, out, cur, rem, buf, fed, pageSize) && buf != []
    ensures |buf| >= pageSize && cur != []
    ensures Progress(image, out + [buf[..pageSize]], cur[1..], rem, buf[pageSize..], fed, pageSize)
  {
    if cur == [] { FlattenNothing(); }
    FlattenHead(cur, pageSize);
    ShiftPage(out, cur, rem);
  }

  lemma ShiftPage(out: seq<Bytes>, cur: seq<Bytes>, rem: seq<Bytes>)
    requires cur != []
    ensures out + (cur + rem) == (out + [cur[0]]) + (cur[1..] + rem)
    ensures out + cur == (out + [cur[0]]) + cur[1..]
  {
  }

  lemma ProgressDone(image: seq<Bytes>, out: seq<Bytes>, cur: seq<Bytes>, rem: seq<Bytes>,
                     buf: Bytes, fed: Bytes, pageSize: nat)
    requires Progress(image, out, cur, rem, buf, fed, pageSize) && |out| >= |image|
    ensures out == image && fed == Flatten(image)
  {
    assert |cur + rem| == 0;
    assert cur == [] && out + cur == out && out + (cur + rem) == out;
  }

  lemma BufferNotEmpty(codec: Codec, b: seq<Bytes>, r: Bytes)
    requires GoodBuffer(codec, b, r)
    ensures |Flatten(b)| > 0
  {
    hide Flatten;
    FlattenHead(b, codec.pageSize);
  }

  /** What was loaded is what was handed out and what is in the buffer. */
  ghost predicate InHand(out: seq<Bytes>, buf: Bytes, fed: Bytes) {
    fed == Flatten(out) + buf
  }

  lemma NothingInHand()
    ensures InHand([], [], [])
  {
  }

  lemma MoreInHand(out: seq<Bytes>, buf: Bytes, fed: Bytes)
    requires InHand(out, [], fed)
    ensures InHand(out, buf, fed + buf)
  {
    hide Flatten;
  }

  lemma HandedOut(out: seq<Bytes>, buf: Bytes, fed: Bytes)
    requires InHand(out, buf, fed)
    ensures Flatten(out) <= fed
  {
    hide Flatten;
  }

  /** A page taken off the buffer. */
  lemma HandOut(out: seq<Bytes>, page: Bytes, buf: Bytes, fed: Bytes)
    requires page <= buf && InHand(out, buf, fed)
    ensures InHand(out + [page], buf[|page|..], fed)
  {
    FlattenConcat(out, [page]);
    assert [page][1..] == [];
    assert Flatten([page]) == page;
    assert page + buf[|page|..] == buf;
    hide Flatten;
    Assoc(Flatten(out), page, buf[|page|..]);
  }

  lemma FlattenNothing()
    ensures Flatten([]) == []
  {
  }

  lemma BuffersHead(rem: seq<Bytes>, b: seq<Bytes>)
    requires rem != [] && b == rem[..if |rem| <= BUFFER_PAGES then |rem| else BUFFER_PAGES]
    ensures Buffers(rem) == [b] + Buffers(rem[|b|..])
    ensures |b| == BUFFER_PAGES || rem[|b|..] == []
  {
    if |rem| <= BUFFER_PAGES {
      assert b == rem && rem[|b|..] == [];
    }
  }

  lemma {:induction false} PlainPagesPlain(codec: Codec, image: seq<Bytes>, rests: seq<Bytes>)
    requires codec.pageSize > 0 && !codec.compress && |rests| == |Buffers(image)|
    ensures PlainPages(codec, Buffers(image), rests) == image
    decreases |image|
  {
    if image != [] {
      var b := image[..if |image| <= BUFFER_PAGES then |image| else BUFFER_PAGES];
      BuffersHead(image, b);
      PlainPagesPlain(codec, image[|b|..], rests[1..]);
      assert Buffers(image)[1..] == Buffers(image[|b|..]);
      assert b + image[|b|..] == image;
    }
  }

  lemma FlattenHead(cur: seq<Bytes>, pageSize: nat)
    requires AllPages(cur, pageSize) && cur != []
    ensures var f := Flatten(cur);
            |f| >= pageSize && f[..pageSize] == cur[0] && f[pageSize..] == Flatten(cur[1..])
    ensures AllPages(cur[1..], pageSize)
  {
  }

  lemma AllPagesSplit(pages: seq<Bytes>, k: nat, pageSize: nat)
    requires k <= |pages| && AllPages(pages, pageSize)
    ensures AllPages(pages[..k], pageSize) && AllPages(pages[k..], pageSize)
  {
  }
}
