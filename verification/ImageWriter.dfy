/** struct swap_writer and the functions of suspend.c that save an image. */
module ImageWriter {
  import opened Utils
  import opened LittleEndian
  import opened Extents
  import opened SwapSpace
  import opened AllocSwap
  import opened SwapWriter
  import opened ImageFormat
  import Md5

  class ImageWriter {
    const dev: Device
    const codec: Codec
    const extents: array<Extent>
    const ctx: Md5.Context
    var nrExtents: int
    var curExtent: int      // index of the current extent
    var curOffset: int
    var swapNeeded: int
    var writtenData: int
    var extentsSpc: nat
    var cipherState: Bytes
    var writeBuffer: Bytes
    ghost var closed: seq<Closed>
    ghost var used: seq<int>

    ghost function View(): Writer
      reads this, extents, dev
    {
      Writer(codec.compress, extents[..], nrExtents, curExtent, curOffset, swapNeeded, writtenData,
             extentsSpc, dev.kernel, dev.disk, closed, used)
    }

    /** The buffers of init_swap_writer, with the array of extents zeroed. */
    constructor (dev: Device, codec: Codec, slots: nat, ctx: Md5.Context, writeBuffer: Bytes)
      requires slots >= 2
      ensures this.dev == dev && this.codec == codec && this.ctx == ctx && this.writeBuffer == writeBuffer
      ensures fresh(extents) && extents[..] == Cleared(slots, NO_EXTENT)
      ensures nrExtents == 0 && writtenData == 0 && cipherState == codec.iv && closed == [] && used == []
      ensures curExtent == 0 && curOffset == 0
    {
      this.dev := dev;
      this.codec := codec;
      this.ctx := ctx;
      this.writeBuffer := writeBuffer;
      extents := new Extent[slots](i => NO_EXTENT);
      nrExtents, curExtent, curOffset, swapNeeded, writtenData, extentsSpc := 0, 0, 0, 0, 0, 0;
      cipherState := codec.iv;
      closed, used := [], [];
    }

    /** preallocate_swap */
    method PreallocateSwap() returns (offset: int)
      requires extents.Length >= 2 && nrExtents <= extents.Length
      modifies this`nrExtents, this`curExtent, this`curOffset, extents, dev`kernel
      ensures match Preallocate(old(View()))
              case None => offset == 0
              case Some(w) => View() == w && offset == w.cur
    {
      var max := extents.Length - 1;
      if swapNeeded < 1 {
        return 0;
      }
      var size := swapNeeded;
      if codec.compress && size > 1 {
        size := (size + 1) / 2;
      }
      var nr, taken := AllocateSwap(extents, nrExtents, size, dev);
      if nr <= 0 {
        return 0;
      }
      nrExtents := if nr < max then nr else max;
      curExtent := 0;
      curOffset := extents[0].start;
      return curOffset;
    }

    /** save_extents */
    method SaveExtentsPage(finish: bool) returns (ok: bool)
      requires extents.Length >= 2
      modifies this`extentsSpc, extents, dev
      ensures match SaveExtents(old(View()), finish)
              case None => !ok
              case Some(w) => ok && View() == w
    {
      var offset := 0;
      if !finish {
        offset := dev.GetSwapPage();
        if offset == 0 {
          return false;
        }
        var last := extents.Length - 1;
        extents[last] := Extent(offset, extents[last].end);
      }
      ok := dev.WritePage(Table(extents[..]), extentsSpc);
      extentsSpc := offset;
    }

    /** memset of the array of extents, then an initial extent. */
    method ClearExtents(first: Extent)
      requires extents.Length >= 1
      modifies extents
      ensures extents[..] == Cleared(extents.Length, first)
    {
      forall i | 0 <= i < extents.Length {
        extents[i] := NO_EXTENT;
      }
      extents[0] := first;
    }

    /** The end of next_swap_page: no more extents in this batch. */
    method StartNextBatch() returns (offset: int)
      requires View().Shaped()
      modifies this`nrExtents, this`curExtent, this`curOffset, this`extentsSpc, this`closed, extents, dev
      ensures match NextBatch(old(View()))
              case None => offset == 0
              case Some(w) => View() == w && offset == w.cur
    {
      hide Preallocate;
      var ext := NO_EXTENT;
      ghost var nr := nrExtents;
      var behind := curExtent + 1;
      if extents[behind].start < extents[behind].end {
        ext := extents[behind];
        extents[behind] := NO_EXTENT;
        nrExtents := 1;
      } else {
        nrExtents := 0;
      }
      ghost var spc := extentsSpc;
      var ok := SaveExtentsPage(false);
      if !ok {
        return 0;
      }
      closed := closed + [Closed(spc, extents[..], nr)];
      ClearExtents(ext);
      offset := PreallocateSwap();
    }

    /** next_swap_page */
    method NextPage() returns (offset: int)
      requires View().Shaped()
      modifies this`nrExtents, this`curExtent, this`curOffset, this`extentsSpc, this`closed, extents, dev
      ensures match Advance(old(View()))
              case None => offset == 0
              case Some(w) => View() == w && offset == w.cur
    {
      var next := curOffset + 1;
      if next < extents[curExtent].end {
        curOffset := next;
        return curOffset;
      }
      if curExtent + 1 < nrExtents {
        curExtent := curExtent + 1;
        curOffset := extents[curExtent].start;
        return curOffset;
      }
      offset := StartNextBatch();
    }

    /** save_page */
    method SaveOnePage(src: Bytes) returns (ok: bool)
      requires View().Shaped()
      modifies this`nrExtents, this`curExtent, this`curOffset, this`extentsSpc, this`closed,
               this`used, this`swapNeeded, this`writtenData, extents, dev
      ensures match SavePage(old(View()), src)
              case None => !ok
              case Some(w) => ok && View() == w
    {
      var offset := NextPage();
      if offset <= 0 {
        return false;
      }
      ok := dev.WritePage(Data(src), offset);
      used := used + [offset];
      swapNeeded := swapNeeded - 1;
      writtenData := writtenData + 1;
    }

    /** encrypt_and_save_page */
    method EncryptAndSavePage(src: Bytes) returns (ok: bool)
      requires View().Shaped()
      modifies this`nrExtents, this`curExtent, this`curOffset, this`extentsSpc, this`closed,
               this`used, this`swapNeeded, this`writtenData, this`cipherState, extents, dev
      ensures var (s, page) := Encrypt(codec, old(cipherState), src);
              match SavePage(old(View()), page)
              case None => !ok
              case Some(w) => ok && View() == w && cipherState == s
      ensures codec.encrypt && ok ==>
                SavePage(old(View()), codec.cipher.encrypt(old(cipherState), src).1) == Some(View())
                && cipherState == codec.cipher.encrypt(old(cipherState), src).0
      ensures !codec.encrypt && ok ==> SavePage(old(View()), src) == Some(View()) && cipherState == old(cipherState)
    {
      var page := src;
      if codec.encrypt {
        var (s, c) := codec.cipher.encrypt(cipherState, src);
        cipherState, page := s, c;
      }
      ok := SaveOnePage(page);
    }

    /** The loop of flush_buffer: save `size` bytes page by page. */
    method SaveBytes(src: Bytes, size: int) returns (ok: bool)
      requires codec.pageSize > 0 && View().Shaped()
      requires size <= |src| && Whole(|src|, codec.pageSize)
      modifies this`nrExtents, this`curExtent, this`curOffset, this`extentsSpc, this`closed,
               this`used, this`swapNeeded, this`writtenData, this`cipherState, extents, dev
      ensures var plain := Cut(src, size, codec.pageSize);
              match SavePages(old(View()), EncryptAll(codec, old(cipherState), plain))
              case None => !ok
              case Some(w) => ok && View() == w && cipherState == StateAfter(codec, old(cipherState), plain)
    {
      hide SavePages, SavePage, EncryptAll, StateAfter, Cut, Whole;
      var ptr, left := src, size;
      ghost var done: seq<Bytes> := [];
      ghost var w0, s0 := View(), cipherState;
      NothingSaved(w0, codec, s0);
      assert done + Cut(ptr, left, codec.pageSize) == Cut(src, size, codec.pageSize);
      ok := true;
      while left > 0
        invariant left <= |ptr| && Whole(|ptr|, codec.pageSize)
        invariant done + Cut(ptr, left, codec.pageSize) == Cut(src, size, codec.pageSize)
        invariant SavedSoFar(w0, codec, s0, done, View(), cipherState)
        decreases left
      {
        CutStep(ptr, left, codec.pageSize);
        var page := ptr[..codec.pageSize];
        ghost var more := Cut(ptr[codec.pageSize..], left - codec.pageSize, codec.pageSize);
        SavedNext(w0, codec, s0, done, View(), cipherState, page, more);
        ok := EncryptAndSavePage(page);
        if !ok {
          return;
        }
        done := done + [page];
        ptr := ptr[codec.pageSize..];
        left := left - codec.pageSize;
      }
      CutNothing(ptr, left, codec.pageSize);
      assert done + [] == done;
    }

    ghost predicate Ready(fed: Bytes)
      reads this, extents, dev, ctx, ctx.buffer
    {
      && codec.Lawful() && View().Shaped()
      && (codec.compress ==> |writeBuffer| == CompressBufSize(codec.pageSize))
      && ctx.Fed(fed) && ctx.buflen == 0
    }

    lemma ReadyMeans(fed: Bytes)
      requires Ready(fed)
      ensures View().Shaped() && codec.pageSize > 0
    {
    }

    /** flush_buffer: the checksum, compression if asked for, and saving. */
    method FlushBuffer(buffer: seq<Bytes>, ghost fed: Bytes) returns (ok: bool)
      requires Ready(fed) && 0 < |buffer| <= BUFFER_PAGES && AllPages(buffer, codec.pageSize)
      modifies this`nrExtents, this`curExtent, this`curOffset, this`extentsSpc, this`closed,
               this`used, this`swapNeeded, this`writtenData, this`cipherState, this`writeBuffer,
               extents, dev, ctx, ctx.buffer
      ensures var plain := FlushPages(codec, buffer, old(writeBuffer));
              match SavePages(old(View()), EncryptAll(codec, old(cipherState), plain))
              case None => !ok
              case Some(w) => ok && View() == w && cipherState == StateAfter(codec, old(cipherState), plain)
      ensures ok ==> Ready(fed + Flatten(buffer))
    {
      hide SavePages, EncryptAll, StateAfter, Cut, Whole;
      var src := Flatten(buffer);
      BufferBound(buffer, codec.pageSize);
      FlattenWhole(buffer, codec.pageSize);
      ctx.FeedBlocks(src, fed);
      var size := |src|;
      CutFlatten(buffer, codec.pageSize);
      if codec.compress {
        BlockFits(codec, src);
        var block := Block(codec.lzo, src);
        size := |block|;
        writeBuffer := Overlay(writeBuffer, block);
        src := writeBuffer;
      }
      ok := SaveBytes(src, size);
    }

    /** A full buffer is flushed. */
    method FlushFull(buffer: seq<Bytes>, ghost w0: Writer, ghost s0: Bytes, ghost full: seq<seq<Bytes>>,
                     ghost rests: seq<Bytes>) returns (ok: bool)
      requires Ready(Flatten(Concat(full))) && |buffer| == BUFFER_PAGES && AllPages(buffer, codec.pageSize)
      requires Saving(w0, codec, s0, full, rests, View(), cipherState)
      modifies this`nrExtents, this`curExtent, this`curOffset, this`extentsSpc, this`closed,
               this`used, this`swapNeeded, this`writtenData, this`cipherState, this`writeBuffer,
               extents, dev, ctx, ctx.buffer
      ensures Concat(full + [buffer]) == Concat(full) + buffer
      ensures w0.Shaped() && codec.pageSize > 0 && |rests| == |full|
      ensures !ok ==> (forall b :: b in full ==> |b| == BUFFER_PAGES)
                      && (forall r :: r in rests + [old(writeBuffer)] && codec.compress ==>
                            |r| == CompressBufSize(codec.pageSize))
                      && SavePages(w0, EncryptAll(codec, s0,
                                   PlainPages(codec, full + [buffer], rests + [old(writeBuffer)]))) == None
      ensures ok ==> Saving(w0, codec, s0, full + [buffer], rests + [old(writeBuffer)], View(), cipherState)
      ensures ok ==> Ready(Flatten(Concat(full + [buffer])))
    {
      hide SavePages, EncryptAll, StateAfter, FlushPages, PlainPages, Buffers, Flatten, Concat, Saving;
      FullBuffers(w0, codec, s0, full, rests, View(), cipherState);
      SavingNext(w0, codec, s0, full, rests, View(), cipherState, buffer, writeBuffer);
      FlattenConcat(Concat(full), buffer);
      ok := FlushBuffer(buffer, Flatten(Concat(full)));
    }

    /** save_image: read the pages of the image, flush full buffers and the rest,
        save the last array of extents.  On success `rests` are the contents the
        write buffer had before each flush, and `saved` is the state in which all
        pages had been saved. */
    method SaveImage(image: seq<Bytes>) returns (ok: bool, ghost rests: seq<Bytes>, ghost saved: Writer)
      requires Ready([]) && AllPages(image, codec.pageSize)
      modifies this`nrExtents, this`curExtent, this`curOffset, this`extentsSpc, this`closed,
               this`used, this`swapNeeded, this`writtenData, this`cipherState, this`writeBuffer,
               extents, dev, ctx, ctx.buffer
      ensures ok ==> ImageSaved(old(View()), codec, old(cipherState), image, rests, saved)
      ensures ok ==> SaveExtents(saved, true) == Some(View())
      ensures !ok ==> NoRoom(old(View()), codec, old(cipherState), image, rests)
                      || (ImageSaved(old(View()), codec, old(cipherState), image, rests, saved) && saved.spc == 0)
      ensures ok ==> ctx.Fed(Flatten(image))
    {
      hide SavePages, EncryptAll, StateAfter, FlushPages, PlainPages, Buffers, Flatten, Concat, Saving, ImageSaved,
        NoRoom, Ready, AllPages;
      ghost var w0, s0 := View(), cipherState;
      ghost var full: seq<seq<Bytes>> := [];
      rests, saved := [], w0;
      ReadyMeans([]);
      SavingStarts(w0, codec, s0);
      ok := true;
      var buffer: seq<Bytes> := [];
      for i := 0 to |image|
        invariant ok && |buffer| < BUFFER_PAGES
        invariant Saving(w0, codec, s0, full, rests, View(), cipherState)
        invariant image[..i] == Concat(full) + buffer
        invariant Ready(Flatten(Concat(full)))
      {
        buffer := buffer + [image[i]];
        assert image[..i + 1] == Concat(full) + buffer;
        if |buffer| >= BUFFER_PAGES {
          BufferOfImage(image, Concat(full), buffer, i + 1, codec.pageSize);
          ghost var rest := writeBuffer;
          ok := FlushFull(buffer, w0, s0, full, rests);
          if !ok {
            SavingFails(w0, codec, s0, full, rests, buffer, rest, image, i + 1);
            rests := rests + [rest];
            return;
          }
          full, rests := full + [buffer], rests + [rest];
          buffer := [];
          assert image[..i + 1] == Concat(full) + buffer;
        }
      }
      assert image[..|image|] == image;
      ok, rests, saved := FlushLast(image, buffer, w0, s0, full, rests);
    }

    /** What is left in the buffer is flushed, and the last array of extents saved. */
    method FlushLast(ghost image: seq<Bytes>, buffer: seq<Bytes>, ghost w0: Writer, ghost s0: Bytes,
                     ghost full: seq<seq<Bytes>>, ghost before: seq<Bytes>)
      returns (ok: bool, ghost rests: seq<Bytes>, ghost saved: Writer)
      requires Ready(Flatten(Concat(full))) && |buffer| < BUFFER_PAGES && AllPages(image, codec.pageSize)
      requires Saving(w0, codec, s0, full, before, View(), cipherState) && image == Concat(full) + buffer
      modifies this`nrExtents, this`curExtent, this`curOffset, this`extentsSpc, this`closed,
               this`used, this`swapNeeded, this`writtenData, this`cipherState, this`writeBuffer,
               extents, dev, ctx, ctx.buffer
      ensures ok ==> ImageSaved(w0, codec, s0, image, rests, saved)
      ensures ok ==> SaveExtents(saved, true) == Some(View())
      ensures ok ==> ctx.Fed(Flatten(image))
      ensures !ok ==> NoRoom(w0, codec, s0, image, rests)
                      || (ImageSaved(w0, codec, s0, image, rests, saved) && saved.spc == 0)
    {
      hide SavePages, EncryptAll, StateAfter, FlushPages, PlainPages, Buffers, Flatten, Concat, Saving, ImageSaved,
        NoRoom;
      rests, saved := before, w0;
      SavingDone(w0, codec, s0, full, before, View(), cipherState, buffer, writeBuffer, image);
      if buffer != [] {
        assert image[..|image|] == image;
        BufferOfImage(image, Concat(full), buffer, |image|, codec.pageSize);
        FlattenConcat(Concat(full), buffer);
        rests := before + [writeBuffer];
        ok := FlushBuffer(buffer, Flatten(Concat(full)));
        if !ok {
          return;
        }
      }
      saved := View();
      ok := SaveExtentsPage(true);
    }

    /** The rest of init_swap_writer and the preallocation of write_image: a page
        for the first array of extents, the check for enough swap, the first
        batch, and the cursor moved back for the first page. */
    method Open(needed: int, freeSwap: int) returns (ok: bool)
      requires extents.Length >= 2 && extents[..] == Cleared(extents.Length, NO_EXTENT)
      requires nrExtents == 0 && curExtent == 0 && curOffset == 0 && writtenData == 0 && closed == [] && used == []
      modifies this`nrExtents, this`curExtent, this`curOffset, this`extentsSpc, this`swapNeeded, extents, dev`kernel
      ensures ok ==> Start(codec.compress, extents.Length, needed, old(dev.kernel), dev.disk) == Some(View())
      ensures ok ==> 2 * freeSwap > if codec.compress then needed else 2 * needed
      ensures !ok ==> Start(codec.compress, extents.Length, needed, old(dev.kernel), dev.disk) == None
                      || Start(codec.compress, extents.Length, needed, old(dev.kernel), dev.disk).value.cur < 0
                      || 2 * freeSwap <= if codec.compress then needed else 2 * needed
    {
      hide Preallocate;
      var offset := dev.GetSwapPage();
      if offset == 0 {
        return false;
      }
      extentsSpc := offset;
      swapNeeded := needed;
      if 2 * freeSwap <= (if codec.compress then needed else 2 * needed) {
        return false;
      }
      assert View() == Opened(codec.compress, extents.Length, needed, old(dev.kernel), dev.disk);
      var first := PreallocateSwap();
      if first == 0 {
        return false;
      }
      curOffset := curOffset - 1;
      return true;
    }
  }

  lemma NothingSaved(w0: Writer, codec: Codec, s0: Bytes)
    requires w0.Shaped()
    ensures SavedSoFar(w0, codec, s0, [], w0, s0)
  {
  }

  lemma CutNothing(buffer: Bytes, size: int, pageSize: nat)
    requires pageSize > 0 && size <= 0
    ensures Cut(buffer, size, pageSize) == []
  {
  }

  /** The writer has saved the pages `done`, encrypted in this order. */
  ghost predicate SavedSoFar(w0: Writer, codec: Codec, s0: Bytes, done: seq<Bytes>, w: Writer, s: Bytes)
    requires w0.Shaped()
  {
    w.Shaped() && SavePages(w0, EncryptAll(codec, s0, done)) == Some(w) && s == StateAfter(codec, s0, done)
  }

  lemma SavedNext(w0: Writer, codec: Codec, s0: Bytes, done: seq<Bytes>, w: Writer, s: Bytes,
                  page: Bytes, more: seq<Bytes>)
    requires w0.Shaped() && SavedSoFar(w0, codec, s0, done, w, s)
    ensures var (s', c) := Encrypt(codec, s, page);
            match SavePage(w, c)
            case None => SavePages(w0, EncryptAll(codec, s0, done + ([page] + more))).None?
            case Some(v) => SavedSoFar(w0, codec, s0, done + [page], v, s')
    ensures done + ([page] + more) == (done + [page]) + more
  {
    hide SavePages, SavePage, EncryptAll, StateAfter;
    EncryptLast(codec, s0, done, page);
    var (s', c) := Encrypt(codec, s, page);
    SavePagesOne(w0, EncryptAll(codec, s0, done), c);
    if SavePage(w, c).None? {
      SavePagesFail(w0, codec, s0, done, page, more);
    }
  }

  lemma SavePagesOne(w: Writer, done: seq<Bytes>, c: Bytes)
    requires w.Shaped()
    ensures SavePages(w, done + [c]) == match SavePages(w, done) case None => None case Some(v) => SavePage(v, c)
  {
    assert (done + [c])[..|done + [c]| - 1] == done;
  }

  /** Once a page cannot be saved the whole run fails. */
  lemma SavePagesFail(w: Writer, codec: Codec, s0: Bytes, done: seq<Bytes>, page: Bytes, more: seq<Bytes>)
    requires w.Shaped()
    requires SavePages(w, EncryptAll(codec, s0, done + [page])).None?
    ensures SavePages(w, EncryptAll(codec, s0, done + ([page] + more))).None?
  {
    hide SavePages, SavePage, Encrypt;
    EncryptConcat(codec, s0, done + [page], more);
    assert done + ([page] + more) == (done + [page]) + more;
    SavePagesConcat(w, EncryptAll(codec, s0, done + [page]),
                    EncryptAll(codec, StateAfter(codec, s0, done + [page]), more));
  }

  // ---------------------------------------------------------------------
  // Saving buffer after buffer.

  /** The image has been saved: all pages of all its buffers went through
      save_page, in order and encrypted as one stream. */
  ghost predicate ImageSaved(w0: Writer, codec: Codec, s0: Bytes, image: seq<Bytes>, rests: seq<Bytes>, saved: Writer)
  {
    && w0.Shaped() && codec.pageSize > 0 && |rests| == |Buffers(image)|
    && (forall r :: r in rests && codec.compress ==> |r| == CompressBufSize(codec.pageSize))
    && SavePages(w0, EncryptAll(codec, s0, PlainPages(codec, Buffers(image), rests))) == Some(saved)
  }

  /** Saving failed: the kernel could not supply the pages for the first |rests|
      buffers of the image. */
  ghost predicate NoRoom(w0: Writer, codec: Codec, s0: Bytes, image: seq<Bytes>, rests: seq<Bytes>) {
    && w0.Shaped() && codec.pageSize > 0 && |rests| <= |Buffers(image)|
    && (forall r :: r in rests && codec.compress ==> |r| == CompressBufSize(codec.pageSize))
    && SavePages(w0, EncryptAll(codec, s0, PlainPages(codec, Buffers(image)[..|rests|], rests))) == None
  }

  ghost predicate Saving(w0: Writer, codec: Codec, s0: Bytes, full: seq<seq<Bytes>>, rests: seq<Bytes>,
                         w: Writer, s: Bytes)
  {
    && w0.Shaped() && codec.pageSize > 0 && |rests| == |full|
    && (forall b :: b in full ==> |b| == BUFFER_PAGES)
    && (forall r :: r in rests && codec.compress ==> |r| == CompressBufSize(codec.pageSize))
    && SavedSoFar(w0, codec, s0, PlainPages(codec, full, rests), w, s)
  }

  lemma SavingStarts(w0: Writer, codec: Codec, s0: Bytes)
    requires w0.Shaped() && codec.pageSize > 0
    ensures Saving(w0, codec, s0, [], [], w0, s0)
    ensures Concat([]) == [] && Flatten([]) == []
  {
    NothingSaved(w0, codec, s0);
  }

  lemma BufferOfImage(image: seq<Bytes>, before: seq<Bytes>, buffer: seq<Bytes>, n: nat, pageSize: nat)
    requires n <= |image| && image[..n] == before + buffer && AllPages(image, pageSize)
    ensures AllPages(buffer, pageSize)
  {
    forall p | p in buffer ensures |p| == pageSize {
      assert p in before + buffer;
      assert p in image[..n];
    }
  }

  lemma SavedMore(w0: Writer, codec: Codec, s0: Bytes, done: seq<Bytes>, w: Writer, s: Bytes, more: seq<Bytes>)
    requires w0.Shaped() && SavedSoFar(w0, codec, s0, done, w, s)
    ensures SavePages(w0, EncryptAll(codec, s0, done + more)) == SavePages(w, EncryptAll(codec, s, more))
    ensures StateAfter(codec, s0, done + more) == StateAfter(codec, s, more)
  {
    hide SavePages;
    EncryptConcat(codec, s0, done, more);
    SavePagesConcat(w0, EncryptAll(codec, s0, done), EncryptAll(codec, s, more));
  }

  /** What saving one more buffer means for the buffers saved so far. */
  lemma SavingLast(w0: Writer, codec: Codec, s0: Bytes, full: seq<seq<Bytes>>, rests: seq<Bytes>,
                   w: Writer, s: Bytes, buffer: seq<Bytes>, rest: Bytes)
    requires Saving(w0, codec, s0, full, rests, w, s)
    requires codec.compress ==> |rest| == CompressBufSize(codec.pageSize)
    ensures var plain := FlushPages(codec, buffer, rest);
            var all := PlainPages(codec, full + [buffer], rests + [rest]);
            && SavePages(w0, EncryptAll(codec, s0, all)) == SavePages(w, EncryptAll(codec, s, plain))
            && StateAfter(codec, s0, all) == StateAfter(codec, s, plain)
    ensures forall r :: r in rests + [rest] && codec.compress ==> |r| == CompressBufSize(codec.pageSize)
  {
    hide SavePages, EncryptAll, FlushPages;
    PlainPagesLast(codec, full, rests, buffer, rest);
    SavedMore(w0, codec, s0, PlainPages(codec, full, rests), w, s, FlushPages(codec, buffer, rest));
  }

  lemma SavingNext(w0: Writer, codec: Codec, s0: Bytes, full: seq<seq<Bytes>>, rests: seq<Bytes>,
                   w: Writer, s: Bytes, buffer: seq<Bytes>, rest: Bytes)
    requires Saving(w0, codec, s0, full, rests, w, s) && |buffer| == BUFFER_PAGES
    requires codec.compress ==> |rest| == CompressBufSize(codec.pageSize)
    ensures var plain := FlushPages(codec, buffer, rest);
            match SavePages(w, EncryptAll(codec, s, plain))
            case None => SavePages(w0, EncryptAll(codec, s0, PlainPages(codec, full + [buffer], rests + [rest]))) == None
            case Some(v) => v.Shaped() ==>
              Saving(w0, codec, s0, full + [buffer], rests + [rest], v, StateAfter(codec, s, plain))
    ensures Concat(full + [buffer]) == Concat(full) + buffer
  {
    hide SavePages, EncryptAll, FlushPages;
    SavingLast(w0, codec, s0, full, rests, w, s, buffer, rest);
    ConcatLast(full, buffer);
  }

  /** The buffers saved so far and the one that failed are the first of the image. */
  lemma SavingFails(w0: Writer, codec: Codec, s0: Bytes, full: seq<seq<Bytes>>, rests: seq<Bytes>,
                    buffer: seq<Bytes>, rest: Bytes, image: seq<Bytes>, n: nat)
    requires w0.Shaped() && codec.pageSize > 0 && |rests| == |full| && n <= |image|
    requires (forall b :: b in full ==> |b| == BUFFER_PAGES) && |buffer| == BUFFER_PAGES
    requires image[..n] == Concat(full + [buffer])
    requires forall r :: r in rests + [rest] && codec.compress ==> |r| == CompressBufSize(codec.pageSize)
    requires SavePages(w0, EncryptAll(codec, s0, PlainPages(codec, full + [buffer], rests + [rest]))) == None
    ensures NoRoom(w0, codec, s0, image, rests + [rest])
  {
    hide SavePages, EncryptAll, PlainPages, Buffers, Concat;
    BuffersStart(full + [buffer], image[n..]);
    assert image == image[..n] + image[n..];
    assert Buffers(image)[..|rests + [rest]|] == full + [buffer];
  }

  lemma FullBuffers(w0: Writer, codec: Codec, s0: Bytes, full: seq<seq<Bytes>>, rests: seq<Bytes>, w: Writer, s: Bytes)
    requires Saving(w0, codec, s0, full, rests, w, s)
    ensures w0.Shaped() && codec.pageSize > 0 && |rests| == |full| && forall b :: b in full ==> |b| == BUFFER_PAGES
    ensures forall r :: r in rests && codec.compress ==> |r| == CompressBufSize(codec.pageSize)
  {
  }

  /** The last, shorter buffer completes the image. */
  lemma SavingDone(w0: Writer, codec: Codec, s0: Bytes, full: seq<seq<Bytes>>, rests: seq<Bytes>,
                   w: Writer, s: Bytes, buffer: seq<Bytes>, rest: Bytes, image: seq<Bytes>)
    requires Saving(w0, codec, s0, full, rests, w, s) && |buffer| < BUFFER_PAGES
    requires image == Concat(full) + buffer
    requires codec.compress ==> |rest| == CompressBufSize(codec.pageSize)
    ensures buffer == [] ==> ImageSaved(w0, codec, s0, image, rests, w) && image == Concat(full)
    ensures buffer != [] ==>
              match SavePages(w, EncryptAll(codec, s, FlushPages(codec, buffer, rest)))
              case None => NoRoom(w0, codec, s0, image, rests + [rest])
              case Some(v) => ImageSaved(w0, codec, s0, image, rests + [rest], v)
  {
    hide SavePages, EncryptAll, FlushPages, PlainPages, Buffers, Concat;
    BuffersAre(full, buffer);
    SavingLast(w0, codec, s0, full, rests, w, s, buffer, rest);
    if buffer == [] {
      assert full + [] == full && Concat(full) + [] == Concat(full);
    } else {
      assert Buffers(image)[..|rests + [rest]|] == full + [buffer];
    }
  }
}
