/** How image data becomes data pages: buffers, compressed blocks, encryption. */
module ImageFormat {
  import opened Utils
  import opened LittleEndian

  const BUFFER_PAGES := 32

  /** The compression library: an inverse pair with a bound on the expansion. */
  datatype Lzo = Lzo(compress: Bytes -> Bytes, decompress: Bytes -> Option<Bytes>) {
    ghost predicate Lawful() {
      forall b: Bytes :: decompress(compress(b)) == Some(b) && |compress(b)| <= |b| + |b| / 16 + 67
    }
  }

  /** The cipher as a stream: a state and a page give the next state and the
      encrypted page; decryption runs through the same states. */
  datatype Cipher = Cipher(encrypt: (Bytes, Bytes) -> (Bytes, Bytes), decrypt: (Bytes, Bytes) -> (Bytes, Bytes)) {
    ghost predicate Lawful() {
      forall s: Bytes, p: Bytes ::
        && decrypt(s, encrypt(s, p).1) == (encrypt(s, p).0, p)
        && |encrypt(s, p).1| == |p| && |decrypt(s, p).1| == |p|
    }
  }

  datatype Codec = Codec(compress: bool, encrypt: bool, lzo: Lzo, cipher: Cipher, iv: Bytes, pageSize: nat) {
    ghost predicate Lawful() {
      && lzo.Lawful() && cipher.Lawful()
      && pageSize >= 64 && pageSize % 64 == 0 && BUFFER_PAGES * pageSize < 0x1_0000_0000
    }
  }

  // ---------------------------------------------------------------------
  // Pages and bytes.

  function Flatten(pages: seq<Bytes>): Bytes {
    if pages == [] then [] else pages[0] + Flatten(pages[1..])
  }

  lemma {:induction false} FlattenConcat(a: seq<Bytes>, b: seq<Bytes>)
    ensures Flatten(a + b) == Flatten(a) + Flatten(b)
  {
    if a == [] {
      assert a + b == b;
    } else {
      FlattenConcat(a[1..], b);
      assert (a + b)[1..] == a[1..] + b;
      Assoc(a[0], Flatten(a[1..]), Flatten(b));
    }
  }

  ghost predicate AllPages(pages: seq<Bytes>, pageSize: nat) {
    forall p :: p in pages ==> |p| == pageSize
  }

  lemma {:induction false} FlattenLength(pages: seq<Bytes>, pageSize: nat)
    requires AllPages(pages, pageSize)
    ensures |Flatten(pages)| == |pages| * pageSize
  {
    if pages != [] {
      FlattenLength(pages[1..], pageSize);
      TimesOneMore(|pages| - 1, pageSize);
    }
  }

  lemma TimesOneMore(k: nat, n: nat)
    ensures (k + 1) * n == n + k * n
  {
  }

  lemma SumOfWholes(a: nat, b: nat)
    requires a % 64 == 0 && b % 64 == 0
    ensures (a + b) % 64 == 0
  {
  }

  lemma AllPagesTail(pages: seq<Bytes>, pageSize: nat)
    requires AllPages(pages, pageSize) && pages != []
    ensures |pages[0]| == pageSize && AllPages(pages[1..], pageSize)
  {
  }

  lemma {:induction false} FlattenWhole(pages: seq<Bytes>, pageSize: nat)
    requires AllPages(pages, pageSize) && pageSize % 64 == 0
    ensures |Flatten(pages)| % 64 == 0
  {
    if pages != [] {
      AllPagesTail(pages, pageSize);
      FlattenWhole(pages[1..], pageSize);
      SumOfWholes(|pages[0]|, |Flatten(pages[1..])|);
    }
  }

  // ---------------------------------------------------------------------
  // Buffers.

  /** save_image fills the buffer and flushes it when it is full; the last
      buffer may be shorter. */
  function Buffers(image: seq<Bytes>): (b: seq<seq<Bytes>>)
    ensures forall x :: x in b ==> 0 < |x| <= BUFFER_PAGES
  {
    if image == [] then []
    else if |image| <= BUFFER_PAGES then [image]
    else [image[..BUFFER_PAGES]] + Buffers(image[BUFFER_PAGES..])
  }

  /** A compressed block: struct buf_block, the size followed by the data. */
  function Block(lzo: Lzo, raw: Bytes): Bytes {
    LE(|lzo.compress(raw)|, SIZE_BYTES) + lzo.compress(raw)
  }

  /** The pages that hold the first `size` bytes of a buffer; the last one takes
      what follows them in the buffer. */
  function Cut(buffer: Bytes, size: int, pageSize: nat): (pages: seq<Bytes>)
    requires pageSize > 0
    decreases size
  {
    if size <= 0 || |buffer| < pageSize then []
    else [buffer[..pageSize]] + Cut(buffer[pageSize..], size - pageSize, pageSize)
  }

  /** compress_buf_size. */
  function CompressBufSize(pageSize: nat): nat
    requires pageSize > 0
  {
    var bufferSize := BUFFER_PAGES * pageSize;
    bufferSize + RoundUp(bufferSize / 16 + 67 + SIZE_BYTES, pageSize)
  }

  /** What the write buffer holds after a block was put at its start. */
  function Overlay(rest: Bytes, block: Bytes): (b: Bytes)
    requires |block| <= |rest|
    ensures |b| == |rest|
  {
    block + rest[|block|..]
  }

  /** The data pages, not yet encrypted, that flush_buffer makes of a buffer;
      `rest` is what the write buffer held before. */
  function FlushPages(codec: Codec, buffer: seq<Bytes>, rest: Bytes): seq<Bytes>
    requires codec.pageSize > 0
  {
    if codec.compress then
      var block := Block(codec.lzo, Flatten(buffer));
      if |block| <= |rest| then Cut(Overlay(rest, block), |block|, codec.pageSize) else []
    else buffer
  }

  function Encrypt(codec: Codec, state: Bytes, page: Bytes): (Bytes, Bytes) {
    if codec.encrypt then codec.cipher.encrypt(state, page) else (state, page)
  }

  function Decrypt(codec: Codec, state: Bytes, page: Bytes): (Bytes, Bytes) {
    if codec.encrypt then codec.cipher.decrypt(state, page) else (state, page)
  }

  /** A stream of pages encrypted one after the other, and the state it leaves. */
  function EncryptAll(codec: Codec, state: Bytes, pages: seq<Bytes>): (r: seq<Bytes>)
    ensures |r| == |pages|
    decreases |pages|
  {
    if pages == [] then []
    else
      var (s, c) := Encrypt(codec, state, pages[0]);
      [c] + EncryptAll(codec, s, pages[1..])
  }

  function StateAfter(codec: Codec, state: Bytes, pages: seq<Bytes>): Bytes
    decreases |pages|
  {
    if pages == [] then state
    else StateAfter(codec, Encrypt(codec, state, pages[0]).0, pages[1..])
  }

  lemma {:induction false} EncryptConcat(codec: Codec, state: Bytes, a: seq<Bytes>, b: seq<Bytes>)
    ensures EncryptAll(codec, state, a + b)
            == EncryptAll(codec, state, a) + EncryptAll(codec, StateAfter(codec, state, a), b)
    ensures StateAfter(codec, state, a + b) == StateAfter(codec, StateAfter(codec, state, a), b)
    decreases |a|
  {
    if a == [] {
      assert a + b == b;
    } else {
      var (s, c) := Encrypt(codec, state, a[0]);
      EncryptConcat(codec, s, a[1..], b);
      assert (a + b)[1..] == a[1..] + b;
      Assoc([c], EncryptAll(codec, s, a[1..]), EncryptAll(codec, StateAfter(codec, s, a[1..]), b));
    }
  }

  lemma EncryptLast(codec: Codec, s0: Bytes, done: seq<Bytes>, page: Bytes)
    ensures var (s, c) := Encrypt(codec, StateAfter(codec, s0, done), page);
            && EncryptAll(codec, s0, done + [page]) == EncryptAll(codec, s0, done) + [c]
            && StateAfter(codec, s0, done + [page]) == s
  {
    EncryptConcat(codec, s0, done, [page]);
    var t := StateAfter(codec, s0, done);
    var (s, c) := Encrypt(codec, t, page);
    assert [page][1..] == [];
    assert EncryptAll(codec, t, [page]) == [c] + EncryptAll(codec, s, []);
    assert StateAfter(codec, t, [page]) == StateAfter(codec, s, []);
  }

  // ---------------------------------------------------------------------
  // A whole image.

  /** The data pages of a sequence of buffers; rests[i] is what the write buffer
      held before buffer i was put into it. */
  function PlainPages(codec: Codec, buffers: seq<seq<Bytes>>, rests: seq<Bytes>): seq<Bytes>
    requires codec.pageSize > 0 && |buffers| == |rests|
  {
    if buffers == [] then []
    else FlushPages(codec, buffers[0], rests[0]) + PlainPages(codec, buffers[1..], rests[1..])
  }

  lemma {:induction false} PlainPagesLast(codec: Codec, buffers: seq<seq<Bytes>>, rests: seq<Bytes>,
                                          buffer: seq<Bytes>, rest: Bytes)
    requires codec.pageSize > 0 && |buffers| == |rests|
    ensures PlainPages(codec, buffers + [buffer], rests + [rest])
            == PlainPages(codec, buffers, rests) + FlushPages(codec, buffer, rest)
    decreases |buffers|
  {
    var p := FlushPages(codec, buffer, rest);
    if buffers == [] {
      assert PlainPages(codec, [], []) == [];
      assert [buffer][1..] == [] && [rest][1..] == [];
      assert buffers + [buffer] == [buffer] && rests + [rest] == [rest];
      assert PlainPages(codec, [buffer], [rest]) == p + [];
    } else {
      PlainPagesLast(codec, buffers[1..], rests[1..], buffer, rest);
      assert (buffers + [buffer])[1..] == buffers[1..] + [buffer];
      assert (rests + [rest])[1..] == rests[1..] + [rest];
      Assoc(FlushPages(codec, buffers[0], rests[0]), PlainPages(codec, buffers[1..], rests[1..]), p);
    }
  }

  function Concat(buffers: seq<seq<Bytes>>): seq<Bytes> {
    if buffers == [] then [] else buffers[0] + Concat(buffers[1..])
  }

  lemma {:induction false} ConcatLast(buffers: seq<seq<Bytes>>, b: seq<Bytes>)
    ensures Concat(buffers + [b]) == Concat(buffers) + b
  {
    if buffers == [] {
      assert buffers + [b] == [b] && [b][1..] == [];
    } else {
      ConcatLast(buffers[1..], b);
      assert (buffers + [b])[1..] == buffers[1..] + [b];
      Assoc(buffers[0], Concat(buffers[1..]), b);
    }
  }

  lemma OneMore(full: seq<seq<Bytes>>, rest: seq<seq<Bytes>>)
    requires full != []
    ensures [full[0]] + (full[1..] + rest) == full + rest
  {
  }

  lemma BuffersHead32(image: seq<Bytes>, head: seq<Bytes>, tail: seq<Bytes>)
    requires |head| == BUFFER_PAGES && image == head + tail
    ensures Buffers(image) == [head] + Buffers(tail)
  {
    assert image[..BUFFER_PAGES] == head && image[BUFFER_PAGES..] == tail;
    if |image| <= BUFFER_PAGES { assert tail == [] && image == head; }
  }

  /** Full buffers are the first buffers of an image that starts with them. */
  lemma {:induction false} BuffersStart(full: seq<seq<Bytes>>, rest: seq<Bytes>)
    requires forall b :: b in full ==> |b| == BUFFER_PAGES
    ensures Buffers(Concat(full) + rest) == full + Buffers(rest)
    decreases |full|
  {
    if full != [] {
      var tail := Concat(full[1..]) + rest;
      BuffersStart(full[1..], rest);
      Assoc(full[0], Concat(full[1..]), rest);
      assert Concat(full) + rest == full[0] + tail;
      hide Buffers, Concat;
      BuffersHead32(Concat(full) + rest, full[0], tail);
      OneMore(full, Buffers(rest));
    } else {
      assert Concat(full) + rest == rest;
    }
  }

  /** Full buffers followed by a shorter one are the buffers of the image. */
  lemma BuffersAre(full: seq<seq<Bytes>>, last: seq<Bytes>)
    requires (forall b :: b in full ==> |b| == BUFFER_PAGES) && |last| < BUFFER_PAGES
    ensures Buffers(Concat(full) + last) == full + (if last == [] then [] else [last])
  {
    hide Concat;
    BuffersStart(full, last);
  }

  lemma {:induction false} BuffersConcat(image: seq<Bytes>)
    ensures Concat(Buffers(image)) == image
  {
    if |image| > BUFFER_PAGES {
      BuffersConcat(image[BUFFER_PAGES..]);
      var bs := Buffers(image);
      assert bs[0] == image[..BUFFER_PAGES] && bs[1..] == Buffers(image[BUFFER_PAGES..]);
    } else if image != [] {
      assert [image][1..] == [];
    }
  }

  // ---------------------------------------------------------------------
  // A whole number of pages.

  ghost predicate Whole(n: int, pageSize: nat)
    decreases n
  {
    n == 0 || (n >= pageSize > 0 && Whole(n - pageSize, pageSize))
  }

  lemma {:induction false} WholeTimes(k: nat, pageSize: nat)
    requires pageSize > 0
    ensures Whole(k * pageSize, pageSize)
    decreases k
  {
    if k > 0 {
      TimesOneMore(k - 1, pageSize);
      WholeTimes(k - 1, pageSize);
      assert k * pageSize - pageSize == (k - 1) * pageSize;
    }
  }

  lemma RoundUpCovers(n: nat, pageSize: nat)
    requires pageSize > 0
    ensures n <= RoundUp(n, pageSize)
  {
    var q := (n + pageSize - 1) / pageSize;
    assert n + pageSize - 1 == q * pageSize + (n + pageSize - 1) % pageSize;
  }

  /** Given the bound of the library, a compressed block with its size fits the
      write buffer, for any buffer of up to buffer_size bytes, and the write
      buffer is a whole number of pages. */
  lemma {:induction false} BlockFits(codec: Codec, raw: Bytes)
    requires codec.Lawful() && |raw| <= BUFFER_PAGES * codec.pageSize
    ensures |Block(codec.lzo, raw)| <= CompressBufSize(codec.pageSize)
    ensures Whole(CompressBufSize(codec.pageSize), codec.pageSize)
    ensures |codec.lzo.compress(raw)| < 0x1_0000_0000_0000_0000
  {
    var p := codec.pageSize;
    var size := BUFFER_PAGES * p;
    var c := codec.lzo.compress(raw);
    SizeBound(|raw|, |c|, size);
    RoundUpCovers(size / 16 + 67 + SIZE_BYTES, p);
    WholeBuffer(p);
  }

  lemma SizeBound(raw: nat, c: nat, size: nat)
    requires raw <= size <= 32 * 0x1_0000_0000 && c <= raw + raw / 16 + 67
    ensures c + SIZE_BYTES <= size + (size / 16 + 67 + SIZE_BYTES)
    ensures c < 0x1_0000_0000_0000_0000
  {
  }

  lemma WholeBuffer(pageSize: nat)
    requires pageSize > 0
    ensures Whole(CompressBufSize(pageSize), pageSize)
  {
    var size := BUFFER_PAGES * pageSize;
    var q := (size / 16 + 67 + SIZE_BYTES + pageSize - 1) / pageSize;
    WholeTimes(BUFFER_PAGES + q, pageSize);
    Distribute(BUFFER_PAGES, q, pageSize);
  }

  lemma Distribute(a: nat, b: nat, p: nat)
    ensures (a + b) * p == a * p + b * p
  {
  }

  /** Cutting a whole number of pages yields pages, and one page at a time. */
  lemma CutStep(buffer: Bytes, size: int, pageSize: nat)
    requires pageSize > 0 && 0 < size <= |buffer| && Whole(|buffer|, pageSize)
    ensures |buffer| >= pageSize && Whole(|buffer[pageSize..]|, pageSize)
    ensures size - pageSize <= |buffer[pageSize..]|
    ensures Cut(buffer, size, pageSize) == [buffer[..pageSize]] + Cut(buffer[pageSize..], size - pageSize, pageSize)
  {
  }

  lemma {:induction false} CutFlatten(pages: seq<Bytes>, pageSize: nat)
    requires pageSize > 0 && AllPages(pages, pageSize)
    ensures Cut(Flatten(pages), |Flatten(pages)|, pageSize) == pages
    ensures Whole(|Flatten(pages)|, pageSize)
  {
    if pages != [] {
      CutFlatten(pages[1..], pageSize);
      var f := Flatten(pages);
      assert f[..pageSize] == pages[0] && f[pageSize..] == Flatten(pages[1..]);
    }
  }

  // ---------------------------------------------------------------------
  // As many pages are read for a block as were written.

  /** The pages load_buffer reads after it has `got` bytes of a block. */
  function ReadMore(got: nat, size: nat, pageSize: nat): nat
    requires pageSize > 0
    decreases size - got
  {
    if got < size then 1 + ReadMore(got + pageSize, size, pageSize) else 0
  }

  lemma {:induction false} ReadAsManyAsWritten(buffer: Bytes, got: nat, size: nat, pageSize: nat)
    requires pageSize > 0 && got <= size && size - got <= |buffer| && Whole(|buffer|, pageSize)
    ensures |Cut(buffer, size - got, pageSize)| == ReadMore(got, size, pageSize)
    ensures |Cut(buffer, size - got, pageSize)| * pageSize <= |buffer|
    decreases size - got
  {
    if got < size {
      CutStep(buffer, size - got, pageSize);
      if got + pageSize <= size {
        ReadAsManyAsWritten(buffer[pageSize..], got + pageSize, size, pageSize);
      }
      TimesOneMore(|Cut(buffer[pageSize..], size - got - pageSize, pageSize)|, pageSize);
    }
  }

  /** For any buffer of up to buffer_size bytes: the reader, which learns the size
      from the first page, reads exactly the pages written for the block, and
      neither side steps past compress_buf_size. */
  lemma {:induction false} BlockReadExactly(codec: Codec, buffer: seq<Bytes>, rest: Bytes)
    requires codec.Lawful() && codec.compress
    requires |buffer| <= BUFFER_PAGES && AllPages(buffer, codec.pageSize)
    requires |rest| == CompressBufSize(codec.pageSize)
    ensures var p := codec.pageSize;
            var size := |codec.lzo.compress(Flatten(buffer))| + SIZE_BYTES;
            var written := |FlushPages(codec, buffer, rest)|;
            written == 1 + ReadMore(p, size, p) && written * p <= CompressBufSize(p)
  {
    hide Cut, Overlay, Flatten, AllPages, CompressBufSize, Codec.Lawful;
    var p := codec.pageSize;
    var raw := Flatten(buffer);
    var block := Block(codec.lzo, raw);
    BufferBound(buffer, p);
    BlockFits(codec, raw);
    ReadAsManyAsWritten(Overlay(rest, block), 0, |block|, p);
  }

  lemma AtMost(a: nat, b: nat, p: nat)
    requires a <= b
    ensures a * p <= b * p
  {
  }

  lemma BufferBound(buffer: seq<Bytes>, pageSize: nat)
    requires |buffer| <= BUFFER_PAGES && AllPages(buffer, pageSize)
    ensures |Flatten(buffer)| <= BUFFER_PAGES * pageSize
  {
    FlattenLength(buffer, pageSize);
    AtMost(|buffer|, BUFFER_PAGES, pageSize);
  }
}
