/** What is on the swap, byte by byte: pages under the cipher, and compressed blocks. */
module OnSwap {
  import opened Utils
  import opened LittleEndian
  import opened ImageFormat
  import opened ImageReader

  /** The cipher runs through the pages in order, each call starting from the state that
      the one before has left; without encryption the pages are as they were. */
  lemma {:induction false} CipherRuns(codec: Codec, s0: Bytes, plain: seq<Bytes>) returns (states: seq<Bytes>)
    ensures |states| == |plain| + 1 && states[0] == s0 && states[|plain|] == StateAfter(codec, s0, plain)
    ensures codec.encrypt ==>
              forall k :: 0 <= k < |plain| ==>
                codec.cipher.encrypt(states[k], plain[k]) == (states[k + 1], EncryptAll(codec, s0, plain)[k])
    ensures !codec.encrypt ==> EncryptAll(codec, s0, plain) == plain
    decreases |plain|
  {
    states := [s0];
    if plain != [] {
      var (s, c) := Encrypt(codec, s0, plain[0]);
      var rest := CipherRuns(codec, s, plain[1..]);
      states := [s0] + rest;
      assert EncryptAll(codec, s0, plain) == [c] + EncryptAll(codec, s, plain[1..]);
      forall k | 0 <= k < |plain| && codec.encrypt
        ensures codec.cipher.encrypt(states[k], plain[k]) == (states[k + 1], EncryptAll(codec, s0, plain)[k])
      {
        if k > 0 { assert plain[k] == plain[1..][k - 1]; }
      }
    }
  }

  /** The same for what a reader decrypts. */
  lemma DecryptIs(codec: Codec, s: Bytes, page: Bytes)
    ensures Decrypt(codec, s, page) == if codec.encrypt then codec.cipher.decrypt(s, page) else (s, page)
  {
  }

  // ---------------------------------------------------------------------
  // Buffers.

  /** Buffer k takes the pages from 32 k on. */
  lemma {:induction false} BufferAt(image: seq<Bytes>, k: nat)
    ensures |Buffers(image)| == (|image| + 31) / 32
    ensures k < |Buffers(image)| ==>
              32 * k < |image|
              && Buffers(image)[k] == image[32 * k..if 32 * k + 32 < |image| then 32 * k + 32 else |image|]
    decreases |image|
  {
    if |image| > 32 {
      var rest := image[32..];
      BufferAt(rest, if k > 0 then k - 1 else 0);
      assert Buffers(image) == [image[..32]] + Buffers(rest);
      if 0 < k < |Buffers(image)| {
        var n := |rest|;
        var end := if 32 * (k - 1) + 32 < n then 32 * (k - 1) + 32 else n;
        assert rest[32 * (k - 1)..end] == image[32 * k..32 + end];
      }
    } else {
      assert image != [] ==> Buffers(image) == [image] && image[0..|image|] == image;
    }
  }

  // ---------------------------------------------------------------------
  // Blocks.

  lemma {:induction false} CutIsPrefix(buffer: Bytes, size: int, pageSize: nat)
    requires pageSize > 0 && size <= |buffer| && Whole(|buffer|, pageSize)
    ensures var f := Flatten(Cut(buffer, size, pageSize));
            && size <= |f| <= |buffer| && f == buffer[..|f|] && (0 <= size ==> |f| < size + pageSize)
    decreases size
  {
    if size > 0 {
      CutStep(buffer, size, pageSize);
      var rest := buffer[pageSize..];
      CutIsPrefix(rest, size - pageSize, pageSize);
      hide Cut, Whole;
      var g := Flatten(Cut(rest, size - pageSize, pageSize));
      HeadFirst(buffer[..pageSize], Cut(rest, size - pageSize, pageSize));
      assert buffer[..pageSize] + rest[..|g|] == buffer[..pageSize + |g|];
    }
  }

  lemma HeadFirst(page: Bytes, rest: seq<Bytes>)
    ensures Flatten([page] + rest) == page + Flatten(rest)
  {
    assert ([page] + rest)[1..] == rest;
  }

  /** The pages of a block: the size of the compressed data in the first eight bytes, the
      compressed data, and less than a page of anything. */
  lemma {:induction false} BlockIs(codec: Codec, buffer: seq<Bytes>, rest: Bytes)
    requires codec.compress && GoodBuffer(codec, buffer, rest)
    ensures var b, c := Flatten(FlushPages(codec, buffer, rest)), codec.lzo.compress(Flatten(buffer));
            && 8 + |c| <= |b| < 8 + |c| + codec.pageSize
            && FromLE(b[..8]) == |c| && b[8..8 + |c|] == c
  {
    hide Flatten, Cut, Whole, LE, FromLE;
    var raw := Flatten(buffer);
    var c := codec.lzo.compress(raw);
    BufferBound(buffer, codec.pageSize);
    BlockFits(codec, raw);
    SizeRoundTrip(|c|);
    var block := LE(|c|, 8) + c;
    var all := Overlay(rest, block);
    CutIsPrefix(all, |block|, codec.pageSize);
    var b := Flatten(FlushPages(codec, buffer, rest));
    assert b == all[..|b|] && all[..|block|] == block;
    assert b[..8] == block[..8] == LE(|c|, 8);
    assert b[8..8 + |c|] == block[8..8 + |c|] == c;
  }

  lemma {:induction false} PlainSplit(codec: Codec, buffers: seq<seq<Bytes>>, rests: seq<Bytes>, k: nat)
    requires codec.pageSize > 0 && |buffers| == |rests| && k <= |buffers|
    ensures PlainPages(codec, buffers, rests)
            == PlainPages(codec, buffers[..k], rests[..k]) + PlainPages(codec, buffers[k..], rests[k..])
    decreases k
  {
    hide FlushPages;
    if k == 0 {
      assert buffers[0..] == buffers && rests[0..] == rests;
      assert buffers[..0] == [] && rests[..0] == [];
    } else {
      PlainSplit(codec, buffers[1..], rests[1..], k - 1);
      assert buffers[..k][1..] == buffers[1..][..k - 1] && rests[..k][1..] == rests[1..][..k - 1];
      assert buffers[1..][k - 1..] == buffers[k..] && rests[1..][k - 1..] == rests[k..];
      Assoc(FlushPages(codec, buffers[0], rests[0]), PlainPages(codec, buffers[1..][..k - 1], rests[1..][..k - 1]),
            PlainPages(codec, buffers[k..], rests[k..]));
    }
  }

  /** Where block k begins among the pages of the image. */
  function BlockStart(codec: Codec, image: seq<Bytes>, rests: seq<Bytes>, k: nat): nat
    requires codec.pageSize > 0 && |rests| == |Buffers(image)| && k <= |rests|
  {
    |PlainPages(codec, Buffers(image)[..k], rests[..k])|
  }

  /** The blocks follow each other and are all there is. */
  lemma {:induction false} BlocksFollow(codec: Codec, image: seq<Bytes>, rests: seq<Bytes>, k: nat)
    requires codec.pageSize > 0 && |rests| == |Buffers(image)| && k < |rests|
    ensures var plain := PlainPages(codec, Buffers(image), rests);
            var i, j := BlockStart(codec, image, rests, k), BlockStart(codec, image, rests, k + 1);
            && i <= j <= |plain| && plain[i..j] == FlushPages(codec, Buffers(image)[k], rests[k])
            && (k == 0 ==> i == 0) && (k + 1 == |rests| ==> j == |plain|)
  {
    hide FlushPages, PlainPages, Buffers;
    var bs := Buffers(image);
    PlainSplit(codec, bs, rests, k + 1);
    assert bs[..k + 1] == bs[..k] + [bs[k]] && rests[..k + 1] == rests[..k] + [rests[k]];
    PlainPagesLast(codec, bs[..k], rests[..k], bs[k], rests[k]);
    NoPages(codec);
    if k == 0 { assert bs[..0] == [] && rests[..0] == []; }
    if k + 1 == |rests| { assert bs[..k + 1] == bs && rests[..k + 1] == rests; }
  }

  lemma NoPages(codec: Codec)
    requires codec.pageSize > 0
    ensures PlainPages(codec, [], []) == []
  {
  }

  /** With compression: block k of the image holds the 32 pages from 32 k on, the last one
      those that are left. */
  lemma {:induction false} BlockOfImage(codec: Codec, image: seq<Bytes>, rests: seq<Bytes>, k: nat)
    requires codec.Lawful() && codec.compress && ImageFacts(codec, image, rests) && 32 * k < |image|
    ensures k < |rests| == (|image| + 31) / 32
    ensures var plain := PlainPages(codec, Buffers(image), rests);
            var i, j := BlockStart(codec, image, rests, k), BlockStart(codec, image, rests, k + 1);
            var raw := Flatten(image[32 * k..if 32 * k + 32 < |image| then 32 * k + 32 else |image|]);
            var c := codec.lzo.compress(raw);
            && i <= j <= |plain| && (k == 0 ==> i == 0) && (k + 1 == |rests| ==> j == |plain|)
            && var b := Flatten(plain[i..j]);
               8 + |c| <= |b| < 8 + |c| + codec.pageSize && FromLE(b[..8]) == |c| && b[8..8 + |c|] == c
  {
    hide Codec.Lawful, GoodBuffer, FlushPages, PlainPages, FromLE, Flatten, Buffers, BlockStart;
    BufferAt(image, k);
    BlocksFollow(codec, image, rests, k);
    BufferGood(codec, image, rests, k);
    BlockIs(codec, Buffers(image)[k], rests[k]);
  }

  lemma BufferGood(codec: Codec, image: seq<Bytes>, rests: seq<Bytes>, k: nat)
    requires codec.Lawful() && ImageFacts(codec, image, rests) && k < |rests|
    ensures GoodBuffer(codec, Buffers(image)[k], rests[k])
  {
    hide Codec.Lawful;
    var b := Buffers(image)[k];
    BufferAt(image, k);
    assert b in Buffers(image) && rests[k] in rests;
    forall p | p in b ensures p in image { }
  }
}
