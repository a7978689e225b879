/** Incremental MD5: md5.c against RFC 1321, sections 3.1 to 3.3 and 3.5.
    The 64 operations of section 3.4 on one block are left open: they are a
    parameter of everything here. */
module Md5 {
  import opened LittleEndian

  type Word = x: int | 0 <= x < 0x1_0000_0000

  const WORDS: int := 0x1_0000_0000
  const LENGTHS: int := 0x1_0000_0000_0000_0000

  /** The four chaining variables. */
  datatype Chain = Chain(a: Word, b: Word, c: Word, d: Word)

  const INITIAL := Chain(0x67452301, 0xefcdab89, 0x98badcfe, 0x10325476)

  /** The treatment of one block of 64 bytes. */
  type BlockFunction = (Chain, Bytes) -> Chain

  // ---------------------------------------------------------------------
  // RFC 1321.

  /** Step 4: the blocks of a message, one after the other. */
  function Absorb(f: BlockFunction, c: Chain, data: Bytes): Chain
    decreases |data|
  {
    if |data| < 64 then c else Absorb(f, f(c, data[..64]), data[64..])
  }

  function Zeros(n: nat): (b: Bytes)
    ensures |b| == n
  {
    seq(n, i => 0)
  }

  /** Step 1: the number of padding bytes, between 1 and 64, that makes the
      length congruent to 56 modulo 64. */
  function PadLength(n: nat): (k: nat)
    ensures 1 <= k <= 64 && (n + k) % 64 == 56
  {
    if n % 64 < 56 then 56 - n % 64 else 120 - n % 64
  }

  /** Steps 1 and 2: padding, then the length in bits as a 64-bit number. */
  function Pad(message: Bytes): Bytes {
    message + [0x80] + Zeros(PadLength(|message|) - 1) + LE(8 * |message| % LENGTHS, 8)
  }

  /** Step 5: the digest is the four words, low-order bytes first. */
  function Output(c: Chain): Bytes {
    LE(c.a, 4) + LE(c.b, 4) + LE(c.c, 4) + LE(c.d, 4)
  }

  lemma WordBack(w: Word)
    ensures FromLE(LE(w, 4)) == w
  {
    assert Pow256(4) == WORDS by { assert Pow256(2) == 0x1_0000; }
    FromLEInverse(w, 4);
  }

  /** The words are read back in their order. */
  lemma {:induction false} WordsOfOutput(c: Chain)
    ensures var o := Output(c);
            && |o| == 16
            && FromLE(o[..4]) == c.a && FromLE(o[4..8]) == c.b && FromLE(o[8..12]) == c.c && FromLE(o[12..]) == c.d
  {
    hide LE, FromLE;
    var o := Output(c);
    assert o[..4] == LE(c.a, 4) && o[4..8] == LE(c.b, 4) && o[8..12] == LE(c.c, 4) && o[12..] == LE(c.d, 4);
    WordBack(c.a);
    WordBack(c.b);
    WordBack(c.c);
    WordBack(c.d);
  }

  function Digest(f: BlockFunction, message: Bytes): Bytes {
    Output(Absorb(f, INITIAL, Pad(message)))
  }

  lemma {:induction false} AbsorbConcat(f: BlockFunction, c: Chain, a: Bytes, b: Bytes)
    requires |a| % 64 == 0
    ensures Absorb(f, c, a + b) == Absorb(f, Absorb(f, c, a), b)
    decreases |a|
  {
    if |a| == 0 {
      assert a + b == b;
    } else {
      assert (a + b)[..64] == a[..64] && (a + b)[64..] == a[64..] + b;
      AbsorbConcat(f, f(c, a[..64]), a[64..], b);
    }
  }

  // ---------------------------------------------------------------------
  // The two-word byte counter.

  function Total(t0: Word, t1: Word): nat {
    t0 + WORDS * t1
  }

  /** The double-word increment: the carry is noticed by the low word becoming
      smaller than what was added. */
  method AddLength(t0: Word, t1: Word, len: nat) returns (r0: Word, r1: Word)
    requires len < WORDS
    ensures Total(r0, r1) == (Total(t0, t1) + len) % LENGTHS
  {
    r0 := (t0 + len) % WORDS;
    r1 := t1;
    if r0 < len {
      r1 := (t1 + 1) % WORDS;
    }
  }

  /** The two words of the length in bits, as shifts of the byte counter. */
  lemma BitLength(t0: Word, t1: Word)
    ensures LE(8 * Total(t0, t1) % LENGTHS, 8)
            == LE(8 * t0 % WORDS, 4) + LE((8 * t1 + t0 / 0x2000_0000) % WORDS, 4)
  {
    var q := t0 / 0x2000_0000;
    var low, high := 8 * t0 % WORDS, (8 * t1 + q) % WORDS;
    var k := (8 * t1 + q) / WORDS;
    assert 8 * t0 == WORDS * q + low by { ShiftLow(t0); }
    assert 8 * t1 + q == WORDS * k + high;
    assert 8 * Total(t0, t1) == LENGTHS * k + (low + WORDS * high);
    ModIs(8 * Total(t0, t1), k, low + WORDS * high);
    assert Pow256(2) == 0x1_0000 && Pow256(4) == WORDS;
    LESplit(low, high, 4, 4);
  }

  lemma ShiftLow(t: Word)
    ensures 8 * t == WORDS * (t / 0x2000_0000) + 8 * t % WORDS
  {
    var r := t % 0x2000_0000;
    assert 8 * t == WORDS * (t / 0x2000_0000) + 8 * r && 0 <= 8 * r < WORDS;
  }

  lemma ModIs(x: nat, k: nat, r: nat)
    requires x == LENGTHS * k + r && r < LENGTHS
    ensures x % LENGTHS == r
  {
  }

  // ---------------------------------------------------------------------
  // The context.

  /** The bytes of the message that fill whole blocks went into the chain and are
      counted; the pending ones are the rest. */
  ghost predicate Represents(f: BlockFunction, chain: Chain, total: nat, pending: Bytes, message: Bytes) {
    && |pending| <= |message|
    && (|message| - |pending|) % 64 == 0
    && pending == message[|message| - |pending|..]
    && chain == Absorb(f, INITIAL, message[..|message| - |pending|])
    && total == (|message| - |pending|) % LENGTHS
  }

  /** Take more data, put whole blocks into the chain, keep the rest. */
  lemma TakeBlocks(f: BlockFunction, chain: Chain, total: nat, pending: Bytes, message: Bytes,
                   data: Bytes, blocks: Bytes, rest: Bytes)
    requires Represents(f, chain, total, pending, message)
    requires pending + data == blocks + rest && |blocks| % 64 == 0
    ensures Represents(f, Absorb(f, chain, blocks), (total + |blocks|) % LENGTHS, rest, message + data)
  {
    var head := message[..|message| - |pending|];
    HeadGrows(f, chain, total, head, blocks);
    assert message + data == (head + blocks) + rest by {
      assert message == head + pending;
      BlocksFirst(head, pending, data, blocks, rest);
    }
    RepresentsIs(f, Absorb(f, chain, blocks), (total + |blocks|) % LENGTHS, head + blocks, rest, message + data);
  }

  lemma NoBlocks(f: BlockFunction, chain: Chain, t0: Word, t1: Word)
    ensures Absorb(f, chain, []) == chain
    ensures (Total(t0, t1) + 0) % LENGTHS == Total(t0, t1)
  {
  }

  lemma HeadGrows(f: BlockFunction, chain: Chain, total: nat, head: Bytes, blocks: Bytes)
    requires |head| % 64 == 0 && |blocks| % 64 == 0
    requires chain == Absorb(f, INITIAL, head) && total == |head| % LENGTHS
    ensures |head + blocks| % 64 == 0
    ensures Absorb(f, chain, blocks) == Absorb(f, INITIAL, head + blocks)
    ensures (total + |blocks|) % LENGTHS == |head + blocks| % LENGTHS
  {
    AbsorbConcat(f, INITIAL, head, blocks);
    AddMod(|head|, |blocks|, |head + blocks|, total);
  }

  lemma BlocksFirst(head: Bytes, pending: Bytes, data: Bytes, blocks: Bytes, rest: Bytes)
    requires pending + data == blocks + rest
    ensures (head + pending) + data == (head + blocks) + rest
  {
    assert (head + pending) + data == head + (pending + data);
  }

  lemma RepresentsIs(f: BlockFunction, chain: Chain, total: nat, head: Bytes, rest: Bytes, message: Bytes)
    requires |head| % 64 == 0 && message == head + rest
    requires chain == Absorb(f, INITIAL, head) && total == |head| % LENGTHS
    ensures Represents(f, chain, total, rest, message)
  {
    assert message[..|head|] == head;
  }

  lemma AddMod(a: nat, b: nat, c: nat, t: nat)
    requires a + b == c && t == a % LENGTHS
    ensures (t + b) % LENGTHS == c % LENGTHS
  {
    ModIs(c, a / LENGTHS + (t + b) / LENGTHS, (t + b) % LENGTHS);
  }

  /** A call of md5_process_block on whole blocks overtakes the bytes that wait in
      the buffer: it puts its data in front of them. */
  lemma {:induction false} BlocksOvertakePending(f: BlockFunction, chain: Chain, total: nat, pending: Bytes,
                              message: Bytes, data: Bytes)
    requires Represents(f, chain, total, pending, message) && |data| % 64 == 0
    ensures Represents(f, Absorb(f, chain, data), (total + |data|) % LENGTHS, pending,
                       message[..|message| - |pending|] + data + pending)
  {
    var head := message[..|message| - |pending|];
    HeadGrows(f, chain, total, head, data);
    RepresentsIs(f, Absorb(f, chain, data), (total + |data|) % LENGTHS, head + data, pending, head + data + pending);
  }

  /** struct md5_ctx. */
  class Context {
    const f: BlockFunction
    var chain: Chain
    var t0: Word
    var t1: Word
    var buflen: nat
    const buffer: array<byte>

    /** The bytes fed so far form the message: whole blocks went into the chain,
        the rest is buffered, and the counter covers what went into the chain. */
    ghost predicate Fed(message: Bytes)
      reads this, buffer
    {
      && buffer.Length == 128
      && buflen <= 64
      && Represents(f, chain, Total(t0, t1), buffer[..buflen], message)
    }

    constructor (f: BlockFunction)
      ensures Fed([]) && this.f == f && fresh(buffer) && buflen == 0
    {
      this.f := f;
      chain := INITIAL;
      t0, t1 := 0, 0;
      buflen := 0;
      buffer := new byte[128];
    }

    /** md5_process_block, for a length that is a multiple of 64. */
    method ProcessBlock(data: Bytes)
      requires |data| % 64 == 0 && |data| < WORDS
      modifies this`chain, this`t0, this`t1
      ensures chain == Absorb(f, old(chain), data)
      ensures Total(t0, t1) == (old(Total(t0, t1)) + |data|) % LENGTHS
    {
      t0, t1 := AddLength(t0, t1, |data|);
      var words := 0;
      var c := chain;
      while words < |data|
        invariant 0 <= words <= |data| && words % 64 == 0
        invariant Absorb(f, c, data[words..]) == Absorb(f, chain, data)
      {
        assert data[words..][..64] == data[words..words + 64] && data[words..][64..] == data[words + 64..];
        c := f(c, data[words..words + 64]);
        words := words + 64;
      }
      chain := c;
    }

    /** md5_process_block from outside: its blocks go in front of the bytes that wait
        in the buffer, and behind all others. */
    method FeedBlocks(data: Bytes, ghost message: Bytes)
      requires Fed(message) && |data| % 64 == 0 && |data| < WORDS
      modifies this`chain, this`t0, this`t1
      ensures buflen <= |message|
      ensures Fed(message[..|message| - buflen] + data + message[|message| - buflen..])
      ensures buflen == 0 ==> Fed(message + data)
    {
      ghost var before, total, pending := chain, Total(t0, t1), buffer[..buflen];
      ProcessBlock(data);
      BlocksOvertakePending(f, before, total, pending, message, data);
      if buflen == 0 {
        assert message[..|message| - 0] + data + [] == message + data;
      }
    }

    /** memcpy into the internal buffer. */
    method CopyIn(at: nat, data: Bytes)
      requires at + |data| <= buffer.Length
      modifies buffer
      ensures buffer[..] == old(buffer[..at]) + data + old(buffer[at + |data|..])
    {
      forall i | 0 <= i < |data| {
        buffer[at + i] := data[i];
      }
    }

    /** Whole blocks leave the internal buffer; the rest moves to its start. */
    method Drain(len: nat) returns (ghost blocks: Bytes, ghost rest: Bytes)
      requires buffer.Length == 128 && 64 <= len <= 128
      modifies this`chain, this`t0, this`t1, this`buflen, buffer
      ensures old(buffer[..len]) == blocks + rest && |blocks| % 64 == 0
      ensures chain == Absorb(f, old(chain), blocks)
      ensures Total(t0, t1) == (old(Total(t0, t1)) + |blocks|) % LENGTHS
      ensures buflen == len % 64 && buffer[..buflen] == rest
    {
      var whole := len - len % 64;
      blocks, rest := buffer[..whole], buffer[whole..len];
      ProcessBlock(buffer[..whole]);
      buflen := len % 64;
      CopyIn(0, buffer[whole..len]);
    }

    /** Put bytes behind those waiting in the buffer; once there are `full` of
        them, whole blocks are processed. */
    method Stash(data: Bytes, full: nat) returns (ghost blocks: Bytes, ghost rest: Bytes)
      requires buffer.Length == 128 && buflen + |data| <= 128 && 64 <= full <= 65
      modifies this`chain, this`t0, this`t1, this`buflen, buffer
      ensures old(buffer[..buflen]) + data == blocks + rest && |blocks| % 64 == 0
      ensures chain == Absorb(f, old(chain), blocks)
      ensures Total(t0, t1) == (old(Total(t0, t1)) + |blocks|) % LENGTHS
      ensures buflen <= 64 && buffer[..buflen] == rest
      ensures old(buflen) + |data| == 128 ==> buflen == 0
      ensures old(buflen) + |data| < full ==> buflen == old(buflen) + |data|
    {
      hide Absorb, Total;
      NoBlocks(f, chain, t0, t1);
      blocks, rest := [], buffer[..buflen] + data;
      var len := buflen + |data|;
      CopyIn(buflen, data);
      assert buffer[..len] == rest;
      if len >= full {
        blocks, rest := Drain(len);
      } else {
        buflen := len;
      }
    }

    method Store(data: Bytes, full: nat, ghost message: Bytes)
      requires Fed(message) && buflen + |data| <= 128 && 64 <= full <= 65
      modifies this`chain, this`t0, this`t1, this`buflen, buffer
      ensures Fed(message + data)
      ensures old(buflen) + |data| == 128 ==> buflen == 0
      ensures old(buflen) + |data| < full ==> buflen == old(buflen) + |data|
    {
      hide Absorb, Total, Represents;
      ghost var pending := buffer[..buflen];
      ghost var before, total := chain, Total(t0, t1);
      ghost var blocks, rest := Stash(data, full);
      TakeBlocks(f, before, total, pending, message, data, blocks, rest);
    }

    /** First part of md5_process_bytes: bytes are already waiting in the buffer. */
    method FillBuffer(data: Bytes, ghost message: Bytes) returns (add: nat)
      requires Fed(message) && buflen != 0 && |data| < WORDS
      modifies this`chain, this`t0, this`t1, this`buflen, buffer
      ensures add <= |data| && Fed(message + data[..add])
      ensures add < |data| ==> buflen == 0
      ensures old(buflen) + |data| <= 64 ==> add == |data| && buflen == old(buflen) + |data|
    {
      var leftOver := buflen;
      add := if 128 - leftOver > |data| then |data| else 128 - leftOver;
      Store(data[..add], 65, message);
    }

    /** Middle part: complete blocks straight from the caller, or one at a time
        through the internal buffer when the data is not aligned for words. */
    method WholeBlocks(data: Bytes, aligned: bool, ghost message: Bytes) returns (done: nat)
      requires Fed(message) && buflen == 0 && |data| < WORDS
      modifies this`chain, this`t0, this`t1, buffer
      ensures buflen == 0 && done <= |data| && |data| - done <= 64 && (|data| < 64 ==> done == 0)
      ensures Fed(message + data[..done])
    {
      done := 0;
      assert message + data[..0] == message;
      if |data| >= 64 {
        if !aligned {
          while |data| - done > 64
            invariant 0 <= done <= |data| && buffer.Length == 128 && buflen == 0
            invariant Represents(f, chain, Total(t0, t1), [], message + data[..done])
          {
            OneBlock(data[done..done + 64], message + data[..done]);
            assert (message + data[..done]) + data[done..done + 64] == message + data[..done + 64];
            done := done + 64;
          }
        } else {
          done := |data| - |data| % 64;
          ManyBlocks(data[..done], message);
        }
      }
      assert buffer[..0] == [];
    }

    method ManyBlocks(blocks: Bytes, ghost message: Bytes)
      requires buffer.Length == 128 && |blocks| % 64 == 0 && |blocks| < WORDS
      requires Represents(f, chain, Total(t0, t1), [], message)
      modifies this`chain, this`t0, this`t1
      ensures Represents(f, chain, Total(t0, t1), [], message + blocks)
    {
      ghost var before, total := chain, Total(t0, t1);
      ProcessBlock(blocks);
      TakeBlocks(f, before, total, [], message, blocks, blocks, []);
    }

    method OneBlock(block: Bytes, ghost message: Bytes)
      requires buffer.Length == 128 && |block| == 64
      requires Represents(f, chain, Total(t0, t1), [], message)
      modifies this`chain, this`t0, this`t1, buffer
      ensures Represents(f, chain, Total(t0, t1), [], message + block)
    {
      ghost var before, total := chain, Total(t0, t1);
      CopyIn(0, block);
      assert buffer[..64] == block;
      ProcessBlock(buffer[..64]);
      TakeBlocks(f, before, total, [], message, block, block, []);
    }

    /** Last part: move the remaining bytes into the internal buffer. */
    method KeepRest(data: Bytes, ghost message: Bytes)
      requires Fed(message) && buflen == 0 && |data| <= 64
      modifies this`chain, this`t0, this`t1, this`buflen, buffer
      ensures Fed(message + data)
      ensures |data| < 64 ==> buflen == |data|
    {
      if |data| > 0 {
        Store(data, 64, message);
      } else {
        assert message + data == message;
      }
    }

    /** md5_process_bytes. */
    method ProcessBytes(data: Bytes, aligned: bool, ghost message: Bytes)
      requires Fed(message) && |data| < WORDS
      modifies this`chain, this`t0, this`t1, this`buflen, buffer
      ensures Fed(message + data)
      ensures old(buflen) == 0 && |data| < 64 ==> buflen == |data|
      ensures old(buflen) > 0 && old(buflen) + |data| <= 64 ==> buflen == old(buflen) + |data|
    {
      hide Represents, Absorb, Total;
      var rest := data;
      ghost var fed := message;
      if buflen != 0 {
        var add := FillBuffer(rest, fed);
        fed := fed + rest[..add];
        rest := rest[add..];
        assert fed + rest == message + data;
      }
      if rest == [] {
        assert fed + rest == fed;
        return;
      }
      var done := WholeBlocks(rest, aligned, fed);
      ghost var all := fed + rest;
      fed := fed + rest[..done];
      assert fed + rest[done..] == all;
      KeepRest(rest[done..], fed);
    }

    /** md5_finish_ctx: pad what is left, append the length, and read the digest. */
    method Finish(ghost message: Bytes) returns (digest: Bytes)
      requires Fed(message)
      modifies this`chain, this`t0, this`t1, buffer
      ensures digest == Digest(f, message) && |digest| == 16
      ensures var c := Absorb(f, INITIAL, Pad(message));
              && FromLE(digest[..4]) == c.a && FromLE(digest[4..8]) == c.b
              && FromLE(digest[8..12]) == c.c && FromLE(digest[12..]) == c.d
    {
      WordsOfOutput(Absorb(f, INITIAL, Pad(message)));
      EndFinish(message);
      digest := Output(chain);
    }

    /** Its last blocks. */
    method EndFinish(ghost message: Bytes)
      requires Fed(message)
      modifies this`chain, this`t0, this`t1, buffer
      ensures chain == Absorb(f, INITIAL, Pad(message))
    {
      var bytes := buflen;
      ghost var pending := buffer[..bytes];
      t0, t1 := AddLength(t0, t1, bytes);
      var tail := Tail(bytes, t0, t1);
      TailIsPadding(message, bytes, t0, t1);
      LastBlocks(f, chain, old(Total(t0, t1)), pending, message, tail);
      CopyIn(bytes, tail);
      assert buffer[..bytes + |tail|] == pending + tail;
      ProcessBlock(buffer[..bytes + |tail|]);
    }
  }

  /** The bytes md5_finish_ctx puts behind those left in the buffer. */
  function Tail(bytes: nat, t0: Word, t1: Word): (tail: Bytes)
    requires bytes <= 64
    ensures (bytes + |tail|) % 64 == 0 && bytes + |tail| <= 128
  {
    var pad := if bytes >= 56 then 64 + 56 - bytes else 56 - bytes;
    ([0x80] + Zeros(63))[..pad] + LE(8 * t0 % WORDS, 4) + LE((8 * t1 + t0 / 0x2000_0000) % WORDS, 4)
  }

  lemma {:induction false} TailIsPadding(message: Bytes, bytes: nat, t0: Word, t1: Word)
    requires bytes <= 64 && bytes <= |message| && (|message| - bytes) % 64 == 0
    requires Total(t0, t1) == ((|message| - bytes) % LENGTHS + bytes) % LENGTHS
    ensures message + Tail(bytes, t0, t1) == Pad(message)
  {
    var n := |message|;
    AddMod(n - bytes, bytes, n, (n - bytes) % LENGTHS);
    BitsOf(n, Total(t0, t1));
    BitLength(t0, t1);
    var pad := if bytes >= 56 then 120 - bytes else 56 - bytes;
    PadIs(n, bytes, pad);
    FillIs(pad);
    Glue(message, [0x80], Zeros(pad - 1), LE(8 * t0 % WORDS, 4), LE((8 * t1 + t0 / 0x2000_0000) % WORDS, 4));
  }

  lemma Glue(m: Bytes, a: Bytes, b: Bytes, c: Bytes, d: Bytes)
    ensures m + ((a + b) + c + d) == m + a + b + (c + d)
  {
  }

  lemma PadIs(n: nat, bytes: nat, pad: nat)
    requires bytes <= 64 && bytes <= n && (n - bytes) % 64 == 0
    requires pad == if bytes >= 56 then 120 - bytes else 56 - bytes
    ensures pad == PadLength(n)
  {
  }

  lemma FillIs(pad: nat)
    requires 1 <= pad <= 64
    ensures ([0x80] + Zeros(63))[..pad] == [0x80] + Zeros(pad - 1)
  {
  }

  lemma BitsOf(n: nat, all: nat)
    requires all == n % LENGTHS
    ensures 8 * all % LENGTHS == 8 * n % LENGTHS
  {
    var r := 8 * all % LENGTHS;
    ModIs(8 * n, 8 * (n / LENGTHS) + 8 * all / LENGTHS, r);
  }

  lemma LastBlocks(f: BlockFunction, chain: Chain, total: nat, pending: Bytes, message: Bytes, tail: Bytes)
    requires Represents(f, chain, total, pending, message)
    requires message + tail == Pad(message)
    ensures Absorb(f, chain, pending + tail) == Absorb(f, INITIAL, Pad(message))
  {
    var head := message[..|message| - |pending|];
    AbsorbConcat(f, INITIAL, head, pending + tail);
    assert head + (pending + tail) == (head + pending) + tail;
    assert head + pending == message;
  }

  // ---------------------------------------------------------------------
  // Callers.

  function Join(chunks: seq<(Bytes, bool)>): Bytes {
    if chunks == [] then [] else Join(chunks[..|chunks| - 1]) + chunks[|chunks| - 1].0
  }

  /** Whole blocks first, then any chunks, aligned or not: the digest is that of
      everything put together. */
  method DigestOfChunks(f: BlockFunction, blocks: Bytes, chunks: seq<(Bytes, bool)>) returns (digest: Bytes)
    requires |blocks| % 64 == 0 && |blocks| < WORDS
    requires forall c :: c in chunks ==> |c.0| < WORDS
    ensures digest == Digest(f, blocks + Join(chunks))
  {
    var ctx := new Context(f);
    ctx.FeedBlocks(blocks, []);
    ghost var fed := [] + blocks;
    assert fed == blocks + Join(chunks[..0]);
    for i := 0 to |chunks|
      invariant fed == blocks + Join(chunks[..i]) && ctx.Fed(fed) && fresh(ctx) && fresh(ctx.buffer) && ctx.f == f
    {
      ctx.ProcessBytes(chunks[i].0, chunks[i].1, fed);
      fed := fed + chunks[i].0;
      JoinNext(blocks, chunks, i);
    }
    assert chunks[..|chunks|] == chunks;
    digest := ctx.Finish(fed);
  }

  lemma JoinNext(blocks: Bytes, chunks: seq<(Bytes, bool)>, i: nat)
    requires i < |chunks|
    ensures (blocks + Join(chunks[..i])) + chunks[i].0 == blocks + Join(chunks[..i + 1])
  {
    assert chunks[..i + 1][..i] == chunks[..i];
  }
}
