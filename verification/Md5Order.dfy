/** What happens to the order of the bytes when md5_process_block is called while
    md5_process_bytes has bytes waiting. */
module Md5Order {
  import opened Utils
  import opened LittleEndian
  import opened Md5

  // ---------------------------------------------------------------------
  // Two messages that some block function tells apart.

  /** Counts the blocks in the first word; at count p the second word records whether
      the block was b. */
  function Watching(p: Word, b: Bytes): BlockFunction {
    (c: Chain, blk: Bytes) =>
      Chain((c.a + 1) % WORDS, if c.a == p then (if blk == b then 1 else 0) else c.b, c.c, c.d)
  }

  /** The number of blocks until the count is p. */
  function Until(p: Word, a: Word): nat {
    (p - a) % WORDS
  }

  lemma UntilStep(p: Word, a: Word)
    ensures Until(p, a) == 0 <==> p == a
    ensures p != a ==> Until(p, (a + 1) % WORDS) == Until(p, a) - 1
    ensures p == a ==> Until(p, (a + 1) % WORDS) == WORDS - 1
  {
  }

  /** The record stays until the count comes round to p again. */
  lemma {:induction false} RecordStays(p: Word, b: Bytes, c: Chain, data: Bytes)
    requires |data| / 64 <= Until(p, c.a)
    ensures Absorb(Watching(p, b), c, data).b == c.b
    decreases |data|
  {
    hide Until;
    if |data| >= 64 {
      UntilStep(p, c.a);
      RecordStays(p, b, Watching(p, b)(c, data[..64]), data[64..]);
    }
  }

  lemma {:induction false} Counts(p: Word, b: Bytes, c: Chain, data: Bytes)
    requires |data| % 64 == 0
    ensures Absorb(Watching(p, b), c, data).a == (c.a + |data| / 64) % WORDS
    decreases |data|
  {
    if |data| >= 64 {
      var next := Watching(p, b)(c, data[..64]);
      Counts(p, b, next, data[64..]);
      CountOn(c.a, |data| / 64);
      assert |data[64..]| / 64 == |data| / 64 - 1;
    }
  }

  lemma CountOn(a: Word, k: nat)
    requires k > 0
    ensures ((a + 1) % WORDS + (k - 1)) % WORDS == (a + k) % WORDS
  {
    ModIs32((a + 1) % WORDS + (k - 1), (a + 1) / WORDS, a + k);
  }

  lemma ModIs32(x: int, q: int, y: int)
    requires y == x + WORDS * q
    ensures x % WORDS == y % WORDS
  {
  }

  /** Behind a common head, the block at count p tells. */
  lemma BlockTells(p: Word, b: Bytes, head: Bytes, block: Bytes, rest: Bytes)
    requires |head| % 64 == 0 && |block| == 64 && |rest| / 64 < WORDS
    requires p == (INITIAL.a + |head| / 64) % WORDS
    ensures Absorb(Watching(p, b), INITIAL, head + (block + rest)).b == if block == b then 1 else 0
  {
    hide Until;
    var f := Watching(p, b);
    AbsorbConcat(f, INITIAL, head, block + rest);
    Counts(p, b, INITIAL, head);
    var c := Absorb(f, INITIAL, head);
    assert (block + rest)[..64] == block && (block + rest)[64..] == rest;
    UntilStep(p, p);
    RecordStays(p, b, f(c, block), rest);
  }

  /** The first block in which two byte sequences of one length differ. */
  lemma {:induction false} FirstDifference(x: Bytes, y: Bytes) returns (k: nat)
    requires |x| == |y| && |x| % 64 == 0 && x != y
    ensures k % 64 == 0 && k + 64 <= |x| && x[..k] == y[..k] && x[k..k + 64] != y[k..k + 64]
    decreases |x|
  {
    if x[..64] != y[..64] {
      k := 0;
    } else {
      assert x == x[..64] + x[64..] && y == y[..64] + y[64..];
      var j := FirstDifference(x[64..], y[64..]);
      k := j + 64;
      assert x[..k] == x[..64] + x[64..][..j] && y[..k] == y[..64] + y[64..][..j];
      assert x[k..k + 64] == x[64..][j..j + 64] && y[k..k + 64] == y[64..][j..j + 64];
    }
  }

  /** Two different continuations of one head leave different chaining variables for
      some block function. */
  lemma TellApart(head: Bytes, x: Bytes, y: Bytes) returns (f: BlockFunction)
    requires |head| % 64 == 0 && |x| == |y| && |x| % 64 == 0 && |x| < 64 * WORDS && x != y
    ensures Absorb(f, INITIAL, head + x).b != Absorb(f, INITIAL, head + y).b
  {
    var k := FirstDifference(x, y);
    var h, b := head + x[..k], x[k..k + 64];
    var p := (INITIAL.a + |h| / 64) % WORDS;
    f := Watching(p, b);
    BlockTells(p, b, h, x[k..k + 64], x[k + 64..]);
    BlockTells(p, b, h, y[k..k + 64], y[k + 64..]);
    assert head + x == h + (x[k..k + 64] + x[k + 64..]);
    assert head + y == h + (y[k..k + 64] + y[k + 64..]) by { assert h == head + y[..k]; }
  }

  // ---------------------------------------------------------------------
  // Byte sequences that may be swapped.

  function Repeat(w: Bytes, n: nat): Bytes {
    if n == 0 then [] else w + Repeat(w, n - 1)
  }

  /** Both are repetitions of one word. */
  ghost predicate OneWord(a: Bytes, b: Bytes) {
    exists w: Bytes, i: nat, j: nat :: a == Repeat(w, i) && b == Repeat(w, j)
  }

  lemma {:induction false} RepeatAdds(w: Bytes, i: nat, j: nat)
    ensures Repeat(w, i) + Repeat(w, j) == Repeat(w, i + j)
    decreases i
  {
    if i == 0 {
      assert [] + Repeat(w, j) == Repeat(w, j);
    } else {
      RepeatAdds(w, i - 1, j);
      Assoc(w, Repeat(w, i - 1), Repeat(w, j));
    }
  }

  lemma {:induction false} CommutingWords(a: Bytes, b: Bytes) returns (w: Bytes, i: nat, j: nat)
    requires a + b == b + a
    ensures a == Repeat(w, i) && b == Repeat(w, j)
    decreases |a| + |b|
  {
    if a == [] {
      w, i, j := b, 0, 1;
      assert b == b + [];
    } else if b == [] {
      w, i, j := a, 1, 0;
      assert a == a + [];
    } else if |a| <= |b| {
      var c := b[|a|..];
      CutFront(a, b);
      w, i, j := CommutingWords(a, c);
      RepeatAdds(w, i, j);
      j := i + j;
    } else {
      var c := a[|b|..];
      CutFront(b, a);
      w, i, j := CommutingWords(c, b);
      RepeatAdds(w, j, i);
      i := j + i;
    }
  }

  lemma CutFront(a: Bytes, b: Bytes)
    requires a + b == b + a && |a| <= |b|
    ensures b == a + b[|a|..] && a + b[|a|..] == b[|a|..] + a
  {
    var c := b[|a|..];
    assert (a + b)[..|a|] == a && (b + a)[..|a|] == b[..|a|];
    assert b == a + c;
    assert (a + b)[|a|..] == b && (b + a)[|a|..] == c + a;
  }

  /** Two byte sequences may be swapped exactly when they are repetitions of one word. */
  lemma SwapExactly(a: Bytes, b: Bytes)
    ensures a + b == b + a <==> OneWord(a, b)
  {
    if a + b == b + a {
      var w, i, j := CommutingWords(a, b);
    }
    if OneWord(a, b) {
      var w: Bytes, i: nat, j: nat :| a == Repeat(w, i) && b == Repeat(w, j);
      RepeatAdds(w, i, j);
      RepeatAdds(w, j, i);
    }
  }

  // ---------------------------------------------------------------------
  // The context.

  /** After md5_process_block the context stands for the message with the data
      appended. */
  ghost predicate Appends(f: BlockFunction, head: Bytes, pending: Bytes, data: Bytes) {
    Represents(f, Absorb(f, Absorb(f, INITIAL, head), data), (|head| % LENGTHS + |data|) % LENGTHS, pending,
               head + pending + data)
  }

  /** With `pending` waiting behind whole blocks `head`: the call appends its data,
      for every block function, exactly when the waiting bytes and the data are
      repetitions of one word; in particular when nothing waits. */
  lemma {:induction false} BlocksAppendExactly(head: Bytes, pending: Bytes, data: Bytes)
    requires |head| % 64 == 0 && |data| % 64 == 0 && |data| < WORDS
    ensures (forall f: BlockFunction :: Appends(f, head, pending, data)) <==> OneWord(pending, data)
  {
    hide Repeat, OneWord;
    SwapExactly(pending, data);
    if OneWord(pending, data) {
      forall f: BlockFunction ensures Appends(f, head, pending, data) {
        AppendsWhenSwapped(f, head, pending, data);
      }
    } else {
      var f := FailsToAppend(head, pending, data);
      assert !Appends(f, head, pending, data);
    }
  }

  lemma AppendsWhenSwapped(f: BlockFunction, head: Bytes, pending: Bytes, data: Bytes)
    requires |head| % 64 == 0 && |data| % 64 == 0 && pending + data == data + pending
    ensures Appends(f, head, pending, data)
  {
    HeadGrows(f, Absorb(f, INITIAL, head), |head| % LENGTHS, head, data);
    assert head + pending + data == (head + data) + pending by {
      assert head + pending + data == head + (pending + data);
      assert (head + data) + pending == head + (data + pending);
    }
    RepresentsIs(f, Absorb(f, Absorb(f, INITIAL, head), data), (|head| % LENGTHS + |data|) % LENGTHS, head + data,
                 pending, head + pending + data);
  }

  lemma FailsToAppend(head: Bytes, pending: Bytes, data: Bytes) returns (f: BlockFunction)
    requires |head| % 64 == 0 && |data| % 64 == 0 && |data| < WORDS && pending + data != data + pending
    ensures !Appends(f, head, pending, data)
  {
    hide Absorb;
    var all := head + pending + data;
    var x := (pending + data)[..|data|];
    assert all[..|all| - |pending|] == head + x;
    if x == data {
      f := (c: Chain, b: Bytes) => c;
      assert all[|all| - |pending|..] == (pending + data)[|data|..];
      assert pending + data == x + (pending + data)[|data|..];
    } else {
      f := TellApart(head, x, data);
      AbsorbConcat(f, INITIAL, head, data);
    }
  }

  // ---------------------------------------------------------------------
  // The digest.

  lemma {:induction false} SameOutput(c: Chain, d: Chain)
    requires Output(c) == Output(d)
    ensures c.b == d.b
  {
    hide LE;
    assert Output(c)[4..8] == LE(c.b, 4) && Output(d)[4..8] == LE(d.b, 4);
    WordBack(c.b);
    WordBack(d.b);
  }

  /** The digest is that of the concatenation, for every block function, exactly when
      the waiting bytes and the data are repetitions of one word. */
  lemma {:induction false} BlocksDigestExactly(head: Bytes, pending: Bytes, data: Bytes)
    requires |head| % 64 == 0 && |data| % 64 == 0 && |data| < WORDS && |pending| <= 64
    ensures (forall f: BlockFunction :: Digest(f, head + data + pending) == Digest(f, head + pending + data))
            <==> OneWord(pending, data)
  {
    hide Repeat, OneWord, Digest;
    SwapExactly(pending, data);
    if OneWord(pending, data) {
      assert head + data + pending == head + (data + pending) == head + (pending + data) == head + pending + data;
    } else {
      var f := DigestDiffers(head, pending, data);
    }
  }

  /** The padding after one of two messages of the same length. */
  function Padding(n: nat): (p: Bytes)
    ensures |p| <= 72 && (n + |p|) % 64 == 0
  {
    [0x80] + Zeros(PadLength(n) - 1) + LE(8 * n % LENGTHS, 8)
  }

  lemma PadIs(message: Bytes)
    ensures Pad(message) == message + Padding(|message|)
  {
    var z, l := Zeros(PadLength(|message|) - 1), LE(8 * |message| % LENGTHS, 8);
    assert message + [0x80] + z + l == message + ([0x80] + z + l);
  }

  lemma DigestDiffers(head: Bytes, pending: Bytes, data: Bytes) returns (f: BlockFunction)
    requires |head| % 64 == 0 && |data| % 64 == 0 && |data| < WORDS && |pending| <= 64
    requires pending + data != data + pending
    ensures Digest(f, head + data + pending) != Digest(f, head + pending + data)
  {
    hide Absorb, Padding, Pad, Output;
    var m, n := head + data + pending, head + pending + data;
    var t := Padding(|m|);
    var x, y := data + pending + t, pending + data + t;
    PadIs(m);
    PadIs(n);
    Shift(head, data, pending, t);
    Shift(head, pending, data, t);
    assert x[..|x| - |t|] == data + pending && y[..|y| - |t|] == pending + data;
    LengthsFit(|head|, |data|, |pending|, |t|);
    f := TellApart(head, x, y);
    if Digest(f, m) == Digest(f, n) { SameOutput(Absorb(f, INITIAL, Pad(m)), Absorb(f, INITIAL, Pad(n))); }
  }

  lemma Shift(head: Bytes, a: Bytes, b: Bytes, t: Bytes)
    ensures (head + a + b) + t == head + (a + b + t)
  {
  }

  lemma LengthsFit(head: nat, data: nat, pending: nat, t: nat)
    requires head % 64 == 0 && (head + data + pending + t) % 64 == 0 && data < WORDS && pending <= 64 && t <= 72
    ensures (data + pending + t) % 64 == 0 && data + pending + t < 64 * WORDS
  {
  }

  // ---------------------------------------------------------------------
  // A full buffer.

  method FullBuffer(f: BlockFunction, first: byte, rest: Bytes) returns (ctx: Context)
    requires |rest| == 63
    ensures fresh(ctx) && fresh(ctx.buffer) && ctx.f == f && ctx.buflen == 64 && ctx.Fed([first] + rest)
  {
    hide Represents, Absorb, Total;
    ctx := new Context(f);
    ctx.ProcessBytes([first], true, []);
    assert [] + [first] == [first];
    ctx.ProcessBytes(rest, true, [first]);
  }

  /** One byte and then 63 more leave a full buffer, so a length that is a multiple of
      64 is not enough for whole blocks to be appended: these go in front. */
  method OvertakeFullBuffer(f: BlockFunction, first: byte, rest: Bytes, data: Bytes)
    returns (waiting: nat, digest: Bytes)
    requires |rest| == 63 && |data| % 64 == 0 && |data| < WORDS
    ensures waiting == 64 && digest == Digest(f, data + ([first] + rest))
  {
    hide Represents, Absorb, Total, Digest;
    var ctx := FullBuffer(f, first, rest);
    waiting := ctx.buflen;
    ghost var message := [first] + rest;
    ctx.FeedBlocks(data, message);
    assert message[..|message| - 64] + data + message[|message| - 64..] == data + message;
    digest := ctx.Finish(data + message);
  }
}
