/** The digest as RFC 1321 describes it, sections 3.1 to 3.5, without the functions
    that compute it. */
module Md5Rfc {
  import opened LittleEndian
  import opened Md5

  /** Sections 3.1 and 3.2: one bit and zeros up to 56 bytes modulo 64, then the length
      in bits as eight bytes, the low-order byte first. */
  lemma {:induction false} PaddedIs(message: Bytes)
    ensures var p, n := Pad(message), |message|;
            && |p| % 64 == 0 && n + 9 <= |p| <= n + 72
            && p[..n] == message && p[n] == 0x80 && (forall i :: n < i < |p| - 8 ==> p[i] == 0)
            && FromLE(p[|p| - 8..]) == 8 * n % 0x1_0000_0000_0000_0000
  {
    hide LE, FromLE;
    var n := |message|;
    var z, l := Zeros(PadLength(n) - 1), LE(8 * n % LENGTHS, 8);
    var p := Pad(message);
    assert p == message + [0x80] + z + l;
    assert p[|p| - 8..] == l;
    SizeRoundTrip(8 * n % LENGTHS);
    assert |p| == n + PadLength(n) + 8;
  }

  /** Section 3.3: the bytes of the four words, low-order byte first. */
  lemma InitialIs()
    ensures INITIAL.a == FromLE([0x01, 0x23, 0x45, 0x67]) && INITIAL.b == FromLE([0x89, 0xab, 0xcd, 0xef])
    ensures INITIAL.c == FromLE([0xfe, 0xdc, 0xba, 0x98]) && INITIAL.d == FromLE([0x76, 0x54, 0x32, 0x10])
  {
    FourBytes(0x01, 0x23, 0x45, 0x67);
    FourBytes(0x89, 0xab, 0xcd, 0xef);
    FourBytes(0xfe, 0xdc, 0xba, 0x98);
    FourBytes(0x76, 0x54, 0x32, 0x10);
  }

  lemma FourBytes(a: byte, b: byte, c: byte, d: byte)
    ensures FromLE([a, b, c, d]) == a as int + 0x100 * b as int + 0x1_0000 * c as int + 0x100_0000 * d as int
  {
    assert [a, b, c, d][1..] == [b, c, d] && [b, c, d][1..] == [c, d] && [c, d][1..] == [d] && [d][1..] == [];
    assert FromLE([d]) == d as int;
    assert FromLE([c, d]) == c as int + 0x100 * d as int;
    assert FromLE([b, c, d]) == b as int + 0x100 * c as int + 0x1_0000 * d as int;
  }

  lemma {:induction false} BytesBack(b: Bytes)
    ensures LE(FromLE(b), |b|) == b
    decreases |b|
  {
    if b != [] {
      BytesBack(b[1..]);
      var n := FromLE(b);
      assert n % 256 == b[0] as nat && n / 256 == FromLE(b[1..]);
    }
  }

  /** Bytes with these properties are the padded message. */
  lemma {:induction false} OnlyPadding(message: Bytes, p: Bytes)
    requires var n := |message|;
             && |p| % 64 == 0 && n + 9 <= |p| <= n + 72
             && p[..n] == message && p[n] == 0x80 && (forall i :: n < i < |p| - 8 ==> p[i] == 0)
             && FromLE(p[|p| - 8..]) == 8 * n % 0x1_0000_0000_0000_0000
    ensures p == Pad(message)
  {
    hide LE, FromLE;
    PaddedIs(message);
    var q := Pad(message);
    SameLength(|message|, |p|, |q|);
    BytesBack(p[|p| - 8..]);
    BytesBack(q[|q| - 8..]);
    forall i | 0 <= i < |p| ensures p[i] == q[i] {
      if i < |message| {
        assert p[i] == p[..|message|][i] && q[i] == q[..|message|][i];
      } else if i >= |p| - 8 {
        assert p[i] == p[|p| - 8..][i - (|p| - 8)] && q[i] == q[|q| - 8..][i - (|q| - 8)];
      }
    }
  }

  lemma SameLength(n: nat, p: nat, q: nat)
    requires p % 64 == 0 && q % 64 == 0 && n + 9 <= p <= n + 72 && n + 9 <= q <= n + 72
    ensures p == q
  {
  }

  /** Section 3.4, with the work on one block left open: one block after the other. */
  lemma {:induction false} BlockByBlock(f: BlockFunction, data: Bytes, chains: seq<Chain>)
    requires |data| % 64 == 0 && |chains| == |data| / 64 + 1
    requires forall k :: 0 <= k < |chains| - 1 ==> chains[k + 1] == f(chains[k], data[64 * k..64 * k + 64])
    ensures Absorb(f, chains[0], data) == chains[|chains| - 1]
    decreases |data|
  {
    if |data| >= 64 {
      var d, c := data[64..], chains[1..];
      forall k | 0 <= k < |c| - 1 ensures c[k + 1] == f(c[k], d[64 * k..64 * k + 64]) {
        assert d[64 * k..64 * k + 64] == data[64 * (k + 1)..64 * (k + 1) + 64];
      }
      BlockByBlock(f, d, c);
      assert chains[1] == f(chains[0], data[64 * 0..64 * 0 + 64]);
    }
  }

  /** Take the message padded like this, the four words of section 3.3, and any chain of
      values, each one the work on the next block: the digest is the last of them, word by
      word, low-order byte first. */
  lemma {:induction false} DigestIs(f: BlockFunction, message: Bytes, p: Bytes, chains: seq<Chain>)
    requires var n := |message|;
             && |p| % 64 == 0 && n + 9 <= |p| <= n + 72
             && p[..n] == message && p[n] == 0x80 && (forall i :: n < i < |p| - 8 ==> p[i] == 0)
             && FromLE(p[|p| - 8..]) == 8 * n % 0x1_0000_0000_0000_0000
    requires |chains| == |p| / 64 + 1
    requires chains[0] == Chain(0x67452301, 0xefcdab89, 0x98badcfe, 0x10325476)
    requires forall k :: 0 <= k < |chains| - 1 ==> chains[k + 1] == f(chains[k], p[64 * k..64 * k + 64])
    ensures var d, c := Digest(f, message), chains[|chains| - 1];
            && |d| == 16
            && FromLE(d[..4]) == c.a && FromLE(d[4..8]) == c.b && FromLE(d[8..12]) == c.c && FromLE(d[12..]) == c.d
  {
    hide Absorb, FromLE, Pad, Output;
    OnlyPadding(message, p);
    BlockByBlock(f, p, chains);
    WordsOfOutput(chains[|chains| - 1]);
  }
}
