/** Integers in memory: bytes in little-endian order. */
module LittleEndian {

  newtype byte = x: int | 0 <= x < 256

  type Bytes = seq<byte>

  const SIZE_BYTES := 8       // sizeof(size_t)

  function LE(n: nat, k: nat): (b: Bytes)
    ensures |b| == k
    decreases k
  {
    if k == 0 then [] else [(n % 256) as byte] + LE(n / 256, k - 1)
  }

  function FromLE(b: Bytes): nat {
    if b == [] then 0 else b[0] as nat + 256 * FromLE(b[1..])
  }

  function Pow256(k: nat): nat {
    if k == 0 then 1 else 256 * Pow256(k - 1)
  }

  lemma {:induction false} FromLEInverse(n: nat, k: nat)
    requires n < Pow256(k)
    ensures FromLE(LE(n, k)) == n
    decreases k
  {
    if k > 0 {
      FromLEInverse(n / 256, k - 1);
    }
  }

  lemma SizeRoundTrip(n: nat)
    requires n < 0x1_0000_0000_0000_0000
    ensures FromLE(LE(n, SIZE_BYTES)) == n
  {
    assert Pow256(4) == 0x1_0000_0000 by {
      assert Pow256(2) == 0x1_0000;
    }
    assert Pow256(6) == 0x1_0000_0000_0000;
    assert Pow256(8) == 0x1_0000_0000_0000_0000;
    FromLEInverse(n, SIZE_BYTES);
  }

  /** A number of j + k bytes is its low part followed by its high part. */
  lemma {:induction false} LESplit(low: nat, high: nat, j: nat, k: nat)
    requires low < Pow256(j)
    ensures LE(low + Pow256(j) * high, j + k) == LE(low, j) + LE(high, k)
    decreases j
  {
    if j > 0 {
      PowTimes(low, high, j);
      var m := Pow256(j - 1) * high;
      assert low + Pow256(j) * high == low + 256 * m;
      hide Pow256;
      DivMod256(low, m);
      LESplit(low / 256, high, j - 1, k);
    }
  }

  lemma PowTimes(low: nat, high: nat, j: nat)
    requires j > 0 && low < Pow256(j)
    ensures Pow256(j) * high == 256 * (Pow256(j - 1) * high) && low / 256 < Pow256(j - 1)
  {
    Triple(Pow256(j - 1), high);
  }

  lemma Triple(p: nat, high: nat)
    ensures 256 * p * high == 256 * (p * high)
  {
  }

  lemma DivMod256(low: nat, m: nat)
    ensures (low + 256 * m) % 256 == low % 256 && (low + 256 * m) / 256 == low / 256 + m
  {
  }
}
