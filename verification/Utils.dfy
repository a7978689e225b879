/** Small shared definitions. */
module Utils {

  datatype Option<+T> = None | Some(value: T)

  /** Every element occurs at most once. */
  ghost predicate NoDup(m: multiset<int>) {
    forall x :: m[x] <= 1
  }

  lemma BagHead(k: seq<int>)
    requires k != []
    ensures multiset(k) == multiset{k[0]} + multiset(k[1..])
  {
    assert k == [k[0]] + k[1..];
  }

  /** n rounded up to a multiple of a: round_up_page_size for a power of two. */
  function RoundUp(n: nat, a: nat): nat
    requires a > 0
  {
    (n + a - 1) / a * a
  }

  lemma Assoc<T>(a: seq<T>, b: seq<T>, c: seq<T>)
    ensures a + (b + c) == (a + b) + c
  {
  }

  lemma MulBound(k: int, a: int)
    requires a > 0
    ensures k >= 1 ==> k * a >= a
    ensures k <= -1 ==> k * a <= -a
  {
  }

  lemma Quotient(x: int, q: int, p: int)
    requires p > 0 && q * p <= x < q * p + p
    ensures x / p == q
  {
    var d := x / p;
    assert x == d * p + x % p;
    MulBound(d - q, p);
    assert (d - q) * p == d * p - q * p;
  }
}
