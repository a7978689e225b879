/** The size that s2disk and resume give to the pool is enough for every getmem
    call they make, with any flags and any power-of-two page size. */
module PoolBudget {
  import opened Utils
  import opened MemPool
  import opened LittleEndian
  import opened ImageFormat
  import opened Pipeline

  const PK_KEY_SIZE: nat := 16
  const PK_CIPHER_BLOCK: nat := 16
  const KEY_TEST_SIZE: nat := 8

  datatype Flags = Flags(compress: bool, encrypt: bool, threads: bool)

  /** The page size and the size of LZO's work memory. */
  datatype Machine = Machine(page: nat, lzo: nat)

  /** Pages of 128 bytes leave room for eight slots; above 4 MB the sizes would not
      fit an unsigned int. */
  ghost predicate Supported(m: Machine) {
    PowerOfTwo(m.page) && 128 <= m.page <= 0x40_0000 && 0 < m.lzo <= 0x10_0000
  }

  function BufferSize(m: Machine): nat {
    BUFFER_PAGES * m.page
  }

  /** mem_size in s2disk. */
  function SuspendBudget(m: Machine, f: Flags): nat
    requires m.page > 0
  {
    2 * m.page + BufferSize(m)
    + (if f.compress then CompressBufSize(m.page) + RoundUp(m.lzo, m.page) else 0)
    + (if f.encrypt then ENCRYPT_BUF_PAGES * m.page else 0)
    + (if f.threads then
         (if f.compress then (WRITE_BUFFERS - 1) * CompressBufSize(m.page) else WRITE_BUFFERS * BufferSize(m))
         + (if f.encrypt then 0 else WRITE_BUFFERS * BufferSize(m))
       else 0)
  }

  /** mem_size in resume, where the flags are those it was built with. */
  function ResumeBudget(m: Machine, built: Flags): nat
    requires m.page > 0
  {
    2 * m.page + BufferSize(m)
    + (if built.encrypt then m.page else 0)
    + (if built.compress then CompressBufSize(m.page) + RoundUp(m.lzo, m.page) else 0)
  }

  function PoolFor(m: Machine, budget: nat): Pool
    requires m.page > 0
  {
    Pool(RoundUp(budget, m.page), m.page, RoundUp(m.page, m.page) / SLOT_SIZE)
  }

  /** The calls of init_swap_writer. */
  function WriterSizes(m: Machine, f: Flags): seq<nat>
    requires m.page > 0
  {
    [m.page, BufferSize(m)]
    + (if f.encrypt then [ENCRYPT_BUF_PAGES * m.page] else [])
    + (if f.compress then
         [m.lzo, if f.threads then CompressBufSize(m.page) + (WRITE_BUFFERS - 1) * CompressBufSize(m.page)
                 else CompressBufSize(m.page)]
       else if f.threads then [BufferSize(m) * WRITE_BUFFERS]
       else [])
  }

  /** The calls of init_swap_reader. */
  function ReaderSizes(m: Machine, f: Flags): seq<nat>
    requires m.page > 0
  {
    [m.page, BufferSize(m)]
    + (if f.encrypt then [m.page] else [])
    + (if f.compress then [CompressBufSize(m.page), m.lzo] else [])
  }

  /** Several calls of getmem; None when one of them fails. */
  function GetAll(c: Pool, s: seq<Slot>, sizes: seq<nat>): Option<seq<Slot>>
    requires c.page > 0
    decreases |sizes|
  {
    if sizes == [] then Some(s)
    else if Fits(c, s, sizes[0]) then GetAll(c, Get(c, s, sizes[0]), sizes[1..])
    else None
  }

  /** When they all succeed there is one more block for each call, of the size asked for,
      behind those that were there. */
  lemma {:induction false} AllGot(c: Pool, s: seq<Slot>, sizes: seq<nat>)
    requires c.page > 0 && GetAll(c, s, sizes).Some?
    ensures var t := GetAll(c, s, sizes).value;
            && |t| == |s| + |sizes| && t[..|s|] == s
            && forall k :: 0 <= k < |sizes| ==> t[|s| + k].size == sizes[k]
    decreases |sizes|
  {
    hide Fits, NextUsed;
    if sizes != [] {
      var g := Get(c, s, sizes[0]);
      AllGot(c, g, sizes[1..]);
      var t := GetAll(c, s, sizes).value;
      assert g == s + [g[|s|]] && g[|s|].size == sizes[0];
      assert t[|s|] == t[..|g|][|s|] && t[..|s|] == t[..|g|][..|s|];
      forall k | 0 <= k < |sizes| ensures t[|s| + k].size == sizes[k] {
        if k > 0 { assert t[|g| + (k - 1)].size == sizes[1..][k - 1]; }
      }
    }
  }

  /** The sizes and the budgets for pages of 4096 bytes and 64 kB of work memory. */
  lemma SizesAt4096()
    ensures CompressBufSize(4096) == 143360
    ensures var m := Machine(4096, 65536);
            && SuspendBudget(m, Flags(true, true, true)) == 1826816
            && SuspendBudget(m, Flags(true, false, true)) == 1302528
            && SuspendBudget(m, Flags(false, true, true)) == 1712128
            && SuspendBudget(m, Flags(false, false, false)) == 139264
            && ResumeBudget(m, Flags(true, true, false)) == 352256
            && WriterSizes(m, Flags(true, true, true)) == [4096, 131072, 1048576, 65536, 573440]
            && WriterSizes(m, Flags(true, true, false)) == [4096, 131072, 1048576, 65536, 143360]
            && WriterSizes(m, Flags(false, false, true)) == [4096, 131072, 524288]
            && ReaderSizes(m, Flags(true, true, false)) == [4096, 131072, 4096, 143360, 65536]
  {
    assert RoundUp(8267, 4096) == 12288 && RoundUp(65536, 4096) == 65536;
  }

  // ---------------------------------------------------------------------
  // Page-wise accounting.

  ghost function Top(c: Pool, s: seq<Slot>): nat
    requires c.page > 0
  {
    if s == [] then 0 else RoundUp(s[|s| - 1].at + s[|s| - 1].size, c.page)
  }

  ghost function Need(page: nat, sizes: seq<nat>): nat
    requires page > 0
    decreases |sizes|
  {
    if sizes == [] then 0 else RoundUp(sizes[0], page) + Need(page, sizes[1..])
  }

  lemma Monotone(j: int, k: int, a: int)
    requires a > 0
    ensures j <= k ==> j * a <= k * a
  {
  }

  lemma LessFactor(j: int, k: int, a: int)
    requires a > 0 && j * a < k * a + a
    ensures j <= k
  {
    assert (k + 1) * a == k * a + a;
    Monotone(k + 1, j, a);
  }

  /** RoundUp gives the least multiple. */
  lemma RoundUpLeast(x: nat, a: nat, m: nat)
    requires a > 0 && x <= m && m % a == 0
    ensures RoundUp(x, a) <= m
  {
    RoundUpFacts(x, a);
    var q, k := (x + a - 1) / a, m / a;
    assert m == k * a;
    LessFactor(q, k, a);
    Monotone(q, k, a);
  }

  lemma RoundUpOfMultiple(k: nat, a: nat)
    requires a > 0
    ensures RoundUp(k * a, a) == k * a
  {
    hide RoundUp;
    Multiple(k, a);
    RoundUpFacts(k * a, a);
    RoundUpLeast(k * a, a, k * a);
  }

  lemma SumMultiple(x: int, y: int, a: int)
    requires a > 0 && x % a == 0 && y % a == 0
    ensures (x + y) % a == 0
  {
    assert x == x / a * a && y == y / a * a;
    Multiple(x / a + y / a, a);
    assert (x / a + y / a) * a == x + y;
  }

  lemma MultipleOfMultiple(x: int, p: int, a: int)
    requires a > 0 && p > 0 && p % a == 0 && x % p == 0
    ensures x % a == 0
  {
    Multiple(0, a);
    AlignedAddress(x, p, 0, a);
  }

  /** A call uses no more than its size rounded up to pages. */
  lemma OneFits(c: Pool, s: seq<Slot>, size: nat)
    requires Sane(c) && Good(c, s) && size > 0 && |s| < c.slots
    requires Top(c, s) + RoundUp(size, c.page) <= c.size
    ensures Fits(c, s, size) && Top(c, Get(c, s, size)) <= Top(c, s) + RoundUp(size, c.page)
  {
    hide RoundUp, Alignment, Good, PowerOfTwo;
    NextBelowTop(c, s, size);
    RoundUpFacts(size, c.page);
    var u := NextUsed(c, s, size);
    TopIsMultiple(c, s);
    SumMultiple(Top(c, s), RoundUp(size, c.page), c.page);
    RoundUpLeast(u + size, c.page, Top(c, s) + RoundUp(size, c.page));
  }

  lemma TopIsMultiple(c: Pool, s: seq<Slot>)
    requires c.page > 0
    ensures Top(c, s) % c.page == 0
  {
    if s == [] {
      Multiple(0, c.page);
    } else {
      RoundUpFacts(s[|s| - 1].at + s[|s| - 1].size, c.page);
    }
  }

  lemma NextBelowTop(c: Pool, s: seq<Slot>, size: nat)
    requires Sane(c) && Good(c, s)
    ensures NextUsed(c, s, size) <= Top(c, s)
  {
    hide RoundUp, Alignment, Ascending;
    if s != [] {
      assert s[|s| - 1] in s;
      var end, a := s[|s| - 1].at + s[|s| - 1].size, Alignment(c.page, size);
      AlignmentIsLeast(c.page, size);
      RoundUpFacts(end, c.page);
      MultipleOfMultiple(RoundUp(end, c.page), c.page, a);
      RoundUpLeast(end, a, RoundUp(end, c.page));
      NoWrap(end, a, c);
    }
  }

  lemma {:induction false} AllFit(c: Pool, s: seq<Slot>, sizes: seq<nat>)
    requires Sane(c) && Good(c, s) && |s| + |sizes| <= c.slots
    requires forall k :: 0 <= k < |sizes| ==> sizes[k] > 0
    requires Top(c, s) + Need(c.page, sizes) <= c.size
    ensures var r := GetAll(c, s, sizes);
            && r.Some? && Good(c, r.value) && |r.value| == |s| + |sizes| && s <= r.value
    decreases |sizes|
  {
    hide Fits, RoundUp, Good, Top, PowerOfTwo;
    if sizes != [] {
      OneFits(c, s, sizes[0]);
      GetKeeps(c, s, sizes[0]);
      AllFit(c, Get(c, s, sizes[0]), sizes[1..]);
    }
  }

  // ---------------------------------------------------------------------
  // The budgets.

  lemma Sizes(m: Machine)
    requires Supported(m)
    ensures RoundUp(m.page, m.page) == m.page && RoundUp(BufferSize(m), m.page) == BufferSize(m)
    ensures RoundUp(ENCRYPT_BUF_PAGES * m.page, m.page) == ENCRYPT_BUF_PAGES * m.page
    ensures CompressBufSize(m.page) == 35 * m.page
    ensures RoundUp(CompressBufSize(m.page), m.page) == CompressBufSize(m.page)
    ensures RoundUp(4 * CompressBufSize(m.page), m.page) == 4 * CompressBufSize(m.page)
    ensures RoundUp(4 * BufferSize(m), m.page) == 4 * BufferSize(m)
    ensures RoundUp(m.lzo, m.page) <= m.lzo + m.page
  {
    hide RoundUp;
    var p := m.page;
    RoundUpOfMultiple(1, p);
    RoundUpOfMultiple(32, p);
    RoundUpOfMultiple(256, p);
    RoundUpOfMultiple(35, p);
    RoundUpOfMultiple(140, p);
    RoundUpOfMultiple(128, p);
    RoundUpFacts(m.lzo, p);
    Header(p);
  }

  /** The room for the expansion of a buffer and the size field takes three pages. */
  lemma Header(p: nat)
    requires 128 <= p
    ensures RoundUp(32 * p / 16 + 67 + SIZE_BYTES, p) == 3 * p
  {
    hide RoundUp;
    var x := 2 * p + 75;
    assert 32 * p / 16 + 67 + SIZE_BYTES == x;
    RoundUpFacts(x, p);
    Multiple(3, p);
    RoundUpLeast(x, p, 3 * p);
    var r := RoundUp(x, p);
    assert r == r / p * p;
    Monotone(r / p, 2, p);
    Monotone(3, r / p, p);
  }

  lemma PoolIsSane(m: Machine, budget: nat)
    requires Supported(m) && budget + 2 * m.page <= WORD
    ensures var c := PoolFor(m, budget);
            Sane(c) && Good(c, []) && budget <= c.size && c.slots >= 8
  {
    hide RoundUp;
    RoundUpFacts(budget, m.page);
    Sizes(m);
    EmptyGood(PoolFor(m, budget));
  }

  lemma Need2(p: nat, a: nat, b: nat)
    requires p > 0
    ensures Need(p, [a, b]) == RoundUp(a, p) + RoundUp(b, p)
  {
    assert [a, b][1..] == [b];
    Need1(p, b);
  }

  lemma Need1(p: nat, a: nat)
    requires p > 0
    ensures Need(p, [a]) == RoundUp(a, p)
  {
    assert [a][1..] == [];
  }

  lemma {:induction false} NeedConcat(p: nat, a: seq<nat>, b: seq<nat>)
    requires p > 0
    ensures Need(p, a + b) == Need(p, a) + Need(p, b)
    decreases |a|
  {
    if a == [] {
      assert a + b == b;
    } else {
      assert (a + b)[1..] == a[1..] + b;
      NeedConcat(p, a[1..], b);
    }
  }

  /** What the writer needs beside the header. */
  lemma WriterNeed(m: Machine, f: Flags)
    requires Supported(m)
    ensures Need(m.page, WriterSizes(m, f)) + m.page <= SuspendBudget(m, f)
  {
    hide RoundUp, CompressBufSize;
    var p := m.page;
    Sizes(m);
    var base := [m.page, BufferSize(m)];
    var enc := if f.encrypt then [ENCRYPT_BUF_PAGES * m.page] else [];
    var last := if f.compress then
         [m.lzo, if f.threads then CompressBufSize(m.page) + (WRITE_BUFFERS - 1) * CompressBufSize(m.page)
                 else CompressBufSize(m.page)]
       else if f.threads then [BufferSize(m) * WRITE_BUFFERS]
       else [];
    assert WriterSizes(m, f) == base + enc + last;
    NeedConcat(p, base + enc, last);
    NeedConcat(p, base, enc);
    Need2(p, m.page, BufferSize(m));
    Need1(p, ENCRYPT_BUF_PAGES * m.page);
    Need1(p, BufferSize(m) * WRITE_BUFFERS);
    Need2(p, m.lzo, CompressBufSize(m.page) + (WRITE_BUFFERS - 1) * CompressBufSize(m.page));
    Need2(p, m.lzo, CompressBufSize(m.page));
  }

  lemma ReaderNeed(m: Machine, f: Flags)
    requires Supported(m)
    ensures Need(m.page, ReaderSizes(m, f)) ==
            33 * m.page + (if f.encrypt then m.page else 0)
            + (if f.compress then CompressBufSize(m.page) + RoundUp(m.lzo, m.page) else 0)
  {
    hide RoundUp, CompressBufSize;
    var p := m.page;
    Sizes(m);
    var base := [m.page, BufferSize(m)];
    var enc := if f.encrypt then [m.page] else [];
    var last := if f.compress then [CompressBufSize(m.page), m.lzo] else [];
    assert ReaderSizes(m, f) == base + enc + last;
    NeedConcat(p, base + enc, last);
    NeedConcat(p, base, enc);
    Need2(p, m.page, BufferSize(m));
    Need1(p, m.page);
    Need2(p, CompressBufSize(m.page), m.lzo);
  }

  lemma BudgetBound(m: Machine, f: Flags)
    requires Supported(m)
    ensures SuspendBudget(m, f) + 2 * m.page <= WORD && ResumeBudget(m, f) + 2 * m.page <= WORD
  {
    hide RoundUp, CompressBufSize;
    Sizes(m);
  }

  ghost predicate AllPositive(sizes: seq<nat>) {
    forall k :: 0 <= k < |sizes| ==> sizes[k] > 0
  }

  lemma SizesPositive(m: Machine, f: Flags)
    requires Supported(m)
    ensures AllPositive(WriterSizes(m, f)) && |WriterSizes(m, f)| <= 5
    ensures AllPositive(ReaderSizes(m, f)) && |ReaderSizes(m, f)| <= 5
  {
    hide RoundUp, CompressBufSize;
    Sizes(m);
  }

  /** The header page is the first block. */
  lemma HeaderFirst(c: Pool)
    requires Sane(c) && c.page <= c.size && 0 < c.slots
    ensures Good(c, [Slot(0, c.page)]) && Top(c, [Slot(0, c.page)]) == c.page
    ensures Fits(c, [], c.page) && Get(c, [], c.page) == [Slot(0, c.page)]
  {
    RoundUpOfMultiple(1, c.page);
    hide RoundUp;
    EmptyGood(c);
    GetKeeps(c, [], c.page);
  }

  /** What is left after some blocks are freed. */
  lemma {:induction false} FreeEachLive(c: Pool, s: seq<Slot>, order: seq<int>)
    requires c.page > 0 && Good(c, s)
    ensures Good(c, FreeEach(s, order))
    ensures forall x :: x in Live(FreeEach(s, order)) <==> x in Live(s) && x.at !in order
    decreases |order|
  {
    hide Free, Good, Live;
    if order != [] {
      FreeKeeps(c, s, order[0]);
      FreeEachLive(c, Free(s, order[0]), order[1..]);
      assert order == [order[0]] + order[1..];
    }
  }

  lemma Lower(r: seq<Slot>, j: nat, k: nat)
    requires Ascending(r) && j < k < |r|
    ensures r[j].at < r[k].at
  {
  }

  lemma AtTheBottom(r: seq<Slot>)
    requires Ascending(r) && r != [] && r[|r| - 1].at == 0
    ensures |r| == 1
  {
    if |r| > 1 { Lower(r, 0, |r| - 1); }
  }

  /** Freeing everything but the header, in any order, leaves just the header. */
  lemma OnlyHeaderLeft(c: Pool, s: seq<Slot>, order: seq<int>)
    requires Sane(c) && Good(c, s) && [Slot(0, c.page)] <= s
    requires 0 !in order && forall k :: 1 <= k < |s| ==> s[k].at in order
    ensures FreeEach(s, order) == [Slot(0, c.page)]
  {
    hide PowerOfTwo;
    FreeEachLive(c, s, order);
    var r := FreeEach(s, order);
    var h := Slot(0, c.page);
    assert s[0] == h && h in Live(s) && h in Live(r);
    LastLives(c, r);
    var last := r[|r| - 1];
    assert last in Live(s);
    var k :| 0 <= k < |s| && s[k] == last;
    assert k == 0;
    AtTheBottom(r);
    assert r == [h];
  }

  /** One call of write_image: the header and the writer's buffers are all there;
      once the writer's are freed, in whatever order, so are those of the
      verification pass; and when these and the header are freed too, the pool is
      as new for a second attempt. */
  lemma {:induction false} SuspendBudgetSuffices(m: Machine, f: Flags, order: seq<int>, order2: seq<int>)
    requires Supported(m)
    ensures var c := PoolFor(m, SuspendBudget(m, f));
            var writer := GetAll(c, [], [m.page] + WriterSizes(m, f));
            writer.Some? && (
              0 !in order && (forall k :: 1 <= k < |writer.value| ==> writer.value[k].at in order) ==>
                var reader := GetAll(c, FreeEach(writer.value, order), ReaderSizes(m, f));
                reader.Some? && (
                  (forall x :: x in Live(reader.value) ==> x.at in order2) ==>
                    FreeEach(reader.value, order2) == []))
  {
    hide RoundUp, PowerOfTwo, Good, FreeEach, Alignment, Live, Fits, SuspendBudget, WriterSizes, ReaderSizes;
    var c := PoolFor(m, SuspendBudget(m, f));
    BudgetBound(m, f);
    PoolIsSane(m, SuspendBudget(m, f));
    WriterNeed(m, f);
    ReaderFitsToo(m, f);
    SizesPositive(m, f);
    HeaderFirst(c);
    AllFit(c, [Slot(0, c.page)], WriterSizes(m, f));
    StartWithHeader(c, WriterSizes(m, f));
    var s := GetAll(c, [], [m.page] + WriterSizes(m, f)).value;
    if 0 !in order && forall k :: 1 <= k < |s| ==> s[k].at in order {
      OnlyHeaderLeft(c, s, order);
      AllFit(c, [Slot(0, c.page)], ReaderSizes(m, f));
      var r := GetAll(c, [Slot(0, c.page)], ReaderSizes(m, f)).value;
      if forall x :: x in Live(r) ==> x.at in order2 {
        FreeingAllRestores(c, r, order2);
      }
    }
  }

  lemma StartWithHeader(c: Pool, sizes: seq<nat>)
    requires c.page > 0 && Fits(c, [], c.page) && Get(c, [], c.page) == [Slot(0, c.page)]
    ensures GetAll(c, [], [c.page] + sizes) == GetAll(c, [Slot(0, c.page)], sizes)
  {
    hide Fits, Get;
    assert ([c.page] + sizes)[1..] == sizes;
  }

  lemma ReaderFitsToo(m: Machine, f: Flags)
    requires Supported(m)
    ensures Need(m.page, ReaderSizes(m, f)) + m.page <= SuspendBudget(m, f)
    ensures Need(m.page, ReaderSizes(m, f)) + m.page <= ResumeBudget(m, f)
  {
    hide RoundUp, CompressBufSize;
    Sizes(m);
    ReaderNeed(m, f);
  }

  /** resume: the header, then the buffers for the key of an encrypted image, freed
      again, then the reader's.  The image may use what resume was built with. */
  lemma {:induction false} ResumeBudgetSuffices(m: Machine, built: Flags, image: Flags, order: seq<int>)
    requires Supported(m) && (image.compress ==> built.compress) && (image.encrypt ==> built.encrypt)
    ensures var c := PoolFor(m, ResumeBudget(m, built));
            var keys := GetAll(c, [], [m.page, PK_KEY_SIZE, PK_CIPHER_BLOCK, KEY_TEST_SIZE]);
            && GetAll(c, [], [m.page] + ReaderSizes(m, image)).Some?
            && keys.Some? && (
              0 !in order && (forall k :: 1 <= k < |keys.value| ==> keys.value[k].at in order) ==>
                GetAll(c, FreeEach(keys.value, order), ReaderSizes(m, image)).Some?)
  {
    hide RoundUp, PowerOfTwo, Good, FreeEach, Alignment, Live, Fits, ReaderSizes;
    var c := PoolFor(m, ResumeBudget(m, built));
    var h := [Slot(0, c.page)];
    var keySizes := [PK_KEY_SIZE, PK_CIPHER_BLOCK, KEY_TEST_SIZE];
    BudgetBound(m, built);
    PoolIsSane(m, ResumeBudget(m, built));
    ImageNeed(m, built, image);
    SizesPositive(m, image);
    HeaderFirst(c);
    AllFit(c, h, ReaderSizes(m, image));
    StartWithHeader(c, ReaderSizes(m, image));
    KeyNeed(m);
    AllFit(c, h, keySizes);
    StartWithHeader(c, keySizes);
    assert [m.page, PK_KEY_SIZE, PK_CIPHER_BLOCK, KEY_TEST_SIZE] == [m.page] + keySizes;
    var s := GetAll(c, h, keySizes).value;
    if 0 !in order && forall k :: 1 <= k < |s| ==> s[k].at in order {
      OnlyHeaderLeft(c, s, order);
    }
  }

  lemma KeyNeed(m: Machine)
    requires Supported(m)
    ensures Need(m.page, [PK_KEY_SIZE, PK_CIPHER_BLOCK, KEY_TEST_SIZE]) <= 3 * m.page
  {
    hide RoundUp;
    var p := m.page;
    Multiple(1, p);
    RoundUpLeast(16, p, p);
    RoundUpLeast(8, p, p);
    assert [16, 16, 8] == [16] + [16, 8];
    NeedConcat(p, [16], [16, 8]);
    Need1(p, 16);
    Need2(p, 16, 8);
  }

  lemma ImageNeed(m: Machine, built: Flags, image: Flags)
    requires Supported(m) && (image.compress ==> built.compress) && (image.encrypt ==> built.encrypt)
    ensures Need(m.page, ReaderSizes(m, image)) + m.page <= ResumeBudget(m, built)
    ensures 34 * m.page <= ResumeBudget(m, built)
  {
    hide RoundUp, CompressBufSize;
    Sizes(m);
    ReaderNeed(m, image);
  }
}
