/** The pool allocator: memory is handed out from a preallocated pool in address
    order; freeing marks a slot, and drops it once nothing lives above it. */
module MemPool {
  import opened Utils

  /** A block, by its distance from the start of the pool.  size is 0 once freed. */
  datatype Slot = Slot(at: nat, size: nat)

  datatype Pool = Pool(size: nat, page: nat, slots: nat)

  const ALIGN_QWORD: nat := 8
  const SLOT_SIZE: nat := 16
  const WORD: int := 0x1_0000_0000

  ghost predicate PowerOfTwo(n: nat)
    decreases n
  {
    n == 1 || (n > 0 && n % 2 == 0 && PowerOfTwo(n / 2))
  }

  ghost predicate Sane(c: Pool) {
    PowerOfTwo(c.page) && ALIGN_QWORD <= c.page && c.size % c.page == 0 && c.size + c.page <= WORD
  }

  /** align_size: doubled from `a` until it covers `size`. */
  function AlignSize(a: nat, size: nat): (r: nat)
    requires a > 0
    ensures r >= a
    decreases size - a
  {
    if a < size then AlignSize(2 * a, size) else a
  }

  /** The alignment of a block: a page, or the least power of two that covers it. */
  function Alignment(page: nat, size: nat): (a: nat)
    requires page > 0
    ensures a > 0
  {
    if size >= page then page else AlignSize(ALIGN_QWORD, size)
  }

  /** Where the next block starts.  Below a page the mask is an unsigned int, so
      the sum is cut to 32 bits. */
  function NextUsed(c: Pool, s: seq<Slot>, size: nat): nat
    requires c.page > 0
  {
    if s == [] then 0
    else
      var end := s[|s| - 1].at + s[|s| - 1].size;
      RoundUp(end, Alignment(c.page, size)) % (if size >= c.page then WORD * WORD else WORD)
  }

  /** Whether getmem finds room. */
  predicate Fits(c: Pool, s: seq<Slot>, size: nat)
    requires c.page > 0
  {
    |s| < c.slots && NextUsed(c, s, size) <= c.size && size <= c.size - NextUsed(c, s, size)
  }

  function Get(c: Pool, s: seq<Slot>, size: nat): seq<Slot>
    requires c.page > 0
  {
    if Fits(c, s, size) then s + [Slot(NextUsed(c, s, size), size)] else s
  }

  function Trim(s: seq<Slot>): (r: seq<Slot>)
    ensures |r| <= |s| && r == s[..|r|]
    ensures r != [] ==> r[|r| - 1].size > 0
    ensures forall k :: |r| <= k < |s| ==> s[k].size == 0
    decreases |s|
  {
    if s != [] && s[|s| - 1].size == 0 then Trim(s[..|s| - 1]) else s
  }

  /** Slot k freed: only the last one takes itself, and the freed ones below it,
      off the list. */
  function FreeSlot(s: seq<Slot>, k: nat): seq<Slot>
    requires k < |s|
  {
    if k == |s| - 1 then Trim(s[..k]) else s[k := s[k].(size := 0)]
  }

  /** The slot a linear search finds. */
  function Find(s: seq<Slot>, at: int): (r: Option<nat>)
    ensures r.Some? ==> r.value < |s| && s[r.value].at == at
    ensures r.None? ==> forall k :: 0 <= k < |s| ==> s[k].at != at
    decreases |s|
  {
    if s == [] then None
    else if s[|s| - 1].at == at then Some(|s| - 1)
    else Find(s[..|s| - 1], at)
  }

  function Free(s: seq<Slot>, at: int): seq<Slot> {
    match Find(s, at)
    case None => s
    case Some(k) => FreeSlot(s, k)
  }

  // ---------------------------------------------------------------------
  // What every sequence of calls keeps.

  ghost predicate Inside(c: Pool, s: seq<Slot>) {
    forall x :: x in s ==> x.at + x.size <= c.size
  }

  /** Each slot lies below all later ones. */
  ghost predicate Ascending(s: seq<Slot>) {
    forall j, k :: 0 <= j < k < |s| ==> s[j].at < s[k].at && s[j].at + s[j].size <= s[k].at
  }

  ghost predicate Aligned(c: Pool, x: Slot)
    requires c.page > 0
  {
    x.size > 0 ==> x.at % Alignment(c.page, x.size) == 0
  }

  ghost predicate Good(c: Pool, s: seq<Slot>)
    requires c.page > 0
  {
    && Inside(c, s) && Ascending(s) && |s| <= c.slots
    && (forall x :: x in s ==> Aligned(c, x))
    && (s != [] ==> s[|s| - 1].size > 0)
  }

  ghost function Live(s: seq<Slot>): set<Slot> {
    set x | x in s && x.size > 0
  }

  // ---------------------------------------------------------------------
  // Rounding and powers of two.

  lemma Multiple(q: int, a: int)
    requires a > 0
    ensures q * a % a == 0
  {
    var x := q * a;
    var d := x / a;
    assert x == d * a + x % a;
    assert (q - d) * a == x % a;
    MulBound(q - d, a);
  }

  lemma RoundUpFacts(x: nat, a: nat)
    requires a > 0
    ensures x <= RoundUp(x, a) < x + a && RoundUp(x, a) % a == 0
  {
    var q := (x + a - 1) / a;
    assert q * a <= x + a - 1 < q * a + a;
    Multiple(q, a);
  }

  /** The smaller of two powers of two divides the larger. */
  lemma {:induction false} PowersDivide(a: nat, p: nat)
    requires PowerOfTwo(a) && PowerOfTwo(p) && a <= p
    ensures a > 0 && p % a == 0
    decreases p
  {
    if a < p && p != 1 {
      HalfIsEnough(a, p);
      PowersDivide(a, p / 2);
      var h := p / 2;
      assert p == 2 * h && h == h / a * a;
      Multiple(2 * (h / a), a);
      assert 2 * (h / a) * a == p;
    } else {
      Multiple(1, a);
    }
  }

  lemma {:induction false} HalfIsEnough(a: nat, p: nat)
    requires PowerOfTwo(a) && PowerOfTwo(p) && a < p
    ensures a <= p / 2
    decreases p
  {
    if a > 1 { HalfIsEnough(a / 2, p / 2); }
  }

  /** align_size is the least power of two, from `a` on, that covers the size. */
  lemma {:induction false} AlignSizeIsLeast(a: nat, size: nat, page: nat)
    requires PowerOfTwo(a) && PowerOfTwo(page) && a <= page && size <= page
    ensures var r := AlignSize(a, size);
            && PowerOfTwo(r) && a <= r <= page && size <= r
            && (forall p: nat :: PowerOfTwo(p) && a <= p && size <= p ==> r <= p)
    decreases page - a
  {
    if a < size {
      assert 2 * a / 2 == a && 2 * a % 2 == 0;
      HalfIsEnough(a, page);
      AlignSizeIsLeast(2 * a, size, page);
      forall p: nat | PowerOfTwo(p) && a <= p && size <= p ensures AlignSize(a, size) <= p {
        HalfIsEnough(a, p);
      }
    }
  }

  /** The alignment divides the page size, so a block at an aligned distance from
      a page-aligned pool has an aligned address. */
  lemma AlignmentIsLeast(page: nat, size: nat)
    requires PowerOfTwo(page) && 8 <= page
    ensures var a := Alignment(page, size);
            && PowerOfTwo(a) && 8 <= a <= page && page % a == 0 && (size <= page ==> size <= a)
            && (forall p: nat :: PowerOfTwo(p) && 8 <= p <= page && (size <= p || p == page) ==> a <= p)
  {
    assert PowerOfTwo(8) by { assert PowerOfTwo(4) by { assert PowerOfTwo(2); } }
    if size < page { AlignSizeIsLeast(8, size, page); }
    PowersDivide(Alignment(page, size), page);
    forall p: nat | PowerOfTwo(p) && ALIGN_QWORD <= p <= page && (size <= p || p == page)
      ensures Alignment(page, size) <= p
    {
    }
  }

  lemma AlignedAddress(base: int, page: int, at: int, a: int)
    requires a > 0 && page > 0 && page % a == 0 && base % page == 0 && at % a == 0
    ensures (base + at) % a == 0
  {
    var b, p, t := base / page, page / a, at / a;
    assert base == b * page && page == p * a && at == t * a;
    CommonFactor(b, p, t, a);
    Multiple(b * p + t, a);
  }

  lemma CommonFactor(b: int, p: int, t: int, a: int)
    ensures b * (p * a) + t * a == (b * p + t) * a
  {
  }

  // ---------------------------------------------------------------------
  // getmem.

  /** The next block goes after the last one, and is aligned. */
  lemma NextIsAligned(c: Pool, s: seq<Slot>, size: nat)
    requires Sane(c) && Good(c, s)
    ensures var u := NextUsed(c, s, size);
            && Aligned(c, Slot(u, size))
            && (s != [] ==> s[|s| - 1].at + s[|s| - 1].size <= u)
  {
    AlignmentIsLeast(c.page, size);
    if s == [] {
      Multiple(0, Alignment(c.page, size));
    } else {
      hide Alignment, Ascending, RoundUp;
      assert s[|s| - 1] in s;
      var end := s[|s| - 1].at + s[|s| - 1].size;
      NoWrap(end, Alignment(c.page, size), c);
    }
  }

  lemma NoWrap(end: nat, a: nat, c: Pool)
    requires a > 0 && end <= c.size && a <= c.page && c.size + c.page <= WORD
    ensures end <= RoundUp(end, a) && RoundUp(end, a) % a == 0
    ensures RoundUp(end, a) % WORD == RoundUp(end, a) && RoundUp(end, a) % (WORD * WORD) == RoundUp(end, a)
  {
    hide RoundUp;
    RoundUpFacts(end, a);
  }

  /** getmem finds room exactly when there is a slot left and some aligned place above all
      blocks from where the block fits the pool; it takes the lowest such place. */
  lemma {:induction false} GetExactly(c: Pool, s: seq<Slot>, size: nat)
    requires Sane(c) && Good(c, s)
    ensures var end := if s == [] then 0 else s[|s| - 1].at + s[|s| - 1].size;
            var a := Alignment(c.page, size);
            && (Fits(c, s, size) <==>
                  |s| < c.slots && exists at: nat :: end <= at && at % a == 0 && at + size <= c.size)
            && (forall at: nat :: end <= at && at % a == 0 ==> NextUsed(c, s, size) <= at)
            && end <= NextUsed(c, s, size) && NextUsed(c, s, size) % a == 0
  {
    hide Alignment, Ascending, Inside, Fits, NextUsed;
    var end := if s == [] then 0 else s[|s| - 1].at + s[|s| - 1].size;
    var a := Alignment(c.page, size);
    NextIs(c, s, size);
    forall at: nat | end <= at && at % a == 0 ensures NextUsed(c, s, size) <= at {
      LeastMultiple(end, a, at);
    }
    FitsIs(c, s, size);
  }

  lemma NextIs(c: Pool, s: seq<Slot>, size: nat)
    requires Sane(c) && Good(c, s)
    ensures var end := if s == [] then 0 else s[|s| - 1].at + s[|s| - 1].size;
            NextUsed(c, s, size) == RoundUp(end, Alignment(c.page, size))
            && end <= NextUsed(c, s, size) && NextUsed(c, s, size) % Alignment(c.page, size) == 0
  {
    hide Alignment, Ascending, RoundUp;
    AlignmentIsLeast(c.page, size);
    if s == [] {
      NothingUp(Alignment(c.page, size));
    } else {
      assert s[|s| - 1] in s;
      NoWrap(s[|s| - 1].at + s[|s| - 1].size, Alignment(c.page, size), c);
    }
  }

  lemma NothingUp(a: nat)
    requires a > 0
    ensures RoundUp(0, a) == 0 && 0 % a == 0
  {
    Quotient(a - 1, 0, a);
    Multiple(0, a);
  }

  lemma LeastMultiple(end: nat, a: nat, at: nat)
    requires a > 0 && end <= at && at % a == 0
    ensures RoundUp(end, a) <= at
  {
    var q, k := (end + a - 1) / a, at / a;
    assert at == k * a;
    assert end + a - 1 == q * a + (end + a - 1) % a;
    assert (q - k) * a == q * a - k * a;
    MulBound(q - k, a);
  }

  lemma FitsIs(c: Pool, s: seq<Slot>, size: nat)
    requires c.page > 0
    ensures Fits(c, s, size) <==> |s| < c.slots && NextUsed(c, s, size) + size <= c.size
  {
  }

  /** A block that getmem hands out is new, and everything stays well formed. */
  lemma {:induction false} GetKeeps(c: Pool, s: seq<Slot>, size: nat)
    requires Sane(c) && Good(c, s) && size > 0
    ensures Good(c, Get(c, s, size))
    ensures Fits(c, s, size) ==>
              var b := Slot(NextUsed(c, s, size), size);
              Live(Get(c, s, size)) == Live(s) + {b} && b !in Live(s)
  {
    hide Aligned, NextUsed;
    NextIsAligned(c, s, size);
    if Fits(c, s, size) {
      var b := Slot(NextUsed(c, s, size), size);
      Append(c, s, b);
      assert Get(c, s, size) == s + [b];
    }
  }

  lemma Append(c: Pool, s: seq<Slot>, b: Slot)
    requires c.page > 0 && Good(c, s) && |s| < c.slots && b.size > 0 && Aligned(c, b)
    requires b.at + b.size <= c.size
    requires s != [] ==> s[|s| - 1].at + s[|s| - 1].size <= b.at
    ensures Good(c, s + [b]) && Live(s + [b]) == Live(s) + {b} && b !in Live(s)
  {
    hide Aligned;
    var t := s + [b];
    forall k | 0 <= k < |s| ensures s[k].at < b.at && s[k].at + s[k].size <= b.at {
      if k < |s| - 1 { assert s[k].at < s[|s| - 1].at && s[k].at + s[k].size <= s[|s| - 1].at; }
    }
    forall x | x in t ensures Aligned(c, x) {
      assert x in s || x == b;
    }
    assert forall x :: x in t <==> x in s || x == b;
  }

  // ---------------------------------------------------------------------
  // freemem.

  /** A prefix whose last slot lives is well formed too. */
  lemma PrefixGood(c: Pool, s: seq<Slot>, n: nat)
    requires c.page > 0 && Good(c, s) && n <= |s| && (n > 0 ==> s[n - 1].size > 0)
    ensures Good(c, s[..n])
  {
    hide Aligned;
    forall x | x in s[..n] ensures x in s { }
  }

  lemma FreeSlotKeeps(c: Pool, s: seq<Slot>, k: nat)
    requires c.page > 0 && Good(c, s) && k < |s|
    ensures Good(c, FreeSlot(s, k))
    ensures forall x :: x in Live(FreeSlot(s, k)) <==> x in Live(s) && x != s[k]
  {
    hide Good;
    if k == |s| - 1 {
      DropLast(c, s);
    } else {
      Mark(c, s, k);
    }
  }

  lemma DropLast(c: Pool, s: seq<Slot>)
    requires c.page > 0 && Good(c, s) && s != []
    ensures var r := Trim(s[..|s| - 1]);
            Good(c, r) && forall x :: x in Live(r) <==> x in Live(s) && x != s[|s| - 1]
  {
    hide Aligned, Inside;
    var k := |s| - 1;
    var r := Trim(s[..k]);
    assert r == s[..|r|];
    PrefixGood(c, s, |r|);
    hide Good;
    forall x | x in Live(s) && x != s[k] ensures x in r {
      var j :| 0 <= j < |s| && s[j] == x;
      assert s[..k][j] == x;
      assert r[j] == x;
    }
    forall x | x in r ensures x in s && x != s[k] {
      var j :| 0 <= j < |r| && r[j] == x;
      assert s[j] == x && s[j].at < s[k].at;
    }
  }

  lemma Mark(c: Pool, s: seq<Slot>, k: nat)
    requires c.page > 0 && Good(c, s) && k < |s| - 1
    ensures var t := s[k := s[k].(size := 0)];
            Good(c, t) && forall x :: x in Live(t) <==> x in Live(s) && x != s[k]
  {
    hide Alignment;
    MarkGood(c, s, k);
    MarkLive(s, k);
  }

  lemma MarkGood(c: Pool, s: seq<Slot>, k: nat)
    requires c.page > 0 && Good(c, s) && k < |s| - 1
    ensures Good(c, s[k := s[k].(size := 0)])
  {
    hide Alignment;
    var t := s[k := s[k].(size := 0)];
    assert s[k] in s;
    forall x | x in t ensures x == t[k] || x in s { }
  }

  lemma MarkLive(s: seq<Slot>, k: nat)
    requires Ascending(s) && k < |s|
    ensures forall x :: x in Live(s[k := s[k].(size := 0)]) <==> x in Live(s) && x != s[k]
  {
    var t := s[k := s[k].(size := 0)];
    forall x | x in s && x != s[k] ensures x in t {
      var j :| 0 <= j < |s| && s[j] == x;
      assert t[j] == x;
    }
    forall x | x in Live(t) ensures x in s && x != s[k] {
      var j :| 0 <= j < |t| && t[j] == x;
      assert j != k && s[j] == x;
      assert s[j].at != s[k].at;
    }
  }

  lemma UniqueAddress(s: seq<Slot>, j: nat, k: nat)
    requires Ascending(s) && j < |s| && k < |s| && s[j].at == s[k].at
    ensures j == k
  {
  }

  /** freemem takes away the live block at that address and no other; at any other
      address it changes nothing. */
  lemma {:induction false} FreeKeeps(c: Pool, s: seq<Slot>, at: int)
    requires c.page > 0 && Good(c, s)
    ensures Good(c, Free(s, at))
    ensures forall x :: x in Live(Free(s, at)) <==> x in Live(s) && x.at != at
    ensures (forall x :: x in Live(s) ==> x.at != at) ==> Free(s, at) == s
  {
    match Find(s, at)
    case None =>
    case Some(k) => FreeFound(c, s, k);
  }

  /** The slots that stay keep their place and address, and all but the freed one their
      size; those that go are freed ones at the end.  The list is as long as it has to be. */
  lemma {:induction false} SlotsAfterFree(c: Pool, s: seq<Slot>, at: int)
    requires c.page > 0 && Good(c, s)
    ensures var r := Free(s, at);
            && |r| <= |s|
            && (forall k :: 0 <= k < |r| ==>
                  r[k].at == s[k].at && r[k].size == if s[k].at == at then 0 else s[k].size)
            && (forall k :: |r| <= k < |s| ==> s[k].size == 0 || s[k].at == at)
            && (r != [] ==> r[|r| - 1].size > 0)
  {
    hide Aligned, Inside;
    FreeGood(c, s, at);
    match Find(s, at)
    case None =>
    case Some(k) =>
      forall j | 0 <= j < |s| && s[j].at == at ensures j == k { UniqueAddress(s, j, k); }
  }

  lemma FreeFound(c: Pool, s: seq<Slot>, k: nat)
    requires c.page > 0 && Good(c, s) && k < |s|
    ensures var r := FreeSlot(s, k);
            && Good(c, r)
            && (forall x :: x in Live(r) <==> x in Live(s) && x.at != s[k].at)
            && (s[k] !in Live(s) ==> r == s)
  {
    hide Aligned, Inside;
    FreeSlotKeeps(c, s, k);
    forall x | x in Live(s) && x.at == s[k].at ensures x == s[k] {
      var j :| 0 <= j < |s| && s[j] == x;
      UniqueAddress(s, j, k);
    }
    if s[k] !in Live(s) {
      assert s[k] in s;
      assert s[k].(size := 0) == s[k];
    }
  }

  // ---------------------------------------------------------------------
  // Every sequence of calls.

  datatype Call = GetMem(size: nat) | FreeMem(at: int)

  /** The list after a sequence of calls, from a fresh pool. */
  function Run(c: Pool, calls: seq<Call>): seq<Slot>
    requires c.page > 0
    decreases |calls|
  {
    if calls == [] then []
    else
      var s := Run(c, calls[..|calls| - 1]);
      match calls[|calls| - 1]
      case GetMem(size) => Get(c, s, size)
      case FreeMem(at) => Free(s, at)
  }

  ghost predicate PositiveSizes(calls: seq<Call>) {
    forall k :: 0 <= k < |calls| && calls[k].GetMem? ==> calls[k].size > 0
  }

  lemma {:induction false} RunKeeps(c: Pool, calls: seq<Call>)
    requires Sane(c) && PositiveSizes(calls)
    ensures Good(c, Run(c, calls))
    decreases |calls|
  {
    hide Good, Get, Free;
    if calls == [] {
      EmptyGood(c);
    } else {
      var before := calls[..|calls| - 1];
      RunKeeps(c, before);
      match calls[|calls| - 1]
      case GetMem(size) => GetKeeps(c, Run(c, before), size);
      case FreeMem(at) => FreeKeeps(c, Run(c, before), at);
    }
  }

  lemma EmptyGood(c: Pool)
    requires c.page > 0
    ensures Good(c, [])
  {
  }

  /** After every sequence of calls the live blocks lie inside the pool, are
      aligned, and no two of them overlap. */
  lemma LiveBlocksDisjoint(c: Pool, calls: seq<Call>, x: Slot, y: Slot)
    requires Sane(c) && PositiveSizes(calls)
    requires x in Live(Run(c, calls)) && y in Live(Run(c, calls)) && x != y
    ensures x.at + x.size <= c.size && x.at % Alignment(c.page, x.size) == 0
    ensures x.at + x.size <= y.at || y.at + y.size <= x.at
  {
    hide Run, Alignment;
    RunKeeps(c, calls);
    var s := Run(c, calls);
    var j :| 0 <= j < |s| && s[j] == x;
    var k :| 0 <= k < |s| && s[k] == y;
    assert j < k || k < j;
  }

  lemma LastLives(c: Pool, s: seq<Slot>)
    requires c.page > 0 && Good(c, s)
    ensures s != [] ==> s[|s| - 1] in Live(s)
  {
  }

  function FreeEach(s: seq<Slot>, order: seq<int>): seq<Slot>
    decreases |order|
  {
    if order == [] then s else FreeEach(Free(s, order[0]), order[1..])
  }

  /** Freeing every live block, in any order and among any other addresses, takes
      the allocator back to where it started. */
  lemma {:induction false} FreeingAllRestores(c: Pool, s: seq<Slot>, order: seq<int>)
    requires c.page > 0 && Good(c, s)
    requires forall x :: x in Live(s) ==> x.at in order
    ensures FreeEach(s, order) == []
    decreases |order|
  {
    hide Free, Alignment;
    if order == [] {
      LastLives(c, s);
    } else {
      var t := Free(s, order[0]);
      FreeKeeps(c, s, order[0]);
      forall x | x in Live(t) ensures x.at in order[1..] {
        assert x in Live(s);
        var j :| 0 <= j < |order| && order[j] == x.at;
        assert order[1..][j - 1] == x.at;
      }
      FreeingAllRestores(c, t, order[1..]);
    }
  }

  // ---------------------------------------------------------------------
  // The allocator itself.

  lemma FindIs(s: seq<Slot>, k: nat)
    requires Ascending(s) && k < |s|
    ensures Free(s, s[k].at) == FreeSlot(s, k)
  {
    hide FreeSlot;
    var f := Find(s, s[k].at);
    if f.Some? { UniqueAddress(s, f.value, k); }
  }

  lemma FindsNone(s: seq<Slot>, at: int)
    requires forall k :: 0 <= k < |s| ==> s[k].at != at
    ensures Free(s, at) == s
  {
  }

  lemma TrimOne(s: seq<Slot>, n: nat)
    requires 0 < n <= |s| && s[n - 1].size == 0
    ensures Trim(s[..n]) == Trim(s[..n - 1])
  {
    assert s[..n][..n - 1] == s[..n - 1];
  }

  lemma FreeGood(c: Pool, s: seq<Slot>, at: int)
    requires c.page > 0 && Good(c, s)
    ensures Good(c, Free(s, at))
  {
    FreeKeeps(c, s, at);
  }

  lemma SlotsAscend(c: Pool, s: seq<Slot>)
    requires c.page > 0 && Good(c, s)
    ensures Ascending(s)
  {
  }

  /** The page-aligned address where the pool starts. */
  function PageUp(mem: nat, page: nat): (start: nat)
    requires page > 0
    ensures mem <= start < mem + page && start % page == 0
  {
    var addr := mem / page * page;
    Multiple(mem / page, page);
    Multiple(mem / page + 1, page);
    assert addr + page == (mem / page + 1) * page;
    if addr < mem then addr + page else addr
  }

  class Allocator {
    const memPool: nat
    const poolSize: nat
    const pageSize: nat
    const slots: array<Slot>
    var curSlot: nat

    ghost function Config(): Pool {
      Pool(poolSize, pageSize, slots.Length)
    }

    ghost function Slots(): seq<Slot>
      reads this, slots
    {
      if curSlot <= slots.Length then slots[..curSlot] else []
    }

    ghost predicate Valid()
      reads this, slots
    {
      && curSlot <= slots.Length && Sane(Config()) && memPool % pageSize == 0
      && Good(Config(), Slots())
    }

    /** init_memalloc, with `mem` the address of the memory that malloc gave.  The
        slots and the aligned pool lie inside it. */
    constructor (mem: nat, aux: nat, pool: nat, pageSize: nat)
      requires PowerOfTwo(pageSize) && ALIGN_QWORD <= pageSize && pool + 2 * pageSize <= WORD
      ensures Valid() && Slots() == [] && fresh(slots) && this.pageSize == pageSize
      ensures pool <= poolSize < pool + pageSize && slots.Length == RoundUp(aux, pageSize) / 16
      ensures mem + slots.Length * 16 <= memPool
      ensures memPool + poolSize <= mem + RoundUp(aux, pageSize) + poolSize + pageSize
    {
      var slotsSize := RoundUp(aux, pageSize);
      RoundUpFacts(aux, pageSize);
      RoundUpFacts(pool, pageSize);
      this.pageSize := pageSize;
      this.poolSize := RoundUp(pool, pageSize);
      this.slots := new Slot[slotsSize / SLOT_SIZE];
      this.curSlot := 0;
      this.memPool := PageUp(mem + slotsSize, pageSize);
      new;
      EmptyGood(Config());
    }

    /** align_size. */
    method AlignTo(size: nat) returns (alignSize: nat)
      requires pageSize > 0
      ensures alignSize == Alignment(pageSize, size)
    {
      if size >= pageSize {
        alignSize := pageSize;
      } else {
        alignSize := ALIGN_QWORD;
        while alignSize < size
          invariant alignSize > 0 && AlignSize(alignSize, size) == AlignSize(ALIGN_QWORD, size)
          decreases size - alignSize
        {
          alignSize := 2 * alignSize;
        }
      }
    }

    method GetMem(size: nat) returns (address: Option<nat>)
      requires Valid() && size > 0
      modifies this`curSlot, slots
      ensures Valid()
      ensures Slots() == Get(Config(), old(Slots()), size)
      ensures address == if Fits(Config(), old(Slots()), size)
                         then Some(memPool + NextUsed(Config(), old(Slots()), size)) else None
      ensures address.Some? ==> address.value % Alignment(pageSize, size) == 0
    {
      hide Good;
      ghost var c, s := Config(), Slots();
      GetKeeps(c, s, size);
      if curSlot >= slots.Length {
        return None;
      }
      var used := 0;
      if curSlot > 0 {
        var alignSize := AlignTo(size);
        var last := slots[curSlot - 1];
        used := RoundUp(last.at + last.size, alignSize) % (if size >= pageSize then WORD * WORD else WORD);
      }
      assert used == NextUsed(c, s, size);
      if used > poolSize || size > poolSize - used {
        return None;
      }
      slots[curSlot] := Slot(used, size);
      curSlot := curSlot + 1;
      assert Slots() == s + [Slot(used, size)];
      address := Some(memPool + used);
      AlignmentIsLeast(pageSize, size);
      NextIsAligned(c, s, size);
      AlignedAddress(memPool, pageSize, used, Alignment(pageSize, size));
    }

    /** free_slot, with the bound of the array before the read of the size. */
    method FreeSlotAt(slot: nat)
      requires slot < curSlot <= slots.Length
      modifies this`curSlot, slots
      ensures curSlot <= slots.Length && Slots() == FreeSlot(old(Slots()), slot)
    {
      ghost var s := Slots();
      slots[slot] := slots[slot].(size := 0);
      if slot == curSlot - 1 {
        assert slots[..slot] == s[..slot];
        curSlot := SkipFreed(slot);
      } else {
        assert Slots() == s[slot := s[slot].(size := 0)];
      }
    }

    /** The loop of free_slot: down to the last slot that is not freed. */
    method SkipFreed(slot: nat) returns (cur: nat)
      requires slot <= slots.Length
      ensures cur <= slot && slots[..cur] == Trim(slots[..slot])
    {
      var last := slot - 1;
      while last >= 0 && slots[last].size == 0
        invariant -1 <= last < slot
        invariant Trim(slots[..last + 1]) == Trim(slots[..slot])
      {
        TrimOne(slots[..], last + 1);
        assert slots[..][..last + 1] == slots[..last + 1] && slots[..][..last] == slots[..last];
        last := last - 1;
      }
      cur := last + 1;
    }

    /** freemem: a binary search by address. */
    method FreeMem(address: int)
      requires Valid()
      modifies this`curSlot, slots
      ensures Valid() && Slots() == Free(old(Slots()), address - memPool)
    {
      hide Good;
      ghost var c, s := Config(), Slots();
      FreeGood(c, s, address - memPool);
      SlotsAscend(c, s);
      hide Ascending, Free, FreeSlot;
      var k := SearchSlot(address);
      assert Slots() == s;
      if k.Some? {
        FoundIt(c, s, k.value);
        FreeSlotAt(k.value);
      } else {
        FindsNone(s, address - memPool);
      }
    }

    lemma FoundIt(c: Pool, s: seq<Slot>, k: nat)
      requires c.page > 0 && Good(c, s) && k < |s|
      ensures Free(s, s[k].at) == FreeSlot(s, k)
    {
      FindIs(s, k);
    }

    /** The search of freemem. */
    method SearchSlot(address: int) returns (r: Option<nat>)
      requires curSlot <= slots.Length && Ascending(Slots())
      ensures r.Some? ==> r.value < |Slots()| && Slots()[r.value].at == address - memPool
      ensures r.None? ==> forall m :: 0 <= m < |Slots()| ==> Slots()[m].at != address - memPool
    {
      if curSlot == 0 {
        return None;
      }
      ghost var s := Slots();
      var i, j := 0, curSlot - 1;
      while true
        invariant 0 <= i <= j < curSlot
        invariant forall m :: 0 <= m < curSlot && s[m].at == address - memPool ==> i <= m <= j
        decreases j - i
      {
        var k := (i + j) / 2;
        assert slots[k] == s[k] && slots[j] == s[j];
        if memPool + slots[k].at == address {
          return Some(k);
        } else if address > memPool + slots[k].at {
          if i != k {
            i := k;
          } else {
            if memPool + slots[j].at == address {
              return Some(j);
            }
            return None;
          }
        } else {
          j := k;
        }
        if !(i < j) {
          return None;
        }
      }
    }
  }
}
