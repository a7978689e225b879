/** The real-mode memory allocator of vbetool: first fit in an arena of 0x90000
    bytes, with blocks that are split and merged in place. */
module RealMode {
  import opened Utils

  const REAL_MEM_BASE: nat := 0x10000
  const REAL_MEM_SIZE: nat := 0x90000
  const REAL_MEM_BLOCKS: nat := 0x100

  datatype Block = Block(size: nat, free: bool)

  /** An allocated stretch, by its distance from the start of the arena. */
  datatype Region = Region(at: nat, size: nat)

  function Sum(s: seq<Block>): nat
    decreases |s|
  {
    if s == [] then 0 else s[0].size + Sum(s[1..])
  }

  /** The allocated regions, in address order. */
  function Used(s: seq<Block>, at: nat): seq<Region>
    decreases |s|
  {
    if s == [] then []
    else (if s[0].free then [] else [Region(at, s[0].size)]) + Used(s[1..], at + s[0].size)
  }

  function Round16(size: nat): (r: nat)
    ensures size <= r < size + 16 && r % 16 == 0
  {
    (size + 15) / 16 * 16
  }

  /** The first free block that is larger than `size`. */
  function FirstFit(s: seq<Block>, size: nat): (r: Option<nat>)
    ensures r.Some? ==> r.value < |s| && s[r.value].free && size < s[r.value].size
    ensures r.Some? ==> forall j :: 0 <= j < r.value ==> !(s[j].free && size < s[j].size)
    ensures r.None? ==> forall j :: 0 <= j < |s| ==> !(s[j].free && size < s[j].size)
    decreases |s|
  {
    if s == [] then None
    else if s[0].free && size < s[0].size then Some(0)
    else
      match FirstFit(s[1..], size)
      case None => None
      case Some(k) => Some(k + 1)
  }

  /** Block i is split into an allocated one of `size` bytes and the rest. */
  function Split(s: seq<Block>, i: nat, size: nat): seq<Block>
    requires i < |s| && size <= s[i].size
  {
    s[..i] + [Block(size, false), Block(s[i].size - size, s[i].free)] + s[i + 1..]
  }

  function AllocAt(s: seq<Block>, size: nat): Option<nat> {
    if |s| == REAL_MEM_BLOCKS then None else FirstFit(s, Round16(size))
  }

  function Alloc(s: seq<Block>, size: nat): seq<Block> {
    match AllocAt(s, size)
    case None => s
    case Some(i) => Split(s, i, Round16(size))
  }

  /** Blocks i and i + 1 become one. */
  function Merge(s: seq<Block>, i: nat): seq<Block>
    requires i + 1 < |s|
  {
    s[..i] + [s[i].(size := s[i].size + s[i + 1].size)] + s[i + 2..]
  }

  function MergeNext(s: seq<Block>, i: nat): (r: seq<Block>)
    requires i < |s|
    ensures i < |r| <= |s|
  {
    if i + 1 < |s| && s[i + 1].free then Merge(s, i) else s
  }

  function MergePrevious(s: seq<Block>, i: nat): seq<Block>
    requires i < |s|
  {
    if i > 0 && s[i - 1].free then Merge(s, i - 1) else s
  }

  function FreeBlock(s: seq<Block>, i: nat): seq<Block>
    requires i < |s|
  {
    MergePrevious(MergeNext(s[i := s[i].(free := true)], i), i)
  }

  /** The block that starts at distance `at`: the walk of LRMI_free_real. */
  function Walk(s: seq<Block>, at: int): (r: Option<nat>)
    ensures r.Some? ==> r.value < |s|
    decreases |s|
  {
    if s == [] then None
    else if at == 0 then Some(0)
    else
      match Walk(s[1..], at - s[0].size)
      case None => None
      case Some(k) => Some(k + 1)
  }

  function Free(s: seq<Block>, at: int): seq<Block> {
    match Walk(s, at)
    case None => s
    case Some(i) => FreeBlock(s, i)
  }

  // ---------------------------------------------------------------------
  // What every call keeps.

  ghost predicate Sized(s: seq<Block>) {
    forall k :: 0 <= k < |s| ==> s[k].size > 0 && s[k].size % 16 == 0
  }

  ghost predicate NoFreeNeighbours(s: seq<Block>) {
    forall k :: 0 <= k < |s| - 1 ==> !(s[k].free && s[k + 1].free)
  }

  /** The blocks partition the arena into multiples of 16 bytes, no two adjacent
      ones are free, and some block is free. */
  ghost predicate Good(s: seq<Block>) {
    && 0 < |s| <= REAL_MEM_BLOCKS && Sum(s) == REAL_MEM_SIZE && Sized(s) && NoFreeNeighbours(s)
    && (exists k :: 0 <= k < |s| && s[k].free)
  }

  lemma {:induction false} SumConcat(a: seq<Block>, b: seq<Block>)
    ensures Sum(a + b) == Sum(a) + Sum(b)
    decreases |a|
  {
    if a == [] {
      assert a + b == b;
    } else {
      assert (a + b)[1..] == a[1..] + b;
      SumConcat(a[1..], b);
    }
  }

  lemma {:induction false} UsedConcat(a: seq<Block>, b: seq<Block>, at: nat)
    ensures Used(a + b, at) == Used(a, at) + Used(b, at + Sum(a))
    decreases |a|
  {
    if a == [] {
      assert a + b == b;
    } else {
      assert (a + b)[1..] == a[1..] + b;
      UsedConcat(a[1..], b, at + a[0].size);
    }
  }

  lemma Sum1(a: Block, at: nat)
    ensures Sum([a]) == a.size
    ensures Used([a], at) == if a.free then [] else [Region(at, a.size)]
  {
  }

  lemma Sum2(a: Block, b: Block, at: nat)
    ensures Sum([a, b]) == a.size + b.size
    ensures Used([a, b], at) ==
            (if a.free then [] else [Region(at, a.size)]) + (if b.free then [] else [Region(at + a.size, b.size)])
  {
    assert [a, b][1..] == [b];
    Sum1(b, at + a.size);
  }

  /** The arena around one block. */
  lemma Around(s: seq<Block>, i: nat)
    requires i < |s|
    ensures Sum(s) == Sum(s[..i]) + s[i].size + Sum(s[i + 1..])
    ensures s[i].free ==> Used(s, 0) == Used(s[..i], 0) + Used(s[i + 1..], Sum(s[..i]) + s[i].size)
    ensures !s[i].free ==>
              Used(s, 0) == Used(s[..i], 0) + [Region(Sum(s[..i]), s[i].size)]
                            + Used(s[i + 1..], Sum(s[..i]) + s[i].size)
  {
    hide Sum, Used;
    CutBefore(s, i);
    var at := Sum(s[..i]);
    HeadOfRest(s, i, at);
    Assoc(Used(s[..i], 0), [Region(at, s[i].size)], Used(s[i + 1..], at + s[i].size));
  }

  lemma CutBefore(s: seq<Block>, i: nat)
    requires i <= |s|
    ensures Sum(s) == Sum(s[..i]) + Sum(s[i..])
    ensures Used(s, 0) == Used(s[..i], 0) + Used(s[i..], Sum(s[..i]))
  {
    hide Sum, Used;
    SumConcat(s[..i], s[i..]);
    UsedConcat(s[..i], s[i..], 0);
    assert s == s[..i] + s[i..];
  }

  lemma HeadOfRest(s: seq<Block>, i: nat, at: nat)
    requires i < |s|
    ensures Sum(s[i..]) == s[i].size + Sum(s[i + 1..])
    ensures s[i].free ==> Used(s[i..], at) == Used(s[i + 1..], at + s[i].size)
    ensures !s[i].free ==> Used(s[i..], at) == [Region(at, s[i].size)] + Used(s[i + 1..], at + s[i].size)
  {
    var r := s[i..];
    assert r[1..] == s[i + 1..];
    var u := Used(s[i + 1..], at + s[i].size);
    assert [] + u == u;
  }

  lemma Three(a: seq<Block>, m: seq<Block>, b: seq<Block>)
    ensures Sum(a + m + b) == Sum(a) + Sum(m) + Sum(b)
    ensures Used(a + m + b, 0) == Used(a, 0) + Used(m, Sum(a)) + Used(b, Sum(a) + Sum(m))
  {
    hide Sum, Used;
    SumConcat(a + m, b);
    SumConcat(a, m);
    UsedConcat(a + m, b, 0);
    UsedConcat(a, m, 0);
  }

  // ---------------------------------------------------------------------
  // Allocation.

  /** One region is added, at the place of block i, and nothing else changes. */
  lemma SplitAdds(s: seq<Block>, i: nat, size: nat)
    requires i < |s| && s[i].free && size <= s[i].size
    ensures Sum(Split(s, i, size)) == Sum(s)
    ensures var before, after := Used(s[..i], 0), Used(s[i + 1..], Sum(s[..i]) + s[i].size);
            && Used(s, 0) == before + after
            && Used(Split(s, i, size), 0) == before + [Region(Sum(s[..i]), size)] + after
  {
    hide Sum, Used;
    Around(s, i);
    var a, b := s[..i], s[i + 1..];
    TwoParts(a, size, s[i].size - size, b);
    assert Sum(a) + (size + (s[i].size - size)) == Sum(a) + s[i].size;
  }

  lemma TwoParts(a: seq<Block>, size: nat, rest: nat, b: seq<Block>)
    ensures var t := a + [Block(size, false), Block(rest, true)] + b;
            && Sum(t) == Sum(a) + (size + rest) + Sum(b)
            && Used(t, 0) == Used(a, 0) + [Region(Sum(a), size)] + Used(b, Sum(a) + (size + rest))
  {
    hide Sum, Used;
    var m := [Block(size, false), Block(rest, true)];
    Sum2(m[0], m[1], Sum(a));
    assert [Region(Sum(a), size)] + [] == [Region(Sum(a), size)];
    assert m == [m[0], m[1]];
    assert Sum(a) + Sum(m) == Sum(a) + (size + rest);
    Three(a, m, b);
  }

  lemma SplitGood(s: seq<Block>, i: nat, size: nat)
    requires Good(s) && |s| < REAL_MEM_BLOCKS && i < |s| && s[i].free && 0 < size < s[i].size && size % 16 == 0
    ensures Good(Split(s, i, size))
  {
    hide Sum;
    SplitAdds(s, i, size);
    var t := Split(s, i, size);
    assert s[i].size % 16 == 0;
    forall k | 0 <= k < |t| ensures t[k].size > 0 && t[k].size % 16 == 0 {
      if k < i { assert t[k] == s[k]; }
      if k > i + 1 { assert t[k] == s[k - 1]; }
    }
    forall k | 0 <= k < |t| - 1 ensures !(t[k].free && t[k + 1].free) {
      if k + 1 < i {
        assert t[k] == s[k] && t[k + 1] == s[k + 1];
      } else if k > i {
        assert t[k].free == s[k - 1].free && t[k + 1] == s[k];
      }
    }
    assert t[i + 1].free;
  }

  /** LRMI_alloc_real: on success exactly one region is added, of the size rounded
      to 16 bytes; otherwise nothing changes. */
  lemma AllocKeeps(s: seq<Block>, size: nat)
    requires Good(s) && size > 0
    ensures Good(Alloc(s, size))
    ensures match AllocAt(s, size)
            case None => Alloc(s, size) == s
            case Some(i) =>
              var before, after := Used(s[..i], 0), Used(s[i + 1..], Sum(s[..i]) + s[i].size);
              && Used(s, 0) == before + after
              && Used(Alloc(s, size), 0) == before + [Region(Sum(s[..i]), Round16(size))] + after
  {
    hide Sum, Used, Split, FirstFit, NoFreeNeighbours, Round16;
    match AllocAt(s, size)
    case None =>
    case Some(i) =>
      SplitAdds(s, i, Round16(size));
      SplitGood(s, i, Round16(size));
  }

  /** It takes the first free block that is larger than the size rounded up to 16 bytes, and
      refuses exactly when there is none or the table is full. */
  lemma AllocExactly(s: seq<Block>, size: nat)
    ensures match AllocAt(s, size)
            case None =>
              |s| == 256 || forall j :: 0 <= j < |s| && s[j].free ==> s[j].size <= (size + 15) / 16 * 16
            case Some(i) =>
              && |s| != 256 && i < |s| && s[i].free && (size + 15) / 16 * 16 < s[i].size
              && forall j :: 0 <= j < i && s[j].free ==> s[j].size <= (size + 15) / 16 * 16
  {
  }

  // ---------------------------------------------------------------------
  // Freeing.

  lemma {:induction false} WalkFinds(s: seq<Block>, i: nat)
    requires Sized(s) && i < |s|
    ensures Walk(s, Sum(s[..i])) == Some(i)
    decreases |s|
  {
    if i > 0 {
      WalkFinds(s[1..], i - 1);
      assert s[..i][1..] == s[1..][..i - 1];
    }
  }

  lemma {:induction false} WalkIs(s: seq<Block>, at: int)
    ensures match Walk(s, at) case None => true case Some(i) => at == Sum(s[..i])
    decreases |s|
  {
    if s != [] && at != 0 {
      WalkIs(s[1..], at - s[0].size);
      match Walk(s[1..], at - s[0].size)
      case None =>
      case Some(k) => assert s[..k + 1][1..] == s[1..][..k];
    }
  }

  /** Merging two free blocks changes no region. */
  lemma MergeSame(s: seq<Block>, i: nat)
    requires i + 1 < |s| && s[i].free && s[i + 1].free
    ensures Sum(Merge(s, i)) == Sum(s) && Used(Merge(s, i), 0) == Used(s, 0)
  {
    hide Sum, Used;
    var a, b := s[..i], s[i + 2..];
    var m := s[i].(size := s[i].size + s[i + 1].size);
    Sum2(s[i], s[i + 1], Sum(a));
    Sum1(m, Sum(a));
    assert s == a + [s[i], s[i + 1]] + b;
    Three(a, [s[i], s[i + 1]], b);
    Three(a, [m], b);
  }

  lemma MergeSized(s: seq<Block>, i: nat)
    requires Sized(s) && i + 1 < |s|
    ensures Sized(Merge(s, i))
  {
    var t := Merge(s, i);
    forall k | 0 <= k < |t| ensures t[k].size > 0 && t[k].size % 16 == 0 {
      if k < i {
        assert t[k] == s[k];
      } else if k > i {
        assert t[k] == s[k + 1];
      } else {
        assert s[i].size % 16 == 0 && s[i + 1].size % 16 == 0;
      }
    }
  }

  /** Marking block i free takes away its region. */
  lemma MarkRemoves(s: seq<Block>, i: nat)
    requires i < |s|
    ensures var t := s[i := s[i].(free := true)];
            && Sum(t) == Sum(s)
            && Used(t, 0) == Used(s[..i], 0) + Used(s[i + 1..], Sum(s[..i]) + s[i].size)
  {
    hide Sum, Used;
    var t := s[i := s[i].(free := true)];
    Around(s, i);
    Around(t, i);
    assert t[..i] == s[..i] && t[i + 1..] == s[i + 1..];
  }

  /** No two free blocks are adjacent, except that block i may be free beside free
      ones. */
  ghost predicate OnlyAt(s: seq<Block>, i: nat) {
    forall k :: 0 <= k < |s| - 1 && k != i && k + 1 != i ==> !(s[k].free && s[k + 1].free)
  }

  lemma MergeNextKeeps(s: seq<Block>, i: nat)
    requires i < |s| && Sized(s) && OnlyAt(s, i) && s[i].free
    ensures var t := MergeNext(s, i);
            && Sized(t) && OnlyAt(t, i) && t[i].free && (i + 1 < |t| ==> !t[i + 1].free)
            && Sum(t) == Sum(s) && Used(t, 0) == Used(s, 0) && |t| <= |s|
            && (forall k :: 0 <= k < i ==> t[k] == s[k])
  {
    hide Sum, Used, Sized;
    if i + 1 < |s| && s[i + 1].free {
      MergeSame(s, i);
      MergeSized(s, i);
      var t := Merge(s, i);
      assert forall k :: i < k < |t| ==> t[k] == s[k + 1];
    }
  }

  lemma MergePreviousKeeps(s: seq<Block>, i: nat)
    requires i < |s| && Sized(s) && OnlyAt(s, i) && s[i].free && (i + 1 < |s| ==> !s[i + 1].free)
    ensures var t := MergePrevious(s, i);
            && Sized(t) && NoFreeNeighbours(t) && 0 < |t| <= |s| && Sum(t) == Sum(s) && Used(t, 0) == Used(s, 0)
            && (exists k :: 0 <= k < |t| && t[k].free)
  {
    hide Sum, Used, Sized;
    if i > 0 && s[i - 1].free {
      MergeSame(s, i - 1);
      MergeSized(s, i - 1);
      var t := Merge(s, i - 1);
      assert t[i - 1].free;
      forall k | 0 <= k < |t| - 1 ensures !(t[k].free && t[k + 1].free) {
        if k + 1 < i - 1 {
          assert t[k] == s[k] && t[k + 1] == s[k + 1];
        } else if k >= i {
          assert t[k] == s[k + 1] && t[k + 1] == s[k + 2];
        } else if k == i - 1 {
          assert t[k + 1] == s[i + 1];
        } else {
          var x, y := s[k].free, s[k + 1].free;
          assert !(x && y) && t[k] == s[k];
        }
      }
    }
  }

  /** LRMI_free_real: the region that starts there is taken away and nothing else
      changes; when no region starts there, not even the list changes. */
  lemma FreeKeeps(s: seq<Block>, at: int)
    requires Good(s)
    ensures Good(Free(s, at))
    ensures match Walk(s, at)
            case None => Free(s, at) == s
            case Some(i) =>
              && at == Sum(s[..i])
              && (s[i].free ==> Free(s, at) == s)
              && Used(Free(s, at), 0) == Used(s[..i], 0) + Used(s[i + 1..], at + s[i].size)
  {
    hide Sum, Used, Good, FreeBlock;
    WalkIs(s, at);
    match Walk(s, at)
    case None =>
    case Some(i) => FreeBlockKeeps(s, i);
  }

  lemma FreeBlockKeeps(s: seq<Block>, i: nat)
    requires Good(s) && i < |s|
    ensures Good(FreeBlock(s, i)) && (s[i].free ==> FreeBlock(s, i) == s)
    ensures Used(FreeBlock(s, i), 0) == Used(s[..i], 0) + Used(s[i + 1..], Sum(s[..i]) + s[i].size)
  {
    hide Sum, Used, MergeNext, MergePrevious;
    var t := s[i := s[i].(free := true)];
    MarkRemoves(s, i);
    MarkSized(s, i);
    MergeNextKeeps(t, i);
    MergePreviousKeeps(MergeNext(t, i), i);
    if s[i].free { FreeIsNothing(s, i); }
  }

  lemma MarkSized(s: seq<Block>, i: nat)
    requires Good(s) && i < |s|
    ensures var t := s[i := s[i].(free := true)]; Sized(t) && OnlyAt(t, i)
  {
  }

  lemma NotBoth(s: seq<Block>, k: nat)
    requires NoFreeNeighbours(s) && k + 1 < |s|
    ensures !s[k].free || !s[k + 1].free
  {
  }

  lemma FreeIsNothing(s: seq<Block>, i: nat)
    requires NoFreeNeighbours(s) && i < |s| && s[i].free
    ensures FreeBlock(s, i) == s
  {
    assert s[i := s[i].(free := true)] == s;
    if i > 0 { NotBoth(s, i - 1); }
    if i + 1 < |s| { NotBoth(s, i); }
  }

  /** Freeing the block just allocated gives back the very list from before. */
  lemma FreeUndoesAlloc(s: seq<Block>, size: nat)
    requires Good(s) && size > 0 && AllocAt(s, size).Some?
    ensures Free(Alloc(s, size), Sum(s[..AllocAt(s, size).value])) == s
  {
    hide Sum;
    var i, n := AllocAt(s, size).value, Round16(size);
    var t := Split(s, i, n);
    SplitGood(s, i, n);
    assert t[..i] == s[..i];
    WalkFinds(t, i);
    var u := t[i := t[i].(free := true)];
    assert MergeNext(u, i) == s by {
      assert Merge(u, i) == s[..i] + [Block(s[i].size, true)] + s[i + 1..];
      assert s[i] == Block(s[i].size, true);
    }
    if i > 0 { NotBoth(s, i - 1); }
  }

  // ---------------------------------------------------------------------
  // Freeing by address.

  /** Every allocated region is an allocated block, and the walk finds it. */
  lemma {:induction false} RegionIsBlock(s: seq<Block>, at: nat, r: Region) returns (i: nat)
    requires r in Used(s, at)
    ensures i < |s| && !s[i].free && r == Region(at + Sum(s[..i]), s[i].size)
    decreases |s|
  {
    if !s[0].free && r == Region(at, s[0].size) {
      i := 0;
    } else {
      var k := RegionIsBlock(s[1..], at + s[0].size, r);
      i := k + 1;
      assert s[..i][1..] == s[1..][..k];
    }
  }

  /** LRMI_free_real takes away the region at that address and no other; when no
      region starts there it changes nothing. */
  lemma FreeByAddress(s: seq<Block>, at: int)
    requires Good(s)
    ensures forall r :: r in Used(Free(s, at), 0) <==> r in Used(s, 0) && r.at != at
    ensures (forall r :: r in Used(s, 0) ==> r.at != at) ==> Free(s, at) == s
  {
    hide Sum, Used, Free, Walk;
    FreeKeeps(s, at);
    if Walk(s, at).Some? && !s[Walk(s, at).value].free {
      var i := Walk(s, at).value;
      Around(s, i);
      UsedOrdered(s, 0);
      Without(Used(s[..i], 0), Region(at, s[i].size), Used(s[i + 1..], at + s[i].size));
    } else {
      forall r | r in Used(s, 0) ensures r.at != at {
        NotAt(s, at, r);
      }
    }
  }

  lemma NotAt(s: seq<Block>, at: int, r: Region)
    requires Good(s) && r in Used(s, 0)
    requires match Walk(s, at) case None => true case Some(i) => s[i].free
    ensures r.at != at
  {
    hide Sum, Used, Walk;
    var i := RegionIsBlock(s, 0, r);
    WalkFinds(s, i);
  }

  lemma Without(a: seq<Region>, x: Region, b: seq<Region>)
    requires Ordered(a + [x] + b, 0, REAL_MEM_SIZE)
    ensures x in a + [x] + b
    ensures forall r :: r in a + b <==> r in a + [x] + b && r.at != x.at
  {
    var t := a + [x] + b;
    assert t[|a|] == x;
    forall r | r in a + b ensures r in t && r.at != x.at {
      var k :| 0 <= k < |a + b| && (a + b)[k] == r;
      var j := if k < |a| then k else k + 1;
      assert t[j] == r && j != |a|;
    }
  }

  function FreeEach(s: seq<Block>, order: seq<int>): seq<Block>
    decreases |order|
  {
    if order == [] then s else FreeEach(Free(s, order[0]), order[1..])
  }

  /** Freeing every allocated region, in any order, gives back the one free block
      of the start. */
  lemma {:induction false} FreeingAllRestores(s: seq<Block>, order: seq<int>)
    requires Good(s) && forall r :: r in Used(s, 0) ==> r.at in order
    ensures FreeEach(s, order) == Fresh()
    decreases |order|
  {
    hide Sum, Used, Free, Good;
    if order == [] {
      NoRegions(Used(s, 0));
      NothingUsedIsFresh(s);
    } else {
      FreeKeeps(s, order[0]);
      FreeByAddress(s, order[0]);
      assert order == [order[0]] + order[1..];
      FreeingAllRestores(Free(s, order[0]), order[1..]);
    }
  }

  lemma NoRegions(u: seq<Region>)
    requires forall r :: r !in u
    ensures u == []
  {
    if u != [] { FirstIn(u); }
  }

  lemma FirstIn(u: seq<Region>)
    requires u != []
    ensures u[0] in u
  {
  }

  // ---------------------------------------------------------------------
  // Every sequence of calls.

  datatype Call = AllocReal(size: nat) | FreeReal(at: int)

  function Fresh(): seq<Block> {
    [Block(REAL_MEM_SIZE, true)]
  }

  function Run(calls: seq<Call>): seq<Block>
    decreases |calls|
  {
    if calls == [] then Fresh()
    else
      var s := Run(calls[..|calls| - 1]);
      match calls[|calls| - 1]
      case AllocReal(size) => Alloc(s, size)
      case FreeReal(at) => Free(s, at)
  }

  ghost predicate PositiveSizes(calls: seq<Call>) {
    forall k :: 0 <= k < |calls| && calls[k].AllocReal? ==> calls[k].size > 0
  }

  lemma FreshGood()
    ensures Good(Fresh()) && Used(Fresh(), 0) == []
  {
    Sum1(Block(REAL_MEM_SIZE, true), 0);
    assert Fresh()[0].free;
  }

  lemma {:induction false} RunKeeps(calls: seq<Call>)
    requires PositiveSizes(calls)
    ensures Good(Run(calls))
    decreases |calls|
  {
    hide Good, Alloc, Free;
    if calls == [] {
      FreshGood();
    } else {
      var before := calls[..|calls| - 1];
      RunKeeps(before);
      match calls[|calls| - 1]
      case AllocReal(size) => AllocKeeps(Run(before), size);
      case FreeReal(at) => FreeKeeps(Run(before), at);
    }
  }

  /** The regions lie one after the other between `at` and `end`. */
  ghost predicate Ordered(r: seq<Region>, at: nat, end: nat) {
    && (forall k :: 0 <= k < |r| ==> at <= r[k].at && r[k].size > 0 && r[k].at + r[k].size <= end)
    && (forall j, k :: 0 <= j < k < |r| ==> r[j].at + r[j].size <= r[k].at)
  }

  lemma {:induction false} UsedOrdered(s: seq<Block>, at: nat)
    requires Sized(s)
    ensures Ordered(Used(s, at), at, at + Sum(s))
    decreases |s|
  {
    if s != [] {
      UsedOrdered(s[1..], at + s[0].size);
      hide Ordered, Sized;
      OrderedFrom(Region(at, s[0].size), Used(s[1..], at + s[0].size), at + Sum(s));
      assert [] + Used(s[1..], at + s[0].size) == Used(s[1..], at + s[0].size);
    }
  }

  lemma OrderedFrom(x: Region, r: seq<Region>, end: nat)
    requires x.size > 0 && x.at + x.size <= end && Ordered(r, x.at + x.size, end)
    ensures Ordered(r, x.at, end) && Ordered([x] + r, x.at, end)
  {
    var t := [x] + r;
    assert forall k :: 1 <= k < |t| ==> t[k] == r[k - 1];
  }

  /** After any sequence of calls the allocated regions lie inside the arena and do
      not overlap. */
  lemma RegionsDisjoint(calls: seq<Call>)
    requires PositiveSizes(calls)
    ensures Ordered(Used(Run(calls), 0), 0, REAL_MEM_SIZE)
  {
    hide Used, Sum, Run, Ordered;
    RunKeeps(calls);
    UsedOrdered(Run(calls), 0);
  }

  /** With nothing allocated the arena is one free block, as at the start. */
  lemma NothingUsedIsFresh(s: seq<Block>)
    requires Good(s) && Used(s, 0) == []
    ensures s == Fresh()
  {
    AllFree(s, 0);
    if |s| > 1 { NotBoth(s, 0); }
    assert s == [s[0]];
    Sum1(s[0], 0);
  }

  lemma {:induction false} AllFree(s: seq<Block>, at: nat)
    requires Used(s, at) == []
    ensures forall k :: 0 <= k < |s| ==> s[k].free
    decreases |s|
  {
    if s != [] {
      AllFree(s[1..], at + s[0].size);
      forall k | 0 <= k < |s| ensures s[k].free {
        if k > 0 { assert s[k] == s[1..][k - 1]; }
      }
    }
  }

  // ---------------------------------------------------------------------
  // The allocator itself.

  lemma AllocGood(s: seq<Block>, size: nat)
    requires Good(s) && size > 0
    ensures Good(Alloc(s, size))
  {
    AllocKeeps(s, size);
  }

  /** The new region is in the list and inside the arena. */
  lemma AllocatedRegion(s: seq<Block>, size: nat)
    requires Good(s) && size > 0 && AllocAt(s, size).Some?
    ensures var at, n := Sum(s[..AllocAt(s, size).value]), (size + 15) / 16 * 16;
            Region(at, n) in Used(Alloc(s, size), 0) && at + n <= REAL_MEM_SIZE
  {
    hide Sum, Used, Good, FirstFit;
    AllocKeeps(s, size);
    var i := AllocAt(s, size).value;
    var before, after := Used(s[..i], 0), Used(s[i + 1..], Sum(s[..i]) + s[i].size);
    var x := Region(Sum(s[..i]), Round16(size));
    assert (before + [x] + after)[|before|] == x;
    InArena(Alloc(s, size), x);
  }

  lemma InArena(s: seq<Block>, x: Region)
    requires Good(s) && x in Used(s, 0)
    ensures x.at + x.size <= REAL_MEM_SIZE
  {
    hide Sum, Used;
    UsedOrdered(s, 0);
  }

  class Arena {
    var ready: bool
    var count: nat
    const blocks: array<Block>

    ghost function List(): seq<Block>
      reads this, blocks
    {
      if count <= blocks.Length then blocks[..count] else []
    }

    ghost predicate Valid()
      reads this, blocks
    {
      blocks.Length == REAL_MEM_BLOCKS && count <= REAL_MEM_BLOCKS && (ready ==> Good(List()))
    }

    /** The static initial state. */
    constructor ()
      ensures Valid() && !ready && fresh(blocks)
    {
      ready := false;
      count := 0;
      blocks := new Block[REAL_MEM_BLOCKS];
    }

    /** real_mem_init, when the memory can be mapped. */
    method Init()
      requires Valid()
      modifies this, blocks
      ensures Valid() && ready
      ensures List() == if old(ready) then old(List()) else Fresh()
    {
      if !ready {
        ready := true;
        count := 1;
        blocks[0] := Block(REAL_MEM_SIZE, true);
        assert List() == Fresh();
        FreshGood();
      }
    }

    /** insert_block: room for one more block before block i, which stays twice. */
    method InsertBlock(i: nat)
      requires i < count < blocks.Length
      modifies this`count, blocks
      ensures count == old(count) + 1
      ensures List() == old(List()[..i] + [List()[i]] + List()[i..])
    {
      ghost var s := List();
      forall k | i <= k < count {
        blocks[k + 1] := blocks[k];
      }
      count := count + 1;
      ghost var t := s[..i] + [s[i]] + s[i..];
      assert forall k :: 0 <= k <= i ==> blocks[k] == s[k] == t[k];
      assert forall k :: i < k < count ==> blocks[k] == s[k - 1] == t[k];
      assert List() == s[..i] + [s[i]] + s[i..];
    }

    method DeleteBlock(i: nat)
      requires i < count <= blocks.Length
      modifies this`count, blocks
      ensures count == old(count) - 1
      ensures List() == old(List()[..i] + List()[i + 1..])
    {
      count := count - 1;
      MoveDown(i, count);
      assert List() == old(List())[..i] + old(List())[i + 1..];
    }

    /** The memmove of delete_block. */
    method MoveDown(i: nat, end: nat)
      requires i <= end < blocks.Length
      modifies blocks
      ensures blocks[..i] == old(blocks[..i]) && blocks[i..end] == old(blocks[i + 1..end + 1])
    {
      forall k | i <= k < end {
        blocks[k] := blocks[k + 1];
      }
    }

    /** LRMI_alloc_real. */
    method AllocReal(size: nat) returns (r: Option<nat>)
      requires Valid() && size > 0
      modifies this`count, blocks
      ensures Valid()
      ensures !ready ==> r.None? && List() == old(List())
      ensures ready ==> List() == Alloc(old(List()), size)
      ensures r.Some? ==>
                && 0x10000 <= r.value && r.value + (size + 15) / 16 * 16 <= 0xa0000
                && Region(r.value - 0x10000, (size + 15) / 16 * 16) in Used(List(), 0)
      ensures ready ==> r == match AllocAt(old(List()), size)
                             case None => None
                             case Some(i) => Some(REAL_MEM_BASE + Sum(old(List())[..i]))
    {
      hide Good, Used, Split, FirstFit;
      if !ready || count == REAL_MEM_BLOCKS {
        return None;
      }
      ghost var s := List();
      AllocGood(s, size);
      if AllocAt(s, size).Some? { AllocatedRegion(s, size); }
      var n := Round16(size);
      var i, at := 0, REAL_MEM_BASE;
      while i < count
        invariant Valid() && List() == s && i <= count && at == REAL_MEM_BASE + Sum(s[..i])
        invariant forall j :: 0 <= j < i ==> !(s[j].free && n < s[j].size)
      {
        assert blocks[i] == s[i];
        if blocks[i].free && n < blocks[i].size {
          FirstIs(s, n, i);
          SplitInPlace(i, n);
          return Some(at);
        }
        SumNext(s, i);
        at := at + blocks[i].size;
        i := i + 1;
      }
      FirstNone(s, n);
      return None;
    }

    method SplitInPlace(i: nat, size: nat)
      requires i < count < blocks.Length && blocks[i].free && size < blocks[i].size
      modifies this`count, blocks
      ensures count <= blocks.Length && List() == Split(old(List()), i, size)
    {
      ghost var s := List();
      InsertBlock(i);
      blocks[i] := Block(size, false);
      blocks[i + 1] := blocks[i + 1].(size := blocks[i + 1].size - size);
      assert List() == Split(s, i, size);
    }

    /** LRMI_free_real. */
    method FreeReal(m: int)
      requires Valid()
      modifies this`count, blocks
      ensures Valid()
      ensures List() == if ready then Free(old(List()), m - REAL_MEM_BASE) else old(List())
    {
      if !ready {
        return;
      }
      assert count > 0;
      hide Good, Sum, FreeBlock;
      ghost var s := List();
      FreeKeeps(s, m - REAL_MEM_BASE);
      var i := Locate(m);
      if i.Some? {
        FreeInPlace(i.value);
      }
    }

    /** The walk through the blocks. */
    method Locate(m: int) returns (r: Option<nat>)
      requires 0 < count <= blocks.Length
      ensures r == Walk(List(), m - REAL_MEM_BASE)
    {
      ghost var s := List();
      var at := REAL_MEM_BASE;
      var i := 0;
      while m != at
        invariant i < count
        invariant match Walk(s[i..], m - at)
                  case None => Walk(s, m - REAL_MEM_BASE) == None
                  case Some(k) => Walk(s, m - REAL_MEM_BASE) == Some(i + k)
        decreases count - i
      {
        assert blocks[i] == s[i] && s[i..][1..] == s[i + 1..];
        at := at + blocks[i].size;
        i := i + 1;
        if i == count {
          return None;
        }
      }
      return Some(i);
    }

    method FreeInPlace(i: nat)
      requires i < count <= blocks.Length
      modifies this`count, blocks
      ensures count <= blocks.Length && List() == FreeBlock(old(List()), i)
    {
      ghost var s := List();
      blocks[i] := blocks[i].(free := true);
      assert List() == s[i := s[i].(free := true)];
      if i + 1 < count && blocks[i + 1].free {
        MergeInPlace(i);
      }
      if i > 0 && blocks[i - 1].free {
        MergeInPlace(i - 1);
      }
    }

    method MergeInPlace(i: nat)
      requires i + 1 < count <= blocks.Length
      modifies this`count, blocks
      ensures count == old(count) - 1 && List() == Merge(old(List()), i)
    {
      ghost var s := List();
      blocks[i] := blocks[i].(size := blocks[i].size + blocks[i + 1].size);
      DeleteBlock(i + 1);
      assert List() == Merge(s, i);
    }
  }

  lemma SumNext(s: seq<Block>, i: nat)
    requires i < |s|
    ensures Sum(s[..i + 1]) == Sum(s[..i]) + s[i].size
  {
    assert s[..i + 1] == s[..i] + [s[i]];
    SumConcat(s[..i], [s[i]]);
    Sum1(s[i], 0);
  }

  lemma FirstIs(s: seq<Block>, size: nat, i: nat)
    requires i < |s| && s[i].free && size < s[i].size
    requires forall j :: 0 <= j < i ==> !(s[j].free && size < s[j].size)
    ensures FirstFit(s, size) == Some(i)
  {
    var k := FirstFit(s, size);
    assert k.Some?;
  }

  lemma FirstNone(s: seq<Block>, size: nat)
    requires forall j :: 0 <= j < |s| ==> !(s[j].free && size < s[j].size)
    ensures FirstFit(s, size) == None
  {
  }
}
