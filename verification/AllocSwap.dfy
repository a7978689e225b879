/** alloc_swap: take swap pages from the kernel and file them in the array of
    extents, until enough are allocated or there is no room for more extents. */
module AllocSwap {
  import opened Utils
  import opened Extents
  import opened SwapSpace

  /** What alloc_swap leaves behind when it succeeds; `kernel` are the answers
      the kernel will give next. */
  datatype Alloc = Alloc(slots: seq<Extent>, nr: int, size: int, kernel: seq<nat>)

  function AllocLoop(s: seq<Extent>, nr: int, size: int, total: int, kernel: seq<nat>): (r: Option<Alloc>)
    requires |s| >= 2 && 1 <= nr <= |s|
    ensures r.Some? ==> |r.value.slots| == |s| && 1 <= r.value.nr <= |s|
    decreases total - size
  {
    if size >= total || nr >= |s| then Some(Alloc(s, nr, size, kernel))
    else if kernel == [] || kernel[0] == 0 then None
    else
      var r := Place(s, nr, kernel[0]);
      AllocLoop(r.slots, r.nr, size + 1, total, kernel[1..])
  }

  function Allocate(s: seq<Extent>, nr: int, total: int, kernel: seq<nat>): (r: Option<Alloc>)
    requires |s| >= 2 && nr <= |s|
    ensures r.Some? ==> |r.value.slots| == |s| && 1 <= r.value.nr <= |s|
  {
    if nr > 0 then AllocLoop(s, nr, 0, total, kernel)
    else if kernel == [] || kernel[0] == 0 then None
    else AllocLoop(s[0 := Extent(kernel[0], kernel[0] + 1)], 1, 1, total, kernel[1..])
  }

  /** The pages of the array and of the kernel together do not change: every page
      the kernel hands out is filed, and nothing else is. */
  ghost predicate Conserved(s: seq<Extent>, nr: int, kernel: seq<nat>, a: Alloc)
    requires s != [] && 0 <= nr <= |s| && |a.slots| == |s| && 1 <= a.nr <= |s|
  {
    Bag(a.slots, a.nr) + multiset(a.kernel) == Bag(s, nr) + multiset(kernel)
  }

  lemma FreshPage(b: multiset<int>, e: seq<Extent>, kernel: seq<nat>)
    requires kernel != [] && NoDup(b + multiset(kernel)) && multiset(Offsets(e)) <= b
    ensures kernel[0] !in Offsets(e)
    ensures b + multiset(kernel) == b + multiset{kernel[0]} + multiset(kernel[1..])
  {
    BagHead(kernel);
    assert (b + multiset(kernel))[kernel[0]] <= 1;
    assert multiset(Offsets(e))[kernel[0]] == 0;
  }

  lemma {:induction false} AllocLoopKeeps(s: seq<Extent>, nr: int, size: int, total: int, kernel: seq<nat>)
    requires Tidy(s, nr) && NoDup(Bag(s, nr) + multiset(kernel))
    ensures match AllocLoop(s, nr, size, total, kernel)
            case None => true
            case Some(a) =>
              && Tidy(a.slots, a.nr)
              && Conserved(s, nr, kernel, a)
              && (a.nr < |s| ==> a.size >= total)
    decreases total - size
  {
    hide Place, Bag, Canonical, Offsets;
    if size < total && nr < |s| && kernel != [] && kernel[0] != 0 {
      InUseInBag(s, nr);
      FreshPage(Bag(s, nr), s[..nr], kernel);
      PlaceKeeps(s, nr, kernel[0]);
      var r := Place(s, nr, kernel[0]);
      AllocLoopKeeps(r.slots, r.nr, size + 1, total, kernel[1..]);
    }
  }

  lemma InUseInBag(s: seq<Extent>, nr: int)
    requires Tidy(s, nr) && nr < |s|
    ensures multiset(Offsets(s[..nr])) <= Bag(s, nr)
  {
    hide Canonical, Offsets;
  }

  lemma {:induction false} AllocLoopTakes(s: seq<Extent>, nr: int, size: int, total: int, kernel: seq<nat>)
    requires |s| >= 2 && 1 <= nr <= |s|
    ensures match AllocLoop(s, nr, size, total, kernel)
            case None => true
            case Some(a) => a.size - size == |kernel| - |a.kernel| && multiset(a.kernel) <= multiset(kernel)
    decreases total - size
  {
    if size < total && nr < |s| && kernel != [] && kernel[0] != 0 {
      BagHead(kernel);
      var r := Place(s, nr, kernel[0]);
      AllocLoopTakes(r.slots, r.nr, size + 1, total, kernel[1..]);
    }
  }

  lemma AllocateTakes(s: seq<Extent>, nr: int, total: int, kernel: seq<nat>)
    requires |s| >= 2 && nr <= |s|
    ensures match Allocate(s, nr, total, kernel)
            case None => true
            case Some(a) => a.size == |kernel| - |a.kernel| && multiset(a.kernel) <= multiset(kernel)
  {
    if nr > 0 {
      AllocLoopTakes(s, nr, 0, total, kernel);
    } else if kernel != [] && kernel[0] != 0 {
      BagHead(kernel);
      AllocLoopTakes(s[0 := Extent(kernel[0], kernel[0] + 1)], 1, 1, total, kernel[1..]);
    }
  }

  /** The pages are taken in the order in which the kernel hands them out, as many as are
      asked for at most (one at least when there is no initial extent); it fails exactly at
      a page that the kernel refuses. */
  lemma {:induction false} LoopTakesInOrder(s: seq<Extent>, nr: int, size: int, total: int, kernel: seq<nat>)
    requires |s| >= 2 && 1 <= nr <= |s|
    ensures match AllocLoop(s, nr, size, total, kernel)
            case None =>
              exists n: nat :: size + n < total && n <= |kernel| && (n == |kernel| || kernel[n] == 0)
                               && 0 !in kernel[..n]
            case Some(a) =>
              && size <= a.size && (a.size <= total || a.size == size) && a.size - size <= |kernel|
              && a.kernel == kernel[a.size - size..] && 0 !in kernel[..a.size - size]
    decreases total - size
  {
    if size < total && nr < |s| {
      if kernel == [] || kernel[0] == 0 {
        assert size + 0 < total && 0 !in kernel[..0];
      } else {
        var r := Place(s, nr, kernel[0]);
        var k := kernel[1..];
        LoopTakesInOrder(r.slots, r.nr, size + 1, total, k);
        hide Place;
        match AllocLoop(r.slots, r.nr, size + 1, total, k)
        case None =>
          var n: nat :| size + 1 + n < total && n <= |k| && (n == |k| || k[n] == 0) && 0 !in k[..n];
          OneMore(kernel, n);
          assert size + (n + 1) < total && (n + 1 == |kernel| || kernel[n + 1] == 0);
        case Some(a) =>
          OneMore(kernel, a.size - size - 1);
      }
    }
  }

  lemma OneMore(kernel: seq<nat>, n: nat)
    requires kernel != [] && kernel[0] != 0 && n <= |kernel| - 1 && 0 !in kernel[1..][..n]
    ensures 0 !in kernel[..n + 1] && kernel[1..][n..] == kernel[n + 1..]
  {
    assert kernel[..n + 1] == [kernel[0]] + kernel[1..][..n];
  }

  lemma {:induction false} AllocateTakesInOrder(s: seq<Extent>, nr: int, total: int, kernel: seq<nat>)
    requires |s| >= 2 && nr <= |s|
    ensures match Allocate(s, nr, total, kernel)
            case None =>
              exists n: nat :: (n < total || (n == 0 && nr <= 0)) && n <= |kernel| && (n == |kernel| || kernel[n] == 0)
                               && 0 !in kernel[..n]
            case Some(a) =>
              && 0 <= a.size <= |kernel| && a.kernel == kernel[a.size..] && 0 !in kernel[..a.size]
              && (nr <= 0 ==> 1 <= a.size) && (a.size <= total || a.size == if nr <= 0 then 1 else 0)
  {
    hide AllocLoop;
    if nr > 0 {
      LoopTakesInOrder(s, nr, 0, total, kernel);
    } else if kernel == [] || kernel[0] == 0 {
      assert 0 !in kernel[..0];
    } else {
      var t, k := s[0 := Extent(kernel[0], kernel[0] + 1)], kernel[1..];
      LoopTakesInOrder(t, 1, 1, total, k);
      match AllocLoop(t, 1, 1, total, k)
      case None =>
        var n: nat :| 1 + n < total && n <= |k| && (n == |k| || k[n] == 0) && 0 !in k[..n];
        OneMore(kernel, n);
        assert n + 1 < total && (n + 1 == |kernel| || kernel[n + 1] == 0);
      case Some(a) =>
        OneMore(kernel, a.size - 1);
    }
  }

  /** A slot array as it is handed to alloc_swap: empty but for the initial extent. */
  ghost predicate Initial(s: seq<Extent>, nr: int) {
    && |s| >= 2 && 0 <= nr <= 1
    && (forall m :: nr <= m < |s| ==> !Holds(s[m]))
    && (nr == 1 ==> 0 < s[0].start < s[0].end)
  }

  lemma InitialIsTidy(s: seq<Extent>, nr: int)
    requires Initial(s, nr)
    ensures nr == 1 ==> Tidy(s, 1)
    ensures nr == 0 ==> Bag(s, 0) == multiset{}
  {
    if nr == 1 {
      assert s[..1][1..] == [];
    }
  }

  lemma FirstPage(s: seq<Extent>, kernel: seq<nat>, t: seq<Extent>)
    requires Initial(s, 0) && kernel != [] && kernel[0] != 0
    requires t == s[0 := Extent(kernel[0], kernel[0] + 1)]
    ensures Tidy(t, 1)
    ensures Bag(t, 1) + multiset(kernel[1..]) == Bag(s, 0) + multiset(kernel)
  {
    InitialIsTidy(s, 0);
    InitialIsTidy(t, 1);
    BagHead(kernel);
    assert t[..1] == [Extent(kernel[0], kernel[0] + 1)];
    OffsetsOne(Extent(kernel[0], kernel[0] + 1));
    assert Run(kernel[0], kernel[0] + 1) == [kernel[0]];
  }

  /** alloc_swap keeps the extents sorted, disjoint and never touching, files
      exactly the pages it got from the kernel, and stops short only when the
      carry is in place. */
  lemma AllocateKeeps(s: seq<Extent>, nr: int, total: int, kernel: seq<nat>)
    requires Initial(s, nr) && NoDup(Bag(s, nr) + multiset(kernel))
    ensures match Allocate(s, nr, total, kernel)
            case None => true
            case Some(a) =>
              && Tidy(a.slots, a.nr)
              && Conserved(s, nr, kernel, a)
              && (a.nr < |s| ==> a.size >= total)
              && a.size == |kernel| - |a.kernel|
              && multiset(a.kernel) <= multiset(kernel)
  {
    InitialIsTidy(s, nr);
    AllocateTakes(s, nr, total, kernel);
    if nr == 1 {
      AllocLoopKeeps(s, 1, 0, total, kernel);
    } else if kernel != [] && kernel[0] != 0 {
      var t := s[0 := Extent(kernel[0], kernel[0] + 1)];
      FirstPage(s, kernel, t);
      AllocLoopKeeps(t, 1, 1, total, kernel[1..]);
    }
  }

  // ---------------------------------------------------------------------
  // The code.

  /** memmove of n slots within the array. */
  method MoveSlots(a: array<Extent>, dst: nat, src: nat, n: nat)
    requires dst + n <= a.Length && src + n <= a.Length
    modifies a
    ensures a[..] == old(a[..dst]) + old(a[src..src + n]) + old(a[dst + n..])
  {
    forall i | 0 <= i < n {
      a[dst + i] := a[src + i];
    }
  }

  /** The search loop of alloc_swap. */
  method FindExtent(a: array<Extent>, nr: int, offset: int) returns (h: Hit)
    requires 1 <= nr <= a.Length
    ensures h == Search(a[..nr], offset, 0, nr - 1)
  {
    var i, j := 0, nr - 1;
    ghost var e := a[..nr];
    while true
      invariant 0 <= i <= j < nr
      invariant Search(e, offset, i, j) == Search(e, offset, 0, nr - 1)
      decreases j - i
    {
      var k := (i + j) / 2;
      if offset == a[k].start - 1 {
        return Below(k);
      } else if offset == a[k].end {
        return Above(k);
      } else if offset > a[k].end {
        if i == k {
          if i == j {
            return Miss(i);
          }
          i := j;
        } else {
          i := k;
        }
      } else {
        j := k;
        if i == j {
          return Miss(i);
        }
      }
    }
  }

  /** Extent k is removed: the ones behind it move one place down. */
  method RemoveExtent(a: array<Extent>, k: int, nr: int)
    requires 0 <= k < nr <= a.Length
    modifies a
    ensures a[..] == PullForward(old(a[..]), k, nr)
  {
    MoveSlots(a, k, k + 1, nr - k - 1);
  }

  method ExtendBelow(a: array<Extent>, nr: int, offset: int, k: int) returns (nr': int)
    requires a.Length >= 2 && 1 <= nr < a.Length && 0 <= k < nr
    modifies a
    ensures Placed(a[..], nr') == Apply(old(a[..]), nr, offset, Below(k))
  {
    hide PullForward;
    nr' := nr;
    ghost var t := a[..][k := Extent(offset, a[k].end)];
    a[k] := Extent(offset, a[k].end);
    assert a[..] == t;
    if k > 0 && a[k - 1].end == offset {
      a[k - 1] := Extent(a[k - 1].start, a[k].end);
      assert a[..] == t[k - 1 := Extent(t[k - 1].start, t[k].end)];
      RemoveExtent(a, k, nr);
      nr' := nr - 1;
    }
  }

  method ExtendAbove(a: array<Extent>, nr: int, offset: int, k: int) returns (nr': int)
    requires a.Length >= 2 && 1 <= nr < a.Length && 0 <= k < nr
    modifies a
    ensures Placed(a[..], nr') == Apply(old(a[..]), nr, offset, Above(k))
  {
    nr' := nr;
    a[k] := Extent(a[k].start, offset + 1);
    if k + 1 < nr && a[k].end == a[k + 1].start {
      a[k] := Extent(a[k].start, a[k + 1].end);
      RemoveExtent(a, k + 1, nr);
      nr' := nr - 1;
    }
  }

  /** x is put at place k: the extents from there on move one place up. */
  method InsertExtent(a: array<Extent>, k: int, nr: int, x: Extent)
    requires 0 <= k <= nr < a.Length
    modifies a
    ensures a[..] == PushBack(old(a[..]), k, nr, x)
  {
    ghost var s := a[..];
    MoveSlots(a, k + 1, k, nr - k);
    assert a[..] == s[..k + 1] + s[k..nr] + s[nr + 1..];
    a[k] := x;
  }

  method CreateExtent(a: array<Extent>, nr: int, offset: int, i: int) returns (nr': int)
    requires a.Length >= 2 && 1 <= nr < a.Length && 0 <= i < nr
    modifies a
    ensures Placed(a[..], nr') == Apply(old(a[..]), nr, offset, Miss(i))
  {
    if nr < a.Length - 1 {
      var at := if offset > a[i].end then i + 1 else i;
      InsertExtent(a, at, nr, Extent(offset, offset + 1));
    } else {
      a[nr] := Extent(offset, offset + 1);
    }
    nr' := nr + 1;
  }

  /** Extend, merge or create an extent for one page. */
  method AddPage(a: array<Extent>, nr: int, offset: int) returns (nr': int)
    requires a.Length >= 2 && 1 <= nr < a.Length
    modifies a
    ensures Placed(a[..], nr') == Place(old(a[..]), nr, offset)
  {
    var h := FindExtent(a, nr, offset);
    assert a[..nr] == a[..][..nr];
    match h
    case Below(k) => nr' := ExtendBelow(a, nr, offset, k);
    case Above(k) => nr' := ExtendAbove(a, nr, offset, k);
    case Miss(i) => nr' := CreateExtent(a, nr, offset, i);
  }

  /** alloc_swap.  A negative count stands for -ENOSPC. */
  method AllocateSwap(a: array<Extent>, nr: int, total: int, dev: Device) returns (count: int, size: int)
    requires a.Length >= 2 && nr <= a.Length
    modifies a, dev`kernel
    ensures match Allocate(old(a[..]), nr, total, old(dev.kernel))
            case None => count < 0
            case Some(r) => r == Alloc(a[..], count, size, dev.kernel)
  {
    count, size := nr, 0;
    if nr <= 0 {
      var offset := dev.GetSwapPage();
      if offset == 0 {
        return -1, 0;
      }
      a[0] := Extent(offset, offset + 1);
      count, size := 1, 1;
    }
    ghost var goal := Allocate(old(a[..]), nr, total, old(dev.kernel));
    while size < total && count < a.Length
      invariant 1 <= count <= a.Length
      invariant AllocLoop(a[..], count, size, total, dev.kernel) == goal
      decreases total - size
    {
      var offset := dev.GetSwapPage();
      if offset == 0 {
        return -1, 0;
      }
      count := AddPage(a, count, offset);
      size := size + 1;
    }
  }
}
