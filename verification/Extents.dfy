/** Extents of swap pages and the array of extents kept by alloc_swap.

    All offsets are counted in pages: every offset the program handles is a
    multiple of page_size.  A slot array has max_extents + 1 slots; the last one
    is reserved for the carry and, later, for the link to the next array. */
module Extents {
  import opened Utils

  datatype Extent = Extent(start: int, end: int)

  const NO_EXTENT := Extent(0, 0)

  predicate Holds(e: Extent) {
    e.start < e.end
  }

  /** The pages of one extent, in the order in which they are used. */
  function Run(start: int, end: int): (r: seq<int>)
    decreases end - start
    ensures |r| == if start < end then end - start else 0
  {
    if start < end then [start] + Run(start + 1, end) else []
  }

  lemma {:induction false} RunJoin(s: int, m: int, e: int)
    requires s <= m <= e
    ensures Run(s, e) == Run(s, m) + Run(m, e)
    decreases m - s
  {
    if s < m { RunJoin(s + 1, m, e); }
  }

  lemma {:induction false} InRun(s: int, e: int, p: int)
    ensures p in Run(s, e) <==> s <= p < e
    decreases e - s
  {
    if s < e { InRun(s + 1, e, p); }
  }

  /** The pages of a list of extents, in the order in which they are used. */
  function Offsets(e: seq<Extent>): seq<int> {
    if e == [] then [] else Run(e[0].start, e[0].end) + Offsets(e[1..])
  }

  /** Sorted, non-empty, and no two extents overlap or touch. */
  ghost predicate Canonical(e: seq<Extent>) {
    e == [] || (
      && 0 < e[0].start < e[0].end
      && (|e| > 1 ==> e[0].end < e[1].start)
      && Canonical(e[1..])
    )
  }

  /** What Canonical says about slots that are not neighbours. */
  lemma {:induction false} CanonicalAt(e: seq<Extent>, i: int, j: int)
    requires Canonical(e) && 0 <= i <= j < |e|
    ensures 0 < e[i].start < e[i].end && e[j].start < e[j].end
    ensures i < j ==> e[i].end < e[j].start
  {
    if i > 0 {
      CanonicalAt(e[1..], i - 1, j - 1);
    } else if j > 0 {
      CanonicalAt(e[1..], 0, j - 1);
    }
  }

  lemma CanonicalAround(e: seq<Extent>, k: int)
    requires Canonical(e) && 0 <= k < |e|
    ensures 0 < e[k].start < e[k].end
    ensures k > 0 ==> e[k - 1].start < e[k - 1].end < e[k].start
    ensures k + 1 < |e| ==> e[k].end < e[k + 1].start < e[k + 1].end
  {
    CanonicalAt(e, k, k);
    if k > 0 {
      CanonicalAt(e, k - 1, k - 1);
      CanonicalAt(e, k - 1, k);
    }
    if k + 1 < |e| { CanonicalAt(e, k, k + 1); }
  }

  lemma {:induction false} OffsetsConcat(a: seq<Extent>, b: seq<Extent>)
    ensures Offsets(a + b) == Offsets(a) + Offsets(b)
  {
    if a == [] {
      assert a + b == b;
    } else {
      OffsetsConcat(a[1..], b);
      assert (a + b)[1..] == a[1..] + b;
      Assoc(Run(a[0].start, a[0].end), Offsets(a[1..]), Offsets(b));
    }
  }

  lemma OffsetsOne(e: Extent)
    ensures Offsets([e]) == Run(e.start, e.end)
  {
    assert Offsets([e]) == Run(e.start, e.end) + Offsets([]);
  }

  lemma {:induction false} InOffsets(e: seq<Extent>, p: int)
    ensures p in Offsets(e) <==> exists i :: 0 <= i < |e| && e[i].start <= p < e[i].end
  {
    if e != [] {
      InOffsets(e[1..], p);
      InRun(e[0].start, e[0].end, p);
      if i :| 0 <= i < |e| && e[i].start <= p < e[i].end {
        if i > 0 { assert e[1..][i - 1] == e[i]; }
      }
      if p in Offsets(e[1..]) {
        var i :| 0 <= i < |e[1..]| && e[1..][i].start <= p < e[1..][i].end;
        assert e[i + 1] == e[1..][i];
      }
    }
  }

  lemma NotInOffsets(e: seq<Extent>, p: int, k: int)
    requires p !in Offsets(e) && 0 <= k < |e|
    ensures p < e[k].start || e[k].end <= p
  {
    InOffsets(e, p);
  }

  // ---------------------------------------------------------------------
  // Reference: insert one page into a canonical list by walking it.

  /** The number of leading extents that end before p. */
  function Position(e: seq<Extent>, p: int): (k: nat)
    ensures k <= |e|
  {
    if e == [] || e[0].end >= p then 0 else 1 + Position(e[1..], p)
  }

  datatype Change = Change(i: nat, x: Extent, j: nat)

  /** The extents i .. j that give way when p arrives at position k, and the
      extent x that takes their place: p joined with the extents it touches. */
  function Plan(e: seq<Extent>, p: int, k: nat): (c: Change)
    requires k <= |e|
    ensures c.i == k <= c.j <= |e|
  {
    if k < |e| && p + 1 == e[k].start then
      Change(k, Extent(p, e[k].end), k + 1)
    else if k < |e| && p == e[k].end then
      if k + 1 < |e| && p + 1 == e[k + 1].start
      then Change(k, Extent(e[k].start, e[k + 1].end), k + 2)
      else Change(k, Extent(e[k].start, p + 1), k + 1)
    else
      Change(k, Extent(p, p + 1), k)
  }

  function Insert(e: seq<Extent>, p: int): seq<Extent> {
    var c := Plan(e, p, Position(e, p));
    Splice(e, c.i, c.x, c.j)
  }

  /** Replace the extents i .. j by x. */
  function Splice(e: seq<Extent>, i: nat, x: Extent, j: nat): (r: seq<Extent>)
    requires i <= j <= |e|
    ensures |r| == |e| - (j - i) + 1
  {
    e[..i] + [x] + e[j..]
  }

  lemma {:induction false} PositionIs(e: seq<Extent>, p: int, k: nat)
    requires Canonical(e) && k <= |e|
    requires k > 0 ==> e[k - 1].end < p
    requires k < |e| ==> p <= e[k].end
    ensures Position(e, p) == k
  {
    if k > 0 {
      CanonicalAt(e, 0, k - 1);
      PositionIs(e[1..], p, k - 1);
    }
  }

  lemma {:induction false} PositionMeans(e: seq<Extent>, p: int)
    requires Canonical(e)
    ensures var k := Position(e, p);
            (k > 0 ==> e[k - 1].end < p) && (k < |e| ==> p <= e[k].end)
  {
    if e != [] && e[0].end < p {
      PositionMeans(e[1..], p);
    }
  }

  lemma {:induction false} CanonicalConcat(a: seq<Extent>, b: seq<Extent>)
    requires Canonical(a) && Canonical(b)
    requires a != [] && b != [] ==> a[|a| - 1].end < b[0].start
    ensures Canonical(a + b)
  {
    if a == [] {
      assert a + b == b;
    } else {
      CanonicalConcat(a[1..], b);
      assert (a + b)[1..] == a[1..] + b;
    }
  }

  /** Neighbours that are in order make a canonical list. */
  lemma {:induction false} InOrder(e: seq<Extent>)
    requires forall i :: 0 <= i < |e| ==> 0 < e[i].start < e[i].end
    requires forall i :: 0 <= i < |e| - 1 ==> e[i].end < e[i + 1].start
    ensures Canonical(e)
  {
    if e != [] {
      var t := e[1..];
      assert forall i :: 0 <= i < |t| ==> t[i] == e[i + 1];
      InOrder(t);
    }
  }

  lemma CanonicalSplit(e: seq<Extent>, k: nat)
    requires Canonical(e) && k <= |e|
    ensures Canonical(e[..k]) && Canonical(e[k..])
  {
    CanonicalInOrder(e);
    hide Canonical;
    InOrder(e[..k]);
    var t := e[k..];
    assert forall i :: 0 <= i < |t| ==> t[i] == e[k + i];
    InOrder(t);
  }

  lemma CanonicalInOrder(e: seq<Extent>)
    requires Canonical(e)
    ensures forall i :: 0 <= i < |e| ==> 0 < e[i].start < e[i].end
    ensures forall i :: 0 <= i < |e| - 1 ==> e[i].end < e[i + 1].start
  {
    hide Canonical;
    forall i | 0 <= i < |e|
      ensures 0 < e[i].start < e[i].end && (i < |e| - 1 ==> e[i].end < e[i + 1].start)
    {
      CanonicalAround(e, i);
    }
  }

  lemma CanonicalSplice(e: seq<Extent>, i: nat, x: Extent, j: nat)
    requires Canonical(e) && i <= j <= |e|
    requires 0 < x.start < x.end
    requires i > 0 ==> e[i - 1].end < x.start
    requires j < |e| ==> x.end < e[j].start
    ensures Canonical(Splice(e, i, x, j))
  {
    CanonicalSplit(e, i);
    CanonicalSplit(e, j);
    assert Canonical([x]);
    CanonicalConcat(e[..i], [x]);
    CanonicalConcat(e[..i] + [x], e[j..]);
  }

  lemma OffsetsSplice(e: seq<Extent>, i: nat, x: Extent, j: nat)
    requires i <= j <= |e|
    ensures Offsets(Splice(e, i, x, j)) == Offsets(e[..i]) + Run(x.start, x.end) + Offsets(e[j..])
  {
    OffsetsConcat(e[..i], [x]);
    OffsetsConcat(e[..i] + [x], e[j..]);
    OffsetsOne(x);
  }

  lemma OffsetsCut(e: seq<Extent>, i: nat, j: nat)
    requires i <= j <= |e|
    ensures Offsets(e) == Offsets(e[..i]) + Offsets(e[i..j]) + Offsets(e[j..])
  {
    hide Offsets;
    OffsetsCut1(e, j);
    OffsetsCut1(e[..j], i);
    assert e[..j][..i] == e[..i] && e[..j][i..] == e[i..j];
  }

  lemma OffsetsCut1(e: seq<Extent>, j: nat)
    requires j <= |e|
    ensures Offsets(e) == Offsets(e[..j]) + Offsets(e[j..])
  {
    hide Offsets;
    OffsetsConcat(e[..j], e[j..]);
    assert e[..j] + e[j..] == e;
  }

  lemma MultisetInsert(a: seq<int>, b: seq<int>, c: seq<int>, d: seq<int>, p: int)
    requires multiset(b) == multiset(c) + multiset{p}
    ensures multiset(a + b + d) == multiset(a + c + d) + multiset{p}
  {
  }

  /** Inserting a page keeps the list canonical and adds exactly that page. */
  lemma {:induction false} InsertPage(e: seq<Extent>, p: int)
    requires Canonical(e) && p > 0 && p !in Offsets(e)
    ensures Insert(e, p) != [] && Canonical(Insert(e, p))
    ensures multiset(Offsets(Insert(e, p))) == multiset(Offsets(e)) + multiset{p}
  {
    hide Canonical, Offsets, Position;
    var k := Position(e, p);
    PositionMeans(e, p);
    if k < |e| { NotInOffsets(e, p, k); }
    PlanFits(e, p, k);
    var c := Plan(e, p, k);
    CanonicalSplice(e, c.i, c.x, c.j);
    SpliceAdds(e, p, k);
  }

  lemma SpliceAdds(e: seq<Extent>, p: int, k: nat)
    requires Canonical(e) && k <= |e|
    ensures var Change(i, x, j) := Plan(e, p, k);
            multiset(Offsets(Splice(e, i, x, j))) == multiset(Offsets(e)) + multiset{p}
  {
    if k < |e| { CanonicalAround(e, k); }
    PlanAdds(e, p, k);
    var Change(i, x, j) := Plan(e, p, k);
    OffsetsSplice(e, i, x, j);
    OffsetsCut(e, i, j);
    MultisetInsert(Offsets(e[..i]), Run(x.start, x.end), Offsets(e[i..j]), Offsets(e[j..]), p);
  }

  lemma PlanFits(e: seq<Extent>, p: int, k: nat)
    requires Canonical(e) && p > 0 && k <= |e|
    requires (k > 0 ==> e[k - 1].end < p) && (k < |e| ==> p < e[k].start || p == e[k].end)
    ensures var Change(i, x, j) := Plan(e, p, k);
            && 0 < x.start < x.end
            && (i > 0 ==> e[i - 1].end < x.start)
            && (j < |e| ==> x.end < e[j].start)
  {
    if k < |e| { CanonicalAround(e, k); }
    if k + 1 < |e| { CanonicalAround(e, k + 1); }
  }

  lemma PlanAdds(e: seq<Extent>, p: int, k: nat)
    requires k <= |e|
    requires k < |e| ==> Holds(e[k])
    requires k + 1 < |e| ==> Holds(e[k + 1])
    ensures var c := Plan(e, p, k);
            multiset(Run(c.x.start, c.x.end)) == multiset(Offsets(e[c.i..c.j])) + multiset{p}
  {
    hide Offsets, Run;
    if k < |e| && p + 1 == e[k].start {
      PlanAddsBelow(e, p, k);
    } else if k < |e| && p == e[k].end {
      if k + 1 < |e| && p + 1 == e[k + 1].start {
        PlanAddsTwo(e, p, k);
      } else {
        PlanAddsAbove(e, p, k);
      }
    } else {
      PlanAddsNew(e, p, k);
    }
  }

  lemma PlanAddsBelow(e: seq<Extent>, p: int, k: nat)
    requires k < |e| && p + 1 == e[k].start < e[k].end
    ensures multiset(Run(p, e[k].end)) == multiset(Offsets(e[k..k + 1])) + multiset{p}
  {
    OffsetsOfOne(e, k);
    RunWithout(p, p, e[k].end);
    assert Run(p, p) + Run(p + 1, e[k].end) == Run(p + 1, e[k].end);
  }

  lemma PlanAddsAbove(e: seq<Extent>, p: int, k: nat)
    requires k < |e| && e[k].start < e[k].end == p
    ensures multiset(Run(e[k].start, p + 1)) == multiset(Offsets(e[k..k + 1])) + multiset{p}
  {
    OffsetsOfOne(e, k);
    RunWithout(e[k].start, p, p + 1);
    assert Run(e[k].start, p) + Run(p + 1, p + 1) == Run(e[k].start, p);
  }

  lemma PlanAddsNew(e: seq<Extent>, p: int, k: nat)
    requires k <= |e|
    ensures multiset(Run(p, p + 1)) == multiset(Offsets(e[k..k])) + multiset{p}
  {
    assert e[k..k] == [];
    RunWithout(p, p, p + 1);
    assert [] + Run(p + 1, p + 1) == [];
  }

  lemma PlanAddsTwo(e: seq<Extent>, p: int, k: nat)
    requires k + 1 < |e| && e[k].start < e[k].end == p && e[k + 1].start == p + 1 < e[k + 1].end
    ensures multiset(Run(e[k].start, e[k + 1].end)) == multiset(Offsets(e[k..k + 2])) + multiset{p}
  {
    OffsetsOfTwo(e, k);
    RunWithout(e[k].start, p, e[k + 1].end);
  }

  lemma RunWithout(a: int, p: int, c: int)
    requires a <= p < c
    ensures multiset(Run(a, c)) == multiset(Run(a, p) + Run(p + 1, c)) + multiset{p}
  {
    RunJoin(a, p, c);
    assert Run(p, c) == [p] + Run(p + 1, c);
    BagMiddle(Run(a, p), p, Run(p + 1, c));
  }

  lemma BagMiddle(a: seq<int>, p: int, b: seq<int>)
    ensures multiset(a + ([p] + b)) == multiset(a + b) + multiset{p}
  {
  }

  lemma OffsetsOfOne(e: seq<Extent>, k: nat)
    requires k < |e|
    ensures Offsets(e[k..k + 1]) == Run(e[k].start, e[k].end)
  {
    assert e[k..k + 1] == [e[k]];
    OffsetsOne(e[k]);
  }

  lemma OffsetsOfTwo(e: seq<Extent>, k: nat)
    requires k + 1 < |e|
    ensures Offsets(e[k..k + 2]) == Run(e[k].start, e[k].end) + Run(e[k + 1].start, e[k + 1].end)
  {
    OffsetsCut(e[k..k + 2], 1, 2);
    OffsetsOfOne(e, k);
    OffsetsOfOne(e, k + 1);
    assert e[k..k + 2][..1] == e[k..k + 1] && e[k..k + 2][1..2] == e[k + 1..k + 2];
    assert e[k..k + 2][2..] == [];
  }

  // ---------------------------------------------------------------------
  // The search of alloc_swap.

  datatype Hit = Below(k: int) | Above(k: int) | Miss(i: int)

  /** One round per iteration.  `goto Repeat` restarts with i == j == k, which
      is the round for the window (j, j). */
  function Search(e: seq<Extent>, p: int, i: int, j: int): (h: Hit)
    requires 0 <= i <= j < |e|
    ensures h.Miss? ==> i <= h.i <= j
    ensures !h.Miss? ==> i <= h.k <= j
    decreases j - i
  {
    var k := (i + j) / 2;
    if p == e[k].start - 1 then Below(k)
    else if p == e[k].end then Above(k)
    else if p > e[k].end then
      if i == k then
        if i < j then Search(e, p, j, j) else Miss(i)
      else Search(e, p, k, j)
    else
      if i < k then Search(e, p, i, k) else Miss(i)
  }

  /** A hit is on a neighbour that p can be merged with; a miss is next to the gap
      that holds p. */
  ghost predicate Rightly(e: seq<Extent>, p: int, h: Hit) {
    match h
    case Below(k) => 0 <= k < |e| && p + 1 == e[k].start
    case Above(k) => 0 <= k < |e| && p == e[k].end
    case Miss(n) =>
      && 0 <= n < |e|
      && (n > 0 ==> e[n - 1].end < p)
      && (n < |e| - 1 ==> p + 1 < e[n + 1].start)
      && (e[n].end < p || p + 1 < e[n].start)
  }

  /** The search never misses a mergeable neighbour. */
  lemma {:induction false} SearchFinds(e: seq<Extent>, p: int, i: int, j: int)
    requires Canonical(e) && p !in Offsets(e) && 0 <= i <= j < |e|
    requires i > 0 ==> e[i - 1].end < p
    requires j < |e| - 1 ==> p + 1 < e[j + 1].start
    ensures Rightly(e, p, Search(e, p, i, j))
    decreases j - i
  {
    hide Canonical, Offsets;
    var k := (i + j) / 2;
    NotInOffsets(e, p, k);
    CanonicalAround(e, k);
    if p == e[k].start - 1 || p == e[k].end {
    } else if p > e[k].end {
      if i == k {
        if i < j { SearchFinds(e, p, j, j); }
      } else {
        SearchFinds(e, p, k, j);
      }
    } else if i < k {
      SearchFinds(e, p, i, k);
    }
  }

  // ---------------------------------------------------------------------
  // One round of alloc_swap on the whole slot array.

  datatype Placed = Placed(slots: seq<Extent>, nr: int)

  /** memmove of the slots k+1 .. nr one place down: slot nr-1 keeps its value. */
  function PullForward(s: seq<Extent>, k: int, nr: int): (r: seq<Extent>)
    requires 0 <= k < nr <= |s|
    ensures |r| == |s|
  {
    s[..k] + s[k + 1..nr] + s[nr - 1..]
  }

  /** memmove of the slots k .. nr one place up, then slot k is overwritten. */
  function PushBack(s: seq<Extent>, k: int, nr: int, e: Extent): (r: seq<Extent>)
    requires 0 <= k <= nr < |s|
    ensures |r| == |s|
  {
    s[..k] + [e] + s[k..nr] + s[nr + 1..]
  }

  function Place(s: seq<Extent>, nr: int, p: int): (r: Placed)
    requires |s| >= 2 && 1 <= nr < |s|
    ensures |r.slots| == |s| && 1 <= r.nr <= |s|
  {
    Apply(s, nr, p, Search(s[..nr], p, 0, nr - 1))
  }

  function Apply(s: seq<Extent>, nr: int, p: int, h: Hit): (r: Placed)
    requires |s| >= 2 && 1 <= nr < |s| && 0 <= (if h.Miss? then h.i else h.k) < nr
    ensures |r.slots| == |s| && 1 <= r.nr <= |s|
  {
    match h
    case Below(k) =>
      var t := s[k := Extent(p, s[k].end)];
      if k > 0 && t[k - 1].end == p
      then Placed(PullForward(t[k - 1 := Extent(t[k - 1].start, t[k].end)], k, nr), nr - 1)
      else Placed(t, nr)
    case Above(k) =>
      var t := s[k := Extent(s[k].start, p + 1)];
      if k + 1 < nr && t[k].end == t[k + 1].start
      then Placed(PullForward(t[k := Extent(t[k].start, t[k + 1].end)], k + 1, nr), nr - 1)
      else Placed(t, nr)
    case Miss(i) =>
      if nr < |s| - 1
      then Placed(PushBack(s, if p > s[i].end then i + 1 else i, nr, Extent(p, p + 1)), nr + 1)
      else Placed(s[nr := Extent(p, p + 1)], nr + 1)
  }

  /** Place is the linear insertion, unless there is no room for another extent:
      then the page becomes the carry in the last slot. */
  lemma PlaceRefinesInsert(s: seq<Extent>, nr: int, p: int)
    requires |s| >= 2 && 1 <= nr < |s| && Canonical(s[..nr]) && p !in Offsets(s[..nr])
    ensures var r := Place(s, nr, p);
            if r.nr < |s|
            then r.slots[..r.nr] == Insert(s[..nr], p)
            else r.slots == s[nr := Extent(p, p + 1)] && nr == |s| - 1
                 && |Insert(s[..nr], p)| == nr + 1
  {
    hide Canonical, Offsets, Search, Apply, Insert;
    var e := s[..nr];
    SearchFinds(e, p, 0, nr - 1);
    match Search(e, p, 0, nr - 1)
    case Below(k) => PlaceBelow(s, nr, p, k);
    case Above(k) => PlaceAbove(s, nr, p, k);
    case Miss(i) => PlaceMiss(s, nr, p, i);
  }

  lemma PullForwardTake(s: seq<Extent>, k: int, nr: int)
    requires 0 <= k < nr <= |s|
    ensures PullForward(s, k, nr)[..nr - 1] == s[..k] + s[k + 1..nr]
  {
  }

  lemma PushBackTake(s: seq<Extent>, k: int, nr: int, e: Extent)
    requires 0 <= k <= nr < |s|
    ensures PushBack(s, k, nr, e)[..nr + 1] == s[..k] + [e] + s[k..nr]
  {
  }

  lemma PlaceBelow(s: seq<Extent>, nr: int, p: int, k: int)
    requires |s| >= 2 && 1 <= nr < |s| && Canonical(s[..nr])
    requires 0 <= k < nr && p + 1 == s[k].start
    ensures var r := Apply(s, nr, p, Below(k)); r.nr < |s| && r.slots[..r.nr] == Insert(s[..nr], p)
  {
    hide Canonical, Insert, Search, PullForward;
    var e := s[..nr];
    var t := s[k := Extent(p, s[k].end)];
    if k > 0 && e[k - 1].end == p {
      InsertJoins(e, p, k);
      var u := t[k - 1 := Extent(t[k - 1].start, t[k].end)];
      PullForwardTake(u, k, nr);
      assert u[..k] == e[..k - 1] + [Extent(e[k - 1].start, e[k].end)];
      assert u[k + 1..nr] == e[k + 1..];
    } else {
      InsertBelow(e, p, k);
      assert t[..nr] == e[..k] + [Extent(p, e[k].end)] + e[k + 1..];
    }
  }

  /** A page that fills the gap between two extents joins them. */
  lemma InsertJoins(e: seq<Extent>, p: int, k: nat)
    requires Canonical(e) && 0 < k < |e| && e[k - 1].end == p && p + 1 == e[k].start
    ensures Insert(e, p) == e[..k - 1] + [Extent(e[k - 1].start, e[k].end)] + e[k + 1..]
  {
    hide Canonical, Position;
    CanonicalAround(e, k - 1);
    PositionIs(e, p, k - 1);
  }

  lemma InsertBelow(e: seq<Extent>, p: int, k: nat)
    requires Canonical(e) && k < |e| && p + 1 == e[k].start && (k > 0 ==> e[k - 1].end != p)
    ensures Insert(e, p) == e[..k] + [Extent(p, e[k].end)] + e[k + 1..]
  {
    hide Canonical, Position;
    CanonicalAround(e, k);
    PositionIs(e, p, k);
  }

  lemma PlaceAbove(s: seq<Extent>, nr: int, p: int, k: int)
    requires |s| >= 2 && 1 <= nr < |s| && Canonical(s[..nr])
    requires 0 <= k < nr && p == s[k].end
    ensures var r := Apply(s, nr, p, Above(k)); r.nr < |s| && r.slots[..r.nr] == Insert(s[..nr], p)
  {
    hide Canonical, Insert, Search, PullForward;
    var e := s[..nr];
    var t := s[k := Extent(s[k].start, p + 1)];
    InsertAbove(e, p, k);
    if k + 1 < nr && e[k + 1].start == p + 1 {
      InsertJoins(e, p, k + 1);
      var u := t[k := Extent(t[k].start, t[k + 1].end)];
      PullForwardTake(u, k + 1, nr);
      assert u[..k + 1] == e[..k] + [Extent(e[k].start, e[k + 1].end)];
      assert u[k + 2..nr] == e[k + 2..];
    } else {
      assert t[..nr] == e[..k] + [Extent(e[k].start, p + 1)] + e[k + 1..];
    }
  }

  lemma InsertAbove(e: seq<Extent>, p: int, k: nat)
    requires Canonical(e) && k < |e| && p == e[k].end
    ensures k + 1 == |e| || p + 1 != e[k + 1].start ==>
              Insert(e, p) == e[..k] + [Extent(e[k].start, p + 1)] + e[k + 1..]
  {
    hide Canonical, Position;
    CanonicalAround(e, k);
    PositionIs(e, p, k);
  }

  lemma PlaceMiss(s: seq<Extent>, nr: int, p: int, i: int)
    requires |s| >= 2 && 1 <= nr < |s| && Canonical(s[..nr])
    requires 0 <= i < nr
    requires i > 0 ==> s[i - 1].end < p
    requires i < nr - 1 ==> p + 1 < s[i + 1].start
    requires s[i].end < p || p + 1 < s[i].start
    ensures var r := Apply(s, nr, p, Miss(i));
            if r.nr < |s|
            then r.slots[..r.nr] == Insert(s[..nr], p)
            else r.slots == s[nr := Extent(p, p + 1)] && nr == |s| - 1
                 && |Insert(s[..nr], p)| == nr + 1
  {
    hide Canonical, Position, Search;
    var e := s[..nr];
    var at := if p > s[i].end then i + 1 else i;
    CanonicalAround(e, i);
    PositionIs(e, p, at);
    assert Insert(e, p) == Splice(e, at, Extent(p, p + 1), at);
    if nr < |s| - 1 {
      PushBackTake(s, at, nr, Extent(p, p + 1));
      assert s[..at] == e[..at] && s[at..nr] == e[at..];
    }
  }

  // ---------------------------------------------------------------------
  // What is in the slot array while alloc_swap runs.

  /** The slots in use: all but the carry. */
  function Used(s: seq<Extent>, nr: int): (k: int)
    requires 0 <= nr <= |s| && s != []
    ensures 0 <= k <= nr && k < |s|
  {
    if nr < |s| then nr else |s| - 1
  }

  /** Every page of x is a page of e. */
  ghost predicate Within(x: Extent, e: seq<Extent>) {
    forall q :: q in Run(x.start, x.end) ==> q in Offsets(e)
  }

  /** A slot behind the ones in use is empty, or it is a stale copy whose pages
      are still held by the slots in use.  Only the last slot may hold pages of
      its own: that is the carry. */
  ghost predicate Tidy(s: seq<Extent>, nr: int) {
    && |s| >= 2 && 1 <= nr <= |s|
    && Canonical(s[..Used(s, nr)])
    && (forall m :: nr <= m < |s| ==> Within(s[m], s[..nr]))
    && (nr < |s| ==> !Holds(s[|s| - 1]))
    && (nr == |s| ==> 0 < s[nr - 1].start == s[nr - 1].end - 1)
  }

  /** All pages of a slot array: the slots in use and the carry. */
  function Bag(s: seq<Extent>, nr: int): multiset<int>
    requires 0 <= nr <= |s| && s != []
  {
    multiset(Offsets(s[..Used(s, nr)])) + (if nr == |s| then multiset{s[nr - 1].start} else multiset{})
  }

  /** What the slots behind the ones in use may hold after one round. */
  lemma ApplyTail(s: seq<Extent>, nr: int, p: int, h: Hit, m: int)
    requires |s| >= 2 && 1 <= nr < |s| && 0 <= (if h.Miss? then h.i else h.k) < nr
    requires var r := Apply(s, nr, p, h); r.nr < |s| && r.nr <= m < |s|
    requires h.Below? ==> p + 1 == s[h.k].start
    ensures var x := Apply(s, nr, p, h).slots[m];
            || (nr <= m && x == s[m])
            || (m == nr - 1 && x == s[nr - 1])
            || (m == nr - 1 && x == Extent(p, s[nr - 1].end) && p + 1 == s[nr - 1].start)
  {
  }

  lemma WithinGrows(x: Extent, e: seq<Extent>, f: seq<Extent>, p: int)
    requires multiset(Offsets(f)) == multiset(Offsets(e)) + multiset{p}
    requires forall q :: q in Run(x.start, x.end) && q != p ==> q in Offsets(e)
    ensures Within(x, f)
  {
    forall q | q in Run(x.start, x.end) ensures q in Offsets(f) {
      assert q in multiset(Offsets(f));
    }
  }

  lemma WithinSelf(e: seq<Extent>, k: int)
    requires 0 <= k < |e|
    ensures Within(e[k], e)
  {
    forall q | q in Run(e[k].start, e[k].end) ensures q in Offsets(e) {
      InRun(e[k].start, e[k].end, q);
      InOffsets(e, q);
    }
  }

  lemma TailWithin(s: seq<Extent>, nr: int, p: int, x: Extent, f: seq<Extent>)
    requires 1 <= nr <= |s|
    requires multiset(Offsets(f)) == multiset(Offsets(s[..nr])) + multiset{p}
    requires
      || Within(x, s[..nr])
      || x == s[nr - 1]
      || (x == Extent(p, s[nr - 1].end) && p + 1 == s[nr - 1].start)
    ensures Within(x, f)
  {
    var e := s[..nr];
    WithinSelf(e, nr - 1);
    if x == Extent(p, s[nr - 1].end) && p + 1 == s[nr - 1].start {
      forall q | q in Run(p, x.end) && q != p ensures q in Offsets(e) {
        InRun(p, x.end, q);
        InRun(p + 1, x.end, q);
      }
    }
    WithinGrows(x, e, f, p);
  }

  lemma PlaceTail(s: seq<Extent>, nr: int, p: int, m: int)
    requires |s| >= 2 && 1 <= nr < |s| && Canonical(s[..nr]) && p !in Offsets(s[..nr])
    requires Place(s, nr, p).nr < |s| && Place(s, nr, p).nr <= m < |s|
    ensures var x := Place(s, nr, p).slots[m];
            || (nr <= m && x == s[m])
            || x == s[nr - 1]
            || (x == Extent(p, s[nr - 1].end) && p + 1 == s[nr - 1].start)
    ensures m == |s| - 1 ==> Place(s, nr, p).slots[m] == s[m]
  {
    var h := Search(s[..nr], p, 0, nr - 1);
    SearchFinds(s[..nr], p, 0, nr - 1);
    ApplyTail(s, nr, p, h, m);
  }

  /** One round of alloc_swap adds exactly the page obtained from the kernel and
      keeps the array tidy. */
  lemma PlaceKeeps(s: seq<Extent>, nr: int, p: int)
    requires Tidy(s, nr) && nr < |s| && p > 0 && p !in Offsets(s[..nr])
    ensures var r := Place(s, nr, p); Tidy(r.slots, r.nr) && Bag(r.slots, r.nr) == Bag(s, nr) + multiset{p}
  {
    PlaceRefinesInsert(s, nr, p);
    InsertPage(s[..nr], p);
    var r := Place(s, nr, p);
    if r.nr < |s| {
      forall m | r.nr <= m < |s|
        ensures Within(r.slots[m], Insert(s[..nr], p)) && (m == |s| - 1 ==> r.slots[m] == s[m])
      {
        PlaceTail(s, nr, p, m);
        TailWithin(s, nr, p, r.slots[m], Insert(s[..nr], p));
      }
      KeepsRoom(s, nr, p, r.slots, r.nr, Insert(s[..nr], p));
    } else {
      KeepsCarry(s, nr, p, r.slots);
    }
  }

  lemma KeepsRoom(s: seq<Extent>, nr: int, p: int, t: seq<Extent>, n: int, f: seq<Extent>)
    requires Tidy(s, nr) && nr < |s| && |t| == |s| && 0 <= n < |t|
    requires t[..n] == f != [] && Canonical(f)
    requires multiset(Offsets(f)) == multiset(Offsets(s[..nr])) + multiset{p}
    requires forall m :: n <= m < |s| ==> Within(t[m], f) && (m == |s| - 1 ==> t[m] == s[m])
    ensures Tidy(t, n) && Bag(t, n) == Bag(s, nr) + multiset{p}
  {
    hide Canonical, Offsets, Within;
    assert Used(t, n) == n >= 1 && Used(s, nr) == nr;
    assert Bag(t, n) == multiset(Offsets(f)) && Bag(s, nr) == multiset(Offsets(s[..nr]));
    assert !Holds(t[|s| - 1]);
  }

  lemma KeepsCarry(s: seq<Extent>, nr: int, p: int, t: seq<Extent>)
    requires Tidy(s, nr) && nr == |s| - 1 && p > 0
    requires t == s[nr := Extent(p, p + 1)]
    ensures Tidy(t, nr + 1) && Bag(t, nr + 1) == Bag(s, nr) + multiset{p}
  {
    assert t[..nr] == s[..nr];
  }
}
