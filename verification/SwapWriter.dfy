/** The file-like writer of suspend.c: pages are taken out of batches of
    preallocated extents; when a batch is used up, its array of extents is saved
    and linked to the location of the next array. */
module SwapWriter {
  import opened Utils
  import opened Extents
  import opened LittleEndian
  import opened SwapSpace
  import opened AllocSwap

  /** An array of extents that has been saved: where, what, and how many of its
      slots were in use. */
  datatype Closed = Closed(loc: nat, slots: seq<Extent>, nr: int)

  /** The state of struct swap_writer, with the devices it works on and, as a
      history, the saved arrays and the offsets handed out so far. */
  datatype Writer = Writer(
    compress: bool,
    slots: seq<Extent>,
    nr: int,
    idx: int,
    cur: int,
    needed: int,
    written: int,
    spc: nat,
    kernel: seq<nat>,
    disk: Disk,
    closed: seq<Closed>,
    used: seq<int>
  ) {
    predicate Shaped() {
      |slots| >= 2 && 0 <= idx < nr < |slots|
    }
  }

  /** A zeroed array of extents with an initial one. */
  function Cleared(length: int, first: Extent): (s: seq<Extent>)
    requires length >= 1
    ensures |s| == length
  {
    seq(length, i => if i == 0 then first else NO_EXTENT)
  }

  /** How many pages to ask for: with compression, half of what may be needed. */
  function Request(compress: bool, needed: int): int {
    if compress && needed > 1 then (needed + 1) / 2 else needed
  }

  lemma RequestIs(compress: bool, needed: int)
    ensures compress && needed > 1 ==> needed <= 2 * Request(compress, needed) <= needed + 1
    ensures !compress || needed <= 1 ==> Request(compress, needed) == needed
  {
  }

  function Preallocate(w: Writer): (r: Option<Writer>)
    requires |w.slots| >= 2 && w.nr <= |w.slots|
    ensures r.Some? ==> r.value.Shaped() && |r.value.slots| == |w.slots|
  {
    if w.needed < 1 then None
    else
      match Allocate(w.slots, w.nr, Request(w.compress, w.needed), w.kernel)
      case None => None
      case Some(a) =>
        Some(w.(slots := a.slots, nr := Used(a.slots, a.nr), idx := 0,
                cur := a.slots[0].start, kernel := a.kernel))
  }

  /** Save the array of extents; unless this is the last one, its last slot is
      made to point at a new page for the next array. */
  function SaveExtents(w: Writer, finish: bool): (r: Option<Writer>)
    requires |w.slots| >= 2
    ensures r.Some? ==> |r.value.slots| == |w.slots|
  {
    if w.spc == 0 then None
    else if finish then Some(w.(disk := w.disk[w.spc := Table(w.slots)], spc := 0))
    else if w.kernel == [] || w.kernel[0] == 0 then None
    else
      var last := |w.slots| - 1;
      var s := w.slots[last := Extent(w.kernel[0], w.slots[last].end)];
      Some(w.(slots := s, disk := w.disk[w.spc := Table(s)], spc := w.kernel[0], kernel := w.kernel[1..]))
  }

  /** The slot behind the extents in use when a batch is exhausted. */
  function Behind(w: Writer): Extent
    requires w.Shaped()
  {
    w.slots[w.idx + 1]
  }

  /** The batch is exhausted: what is behind the extents in use starts the next one. */
  function NextBatch(w: Writer): (r: Option<Writer>)
    requires w.Shaped()
    ensures r.Some? ==> r.value.Shaped() && |r.value.slots| == |w.slots|
  {
    var carry := Holds(Behind(w));
    var first := if carry then Behind(w) else NO_EXTENT;
    var s := if carry then w.slots[w.idx + 1 := NO_EXTENT] else w.slots;
    match SaveExtents(w.(slots := s, nr := if carry then 1 else 0), false)
    case None => None
    case Some(v) =>
      Preallocate(v.(slots := Cleared(|w.slots|, first),
                     closed := w.closed + [Closed(w.spc, v.slots, w.nr)]))
  }

  predicate Exhausted(w: Writer)
    requires w.Shaped()
  {
    w.cur + 1 >= w.slots[w.idx].end && w.idx + 1 >= w.nr
  }

  function Advance(w: Writer): (r: Option<Writer>)
    requires w.Shaped()
    ensures r.Some? ==> r.value.Shaped() && |r.value.slots| == |w.slots|
  {
    if w.cur + 1 < w.slots[w.idx].end then Some(w.(cur := w.cur + 1))
    else if w.idx + 1 < w.nr then Some(w.(idx := w.idx + 1, cur := w.slots[w.idx + 1].start))
    else NextBatch(w)
  }

  /** next_swap_page: the offset is the new `cur`. */
  function NextSwapPage(w: Writer): (r: Option<Writer>)
    requires w.Shaped()
    ensures r.Some? ==> r.value.Shaped() && |r.value.slots| == |w.slots| && r.value.cur > 0
  {
    match Advance(w)
    case None => None
    case Some(v) => if v.cur <= 0 then None else Some(v.(used := v.used + [v.cur]))
  }

  function SavePage(w: Writer, src: Bytes): (r: Option<Writer>)
    requires w.Shaped()
    ensures r.Some? ==> r.value.Shaped() && |r.value.slots| == |w.slots|
  {
    match NextSwapPage(w)
    case None => None
    case Some(v) =>
      Some(v.(disk := v.disk[v.cur as nat := Data(src)], needed := v.needed - 1, written := v.written + 1))
  }

  /** A run of save_page calls. */
  function SavePages(w: Writer, pages: seq<Bytes>): (r: Option<Writer>)
    requires w.Shaped()
    ensures r.Some? ==> r.value.Shaped() && |r.value.slots| == |w.slots|
    decreases |pages|
  {
    if pages == [] then Some(w)
    else
      match SavePages(w, pages[..|pages| - 1])
      case None => None
      case Some(v) => SavePage(v, pages[|pages| - 1])
  }

  /** The state after init_swap_writer. */
  function Opened(compress: bool, length: int, needed: int, kernel: seq<nat>, disk: Disk): Writer
    requires length >= 2 && kernel != []
  {
    Writer(compress, Cleared(length, NO_EXTENT), 0, 0, 0, needed, 0, kernel[0], kernel[1..], disk, [], [])
  }

  lemma {:induction false} SavePagesConcat(w: Writer, a: seq<Bytes>, b: seq<Bytes>)
    requires w.Shaped()
    ensures SavePages(w, a + b) == match SavePages(w, a) case None => None case Some(v) => SavePages(v, b)
    decreases |b|
  {
    if b == [] {
      assert a + b == a;
    } else {
      var n := |b| - 1;
      SavePagesConcat(w, a, b[..n]);
      assert (a + b)[..|a + b| - 1] == a + b[..n];
    }
  }

  /** init_swap_writer followed by the first preallocation in write_image: a page
      for the first array of extents, a batch, and the cursor moved one page
      back for the first call of next_swap_page. */
  function Start(compress: bool, length: int, needed: int, kernel: seq<nat>, disk: Disk): (r: Option<Writer>)
    requires length >= 2
    ensures r.Some? ==> r.value.Shaped() && |r.value.slots| == length
  {
    if kernel == [] || kernel[0] == 0 then None
    else
      match Preallocate(Opened(compress, length, needed, kernel, disk))
      case None => None
      case Some(w) => Some(w.(cur := w.cur - 1))
  }
}
