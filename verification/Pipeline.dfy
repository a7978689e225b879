/** The three threads that save an image: one step per action under a lock, and
    waits as guards.  Runs without errors only. */
module Pipeline {
  import opened Utils
  import opened LittleEndian
  import opened ImageFormat

  const WRITE_BUFFERS := 4
  const ENCRYPT_BUF_PAGES := 256

  /** What the threads work on: the contents of the write buffers in the order in
      which the main thread hands them over, page by page. */
  datatype Job = Job(codec: Codec, input: seq<seq<Bytes>>) {
    ghost predicate Valid() {
      forall b :: b in input ==> b != []
    }
  }

  /** TestSave and TestMove hold finish_mutex. */
  datatype MainPc = Filling | Handing | Locking | TestSave | TestMove | Asleep | Finished

  /** MvPage(i): about to process page i; MvStored(i): page i is encrypted and in
      the ring, save_start not yet advanced. */
  datatype MovePc = MvWait | MvPage(i: nat) | MvStored(i: nat) | MvFinish

  /** SvSave: inside save_page; SvSaved: save_end not yet advanced. */
  datatype SavePc = SvWait | SvSave | SvSaved

  /** The shared variables and the program counters; `handed`, `taken`, `put` and
      `gone` count how often move_start, move_end, save_start and save_end were
      advanced. */
  datatype State = State(
    main: MainPc, move: MovePc, save: SavePc,
    moveStart: nat, moveEnd: nat, saveStart: nat, saveEnd: nat,
    writeBuffers: seq<seq<Bytes>>, encryptBuffer: seq<Bytes>,
    cipher: Bytes, saved: seq<Bytes>,
    handed: nat, taken: nat, put: nat, gone: nat
  )

  datatype Step =
    | MainFill | MainHand | MainEnd | MainLock | MainTestSave | MainTestMove
    | MoveTake | MovePage | MovePublish | MoveRelease
    | SaveTake | SavePage | SaveRelease

  function MoveInc(i: nat): nat {
    (i + 1) % WRITE_BUFFERS
  }

  function SaveInc(i: nat): nat {
    (i + 1) % ENCRYPT_BUF_PAGES
  }

  /** start_threads, with arbitrary contents of the buffers. */
  ghost predicate Init(job: Job, s: State) {
    && s.main == Filling && s.move == MvWait && s.save == SvWait
    && s.moveStart == s.moveEnd == 0 && s.saveStart == s.saveEnd == 0
    && |s.writeBuffers| == WRITE_BUFFERS && |s.encryptBuffer| == ENCRYPT_BUF_PAGES
    && s.cipher == job.codec.iv && s.saved == []
    && s.handed == s.taken == s.put == s.gone == 0
  }

  /** finish_mutex is free. */
  predicate FinishFree(s: State) {
    s.main != TestSave && s.main != TestMove
  }

  /** Signalling finish_cond. */
  function Woken(pc: MainPc): MainPc {
    if pc == Asleep then Locking else pc
  }

  predicate InRange(s: State) {
    && s.moveStart < |s.writeBuffers| && s.moveEnd < |s.writeBuffers|
    && s.saveStart < |s.encryptBuffer| && s.saveEnd < |s.encryptBuffer|
  }

  function Index(pc: MovePc): nat {
    match pc case MvPage(i) => i case MvStored(i) => i case _ => 0
  }

  predicate Enabled(job: Job, s: State, step: Step) {
    InRange(s) &&
    match step
    case MainFill => s.main == Filling && s.handed < |job.input|
    case MainHand => s.main == Handing && MoveInc(s.moveStart) != s.moveEnd
    case MainEnd => s.main == Filling && s.handed >= |job.input|
    case MainLock => s.main == Locking
    case MainTestSave => s.main == TestSave
    case MainTestMove => s.main == TestMove
    case MoveTake => s.move == MvWait && s.moveEnd != s.moveStart
    case MovePage => s.move.MvPage? && s.move.i < |s.writeBuffers[s.moveEnd]|
    case MovePublish => s.move.MvStored? && SaveInc(s.saveStart) != s.saveEnd
    case MoveRelease => s.move == MvFinish && FinishFree(s)
    case SaveTake => s.save == SvWait && s.saveEnd != s.saveStart
    case SavePage => s.save == SvSave
    case SaveRelease => s.save == SvSaved && FinishFree(s)
  }

  function NextPage(s: State): MovePc
    requires InRange(s)
  {
    var i := Index(s.move);
    if i + 1 < |s.writeBuffers[s.moveEnd]| then MvPage(i + 1) else MvFinish
  }

  function After(job: Job, s: State, step: Step): State
    requires Enabled(job, s, step)
  {
    match step
    case MainFill => s.(main := Handing, writeBuffers := s.writeBuffers[s.moveStart := job.input[s.handed]])
    case MainHand => s.(main := Filling, moveStart := MoveInc(s.moveStart), handed := s.handed + 1)
    case MainEnd => s.(main := Locking)
    case MainLock => s.(main := TestSave)
    case MainTestSave => s.(main := if s.saveEnd != s.saveStart then Asleep else TestMove)
    case MainTestMove => s.(main := if s.moveStart != s.moveEnd then Asleep else Finished)
    case MoveTake => s.(move := MvPage(0))
    case MovePage =>
      var (c, page) := Encrypt(job.codec, s.cipher, s.writeBuffers[s.moveEnd][s.move.i]);
      if job.codec.encrypt
      then s.(move := MvStored(s.move.i), cipher := c, encryptBuffer := s.encryptBuffer[s.saveStart := page])
      else s.(move := NextPage(s), cipher := c, saved := s.saved + [page])
    case MovePublish => s.(move := NextPage(s), saveStart := SaveInc(s.saveStart), put := s.put + 1)
    case MoveRelease => s.(move := MvWait, moveEnd := MoveInc(s.moveEnd), taken := s.taken + 1, main := Woken(s.main))
    case SaveTake => s.(save := SvSave)
    case SavePage => s.(save := SvSaved, saved := s.saved + [s.encryptBuffer[s.saveEnd]])
    case SaveRelease => s.(save := SvWait, saveEnd := SaveInc(s.saveEnd), gone := s.gone + 1, main := Woken(s.main))
  }

  // ---------------------------------------------------------------------
  // The invariant.

  /** All pages, and all pages as they go through save_page without threads. */
  function Pages(job: Job): seq<Bytes> {
    Concat(job.input)
  }

  function Stream(job: Job): (e: seq<Bytes>)
    ensures |e| == |Pages(job)|
  {
    EncryptAll(job.codec, job.codec.iv, Pages(job))
  }

  function PagesBefore(job: Job, b: nat): nat
    requires b <= |job.input|
  {
    |Concat(job.input[..b])|
  }

  /** How many pages the move thread has processed. */
  function Moved(job: Job, s: State): nat
    requires s.taken <= |job.input|
  {
    PagesBefore(job, s.taken) +
    match s.move
    case MvWait => 0
    case MvPage(i) => i
    case MvStored(i) => i + 1
    case MvFinish => if s.taken < |job.input| then |job.input[s.taken]| else 0
  }

  ghost predicate MoveRing(job: Job, s: State) {
    && |s.writeBuffers| == WRITE_BUFFERS
    && s.taken <= s.handed <= |job.input| && s.handed - s.taken < WRITE_BUFFERS
    && s.moveStart == s.handed % WRITE_BUFFERS && s.moveEnd == s.taken % WRITE_BUFFERS
    && (forall b :: s.taken <= b < s.handed ==> s.writeBuffers[b % WRITE_BUFFERS] == job.input[b])
    && (s.main == Handing ==> s.handed < |job.input| && s.writeBuffers[s.moveStart] == job.input[s.handed])
    && (s.main != Filling && s.main != Handing ==> s.handed == |job.input|)
    && (s.move != MvWait ==> s.taken < s.handed)
    && (s.move.MvPage? || s.move.MvStored? ==> Index(s.move) < |job.input[s.taken]|)
  }

  ghost predicate SaveRing(job: Job, s: State)
    requires s.taken <= |job.input|
  {
    var e := Stream(job);
    && |s.encryptBuffer| == ENCRYPT_BUF_PAGES
    && s.gone <= s.put && s.put - s.gone < ENCRYPT_BUF_PAGES && s.put <= |e|
    && s.saveStart == s.put % ENCRYPT_BUF_PAGES && s.saveEnd == s.gone % ENCRYPT_BUF_PAGES
    && (forall q :: s.gone <= q < s.put ==> s.encryptBuffer[q % ENCRYPT_BUF_PAGES] == e[q])
    && (s.save != SvWait ==> s.gone < s.put)
    && (s.move.MvStored? ==> job.codec.encrypt && s.put < |e| && s.encryptBuffer[s.saveStart] == e[s.put])
  }

  ghost predicate DataOk(job: Job, s: State)
    requires s.taken <= |job.input|
  {
    var e, m := Stream(job), Moved(job, s);
    && m <= |e|
    && s.cipher == StateAfter(job.codec, job.codec.iv, Pages(job)[..m])
    && (if job.codec.encrypt
        then s.put == (if s.move.MvStored? then m - 1 else m)
             && s.gone + (if s.save == SvSaved then 1 else 0) <= |e|
             && s.saved == e[..s.gone + if s.save == SvSaved then 1 else 0]
        else s.put == 0 && s.save == SvWait && s.saved == e[..m])
  }

  /** What wait_for_finish has learned from its first test; nothing can make it
      wrong before the second one, because move_end cannot advance meanwhile. */
  ghost predicate FinishOk(job: Job, s: State) {
    && (s.main == TestMove ==> (s.taken == s.handed ==> s.put == s.gone))
    && (s.main == Asleep ==> s.put != s.gone || s.taken != s.handed)
    && (s.main == Finished ==> s.taken == s.handed && s.put == s.gone)
  }

  ghost predicate Inv(job: Job, s: State) {
    MoveRing(job, s) && SaveRing(job, s) && DataOk(job, s) && FinishOk(job, s)
  }

  // ---------------------------------------------------------------------
  // Arithmetic of the rings and of the stream.

  lemma Rem4(x: nat, q: nat, r: nat)
    requires x == 4 * q + r && r < 4
    ensures x % 4 == r
  {
  }

  lemma Rem256(x: nat, q: nat, r: nat)
    requires x == 256 * q + r && r < 256
    ensures x % 256 == r
  {
  }

  lemma NextSlot(x: nat)
    ensures MoveInc(x % WRITE_BUFFERS) == (x + 1) % WRITE_BUFFERS
    ensures SaveInc(x % ENCRYPT_BUF_PAGES) == (x + 1) % ENCRYPT_BUF_PAGES
  {
    var r := x % 4;
    if r < 3 { Rem4(x + 1, x / 4, r + 1); } else { Rem4(x + 1, x / 4 + 1, 0); }
    NextSaveSlot(x);
  }

  lemma NextSaveSlot(x: nat)
    ensures SaveInc(x % ENCRYPT_BUF_PAGES) == (x + 1) % ENCRYPT_BUF_PAGES
  {
    var r := x % 256;
    if r < 255 { Rem256(x + 1, x / 256, r + 1); } else { Rem256(x + 1, x / 256 + 1, 0); }
  }

  lemma SlotsDiffer(a: nat, b: nat)
    requires a < b
    ensures b - a < WRITE_BUFFERS ==> a % WRITE_BUFFERS != b % WRITE_BUFFERS
    ensures b - a < ENCRYPT_BUF_PAGES ==> a % ENCRYPT_BUF_PAGES != b % ENCRYPT_BUF_PAGES
  {
    if b - a < 4 {
      var r := a % 4 + (b - a);
      if r < 4 { Rem4(b, a / 4, r); } else { Rem4(b, a / 4 + 1, r - 4); }
    }
    SaveSlotsDiffer(a, b);
  }

  lemma SaveSlotsDiffer(a: nat, b: nat)
    requires a < b
    ensures b - a < ENCRYPT_BUF_PAGES ==> a % ENCRYPT_BUF_PAGES != b % ENCRYPT_BUF_PAGES
  {
    if b - a < 256 {
      var r := a % 256 + (b - a);
      if r < 256 { Rem256(b, a / 256, r); } else { Rem256(b, a / 256 + 1, r - 256); }
    }
  }

  /** A full ring: the producer is a whole turn ahead. */
  lemma SlotsMeet(a: nat)
    ensures (a + WRITE_BUFFERS) % WRITE_BUFFERS == a % WRITE_BUFFERS
    ensures (a + ENCRYPT_BUF_PAGES) % ENCRYPT_BUF_PAGES == a % ENCRYPT_BUF_PAGES
  {
    Rem4(a + 4, a / 4 + 1, a % 4);
    Rem256(a + 256, a / 256 + 1, a % 256);
  }

  lemma {:induction false} ConcatSplit(bs: seq<seq<Bytes>>, k: nat)
    requires k <= |bs|
    ensures Concat(bs) == Concat(bs[..k]) + Concat(bs[k..])
  {
    if k == 0 {
      assert bs[..0] == [] && bs[0..] == bs;
    } else {
      ConcatSplit(bs[1..], k - 1);
      assert bs[..k][1..] == bs[1..][..k - 1] && bs[1..][k - 1..] == bs[k..];
      Assoc(bs[0], Concat(bs[1..][..k - 1]), Concat(bs[k..]));
    }
  }

  /** Page i of buffer b in the sequence of all pages. */
  lemma PageAt(job: Job, b: nat)
    requires b < |job.input|
    ensures PagesBefore(job, b + 1) == PagesBefore(job, b) + |job.input[b]| <= |Pages(job)|
    ensures forall i :: 0 <= i < |job.input[b]| ==> Pages(job)[PagesBefore(job, b) + i] == job.input[b][i]
  {
    ConcatSplit(job.input, b + 1);
    assert job.input[..b + 1] == job.input[..b] + [job.input[b]];
    ConcatLast(job.input[..b], job.input[b]);
  }

  /** The next page of the stream is the encryption of the next page. */
  lemma StreamAt(job: Job, m: nat)
    requires m < |Pages(job)|
    ensures var (c, page) := Encrypt(job.codec, StateAfter(job.codec, job.codec.iv, Pages(job)[..m]), Pages(job)[m]);
            Stream(job)[m] == page && c == StateAfter(job.codec, job.codec.iv, Pages(job)[..m + 1])
  {
    var p := Pages(job);
    EncryptLast(job.codec, job.codec.iv, p[..m], p[m]);
    assert p[..m + 1] == p[..m] + [p[m]];
    EncryptConcat(job.codec, job.codec.iv, p[..m + 1], p[m + 1..]);
    assert p == p[..m + 1] + p[m + 1..];
  }

  // ---------------------------------------------------------------------
  // Every step keeps the invariant.

  lemma InitOk(job: Job, s: State)
    requires Init(job, s)
    ensures Inv(job, s)
  {
    assert job.input[..0] == [];
  }

  lemma MainFillKeeps(job: Job, s: State)
    requires Inv(job, s) && Enabled(job, s, MainFill)
    ensures Inv(job, After(job, s, MainFill))
  {
    hide Stream, StateAfter, Pages, PagesBefore, Encrypt;
    forall b | s.taken <= b < s.handed ensures b % WRITE_BUFFERS != s.moveStart {
      SlotsDiffer(b, s.handed);
    }
  }

  lemma MainHandKeeps(job: Job, s: State)
    requires Inv(job, s) && Enabled(job, s, MainHand)
    ensures Inv(job, After(job, s, MainHand))
  {
    hide Stream, StateAfter, Pages, PagesBefore, Encrypt;
    NextSlot(s.handed);
    SlotsMeet(s.taken);
    assert s.handed + 1 != s.taken + WRITE_BUFFERS;
  }

  lemma MainFinishKeeps(job: Job, s: State, step: Step)
    requires Inv(job, s) && Enabled(job, s, step)
    requires step in {MainEnd, MainLock, MainTestSave, MainTestMove}
    ensures Inv(job, After(job, s, step))
  {
    hide Inv, After, Enabled;
    if step in {MainEnd, MainLock} { MainEndKeeps(job, s, step); } else { MainTestKeeps(job, s, step); }
  }

  lemma MainEndKeeps(job: Job, s: State, step: Step)
    requires Inv(job, s) && Enabled(job, s, step) && step in {MainEnd, MainLock}
    ensures Inv(job, After(job, s, step))
  {
    hide Stream, StateAfter, Pages, PagesBefore, Encrypt, MoveInc, SaveInc;
  }

  lemma MainTestKeeps(job: Job, s: State, step: Step)
    requires Inv(job, s) && Enabled(job, s, step) && step in {MainTestSave, MainTestMove}
    ensures Inv(job, After(job, s, step))
  {
    hide Stream, StateAfter, Pages, PagesBefore, Encrypt;
    if s.gone < s.put { SlotsDiffer(s.gone, s.put); }
    if s.taken < s.handed { SlotsDiffer(s.taken, s.handed); }
  }

  lemma MoveTakeKeeps(job: Job, s: State)
    requires Inv(job, s) && Enabled(job, s, MoveTake) && job.Valid()
    ensures Inv(job, After(job, s, MoveTake))
  {
    hide Stream, StateAfter, Pages, PagesBefore;
    SlotsDiffer(s.taken, s.handed);
    assert job.input[s.taken] in job.input;
    PageAt(job, s.taken);
  }

  lemma MovePublishKeeps(job: Job, s: State)
    requires Inv(job, s) && Enabled(job, s, MovePublish)
    ensures Inv(job, After(job, s, MovePublish))
  {
    hide Stream, StateAfter, Pages, PagesBefore, Encrypt, MoveInc;
    PageAt(job, s.taken);
    NextSlot(s.put);
    SlotsMeet(s.gone);
    assert s.put + 1 != s.gone + ENCRYPT_BUF_PAGES;
  }

  lemma MoveReleaseKeeps(job: Job, s: State)
    requires Inv(job, s) && Enabled(job, s, MoveRelease)
    ensures Inv(job, After(job, s, MoveRelease))
  {
    hide Stream, StateAfter, Pages, PagesBefore;
    PageAt(job, s.taken);
    NextSlot(s.taken);
  }

  lemma MovePageKeeps(job: Job, s: State)
    requires Inv(job, s) && Enabled(job, s, MovePage)
    ensures Inv(job, After(job, s, MovePage))
  {
    hide Stream, StateAfter, Pages, PagesBefore, Encrypt;
    PageAt(job, s.taken);
    StreamAt(job, Moved(job, s));
    forall q | s.gone <= q < s.put ensures q % ENCRYPT_BUF_PAGES != s.saveStart {
      SlotsDiffer(q, s.put);
    }
  }

  lemma SaveKeeps(job: Job, s: State, step: Step)
    requires Inv(job, s) && Enabled(job, s, step)
    requires step in {SaveTake, SavePage, SaveRelease}
    ensures Inv(job, After(job, s, step))
  {
    hide Stream, StateAfter, Pages, PagesBefore, Encrypt;
    match step
    case SaveTake => SlotsDiffer(s.gone, s.put);
    case SavePage =>
    case SaveRelease => NextSlot(s.gone);
  }

  lemma {:induction false} StepKeeps(job: Job, s: State, step: Step)
    requires Inv(job, s) && Enabled(job, s, step) && job.Valid()
    ensures Inv(job, After(job, s, step))
  {
    hide Inv, After, Enabled;
    match step
    case MoveTake => MoveTakeKeeps(job, s);
    case MovePage => MovePageKeeps(job, s);
    case MovePublish => MovePublishKeeps(job, s);
    case MoveRelease => MoveReleaseKeeps(job, s);
    case SaveTake => SaveKeeps(job, s, step);
    case SavePage => SaveKeeps(job, s, step);
    case SaveRelease => SaveKeeps(job, s, step);
    case MainFill => MainFillKeeps(job, s);
    case MainHand => MainHandKeeps(job, s);
    case _ => MainFinishKeeps(job, s, step);
  }

  // ---------------------------------------------------------------------
  // Runs.

  /** The state an interleaving leads to; None if some step was not enabled. */
  function Exec(job: Job, s: State, steps: seq<Step>): (r: Option<State>)
    decreases |steps|
  {
    if steps == [] then Some(s)
    else
      match Exec(job, s, steps[..|steps| - 1])
      case None => None
      case Some(t) =>
        var step := steps[|steps| - 1];
        if Enabled(job, t, step) then Some(After(job, t, step)) else None
  }

  lemma {:induction false} RunKeeps(job: Job, s: State, steps: seq<Step>)
    requires Init(job, s) && job.Valid() && Exec(job, s, steps).Some?
    ensures Inv(job, Exec(job, s, steps).value)
    decreases |steps|
  {
    hide Inv, After, Enabled, Init;
    if steps == [] {
      InitOk(job, s);
    } else {
      RunKeeps(job, s, steps[..|steps| - 1]);
      StepKeeps(job, Exec(job, s, steps[..|steps| - 1]).value, steps[|steps| - 1]);
    }
  }

  /** For every interleaving, the pages passed to save_page are a prefix of those
      the flush path without threads passes: nothing lost, doubled or reordered. */
  lemma SavedInOrder(job: Job, s: State, steps: seq<Step>)
    requires Init(job, s) && job.Valid() && Exec(job, s, steps).Some?
    ensures Exec(job, s, steps).value.saved <= EncryptAll(job.codec, job.codec.iv, Concat(job.input))
  {
    RunKeeps(job, s, steps);
  }

  /** When wait_for_finish returns, every page went through save_page, and no
      other thread is or can get inside it. */
  lemma FinishedMeansSaved(job: Job, s: State, steps: seq<Step>)
    requires Init(job, s) && job.Valid() && Exec(job, s, steps).Some?
    requires Exec(job, s, steps).value.main == Finished
    ensures var t := Exec(job, s, steps).value;
            && t.saved == EncryptAll(job.codec, job.codec.iv, Concat(job.input))
            && t.move == MvWait && t.save == SvWait
            && (forall step :: !Enabled(job, t, step))
  {
    RunKeeps(job, s, steps);
    var t := Exec(job, s, steps).value;
    AllMoved(job, t);
  }

  lemma AllMoved(job: Job, t: State)
    requires Inv(job, t) && t.main == Finished
    ensures Moved(job, t) == |Pages(job)| && t.saved == Stream(job)
    ensures t.move == MvWait && t.save == SvWait
  {
    assert job.input[..|job.input|] == job.input;
  }

  /** No slot of a ring is ever open to its producer and its consumer at once: the
      main thread fills write_buffers[move_start] while the move thread works on
      write_buffers[move_end], and the move thread fills the page at save_start
      while the save thread writes out the one at save_end. */
  /** Who waits, and when: the main thread exactly when three of the four write buffers are
      not yet processed, the move thread when there is none, or when 255 of the 256 encrypted
      pages are not yet saved, the save thread when there is no such page; whoever has
      processed something waits only for the main thread to finish a look at the rings. */
  lemma {:induction false} WaitsExactly(job: Job, s: State, steps: seq<Step>)
    requires Init(job, s) && job.Valid() && Exec(job, s, steps).Some?
    ensures var t := Exec(job, s, steps).value;
            && (t.main == Filling ==> Enabled(job, t, if t.handed < |job.input| then MainFill else MainEnd))
            && (t.main == Handing ==> (Enabled(job, t, MainHand) <==> t.handed - t.taken < 3))
            && (t.main == Locking ==> Enabled(job, t, MainLock))
            && (t.main == TestSave ==> Enabled(job, t, MainTestSave))
            && (t.main == TestMove ==> Enabled(job, t, MainTestMove))
            && (t.move == MvWait ==> (Enabled(job, t, MoveTake) <==> t.taken < t.handed))
            && (t.move.MvPage? ==> Enabled(job, t, MovePage))
            && (t.move.MvStored? ==> (Enabled(job, t, MovePublish) <==> t.put - t.gone < 255))
            && (t.save == SvWait ==> (Enabled(job, t, SaveTake) <==> t.gone < t.put))
            && (t.save == SvSave ==> Enabled(job, t, SavePage))
  {
    hide Exec, Inv, Enabled;
    RunKeeps(job, s, steps);
    WriteRingWaits(job, Exec(job, s, steps).value);
    EncryptRingWaits(job, Exec(job, s, steps).value);
  }

  lemma WriteRingWaits(job: Job, t: State)
    requires Inv(job, t)
    ensures t.main == Filling ==> Enabled(job, t, if t.handed < |job.input| then MainFill else MainEnd)
    ensures t.main == Handing ==> (Enabled(job, t, MainHand) <==> t.handed - t.taken < 3)
    ensures t.main == Locking ==> Enabled(job, t, MainLock)
    ensures t.main == TestSave ==> Enabled(job, t, MainTestSave)
    ensures t.main == TestMove ==> Enabled(job, t, MainTestMove)
    ensures t.move == MvWait ==> (Enabled(job, t, MoveTake) <==> t.taken < t.handed)
    ensures t.move.MvPage? ==> Enabled(job, t, MovePage)
  {
    hide Stream, StateAfter, Pages, Encrypt, PagesBefore, DataOk;
    NextSlot(t.handed);
    RingWaits(t.taken, t.handed);
  }

  lemma EncryptRingWaits(job: Job, t: State)
    requires Inv(job, t)
    ensures t.move.MvStored? ==> (Enabled(job, t, MovePublish) <==> t.put - t.gone < 255)
    ensures t.save == SvWait ==> (Enabled(job, t, SaveTake) <==> t.gone < t.put)
    ensures t.save == SvSave ==> Enabled(job, t, SavePage)
  {
    hide Stream, StateAfter, Pages, Encrypt, PagesBefore, DataOk;
    NextSlot(t.put);
    RingWaits(t.gone, t.put);
  }

  /** A ring with `done` taken out of `made`: empty, and full. */
  lemma RingWaits(done: nat, made: nat)
    requires done <= made
    ensures made - done < WRITE_BUFFERS ==>
              (made % WRITE_BUFFERS == done % WRITE_BUFFERS <==> made == done)
              && ((made + 1) % WRITE_BUFFERS == done % WRITE_BUFFERS <==> made - done == 3)
    ensures made - done < ENCRYPT_BUF_PAGES ==>
              (made % ENCRYPT_BUF_PAGES == done % ENCRYPT_BUF_PAGES <==> made == done)
              && ((made + 1) % ENCRYPT_BUF_PAGES == done % ENCRYPT_BUF_PAGES <==> made - done == 255)
  {
    if done < made { SlotsDiffer(done, made); }
    SlotsDiffer(done, made + 1);
    SlotsMeet(done);
  }

  lemma {:induction false} SlotsExclusive(job: Job, s: State, steps: seq<Step>)
    requires Init(job, s) && job.Valid() && Exec(job, s, steps).Some?
    ensures var t := Exec(job, s, steps).value;
            && (t.move != MvWait ==> t.moveEnd != t.moveStart)
            && (t.save != SvWait ==> t.saveEnd != t.saveStart)
  {
    RunKeeps(job, s, steps);
    var t := Exec(job, s, steps).value;
    if t.move != MvWait { SlotsDiffer(t.taken, t.handed); }
    if t.save != SvWait { SlotsDiffer(t.gone, t.put); }
  }

  // ---------------------------------------------------------------------
  // The pipeline cannot get stuck and cannot run forever.

  /** Some thread can move as long as the main thread is not done. */
  lemma NeverStuck(job: Job, s: State, steps: seq<Step>)
    requires Init(job, s) && job.Valid() && Exec(job, s, steps).Some?
    requires Exec(job, s, steps).value.main != Finished
    ensures exists step :: Enabled(job, Exec(job, s, steps).value, step)
  {
    RunKeeps(job, s, steps);
    var step := SomeStep(job, Exec(job, s, steps).value);
  }

  lemma SomeStep(job: Job, t: State) returns (step: Step)
    requires Inv(job, t) && t.main != Finished
    ensures Enabled(job, t, step)
  {
    hide Stream, StateAfter, Pages, PagesBefore, Encrypt;
    match t.main
    case Filling => step := if t.handed < |job.input| then MainFill else MainEnd;
    case Locking => step := MainLock;
    case TestSave => step := MainTestSave;
    case TestMove => step := MainTestMove;
    case Handing =>
      if MoveInc(t.moveStart) != t.moveEnd {
        step := MainHand;
      } else {
        NextSlot(t.handed);
        step := MoverStep(job, t);
      }
    case Asleep =>
      if t.taken < t.handed {
        step := MoverStep(job, t);
      } else {
        step := SaverStep(job, t);
      }
  }

  lemma MoverStep(job: Job, t: State) returns (step: Step)
    requires Inv(job, t) && t.taken < t.handed && FinishFree(t)
    ensures Enabled(job, t, step)
  {
    hide Stream, StateAfter, Pages, PagesBefore, Encrypt;
    SlotsDiffer(t.taken, t.handed);
    match t.move
    case MvWait => step := MoveTake;
    case MvPage(i) => step := MovePage;
    case MvFinish => step := MoveRelease;
    case MvStored(i) =>
      NextSlot(t.put);
      if SaveInc(t.saveStart) != t.saveEnd {
        step := MovePublish;
      } else {
        step := SaverStep(job, t);
      }
  }

  lemma SaverStep(job: Job, t: State) returns (step: Step)
    requires Inv(job, t) && t.gone < t.put && FinishFree(t)
    ensures Enabled(job, t, step)
  {
    hide Stream, StateAfter, Pages, PagesBefore, Encrypt;
    SlotsDiffer(t.gone, t.put);
    match t.save
    case SvWait => step := SaveTake;
    case SvSave => step := SavePage;
    case SvSaved => step := SaveRelease;
  }

  /** Work left: buffers to hand over and to move, pages to process, to put into
      the ring and to save; and how far wait_for_finish is. */
  function Work(job: Job, s: State): int
    requires s.taken <= |job.input|
  {
    var n, t := |job.input|, |Pages(job)|;
    4 * (2 * (n - s.handed) - (if s.main == Handing then 1 else 0)
         + 2 * (n - s.taken) - (if s.move == MvWait then 0 else 1)
         + (t - Moved(job, s)) + (t - s.put)
         + 3 * (t - s.gone) - (match s.save case SvWait => 0 case SvSave => 1 case SvSaved => 2))
    + match s.main
      case Filling => 5 case Handing => 5 case Locking => 4 case TestSave => 3
      case TestMove => 2 case Asleep => 1 case Finished => 0
  }

  lemma WorkDecreases(job: Job, s: State, step: Step)
    requires Inv(job, s) && Enabled(job, s, step) && job.Valid()
    ensures Inv(job, After(job, s, step))
    ensures var t := After(job, s, step); t.taken <= |job.input| && 0 <= Work(job, t) < Work(job, s)
  {
    hide Inv, After, Enabled, Work;
    InvTaken(job, s);
    StepKeeps(job, s, step);
    InvTaken(job, After(job, s, step));
    WorkIsNat(job, After(job, s, step));
    match step
    case MoveTake => MoverWorks(job, s, step);
    case MovePage => MoverWorks(job, s, step);
    case MovePublish => MoverWorks(job, s, step);
    case MoveRelease => MoverReleases(job, s);
    case _ => OthersWork(job, s, step);
  }

  lemma OthersWork(job: Job, s: State, step: Step)
    requires Inv(job, s) && Enabled(job, s, step)
    requires step !in {MoveTake, MovePage, MovePublish, MoveRelease}
    ensures After(job, s, step).taken == s.taken && Work(job, After(job, s, step)) < Work(job, s)
  {
    hide Stream, StateAfter, Pages, PagesBefore, Encrypt, SaveRing, FinishOk, DataOk;
    assert Moved(job, After(job, s, step)) == Moved(job, s);
  }

  lemma MoverWorks(job: Job, s: State, step: Step)
    requires Inv(job, s) && Enabled(job, s, step) && step in {MoveTake, MovePage, MovePublish}
    ensures After(job, s, step).taken == s.taken && Work(job, After(job, s, step)) < Work(job, s)
  {
    hide Stream, StateAfter, Pages, PagesBefore, Encrypt, SaveRing, FinishOk, DataOk;
  }

  lemma MoverReleases(job: Job, s: State)
    requires Inv(job, s) && Enabled(job, s, MoveRelease)
    ensures var t := After(job, s, MoveRelease); t.taken <= |job.input| && Work(job, t) < Work(job, s)
  {
    hide Stream, StateAfter, Pages, PagesBefore, Encrypt, SaveRing, FinishOk, DataOk;
    PageAt(job, s.taken);
    assert Moved(job, After(job, s, MoveRelease)) == Moved(job, s);
  }

  lemma WorkIsNat(job: Job, s: State)
    requires Inv(job, s)
    ensures Work(job, s) >= 0
  {
    hide StateAfter, Pages, PagesBefore, Encrypt;
  }

  /** Every interleaving ends after at most this many steps. */
  lemma {:induction false} RunsEnd(job: Job, s: State, steps: seq<Step>)
    requires Init(job, s) && job.Valid() && Exec(job, s, steps).Some?
    ensures var t := Exec(job, s, steps).value;
            t.taken <= |job.input| && |steps| <= Work(job, s) - Work(job, t) <= Work(job, s)
    decreases |steps|
  {
    hide Inv, After, Enabled, Work;
    InitOk(job, s);
    InvTaken(job, s);
    if steps != [] {
      var before := steps[..|steps| - 1];
      RunsEnd(job, s, before);
      RunKeeps(job, s, before);
      var u := Exec(job, s, before).value;
      WorkDecreases(job, u, steps[|steps| - 1]);
      InvTaken(job, After(job, u, steps[|steps| - 1]));
    } else {
      WorkIsNat(job, s);
    }
  }

  lemma InvTaken(job: Job, s: State)
    requires Inv(job, s)
    ensures s.taken <= |job.input|
  {
  }
}
