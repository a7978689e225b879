/** The commit and signature protocol of s2disk and resume, over suspend runs,
    boots and crashes, with a write cache that loses any writes not yet synced.
    Writes of the swap header succeed or leave it as it was. */
module Commit {
  import opened Utils
  import opened SwapSpace

  datatype Loc = SwapHeader | At(page: nat)

  /** SwapSig: an ordinary swap signature.  SuspendSig: the suspend signature with
      the location of the image header and the signature found before; `image`
      numbers the image, as a history. */
  datatype Content = SwapSig(name: int) | SuspendSig(start: nat, orig: int, image: nat) | Contents(page: Page)

  datatype Write = Write(loc: Loc, content: Content)

  type Store = map<Loc, Content>

  /** Where the machine is.  Running: up, outside of suspend_system.  Trying: in
      its loop.  Saving to MarkWritten: inside write_image.  Awake: back from
      suspend to RAM.  Hung: reset_signature failed and sleeps for ever.  Found to
      ResetDone: inside resume, with the swap header it has read in memory. */
  datatype Phase =
    | Running | Trying | Saving | DataSynced | HeaderWritten | HeaderSynced | MarkWritten | Committed | Failed
    | InRam | Awake | RamResetWritten | RamReset | Hung
    | Off | Booted | Found(header: Content) | Loaded(header: Content, ok: bool)
    | ResetWritten(header: Content, ok: bool) | ResetDone(header: Content, ok: bool)

  datatype State = State(
    phase: Phase,
    disk: Store,             // what has reached the disk
    cache: seq<Write>,      // what has not
    image: nat,             // number of the current image
    parts: map<nat, Page>,  // its pages written so far
    start: nat,             // its header page
    held: bool,             // the kernel keeps its swap pages
    attempts: nat,          // snapshots taken in this call of suspend_system
    swapOn: bool,           // the swap area is active
    sealed: map<nat, map<nat, Page>>,  // the pages of marked images
    origs: map<nat, int>,   // the signatures found when they were marked
    restored: multiset<nat>,  // images restored so far
    continued: set<nat>,    // images whose system, or another one, ran on since
    failed: set<nat>,       // images for which the write that resets the signature failed
    skipped: set<nat>,      // images that a run of resume did not look at
    leftMarked: bool        // the last run of resume left its image marked, either way
  )

  function Header(d: Store): Content {
    if SwapHeader in d then d[SwapHeader] else Contents(Blank)
  }

  /** All cached writes reach the disk. */
  function Synced(d: Store, cache: seq<Write>): Store
    decreases |cache|
  {
    if cache == [] then d else Synced(d[cache[0].loc := cache[0].content], cache[1..])
  }

  /** Some of them do. */
  function Persist(d: Store, cache: seq<Write>, mask: seq<bool>): Store
    decreases |cache|
  {
    if cache == [] then d
    else
      var survives := mask != [] && mask[0];
      Persist(if survives then d[cache[0].loc := cache[0].content] else d, cache[1..],
              if mask == [] then [] else mask[1..])
  }

  /** What a read returns. */
  function Visible(s: State): Content {
    Header(Synced(s.disk, s.cache))
  }

  datatype Step =
    | SwapOut(place: nat, page: Page) | Mkswap(name: int) | BeginSuspend
    | TakeSnapshot | GiveUp | WritePart(place: nat, page: Page) | SyncData
    | WriteHeader(place: nat, page: Page)
    | SyncHeader | Mark | SyncMark | WriteImageFails | Release(again: bool)
    | PowerOff | SuspendToRam | WakeUp | RamResetWrite | RamResetFails | RamSync | RamRelease
    | Crash(mask: seq<bool>) | Boot | SkipResume | ReadHeader | Load(ok: bool) | AskReboot
    | ResetWrite | ResetFails | ResetSync | Restore | RestoreFails

  predicate Enabled(s: State, step: Step) {
    match step
    case SwapOut(_, _) => s.phase == Running && s.swapOn
    case Mkswap(_) => s.phase == Running
    case BeginSuspend => s.phase == Running && s.swapOn
    case TakeSnapshot => s.phase == Trying && s.attempts < 2
    case GiveUp => s.phase == Trying
    case WritePart(_, _) => s.phase == Saving
    case SyncData => s.phase == Saving
    case WriteHeader(p, _) => s.phase == DataSynced && p !in s.parts
    case SyncHeader => s.phase == HeaderWritten
    case Mark => s.phase == HeaderSynced && Visible(s).SwapSig?
    case SyncMark => s.phase == MarkWritten
    case WriteImageFails => s.phase in {Saving, DataSynced, HeaderWritten, HeaderSynced}
    case Release(again) => s.phase == Failed && (again ==> s.attempts < 2)
    case PowerOff => s.phase == Committed
    case SuspendToRam => s.phase == Committed
    case WakeUp => s.phase == InRam
    case RamResetWrite => s.phase == Awake && Visible(s).SuspendSig?
    case RamResetFails => s.phase == Awake
    case RamSync => s.phase == RamResetWritten
    case RamRelease => s.phase == RamReset
    case Crash(_) => s.phase != Off
    case Boot => s.phase == Off
    case SkipResume => s.phase == Booted
    case ReadHeader => s.phase == Booted
    case Load(_) => s.phase.Found?
    case AskReboot => s.phase.Loaded? && !s.phase.ok
    case ResetWrite => s.phase.Loaded? && s.phase.header.SuspendSig?
    case ResetFails => s.phase.Loaded? && s.phase.header.SuspendSig?
    case ResetSync => s.phase.ResetWritten?
    case Restore => s.phase.ResetDone? && s.phase.ok && s.phase.header.SuspendSig?
    case RestoreFails => s.phase.ResetDone? && s.phase.header.SuspendSig?
  }

  function Put(s: State, loc: Loc, content: Content): State {
    s.(cache := s.cache + [Write(loc, content)])
  }

  function Sync(s: State): State {
    s.(disk := Synced(s.disk, s.cache), cache := [])
  }

  function After(s: State, step: Step): State
    requires Enabled(s, step)
  {
    match step
    case SwapOut(p, v) => Put(s, At(p), Contents(v))
    case Mkswap(n) => Sync(Put(s, SwapHeader, SwapSig(n))).(leftMarked := false, swapOn := true)
    case BeginSuspend => s.(phase := Trying, attempts := 0)
    case TakeSnapshot =>
      s.(phase := Saving, attempts := s.attempts + 1, image := s.image + 1, parts := map[], held := true)
    case GiveUp => s.(phase := Running)
    case WritePart(p, v) => Put(s, At(p), Contents(v)).(parts := s.parts[p := v])
    case SyncData => Sync(s).(phase := DataSynced)
    case WriteHeader(p, v) =>
      Put(s, At(p), Contents(v)).(parts := s.parts[p := v], start := p, phase := HeaderWritten)
    case SyncHeader => Sync(s).(phase := HeaderSynced)
    case Mark =>
      Put(s, SwapHeader, SuspendSig(s.start, Visible(s).name, s.image))
        .(phase := MarkWritten, sealed := s.sealed[s.image := s.parts], origs := s.origs[s.image := Visible(s).name])
    case SyncMark => Sync(s).(phase := Committed)
    case WriteImageFails => s.(phase := Failed)
    case Release(again) => s.(phase := if again then Trying else Running, held := false)
    case PowerOff => Sync(s).(phase := Off, swapOn := false)
    case SuspendToRam => s.(phase := InRam)
    case WakeUp => s.(phase := Awake)
    case RamResetWrite => Put(s, SwapHeader, SwapSig(Visible(s).orig)).(phase := RamResetWritten)
    case RamResetFails => s.(phase := Hung)
    case RamSync => Sync(s).(phase := RamReset)
    case RamRelease => s.(phase := Running, held := false, continued := s.continued + {s.image})
    case Crash(mask) =>
      s.(phase := Off, disk := Persist(s.disk, s.cache, mask), cache := [], held := false, swapOn := false)
    case Boot => s.(phase := Booted)
    case SkipResume =>
      if Visible(s).SuspendSig?
      then s.(phase := Running, swapOn := false, leftMarked := true, skipped := s.skipped + {Visible(s).image},
              continued := s.continued + {Visible(s).image})
      else s.(phase := Running, swapOn := true, leftMarked := false)
    case ReadHeader =>
      if Visible(s).SuspendSig? then s.(phase := Found(Visible(s)))
      else s.(phase := Running, swapOn := true, leftMarked := false)
    case Load(ok) => s.(phase := Loaded(s.phase.header, ok))
    case AskReboot => s.(phase := Off)
    case ResetWrite =>
      Put(s, SwapHeader, SwapSig(s.phase.header.orig)).(phase := ResetWritten(s.phase.header, s.phase.ok))
    case ResetFails =>
      s.(phase := ResetDone(s.phase.header, s.phase.ok), leftMarked := true,
         failed := s.failed + {s.phase.header.image})
    case ResetSync => Sync(s).(phase := ResetDone(s.phase.header, s.phase.ok), leftMarked := false)
    case Restore =>
      s.(phase := Running, swapOn := true, restored := s.restored + multiset{s.phase.header.image},
         continued := s.continued + {s.phase.header.image})
    case RestoreFails =>
      s.(phase := Running, swapOn := !s.leftMarked, continued := s.continued + {s.phase.header.image})
  }

  ghost predicate Init(s: State) {
    && s.phase == Running && Header(s.disk).SwapSig? && s.cache == [] && !s.held && s.swapOn
    && s.image == 0 && s.sealed == map[] && s.origs == map[] && s.attempts == 0
    && s.restored == multiset{} && s.continued == {} && s.failed == {} && s.skipped == {}
    && !s.leftMarked
  }

  // ---------------------------------------------------------------------
  // What holds in every phase.

  ghost predicate HeaderFree(cache: seq<Write>) {
    forall w :: w in cache ==> w.loc != SwapHeader
  }

  /** Every page of the image, its header page among them, is on the disk. */
  ghost predicate Complete(d: Store, sealed: map<nat, map<nat, Page>>, c: Content) {
    && c.SuspendSig? && c.image in sealed && c.start in sealed[c.image]
    && forall p :: p in sealed[c.image] ==> At(p) in d && d[At(p)] == Contents(sealed[c.image][p])
  }

  /** The image was not restored, and no system ran on since it was made unless
      resume did not look at it. */
  ghost predicate Usable(s: State, image: nat) {
    image !in s.failed ==> s.restored[image] == 0 && (image !in s.skipped ==> image !in s.continued)
  }

  /** The disk carries the suspend signature of an image; a complete and usable one
      unless resetting its signature failed. */
  ghost predicate Armed(s: State) {
    var c := Header(s.disk);
    && c.SuspendSig? && c.image in s.sealed && c.start in s.sealed[c.image] && Usable(s, c.image)
    && c.image in s.origs && s.origs[c.image] == c.orig && c.image <= s.image
    && (c.image !in s.failed ==> Complete(s.disk, s.sealed, c))
  }

  /** A running system whose swap is active has an ordinary signature on the disk, or
      that of an image for which the reset failed. */
  ghost predicate Live(s: State) {
    && HeaderFree(s.cache)
    && (if s.leftMarked then Armed(s) && Header(s.disk).image in s.failed * s.continued else Plain(s))
  }

  ghost predicate Plain(s: State) {
    Header(s.disk).SwapSig?
  }

  /** The histories speak of images below k only. */
  ghost predicate Bounded(s: State, k: nat) {
    && (forall g :: g in s.sealed ==> g < k)
    && (forall g :: g in s.continued ==> g < k)
    && (forall g :: g in s.failed ==> g < k)
    && (forall g :: g in s.skipped ==> g < k)
    && (forall g :: g in s.restored ==> g < k)
  }

  ghost predicate RestoredOnce(s: State) {
    forall g :: g !in s.failed ==> s.restored[g] <= 1
  }

  /** The pages written so far are what a sync leaves on the disk. */
  ghost predicate PartsWritten(s: State) {
    var d := Synced(s.disk, s.cache);
    forall p :: p in s.parts ==> At(p) in d && d[At(p)] == Contents(s.parts[p])
  }

  ghost predicate PhaseOk(s: State) {
    match s.phase
    case Running =>
      if s.swapOn then Live(s)
      else s.cache == [] && s.leftMarked && Armed(s) && Header(s.disk).image in (s.failed + s.skipped) * s.continued
    case Trying => Live(s) && s.swapOn
    case Failed => Live(s) && s.swapOn
    case Saving => Live(s) && PartsWritten(s) && Bounded(s, s.image) && s.held && s.swapOn
    case DataSynced => s.cache == [] && Live(s) && PartsWritten(s) && Bounded(s, s.image) && s.held && s.swapOn
    case HeaderWritten =>
      Live(s) && PartsWritten(s) && Bounded(s, s.image) && s.held && s.start in s.parts && s.swapOn
    case HeaderSynced =>
      && s.cache == [] && Live(s) && PartsWritten(s) && Bounded(s, s.image) && s.held && s.start in s.parts && s.swapOn
    case MarkWritten =>
      && Plain(s) && s.held && s.cache == [Write(SwapHeader, SuspendSig(s.start, Header(s.disk).name, s.image))]
      && Complete(s.disk, s.sealed, s.cache[0].content) && Usable(s, s.image) && !s.leftMarked && s.swapOn
      && s.image in s.origs && s.origs[s.image] == Header(s.disk).name && s.image !in s.failed + s.skipped
    case Committed => s.cache == [] && Armed(s) && s.held && OfThisRun(s)
    case InRam => s.cache == [] && Armed(s) && s.held && OfThisRun(s)
    case Awake => s.cache == [] && Armed(s) && s.held && OfThisRun(s)
    case Hung => s.cache == [] && Armed(s) && s.held && OfThisRun(s)
    case RamResetWritten =>
      OfThisRun(s) && s.cache == [Write(SwapHeader, SwapSig(Header(s.disk).orig))] && Armed(s) && s.held
    case RamReset =>
      && s.cache == [] && s.held && s.image in s.origs && Header(s.disk) == SwapSig(s.origs[s.image])
      && !s.leftMarked && s.swapOn
    case Off => s.cache == [] && (Plain(s) || Armed(s))
    case Booted => s.cache == [] && (Plain(s) || Armed(s))
    case Found(h) => s.cache == [] && Armed(s) && Header(s.disk) == h
    case Loaded(h, _) => s.cache == [] && Armed(s) && Header(s.disk) == h
    case ResetWritten(h, _) =>
      h.SuspendSig? && s.cache == [Write(SwapHeader, SwapSig(h.orig))] && Armed(s) && Header(s.disk) == h
    case ResetDone(h, _) =>
      && s.cache == [] && h.SuspendSig? && h.image <= s.image && h.image in s.origs && s.origs[h.image] == h.orig
      && (if s.leftMarked then Armed(s) && Header(s.disk) == h && h.image in s.failed
          else Header(s.disk) == SwapSig(h.orig) && Usable(s, h.image))
  }

  ghost predicate OfThisRun(s: State) {
    && Header(s.disk).SuspendSig? && Header(s.disk).image == s.image && s.image !in s.failed + s.skipped
    && !s.leftMarked && s.swapOn
  }

  /** Between freeze and unfreeze in suspend_system. */
  predicate InSuspend(p: Phase) {
    match p
    case Trying => true
    case Saving => true
    case DataSynced => true
    case HeaderWritten => true
    case HeaderSynced => true
    case MarkWritten => true
    case Committed => true
    case Failed => true
    case InRam => true
    case Awake => true
    case RamResetWritten => true
    case RamReset => true
    case Hung => true
    case _ => false
  }

  ghost predicate Inv(s: State) {
    && PhaseOk(s) && Bounded(s, s.image + 1) && RestoredOnce(s) && s.attempts <= 2
    && (forall g :: g in s.restored ==> g in s.continued)
  }

  // ---------------------------------------------------------------------
  // The cache.

  lemma {:induction false} SyncedKeepsHeader(d: Store, cache: seq<Write>)
    requires HeaderFree(cache)
    ensures Header(Synced(d, cache)) == Header(d)
    decreases |cache|
  {
    if cache != [] {
      SyncedKeepsHeader(d[cache[0].loc := cache[0].content], cache[1..]);
    }
  }

  lemma {:induction false} PersistKeepsHeader(d: Store, cache: seq<Write>, mask: seq<bool>)
    requires HeaderFree(cache)
    ensures Header(Persist(d, cache, mask)) == Header(d)
    decreases |cache|
  {
    if cache != [] {
      var survives := mask != [] && mask[0];
      PersistKeepsHeader(if survives then d[cache[0].loc := cache[0].content] else d, cache[1..],
                         if mask == [] then [] else mask[1..]);
    }
  }

  lemma {:induction false} SyncedLast(d: Store, cache: seq<Write>, w: Write)
    ensures Synced(d, cache + [w]) == Synced(d, cache)[w.loc := w.content]
    decreases |cache|
  {
    if cache == [] {
      assert cache + [w] == [w] && [w][1..] == [];
    } else {
      SyncedLast(d[cache[0].loc := cache[0].content], cache[1..], w);
      assert (cache + [w])[1..] == cache[1..] + [w];
    }
  }

  /** After a crash a location holds the last write to it that survives, for any choice of
      surviving writes. */
  lemma {:induction false} LastSurvivorStays(d: Store, cache: seq<Write>, mask: seq<bool>, k: nat)
    requires k < |cache| && k < |mask| && mask[k]
    requires forall j :: k < j < |cache| && j < |mask| && mask[j] ==> cache[j].loc != cache[k].loc
    ensures cache[k].loc in Persist(d, cache, mask) && Persist(d, cache, mask)[cache[k].loc] == cache[k].content
    decreases |cache|
  {
    var e := if mask[0] then d[cache[0].loc := cache[0].content] else d;
    var c, m := cache[1..], mask[1..];
    if k == 0 {
      forall j | 0 <= j < |c| && j < |m| && m[j] ensures c[j].loc != cache[0].loc {
        assert cache[j + 1] == c[j] && mask[j + 1] == m[j];
      }
      NoSurvivorNoChange(e, c, m, cache[0].loc);
    } else {
      forall j | k - 1 < j < |c| && j < |m| && m[j] ensures c[j].loc != c[k - 1].loc {
        assert cache[j + 1] == c[j] && mask[j + 1] == m[j];
      }
      LastSurvivorStays(e, c, m, k - 1);
    }
  }

  /** And one without such a write what it held. */
  lemma {:induction false} NoSurvivorNoChange(d: Store, cache: seq<Write>, mask: seq<bool>, l: Loc)
    requires forall k :: 0 <= k < |cache| && k < |mask| && mask[k] ==> cache[k].loc != l
    ensures l in Persist(d, cache, mask) <==> l in d
    ensures l in d ==> Persist(d, cache, mask)[l] == d[l]
    decreases |cache|
  {
    if cache != [] {
      var survives := mask != [] && mask[0];
      NoSurvivorNoChange(if survives then d[cache[0].loc := cache[0].content] else d, cache[1..],
                         if mask == [] then [] else mask[1..], l);
    }
  }

  /** What fsync leaves: as if all writes survived. */
  lemma {:induction false} SyncedIs(d: Store, cache: seq<Write>, mask: seq<bool>)
    requires |mask| == |cache| && forall k :: 0 <= k < |mask| ==> mask[k]
    ensures Synced(d, cache) == Persist(d, cache, mask)
    decreases |cache|
  {
    if cache != [] { SyncedIs(d[cache[0].loc := cache[0].content], cache[1..], mask[1..]); }
  }

  lemma SyncedNone(d: Store)
    ensures Synced(d, []) == d
  {
  }

  lemma PersistOne(d: Store, w: Write, mask: seq<bool>)
    ensures Persist(d, [w], mask) == d || Persist(d, [w], mask) == d[w.loc := w.content]
    ensures Synced(d, [w]) == d[w.loc := w.content]
  {
    assert [w][1..] == [];
  }

  // ---------------------------------------------------------------------
  // Every step keeps it.

  lemma InitOk(s: State)
    requires Init(s)
    ensures Inv(s)
  {
  }

  lemma SwapOutSteps(s: State, step: Step)
    requires Inv(s) && Enabled(s, step) && (step.SwapOut? || step.BeginSuspend?)
    ensures Inv(After(s, step))
  {
    SyncedKeepsHeader(s.disk, s.cache);
  }

  lemma MkswapStep(s: State, step: Step)
    requires Inv(s) && Enabled(s, step) && (step.Mkswap?)
    ensures Inv(After(s, step))
  {
    SyncedLast(s.disk, s.cache, Write(SwapHeader, SwapSig(step.name)));
  }

  lemma LoopSteps(s: State, step: Step)
    requires Inv(s) && Enabled(s, step)
    requires (step.GiveUp? || step.TakeSnapshot? || step.Release? || step.WriteImageFails?)
    ensures Inv(After(s, step))
  {
    if step.TakeSnapshot? {
      assert After(s, step).parts == map[];
    }
  }

  lemma WriteSteps(s: State, step: Step)
    requires Inv(s) && Enabled(s, step) && (step.WritePart? || step.WriteHeader?)
    ensures Inv(After(s, step))
  {
    SyncedLast(s.disk, s.cache, Write(At(step.place), Contents(step.page)));
  }

  lemma SyncSteps(s: State, step: Step)
    requires Inv(s) && Enabled(s, step) && (step.SyncData? || step.SyncHeader?)
    ensures Inv(After(s, step))
  {
    SyncedKeepsHeader(s.disk, s.cache);
  }

  lemma MarkStep(s: State, step: Step)
    requires Inv(s) && Enabled(s, step) && (step.Mark?)
    ensures Inv(After(s, step))
  {
  }

  lemma SyncMarkStep(s: State, step: Step)
    requires Inv(s) && Enabled(s, step) && (step.SyncMark?)
    ensures Inv(After(s, step))
  {
    PersistOne(s.disk, s.cache[0], []);
  }

  lemma CommittedSteps(s: State, step: Step)
    requires Inv(s) && Enabled(s, step) && (step.PowerOff? || step.SuspendToRam?)
    ensures Inv(After(s, step))
  {
    hide Persist, Synced, Complete;
    SyncedNone(s.disk);
  }

  lemma AwakeSteps(s: State, step: Step)
    requires Inv(s) && Enabled(s, step) && (step.WakeUp? || step.RamResetWrite? || step.RamResetFails?)
    ensures Inv(After(s, step))
  {
    hide Persist;
  }

  lemma RamSteps(s: State, step: Step)
    requires Inv(s) && Enabled(s, step) && (step.RamSync? || step.RamRelease?)
    ensures Inv(After(s, step))
  {
    if step.RamSync? { PersistOne(s.disk, s.cache[0], []); }
  }

  lemma BootSteps(s: State, step: Step)
    requires Inv(s) && Enabled(s, step) && (step.Boot? || step.AskReboot?)
    ensures Inv(After(s, step))
  {
    hide Persist, Synced;
  }

  lemma ReadHeaderStep(s: State, step: Step)
    requires Inv(s) && Enabled(s, step) && step.ReadHeader?
    ensures Inv(After(s, step))
  {
    hide Persist, Synced, PartsWritten, Complete;
    SyncedNone(s.disk);
    if Armed(s) { ArmedHeader(s); }
  }

  lemma ArmedHeader(s: State)
    requires Armed(s)
    ensures Header(s.disk).SuspendSig?
  {
  }

  /** An error before the header is read: the device is missing or unreadable,
      memory cannot be locked, the user chose to boot. */
  lemma SkipResumeStep(s: State, step: Step)
    requires Inv(s) && Enabled(s, step) && step.SkipResume?
    ensures Inv(After(s, step))
  {
    hide Persist, Synced, PartsWritten, Complete;
    SyncedNone(s.disk);
    if Armed(s) { ArmedHeader(s); }
  }

  lemma LoadStep(s: State, step: Step)
    requires Inv(s) && Enabled(s, step) && step.Load?
    ensures Inv(After(s, step))
  {
    hide Persist, Synced;
  }

  lemma ResetWriteStep(s: State, step: Step)
    requires Inv(s) && Enabled(s, step) && (step.ResetWrite?)
    ensures Inv(After(s, step))
  {
    hide Persist;
  }

  lemma ResetFailsStep(s: State, step: Step)
    requires Inv(s) && Enabled(s, step) && (step.ResetFails?)
    ensures Inv(After(s, step))
  {
    hide Persist;
  }

  lemma ResetSyncStep(s: State, step: Step)
    requires Inv(s) && Enabled(s, step) && (step.ResetSync?)
    ensures Inv(After(s, step))
  {
    hide Persist, Synced, Complete;
    PersistOne(s.disk, s.cache[0], []);
  }

  lemma RestoreStep(s: State, step: Step)
    requires Inv(s) && Enabled(s, step) && (step.Restore?)
    ensures Inv(After(s, step))
  {
    hide Persist;
  }

  lemma RestoreFailsStep(s: State, step: Step)
    requires Inv(s) && Enabled(s, step) && (step.RestoreFails?)
    ensures Inv(After(s, step))
  {
    hide Persist;
  }

  lemma CrashStep(s: State, mask: seq<bool>)
    requires Inv(s) && s.phase != Off
    ensures Inv(After(s, Crash(mask)))
  {
    hide Inv, After;
    if s.phase == MarkWritten {
      CrashAtMark(s, mask);
    } else if s.phase == RamResetWritten || s.phase.ResetWritten? {
      CrashAtReset(s, mask);
    } else {
      CrashElsewhere(s, mask);
    }
  }

  /** The only pending write is the mark, and the image it names is complete. */
  lemma CrashAtMark(s: State, mask: seq<bool>)
    requires Inv(s) && s.phase == MarkWritten
    ensures Inv(After(s, Crash(mask)))
  {
    hide Persist, Synced;
    PersistOne(s.disk, s.cache[0], mask);
  }

  lemma CrashAtReset(s: State, mask: seq<bool>)
    requires Inv(s) && (s.phase == RamResetWritten || s.phase.ResetWritten?)
    ensures Inv(After(s, Crash(mask)))
  {
    hide Persist, Synced, PartsWritten;
    PersistOne(s.disk, s.cache[0], mask);
  }

  /** With no header write pending a crash leaves the header as it was, and an
      image that is on the disk has nothing pending at all. */
  lemma CrashElsewhere(s: State, mask: seq<bool>)
    requires Inv(s) && s.phase != Off && s.phase != MarkWritten && s.phase != RamResetWritten && !s.phase.ResetWritten?
    ensures Inv(After(s, Crash(mask)))
  {
    hide Persist, Synced, PartsWritten;
    PersistKeepsHeader(s.disk, s.cache, mask);
    PersistNone(s.disk, mask);
  }

  lemma PersistNone(d: Store, mask: seq<bool>)
    ensures Persist(d, [], mask) == d
  {
  }

  lemma StepKeeps(s: State, step: Step)
    requires Inv(s) && Enabled(s, step)
    ensures Inv(After(s, step))
  {
    hide Inv, After, Enabled, InRun, InSave, AfterCommit;
    if InRun(step) {
      RunStepKeeps(s, step);
    } else if InSave(step) {
      SaveStepKeeps(s, step);
    } else if AfterCommit(step) {
      RamStepKeeps(s, step);
    } else {
      BootStepKeeps(s, step);
    }
  }

  predicate InRun(step: Step) {
    step.SwapOut? || step.BeginSuspend? || step.Mkswap? || step.GiveUp? || step.TakeSnapshot? || step.Release? ||
    step.WriteImageFails? || step.WritePart? || step.WriteHeader?
  }

  predicate InSave(step: Step) {
    step.SyncData? || step.SyncHeader? || step.Mark? || step.SyncMark? || step.Crash?
  }

  predicate AfterCommit(step: Step) {
    step.PowerOff? || step.SuspendToRam? || step.WakeUp? || step.RamResetWrite? || step.RamResetFails? ||
    step.RamSync? || step.RamRelease?
  }

  // ---------------------------------------------------------------------
  // The histories record what happened and nothing else.

  ghost predicate Unrecorded(s: State, t: State) {
    && t.failed == s.failed && t.restored == s.restored && t.skipped == s.skipped
    && t.sealed == s.sealed && t.origs == s.origs
  }

  predicate Recorded(step: Step) {
    step.Mark? || step.ResetFails? || step.Restore? || step.SkipResume?
  }

  lemma RunUnrecorded(s: State, step: Step)
    requires Enabled(s, step) && InRun(step)
    ensures Unrecorded(s, After(s, step))
  {
    hide Synced, Persist, Visible;
  }

  lemma SaveUnrecorded(s: State, step: Step)
    requires Enabled(s, step) && InSave(step) && !step.Mark?
    ensures Unrecorded(s, After(s, step))
  {
    hide Synced, Persist, Visible;
  }

  lemma RamUnrecorded(s: State, step: Step)
    requires Enabled(s, step) && AfterCommit(step)
    ensures Unrecorded(s, After(s, step))
  {
    hide Synced, Persist, Visible;
  }

  lemma BootUnrecorded(s: State, step: Step)
    requires Enabled(s, step) && (step.Boot? || step.Load? || step.AskReboot?)
    ensures Unrecorded(s, After(s, step))
  {
    hide Synced, Persist, Visible;
  }

  lemma ReadUnrecorded(s: State)
    requires s.phase == Booted
    ensures Unrecorded(s, After(s, ReadHeader))
  {
    hide Synced, Unrecorded;
    if Visible(s).SuspendSig? {
      assert After(s, ReadHeader) == s.(phase := Found(Visible(s)));
    } else {
      assert After(s, ReadHeader) == s.(phase := Running, swapOn := true, leftMarked := false);
    }
    PhaseUnrecorded(s, After(s, ReadHeader));
  }

  lemma ReadsBooted(s: State)
    requires Enabled(s, ReadHeader)
    ensures s.phase == Booted
  {
  }

  lemma PhaseUnrecorded(s: State, t: State)
    requires t == s.(phase := t.phase, swapOn := t.swapOn, leftMarked := t.leftMarked)
    ensures Unrecorded(s, t)
  {
  }

  lemma ResetUnrecorded(s: State, step: Step)
    requires Enabled(s, step) && (step.ResetWrite? || step.ResetSync? || step.RestoreFails?)
    ensures Unrecorded(s, After(s, step))
  {
    hide Synced, Persist, Visible;
  }

  lemma OtherUnrecorded(s: State, step: Step)
    requires Enabled(s, step) && !Recorded(step)
    ensures Unrecorded(s, After(s, step))
  {
    hide After, Enabled, InRun, InSave, AfterCommit, Unrecorded;
    if InRun(step) {
      RunUnrecorded(s, step);
    } else if InSave(step) {
      SaveUnrecorded(s, step);
    } else if AfterCommit(step) {
      RamUnrecorded(s, step);
    } else if step.ResetWrite? || step.ResetSync? || step.RestoreFails? {
      ResetUnrecorded(s, step);
    } else if step.ReadHeader? {
      assert s.phase == Booted by { ReadsBooted(s); }
      ReadUnrecorded(s);
    } else {
      assert step.Boot? || step.Load? || step.AskReboot? by { TheOthers(step); }
      BootUnrecorded(s, step);
    }
  }

  lemma TheOthers(step: Step)
    requires !InRun(step) && !InSave(step) && !AfterCommit(step) && !Recorded(step)
    ensures step.Boot? || step.ReadHeader? || step.Load? || step.AskReboot? ||
            step.ResetWrite? || step.ResetSync? || step.RestoreFails?
  {
  }

  lemma MarkRecords(s: State)
    requires Enabled(s, Mark)
    ensures Visible(s).SwapSig?
    ensures var t := After(s, Mark);
            && t.failed == s.failed && t.restored == s.restored && t.skipped == s.skipped
            && t.sealed == s.sealed[s.image := s.parts] && t.origs == s.origs[s.image := Visible(s).name]
            && t.cache == s.cache + [Write(SwapHeader, SuspendSig(s.start, Visible(s).name, s.image))]
  {
    hide Synced, Persist;
  }

  lemma FailRecords(s: State)
    requires Enabled(s, ResetFails)
    ensures s.phase.Loaded? && s.phase.header.SuspendSig?
    ensures var t := After(s, ResetFails);
            && t.failed == s.failed + {s.phase.header.image} && t.restored == s.restored && t.skipped == s.skipped
            && t.sealed == s.sealed && t.origs == s.origs
  {
    hide Synced, Persist, Visible;
  }

  lemma RestoreRecords(s: State)
    requires Enabled(s, Restore)
    ensures s.phase.ResetDone? && s.phase.header.SuspendSig?
    ensures var t := After(s, Restore);
            && t.failed == s.failed && t.restored == s.restored + multiset{s.phase.header.image}
            && t.skipped == s.skipped && t.sealed == s.sealed && t.origs == s.origs
  {
    hide Synced, Persist, Visible;
  }

  lemma SkipRecords(s: State)
    requires Enabled(s, SkipResume)
    ensures var t := After(s, SkipResume);
            && t.failed == s.failed && t.restored == s.restored && t.sealed == s.sealed && t.origs == s.origs
            && t.skipped == s.skipped + (if Visible(s).SuspendSig? then {Visible(s).image} else {})
  {
    hide Synced, Persist;
  }

  /** An image fails only when the write of its reset fails, is restored only by Restore, is
      skipped only when resume does not look at it, and is sealed by its mark, with the pages
      written for it; and the mark keeps the signature it replaces. */
  lemma HistoriesAre(s: State, step: Step)
    requires Enabled(s, step)
    ensures step.ResetFails? || step.Restore? ==> (s.phase.Loaded? || s.phase.ResetDone?) && s.phase.header.SuspendSig?
    ensures After(s, step).failed == s.failed + (if step.ResetFails? then {s.phase.header.image} else {})
    ensures After(s, step).restored ==
            s.restored + (if step.Restore? then multiset{s.phase.header.image} else multiset{})
    ensures After(s, step).skipped ==
            s.skipped + (if step.SkipResume? && Visible(s).SuspendSig? then {Visible(s).image} else {})
    ensures After(s, step).sealed == if step.Mark? then s.sealed[s.image := s.parts] else s.sealed
    ensures step.Mark? ==>
              && Visible(s).SwapSig? && After(s, step).origs == s.origs[s.image := Visible(s).name]
              && After(s, step).cache == s.cache + [Write(SwapHeader, SuspendSig(s.start, Visible(s).name, s.image))]
    ensures !step.Mark? ==> After(s, step).origs == s.origs
  {
    hide After, Enabled, Visible;
    if step.Mark? {
      MarkRecords(s);
    } else if step.ResetFails? {
      FailRecords(s);
    } else if step.Restore? {
      RestoreRecords(s);
    } else if step.SkipResume? {
      SkipRecords(s);
    } else {
      OtherUnrecorded(s, step);
    }
  }

  lemma RunStepKeeps(s: State, step: Step)
    requires Inv(s) && Enabled(s, step) && InRun(step)
    ensures Inv(After(s, step))
  {
    hide Inv, After, Enabled;
    if step.SwapOut? || step.BeginSuspend? {
      SwapOutSteps(s, step);
    } else if step.Mkswap? {
      MkswapStep(s, step);
    } else if step.WritePart? || step.WriteHeader? {
      WriteSteps(s, step);
    } else {
      LoopSteps(s, step);
    }
  }

  lemma SaveStepKeeps(s: State, step: Step)
    requires Inv(s) && Enabled(s, step) && InSave(step)
    ensures Inv(After(s, step))
  {
    hide Inv, After, Enabled;
    if step.SyncData? || step.SyncHeader? {
      SyncSteps(s, step);
    } else if step.Mark? {
      MarkStep(s, step);
    } else if step.SyncMark? {
      SyncMarkStep(s, step);
    } else {
      CrashIs(s, step.mask);
    }
  }

  lemma RamStepKeeps(s: State, step: Step)
    requires Inv(s) && Enabled(s, step) && AfterCommit(step)
    ensures Inv(After(s, step))
  {
    hide Inv, After, Enabled;
    if step.PowerOff? || step.SuspendToRam? {
      CommittedSteps(s, step);
    } else if step.WakeUp? || step.RamResetWrite? || step.RamResetFails? {
      AwakeSteps(s, step);
    } else {
      RamSteps(s, step);
    }
  }

  lemma BootStepKeeps(s: State, step: Step)
    requires Inv(s) && Enabled(s, step) && !InRun(step) && !InSave(step) && !AfterCommit(step)
    ensures Inv(After(s, step))
  {
    hide Inv, After, Enabled;
    match step
    case Boot => BootSteps(s, step);
    case AskReboot => BootSteps(s, step);
    case SkipResume => SkipResumeStep(s, step);
    case ReadHeader => ReadHeaderStep(s, step);
    case Load(_) => LoadStep(s, step);
    case ResetWrite => ResetWriteStep(s, step);
    case ResetFails => ResetFailsStep(s, step);
    case ResetSync => ResetSyncStep(s, step);
    case Restore => RestoreStep(s, step);
    case RestoreFails => RestoreFailsStep(s, step);
  }

  lemma CrashIs(s: State, mask: seq<bool>)
    requires Inv(s) && Enabled(s, Crash(mask))
    ensures Inv(After(s, Crash(mask)))
  {
    hide Inv;
    CrashStep(s, mask);
  }

  // ---------------------------------------------------------------------
  // Runs.

  function Exec(s: State, steps: seq<Step>): (r: Option<State>)
    decreases |steps|
  {
    if steps == [] then Some(s)
    else
      match Exec(s, steps[..|steps| - 1])
      case None => None
      case Some(t) =>
        var step := steps[|steps| - 1];
        if Enabled(t, step) then Some(After(t, step)) else None
  }

  lemma {:induction false} RunKeeps(s: State, steps: seq<Step>)
    requires Init(s) && Exec(s, steps).Some?
    ensures Inv(Exec(s, steps).value)
    decreases |steps|
  {
    hide Inv, After, Enabled, Init;
    if steps == [] {
      InitOk(s);
    } else {
      RunKeeps(s, steps[..|steps| - 1]);
      StepKeeps(Exec(s, steps[..|steps| - 1]).value, steps[|steps| - 1]);
    }
  }

  /** Crash-safe commit: at every moment of every run, whichever of the pending
      writes survive a crash, a suspend signature on the disk means that all pages
      of its image, the header page included, are on the disk, unless the write that
      was to reset this very signature failed. */
  lemma {:induction false} SignatureMeansImage(s: State, steps: seq<Step>, mask: seq<bool>)
    requires Init(s) && Exec(s, steps).Some?
    ensures var t := Exec(s, steps).value;
            var d := Persist(t.disk, t.cache, mask);
            Header(d).SuspendSig? && Header(d).image !in t.failed ==> Complete(d, t.sealed, Header(d))
  {
    hide Exec;
    RunKeeps(s, steps);
    var t := Exec(s, steps).value;
    if t.phase == Off {
      PersistNone(t.disk, mask);
    } else {
      CrashStep(t, mask);
    }
  }

  /** One more page swapped out and synced leaves a signature without its image. */
  ghost predicate Breaks(t: State, place: nat, page: Page) {
    Enabled(t, SwapOut(place, page)) && (
      var u := After(t, SwapOut(place, page));
      var d := Synced(u.disk, u.cache);
      Header(d).SuspendSig? && !Complete(d, u.sealed, Header(d)))
  }

  /** The exception is needed: in a system that was restored although the reset had
      failed, one page swapped out over a page of the image, which that system takes
      for free, breaks the image under its signature. */
  lemma {:induction false} SwapOutBreaksImage(s: State, steps: seq<Step>, place: nat, page: Page)
    requires Init(s) && Exec(s, steps).Some?
    requires var t := Exec(s, steps).value;
             t.phase == Running && t.leftMarked && t.swapOn && Header(t.disk).SuspendSig? && (
               var g := Header(t.disk).image;
               g in t.sealed && place in t.sealed[g] && t.sealed[g][place] != page)
    ensures Breaks(Exec(s, steps).value, place, page)
  {
    hide Exec;
    RunKeeps(s, steps);
    var t := Exec(s, steps).value;
    SyncedLast(t.disk, t.cache, Write(At(place), Contents(page)));
    SyncedKeepsHeader(t.disk, t.cache);
  }

  /** So in every such system some page breaks the image. */
  lemma {:induction false} SomePageBreaksImage(s: State, steps: seq<Step>)
    requires Init(s) && Exec(s, steps).Some?
    requires var t := Exec(s, steps).value; t.phase == Running && t.leftMarked && t.swapOn
    ensures exists place, page :: Breaks(Exec(s, steps).value, place, page)
  {
    hide Exec, Breaks;
    RunKeeps(s, steps);
    var t := Exec(s, steps).value;
    var c := Header(t.disk);
    SwapOutBreaksImage(s, steps, c.start, if t.sealed[c.image][c.start] == Blank then Data([]) else Blank);
  }

  /** An image is restored at most once unless the write that resets its signature
      failed; and never after a system ran on since it was made, unless moreover
      resume did not look at it. */
  lemma {:induction false} RestoredAtMostOnce(s: State, steps: seq<Step>)
    requires Init(s) && Exec(s, steps).Some?
    ensures var t := Exec(s, steps).value;
            && (forall g :: g !in t.failed ==> t.restored[g] <= 1)
            && (Enabled(t, Restore) ==>
                  var g := t.phase.header.image;
                  g !in t.failed ==> t.restored[g] == 0 && (g !in t.skipped ==> g !in t.continued))
  {
    hide Exec, Persist, Synced, Complete, PartsWritten;
    RunKeeps(s, steps);
    var t := Exec(s, steps).value;
    if Enabled(t, Restore) { ReadyIsUsable(t); }
  }

  lemma ReadyIsUsable(t: State)
    requires Inv(t) && t.phase.ResetDone?
    ensures Usable(t, t.phase.header.image)
  {
    hide Persist, Synced, Complete, PartsWritten;
  }

  /** Outside of suspend_system, and whenever it returns, the signature of an image
      is on the disk exactly when the last run of resume left it there: the reset
      failed, or resume gave up before it had read the header. */
  lemma {:induction false} RunningIffReset(s: State, steps: seq<Step>)
    requires Init(s) && Exec(s, steps).Some? && Exec(s, steps).value.phase == Running
    ensures var t := Exec(s, steps).value; Visible(t).SuspendSig? <==> t.leftMarked
  {
    hide Exec;
    RunKeeps(s, steps);
    var t := Exec(s, steps).value;
    HeaderShows(t);
  }

  lemma HeaderShows(t: State)
    requires Inv(t) && t.phase in {Running, Trying, Saving, DataSynced, HeaderWritten, HeaderSynced, Failed}
    ensures Visible(t) == Header(t.disk) && (Visible(t).SuspendSig? <==> t.leftMarked)
  {
    hide Complete, PartsWritten;
    if t.cache == [] { SyncedNone(t.disk); } else { SyncedKeepsHeader(t.disk, t.cache); }
  }

  /** A reset that succeeds, in resume or after suspend to RAM, leaves the
      signature that was found before marking. */
  lemma {:induction false} ResetRestoresSignature(s: State, steps: seq<Step>)
    requires Init(s) && Exec(s, steps).Some?
    ensures var t := Exec(s, steps).value;
            && (t.phase.ResetDone? && !t.leftMarked ==>
                  t.phase.header.SuspendSig? && t.phase.header.image in t.origs
                  && Visible(t) == SwapSig(t.origs[t.phase.header.image]))
            && (t.phase == RamReset ==> t.image in t.origs && Visible(t) == SwapSig(t.origs[t.image]))
  {
    hide Exec;
    RunKeeps(s, steps);
  }

  /** While the kernel may give the pages of the image away, no crash can leave a
      suspend signature that refers to them: in suspend_system such a signature may
      be on the disk only as long as the pages are held, unless it is an old one
      whose reset had failed.  And there are at most two attempts. */
  lemma {:induction false} PagesHeldWhileMarked(s: State, steps: seq<Step>, mask: seq<bool>)
    requires Init(s) && Exec(s, steps).Some?
    ensures var t := Exec(s, steps).value;
            var c := Header(Persist(t.disk, t.cache, mask));
            && t.attempts <= 2
            && (InSuspend(t.phase) && c.SuspendSig? && c.image !in t.failed ==> t.held && c.image == t.image)
  {
    hide Exec;
    RunKeeps(s, steps);
    var t := Exec(s, steps).value;
    if InSuspend(t.phase) { HeldOrOld(t, mask); }
  }

  lemma HeldOrOld(t: State, mask: seq<bool>)
    requires Inv(t) && InSuspend(t.phase)
    ensures var c := Header(Persist(t.disk, t.cache, mask));
            c.SuspendSig? && c.image !in t.failed ==> t.held && c.image == t.image
  {
    hide Persist, Synced, Complete, PartsWritten;
    if t.phase == MarkWritten || t.phase == RamResetWritten {
      PersistOne(t.disk, t.cache[0], mask);
    } else {
      PersistKeepsHeader(t.disk, t.cache, mask);
    }
  }

  /** One more step at the end of a run. */
  lemma ExecOneMore(s: State, steps: seq<Step>, t: State, step: Step)
    requires Exec(s, steps) == Some(t) && Enabled(t, step)
    ensures Exec(s, steps + [step]) == Some(After(t, step))
  {
    hide After, Enabled;
    assert (steps + [step])[..|steps + [step]| - 1] == steps;
  }

  function RestoreAgain(): seq<Step> {
    [Crash([]), Boot, ReadHeader, Load(true), ResetWrite, ResetSync, Restore]
  }

  /** The other direction: an image that was left marked can be restored after a
      system ran on, by the next boot. */
  lemma {:induction false} LeftMarkedRestoresAgain(s: State, steps: seq<Step>)
    requires Init(s) && Exec(s, steps).Some?
    requires Exec(s, steps).value.phase == Running && Exec(s, steps).value.leftMarked
    ensures Header(Exec(s, steps).value.disk).SuspendSig?
    ensures Header(Exec(s, steps).value.disk).image in Exec(s, steps).value.continued
    ensures var t := Exec(s, steps).value;
            var r := Exec(s, steps + RestoreAgain());
            r.Some? && r.value.restored == t.restored + multiset{Header(t.disk).image}
  {
    hide Exec;
    RunKeeps(s, steps);
    var t := Exec(s, steps).value;
    var h := Header(t.disk);
    ArmedHeader(t);
    var found := BootsToImage(s, steps, t, h);
    var more := steps + [Crash([]), Boot, ReadHeader];
    var loaded := After(found, Load(true));
    ExecOneMore(s, more, found, Load(true));
    RestoresImage(s, more + [Load(true)], loaded, h);
    assert steps + RestoreAgain() == more + [Load(true)] + [ResetWrite] + [ResetSync] + [Restore];
  }

  lemma BootsToImage(s: State, steps: seq<Step>, t: State, h: Content) returns (found: State)
    requires Exec(s, steps) == Some(t) && t.phase == Running && h == Header(t.disk) && h.SuspendSig?
    ensures Exec(s, steps + [Crash([]), Boot, ReadHeader]) == Some(found)
    ensures found.phase == Found(h) && found.restored == t.restored
  {
    hide Exec, After, Enabled;
    var off, booted := Boots(t);
    found := ReadsImage(booted, h);
    ExecOneMore(s, steps, t, Crash([]));
    ExecOneMore(s, steps + [Crash([])], off, Boot);
    ExecOneMore(s, steps + [Crash([])] + [Boot], booted, ReadHeader);
    assert steps + [Crash([])] + [Boot] + [ReadHeader] == steps + [Crash([]), Boot, ReadHeader];
  }

  lemma {:induction false} PersistNothing(d: Store, cache: seq<Write>)
    ensures Persist(d, cache, []) == d
    decreases |cache|
  {
    if cache != [] { PersistNothing(d, cache[1..]); }
  }

  lemma Boots(t: State) returns (off: State, booted: State)
    requires t.phase == Running
    ensures Enabled(t, Crash([])) && off == After(t, Crash([]))
    ensures Enabled(off, Boot) && booted == After(off, Boot)
    ensures booted.phase == Booted && booted.cache == [] && booted.disk == t.disk && booted.restored == t.restored
  {
    PersistNothing(t.disk, t.cache);
    off := After(t, Crash([]));
    booted := After(off, Boot);
  }

  lemma ReadsImage(booted: State, h: Content) returns (found: State)
    requires booted.phase == Booted && booted.cache == [] && h == Header(booted.disk) && h.SuspendSig?
    ensures Enabled(booted, ReadHeader) && found == After(booted, ReadHeader)
    ensures found.phase == Found(h) && found.restored == booted.restored
  {
    found := After(booted, ReadHeader);
  }

  lemma RestoresImage(s: State, steps: seq<Step>, t: State, h: Content)
    requires Exec(s, steps) == Some(t) && t.phase == Loaded(h, true) && h.SuspendSig?
    ensures var r := Exec(s, steps + [ResetWrite] + [ResetSync] + [Restore]);
            r.Some? && r.value.restored == t.restored + multiset{h.image}
  {
    hide Exec, After, Enabled;
    var written, done := Resets(t, h);
    ExecOneMore(s, steps, t, ResetWrite);
    ExecOneMore(s, steps + [ResetWrite], written, ResetSync);
    ExecOneMore(s, steps + [ResetWrite] + [ResetSync], done, Restore);
  }

  lemma Resets(t: State, h: Content) returns (written: State, done: State)
    requires t.phase == Loaded(h, true) && h.SuspendSig?
    ensures Enabled(t, ResetWrite) && written == After(t, ResetWrite)
    ensures Enabled(written, ResetSync) && done == After(written, ResetSync)
    ensures Enabled(done, Restore) && After(done, Restore).restored == t.restored + multiset{h.image}
  {
    hide Enabled, After;
    written := ResetIsWritten(t, h);
    done := ResetIsSynced(written, h);
  }

  lemma ResetIsWritten(t: State, h: Content) returns (written: State)
    requires t.phase == Loaded(h, true) && h.SuspendSig?
    ensures Enabled(t, ResetWrite) && written == After(t, ResetWrite)
    ensures written.phase == ResetWritten(h, true) && written.restored == t.restored
  {
    hide Synced;
    written := After(t, ResetWrite);
  }

  lemma ResetIsSynced(written: State, h: Content) returns (done: State)
    requires written.phase == ResetWritten(h, true) && h.SuspendSig?
    ensures Enabled(written, ResetSync) && done == After(written, ResetSync)
    ensures Enabled(done, Restore) && After(done, Restore).restored == written.restored + multiset{h.image}
  {
    hide Synced;
    done := After(written, ResetSync);
  }
}
