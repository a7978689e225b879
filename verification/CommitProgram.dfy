/** suspend_system, write_image, mark_swap and the two reset_signature as programs on
    a disk with a write cache.  Each of their effects is a step of the protocol, so
    what is proved for all runs of the protocol holds for them. */
module CommitProgram {
  import opened Utils
  import opened Commit
  import SwapSpace

  const EIO: int := 5
  const ENODEV: int := 19
  const EINVAL: int := 22
  const ENOSPC: int := 28

  /** What the kernel and the disk do in one round of suspend_system: whether each
      call succeeds, the pages that save_image writes, and the error of the calls
      that choose one themselves. */
  datatype Attempt = Attempt(
    sized: bool, snapshot: bool, pages: seq<(nat, SwapSpace.Page)>, saved: bool, header: (nat, SwapSpace.Page),
    headerWritten: bool, verified: bool, markWritten: bool, error: int)

  datatype Ram = Ram(asked: bool, slept: bool, resetWritten: bool)

  datatype Outcome = Returned(error: int) | PoweredOff | Hung

  /** The same for resume; `reboots` is the user's answer when it asks. */
  datatype Boots = Boots(reached: bool, loads: bool, reboots: bool, resetWritten: bool, restores: bool)

  datatype Resumed = BootedOn | Restored | Rebooted

  /** The header page lies outside the image. */
  ghost predicate HeaderApart(a: Attempt) {
    forall k :: 0 <= k < |a.pages| ==> a.pages[k].0 != a.header.0
  }

  /** What write_image returns; `marked` says that the swap header carries a suspend
      signature already. */
  function ImageError(a: Attempt, marked: bool): int {
    if !a.saved then a.error
    else if !a.headerWritten then -EIO
    else if !a.verified then a.error
    else if marked then -ENODEV
    else if !a.markWritten then -EIO
    else 0
  }

  /** A round after which there is another one. */
  predicate Retries(a: Attempt) {
    a.sized && a.snapshot && ImageError(a, false) == -ENOSPC
  }

  /** How suspend_system ends after its last round. */
  function RoundEnds(a: Attempt, marked: bool, ram: Ram): Outcome {
    if !a.sized || !a.snapshot then Returned(-a.error)
    else if ImageError(a, marked) != 0 then Returned(-ImageError(a, marked))
    else if !(ram.asked && ram.slept) then PoweredOff
    else if ram.resetWritten then Returned(0)
    else Outcome.Hung
  }

  /** The image of a round is on the disk, and marked. */
  ghost predicate Stands(a: Attempt, disk: Store, name: int, image: nat) {
    && Header(disk) == SuspendSig(a.header.0, name, image)
    && At(a.header.0) in disk && disk[At(a.header.0)] == Contents(a.header.1)
    && forall k :: 0 <= k < |a.pages| && (forall j :: k < j < |a.pages| ==> a.pages[j].0 != a.pages[k].0) ==>
         At(a.pages[k].0) in disk && disk[At(a.pages[k].0)] == Contents(a.pages[k].1)
  }

  /** The first i pages are among the parts, each place with the last page written to it. */
  ghost predicate PartsAre(pages: seq<(nat, SwapSpace.Page)>, i: nat, parts: map<nat, SwapSpace.Page>)
    requires i <= |pages|
  {
    forall k :: 0 <= k < i && (forall j :: k < j < i ==> pages[j].0 != pages[k].0) ==>
      pages[k].0 in parts && parts[pages[k].0] == pages[k].1
  }

  lemma NoParts(pages: seq<(nat, SwapSpace.Page)>, parts: map<nat, SwapSpace.Page>)
    ensures PartsAre(pages, 0, parts)
  {
  }

  lemma OneMorePart(pages: seq<(nat, SwapSpace.Page)>, i: nat, parts: map<nat, SwapSpace.Page>)
    requires i < |pages| && PartsAre(pages, i, parts)
    ensures PartsAre(pages, i + 1, parts[pages[i].0 := pages[i].1])
  {
    forall k | 0 <= k < i && (forall j :: k < j < i + 1 ==> pages[j].0 != pages[k].0)
      ensures pages[k].0 in parts && parts[pages[k].0] == pages[k].1 && pages[i].0 != pages[k].0
    {
    }
  }

  lemma ReadHeaderIs(s: State)
    requires s.phase == Booted
    ensures var t := After(s, ReadHeader);
            && t.disk == s.disk && t.cache == s.cache && t.image == s.image && t.restored == s.restored
            && t.phase == if Commit.Visible(s).SuspendSig? then Found(Commit.Visible(s)) else Running
  {
    hide Synced;
  }

  class Machine {
    var disk: Store
    var cache: seq<Write>
    var image: nat
    ghost const first: State
    ghost var model: State
    ghost var trace: seq<Step>

    /** The disk and its cache are those of a run of the protocol. */
    ghost predicate Valid()
      reads this
    {
      && disk == model.disk && cache == model.cache && image == model.image
      && Init(first) && Exec(first, trace) == Some(model)
    }

    constructor (d: Store)
      requires Header(d).SwapSig?
      ensures Valid() && model.phase == Running && model.swapOn && !model.leftMarked
      ensures disk == d && cache == [] && image == 0
    {
      disk, cache, image := d, [], 0;
      first := State(Running, d, [], 0, map[], 0, false, 0, true, map[], map[], multiset{}, {}, {}, {}, false);
      model := State(Running, d, [], 0, map[], 0, false, 0, true, map[], map[], multiset{}, {}, {}, {}, false);
      trace := [];
    }

    /** One step of the protocol, whose effect on the disk has just been done. */
    ghost method Take(step: Step)
      requires Init(first) && Exec(first, trace) == Some(model) && Enabled(model, step)
      modifies this`model, this`trace
      ensures model == After(old(model), step)
      ensures Exec(first, trace) == Some(model)
    {
      hide After, Enabled, Exec, Init;
      ExecOneMore(first, trace, model, step);
      model, trace := After(model, step), trace + [step];
    }

    method WriteTo(loc: Loc, content: Content)
      modifies this`cache
      ensures cache == old(cache) + [Write(loc, content)]
    {
      cache := cache + [Write(loc, content)];
    }

    /** The cached writes go to the disk in order. */
    method Fsync()
      modifies this`disk, this`cache
      ensures disk == Synced(old(disk), old(cache)) && cache == []
    {
      while cache != []
        invariant Synced(disk, cache) == Synced(old(disk), old(cache))
        decreases |cache|
      {
        disk := disk[cache[0].loc := cache[0].content];
        cache := cache[1..];
      }
    }

    /** fsync with nothing pending. */
    method FsyncNothing()
      requires cache == []
      modifies this`disk, this`cache
      ensures disk == old(disk) && cache == []
    {
      Fsync();
      SyncedNone(disk);
    }

    /** What a read of the swap header returns. */
    function Visible(): Content
      reads this`disk, this`cache
    {
      Header(Synced(disk, cache))
    }

    /** What a step of suspend_system leaves alone: the attempt, the image it is about, and
        the swap header. */
    twostate predicate Same()
      reads this
    {
      && model.attempts == old(model.attempts) && image == old(image)
      && model.leftMarked == old(model.leftMarked) && Visible() == old(Visible())
    }

    /** fsync after the data. */
    method SyncTheData()
      requires Valid() && model.phase == Saving
      modifies this
      ensures Valid() && model.phase == DataSynced && cache == []
      ensures Same() && model.parts == old(model.parts)
    {
      hide Exec, Init;
      Fsync();
      Take(SyncData);
      SyncedNone(disk);
    }

    /** The header page and the fsync behind it. */
    method PutHeader(place: nat, page: SwapSpace.Page)
      requires Valid() && model.phase == DataSynced && place !in model.parts
      modifies this
      ensures Valid() && model.phase == HeaderSynced && Same() && model.start == place
      ensures model.parts == old(model.parts)[place := page]
    {
      hide Exec, Init;
      SyncedLast(disk, cache, Write(At(place), Contents(page)));
      WriteTo(At(place), Contents(page));
      Take(WriteHeader(place, page));
      SyncTheHeader();
    }

    method SyncTheHeader()
      requires Valid() && model.phase == HeaderWritten
      modifies this
      ensures Valid() && model.phase == HeaderSynced
      ensures Same() && model.start == old(model.start) && model.parts == old(model.parts)
    {
      hide Exec, Init;
      Fsync();
      Take(SyncHeader);
      SyncedNone(disk);
    }

    /** write_image gives up. */
    ghost method Fail()
      requires Valid() && model.phase in {Saving, DataSynced, HeaderSynced}
      modifies this`model, this`trace
      ensures Valid() && model.phase == Failed && Same()
    {
      hide Exec, Init;
      Take(WriteImageFails);
    }

    /** The write of mark_swap and the fsync behind it. */
    method PutMark(start: nat, name: int)
      requires Valid() && model.phase == HeaderSynced && model.start == start && Visible() == SwapSig(name)
      modifies this
      ensures Valid() && model.phase == Committed
      ensures model.attempts == old(model.attempts) && image == old(image)
      ensures Visible() == SuspendSig(start, name, image)
      ensures image in model.sealed && model.sealed[image] == old(model.parts)
    {
      hide Exec, Init;
      SyncedLast(disk, cache, Write(SwapHeader, SuspendSig(start, name, image)));
      WriteTo(SwapHeader, SuspendSig(start, name, image));
      Take(Mark);
      SyncTheMark();
    }

    method SyncTheMark()
      requires Valid() && model.phase == MarkWritten
      modifies this
      ensures Valid() && model.phase == Committed && Same() && model.sealed == old(model.sealed)
    {
      hide Exec, Init;
      Fsync();
      Take(SyncMark);
      SyncedNone(disk);
    }

    /** mark_swap: it refuses a header that does not carry an ordinary signature; otherwise
        it keeps that signature behind its own. */
    method MarkSwap(start: nat, written: bool) returns (error: int)
      requires Valid() && model.phase == HeaderSynced && model.start == start
      modifies this
      ensures Valid() && model.attempts == old(model.attempts) && image == old(image)
      ensures error == (if old(Visible()).SuspendSig? then -ENODEV else if written then 0 else -EIO)
      ensures model.phase == if error == 0 then Committed else HeaderSynced
      ensures error != 0 ==> Same()
      ensures error == 0 ==>
                && old(Visible()).SwapSig? && Visible() == SuspendSig(start, old(Visible()).name, image)
                && image in model.sealed && model.sealed[image] == old(model.parts)
    {
      hide Exec, Init, After, Enabled;
      MarkedShows();
      var header := Visible();
      if header.SwapSig? {
        if !written {
          return -EIO;
        }
        PutMark(start, header.name);
        error := 0;
      } else {
        error := -ENODEV;
      }
    }

    /** Before a mark is written the header shows an ordinary signature, or the one that
        was left marked. */
    lemma MarkedShows()
      requires Valid() && model.phase in {Running, Trying, Saving, DataSynced, HeaderWritten, HeaderSynced, Failed}
      ensures Visible().SuspendSig? <==> model.leftMarked
      ensures Visible().SwapSig? <==> !model.leftMarked
    {
      hide Exec, Init;
      RunKeeps(first, trace);
      HeaderShows(model);
    }

    /** Once an image is committed, its pages are on the disk. */
    lemma CommittedHolds()
      requires Valid() && model.phase == Committed
      ensures cache == [] && Visible() == Header(disk) && image in model.sealed
      ensures forall p :: p in model.sealed[image] ==> At(p) in disk && disk[At(p)] == Contents(model.sealed[image][p])
    {
      hide Exec, Init;
      RunKeeps(first, trace);
      SyncedNone(disk);
    }

    /** The writes of save_image; of those to one place the last one counts. */
    method WriteParts(pages: seq<(nat, SwapSpace.Page)>)
      requires Valid() && model.phase == Saving
      modifies this
      ensures Valid() && model.phase == Saving && Same()
      ensures forall p :: p in model.parts ==> p in old(model.parts) || exists k :: 0 <= k < |pages| && pages[k].0 == p
      ensures PartsAre(pages, |pages|, model.parts)
    {
      hide Exec, Init, After, Enabled, Valid, Visible, PartsAre;
      NoParts(pages, model.parts);
      for i := 0 to |pages|
        invariant Valid() && model.phase == Saving && Same()
        invariant forall p :: p in model.parts ==> p in old(model.parts) || exists k :: 0 <= k < i && pages[k].0 == p
        invariant PartsAre(pages, i, model.parts)
      {
        OneMorePart(pages, i, model.parts);
        PutPart(pages[i].0, pages[i].1);
      }
    }

    method PutPart(place: nat, page: SwapSpace.Page)
      requires Valid() && model.phase == Saving
      modifies this
      ensures Valid() && model.phase == Saving && Same() && model.parts == old(model.parts)[place := page]
    {
      hide Exec, Init;
      SyncedLast(disk, cache, Write(At(place), Contents(page)));
      WriteTo(At(place), Contents(page));
      Take(WritePart(place, page));
    }

    /** write_image: data, fsync, header, fsync, verification, mark, fsync.  On success
        the swap header refers to the image header and keeps the signature found, and the
        image header and the pages are on the disk; otherwise the swap header is as it was. */
    method WriteImage(a: Attempt) returns (error: int)
      requires Valid() && model.phase == Saving && model.parts == map[] && HeaderApart(a)
      requires a.error < 0
      modifies this
      ensures Valid() && model.attempts == old(model.attempts) && image == old(image)
      ensures error == ImageError(a, old(Visible()).SuspendSig?)
      ensures model.phase == if error == 0 then Committed else Failed
      ensures error != 0 ==> Same()
      ensures error == 0 ==>
                && cache == [] && Visible() == Header(disk) && old(Visible()).SwapSig?
                && Header(disk) == SuspendSig(a.header.0, old(Visible()).name, image)
                && At(a.header.0) in disk && disk[At(a.header.0)] == Contents(a.header.1)
      ensures error == 0 ==>
                forall k :: 0 <= k < |a.pages| && (forall j :: k < j < |a.pages| ==> a.pages[j].0 != a.pages[k].0) ==>
                  At(a.pages[k].0) in disk && disk[At(a.pages[k].0)] == Contents(a.pages[k].1)
    {
      hide Exec, Init, After, Enabled, Valid, Visible;
      MarkedShows();
      WriteParts(a.pages);
      if !a.saved {
        Fail();
        return a.error;
      }
      SyncTheData();
      if !a.headerWritten {
        Fail();
        return -EIO;
      }
      ghost var parts := model.parts;
      PutHeader(a.header.0, a.header.1);
      if !a.verified {
        Fail();
        return a.error;
      }
      MarkedShows();
      error := MarkSwap(a.header.0, a.markWritten);
      if error != 0 {
        Fail();
        return;
      }
      CommittedHolds();
    }

    /** reset_signature of s2disk; after an error it sleeps for ever. */
    method ResetAwake(written: bool) returns (error: int)
      requires Valid() && model.phase == Awake
      modifies this
      ensures Valid() && image == old(image) && model.attempts == old(model.attempts)
      ensures model.phase == if error == 0 then RamReset else Phase.Hung
      ensures error == 0 <==> written
      ensures old(Visible()).SuspendSig?
      ensures Visible() == if written then SwapSig(old(Visible()).orig) else old(Visible())
    {
      hide Exec, Init, After, Enabled;
      StillMarked();
      var header := Visible();
      if !header.SuspendSig? {
        error := -EINVAL;
      } else if !written {
        FsyncNothing();
        SyncedNone(disk);
        GiveUpReset();
        error := -EIO;
      } else {
        PutReset(header.orig);
        error := 0;
      }
    }

    ghost method GiveUpReset()
      requires Valid() && model.phase == Awake
      modifies this`model, this`trace
      ensures Valid() && model.phase == Phase.Hung && model.attempts == old(model.attempts)
    {
      hide Exec, Init;
      Take(RamResetFails);
    }

    method PutReset(orig: int)
      requires Valid() && model.phase == Awake && Visible().SuspendSig? && Visible().orig == orig
      modifies this
      ensures Valid() && image == old(image) && model.phase == RamReset && model.attempts == old(model.attempts)
      ensures Visible() == SwapSig(orig)
    {
      hide Exec, Init;
      SyncedLast(disk, cache, Write(SwapHeader, SwapSig(orig)));
      WriteTo(SwapHeader, SwapSig(orig));
      Take(RamResetWrite);
      SyncReset();
    }

    method SyncReset()
      requires Valid() && model.phase == RamResetWritten
      modifies this
      ensures Valid() && image == old(image) && model.phase == RamReset && model.attempts == old(model.attempts)
      ensures Visible() == old(Visible())
    {
      hide Exec, Init;
      Fsync();
      Take(RamSync);
      SyncedNone(disk);
    }

    lemma StillMarked()
      requires Valid() && model.phase == Awake
      ensures cache == [] && Visible().SuspendSig?
    {
      hide Exec, Init;
      RunKeeps(first, trace);
      SyncedNone(disk);
    }

    ghost method Begin()
      requires Valid() && model.phase == Running && model.swapOn
      modifies this`model, this`trace
      ensures Valid() && model.phase == Trying && model.attempts == 0 && model.leftMarked == old(model.leftMarked)
    {
      hide Exec, Init;
      Take(BeginSuspend);
    }

    /** set_image_size or atomic_snapshot failed. */
    ghost method Stop()
      requires Valid() && model.phase == Trying
      modifies this`model, this`trace
      ensures Valid() && model.phase == Running && model.leftMarked == old(model.leftMarked) && model.swapOn
    {
      hide Exec, Init;
      StillOn();
      Take(GiveUp);
    }

    method Snapshot()
      requires Valid() && model.phase == Trying && model.attempts < 2
      modifies this
      ensures Valid() && model.phase == Saving && model.parts == map[] && model.attempts == old(model.attempts) + 1
      ensures model.leftMarked == old(model.leftMarked)
      ensures image == old(image) + 1 && disk == old(disk) && cache == old(cache)
    {
      hide Exec, Init;
      image := image + 1;
      Take(TakeSnapshot);
    }

    /** free_swap_pages and free_snapshot after write_image failed. */
    ghost method FreePages(again: bool)
      requires Valid() && model.phase == Failed && (again ==> model.attempts < 2)
      modifies this`model, this`trace
      ensures Valid() && Same() && !model.held && model.swapOn
      ensures model.phase == if again then Trying else Running
    {
      hide Exec, Init;
      StillOn();
      Take(Release(again));
    }

    lemma StillOn()
      requires Valid() && model.phase in {Trying, Failed}
      ensures model.swapOn
    {
      hide Exec, Init;
      RunKeeps(first, trace);
    }

    lemma CommittedShows()
      requires Valid() && model.phase == Committed
      ensures Visible().SuspendSig? && !model.leftMarked && cache == []
    {
      hide Exec, Init;
      RunKeeps(first, trace);
      SyncedNone(disk);
    }

    /** After write_image succeeded: power off, or suspend to RAM with a reset of the
        signature before any swap page is released. */
    method Conclude(ram: Ram) returns (r: Outcome)
      requires Valid() && model.phase == Committed
      modifies this
      ensures Valid() && image == old(image)
      ensures r == if !ram.asked || !ram.slept then PoweredOff
                   else if ram.resetWritten then Returned(0) else Outcome.Hung
      ensures r.Returned? ==> model.phase == Running && model.swapOn
      ensures r == PoweredOff ==> model.phase == Off && disk == old(disk) && cache == []
      ensures r == Outcome.Hung ==> model.phase == Phase.Hung
      ensures old(Visible()).SuspendSig?
      ensures Visible() == if r.Returned? then SwapSig(old(Visible()).orig) else old(Visible())
    {
      hide Exec, Init, After, Enabled;
      CommittedShows();
      if ram.asked && ram.slept {
        Sleep();
        var error := ResetAwake(ram.resetWritten);
        if error != 0 {
          return Outcome.Hung;
        }
        ReleaseAwake();
        return Returned(0);
      }
      TurnOff();
      r := PoweredOff;
    }

    ghost method Sleep()
      requires Valid() && model.phase == Committed
      modifies this`model, this`trace
      ensures Valid() && model.phase == Awake
    {
      hide Exec, Init;
      Take(SuspendToRam);
      Take(WakeUp);
    }

    ghost method ReleaseAwake()
      requires Valid() && model.phase == RamReset
      modifies this`model, this`trace
      ensures Valid() && model.phase == Running && !Visible().SuspendSig? && model.swapOn
    {
      hide Exec, Init;
      NotLeftMarked();
      Take(RamRelease);
      MarkedShows();
    }

    lemma NotLeftMarked()
      requires Valid() && model.phase == RamReset
      ensures !model.leftMarked && model.swapOn
    {
      hide Exec, Init;
      RunKeeps(first, trace);
    }

    method TurnOff()
      requires Valid() && model.phase == Committed
      modifies this
      ensures Valid() && image == old(image) && model.phase == Off && disk == old(disk) && cache == []
    {
      hide Exec, Init;
      CommittedShows();
      FsyncNothing();
      SyncedNone(disk);
      Take(PowerOff);
    }

    /** suspend_system, from freeze to unfreeze, as long as this boot goes on (the
        return of a restored system is the step Restore), spelled out for every call that
        can fail.  `avail` and `pref` are what check_free_swap reports and what is
        configured, `sizes` the image sizes asked of the kernel.  A second round, with an
        image as small as possible, follows exactly when saving or verifying ended with
        ENOSPC (28).  Whenever it returns, the swap header is what it was. */
    method SuspendSystem(avail: nat, pref: nat, freezeError: int, tries: seq<Attempt>, ram: Ram)
      returns (r: Outcome, sizes: seq<nat>)
      requires Valid() && model.phase == Running && (avail > 0 ==> model.swapOn)
      requires |tries| == 2 && forall a :: a in tries ==> HeaderApart(a) && a.error < 0
      modifies this
      ensures Valid()
      ensures r.Returned? ==> model.phase == Running && model.swapOn == old(model.swapOn) && Visible() == old(Visible())
      // Nothing is tried.
      ensures avail == 0 || freezeError != 0 ==> sizes == [] && image == old(image)
      ensures avail == 0 ==> r == Returned(28)
      ensures avail > 0 && freezeError != 0 ==> r == Returned(freezeError)
      // How many rounds.
      ensures avail > 0 && freezeError == 0 ==>
                var a := tries[0];
                var size := if avail > pref then pref else avail;
                sizes == if a.sized && a.snapshot && a.error == -28 && (!a.saved || (a.headerWritten && !a.verified))
                         then [size, 0] else [size]
      // What the last round ends with.
      ensures sizes != [] ==>
                var a := tries[|sizes| - 1];
                && (!a.sized || !a.snapshot ==> r == Returned(-a.error) && image == old(image) + |sizes| - 1)
                && (a.sized && a.snapshot ==> image == old(image) + |sizes|)
                && (a.sized && a.snapshot && !a.saved ==> r == Returned(-a.error))
                && (a.sized && a.snapshot && a.saved && !a.headerWritten ==> r == Returned(5))
                && (a.sized && a.snapshot && a.saved && a.headerWritten && !a.verified ==> r == Returned(-a.error))
      ensures sizes != [] ==>
                var a := tries[|sizes| - 1];
                a.sized && a.snapshot && a.saved && a.headerWritten && a.verified ==>
                  r == if old(Visible()).SuspendSig? then Returned(19)
                       else if !a.markWritten then Returned(5)
                       else if !ram.asked || !ram.slept then PoweredOff
                       else if ram.resetWritten then Returned(0) else Outcome.Hung
      // What is on the disk when the power goes off.
      ensures r == PoweredOff ==> sizes != [] && model.phase == Off && old(Visible()).SwapSig? && cache == []
      ensures r == PoweredOff ==>
                var a := tries[|sizes| - 1];
                && Header(disk) == SuspendSig(a.header.0, old(Visible()).name, image)
                && At(a.header.0) in disk && disk[At(a.header.0)] == Contents(a.header.1)
                && forall k :: 0 <= k < |a.pages|
                               && (forall j :: k < j < |a.pages| ==> a.pages[j].0 != a.pages[k].0) ==>
                     At(a.pages[k].0) in disk && disk[At(a.pages[k].0)] == Contents(a.pages[k].1)
    {
      hide Exec, Init, After, Enabled, Valid, Visible, Header;
      if avail == 0 {
        return Returned(ENOSPC), [];
      }
      if freezeError != 0 {
        return Returned(freezeError), [];
      }
      Begin();
      r, sizes := Rounds(if avail > pref then pref else avail, tries, ram);
    }

    /** The rounds. */
    method Rounds(size: nat, tries: seq<Attempt>, ram: Ram) returns (r: Outcome, sizes: seq<nat>)
      requires Valid() && model.phase == Trying && model.attempts == 0
      requires |tries| == 2 && forall a :: a in tries ==> HeaderApart(a) && a.error < 0
      modifies this
      ensures Valid()
      ensures sizes == if Retries(tries[0]) then [size, 0] else [size]
      ensures r.Returned? ==> model.phase == Running && model.swapOn && Visible() == old(Visible())
      ensures var a := tries[|sizes| - 1];
              && image == old(image) + |sizes| - (if a.sized && a.snapshot then 0 else 1)
              && r == RoundEnds(a, old(Visible()).SuspendSig?, ram)
              && (r == PoweredOff ==>
                    model.phase == Off && cache == [] && old(Visible()).SwapSig?
                    && Stands(a, disk, old(Visible()).name, image))
    {
      hide Exec, Init, After, Enabled, Valid, Visible, ImageError, Retries, Stands;
      var attempts, imageSize := 2, size;
      sizes := [];
      while true
        invariant Valid() && model.phase == Trying && 1 <= attempts <= 2 && model.attempts == 2 - attempts
        invariant image == old(image) + 2 - attempts && Visible() == old(Visible())
        invariant attempts == 2 ==> sizes == [] && imageSize == size
        invariant attempts == 1 ==> Retries(tries[0]) && sizes == [size] && imageSize == 0
        decreases attempts
      {
        var a := tries[2 - attempts];
        sizes := sizes + [imageSize];
        var more;
        r, more := Round(a, attempts > 1, ram);
        if !more {
          return;
        }
        imageSize := 0;
        attempts := attempts - 1;
      }
    }

    /** One round: `again` says whether another one may follow, `more` whether it does. */
    method Round(a: Attempt, again: bool, ram: Ram) returns (r: Outcome, more: bool)
      requires Valid() && model.phase == Trying && model.attempts < 2 && HeaderApart(a) && a.error < 0
      requires again ==> model.attempts == 0
      modifies this
      ensures Valid() && image == old(image) + (if a.sized && a.snapshot then 1 else 0)
      ensures more <==> again && Retries(a)
      ensures more ==> model.phase == Trying && model.attempts == old(model.attempts) + 1 && Visible() == old(Visible())
      ensures more ==> image == old(image) + 1
      ensures !more ==> r == RoundEnds(a, old(Visible()).SuspendSig?, ram)
      ensures !more && r.Returned? ==> model.phase == Running && model.swapOn && Visible() == old(Visible())
      ensures !more && r == PoweredOff ==>
                model.phase == Off && cache == [] && old(Visible()).SwapSig?
                && Stands(a, disk, old(Visible()).name, image)
    {
      hide Exec, Init, After, Enabled, Valid;
      if !a.sized || !a.snapshot {
        Stop();
        return Returned(-a.error), false;
      }
      Snapshot();
      MarkedShows();
      var error := WriteImage(a);
      if error == 0 {
        r := Conclude(ram);
        return r, false;
      }
      more := -error == ENOSPC && again;
      FreePages(more);
      r := Returned(-error);
    }

    // -------------------------------------------------------------------
    // resume.

    /** main of resume.  Whatever fails, the signature stays on the disk exactly when
        resume does not get as far as resetting it or the reset fails; and a system
        is restored exactly when the image was loaded and the kernel could do it,
        whether or not the reset worked. */
    method Resume(b: Boots) returns (r: Resumed)
      requires Valid() && model.phase == Booted
      modifies this
      ensures Valid()
      ensures r == if !(b.reached && old(Visible()).SuspendSig?) then BootedOn
                   else if !b.loads && b.reboots then Rebooted
                   else if b.loads && b.restores then Restored else BootedOn
      ensures r.Rebooted? ==> model.phase == Off && Visible() == old(Visible())
      ensures !r.Rebooted? ==> model.phase == Running
      ensures r.Restored? ==> model.swapOn && model.leftMarked == !b.resetWritten
      ensures Visible() == if !r.Rebooted? && b.reached && b.resetWritten && old(Visible()).SuspendSig?
                           then SwapSig(old(Visible()).orig) else old(Visible())
      ensures model.restored == old(model.restored)
                                + (if r.Restored? then multiset{old(Visible()).image} else multiset{})
    {
      hide Exec, Init, After, Enabled;
      if !b.reached {
        Skip();
        return BootedOn;
      }
      var header := Visible();
      ReadIt();
      if !header.SuspendSig? {
        return BootedOn;
      }
      LoadIt(header, b.loads);
      if !b.loads && b.reboots {
        Reboot();
        return Rebooted;
      }
      if b.resetWritten {
        PutBack(header, b.loads);
      } else {
        LeaveMarked(header, b.loads);
      }
      if b.loads && b.restores {
        RestoreIt(header);
        return Restored;
      }
      GoOn(header);
      return BootedOn;
    }

    /** resume gives up before it reads the header. */
    ghost method Skip()
      requires Valid() && model.phase == Booted
      modifies this`model, this`trace
      ensures Valid() && model.phase == Running && model.restored == old(model.restored)
    {
      hide Exec, Init, Synced;
      Take(SkipResume);
    }

    ghost method ReadIt()
      requires Valid() && model.phase == Booted
      modifies this`model, this`trace
      ensures Valid() && model.restored == old(model.restored)
      ensures model.phase == if Visible().SuspendSig? then Found(Visible()) else Running
    {
      hide Exec, Init, Synced, After;
      ReadHeaderIs(model);
      Take(ReadHeader);
    }

    /** read_image and the freeze behind it. */
    ghost method LoadIt(header: Content, ok: bool)
      requires Valid() && model.phase == Found(header) && header.SuspendSig?
      modifies this`model, this`trace
      ensures Valid() && model.phase == Loaded(header, ok) && model.restored == old(model.restored)
    {
      hide Exec, Init;
      Take(Load(ok));
    }

    ghost method Reboot()
      requires Valid() && model.phase.Loaded? && !model.phase.ok
      modifies this`model, this`trace
      ensures Valid() && model.phase == Off && model.restored == old(model.restored)
    {
      hide Exec, Init;
      Take(AskReboot);
    }

    /** reset_signature of resume. */
    method PutBack(header: Content, ok: bool)
      requires Valid() && model.phase == Loaded(header, ok) && header.SuspendSig?
      modifies this
      ensures Valid() && model.phase == ResetDone(header, ok) && !model.leftMarked
      ensures model.restored == old(model.restored) && Visible() == SwapSig(header.orig)
    {
      hide Exec, Init;
      SyncedLast(disk, cache, Write(SwapHeader, SwapSig(header.orig)));
      WriteTo(SwapHeader, SwapSig(header.orig));
      Take(ResetWrite);
      SyncBack(header, ok);
    }

    method SyncBack(header: Content, ok: bool)
      requires Valid() && model.phase == ResetWritten(header, ok)
      modifies this
      ensures Valid() && model.phase == ResetDone(header, ok) && !model.leftMarked
      ensures model.restored == old(model.restored) && Visible() == old(Visible())
    {
      hide Exec, Init;
      Fsync();
      Take(ResetSync);
      SyncedNone(disk);
    }

    /** Its write fails. */
    ghost method LeaveMarked(header: Content, ok: bool)
      requires Valid() && model.phase == Loaded(header, ok) && header.SuspendSig?
      modifies this`model, this`trace
      ensures Valid() && model.phase == ResetDone(header, ok) && model.leftMarked
      ensures model.restored == old(model.restored)
    {
      hide Exec, Init;
      Take(ResetFails);
    }

    ghost method RestoreIt(header: Content)
      requires Valid() && model.phase == ResetDone(header, true) && header.SuspendSig?
      modifies this`model, this`trace
      ensures Valid() && model.phase == Running && model.leftMarked == old(model.leftMarked) && model.swapOn
      ensures model.restored == old(model.restored) + multiset{header.image}
    {
      hide Exec, Init;
      Take(Restore);
    }

    ghost method GoOn(header: Content)
      requires Valid() && model.phase.ResetDone? && model.phase.header == header && header.SuspendSig?
      modifies this`model, this`trace
      ensures Valid() && model.phase == Running && model.leftMarked == old(model.leftMarked)
      ensures model.restored == old(model.restored)
    {
      hide Exec, Init;
      Take(RestoreFails);
    }

    /** A system that runs beside a marked image can break it. */
    lemma Breaking()
      requires Valid() && model.phase == Running && model.leftMarked && model.swapOn
      ensures exists place, page :: Breaks(model, place, page)
    {
      hide Exec, Init;
      SomePageBreaksImage(first, trace);
    }

    /** The machine is switched on. */
    ghost method TurnOn()
      requires Valid() && model.phase == Off
      modifies this`model, this`trace
      ensures Valid() && model.phase == Booted
    {
      hide Exec, Init;
      Take(Boot);
    }
  }

  /** The run in which a signature survives: an image is saved, resume fails to reset
      the signature and restores the system all the same; when that system suspends,
      everything is written before mark_swap refuses, and suspend_system returns with
      the old signature on the disk.  One page swapped out by it over a page of the
      old image would break that image. */
  method RestoredWithoutReset(d: Store, a: Attempt) returns (m: Machine, r: Outcome)
    requires Commit.Header(d).SwapSig? && HeaderApart(a) && a.error < 0 && a.markWritten
    requires a.sized && a.snapshot && a.saved && a.headerWritten && a.verified
    ensures m.Valid() && m.model.phase == Running && m.model.swapOn && m.model.leftMarked
    ensures m.Visible() == SuspendSig(a.header.0, Commit.Header(d).name, 1) && r == Returned(ENODEV)
    ensures exists place, page :: Breaks(m.model, place, page)
  {
    hide Exec, Init, After, Enabled, Machine.Valid;
    m := new Machine(d);
    assert m.Visible() == Commit.Header(d) by { SyncedNone(d); }
    var sizes;
    r, sizes := m.SuspendSystem(1, 1, 0, [a, a], Ram(false, false, false));
    SyncedNone(m.disk);
    m.TurnOn();
    var resumed := m.Resume(Boots(true, true, false, false, true));
    r, sizes := m.SuspendSystem(1, 1, 0, [a, a], Ram(false, false, false));
    m.MarkedShows();
    m.Breaking();
  }

  /** A whole cycle: the image is saved, loaded and restored, and the swap header is what
      it was before. */
  method SuspendAndResume(d: Store, a: Attempt) returns (m: Machine, resumed: Resumed)
    requires Commit.Header(d).SwapSig? && HeaderApart(a) && a.error < 0 && a.markWritten
    requires a.sized && a.snapshot && a.saved && a.headerWritten && a.verified
    ensures m.Valid() && m.model.phase == Running && resumed == Restored && m.Visible() == Commit.Header(d)
  {
    hide Exec, Init, After, Enabled, Machine.Valid;
    m := new Machine(d);
    assert m.Visible() == Commit.Header(d) by { SyncedNone(d); }
    var r, sizes := m.SuspendSystem(1, 1, 0, [a, a], Ram(false, false, false));
    SyncedNone(m.disk);
    m.TurnOn();
    resumed := m.Resume(Boots(true, true, false, true, true));
  }
}
