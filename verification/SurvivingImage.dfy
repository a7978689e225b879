/** The commit protocol and the image format together: an image whose signature
    survives can be loaded. */
module SurvivingImage {
  import opened Utils
  import opened LittleEndian
  import opened SwapSpace
  import opened SwapWriter
  import opened WriterProofs
  import opened SwapReader
  import opened Lockstep
  import opened ImageFormat
  import opened ImageReader
  import opened RoundTrip
  import Commit
  import Md5

  /** The swap pages on a disk. */
  function SwapOf(d: Commit.Store): Disk {
    map o: nat | o in (set l | l in d && l.At? && d[l].Contents? :: l.page) :: d[Commit.At(o)].page
  }

  /** The swap pages that write_image wrote. */
  ghost function ImageParts(w: Writer, header: nat, page: Page): map<nat, Page> {
    map o: nat | o in {header, w.spc} + (set l | l in Locations(w.closed)) + (set u: nat | u in w.used)
      :: ReadPage(Finished(w, header, page), o)
  }

  lemma SwapOfAt(d: Commit.Store, o: nat)
    requires Commit.At(o) in d && d[Commit.At(o)].Contents?
    ensures o in SwapOf(d) && SwapOf(d)[o] == d[Commit.At(o)].page
  {
    assert Commit.At(o).page == o;
  }

  /** A complete image is carried by the swap pages of the disk. */
  lemma CompleteIsCarried(d: Commit.Store, sealed: map<nat, map<nat, Page>>, w: Writer, header: nat, page: Page)
    requires Commit.Complete(d, sealed, Commit.Header(d))
    requires sealed[Commit.Header(d).image] == ImageParts(w, header, page)
    ensures Carries(SwapOf(d), w, header, page)
  {
    var parts := ImageParts(w, header, page);
    forall o: nat | InImage(w, header, o)
      ensures ReadPage(SwapOf(d), o) == ReadPage(Finished(w, header, page), o)
    {
      assert o in parts;
      SwapOfAt(d, o);
    }
  }

  /** End to end: whichever pending writes survive a crash at any moment of any run,
      if the suspend signature of an image is on the disk, whose reset did not fail,
      and that image is what write_image wrote, then resume can load it. */
  lemma {:induction false} SurvivingImageOnDisk(s: Commit.State, steps: seq<Commit.Step>, mask: seq<bool>,
      codec: Codec, kernel: seq<nat>, disk: Disk, f: Md5.BlockFunction, image: seq<Bytes>, rests: seq<Bytes>,
      w0: Writer, saved: Writer, glance: Glance, checked: bool)
    requires Commit.Init(s) && Commit.Exec(s, steps).Some?
    requires codec.Lawful() && AllPages(image, codec.pageSize) && NoDup(multiset(kernel))
    requires var t := Commit.Exec(s, steps).value;
             var d := Commit.Persist(t.disk, t.cache, mask);
             var c := Commit.Header(d);
             c.SuspendSig? && c.image !in t.failed && c.image in t.sealed
             && Written(codec, kernel, disk, image, c.start, rests, w0, saved)
             && Undisturbed(saved, codec, image, rests)
             && t.sealed[c.image] == ImageParts(saved, c.start, Header(HeaderOf(w0, saved, codec, f, image, checked)))
    ensures var t := Commit.Exec(s, steps).value;
            var d := Commit.Persist(t.disk, t.cache, mask);
            OnDisk(SwapOf(d), Commit.Header(d).start, codec, f, image, rests, glance)
  {
    hide Commit.Exec, Commit.Init, Commit.Persist, Commit.Complete, Written, Undisturbed, OnDisk, Carries, ImageParts,
      SwapOf, HeaderOf, Commit.Header;
    Commit.SignatureMeansImage(s, steps, mask);
    var t := Commit.Exec(s, steps).value;
    var d := Commit.Persist(t.disk, t.cache, mask);
    var start := Commit.Header(d).start;
    var page := Header(HeaderOf(w0, saved, codec, f, image, checked));
    CompleteIsCarried(d, t.sealed, saved, start, page);
    ImageIsOnDisk(codec, kernel, disk, f, image, start, rests, w0, saved, glance, checked, SwapOf(d));
  }

  /** And then resume reads it back, page by page. */
  method ReadAfterCrash(d: Commit.Store, codec: Codec, f: Md5.BlockFunction, verify: bool, dump: Dump, glance: Glance,
                        ghost s: Commit.State, ghost steps: seq<Commit.Step>, ghost mask: seq<bool>,
                        ghost kernel: seq<nat>, ghost disk: Disk, ghost image: seq<Bytes>, ghost rests: seq<Bytes>,
                        ghost w0: Writer, ghost saved: Writer, ghost checked: bool)
    returns (ok: bool, out: seq<Bytes>)
    requires Commit.Init(s) && Commit.Exec(s, steps).Some?
    requires var t := Commit.Exec(s, steps).value; d == Commit.Persist(t.disk, t.cache, mask)
    requires codec.Lawful() && AllPages(image, codec.pageSize) && NoDup(multiset(kernel)) && image != []
    requires var t := Commit.Exec(s, steps).value;
             var c := Commit.Header(d);
             c.SuspendSig? && c.image !in t.failed && c.image in t.sealed
             && Written(codec, kernel, disk, image, c.start, rests, w0, saved)
             && Undisturbed(saved, codec, image, rests)
             && t.sealed[c.image] == ImageParts(saved, c.start, Header(HeaderOf(w0, saved, codec, f, image, checked)))
    ensures ok && out == image
  {
    hide Commit.Exec, Commit.Init, Commit.Persist, Written, Undisturbed, OnDisk, ImageParts, SwapOf, HeaderOf;
    SurvivingImageOnDisk(s, steps, mask, codec, kernel, disk, f, image, rests, w0, saved, glance, checked);
    var dev := new Device([], SwapOf(d));
    ghost var fed;
    ok, out, fed := ReadImage(dev, codec, f, Commit.Header(d).start, verify, dump, glance, image, rests);
  }
}
