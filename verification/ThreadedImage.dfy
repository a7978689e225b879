/** Saving with threads gives the same image as saving without. */
module ThreadedImage {
  import opened Utils
  import opened LittleEndian
  import opened SwapSpace
  import opened SwapWriter
  import opened WriterRuns
  import opened SwapReader
  import opened Lockstep
  import opened ImageFormat
  import opened ImageReader
  import opened OnSwap
  import opened RoundTrip
  import opened Pipeline

  /** The main thread hands over the buffers of the image, flushed into write
      buffers that held rests[k] before. */
  function Handed(codec: Codec, buffers: seq<seq<Bytes>>, rests: seq<Bytes>): (r: seq<seq<Bytes>>)
    requires codec.pageSize > 0 && |buffers| == |rests|
    ensures |r| == |buffers|
  {
    if buffers == [] then []
    else [FlushPages(codec, buffers[0], rests[0])] + Handed(codec, buffers[1..], rests[1..])
  }

  lemma {:induction false} HandedConcat(codec: Codec, buffers: seq<seq<Bytes>>, rests: seq<Bytes>)
    requires codec.pageSize > 0 && |buffers| == |rests|
    ensures Concat(Handed(codec, buffers, rests)) == PlainPages(codec, buffers, rests)
    decreases |buffers|
  {
    if buffers != [] {
      HandedConcat(codec, buffers[1..], rests[1..]);
      assert Handed(codec, buffers, rests)[1..] == Handed(codec, buffers[1..], rests[1..]);
    }
  }

  lemma FlushedNotEmpty(codec: Codec, buffer: seq<Bytes>, rest: Bytes)
    requires GoodBuffer(codec, buffer, rest)
    ensures FlushPages(codec, buffer, rest) != []
  {
    if codec.compress {
      BufferBound(buffer, codec.pageSize);
      BlockFits(codec, Flatten(buffer));
      CutStep(Overlay(rest, Block(codec.lzo, Flatten(buffer))), |Block(codec.lzo, Flatten(buffer))|, codec.pageSize);
    }
  }

  lemma {:induction false} HandedValid(codec: Codec, buffers: seq<seq<Bytes>>, rests: seq<Bytes>)
    requires codec.pageSize > 0 && |buffers| == |rests|
    requires forall k :: 0 <= k < |buffers| ==> GoodBuffer(codec, buffers[k], rests[k])
    ensures forall b :: b in Handed(codec, buffers, rests) ==> b != []
    decreases |buffers|
  {
    hide GoodBuffer, FlushPages;
    if buffers != [] {
      FlushedNotEmpty(codec, buffers[0], rests[0]);
      forall k | 0 <= k < |buffers[1..]| ensures GoodBuffer(codec, buffers[1..][k], rests[1..][k]) {
        assert buffers[1..][k] == buffers[k + 1] && rests[1..][k] == rests[k + 1];
      }
      HandedValid(codec, buffers[1..], rests[1..]);
    }
  }

  lemma BuffersGood(codec: Codec, image: seq<Bytes>, rests: seq<Bytes>)
    requires codec.Lawful() && ImageFacts(codec, image, rests)
    ensures forall k :: 0 <= k < |Buffers(image)| ==> GoodBuffer(codec, Buffers(image)[k], rests[k])
  {
    BuffersArePages(image, codec.pageSize);
    forall k | 0 <= k < |Buffers(image)| ensures GoodBuffer(codec, Buffers(image)[k], rests[k]) {
      assert Buffers(image)[k] in Buffers(image) && rests[k] in rests;
    }
  }

  /** Whatever the interleaving of the threads: once wait_for_finish has returned,
      the pages that went through save_page are the data pages of the image. */
  lemma {:induction false} ThreadsSaveImage(codec: Codec, image: seq<Bytes>, rests: seq<Bytes>, s: State,
                         steps: seq<Step>)
    requires codec.Lawful() && ImageFacts(codec, image, rests)
    requires var job := Job(codec, Handed(codec, Buffers(image), rests));
             Init(job, s) && Exec(job, s, steps).Some? && Exec(job, s, steps).value.main == MainPc.Finished
    ensures var job := Job(codec, Handed(codec, Buffers(image), rests));
            job.Valid() && Exec(job, s, steps).value.saved == DataOf(codec, image, rests)
    ensures |rests| == |Buffers(image)|
  {
    hide GoodBuffer, ImageFacts, PlainPages, Init, Handed, Exec, Buffers, EncryptAll;
    FactsLength(codec, image, rests);
    var job := Job(codec, Handed(codec, Buffers(image), rests));
    BuffersGood(codec, image, rests);
    HandedValid(codec, Buffers(image), rests);
    HandedConcat(codec, Buffers(image), rests);
    FinishedMeansSaved(job, s, steps);
  }

  /** Without the functions that compute it: with encryption the cipher runs through the
      data pages in order, whatever the interleaving, and save_page gets what it makes of
      them; without, it gets the data pages. */
  lemma {:induction false} ThreadsEncrypt(codec: Codec, image: seq<Bytes>, rests: seq<Bytes>, s: State,
                         steps: seq<Step>) returns (states: seq<Bytes>)
    requires codec.Lawful() && ImageFacts(codec, image, rests)
    requires var job := Job(codec, Handed(codec, Buffers(image), rests));
             Init(job, s) && Exec(job, s, steps).Some? && Exec(job, s, steps).value.main == MainPc.Finished
    ensures var plain := PlainPages(codec, Buffers(image), rests);
            var saved := Exec(Job(codec, Handed(codec, Buffers(image), rests)), s, steps).value.saved;
            && |saved| == |plain| && |states| == |plain| + 1 && states[0] == codec.iv
            && (!codec.encrypt ==> saved == plain)
            && (codec.encrypt ==>
                  forall k :: 0 <= k < |plain| ==>
                    codec.cipher.encrypt(states[k], plain[k]) == (states[k + 1], saved[k]))
  {
    hide ImageFacts, PlainPages, Init, Handed, Exec, Buffers, EncryptAll, StateAfter, Codec.Lawful;
    FactsLength(codec, image, rests);
    ThreadsSaveImage(codec, image, rests, s, steps);
    states := CipherRuns(codec, codec.iv, PlainPages(codec, Buffers(image), rests));
  }

  lemma FactsLength(codec: Codec, image: seq<Bytes>, rests: seq<Bytes>)
    requires ImageFacts(codec, image, rests)
    ensures |rests| == |Buffers(image)| && codec.pageSize > 0
  {
  }

  /** So an image saved by the threads can be loaded like any other. */
  lemma {:induction false} ThreadedImageOpens(w0: Writer, saved: Writer, header: nat, page: Page, codec: Codec,
                           image: seq<Bytes>, rests: seq<Bytes>, glance: Glance, disk: Disk, s: State,
                           steps: seq<Step>)
    requires w0.Shaped() && RunOk(w0, header) && w0.used == [] && |w0.slots| == codec.pageSize / 16
    requires codec.Lawful() && ImageFacts(codec, image, rests)
    requires var job := Job(codec, Handed(codec, Buffers(image), rests));
             Init(job, s) && Exec(job, s, steps).Some? && Exec(job, s, steps).value.main == MainPc.Finished
    requires var pages := Exec(Job(codec, Handed(codec, Buffers(image), rests)), s, steps).value.saved;
             SavePages(w0, pages) == Some(saved) && SharedAlike(saved.used, pages)
    requires Carries(disk, saved, header, page)
    ensures Opens(disk, FirstTable(saved), codec, image, rests, glance)
  {
    hide RunOk, SavePages, SharedAlike, Carries, Init, ImageFacts, Opens, Handed;
    ThreadsSaveImage(codec, image, rests, s, steps);
    SavedOpens(w0, saved, header, page, codec, image, rests, glance, disk);
  }
}
