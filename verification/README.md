# A verified model of the hibernation-image path

`s2disk` turns a stream of memory pages into a chained, extent-mapped image in swap
space and commits it by changing the signature in the swap header; `resume` reads it
back, resets the signature and asks the kernel to restore the system. This Dafny
project models that path and proves what it is for. `dafny verify dfyconfig.toml`
checks everything.

| file | models |
|---|---|
| `Extents`, `AllocSwap` | the sorted array of extents and `alloc_swap`, on the array |
| `SwapSpace` | the disk, one page per swap offset, and the kernel as a source of pages |
| `SwapWriter`, `WriterProofs`, `WriterRuns`, `Reuse` | the cursor of the writer as a function of its state, its invariant over all runs, and exactly when all pages are distinct |
| `EnoughSwap`, `Estimate`, `Incompressible` | when the writer cannot fail, exactly how far the estimate of swap carries, and an image for which it is too low |
| `StaleCarry`, `LostImage` | the run in which two pages get the same place, and the image that is lost by it |
| `SwapReader`, `Lockstep` | the cursor of the reader, and that it follows the writer |
| `ImageFormat`, `LittleEndian` | buffers, compressed blocks, the cipher stream |
| `OnSwap` | what is on the swap, byte by byte: pages under the cipher, and compressed blocks |
| `ImageWriter`, `ImageReader`, `RoundTrip` | the writer and the reader as classes, `write_image`, `read_or_verify`, and the round trip |
| `Altered` | images that were altered on the swap, and when they are refused |
| `Pipeline`, `ThreadedImage` | the main, move and save threads with their two rings as a step relation |
| `Commit`, `CommitProgram` | signature, fsync, crashes, boots and resume runs as a state machine; `suspend_system` and `resume` as programs whose effects are its steps |
| `SurvivingImage` | the protocol and the image format together: an image whose signature survives a crash can be read |
| `Md5`, `Md5Rfc`, `Md5Order` | the incremental checksum; the digest as RFC 1321 describes it; when whole blocks may be fed behind single bytes |
| `MemPool`, `PoolBudget` | the pool allocator, and that the budget of both programs suffices |
| `RealMode` | the first-fit allocator of vbetool |

Code that changes state is a class or a method on arrays, proved against functions
on values; the theorems are about those functions and about all runs of them.

The proofs settled these questions about the code:

- **Stale extents.** After a merge `alloc_swap` leaves the vacated slot as it was
  (`suspend.c:401-404`, `suspend.c:415-418`), and `next_swap_page` takes any non-empty
  slot behind the extents in use for the carry (`suspend.c:713-716`). With compression,
  where half of what is needed is preallocated, a batch can end there; without, it
  cannot (`WriterRuns.UncompressedNeverStale`). The pages of a run are pairwise
  distinct if and only if no later call gives out a page of an extent taken like that
  (`Reuse.UsedDistinctExactly`), and what is saved is what is loaded if and only if
  pages that share a place are equal (`Lockstep.SavedPagesLoad`). For every page size,
  `LostImage.SavedAndLost` is an image of five pages that `write_image` saves without an
  error and whose reader finds the fourth page in place of the third.
- **The estimate of swap.** `swap_needed` counts 1/16 and 67 bytes for the whole image,
  but every buffer is rounded up to pages. Saving more pages than estimated succeeds
  only as far as pages are left in the batch when the estimate is used up
  (`Estimate.SavesExactly`), at most one without stale extents
  (`Estimate.AtMostOneMore`), however much swap is free. 96 pages that expand as much
  as LZO allows need 105 and get 103 (`Incompressible.EstimateTooLow`).
- **The last array.** `save_extents(handle, 1)` does not zero the last slot although
  the comment asks for it (`suspend.c:663-664`). It does not matter: for all pages
  saved the reader never needs a terminator (`Lockstep.ReaderFollowsWriter`).
- **A failed reset.** `resume` goes on to restore after `reset_signature` failed, and it
  gives up without a reset when it fails before reading the header. In these cases, and
  in no others, the signature of the image is still on the disk while a system runs
  (`Commit.RunningIffReset`), and the next boot restores the image again
  (`Commit.LeftMarkedRestoresAgain`). The restored system uses the swap area: a single
  page swapped out breaks the marked image (`Commit.SwapOutBreaksImage`), and its own
  `suspend_system` writes a whole image before `mark_swap` refuses with ENODEV
  (`CommitProgram.RestoredWithoutReset`).
- **Whole blocks after single bytes.** `md5_process_block` ignores what
  `md5_process_bytes` has buffered, which may be a full block of 64 bytes
  (`Md5Order.OvertakeFullBuffer`). Whatever the block function, the digest is that of
  the concatenation if and only if nothing was buffered or what was buffered and the
  blocks repeat one word (`Md5Order.BlocksDigestExactly`). The image path feeds whole
  pages only.

## Model

| member | source | states |
|---|---|---|
| Extents.SearchFinds | suspend.c:386-437 | the binary search with its restart (`goto Repeat`) ends for every window it can reach, and never misses: if a page that is not in the list touches an extent, the search hits such an extent; otherwise it stops beside the gap that holds the page |
| Extents.InsertPage | suspend.c:362-466 | inserting a page by a plain walk over the sorted list (the reference) keeps the extents sorted, disjoint and never touching, and adds exactly that page to the pages they cover |
| Extents.PlaceRefinesInsert | suspend.c:386-460 | one round of alloc_swap on the array, with its memmoves, gives the list of the reference insertion; when there is no room for one more extent it writes the page behind the full list as the carry and changes nothing else |
| Extents.PlaceKeeps | suspend.c:386-460 | one round keeps the array tidy (main extents canonical, slots behind them hold only pages that are already covered, last slot empty or the one-page carry) and adds exactly the page obtained to the pages held |
| AllocSwap.AllocateKeeps | suspend.c:362-466 | for any answers of the kernel: pages of the array and the carry plus the pages still with the kernel are exactly those there were before, the index never passes `max_extents`, and the request is met unless the array is full |
| AllocSwap.AllocateTakesInOrder | suspend.c:362-466 | the pages are taken in the order in which the kernel hands them out and no more than asked for; it fails exactly at a page that the kernel refuses |
| AllocSwap.FindExtent | suspend.c:386-437 | the search loop, on the array, computes the search function |
| AllocSwap.AddPage | suspend.c:386-460 | the array after extending, merging (with memmove) or creating an extent is that of the specification, slot by slot, including what a merge leaves behind |
| AllocSwap.AllocateSwap | suspend.c:362-466 | alloc_swap on the array and the device: new array, count, size and remaining kernel answers are those of the specification; the count is negative exactly when the kernel refuses a page |
| ImageWriter.ImageWriter.PreallocateSwap | suspend.c:638-658 | the writer after preallocate_swap, in every field, or 0 when there is no swap needed or to be had |
| ImageWriter.ImageWriter.SaveExtentsPage | suspend.c:672-690 | the array goes to its page; unless it is the last one its last slot first gets the page of the next array |
| ImageWriter.ImageWriter.NextPage | suspend.c:698-726 | the cursor moves through the extents and, at the end of a batch, saves the array and starts the next batch with what it finds behind the extents in use |
| ImageWriter.ImageWriter.SaveOnePage | suspend.c:734-748 | save_page writes the page at the next offset and counts it |
| ImageWriter.ImageWriter.EncryptAndSavePage | suspend.c:1180-1201 | with encryption the page goes through the cipher, from the state that the page before has left, and save_page gets the result; without, it gets the page |
| ImageWriter.ImageWriter.FlushBuffer | suspend.c:1206-1255 | feeds the buffer to the checksum, compresses it if asked to, and saves exactly the pages of the block, encrypted in order; it fails exactly when one of them cannot be saved |
| ImageWriter.ImageWriter.SaveImage | suspend.c:1260-1365 | on success all pages of all buffers of the image went through save_page in order, as one encrypted stream, the last array is saved and the checksum covers the image; on failure the kernel could not supply the pages for the buffers so far, or there was no page for the last array |
| ImageWriter.ImageWriter.Open | suspend.c:577-624 | a page for the first array, the check for enough swap, the first batch, the cursor one page before its first page; the reasons for which it can fail |
| WriterProofs.PreallocateKeeps | suspend.c:638-658 | a batch is well formed, holds the pages there were plus those taken from the kernel, and either ends with a carry or has as many pages as were asked for |
| WriterProofs.BehindIs | suspend.c:711-716 | at the end of a batch the slot behind the extents in use holds the carry, if there is one, and otherwise only pages that this batch has used already, or nothing |
| WriterRuns.NextKeeps | suspend.c:698-726 | every call of next_swap_page keeps the invariant of the writer (cursor, batch, chain of arrays on the disk, pages apart from those of header, arrays and kernel) and conserves pages: none is lost, and only a stale extent is counted twice |
| WriterRuns.StartKeeps | suspend.c:1436-1504 | the state in which write_image starts to save satisfies it, with all pages accounted for |
| WriterRuns.SavePagesKeeps | suspend.c:734-748 | so does every run of save_page, over any number of batches; the counters count the pages |
| WriterRuns.DistinctExactly | suspend.c:698-726 | with or without compression: if no page was given twice before, then the pages used by a run, those left in its last batch and the carry are pairwise distinct together if and only if no batch ended with a stale extent behind the extents in use |
| Reuse.UsedDistinctExactly | suspend.c:698-726 | with or without compression: the pages of a run are pairwise distinct if and only if no call gives out a page of a stale extent that it, or an earlier call, took for a carry |
| WriterRuns.UncompressedNeverStale | suspend.c:643-657 | without compression no batch ever ends like that: it ends early only when the array is full and the slot is the carry |
| WriterRuns.UncompressedDistinct | suspend.c:1436-1504 | without compression, if the kernel repeats no page, the header page, all pages of arrays and all data pages are pairwise distinct |
| EnoughSwap.EnoughSwapSaves | suspend.c:638-748 | if the kernel has 2n + needed + 3 pages to give and n is at most `needed`, neither the preallocation nor any of n calls of save_page can fail, however scattered the pages are |
| Estimate.SavesExactly | suspend.c:643-657 | with pages enough to give, n pages can be saved if and only if they exceed the estimate by no more than what is left in the batch when it is used up |
| Estimate.AtMostOneMore | suspend.c:643-657 | without stale extents that is at most one page: a run that wants two more than estimated fails, however many pages the kernel has |
| Incompressible.EstimateTooLow | suspend.c:1478-1489 | every image of 96 pages, every page size from 128 bytes, with a library that expands as much as LZO may: 103 pages are estimated and 105 are to be saved; from consecutive pages, any number of them, saving succeeds up to the estimate and then fails |
| StaleCarry.TwoPagesInOnePlace | suspend.c:711-716 | for every page size: a run with compression in which a stale extent is taken for the carry and the third and the fourth page of the image are written to the same place |
| StaleCarry.FourthForThird | load.c:211-232 | whoever reads the finished image visits that place twice and gets the fourth page where the third was saved |
| LostImage.SavedAndLost | suspend.c:1424-1618 | for every page size from 128 bytes, every image of five pages and a library that shrinks it to fill four: write_image saves it with the swap estimated for it, from a kernel that repeats no page, and every reader of the finished image finds the first, second, fourth and fourth page of the block |
| LostImage.DoesNotDecode | load.c:276-303 | what it finds has the size of the block, and the library refuses it: the image is lost |
| SwapReader.LoadsTable | load.c:125-142 | loading an array of the chain puts exactly its pages ahead of the reader, whatever its array held before |
| SwapReader.VisitsChain | load.c:211-232 | along a chain of arrays the reader visits the pages of the arrays one after the other |
| Lockstep.ReaderFollowsWriter | load.c:125-232 | over any number of batches and carries, the offsets the reader visits are those the writer used, in order, for all pages saved; the missing terminator of the last array is never looked at |
| Lockstep.ArraysOnSwap | suspend.c:672-690 | on every disk that carries the finished run: the arrays are at their pages, the start field of the last slot of each is the page of the next, the first is where the header says, and the places of the run are pages of their extents, in order |
| Lockstep.SavedIsKept | suspend.c:734-748 | after any run, at every place there is the last page that was written to it |
| Lockstep.KeptExactly | suspend.c:734-748 | so every page is where it was saved if and only if pages that share a place are equal |
| Lockstep.SavedPagesLoad | load.c:125-232 | the reader visits the places of the run in order and finds there the pages that went through save_page, if and only if pages that share a place are equal; and the header page as written |
| ImageReader.ImageReader.LoadExtentsPage | load.c:125-142 | load_extents_page on the array computes the specification |
| ImageReader.ImageReader.FindNextImagePage | load.c:211-232 | find_next_image_page: next page of the extent, first page of the next extent, or the next array; the total size goes down by one page |
| ImageReader.ImageReader.LoadAndDecryptPage | load.c:238-262 | returns the page at the cursor, with encryption deciphered from the state that the page before has left, without as it is, and moves the cursor |
| ImageReader.ImageReader.LoadBuffer | load.c:269-322 | with a saved buffer ahead, returns exactly the bytes of that buffer, decompressed if need be, and leaves the next buffer ahead |
| ImageReader.ImageReader.LoadImage | load.c:330-379 | with a saved image ahead, hands out exactly its pages in order, and feeds exactly their bytes to the checksum; whatever is ahead, the pages handed out are as many as asked for, and the first of the bytes fed to the checksum |
| ImageFormat.BlockFits | suspend.c:2380-2388 | given the expansion bound of the library, the size field and the compressed data of any buffer of up to buffer_size bytes fit compress_buf_size |
| ImageFormat.BlockReadExactly | load.c:276-294 | the reader, which learns the size from the first page, reads exactly as many pages as were written for the block, and neither side passes compress_buf_size |
| LittleEndian.SizeRoundTrip | load.c:276-294 | the size stored in front of a block is read back |
| ImageFormat.EncryptConcat | suspend.c:1185-1201 | encrypting page by page with the state carried along does not depend on how the pages are grouped |
| OnSwap.CipherRuns | suspend.c:1185-1201 | spelled out: the cipher runs through the pages in order, each call from the state that the one before has left; without encryption the pages are as they were |
| OnSwap.BufferAt | suspend.c:1260-1340 | buffer k of an image holds its pages from 32 k on, 32 of them or those that are left |
| OnSwap.BlockOfImage | suspend.c:1206-1255 | spelled out for the data pages of any compressed image: block k follows block k - 1; its first eight bytes, low-order byte first, are the size of what the library makes of the pages from 32 k on, then comes that, then less than a page of anything |
| RoundTrip.SavedOpens | load.c:170-206 | after a finished run the chain opens on the plain pages of the image, whatever the reader's buffers held |
| RoundTrip.WriteImage | suspend.c:1424-1618 | write_image up to the header page: success means that more swap was reported free than the estimate asks for, that the run of the writer from the pages given by the kernel saved the image, and that the disk is that run finished; the header has the number of pages, the flags asked for, the place of the first array, the number of data pages and the checksum of the image, each stated by itself; from the disk the image can be loaded if pages that share a place are equal, without compression always; with plenty of swap and an estimate that is not exceeded it cannot fail, compressed or not |
| RoundTrip.NeededIs | suspend.c:1483-1488 | the estimate: the pages of the image and, with compression, a sixteenth and 67 bytes rounded up to pages |
| RoundTrip.WrittenPages | suspend.c:1185-1201 | what is at the places of the run after write_image, without the functions that computed it: with encryption there are states of the cipher, the first the initial vector, such that place k holds what the cipher makes of data page k from state k and leaves state k + 1; without, place k holds data page k, and without compression these are the pages of the image (with compression, if pages that share a place are equal) |
| RoundTrip.ImageIsOnDisk | suspend.c:1424-1618 | any disk that agrees with it on the pages of the image, whatever else was written to it, is one to load the image from |
| RoundTrip.DistinctIsUndisturbed | suspend.c:698-726 | pages that share a place are equal when no call gives out a page of a stale extent taken for a carry; without compression always |
| RoundTrip.PlainPlenty | suspend.c:1373-1384 | without compression, plenty of swap is three pages for each page of the image and four more, and more reported free than the image has |
| RoundTrip.ReadImage | load.c:604-736 | for every disk: read_or_verify hands out as many pages as the header says, and when it succeeds and the checksum is to be compared, what was loaded, which starts with the pages handed out, has the digest in the header; from a disk that carries the pages of an image it hands out exactly those, and it succeeds if and only if the checksum agrees or is not to be compared |
| Altered.OtherImageOnDisk | load.c:604-682 | a disk with the header and the arrays of one image and the data pages of another, compressed or not, encrypted or not, carries the pages of the other |
| Altered.ReadOther | load.c:671-682 | and read_or_verify refuses it if and only if the checksum is compared and the digests of the two differ |
| Altered.OverwrittenIsOther | load.c:604-682 | one data page of a plain image overwritten after it was saved, and nothing else known: such a disk |
| Altered.ReadOverwritten | load.c:671-682 | so the overwritten page is noticed if and only if the checksum is compared and the digest differs |
| RoundTrip.SaveThenLoad | load.c:604-736 | image round trip, for every image, every choice of compression and encryption and every kernel that repeats no page: what was saved is loaded, page by page, if in the run that saved it no call gives out a page of a stale extent taken for a carry, or pages that share a place are equal; without compression always; with plenty of swap saving succeeds |
| Pipeline.StepKeeps | suspend.c:859-1038 | every step of the three threads keeps the invariant of the two rings |
| Pipeline.SavedInOrder | suspend.c:859-1038 | in every interleaving the pages passed to save_page are a prefix of those the single-threaded path would pass: none lost, repeated or out of order |
| Pipeline.FinishedMeansSaved | suspend.c:850-857 | when wait_for_finish returns, every page handed over has gone through save_page and neither other thread can do anything more |
| Pipeline.SlotsExclusive | suspend.c:751-814 | while a thread works on a slot of a ring, the slot is not the one its producer fills |
| Pipeline.WaitsExactly | suspend.c:859-1038 | in every reachable state: the main thread waits exactly when three of the four write buffers are not yet processed, the move thread when there is none or when 255 encrypted pages are not yet saved, the save thread when there is no such page |
| Pipeline.NeverStuck | suspend.c:839-898 | until the main thread has finished some thread can take a step |
| Pipeline.WorkDecreases | suspend.c:859-1038 | a measure of unread, buffered and unsaved pages goes down with every step |
| Pipeline.RunsEnd | suspend.c:859-1038 | so the number of steps of every run is bounded |
| ThreadedImage.ThreadsSaveImage | suspend.c:1206-1255 | with threads, save_page gets exactly the pages it gets without |
| ThreadedImage.ThreadsEncrypt | suspend.c:904-945 | spelled out: in every interleaving save_page gets what the cipher makes of the data pages, run through them in order from the initial vector on; without encryption it gets the data pages |
| ThreadedImage.ThreadedImageOpens | load.c:604-736 | and the image saved by the threads loads like the other |
| Commit.StepKeeps | suspend.c:1560-1617 | every step of the protocol (swap-outs and suspends, writes, syncs, failures, crashes, boots, the run of resume) keeps its invariant, in systems restored after a failed reset too |
| Commit.LastSurvivorStays | suspend.c:1560-1617 | a crash lets any choice of the writes not yet synced survive: a location holds the last of them to it |
| Commit.NoSurvivorNoChange | suspend.c:1560-1617 | or what it held when there is none |
| Commit.SyncedIs | suspend.c:1560-1617 | fsync leaves what a crash would if all survived |
| Commit.HistoriesAre | resume.c:541-567 | the histories that the theorems speak of record what happened and nothing else, for every step: failed resets, skipped runs of resume, restores, the pages of an image and the signature its mark replaced |
| Commit.SignatureMeansImage | suspend.c:1560-1617 | crash-safe commit: at every moment of every run, whichever pending writes survive a crash, a suspend signature on the disk means that every page of its image and the header page are on the disk, unless the write that was to reset this very signature failed |
| Commit.SwapOutBreaksImage | resume.c:550-567 | the exception is needed: in any system restored after a failed reset, swapping out one page over a page of the marked image leaves a signature without its image |
| Commit.SomePageBreaksImage | resume.c:550-567 | and in every such system there is such a page |
| Commit.RestoredAtMostOnce | resume.c:297-322 | over any runs, boots and crashes an image is restored at most once unless the write that resets its signature failed; and never after a system ran on since it was made, unless resume did not get as far as looking at it |
| Commit.RunningIffReset | resume.c:526-572 | while a system runs outside suspend_system, the suspend signature is on the disk if and only if the last run of resume left it there |
| Commit.LeftMarkedRestoresAgain | resume.c:526-572 | and then the next boot can restore the same image although a system ran on: resume reports a failed reset and goes on |
| Commit.ResetRestoresSignature | suspend.c:1386-1412 | a reset, by either program, leaves the signature that was found before marking |
| Commit.PagesHeldWhileMarked | suspend.c:1732-1790 | inside suspend_system the swap pages of the image are held as long as its signature is, or after a crash could be, on the disk, and no other signature can be there but one whose reset had failed; there are at most two snapshots |
| CommitProgram.Machine.MarkSwap | suspend.c:1386-1412 | mark_swap and the fsync, for every header: -ENODEV exactly when it carries a suspend signature; on success the header refers to the image header and keeps the signature found |
| CommitProgram.Machine.WriteImage | suspend.c:1566-1623 | data, fsync, header, fsync, verification, mark, fsync: the result of each failure, that of mark_swap on a marked header included; on success the swap header, the image header and, at every place, the last page written to it are on the disk; otherwise the swap header is what it was |
| CommitProgram.Machine.ResetAwake | suspend.c:1625-1667 | reset_signature of s2disk: the signature that was found before marking is back, or the program stays for ever |
| CommitProgram.Machine.Conclude | suspend.c:1762-1787 | after a committed image: power off, or suspend to RAM with the reset before the pages are released |
| CommitProgram.Machine.SuspendSystem | suspend.c:1688-1802 | spelled out for every call that can fail: the result, the image sizes asked of the kernel (the second is 0) and the number of snapshots; a second round follows exactly when saving or verifying ended with ENOSPC; when the power goes off, the swap header, the image header and the pages of the last round are on the disk; whenever it returns, the swap header is what it was, a suspend signature included |
| CommitProgram.Machine.Resume | resume.c:426-589 | resume, for every combination of failures: the swap header becomes the signature found before marking when resume reaches the reset and it works, and otherwise stays; the system is restored exactly when the image was loaded and the kernel could do it, whether or not the reset worked |
| CommitProgram.RestoredWithoutReset | resume.c:541-567 | a run from a fresh disk: suspend, a resume whose reset fails, and a suspend of the restored system, which returns ENODEV with the old signature on the disk, where one page more would break the old image |
| CommitProgram.SuspendAndResume | suspend.c:1688-1802 | a whole cycle from any disk with an ordinary signature: suspend, power off, boot, resume; the system is restored and the swap header is what it was |
| SurvivingImage.SurvivingImageOnDisk | suspend.c:1560-1617 | whichever pending writes survive a crash at any moment of any run: if the signature of an image that write_image wrote is on the disk and its reset did not fail, the image can be loaded from that disk (with compression, if pages that share a place are equal) |
| SurvivingImage.ReadAfterCrash | load.c:604-736 | and read_or_verify on that disk returns the image, page by page |
| Md5.AddLength | md5.c:310-314 | the two-word counter adds modulo 2^64 |
| Md5.Context.ProcessBytes | md5.c:219-282 | after any call, aligned or not, the bytes fed are those before followed by the new ones; at most 64 are buffered and counter plus buffer is the number of bytes modulo 2^64 |
| Md5.Context.FeedBlocks | md5.c:298-314 | whole blocks go in front of the bytes that are buffered and behind all others; with nothing buffered they are appended |
| Md5.Context.Finish | md5.c:107-130 | yields the digest of all bytes fed, with the padding and length of RFC 1321 sections 3.1 and 3.2: 16 bytes, from which the words a, b, c, d of the last chaining value are read back in this order |
| Md5Rfc.PaddedIs | md5.c:107-126 | the padded message, byte by byte: the message, 0x80, zeros, and in the last eight bytes the length in bits, low-order byte first; no longer than that takes |
| Md5Rfc.InitialIs | md5.c:74-86 | the four words at the start are those of RFC 1321 section 3.3, byte by byte |
| Md5Rfc.DigestIs | md5.c:107-130 | take any bytes that fit this description of the padded message and any chain of values from these words on, each one the work on the next block of 64 bytes: the digest is the last of them |
| Md5.TailIsPadding | md5.c:107-126 | what is put behind the buffered bytes completes the padding of the whole message |
| Md5.DigestOfChunks | md5.c:219-282 | however a message is split into calls, the digest is that of the concatenation |
| Md5.BlocksOvertakePending | md5.c:298-314 | whole blocks fed while bytes are buffered go in front of them |
| Md5Order.BlocksAppendExactly | md5.c:298-314 | the context after md5_process_block stands for the message with the data appended, for every block function, if and only if the buffered bytes and the data are repetitions of one word; in particular if nothing is buffered |
| Md5Order.BlocksDigestExactly | md5.c:298-314 | the same condition, exactly, for the digest to be that of the concatenation |
| Md5Order.SwapExactly | md5.c:298-314 | two byte sequences may be swapped if and only if they are repetitions of one word |
| Md5Order.OvertakeFullBuffer | md5.c:227-233 | one byte and then 63 leave a full buffer of 64 bytes; blocks fed then go in front of it, and the digest is that of this other message |
| MemPool.AlignmentIsLeast | memalloc.c:114-121 | the alignment is the least power of two, from 8 bytes to a page, that covers the size, and divides the page size |
| MemPool.GetKeeps | memalloc.c:99-133 | a block that is handed out is new and aligned, lies in the pool above all others, and nothing else changes |
| MemPool.GetExactly | memalloc.c:99-133 | getmem succeeds if and only if a slot is left and the block fits the pool from some aligned place above all others; it takes the lowest such place |
| MemPool.FreeKeeps | memalloc.c:139-189 | freeing takes away the live block at that address and no other; an unknown address changes nothing; the last slot is never a freed one |
| MemPool.SlotsAfterFree | memalloc.c:139-156 | every slot that stays keeps its place and address, and its size unless it is the freed one; only freed slots at the end go, all of them |
| MemPool.RunKeeps | memalloc.c:99-189 | all this after every sequence of calls with positive sizes |
| MemPool.LiveBlocksDisjoint | memalloc.c:99-189 | after every sequence of calls live blocks lie inside the pool, are aligned, and do not overlap |
| MemPool.FreeingAllRestores | memalloc.c:139-156 | freeing all live blocks, in any order and among other addresses, gives back the initial state |
| MemPool.Allocator.constructor | memalloc.c:67-89 | the slots and the page-aligned pool lie inside the memory obtained; the allocator is empty |
| MemPool.Allocator.GetMem | memalloc.c:99-133 | getmem on the array of slots is the specification; the address is aligned |
| MemPool.Allocator.FreeSlotAt | memalloc.c:139-156 | free_slot on the array of slots is the specification |
| MemPool.Allocator.SearchSlot | memalloc.c:162-189 | the binary search ends, and finds the slot with that address if there is one |
| MemPool.Allocator.FreeMem | memalloc.c:162-189 | freemem frees exactly the slot a linear search would find |
| PoolBudget.SuspendBudgetSuffices | suspend.c:2375-2417 | for every combination of compression, encryption and threads and every power-of-two page size: all getmem calls of the writer fit the pool; after they are freed in any order so do those of the verification pass; after those the pool is as new for a second attempt |
| PoolBudget.ResumeBudgetSuffices | resume.c:447-469 | the same for the header, the key buffers and the reader in resume, for every image it was built to read |
| PoolBudget.AllGot | memalloc.c:99-133 | what it means that all calls fit: one more block for each call, of the size asked for |
| RealMode.AllocKeeps | vbetool/x86-common.c:118-147 | an allocation adds exactly one region, of the size rounded to 16 bytes, in the first free block that is larger; the arena stays partitioned into multiples of 16 bytes without adjacent free blocks |
| RealMode.AllocExactly | vbetool/x86-common.c:118-147 | it takes the first free block larger than the size rounded up to 16 bytes, and refuses exactly when there is none or all 256 blocks are in use |
| RealMode.FreeByAddress | vbetool/x86-common.c:150-178 | freeing takes away the region at that address and no other, and changes nothing if there is none |
| RealMode.FreeKeeps | vbetool/x86-common.c:150-178 | freeing merges with both neighbours and keeps the partition |
| RealMode.FreeUndoesAlloc | vbetool/x86-common.c:118-178 | freeing the block just allocated gives back the very list from before |
| RealMode.RegionsDisjoint | vbetool/x86-common.c:118-178 | after every sequence of calls the allocated regions lie inside the arena and do not overlap |
| RealMode.FreeingAllRestores | vbetool/x86-common.c:150-178 | freeing all regions in any order gives back the one free block of the start |
| RealMode.Arena.InsertBlock | vbetool/x86-common.c:96-105 | the blocks from i on move up by one |
| RealMode.Arena.DeleteBlock | vbetool/x86-common.c:107-116 | block i is taken out |
| RealMode.Arena.AllocReal | vbetool/x86-common.c:118-147 | LRMI_alloc_real on the array is the specification; the address lies between 0x10000 and 0xa0000 and is that of the new region |
| RealMode.Arena.FreeReal | vbetool/x86-common.c:150-178 | LRMI_free_real on the array is the specification |

## Left out

- Offsets and sizes of swap are counted in pages; every offset and size in the image path is a multiple of the page size.
- I/O errors of reads and writes in the image path: a write fails only at offset 0, as `write_page` does; the commit protocol has them as failing steps.
- Torn writes of the swap header: a header write takes place as a whole or not at all, as the protocol itself relies on.
- Test mode and the page count taken from the image header when the kernel does not report it: there `header->pages` is one less than the pages buffered.
- RoundTrip.SaveThenLoad: with compression it asks that pages that share a place are equal (`Undisturbed`), or that no stale extent is given out again (`Reuses`), since it is false otherwise (`LostImage.SavedAndLost`); the if-and-only-if is stated for pages (`Lockstep.SavedPagesLoad`), because a block may decompress to the same bytes although one of its pages differs behind the data. The device yields exactly the pages announced, at least one.
- RoundTrip.WriteImage: success is promised when the kernel has 2n + `needed` + 4 pages and the n pages to save do not exceed `needed`; between that and the least supply that would do nothing is stated.
- LostImage.SavedAndLost: page sizes from 128 bytes; the library is one chosen for the image, within the bound and the inverse required of it.
- Incompressible.EstimateTooLow: page sizes from 128 bytes; the library is one that always expands to the bound.
- RoundTrip.ReadImage: of a disk whose header and chain are damaged too, only what holds for every disk is stated. Whether two images have the same digest is a matter of the function on blocks.
- Altered.OverwrittenIsOther: a single overwritten page, for images neither compressed nor encrypted; `Altered.OtherImageOnDisk` has all modes, for data pages that are those of some image.
- ImageReader.ImageReader.LoadBuffer: a block whose size or contents do not decode is refused; what a damaged image puts into the buffers before that is not described. What a page of one kind looks like when read as another is an arbitrary function.
- The checksum is always computed in the model; the program does so only when checksums or verification are asked for. `checked` says whether the header asks for the comparison.
- LZO and the cipher are a compressor with its inverse and expansion bound, and a stateful stream with its inverse; bytes after a block in its last page are arbitrary.
- Md5.Context.Finish: the function that absorbs one 64-byte block is a parameter, so the 64 steps and constants of RFC 1321 section 3.4 are not compared.
- Pipeline.FinishedMeansSaved: condition variables are guards; error codes, aborts, the failure path of `start_threads` and the shutdown of the threads on errors are not modelled. One step is one action under a lock or one page handled.
- Pipeline.SlotsExclusive: it says that the slot in use lies outside the free part of its ring, not how the hardware orders the accesses.
- Commit.StepKeeps: a system that was booted takes the swap area into use only if its header carries an ordinary signature then, as swapon demands; a restored system has it in use as it had at the snapshot. `mkswap` writes an ordinary signature and takes the area into use.
- Failing fsync: the program ignores the result of every fsync (`suspend.c:1564`, `suspend.c:1586`, `suspend.c:1613`, `suspend.c:1656`, `resume.c:314`); in the model an fsync always writes everything, so nothing is stated about a disk that reports failure there.
- SurvivingImage.SurvivingImageOnDisk: that the pages sealed in the protocol are those `write_image` wrote is a hypothesis; the protocol itself is about any pages.
- CommitProgram.Machine.SuspendSystem: the run that comes back after a restore is the step `Restore`; platform mode, splash and console are left out. Outcomes of calls are parameters.
- CommitProgram.Machine.Resume: whether the kernel restores the system is a parameter; the question to the user is one answer for both places that ask it.
- Key generation, RSA and pass phrases; `getmem` calls for them are part of the budget of resume.
- MemPool.RunKeeps: sizes are positive; `size_t` is unbounded except for the 32-bit mask of small blocks, which is modelled and harmless for pools up to 4 GB less a page.
- MemPool.Allocator.FreeSlotAt: the bound of the array comes before the read of the size; the program reads first, with the same result.
- MemPool.Allocator.constructor: a failing `malloc` is left out.
- PoolBudget.SuspendBudgetSuffices: page sizes from 128 bytes (fewer slots would not do) to 4 MB, and work memory of LZO up to 1 MB.
- RealMode.AllocKeeps: sizes are positive; mapping the memory and the interrupt stack are left out.
- Drivers, user interface, s2ram quirks, DMI tables, option parsing, timing and progress messages.
