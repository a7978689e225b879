/** The swap device as the image code sees it: a kernel that hands out swap
    pages, and pages that can be read and written at a given offset. */
module SwapSpace {
  import opened Extents
  import opened LittleEndian

  /** The image header page (struct image_header_info), as far as loading uses it. */
  datatype ImageHeader = ImageHeader(
    pages: nat,
    checked: bool,
    compressed: bool,
    encrypted: bool,
    mapStart: nat,
    imageDataSize: int,
    checksum: Bytes
  )

  /** The contents of one swap page. */
  datatype Page = Blank | Data(bytes: Bytes) | Table(slots: seq<Extent>) | Header(header: ImageHeader)

  type Disk = map<nat, Page>

  function ReadPage(disk: Disk, offset: nat): Page {
    if offset in disk then disk[offset] else Blank
  }

  class Device {
    /** The answers of the kernel to the coming requests for a swap page; 0, or
        no answer at all, stands for a failing ioctl. */
    var kernel: seq<nat>
    var disk: Disk

    constructor (kernel: seq<nat>, disk: Disk)
      ensures this.kernel == kernel && this.disk == disk
    {
      this.kernel := kernel;
      this.disk := disk;
    }

    /** get_swap_page: the offset of a fresh swap page, or 0. */
    method GetSwapPage() returns (offset: nat)
      modifies this`kernel
      ensures offset == if old(kernel) == [] then 0 else old(kernel)[0]
      ensures kernel == if old(kernel) == [] then [] else old(kernel)[1..]
    {
      if kernel == [] {
        offset := 0;
      } else {
        offset := kernel[0];
        kernel := kernel[1..];
      }
    }

    /** write_page: refuses offset 0. */
    method WritePage(page: Page, offset: nat) returns (ok: bool)
      modifies this`disk
      ensures ok <==> offset != 0
      ensures disk == if ok then old(disk)[offset := page] else old(disk)
    {
      ok := offset != 0;
      if ok {
        disk := disk[offset := page];
      }
    }
  }
}
