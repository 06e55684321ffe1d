/** tarfs: file contents read from the device page by page into a folio. */
module Tarfs {

  import opened Wrappers
  import opened Words
  import opened LittleEndian
  import opened Mapper
  import opened Folio

  /** A device that the kernel can address. */
  predicate Addressable(d: Device) {
    |d.image| < I64_LIMIT
  }

  // ---- read_folio --------------------------------------------------------

  /** The bytes of the file that fall into a folio of `size` bytes at `pos`. */
  function ToRead(fileSize: nat, pos: nat, size: nat): nat {
    if pos >= fileSize then 0 else if size < fileSize - pos then size else fileSize - pos
  }

  /** Where they start on the disk, in wrapping arithmetic. */
  function DiskOffset(inodeOffset: nat, pos: nat): nat {
    (inodeOffset + pos) % U64_SIZE
  }

  /** `s` holds the `n` bytes of the disk from `start` on, followed by zeros. */
  ghost predicate Holds(d: Device, start: nat, n: nat, s: seq<Byte>) {
    && n <= |s| && (n > 0 ==> start + n <= |d.image|)
    && forall i :: 0 <= i < |s| ==> s[i] == if i < n then d.image[start + i] else 0
  }

  lemma HoldsMore(d: Device, start: nat, n: nat, s: seq<Byte>, end: nat)
    requires Holds(d, start, n, s) && start + n < end <= |d.image| && end - start <= |s|
    ensures Holds(d, start, end - start, Overwritten(s, n, d.image[start + n..end]))
  {
  }

  /** Up to the end of a file of `size` bytes, `s` holds the disk's bytes from `start` on, and zeros behind it;
      it begins at position `pos` of the file. */
  ghost predicate IsFilePart(d: Device, start: nat, size: nat, pos: nat, s: seq<Byte>) {
    forall i :: 0 <= i < |s| ==>
      if pos + i < size then start + i < |d.image| && s[i] == d.image[start + i] else s[i] == 0
  }

  lemma AllRead(d: Device, start: nat, size: nat, pos: nat, s: seq<Byte>)
    requires Holds(d, start, ToRead(size, pos, |s|), s)
    ensures IsFilePart(d, start, size, pos, s)
  {
  }

  /** Bytes copied from the wrapped offset are those of the offset itself if and only if it does not wrap. */
  lemma OwnBytesIff(d: Device, inodeOffset: nat, pos: nat, n: nat, s: seq<Byte>)
    requires Addressable(d) && inodeOffset < U64_SIZE && pos < I64_LIMIT
    requires Holds(d, DiskOffset(inodeOffset, pos), n, s)
    ensures Holds(d, inodeOffset + pos, n, s) <==> n == 0 || inodeOffset + pos < U64_SIZE
  {
  }

  /** `read_folio`: the folio is left with the first `copied` of the bytes the file has at the folio's
      position, followed by zeros; on success these are all of them. It succeeds exactly when every
      device page they touch can be read. The folio holds the file's own bytes, those from its disk offset
      plus the position on, if and only if none were copied or that sum does not wrap around. */
  method ReadFolio(d: Device, inodeOffset: nat, inodeSize: int, folio: LockedFolio)
    returns (r: Result<(), Error>, ghost copied: nat)
    requires Addressable(d) && inodeOffset < U64_SIZE && -I64_LIMIT <= inodeSize < I64_LIMIT
    requires folio.pos < I64_LIMIT && folio.data.Length < I64_LIMIT
    modifies folio.data
    ensures
      var n := ToRead(AsU64(inodeSize), folio.pos, folio.data.Length);
      var start := DiskOffset(inodeOffset, folio.pos);
      && Holds(d, start, copied, folio.data[..])
      && (r.Ok? <==> copied == n)
      && (r.Ok? <==> RangeReadable(d, AsI64(start), n))
      && (Holds(d, inodeOffset + folio.pos, copied, folio.data[..]) <==>
          copied == 0 || inodeOffset + folio.pos < U64_SIZE)
    ensures
      var size := if inodeSize < 0 then inodeSize + 0x1_0000_0000_0000_0000 else inodeSize;
      var start := (inodeOffset + folio.pos) % 0x1_0000_0000_0000_0000;
      r.Ok? ==> IsFilePart(d, start, size, folio.pos, folio.data[..])
  {
    var folioOffset := folio.pos;
    var folioSize := folio.data.Length;
    var fileSize := AsU64(inodeSize);
    copied := 0;
    r := folio.ZeroOut(0, folioSize);
    var diskOffset := DiskOffset(inodeOffset, folioOffset);
    if folioOffset >= fileSize {
      OwnBytesIff(d, inodeOffset, folioOffset, 0, folio.data[..]);
      AllRead(d, diskOffset, fileSize, folioOffset, folio.data[..]);
      return;
    }
    var toRead := if folioSize < fileSize - folioOffset then folioSize else fileSize - folioOffset;
    r, copied := CopyFromDevice(d, diskOffset, toRead, folio);
    OwnBytesIff(d, inodeOffset, folioOffset, copied, folio.data[..]);
    if r.Ok? {
      AllRead(d, diskOffset, fileSize, folioOffset, folio.data[..]);
    }
  }

  /** The copy loop of `read_folio`, which writes into a zeroed folio: the device's pages split the
      reads, the folio's pages split each write again. */
  method CopyFromDevice(d: Device, diskOffset: nat, toRead: nat, folio: LockedFolio)
    returns (r: Result<(), Error>, ghost copied: nat)
    requires Addressable(d) && diskOffset < U64_SIZE && toRead <= folio.data.Length < I64_LIMIT
    requires Holds(d, diskOffset, 0, folio.data[..])
    modifies folio.data
    ensures Holds(d, diskOffset, copied, folio.data[..])
    ensures r.Ok? <==> copied == toRead
    ensures r.Ok? <==> RangeReadable(d, AsI64(diskOffset), toRead)
  {
    var written := 0;
    var cursor := new PageCursor(d, AsI64(diskOffset), toRead);
    while cursor.remain > 0
      invariant cursor.Valid() && fresh(cursor) && cursor.dev == d && cursor.offset == AsI64(diskOffset)
                && cursor.len == toRead
      invariant written == cursor.Done() && cursor.remain >= 0
      invariant Holds(d, diskOffset, written, folio.data[..])
      decreases cursor.remain
    {
      var page := cursor.Next();
      if page.Err? {
        return Err(page.error), written;
      }
      var copyLen := if |page.value| < toRead - written then |page.value| else toRead - written;
      assert page.value[..copyLen] == d.image[diskOffset + written..cursor.next];
      HoldsMore(d, diskOffset, written, folio.data[..], cursor.next);
      var w := folio.Write(written, page.value[..copyLen]);
      if w.Err? {
        return w, written;
      }
      written := written + copyLen;
    }
    return Ok(()), written;
  }

  /** A file of two pages at the end of the 64-bit range: its second page is beyond every device, and reading
      it succeeds with the device's first page. */
  method WrappedFileReadsTheStart(d: Device, folio: LockedFolio) returns (r: Result<(), Error>)
    requires Addressable(d) && Readable(d, 0) && folio.pos == PAGE_SIZE == folio.data.Length
    modifies folio.data
    ensures r.Ok? && folio.data[..] == d.image[..PAGE_SIZE]
  {
    ghost var copied;
    r, copied := ReadFolio(d, U64_SIZE - PAGE_SIZE, 2 * PAGE_SIZE, folio);
    assert DiskOffset(U64_SIZE - PAGE_SIZE, PAGE_SIZE) == 0;
    assert ToRead(2 * PAGE_SIZE, PAGE_SIZE, PAGE_SIZE) == PAGE_SIZE;
    assert RangeReadable(d, 0, PAGE_SIZE);
  }
}
