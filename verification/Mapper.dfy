/** Reading a block device through its page cache: one mapped page at a time, and byte ranges split at
    page boundaries. */
module Mapper {

  import opened Wrappers
  import opened LittleEndian

  const PAGE_SIZE: nat := 4096

  datatype Error = EINVAL | EIO | ENAMETOOLONG | ENOENT | ERANGE

  /** The device as its page cache shows it: whole pages, the last one padded, and the pages whose read
      fails. */
  datatype Device = Device(image: seq<Byte>, bad: set<nat>)

  predicate Readable(d: Device, page: nat) {
    page !in d.bad && (page + 1) * PAGE_SIZE <= |d.image|
  }

  /** Every page that holds a byte of `[offset, offset + len)` can be read. */
  predicate RangeReadable(d: Device, offset: int, len: int) {
    len > 0 ==>
      && 0 <= offset
      && forall page: nat :: offset / PAGE_SIZE <= page <= (offset + len - 1) / PAGE_SIZE ==> Readable(d, page)
  }

  /** `Mapper::mapped_folio`: the bytes from `offset` to the end of its page. */
  function MappedFolio(d: Device, offset: int): (r: Result<seq<Byte>, Error>)
    ensures r.Ok? <==> 0 <= offset && Readable(d, offset / PAGE_SIZE)
    ensures r.Ok? ==> 0 < |r.value| <= PAGE_SIZE && (offset + |r.value|) % PAGE_SIZE == 0
    ensures r.Ok? ==> offset + |r.value| <= |d.image| && r.value == d.image[offset..offset + |r.value|]
  {
    if offset < 0 then Err(EINVAL) else
    var page, within := offset / PAGE_SIZE, offset % PAGE_SIZE;
    if !Readable(d, page) then Err(EIO) else
    Ok(d.image[page * PAGE_SIZE..(page + 1) * PAGE_SIZE][within..])
  }

  /** The loop state of `Mapper::for_each_page` over `[offset, offset + len)`. */
  class PageCursor {
    const dev: Device
    const offset: int
    const len: int
    var next: int
    var remain: int

    constructor (d: Device, offset: int, len: int)
      ensures dev == d && this.offset == offset && this.len == len
      ensures Valid() && Done() == 0
    {
      dev, this.offset, this.len, next, remain := d, offset, len, offset, len;
    }

    /** The number of bytes handed out so far. */
    ghost function Done(): int
      reads this
    {
      next - offset
    }

    ghost predicate Valid()
      reads this
    {
      && next + remain == offset + len
      && 0 <= Done() && (len > 0 ==> Done() <= len)
      && (Done() > 0 ==> 0 <= offset && next <= |dev.image| && RangeReadable(dev, offset, Done()))
    }

    /** One iteration: the next stretch of the range that lies within one page. */
    method Next() returns (r: Result<seq<Byte>, Error>)
      requires Valid() && remain > 0
      modifies this
      ensures Valid()
      ensures r.Ok? ==>
                && 0 < |r.value| <= old(remain) && remain == old(remain) - |r.value|
                && 0 <= old(next) && next <= |dev.image|
                && r.value == dev.image[old(next)..next]
                && (remain == 0 || next % PAGE_SIZE == 0)
      ensures r.Err? ==> next == old(next) && remain == old(remain) && !RangeReadable(dev, offset, len)
    {
      r := MappedFolio(dev, next);
      if r.Ok? {
        var avail := if |r.value| < remain then |r.value| else remain;
        r := Ok(r.value[..avail]);
        CoverMore(dev, offset, next, avail);
        next := next + avail;
        remain := remain - avail;
      } else {
        NotCovered(dev, offset, len, next);
      }
    }
  }

  lemma CoverMore(d: Device, offset: int, next: int, avail: int)
    requires 0 <= offset <= next && avail > 0 && Readable(d, next / PAGE_SIZE)
    requires next % PAGE_SIZE + avail <= PAGE_SIZE
    requires RangeReadable(d, offset, next - offset)
    ensures RangeReadable(d, offset, next + avail - offset)
  {
    assert (next + avail - 1) / PAGE_SIZE == next / PAGE_SIZE;
  }

  lemma NotCovered(d: Device, offset: int, len: int, next: int)
    requires offset <= next < offset + len
    requires next < 0 || !Readable(d, next / PAGE_SIZE)
    ensures !RangeReadable(d, offset, len)
  {
    if 0 <= offset {
      var page := next / PAGE_SIZE;
      assert offset / PAGE_SIZE <= page <= (offset + len - 1) / PAGE_SIZE;
    }
  }
}
