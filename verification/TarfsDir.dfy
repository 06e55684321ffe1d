/** tarfs directories: names and directory entries read from the device page by page, and listings that
    resume where the user's buffer ran full. */
module TarfsDir {

  import opened Wrappers
  import opened Words
  import opened Bits
  import opened LittleEndian
  import opened Mapper
  import opened Tarfs

  const DIR_ENTRY_SIZE: nat := 32
  const NAME_BUFFER: nat := 256

  /** The bytes of `name` are on the disk at `offset`. */
  ghost predicate NameAt(d: Device, offset: nat, name: seq<Byte>) {
    offset + |name| <= |d.image| && forall i :: 0 <= i < |name| ==> d.image[offset + i] == name[i]
  }

  /** `name_eq`: compares a name with the disk, page by page, and stops at the first page that differs.
      The answer is right whenever there is one, and there is one when the pages can be read. */
  method NameEq(d: Device, name: seq<Byte>, offset: nat) returns (r: Result<bool, Error>)
    requires Addressable(d) && offset < U64_SIZE && |name| < I64_LIMIT
    ensures r.Ok? && name != [] ==> (r.value <==> NameAt(d, offset, name))
    ensures name == [] ==> r == Ok(true)
    ensures RangeReadable(d, AsI64(offset), |name|) ==> r.Ok?
  {
    var remaining := name;
    var cursor := new PageCursor(d, AsI64(offset), |name|);
    while cursor.remain > 0
      invariant cursor.Valid() && fresh(cursor) && cursor.dev == d && cursor.offset == AsI64(offset)
                && cursor.len == |name|
      invariant cursor.remain == |remaining| && remaining == name[cursor.Done()..]
      invariant cursor.Done() > 0 ==> NameAt(d, offset, name[..cursor.Done()])
      decreases cursor.remain
    {
      ghost var done := cursor.Done();
      var page := cursor.Next();
      if page.Err? {
        return Err(page.error);
      }
      var len := if |page.value| < |remaining| then |page.value| else |remaining|;
      PieceDecides(d, offset, name, done, page.value[..len]);
      if page.value[..len] != remaining[..len] {
        return Ok(false);
      }
      remaining := remaining[len..];
    }
    assert name[..cursor.Done()] == name;
    return Ok(true);
  }

  lemma PieceDecides(d: Device, offset: nat, name: seq<Byte>, done: nat, piece: seq<Byte>)
    requires done + |piece| <= |name| && NameAt(d, offset + done, piece)
    requires done > 0 ==> NameAt(d, offset, name[..done])
    ensures piece == name[done..][..|piece|] ==> NameAt(d, offset, name[..done + |piece|])
    ensures NameAt(d, offset, name) ==> piece == name[done..][..|piece|]
  {
    var here := name[done..][..|piece|];
    assert forall i :: 0 <= i < |piece| ==> here[i] == name[done + i] && piece[i] == d.image[offset + done + i];
    if piece == here {
      var all := name[..done + |piece|];
      forall i | 0 <= i < |all| ensures d.image[offset + i] == all[i] {
        if i < done {
          assert d.image[offset + i] == name[..done][i];
        } else {
          assert piece[i - done] == here[i - done];
        }
      }
    }
    if NameAt(d, offset, name) {
      forall i | 0 <= i < |piece| ensures piece[i] == here[i] {
        assert d.image[offset + (done + i)] == name[done + i];
      }
    }
  }

  lemma NameMore(d: Device, offset: nat, a: seq<Byte>, b: seq<Byte>)
    requires a != [] ==> NameAt(d, offset, a)
    requires NameAt(d, offset + |a|, b)
    ensures NameAt(d, offset, a + b)
  {
    var ab := a + b;
    forall i | 0 <= i < |ab| ensures d.image[offset + i] == ab[i] {
      if i < |a| {
        assert ab[i] == a[i];
      } else {
        assert ab[i] == b[i - |a|] && offset + i == offset + |a| + (i - |a|);
      }
    }
  }

  /** `copy_from_slice` into part of a buffer. */
  method CopyInto(buffer: array<Byte>, at: nat, piece: seq<Byte>)
    requires at + |piece| <= buffer.Length
    modifies buffer
    ensures buffer[..at + |piece|] == old(buffer[..at]) + piece
  {
    forall i | 0 <= i < |piece| {
      buffer[at + i] := piece[i];
    }
  }

  /** The name read of `read_dir`, into a buffer of 256 bytes. */
  method ReadName(d: Device, offset: nat, len: nat) returns (r: Result<seq<Byte>, Error>)
    requires Addressable(d) && offset < U64_SIZE && len < U64_SIZE
    ensures r.Ok? <==> len <= NAME_BUFFER && RangeReadable(d, AsI64(offset), len)
    ensures r.Ok? ==> |r.value| == len && (len > 0 ==> NameAt(d, offset, r.value))
  {
    if len > NAME_BUFFER {
      return Err(ENAMETOOLONG);
    }
    var buffer := new Byte[NAME_BUFFER](i => 0);
    var nameOff := 0;
    var cursor := new PageCursor(d, AsI64(offset), len);
    while cursor.remain > 0
      invariant cursor.Valid() && fresh(cursor) && cursor.dev == d && cursor.offset == AsI64(offset)
                && cursor.len == len
      invariant fresh(buffer) && nameOff == cursor.Done() && cursor.remain >= 0
      invariant nameOff > 0 ==> NameAt(d, offset, buffer[..nameOff])
      decreases cursor.remain
    {
      var page := cursor.Next();
      if page.Err? {
        return Err(page.error);
      }
      var copyLen := if |page.value| < len - nameOff then |page.value| else len - nameOff;
      NameMore(d, offset, buffer[..nameOff], page.value[..copyLen]);
      CopyInto(buffer, nameOff, page.value[..copyLen]);
      nameOff := nameOff + copyLen;
    }
    return Ok(buffer[..len]);
  }

  // ---- read_dir ----------------------------------------------------------

  datatype RawEntry = RawEntry(ino: nat, nameOffset: nat, nameLen: nat, etype: nat)

  /** The on-disk directory entry in 32 bytes. */
  function EntryOf(bytes: seq<Byte>): (e: RawEntry)
    requires |bytes| == DIR_ENTRY_SIZE
    ensures e.ino < U64_SIZE && e.nameOffset < U64_SIZE && e.nameLen < U64_SIZE
  {
    assert Pow256(8) == U64_SIZE by { assert Pow256(4) == 0x1_0000_0000; }
    DecodeBelow(bytes[0..8]);
    DecodeBelow(bytes[8..16]);
    DecodeBelow(bytes[16..24]);
    RawEntry(Decode(bytes[0..8]), Decode(bytes[8..16]), Decode(bytes[16..24]), bytes[24])
  }

  datatype EntryType = Unknown | Fifo | Chr | Dir | Blk | Reg | Lnk | Sock

  function TypeOf(etype: nat): EntryType {
    match etype
    case 4 => Dir
    case 8 => Reg
    case 10 => Lnk
    case 2 => Chr
    case 6 => Blk
    case 1 => Fifo
    case 12 => Sock
    case _ => Unknown
  }

  /** An entry as the user sees it. */
  datatype Dirent = Dirent(name: seq<Byte>, ino: nat, kind: EntryType)

  /** The 32-byte record at `at`; a blank one beyond the device. */
  ghost function RecordAt(d: Device, at: nat): RawEntry {
    if at + DIR_ENTRY_SIZE <= |d.image| then EntryOf(d.image[at..at + DIR_ENTRY_SIZE]) else RawEntry(0, 0, 0, 0)
  }

  /** What the entry recorded at `at` looks like, with its name bytes from the disk. */
  ghost function DirentAt(d: Device, at: nat): Dirent {
    var e := RecordAt(d, at);
    var name := if e.nameOffset + e.nameLen <= |d.image| then d.image[e.nameOffset..e.nameOffset + e.nameLen] else [];
    Dirent(name, e.ino, TypeOf(e.etype))
  }

  /** The record at `at` is on the device, and its name fits the buffer and can be read. */
  ghost predicate EntryReadable(d: Device, at: nat) {
    && at + DIR_ENTRY_SIZE <= |d.image|
    && RecordAt(d, at).nameLen <= NAME_BUFFER
    && RangeReadable(d, AsI64(RecordAt(d, at).nameOffset), RecordAt(d, at).nameLen)
  }

  /** The byte position of entry number `i` of a table. */
  function Slot(table: nat, i: nat): nat {
    table + DIR_ENTRY_SIZE * i
  }

  /** The positions of the `k` entries of a table from number `from` on, in table order. */
  ghost function Slots(table: nat, from: nat, k: nat): (out: seq<nat>)
    ensures |out| == k && forall i :: 0 <= i < k ==> out[i] == Slot(table, from + i)
  {
    if k == 0 then [] else Slots(table, from, k - 1) + [Slot(table, from + k - 1)]
  }

  lemma SlotsJoin(table: nat, from: nat, a: nat, b: nat)
    ensures Slots(table, from, a) + Slots(Slot(table, from + a), 0, b) == Slots(table, from, a + b)
  {
    var l, r := Slots(table, from, a), Slots(Slot(table, from + a), 0, b);
    forall i | 0 <= i < a + b ensures (l + r)[i] == Slot(table, from + i) {
      if i >= a {
        assert (l + r)[i] == r[i - a];
      }
    }
  }

  /** The entries shown are the ones recorded at these positions, which can be read. */
  ghost predicate ReadFrom(d: Device, shown: seq<Dirent>, at: seq<nat>) {
    |shown| == |at| && forall i {:trigger Shown(d, shown[i], at[i])} :: 0 <= i < |at| ==> Shown(d, shown[i], at[i])
  }

  ghost predicate Shown(d: Device, entry: Dirent, at: nat) {
    entry == DirentAt(d, at) && EntryReadable(d, at)
  }

  /** The 32 bytes at `o` record this entry: the inode number in bytes 0 to 7, the name's offset on the disk in
      bytes 8 to 15 and its length in bytes 16 to 23, and the type in byte 24. */
  predicate Records(image: seq<Byte>, o: nat, entry: Dirent) {
    && o + 32 <= |image| && entry.ino == Decode(image[o..o + 8])
    && |entry.name| == Decode(image[o + 16..o + 24]) <= 256
    && (entry.name != [] ==> IsAt(image, Decode(image[o + 8..o + 16]), entry.name))
    && entry.kind == TypeOf(image[o + 24])
  }

  predicate IsAt(image: seq<Byte>, n: nat, part: seq<Byte>) {
    n + |part| <= |image| && part == image[n..n + |part|]
  }

  lemma DirentMeans(d: Device, o: nat)
    requires Addressable(d) && EntryReadable(d, o)
    ensures o + 32 <= |d.image| && DirentAt(d, o).ino == Decode(d.image[o..o + 8])
    ensures
      var name, n, len := DirentAt(d, o).name, Decode(d.image[o + 8..o + 16]), Decode(d.image[o + 16..o + 24]);
      |name| == len <= 256 && (len > 0 ==> n + len <= |d.image| && name == d.image[n..n + len])
    ensures DirentAt(d, o).kind == TypeOf(d.image[o + 24])
  {
    var record := d.image[o..o + 32];
    assert record[0..8] == d.image[o..o + 8];
    assert record[8..16] == d.image[o + 8..o + 16];
    assert record[16..24] == d.image[o + 16..o + 24];
    var e := EntryOf(record);
    if e.nameLen > 0 {
      NameInside(d, e.nameOffset, e.nameLen);
    }
  }

  /** An entry can be shown if and only if its record is on the device, its name has at most 256 bytes and every
      page that holds one of them can be read. */
  lemma ReadableMeans(d: Device, o: nat)
    requires o + 32 <= |d.image|
    ensures
      var n, len := Decode(d.image[o + 8..o + 16]), Decode(d.image[o + 16..o + 24]);
      EntryReadable(d, o) <==> len <= 256 && RangeReadable(d, AsI64(n), len)
  {
    var record := d.image[o..o + 32];
    assert record[8..16] == d.image[o + 8..o + 16];
    assert record[16..24] == d.image[o + 16..o + 24];
  }

  lemma NameInside(d: Device, n: nat, len: nat)
    requires Addressable(d) && n < U64_SIZE && len > 0 && RangeReadable(d, AsI64(n), len)
    ensures n + len <= |d.image|
  {
    var last := (n + len - 1) / PAGE_SIZE;
    assert n / PAGE_SIZE <= last && Readable(d, last);
  }

  /** The kinds, by the type byte. */
  lemma KindByByte(b: Byte)
    ensures TypeOf(b) == Fifo <==> b == 1
    ensures TypeOf(b) == Chr <==> b == 2
    ensures TypeOf(b) == Dir <==> b == 4
    ensures TypeOf(b) == Blk <==> b == 6
    ensures TypeOf(b) == Reg <==> b == 8
    ensures TypeOf(b) == Lnk <==> b == 10
    ensures TypeOf(b) == Sock <==> b == 12
  {
  }

  /** `DirEmitter`: the user's buffer has room for `room` more entries in this call. `origin` records, for
      the proofs, where on the device each entry comes from. */
  class DirEmitter {
    var pos: int
    var room: nat
    var emitted: seq<Dirent>
    ghost var origin: seq<nat>

    constructor (pos: int, room: nat)
      ensures this.pos == pos && this.room == room && emitted == [] && origin == []
    {
      this.pos, this.room, emitted, origin := pos, room, [], [];
    }

    method Emit(posInc: int, entry: Dirent) returns (ok: bool)
      modifies this`pos, this`room, this`emitted
      ensures ok <==> old(room) > 0
      ensures ok ==> pos == old(pos) + posInc && room == old(room) - 1 && emitted == old(emitted) + [entry]
      ensures !ok ==> pos == old(pos) && room == old(room) && emitted == old(emitted)
    {
      ok := room > 0;
      if ok {
        pos, room, emitted := pos + posInc, room - 1, emitted + [entry];
      }
    }
  }

  /** One entry of `read_dir`'s inner loop: decode the record, read the name, emit. */
  method EmitEntry(d: Device, ghost at: nat, record: seq<Byte>, emitter: DirEmitter) returns (r: Result<bool, Error>)
    requires Addressable(d) && at + DIR_ENTRY_SIZE <= |d.image| && record == d.image[at..at + DIR_ENTRY_SIZE]
    requires ReadFrom(d, emitter.emitted, emitter.origin)
    modifies emitter
    ensures ReadFrom(d, emitter.emitted, emitter.origin)
    ensures r.Ok? <==> EntryReadable(d, at)
    ensures r.Ok? ==> (r.value <==> old(emitter.room) > 0)
    ensures r == Ok(true) ==> emitter.origin == old(emitter.origin) + [at]
                              && emitter.pos == old(emitter.pos) + DIR_ENTRY_SIZE
                              && emitter.room == old(emitter.room) - 1
    ensures r != Ok(true) ==> emitter.origin == old(emitter.origin) && emitter.pos == old(emitter.pos)
                              && emitter.room == old(emitter.room)
  {
    var e := EntryOf(record);
    var name := ReadName(d, e.nameOffset, e.nameLen);
    if name.Err? {
      return Err(name.error);
    }
    NameIsSlice(d, e, name.value);
    var entry := Dirent(name.value, e.ino, TypeOf(e.etype));
    OneMoreRead(d, emitter.emitted, emitter.origin, entry, at);
    var ok := emitter.Emit(DIR_ENTRY_SIZE, entry);
    if ok {
      emitter.origin := emitter.origin + [at];
    }
    return Ok(ok);
  }

  lemma OneMoreRead(d: Device, shown: seq<Dirent>, origin: seq<nat>, entry: Dirent, at: nat)
    requires ReadFrom(d, shown, origin) && entry == DirentAt(d, at) && EntryReadable(d, at)
    ensures ReadFrom(d, shown + [entry], origin + [at])
  {
    var shown', origin' := shown + [entry], origin + [at];
    forall i | 0 <= i < |origin'| ensures Shown(d, shown'[i], origin'[i]) {
      if i < |origin| {
        assert Shown(d, shown[i], origin[i]);
      }
    }
  }

  lemma NameIsSlice(d: Device, e: RawEntry, name: seq<Byte>)
    requires |name| == e.nameLen && (e.nameLen > 0 ==> NameAt(d, e.nameOffset, name))
    ensures name == if e.nameOffset + e.nameLen <= |d.image|
                    then d.image[e.nameOffset..e.nameOffset + e.nameLen] else []
  {
  }

  /** Entry number `i` of a stretch of the table is the record at its slot. */
  lemma RecordInPage(d: Device, at: nat, page: seq<Byte>, i: nat)
    requires at + |page| <= |d.image| && page == d.image[at..at + |page|]
             && DIR_ENTRY_SIZE * i + DIR_ENTRY_SIZE <= |page|
    ensures Slot(at, i) + DIR_ENTRY_SIZE <= |d.image|
    ensures page[DIR_ENTRY_SIZE * i..DIR_ENTRY_SIZE * i + DIR_ENTRY_SIZE]
         == d.image[Slot(at, i)..Slot(at, i) + DIR_ENTRY_SIZE]
  {
    var a := page[DIR_ENTRY_SIZE * i..DIR_ENTRY_SIZE * i + DIR_ENTRY_SIZE];
    forall j | 0 <= j < DIR_ENTRY_SIZE ensures a[j] == d.image[Slot(at, i) + j] {
      assert a[j] == page[DIR_ENTRY_SIZE * i + j];
    }
  }

  /** Entry number `i` of a stretch of the table. */
  method EmitNumber(d: Device, ghost at: nat, page: seq<Byte>, i: nat, emitter: DirEmitter)
    returns (r: Result<bool, Error>)
    requires Addressable(d) && at + |page| <= |d.image| && page == d.image[at..at + |page|]
    requires DIR_ENTRY_SIZE * i + DIR_ENTRY_SIZE <= |page| && ReadFrom(d, emitter.emitted, emitter.origin)
    modifies emitter
    ensures ReadFrom(d, emitter.emitted, emitter.origin)
    ensures r.Ok? <==> EntryReadable(d, Slot(at, i))
    ensures r.Ok? ==> (r.value <==> old(emitter.room) > 0)
    ensures emitter.origin == old(emitter.origin) + if r == Ok(true) then [Slot(at, i)] else []
    ensures emitter.pos == old(emitter.pos) + if r == Ok(true) then DIR_ENTRY_SIZE else 0
    ensures emitter.room == old(emitter.room) - if r == Ok(true) then 1 else 0
  {
    RecordInPage(d, at, page, i);
    r := EmitEntry(d, Slot(at, i), page[DIR_ENTRY_SIZE * i..DIR_ENTRY_SIZE * i + DIR_ENTRY_SIZE], emitter);
  }

  /** The callback of `read_dir` on one stretch of the table, which starts at byte `at` of the device. */
  method EmitPage(d: Device, at: nat, page: seq<Byte>, emitter: DirEmitter)
    returns (r: Result<bool, Error>, ghost k: nat)
    requires Addressable(d) && at + |page| <= |d.image| && page == d.image[at..at + |page|]
    requires ReadFrom(d, emitter.emitted, emitter.origin)
    modifies emitter
    ensures ReadFrom(d, emitter.emitted, emitter.origin)
    ensures k <= old(emitter.room) && DIR_ENTRY_SIZE * k <= |page|
    ensures emitter.origin == old(emitter.origin) + Slots(at, 0, k)
    ensures emitter.pos == old(emitter.pos) + DIR_ENTRY_SIZE * k && emitter.room == old(emitter.room) - k
    ensures r == Ok(true) ==> DIR_ENTRY_SIZE * k == |page|
    ensures r == Ok(false) ==> emitter.room == 0
    ensures r.Err? ==> |page| % DIR_ENTRY_SIZE != 0 || at % 8 != 0
                       || (DIR_ENTRY_SIZE * k < |page| && !EntryReadable(d, Slot(at, k)))
  {
    k := 0;
    var count := SliceCount(|page|, at % PAGE_SIZE, DIR_ENTRY_SIZE, 8);
    if count.None? {
      return Err(EIO), k;
    }
    var i := 0;
    while i < count.value
      invariant 0 <= i <= count.value && i <= old(emitter.room) && ReadFrom(d, emitter.emitted, emitter.origin)
      invariant emitter.origin == old(emitter.origin) + Slots(at, 0, i)
      invariant emitter.pos == old(emitter.pos) + DIR_ENTRY_SIZE * i && emitter.room == old(emitter.room) - i
    {
      r := EmitNumber(d, at, page, i, emitter);
      if r != Ok(true) {
        return r, i;
      }
      i := i + 1;
    }
    return Ok(true), i;
  }

  /** A table aligned to whole entries, whose bytes and names can all be read and whose names fit. */
  ghost predicate WholeTable(d: Device, table: nat, from: nat, bytes: nat) {
    && table % DIR_ENTRY_SIZE == 0 && bytes % DIR_ENTRY_SIZE == 0
    && RangeReadable(d, Slot(table, from), bytes)
    && forall j :: from <= j < from + bytes / DIR_ENTRY_SIZE ==> EntryReadable(d, Slot(table, j))
  }

  lemma Multiples(m: nat)
    ensures DIR_ENTRY_SIZE * m % DIR_ENTRY_SIZE == 0 && DIR_ENTRY_SIZE * m % 8 == 0
  {
    DivMod(DIR_ENTRY_SIZE * m, DIR_ENTRY_SIZE, m, 0);
    DivMod(DIR_ENTRY_SIZE * m, 8, 4 * m, 0);
  }

  /** In a whole table, every stretch between page boundaries holds whole, aligned entries. */
  lemma StretchIsWhole(table: nat, from: nat, bytes: nat, i: nat, next: nat)
    requires table % DIR_ENTRY_SIZE == 0 && bytes % DIR_ENTRY_SIZE == 0
    requires Slot(table, i) < next
    requires next % PAGE_SIZE == 0 || next == Slot(table, from) + bytes
    ensures Slot(table, i) % 8 == 0 && (next - Slot(table, i)) % DIR_ENTRY_SIZE == 0
  {
    var q := table / DIR_ENTRY_SIZE;
    assert Slot(table, i) == DIR_ENTRY_SIZE * (q + i);
    Multiples(q + i);
    var m := if next % PAGE_SIZE == 0 then 128 * (next / PAGE_SIZE) else q + from + bytes / DIR_ENTRY_SIZE;
    assert next == DIR_ENTRY_SIZE * m;
    Multiples(m - (q + i));
  }

  /** Nothing in a whole table makes the callback fail on it. */
  lemma StretchIsReadable(d: Device, table: nat, from: nat, bytes: nat, i: nat, k: nat, len: nat)
    requires WholeTable(d, table, from, bytes) && from <= i
    requires DIR_ENTRY_SIZE * k < len && Slot(table, i) + len <= Slot(table, from) + bytes
    ensures EntryReadable(d, Slot(Slot(table, i), k))
  {
    assert Slot(Slot(table, i), k) == Slot(table, i + k);
    assert i + k < from + bytes / DIR_ENTRY_SIZE;
  }

  /** One iteration of `read_dir`'s page loop. */
  method EmitStretch(cursor: PageCursor, ghost table: nat, ghost from: nat, ghost i: nat, emitter: DirEmitter)
    returns (r: Result<bool, Error>, ghost k: nat)
    requires cursor.Valid() && cursor.remain > 0 && Addressable(cursor.dev)
    requires cursor.offset == Slot(table, from) && cursor.next == Slot(table, i) && from <= i
    requires ReadFrom(cursor.dev, emitter.emitted, emitter.origin)
    modifies cursor, emitter
    ensures ReadFrom(cursor.dev, emitter.emitted, emitter.origin)
    ensures cursor.Valid() && cursor.next >= old(cursor.next)
    ensures k <= old(emitter.room) && Slot(table, i + k) <= cursor.offset + cursor.len
    ensures emitter.origin == old(emitter.origin) + Slots(Slot(table, i), 0, k)
    ensures emitter.pos == old(emitter.pos) + DIR_ENTRY_SIZE * k && emitter.room == old(emitter.room) - k
    ensures r == Ok(true) ==> cursor.next == Slot(table, i + k) && 0 <= cursor.remain < old(cursor.remain)
    ensures r == Ok(false) ==> emitter.room == 0
    ensures WholeTable(cursor.dev, table, from, cursor.len) ==> r.Ok?
  {
    k := 0;
    var at := cursor.next;
    var page := cursor.Next();
    if page.Err? {
      return Err(page.error), k;
    }
    r, k := EmitPage(cursor.dev, at, page.value, emitter);
    if r.Err? && WholeTable(cursor.dev, table, from, cursor.len) {
      StretchIsWhole(table, from, cursor.len, i, cursor.next);
      StretchIsReadable(cursor.dev, table, from, cursor.len, i, k, |page.value|);
      assert false;
    }
  }

  /** The loop of `read_dir`: shows entries from number `from` on until the table ends, the user's
      buffer is full, or something cannot be read. */
  method EmitTable(d: Device, table: nat, from: nat, bytes: nat, emitter: DirEmitter)
    returns (r: Result<(), Error>, ghost k: nat)
    requires Addressable(d) && ReadFrom(d, emitter.emitted, emitter.origin)
    modifies emitter
    ensures ReadFrom(d, emitter.emitted, emitter.origin)
    ensures k <= old(emitter.room) && DIR_ENTRY_SIZE * k <= bytes
    ensures emitter.origin == old(emitter.origin) + Slots(table, from, k)
    ensures emitter.pos == old(emitter.pos) + DIR_ENTRY_SIZE * k && emitter.room == old(emitter.room) - k
    ensures r.Ok? ==> DIR_ENTRY_SIZE * k == bytes || emitter.room == 0
    ensures WholeTable(d, table, from, bytes) ==> r.Ok?
  {
    k := 0;
    var cursor := new PageCursor(d, Slot(table, from), bytes);
    while cursor.remain > 0
      invariant cursor.Valid() && fresh(cursor) && cursor.dev == d && cursor.len == bytes
      invariant cursor.offset == Slot(table, from) && cursor.remain >= 0 && cursor.next == Slot(table, from + k)
      invariant k <= old(emitter.room) && ReadFrom(d, emitter.emitted, emitter.origin)
      invariant emitter.origin == old(emitter.origin) + Slots(table, from, k)
      invariant emitter.pos == old(emitter.pos) + DIR_ENTRY_SIZE * k && emitter.room == old(emitter.room) - k
      decreases cursor.remain
    {
      var go, more := EmitStretch(cursor, table, from, from + k, emitter);
      SlotsJoin(table, from, k, more);
      k := k + more;
      if go.Err? {
        return Err(go.error), k;
      }
      if !go.value {
        return Ok(()), k;
      }
    }
    return Ok(()), k;
  }

  /** The rest of a whole table is a whole table. */
  lemma RestIsWhole(d: Device, table: nat, from: nat, bytes: nat)
    requires WholeTable(d, table, 0, bytes) && DIR_ENTRY_SIZE * from < bytes
    ensures WholeTable(d, table, from, bytes - DIR_ENTRY_SIZE * from)
  {
    var rest := bytes - DIR_ENTRY_SIZE * from;
    assert bytes / DIR_ENTRY_SIZE == from + rest / DIR_ENTRY_SIZE;
    assert Slot(table, from) + rest == Slot(table, 0) + bytes;
  }

  /** The entries of a table of `size` bytes from number `from` on. */
  method EmitRest(d: Device, table: nat, size: nat, from: nat, emitter: DirEmitter)
    returns (r: Result<(), Error>, ghost k: nat)
    requires Addressable(d) && DIR_ENTRY_SIZE * from < size && ReadFrom(d, emitter.emitted, emitter.origin)
    modifies emitter
    ensures ReadFrom(d, emitter.emitted, emitter.origin)
    ensures k <= old(emitter.room) && DIR_ENTRY_SIZE * (from + k) <= size
    ensures emitter.origin == old(emitter.origin) + Slots(table, from, k)
    ensures emitter.pos == old(emitter.pos) + DIR_ENTRY_SIZE * k && emitter.room == old(emitter.room) - k
    ensures r.Ok? ==> DIR_ENTRY_SIZE * (from + k) == size || emitter.room == 0
    ensures WholeTable(d, table, 0, size) ==> r.Ok?
  {
    if WholeTable(d, table, 0, size) {
      RestIsWhole(d, table, from, size);
    }
    r, k := EmitTable(d, table, from, size - DIR_ENTRY_SIZE * from, emitter);
  }

  /** A directory within the data of the device, all of which can be shown. */
  ghost predicate Listable(d: Device, dataSize: nat, offset: nat, size: int) {
    size > 0 ==> offset + size <= dataSize && WholeTable(d, offset, 0, size)
  }

  /** `read_dir`: one call, from the position the previous call left. */
  method ReadDir(d: Device, dataSize: nat, offset: nat, size: int, emitter: DirEmitter)
    returns (r: Result<(), Error>, ghost k: nat)
    requires Addressable(d) && dataSize <= |d.image| && offset < U64_SIZE
             && ReadFrom(d, emitter.emitted, emitter.origin)
    modifies emitter
    ensures ReadFrom(d, emitter.emitted, emitter.origin)
    ensures k <= old(emitter.room)
    ensures emitter.pos == old(emitter.pos) + DIR_ENTRY_SIZE * k && emitter.room == old(emitter.room) - k
    ensures k == 0 ==> emitter.origin == old(emitter.origin)
    ensures k > 0 ==> old(emitter.pos) >= 0 && emitter.pos <= size
                      && emitter.origin == old(emitter.origin) + Slots(offset, old(emitter.pos) / DIR_ENTRY_SIZE, k)
    ensures old(emitter.pos) < 0 || old(emitter.pos) % DIR_ENTRY_SIZE != 0 ==> r == Err(ENOENT) && k == 0
    ensures 0 <= old(emitter.pos) < size && old(emitter.pos) % DIR_ENTRY_SIZE == 0 && offset + size > dataSize ==>
              r == Err(EIO) && k == 0
    ensures r.Ok? && emitter.pos < size ==> emitter.room == 0
    ensures Listable(d, dataSize, offset, size) && old(emitter.pos) >= 0 && old(emitter.pos) % DIR_ENTRY_SIZE == 0 ==>
              r.Ok?
  {
    k := 0;
    var pos := emitter.pos;
    if pos < 0 || pos % DIR_ENTRY_SIZE != 0 {
      return Err(ENOENT), k;
    }
    if pos >= size {
      return Ok(()), k;
    }
    if offset + size > dataSize {
      return Err(EIO), k;
    }
    assert pos == DIR_ENTRY_SIZE * (pos / DIR_ENTRY_SIZE);
    r, k := EmitRest(d, offset, size, pos / DIR_ENTRY_SIZE, emitter);
  }

  function Sum(rooms: seq<nat>): nat {
    if rooms == [] then 0 else Sum(rooms[..|rooms| - 1]) + rooms[|rooms| - 1]
  }

  lemma SlotsGrow(table: nat, a: nat, k: nat)
    ensures Slots(table, 0, a) + Slots(table, a, k) == Slots(table, 0, a + k)
  {
    var l, r := Slots(table, 0, a), Slots(table, a, k);
    forall i | 0 <= i < a + k ensures (l + r)[i] == Slot(table, i) {
      if i >= a {
        assert (l + r)[i] == r[i - a];
      }
    }
  }

  /** One more call, with a buffer of its own; the position stays with the open file. */
  method NextCall(d: Device, dataSize: nat, offset: nat, size: int, emitter: DirEmitter, room: nat)
    returns (r: Result<(), Error>)
    requires Addressable(d) && dataSize <= |d.image| && offset < U64_SIZE
             && ReadFrom(d, emitter.emitted, emitter.origin)
    requires emitter.pos == DIR_ENTRY_SIZE * |emitter.origin| && emitter.origin == Slots(offset, 0, |emitter.origin|)
    modifies emitter
    ensures ReadFrom(d, emitter.emitted, emitter.origin)
    ensures emitter.pos == DIR_ENTRY_SIZE * |emitter.origin| && emitter.origin == Slots(offset, 0, |emitter.origin|)
    ensures |old(emitter.origin)| <= |emitter.origin| <= |old(emitter.origin)| + room
    ensures |emitter.origin| > |old(emitter.origin)| ==> emitter.pos <= size
    ensures r.Ok? ==> |emitter.origin| == |old(emitter.origin)| + room || emitter.pos >= size
    ensures Listable(d, dataSize, offset, size) ==> r.Ok?
  {
    ghost var a := |emitter.origin|;
    DivMod(DIR_ENTRY_SIZE * a, DIR_ENTRY_SIZE, a, 0);
    emitter.room := room;
    ghost var k;
    r, k := ReadDir(d, dataSize, offset, size, emitter);
    SlotsGrow(offset, a, k);
  }

  /** A whole listing over any number of calls with buffers of any sizes: what the calls show, put together,
      is the table in order from its first entry on, each entry once; unless a call fails, nothing is left
      out that there was room for, and on a whole table no call fails. */
  method ListDirectory(d: Device, dataSize: nat, offset: nat, size: int, rooms: seq<nat>)
    returns (r: Result<(), Error>, listing: seq<Dirent>)
    requires Addressable(d) && dataSize <= |d.image| && offset < U64_SIZE
    ensures ReadFrom(d, listing, Slots(offset, 0, |listing|))
    ensures forall i :: 0 <= i < |listing| ==> Records(d.image, offset + 32 * i, listing[i])
    ensures |listing| <= Sum(rooms) && (listing != [] ==> DIR_ENTRY_SIZE * |listing| <= size)
    ensures r.Ok? ==> |listing| == Sum(rooms) || DIR_ENTRY_SIZE * |listing| >= size
    ensures Listable(d, dataSize, offset, size) ==> r.Ok?
  {
    var emitter := new DirEmitter(0, 0);
    r := Ok(());
    var i := 0;
    while i < |rooms| && r.Ok?
      invariant 0 <= i <= |rooms| && fresh(emitter) && ReadFrom(d, emitter.emitted, emitter.origin)
      invariant emitter.pos == DIR_ENTRY_SIZE * |emitter.origin| && emitter.origin == Slots(offset, 0, |emitter.origin|)
      invariant |emitter.origin| <= Sum(rooms[..i]) && (emitter.origin != [] ==> emitter.pos <= size)
      invariant r.Ok? ==> |emitter.origin| == Sum(rooms[..i]) || emitter.pos >= size
      invariant Listable(d, dataSize, offset, size) ==> r.Ok?
    {
      r := NextCall(d, dataSize, offset, size, emitter, rooms[i]);
      assert rooms[..i + 1][..i] == rooms[..i];
      i := i + 1;
    }
    SumPrefix(rooms, i);
    assert i == |rooms| ==> rooms[..i] == rooms;
    listing := emitter.emitted;
    ListingMeans(d, listing, offset);
  }

  lemma ListingMeans(d: Device, listing: seq<Dirent>, offset: nat)
    requires Addressable(d) && ReadFrom(d, listing, Slots(offset, 0, |listing|))
    ensures forall i :: 0 <= i < |listing| ==> Records(d.image, offset + 32 * i, listing[i])
  {
    var slots := Slots(offset, 0, |listing|);
    forall i | 0 <= i < |listing| ensures Records(d.image, offset + 32 * i, listing[i]) {
      assert slots[i] == Slot(offset, i) == offset + 32 * i;
      ShownIsRecorded(d, listing[i], slots[i]);
    }
  }

  lemma ShownIsRecorded(d: Device, entry: Dirent, o: nat)
    requires Addressable(d) && Shown(d, entry, o)
    ensures Records(d.image, o, entry)
  {
    DirentMeans(d, o);
  }

  lemma {:induction false} SumPrefix(rooms: seq<nat>, i: nat)
    requires i <= |rooms|
    ensures Sum(rooms[..i]) <= Sum(rooms)
    decreases |rooms| - i
  {
    if i == |rooms| {
      assert rooms[..i] == rooms;
    } else {
      SumPrefix(rooms, i + 1);
      assert rooms[..i + 1][..i] == rooms[..i];
    }
  }
}
