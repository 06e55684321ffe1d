/** ext2: from a file block to an index path by shifts and masks, and from the path to a disk block by
    walking the pointer tables on the device. */
module Ext2Blocks {

  import opened Wrappers
  import opened Words
  import opened Bits
  import opened LittleEndian
  import opened Mapper

  const EXT2_NDIR_BLOCKS: nat := 12
  const EXT2_IND_BLOCK: nat := EXT2_NDIR_BLOCKS
  const EXT2_DIND_BLOCK: nat := EXT2_IND_BLOCK + 1
  const EXT2_TIND_BLOCK: nat := EXT2_DIND_BLOCK + 1
  const EXT2_N_BLOCKS: nat := EXT2_TIND_BLOCK + 1
  const EXT2_MAX_BLOCK_LOG_SIZE: nat := 16

  /** The block sizes that the superblock may announce, as `1024 << bits`; the device may refuse some. */
  predicate BlockSize(size: nat, bits: nat) {
    bits <= EXT2_MAX_BLOCK_LOG_SIZE - 10 && size == 1024 * Pow2(bits)
  }

  // ---- Index paths -------------------------------------------------------

  function Squared(p: nat): nat {
    p * p
  }

  function Cubed(p: nat): nat {
    Squared(p) * p
  }

  /** The number of `j` in row `i` of rows of length `p`. */
  function Pair(p: nat, i: nat, j: nat): nat {
    i * p + j
  }

  function Row(p: nat, x: nat): nat
    requires p > 0
  {
    x / p
  }

  function Column(p: nat, x: nat): nat
    requires p > 0
  {
    x % p
  }

  /** The first block number beyond a file, with `p` pointers in a table. */
  function Capacity(p: nat): nat {
    EXT2_NDIR_BLOCKS + p + Squared(p) + Cubed(p)
  }

  /** An entry of the inode's block array followed by one index per table on the way. */
  predicate WellFormed(p: nat, path: seq<nat>) {
    && 1 <= |path| <= 4
    && (forall i :: 1 <= i < |path| ==> path[i] < p)
    && if |path| == 1 then path[0] < EXT2_NDIR_BLOCKS else path[0] == EXT2_NDIR_BLOCKS + |path| - 2
  }

  /** The file block a path leads to: paths count blocks, level by level and in index order. */
  function BlockOf(p: nat, path: seq<nat>): nat
    requires WellFormed(p, path)
  {
    match |path|
    case 1 => path[0]
    case 2 => EXT2_NDIR_BLOCKS + path[1]
    case 3 => EXT2_NDIR_BLOCKS + p + Pair(p, path[1], path[2])
    case _ => EXT2_NDIR_BLOCKS + p + Squared(p) + Pair(p, Pair(p, path[1], path[2]), path[3])
  }

  /** The path of a file block, by division. */
  function Path(p: nat, block: nat): seq<nat>
    requires p > 0
  {
    if block < EXT2_NDIR_BLOCKS then [block] else
    var b := block - EXT2_NDIR_BLOCKS;
    if b < p then [EXT2_IND_BLOCK, b] else DeepPath(p, b - p)
  }

  /** The path of a block behind the direct and the singly indirect ones. */
  function DeepPath(p: nat, c: nat): seq<nat>
    requires p > 0
  {
    if c < Squared(p) then [EXT2_DIND_BLOCK, Row(p, c), Column(p, c)] else
    var d := c - Squared(p);
    [EXT2_TIND_BLOCK, Row(p, Row(p, d)), Column(p, Row(p, d)), Column(p, d)]
  }

  lemma QuotientBelow(x: nat, p: nat, n: nat)
    requires p > 0 && x < n * p
    ensures x / p < n
  {
    Multiple(x / p - n, p);
    assert (x / p - n) * p == x / p * p - n * p;
  }

  /** Every block in range has a well-formed path that leads back to it. */
  lemma PathLeadsBack(p: nat, block: nat)
    requires p > 0 && block < Capacity(p)
    ensures WellFormed(p, Path(p, block)) && BlockOf(p, Path(p, block)) == block
  {
    var b := block - EXT2_NDIR_BLOCKS;
    if b >= p {
      var c := b - p;
      if c < Squared(p) {
        RowColumn(p, c, p);
      } else {
        var d := c - Squared(p);
        RowColumn(p, d, Squared(p));
        RowColumn(p, Row(p, d), p);
      }
    }
  }

  /** What the path of a block says, in numbers. */
  lemma PathMeans(p: nat, block: nat)
    requires p > 0 && block < Capacity(p)
    ensures Capacity(p) == 12 + p + p * p + p * p * p
    ensures
      var path := Path(p, block);
      if block < 12 then path == [block]
      else if block < 12 + p then path == [12, block - 12]
      else if block < 12 + p + p * p then
        |path| == 3 && path[0] == 13 && path[2] < p && path[1] * p + path[2] == block - 12 - p
      else
        && |path| == 4 && path[0] == 14 && path[2] < p && path[3] < p
        && (path[1] * p + path[2]) * p + path[3] == block - 12 - p - p * p
  {
    PathLeadsBack(p, block);
  }

  lemma RowColumn(p: nat, x: nat, n: nat)
    requires p > 0 && x < n * p
    ensures Row(p, x) < n && Column(p, x) < p && Pair(p, Row(p, x), Column(p, x)) == x
  {
    QuotientBelow(x, p, n);
  }

  lemma PairBelow(p: nat, n: nat, i: nat, j: nat)
    requires i < n && j < p
    ensures Pair(p, i, j) < n * p
    ensures Pair(p, i, j) / p == i && Pair(p, i, j) % p == j
  {
    Multiple(n - i, p);
    assert (n - i) * p == n * p - i * p;
    DivMod(Pair(p, i, j), p, i, j);
  }

  /** Every well-formed path leads to a block in range, and is the path of that block. */
  lemma PathOfItsBlock(p: nat, path: seq<nat>)
    requires p > 0 && WellFormed(p, path)
    ensures BlockOf(p, path) < Capacity(p) && Path(p, BlockOf(p, path)) == path
  {
    if |path| == 3 {
      PairBelow(p, p, path[1], path[2]);
    } else if |path| == 4 {
      PairBelow(p, p, path[1], path[2]);
      PairBelow(p, Squared(p), Pair(p, path[1], path[2]), path[3]);
    }
  }

  // ---- The shift-and-mask form -------------------------------------------

  lemma Pointers(size: nat, bits: nat)
    requires BlockSize(size, bits)
    ensures size / 4 == Pow2(bits + 8) && 256 <= Pow2(bits + 8) <= 16384
  {
    assert Pow2(bits + 8) == 256 * Pow2(bits) by { PowPlus8(bits); }
    assert Pow2(0) == 1 && Pow2(1) == 2 && Pow2(2) == 4 && Pow2(3) == 8;
    assert Pow2(4) == 16 && Pow2(5) == 32 && Pow2(6) == 64;
  }

  lemma PowPlus8(bits: nat)
    ensures Pow2(bits + 8) == 256 * Pow2(bits)
  {
    assert Pow2(bits + 2) == 4 * Pow2(bits);
    assert Pow2(bits + 4) == 16 * Pow2(bits);
    assert Pow2(bits + 6) == 64 * Pow2(bits);
  }

  /** The doubly indirect case of `offsets`. */
  method WriteTwo(out: array<nat>, block: nat, ptrMask: nat, ptrBits: nat)
    requires out.Length == 4 && ptrMask + 1 == Pow2(ptrBits) < U32_SIZE && block < Squared(ptrMask + 1)
    modifies out
    ensures out[..3] == [EXT2_DIND_BLOCK, Row(ptrMask + 1, block), Column(ptrMask + 1, block)]
  {
    SplitTwo(block, ptrMask + 1, ptrBits);
    out[0] := EXT2_DIND_BLOCK;
    out[1] := AsU32(Shr(block, ptrBits));
    out[2] := AsU32(And(block, ptrMask));
  }

  /** The triply indirect case of `offsets`. */
  method WriteThree(out: array<nat>, block: nat, ptrMask: nat, ptrBits: nat)
    requires out.Length == 4 && ptrMask + 1 == Pow2(ptrBits) < U32_SIZE && block < Cubed(ptrMask + 1)
    modifies out
    ensures var p := ptrMask + 1;
            out[..4] == [EXT2_TIND_BLOCK, Row(p, Row(p, block)), Column(p, Row(p, block)), Column(p, block)]
  {
    SplitThree(block, ptrMask + 1, ptrBits);
    out[0] := EXT2_TIND_BLOCK;
    out[1] := AsU32(Shr(block, 2 * ptrBits));
    out[2] := AsU32(And(Shr(block, ptrBits), ptrMask));
    out[3] := AsU32(And(block, ptrMask));
  }

  /** `offsets`: fills `out` and returns how much of it is the path, or nothing beyond the range. */
  method Offsets(blockSize: nat, ghost bits: nat, fileBlock: nat, out: array<nat>) returns (n: Option<nat>)
    requires BlockSize(blockSize, bits) && fileBlock < U64_SIZE && out.Length == 4
    modifies out
    ensures n.None? <==> fileBlock >= Capacity(blockSize / 4)
    ensures n.Some? ==> n.value <= 4 && out[..n.value] == Path(blockSize / 4, fileBlock)
  {
    var block := fileBlock;
    var ptrs := blockSize / 4;
    Pointers(blockSize, bits);
    PowersOfTwo(bits + 8);
    var ptrMask := ptrs - 1;
    var ptrBits := TrailingZeros(ptrs);

    if block < EXT2_NDIR_BLOCKS {
      out[0] := AsU32(block);
      return Some(1);
    }
    block := block - EXT2_NDIR_BLOCKS;
    if block < ptrs {
      out[0] := EXT2_IND_BLOCK;
      out[1] := AsU32(block);
      return Some(2);
    }
    n := DeepOffsets(ptrs, ptrMask, ptrBits, block - ptrs, out);
  }

  /** The doubly and triply indirect cases of `offsets`. */
  method DeepOffsets(ptrs: nat, ptrMask: nat, ptrBits: nat, b: nat, out: array<nat>) returns (n: Option<nat>)
    requires ptrs == ptrMask + 1 == Pow2(ptrBits) < U32_SIZE && out.Length == 4
    modifies out
    ensures n.None? <==> b >= Squared(ptrs) + Cubed(ptrs)
    ensures n.Some? ==> n.value <= 4 && out[..n.value] == DeepPath(ptrs, b)
  {
    var block := b;
    ShlIsSquared(ptrs, ptrBits);
    if block < Shl(1, 2 * ptrBits) {
      WriteTwo(out, block, ptrMask, ptrBits);
      return Some(3);
    }
    block := block - Squared(ptrs);
    if block < Cubed(ptrs) {
      WriteThree(out, block, ptrMask, ptrBits);
      return Some(4);
    }
    return None;
  }

  lemma ShlIsSquared(p: nat, k: nat)
    requires p == Pow2(k)
    ensures Shl(1, 2 * k) == Squared(p)
  {
    Pow2Square(k);
    PowersOfTwo(2 * k);
  }

  lemma SplitTwo(x: nat, p: nat, k: nat)
    requires p == Pow2(k)
    ensures Shr(x, k) == Row(p, x) && And(x, p - 1) == Column(p, x) < p
    ensures x < Squared(p) ==> Row(p, x) < p
  {
    ShrIsDiv(x, k);
    AndIsMod(x, k);
    if x < Squared(p) { QuotientBelow(x, p, p); }
  }

  lemma SplitThree(x: nat, p: nat, k: nat)
    requires p == Pow2(k) && x < Cubed(p)
    ensures Shr(x, 2 * k) == Row(p, Row(p, x)) < p
    ensures And(Shr(x, k), p - 1) == Column(p, Row(p, x)) < p
    ensures And(x, p - 1) == Column(p, x) < p
  {
    ShrIsDiv(x, k);
    ShrIsDiv(x, 2 * k);
    Pow2Square(k);
    DivDiv(x, p, p, Squared(p));
    AndIsMod(x, k);
    AndIsMod(Row(p, x), k);
    QuotientBelow(x, p, Squared(p));
    QuotientBelow(Row(p, x), p, p);
  }

  // ---- Walking the pointer tables ----------------------------------------

  /** The little-endian 32-bit value at byte `at`. */
  function LE32(bytes: seq<Byte>, at: nat): nat
    requires at + 4 <= |bytes|
  {
    Decode(bytes[at..at + 4])
  }

  lemma LE32Bytes(bytes: seq<Byte>, at: nat)
    requires at + 4 <= |bytes|
    ensures
      LE32(bytes, at) ==
      bytes[at] as int + 256 * bytes[at + 1] as int + 65536 * bytes[at + 2] as int + 16777216 * bytes[at + 3] as int
  {
    DecodeFour(bytes[at..at + 4]);
  }

  /** The bytes `mapped_folio` returns when it starts at `offset`. */
  function MappedLength(offset: nat): nat {
    PAGE_SIZE - offset % PAGE_SIZE
  }

  /** The four bytes at `o` hold `v`, the lowest first. */
  predicate PointerAt(image: seq<Byte>, o: nat, v: nat) {
    && o + 4 <= |image|
    && v == image[o] as int + 256 * image[o + 1] as int + 65536 * image[o + 2] as int + 16777216 * image[o + 3] as int
  }

  /** How a walk ends; indexing beyond a slice panics. */
  datatype Walk = Found(block: nat) | Failed(error: Error) | Panicked

  /** The pointer at entry `i` of the table at byte `offset` of the disk image, unless its page cannot be read
      or the table goes on beyond it. */
  function EntryAt(d: Device, offset: nat, i: nat): Walk {
    if !Readable(d, offset / PAGE_SIZE) then Failed(EIO)
    else if 4 * i + 4 > MappedLength(offset) then Panicked
    else Found(LE32(d.image, offset + 4 * i))
  }

  /** The pointer at entry `i` of the table in block `block`. */
  function Entry(d: Device, blockSize: nat, block: nat, i: nat): Walk {
    EntryAt(d, block * blockSize, i)
  }

  /** Following raw pointers on the disk image. A zero pointer is followed like any other. */
  function Follow(d: Device, blockSize: nat, block: nat, indices: seq<nat>): Walk
    decreases |indices|
  {
    if indices == [] then Found(block) else
    var entry := Entry(d, blockSize, block, indices[0]);
    if entry.Found? then Follow(d, blockSize, entry.block, indices[1..]) else entry
  }

  /** The byte position of entry `i` of the table in block `block`. */
  function EntryOffset(blockSize: nat, block: nat, i: nat): nat {
    block * blockSize + 4 * i
  }

  lemma EntryIsPointer(d: Device, blockSize: nat, block: nat, i: nat)
    requires Entry(d, blockSize, block, i).Found?
    ensures PointerAt(d.image, EntryOffset(blockSize, block, i), Entry(d, blockSize, block, i).block)
  {
    LE32Bytes(d.image, EntryOffset(blockSize, block, i));
  }

  /** A chain of pointers on the disk: each table's entry, in the order of the indices, names the next. */
  predicate Chain(image: seq<Byte>, blockSize: nat, indices: seq<nat>, chain: seq<nat>)
    decreases |indices|
  {
    && |chain| == |indices| + 1
    && (indices != [] ==>
          && PointerAt(image, EntryOffset(blockSize, chain[0], indices[0]), chain[1])
          && Chain(image, blockSize, indices[1..], chain[1..]))
  }

  /** A walk that ends has followed a chain of pointers on the disk image from its first block to its result. */
  lemma {:induction false} WalkIsChain(d: Device, blockSize: nat, block: nat, indices: seq<nat>)
    returns (chain: seq<nat>)
    requires Follow(d, blockSize, block, indices).Found?
    ensures Chain(d.image, blockSize, indices, chain)
    ensures chain[0] == block && chain[|indices|] == Follow(d, blockSize, block, indices).block
    decreases |indices|
  {
    if indices == [] {
      chain := [block];
    } else {
      EntryIsPointer(d, blockSize, block, indices[0]);
      var rest := WalkIsChain(d, blockSize, Entry(d, blockSize, block, indices[0]).block, indices[1..]);
      chain := [block] + rest;
      assert chain[1..] == rest;
    }
  }

  /** With one table on the way the result is the pointer in it. */
  lemma OneTable(d: Device, blockSize: nat, block: nat, indices: seq<nat>)
    requires |indices| == 1 && Follow(d, blockSize, block, indices).Found?
    ensures PointerAt(d.image, EntryOffset(blockSize, block, indices[0]), Follow(d, blockSize, block, indices).block)
  {
    EntryIsPointer(d, blockSize, block, indices[0]);
    assert indices[1..] == [];
  }

  /** A block no larger than a page lies within one page. */
  lemma BlockInPage(blockSize: nat, block: nat)
    requires blockSize > 0 && PAGE_SIZE % blockSize == 0
    ensures block * blockSize % PAGE_SIZE + blockSize <= PAGE_SIZE
  {
    var per := PAGE_SIZE / blockSize;
    assert per * blockSize == PAGE_SIZE;
    var q, r := block / per, block % per;
    assert block == q * per + r;
    assert block * blockSize == q * PAGE_SIZE + r * blockSize;
    Multiple(per - r, blockSize);
    assert (per - r) * blockSize == PAGE_SIZE - r * blockSize;
    DivMod(block * blockSize, PAGE_SIZE, q, r * blockSize);
  }

  lemma SmallBlocks(size: nat, bits: nat)
    requires BlockSize(size, bits)
    ensures size <= PAGE_SIZE <==> bits <= 2
    ensures size <= PAGE_SIZE ==> PAGE_SIZE % size == 0
    ensures size > PAGE_SIZE ==> size % PAGE_SIZE == 0
    ensures size >= 1024 && size % 4 == 0
  {
    assert Pow2(0) == 1 && Pow2(1) == 2 && Pow2(2) == 4 && Pow2(3) == 8;
    assert Pow2(4) == 16 && Pow2(5) == 32 && Pow2(6) == 64;
  }

  predicate BlockArray(blocks: seq<nat>) {
    |blocks| == EXT2_N_BLOCKS && forall i :: 0 <= i < |blocks| ==> blocks[i] < U32_SIZE
  }

  /** Maps a table's block and reads one entry of the mapped slice. */
  method ReadEntry(d: Device, blockSize: nat, block: nat, i: nat) returns (r: Walk)
    requires blockSize % 4 == 0
    ensures r == Entry(d, blockSize, block, i)
    ensures r.Found? ==> PointerAt(d.image, EntryOffset(blockSize, block, i), r.block)
  {
    MultipleOf4(blockSize, block);
    r := ReadTable(d, block * blockSize, i);
    if r.Found? {
      EntryIsPointer(d, blockSize, block, i);
    }
  }

  method ReadTable(d: Device, offset: nat, i: nat) returns (r: Walk)
    requires offset % 4 == 0
    ensures r == EntryAt(d, offset, i)
  {
    var b := MappedFolio(d, offset);
    if b.Err? {
      return Failed(EIO);
    }
    var table := b.value;
    RestOfPage(offset, |table|);
    var count := SliceCount(|table|, offset % PAGE_SIZE, 4, 4);
    if count.None? {
      return Failed(EIO);
    }
    InSlice(|table|, count.value, i);
    if i >= count.value {
      return Panicked;
    }
    SameBytes(d.image, offset, table, 4 * i);
    return Found(LE32(table, 4 * i));
  }

  lemma InSlice(len: nat, count: nat, i: nat)
    requires count * 4 == len
    ensures i < count <==> 4 * i + 4 <= len
  {
  }

  /** A mapped slice is the rest of its page, a multiple of the pointer size when it starts at one. */
  lemma RestOfPage(offset: nat, len: nat)
    requires offset % 4 == 0 && 0 < len <= PAGE_SIZE && (offset + len) % PAGE_SIZE == 0
    ensures len == PAGE_SIZE - offset % PAGE_SIZE && len % 4 == 0 && offset % PAGE_SIZE % 4 == 0
  {
  }

  lemma SameBytes(image: seq<Byte>, offset: nat, table: seq<Byte>, at: nat)
    requires offset + |table| <= |image| && table == image[offset..offset + |table|] && at + 4 <= |table|
    ensures table[at..at + 4] == image[offset + at..offset + at + 4]
  {
    var a, b := table[at..at + 4], image[offset + at..offset + at + 4];
    assert forall i :: 0 <= i < 4 ==> a[i] == table[at + i] && b[i] == image[offset + at + i];
  }

  lemma MultipleOf4(blockSize: nat, block: nat)
    requires blockSize % 4 == 0
    ensures block * blockSize % 4 == 0
  {
    var q := blockSize / 4;
    assert block * blockSize == block * q * 4;
    DivMod(block * blockSize, 4, block * q, 0);
  }

  /** The loop of `offset_to_block` over the tables on the way. */
  method WalkTables(d: Device, blockSize: nat, root: nat, indices: seq<nat>) returns (r: Walk)
    requires blockSize % 4 == 0
    ensures r == Follow(d, blockSize, root, indices)
  {
    var boffset: nat := root;
    var k := 0;
    while k < |indices|
      invariant 0 <= k <= |indices|
      invariant Follow(d, blockSize, boffset, indices[k..]) == Follow(d, blockSize, root, indices)
    {
      var entry := ReadEntry(d, blockSize, boffset, indices[k]);
      if !entry.Found? {
        return entry;
      }
      assert indices[k..][1..] == indices[k + 1..];
      boffset, k := entry.block, k + 1;
    }
    return Found(boffset);
  }

  /** `offset_to_block`: the disk block of a file block, for every block size that mounting accepts. */
  method OffsetToBlock(d: Device, blockSize: nat, ghost bits: nat, dataBlocks: seq<nat>, fileBlock: int)
    returns (r: Walk)
    requires BlockSize(blockSize, bits) && BlockArray(dataBlocks)
    requires -I64_LIMIT <= fileBlock < I64_LIMIT
    ensures !(0 <= fileBlock < Capacity(blockSize / 4)) ==> r == Failed(EIO)
    ensures 0 <= fileBlock < Capacity(blockSize / 4) ==>
              var path := Path(blockSize / 4, fileBlock);
              && WellFormed(blockSize / 4, path)
              && r == Follow(d, blockSize, dataBlocks[path[0]], path[1..])
              && (r.Found? && |path| == 2 ==>
                    PointerAt(d.image, EntryOffset(blockSize, dataBlocks[12], fileBlock - 12), r.block))
              && (blockSize <= PAGE_SIZE ==> !r.Panicked?)
  {
    SmallBlocks(blockSize, bits);
    CapacityFits(blockSize, bits);
    var indices := new nat[4];
    var n := Offsets(blockSize, bits, AsU64(fileBlock), indices);
    if n.None? {
      return Failed(EIO);
    }
    PathLeadsBack(blockSize / 4, fileBlock);
    r := WalkTables(d, blockSize, dataBlocks[indices[0]], indices[1..n.value]);
    assert indices[1..n.value] == indices[..n.value][1..];
    if n.value == 2 && r.Found? {
      OneTable(d, blockSize, dataBlocks[12], indices[1..n.value]);
    }
    if blockSize <= PAGE_SIZE {
      SmallTablesAreMapped(d, blockSize, bits, dataBlocks[indices[0]], indices[1..n.value]);
    }
  }

  /** Indices that a table of this block size has. */
  predicate InTables(size: nat, indices: seq<nat>) {
    forall k :: 0 <= k < |indices| ==> indices[k] < size / 4
  }

  lemma {:induction false} SmallTablesAreMapped(d: Device, size: nat, bits: nat, block: nat, indices: seq<nat>)
    requires BlockSize(size, bits) && size <= PAGE_SIZE && InTables(size, indices)
    ensures !Follow(d, size, block, indices).Panicked?
    decreases |indices|
  {
    if indices != [] {
      SmallBlocks(size, bits);
      BlockInPage(size, block);
      var entry := Entry(d, size, block, indices[0]);
      if entry.Found? {
        SmallTablesAreMapped(d, size, bits, entry.block, indices[1..]);
      }
    }
  }

  predicate Panics(d: Device, size: nat, block: nat, indices: seq<nat>) {
    InTables(size, indices) && Follow(d, size, block, indices).Panicked?
  }

  /** No walk over any device and any pointers panics if and only if the block size is at most the page
      size. */
  lemma NeverPanicsIff(size: nat, bits: nat)
    requires BlockSize(size, bits)
    ensures (forall d: Device, block: nat, indices: seq<nat> :: !Panics(d, size, block, indices)) <==> size <= PAGE_SIZE
  {
    if size <= PAGE_SIZE {
      forall d: Device, block: nat, indices: seq<nat> ensures !Panics(d, size, block, indices) {
        if InTables(size, indices) {
          SmallTablesAreMapped(d, size, bits, block, indices);
        }
      }
    } else {
      SmallBlocks(size, bits);
      var d := Device(seq(PAGE_SIZE, i => 0), {});
      var block: nat, indices: seq<nat> := 0, [size / 4 - 1];
      assert MappedLength(block * size) == PAGE_SIZE;
      assert Entry(d, size, block, indices[0]).Panicked?;
      assert Panics(d, size, block, indices);
    }
  }

  lemma CapacityFits(size: nat, bits: nat)
    requires BlockSize(size, bits)
    ensures Capacity(size / 4) < I64_LIMIT
  {
    assert Pow2(0) == 1 && Pow2(1) == 2 && Pow2(2) == 4 && Pow2(3) == 8;
    assert Pow2(4) == 16 && Pow2(5) == 32 && Pow2(6) == 64;
    assert size in {1024, 2048, 4096, 8192, 16384, 32768, 65536};
    assert Cubed(256) == 0x100_0000 && Cubed(512) == 0x800_0000 && Cubed(1024) == 0x4000_0000;
    assert Cubed(2048) == 0x2_0000_0000 && Cubed(4096) == 0x10_0000_0000;
    assert Cubed(8192) == 0x80_0000_0000 && Cubed(16384) == 0x400_0000_0000;
  }
}
