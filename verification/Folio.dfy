/** A locked folio of the page cache: a byte buffer written in place, one page at a time. */
module Folio {

  import opened Wrappers
  import opened Words
  import opened LittleEndian
  import opened Mapper

  /** `s` with the bytes from `offset` on replaced by `data`. */
  function Overwritten(s: seq<Byte>, offset: nat, data: seq<Byte>): (t: seq<Byte>)
    requires offset + |data| <= |s|
    ensures |t| == |s|
  {
    s[..offset] + data + s[offset + |data|..]
  }

  lemma OverwrittenMeans(s: seq<Byte>, offset: nat, data: seq<Byte>)
    requires offset + |data| <= |s|
    ensures
      var t := Overwritten(s, offset, data);
      forall i :: 0 <= i < |s| ==> t[i] == if offset <= i < offset + |data| then data[i - offset] else s[i]
  {
  }

  function Zeros(n: nat): (s: seq<Byte>)
    ensures |s| == n && forall i :: 0 <= i < n ==> s[i] == 0
  {
    seq(n, i => 0)
  }

  class LockedFolio {
    const pos: nat
    const data: array<Byte>

    constructor (pos: nat, data: array<Byte>)
      ensures this.pos == pos && this.data == data
    {
      this.pos, this.data := pos, data;
    }

    /** The bounds check of `LockedFolio::for_each_page`. */
    function CheckRange(offset: nat, len: nat): (e: Option<Error>)
      requires offset < U64_SIZE && len < U64_SIZE
      ensures data.Length < U64_SIZE ==> (e.None? <==> offset + len <= data.Length)
    {
      if offset + len >= U64_SIZE then Some(ERANGE) else if offset + len > data.Length then Some(EINVAL) else None
    }

    /** Stores `piece` through the mapping of one page. */
    method StoreInPage(offset: nat, piece: seq<Byte>)
      requires offset % PAGE_SIZE + |piece| <= PAGE_SIZE && offset + |piece| <= data.Length
      modifies data
      ensures data[..] == Overwritten(old(data[..]), offset, piece)
    {
      forall i | 0 <= i < |piece| {
        data[offset + i] := piece[i];
      }
    }

    /** One round of the loop in `write`: as much of `remaining` as the current page takes. */
    method StoreNext(ghost was: seq<Byte>, offset: nat, ghost src: seq<Byte>, done: nat, remaining: seq<Byte>)
      returns (usable: nat)
      requires done < |src| && remaining == src[done..] && offset + |src| <= data.Length == |was|
      requires data[..] == Overwritten(was, offset, src[..done])
      modifies data
      ensures 0 < usable <= |remaining| && data[..] == Overwritten(was, offset, src[..done + usable])
    {
      var within := (offset + done) % PAGE_SIZE;
      usable := if |remaining| < PAGE_SIZE - within then |remaining| else PAGE_SIZE - within;
      StoreInPage(offset + done, remaining[..usable]);
      OverwriteMore(was, offset, src, done, usable);
    }

    /** `write`: copies `src` into the folio at `offset`, split at the folio's page boundaries. */
    method Write(offset: nat, src: seq<Byte>) returns (r: Result<(), Error>)
      requires offset < U64_SIZE && |src| < U64_SIZE && data.Length < U64_SIZE
      modifies data
      ensures r.Ok? <==> offset + |src| <= data.Length
      ensures r.Ok? ==> data[..] == Overwritten(old(data[..]), offset, src)
      ensures r.Err? ==> data[..] == old(data[..])
    {
      var bad := CheckRange(offset, |src|);
      if bad.Some? {
        return Err(bad.value);
      }
      var remaining := src;
      var next := offset;
      while |remaining| > 0
        invariant next + |remaining| == offset + |src| && offset <= next
        invariant remaining == src[next - offset..]
        invariant data[..] == Overwritten(old(data[..]), offset, src[..next - offset])
        decreases |remaining|
      {
        var usable := StoreNext(old(data[..]), offset, src, next - offset, remaining);
        next := next + usable;
        remaining := remaining[usable..];
      }
      assert src[..next - offset] == src;
      return Ok(());
    }

    /** `zero_out`: writes `len` zero bytes at `offset`. */
    method ZeroOut(offset: nat, len: nat) returns (r: Result<(), Error>)
      requires offset < U64_SIZE && len < U64_SIZE && data.Length < U64_SIZE
      modifies data
      ensures r.Ok? <==> offset + len <= data.Length
      ensures r.Ok? ==> data[..] == Overwritten(old(data[..]), offset, Zeros(len))
      ensures r.Err? ==> data[..] == old(data[..])
    {
      var bad := CheckRange(offset, len);
      if bad.Some? {
        return Err(bad.value);
      }
      var remaining := len;
      var next := offset;
      while remaining > 0
        invariant 0 <= remaining && next + remaining == offset + len && offset <= next
        invariant data[..] == Overwritten(old(data[..]), offset, Zeros(len)[..next - offset])
      {
        assert Zeros(remaining) == Zeros(len)[next - offset..];
        var usable := StoreNext(old(data[..]), offset, Zeros(len), next - offset, Zeros(remaining));
        next := next + usable;
        remaining := remaining - usable;
      }
      assert Zeros(len)[..next - offset] == Zeros(len);
      return Ok(());
    }
  }

  /** Overwriting with a prefix and then with what follows it is overwriting with the longer prefix. */
  lemma OverwriteMore(s: seq<Byte>, offset: nat, src: seq<Byte>, done: nat, more: nat)
    requires offset + |src| <= |s| && done + more <= |src|
    ensures Overwritten(Overwritten(s, offset, src[..done]), offset + done, src[done..][..more])
            == Overwritten(s, offset, src[..done + more])
  {
    assert src[..done + more] == src[..done] + src[done..][..more];
  }
}
