/** Little-endian integers in byte sequences. */
module LittleEndian {

  import opened Wrappers
  import opened Bits

  type Byte = x: nat | x < 256

  function Decode(bytes: seq<Byte>): nat {
    if bytes == [] then 0 else (bytes[0] as int) + 256 * Decode(bytes[1..])
  }

  /** The low `n` bytes of `x`, as a truncating cast to an n-byte integer stores them. */
  function Encode(x: nat, n: nat): (bytes: seq<Byte>)
    ensures |bytes| == n
  {
    if n == 0 then [] else [x % 256] + Encode(x / 256, n - 1)
  }

  function Pow256(n: nat): (p: nat)
    ensures p > 0
  {
    if n == 0 then 1 else 256 * Pow256(n - 1)
  }

  /** Later bytes weigh more: each 256 times the one before. */
  lemma {:induction false} DecodeSplit(a: seq<Byte>, b: seq<Byte>)
    ensures Decode(a + b) == Decode(a) + Pow256(|a|) * Decode(b)
  {
    if a == [] {
      assert a + b == b;
    } else {
      assert (a + b)[1..] == a[1..] + b;
      DecodeSplit(a[1..], b);
      assert 256 * (Pow256(|a| - 1) * Decode(b)) == Pow256(|a|) * Decode(b);
    }
  }

  lemma DecodeFour(b: seq<Byte>)
    requires |b| == 4
    ensures Decode(b) == b[0] as int + 256 * b[1] as int + 65536 * b[2] as int + 16777216 * b[3] as int
  {
    assert b[1..][1..] == b[2..] && b[2..][1..] == b[3..] && b[3..][1..] == [];
    assert Decode(b[3..]) == b[3] as int;
    assert Decode(b[2..]) == b[2] as int + 256 * b[3] as int;
  }

  lemma {:induction false} DecodeBelow(bytes: seq<Byte>)
    ensures Decode(bytes) < Pow256(|bytes|)
  {
    if bytes != [] { DecodeBelow(bytes[1..]); }
  }

  /** Reading back gives the stored value modulo the width, so exactly when it fits. */
  lemma {:induction false} DecodeEncode(x: nat, n: nat)
    ensures Decode(Encode(x, n)) == x % Pow256(n)
  {
    if n == 0 {
      assert x % 1 == 0;
    } else {
      var rest := Encode(x / 256, n - 1);
      assert Encode(x, n)[1..] == rest;
      DecodeEncode(x / 256, n - 1);
      DivDiv(x, 256, Pow256(n - 1), Pow256(n));
    }
  }

  /** `from_bytes_to_slice`: how many records of `size` bytes a slice at `address` holds; none when the
      length is not a multiple of the size or the address is misaligned. */
  function SliceCount(length: nat, address: nat, size: nat, align: nat): (count: Option<nat>)
    requires align > 0
    ensures count.Some? <==> size > 0 && length % size == 0 && address % align == 0
    ensures count.Some? ==> count.value * size == length
  {
    if size == 0 || length % size != 0 || address % align != 0 then None else Some(length / size)
  }
}
