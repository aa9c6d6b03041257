/** Bytes, the byte-order helpers of the VDB backend (`zeros`, `ld`, `revld`)
    and the output stream they write to. */
module Bytes {

  /** An `unsigned char`. */
  type byte = x: int | 0 <= x < 0x100

  /** A `uint16_t`. */
  type u16 = x: int | 0 <= x < 0x1_0000

  /** `zeros(x)`: a vector of `x` zero bytes; the source asserts `x >= 0`. */
  function Zeros(x: int): (r: seq<byte>)
    requires x >= 0
    ensures |r| == x
    ensures forall i :: 0 <= i < x ==> r[i] == 0
  {
    seq(x, _ => 0)
  }

  /** The elements of `s` from last to first: what `revld` writes. */
  function Reversed<T>(s: seq<T>): (r: seq<T>)
  {
    if s == [] then [] else [s[|s| - 1]] + Reversed(s[..|s| - 1])
  }

  lemma {:induction false} ReversedAt<T>(s: seq<T>)
    ensures |Reversed(s)| == |s|
    ensures forall i :: 0 <= i < |s| ==> Reversed(s)[i] == s[|s| - 1 - i]
  {
    if s != [] {
      ReversedAt(s[..|s| - 1]);
    }
  }

  /** Writing a reversed vector twice in reverse gives the vector back. */
  lemma ReversedInvolutive<T>(s: seq<T>)
    ensures Reversed(Reversed(s)) == s
  {
    ReversedAt(s);
    ReversedAt(Reversed(s));
  }

  /** Reversing one more element at the front of the input appends it to
      the end of the output: the step `revld` takes per element. */
  lemma {:induction false} ReversedCons<T>(x: T, s: seq<T>)
    ensures Reversed([x] + s) == Reversed(s) + [x]
  {
    ReversedAt([x] + s);
    ReversedAt(s);
  }

  /** The two bytes `revld(f, u16 v)` writes: `v & 0xff`, then `(v & 0xff00) >> 8`,
      which for an unsigned 16-bit value are the remainder and the quotient by 256. */
  function LittleEndian(v: u16): (r: seq<byte>)
  {
    [v % 0x100, v / 0x100]
  }

  /** Reading two bytes back as a little-endian 16-bit value. */
  function FromLittleEndian(lo: byte, hi: byte): (v: u16)
  {
    lo + 0x100 * hi
  }

  /** `revld(u16)` is little-endian: low byte first, and reading the pair back
      gives the value. */
  lemma LittleEndianRoundTrip(v: u16)
    ensures |LittleEndian(v)| == 2
    ensures FromLittleEndian(LittleEndian(v)[0], LittleEndian(v)[1]) == v
  {
  }

  /** Two bytes read as a 16-bit value and written again come out unchanged. */
  lemma FromLittleEndianRoundTrip(lo: byte, hi: byte)
    ensures LittleEndian(FromLittleEndian(lo, hi)) == [lo, hi]
  {
    DivModByte(FromLittleEndian(lo, hi), lo, hi);
  }

  /** The quotient and remainder by 256 are unique. */
  lemma DivModByte(v: int, lo: int, hi: int)
    requires 0 <= lo < 0x100 && v == lo + 0x100 * hi
    ensures v % 0x100 == lo && v / 0x100 == hi
  {
  }

  /** The `std::ostream` the backend writes to, as the bytes written so far.
      Every operation only appends. */
  class OutStream {
    var bytes: seq<byte>

    constructor ()
      ensures bytes == []
    {
      bytes := [];
    }

    /** `ld(f, uchar v)`: one byte. */
    method LdByte(v: byte)
      modifies this
      ensures bytes == old(bytes) + [v]
    {
      bytes := bytes + [v];
    }

    /** `ld(f, vector)`: the elements first to last. */
    method Ld(v: seq<byte>)
      modifies this
      ensures bytes == old(bytes) + v
    {
      var i := 0;
      while i < |v|
        invariant 0 <= i <= |v|
        invariant bytes == old(bytes) + v[..i]
      {
        bytes := bytes + [v[i]];
        assert v[..i + 1] == v[..i] + [v[i]];
        i := i + 1;
      }
      assert v[..i] == v;
    }

    /** `revld(f, vector)`: the elements last to first. */
    method RevLd(v: seq<byte>)
      modifies this
      ensures bytes == old(bytes) + Reversed(v)
    {
      var i := |v|;
      while i > 0
        invariant 0 <= i <= |v|
        invariant bytes == old(bytes) + Reversed(v[i..])
      {
        i := i - 1;
        bytes := bytes + [v[i]];
        assert v[i..] == [v[i]] + v[i + 1..];
        ReversedCons(v[i], v[i + 1..]);
      }
      assert v[0..] == v;
    }

    /** `revld(f, u16 v)`: the value little-endian. */
    method RevLdU16(v: u16)
      modifies this
      ensures bytes == old(bytes) + LittleEndian(v)
    {
      var byte0 := v % 0x100;
      var byte1 := v / 0x100;
      LdByte(byte0);
      LdByte(byte1);
    }
  }
}
