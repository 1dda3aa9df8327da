/**
 * Byte-level helpers shared by the binlog decoders: bytes, little-endian
 * unsigned integers (Python's `struct` with `<`), Python slicing with its
 * clipping rules, and the Latin-1 decoding of bytes into text.
 */
module Bytes {

  type byte = b: int | 0 <= b < 256

  /** 256 to the power n: one more than the largest n-byte unsigned integer. */
  function Pow256(n: nat): (p: nat)
    ensures p >= 1
  {
    if n == 0 then 1 else 256 * Pow256(n - 1)
  }

  /** The unsigned integer whose little-endian encoding is s (least significant byte first). */
  function LittleEndian(s: seq<byte>): (n: nat)
    ensures n < Pow256(|s|)
  {
    if s == [] then 0 else s[0] + 256 * LittleEndian(s[1..])
  }

  /** The width-byte little-endian encoding of n. */
  function ToLittleEndian(n: nat, width: nat): (s: seq<byte>)
    requires n < Pow256(width)
    ensures |s| == width
  {
    if width == 0 then [] else [n % 256] + ToLittleEndian(n / 256, width - 1)
  }

  lemma {:induction false} LittleEndianOfEncoding(n: nat, width: nat)
    requires n < Pow256(width)
    ensures LittleEndian(ToLittleEndian(n, width)) == n
  {
    if width > 0 {
      var s := ToLittleEndian(n, width);
      assert s[1..] == ToLittleEndian(n / 256, width - 1);
      LittleEndianOfEncoding(n / 256, width - 1);
    }
  }

  lemma {:induction false} EncodingOfLittleEndian(s: seq<byte>)
    ensures ToLittleEndian(LittleEndian(s), |s|) == s
  {
    if s != [] {
      var n := LittleEndian(s);
      assert n % 256 == s[0] && n / 256 == LittleEndian(s[1..]);
      EncodingOfLittleEndian(s[1..]);
    }
  }

  /**
   * One bound of a Python slice `s[start:stop]`: a negative bound counts from
   * the end, and the result is clipped into 0..len.
   */
  function SliceBound(i: int, len: nat): (r: nat)
    ensures r <= len
    ensures 0 <= i <= len ==> r == i
  {
    var j := if i < 0 then i + len else i;
    if j < 0 then 0 else if j > len then len else j
  }

  /** Python's `s[start:stop]`: never fails, yields the clipped range or nothing. */
  function Slice<T>(s: seq<T>, start: int, stop: int): (r: seq<T>)
    ensures 0 <= start <= stop <= |s| ==> r == s[start..stop]
    ensures 0 <= stop <= start ==> r == []
    ensures 0 <= start <= |s| <= stop ==> r == s[start..]
    ensures 0 <= |s| <= start ==> r == []
    ensures 0 <= start && 0 <= stop ==> |r| <= if stop < start then 0 else stop - start
  {
    var a := SliceBound(start, |s|);
    var b := SliceBound(stop, |s|);
    if a <= b then s[a..b] else []
  }

  /** Decoding bytes as Latin-1: each byte becomes the character with that code. */
  function Latin1(bs: seq<byte>): (s: string)
    ensures |s| == |bs|
    ensures forall i :: 0 <= i < |bs| ==> s[i] as int == bs[i]
  {
    seq(|bs|, i requires 0 <= i < |bs| => bs[i] as char)
  }

  /** Text every character of which is in Latin-1, i.e. has a code below 256. */
  predicate IsLatin1(s: string)
  {
    forall i :: 0 <= i < |s| ==> s[i] as int < 256
  }

  /** Encoding Latin-1 text as bytes, the inverse of Latin1. */
  function Latin1Bytes(s: string): (bs: seq<byte>)
    requires IsLatin1(s)
    ensures |bs| == |s|
  {
    seq(|s|, i requires 0 <= i < |s| => s[i] as int)
  }

  lemma Latin1RoundTrip(s: string)
    requires IsLatin1(s)
    ensures Latin1(Latin1Bytes(s)) == s
  {
    var t := Latin1(Latin1Bytes(s));
    assert forall i :: 0 <= i < |s| ==> t[i] == s[i] by {
      forall i | 0 <= i < |s| ensures t[i] == s[i] {
        assert t[i] as int == s[i] as int;
      }
    }
  }
}
