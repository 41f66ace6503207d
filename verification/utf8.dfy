/** UTF-8 as Rust strings store it: `str::len` is the encoded byte length,
    `str::as_bytes` is the encoding, and `&s[..n]` is defined only when `n`
    falls on a character boundary. Dafny's `char` is a Unicode scalar value. */
module Utf8 {
  import opened MachineInts
  import opened Wrappers

  /** Number of bytes UTF-8 uses for `c`. */
  function Width(c: char): (w: nat)
    ensures 1 <= w <= 4
    ensures w == 1 <==> (c as int) < 0x80
  {
    if (c as int) < 0x80 then 1
    else if (c as int) < 0x800 then 2
    else if (c as int) < 0x1_0000 then 3
    else 4
  }

  /** Byte length of the encoding of `s` (Rust's `str::len`). */
  function ByteLen(s: string): (n: nat)
    ensures |s| <= n <= 4 * |s|
  {
    if s == [] then 0 else Width(s[0]) + ByteLen(s[1..])
  }

  /** The UTF-8 encoding of one scalar value (section 3.9 of the Unicode Standard). */
  function EncodeChar(c: char): (b: seq<uint8>)
    ensures |b| == Width(c)
    ensures (c as int) < 0x80 ==> b == [c as int]
  {
    var v := c as int;
    if v < 0x80 then [v]
    else if v < 0x800 then [0xC0 + v / 0x40, 0x80 + v % 0x40]
    else if v < 0x1_0000 then [0xE0 + v / 0x1000, 0x80 + (v / 0x40) % 0x40, 0x80 + v % 0x40]
    else [0xF0 + (v / 0x4_0000) % 0x8, 0x80 + (v / 0x1000) % 0x40, 0x80 + (v / 0x40) % 0x40, 0x80 + v % 0x40]
  }

  /** The UTF-8 encoding of `s` (Rust's `str::as_bytes`). */
  function Encode(s: string): (b: seq<uint8>)
    ensures |b| == ByteLen(s)
  {
    if s == [] then [] else EncodeChar(s[0]) + Encode(s[1..])
  }

  lemma {:induction false} ByteLenConcat(a: string, b: string)
    ensures ByteLen(a + b) == ByteLen(a) + ByteLen(b)
  {
    if a != [] {
      assert (a + b)[1..] == a[1..] + b;
      ByteLenConcat(a[1..], b);
    } else {
      assert a + b == b;
    }
  }

  lemma {:induction false} EncodeConcat(a: string, b: string)
    ensures Encode(a + b) == Encode(a) + Encode(b)
  {
    if a != [] {
      var c := a[0];
      assert (a + b)[0] == c && (a + b)[1..] == a[1..] + b;
      EncodeConcat(a[1..], b);
      calc {
        Encode(a + b);
        EncodeChar(c) + Encode(a[1..] + b);
        EncodeChar(c) + (Encode(a[1..]) + Encode(b));
        (EncodeChar(c) + Encode(a[1..])) + Encode(b);
        Encode(a) + Encode(b);
      }
    } else {
      assert a + b == b;
    }
  }

  predicate IsAscii(s: string)
  {
    forall i :: 0 <= i < |s| ==> (s[i] as int) < 0x80
  }

  /** On ASCII text bytes and characters coincide. */
  lemma {:induction false} AsciiEncoding(s: string)
    requires IsAscii(s)
    ensures ByteLen(s) == |s|
    ensures Encode(s) == seq(|s|, i requires 0 <= i < |s| => s[i] as int)
  {
    if s != [] {
      AsciiEncoding(s[1..]);
    }
  }

  /** The number of leading characters of `s` whose encoding is exactly
      `n` bytes long, when `n` is a character boundary of `s`. */
  function BoundaryAt(s: string, n: nat): (r: Option<nat>)
    ensures r.Some? ==> r.value <= |s| && ByteLen(s[..r.value]) == n
    ensures r.None? ==> forall k :: 0 <= k <= |s| ==> ByteLen(s[..k]) != n
  {
    if n == 0 then
      assert s[..0] == [];
      Some(0)
    else if s == [] || Width(s[0]) > n then
      assert forall k :: 1 <= k <= |s| ==> s[..k][1..] == s[1..][..k - 1];
      None
    else
      match BoundaryAt(s[1..], n - Width(s[0]))
      case Some(k) =>
        assert s[..k + 1][1..] == s[1..][..k];
        Some(k + 1)
      case None =>
        assert forall k :: 1 <= k <= |s| ==> s[..k][1..] == s[1..][..k - 1];
        None
  }

  /** `&s[..n]` at a boundary: its encoding is the first `n` bytes of `s`'s. */
  lemma BoundaryPrefixEncoding(s: string, k: nat)
    requires k <= |s|
    ensures ByteLen(s[..k]) <= ByteLen(s)
    ensures Encode(s[..k]) == Encode(s)[..ByteLen(s[..k])]
  {
    assert s == s[..k] + s[k..];
    ByteLenConcat(s[..k], s[k..]);
    EncodeConcat(s[..k], s[k..]);
  }
}
