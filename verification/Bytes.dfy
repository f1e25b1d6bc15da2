/**
 Bytes and the little-endian integers a capture file is made of. Writing an
 integer keeps its low-order bytes only, which is what a C++ cast to a narrower
 unsigned type does.
 */
module Bytes {
  import opened Arithmetic

  type Byte = x: int | 0 <= x < 256

  const TWO_32: nat := 0x1_0000_0000
  const TWO_63: nat := 0x8000_0000_0000_0000
  const TWO_64: nat := 0x1_0000_0000_0000_0000

  function Pow256(n: nat): (p: nat)
    ensures p > 0
  {
    if n == 0 then 1 else 256 * Pow256(n - 1)
  }

  function LittleEndian(v: nat, width: nat): (s: seq<Byte>)
    ensures |s| == width
  {
    if width == 0 then [] else [v % 256] + LittleEndian(v / 256, width - 1)
  }

  function FromLittleEndian(s: seq<Byte>): nat {
    if s == [] then 0 else s[0] + 256 * FromLittleEndian(s[1..])
  }

  /** Reading back what was written gives the value modulo the width. */
  lemma {:induction false} LittleEndianRoundTrip(v: nat, width: nat)
    ensures FromLittleEndian(LittleEndian(v, width)) == v % Pow256(width)
  {
    if width > 0 {
      LittleEndianRoundTrip(v / 256, width - 1);
      var p := Pow256(width - 1);
      assert LittleEndian(v, width)[1..] == LittleEndian(v / 256, width - 1);
      SplitModulo(v, p);
    }
  }

  lemma LittleEndianExact(v: nat, width: nat)
    requires v < Pow256(width)
    ensures FromLittleEndian(LittleEndian(v, width)) == v
  {
  }

  lemma Widths()
    ensures Pow256(4) == TWO_32 && Pow256(8) == TWO_64
  {
  }

  /** An integer field of `width` bytes stored at position `at`. */
  function FieldAt(b: seq<Byte>, at: nat, width: nat): nat
    requires at + width <= |b|
  {
    FromLittleEndian(b[at..at + width])
  }

  /** Another byte in a field is another value. */
  lemma {:induction false} AnotherByte(s: seq<Byte>, i: nat, x: Byte)
    requires i < |s| && x != s[i]
    ensures FromLittleEndian(s[i := x]) != FromLittleEndian(s)
  {
    if i > 0 {
      AnotherByte(s[1..], i - 1, x);
      assert s[i := x][1..] == s[1..][i - 1 := x];
    }
  }

  lemma FieldAfterChange(b: seq<Byte>, at: nat, width: nat, i: nat, x: Byte)
    requires at + width <= |b| && i < |b| && x != b[i]
    ensures FieldAt(b[i := x], at, width) == FieldAt(b, at, width) <==> i < at || at + width <= i
  {
    var s := b[at..at + width];
    if at <= i < at + width {
      AnotherByte(s, i - at, x);
      assert b[i := x][at..at + width] == s[i - at := x];
    } else {
      assert b[i := x][at..at + width] == s;
    }
  }
}
