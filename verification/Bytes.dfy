/** Bytes, big-endian integers and C strings. */
module Bytes {

  type byte = x: int | 0 <= x < 256
  type u16 = x: int | 0 <= x < 0x1_0000
  type u32 = x: int | 0 <= x < 0x1_0000_0000

  datatype Option<+T> = None | Some(value: T)

  function EncU16(v: u16): (b: seq<byte>)
    ensures |b| == 2
  {
    [v / 256, v % 256]
  }

  function DecU16(b: seq<byte>, i: nat): u16
    requires i + 2 <= |b|
  {
    (b[i] as int) * 256 + b[i + 1] as int
  }

  function EncU32(v: u32): (b: seq<byte>)
    ensures |b| == 4
  {
    EncU16(v / 0x1_0000) + EncU16(v % 0x1_0000)
  }

  function DecU32(b: seq<byte>, i: nat): u32
    requires i + 4 <= |b|
  {
    (DecU16(b, i) as int) * 0x1_0000 + DecU16(b, i + 2) as int
  }

  /** Reading back a big-endian integer wherever its bytes lie. */
  lemma U16ReadBack(b: seq<byte>, i: nat, v: u16)
    requires i + 2 <= |b| && b[i] == EncU16(v)[0] && b[i + 1] == EncU16(v)[1]
    ensures DecU16(b, i) == v
  {
  }

  lemma U32ReadBack(b: seq<byte>, i: nat, v: u32)
    requires i + 4 <= |b| && forall j :: 0 <= j < 4 ==> b[i + j] == EncU32(v)[j]
    ensures DecU32(b, i) == v
  {
    var w := EncU32(v);
    assert b[i + 0] == w[0] && b[i + 1] == w[1] && b[i + 2] == w[2] && b[i + 3] == w[3];
    U16ReadBack(b, i, v / 0x1_0000);
    U16ReadBack(b, i + 2, v % 0x1_0000);
  }

  /** The `len` bytes at `at`. */
  function Piece(s: seq<byte>, at: nat, len: nat): (r: seq<byte>)
    requires at + len <= |s|
    ensures |r| == len && forall i :: 0 <= i < len ==> r[i] == s[at + i]
  {
    seq(len, i requires 0 <= i < len => s[at + i])
  }

  // ---- ASCII case ----

  function LowerByte(b: byte): byte {
    if 65 <= b <= 90 then b + 32 else b
  }

  /** The bytes `b` stand at `at`. */
  ghost predicate Written(p: seq<byte>, at: nat, b: seq<byte>) {
    at + |b| <= |p| && forall i :: 0 <= i < |b| ==> p[at + i] == b[i]
  }

  /** Adjacent pieces, read apart. */
  lemma WrittenSplit(p: seq<byte>, at: nat, a: seq<byte>, b: seq<byte>)
    requires Written(p, at, a + b)
    ensures Written(p, at, a) && Written(p, at + |a|, b)
  {
    var c := a + b;
    assert forall i :: 0 <= i < |a| ==> c[i] == a[i];
    assert forall i :: 0 <= i < |b| ==> c[i + |a|] == b[i] && p[at + (i + |a|)] == c[i + |a|];
  }
}
