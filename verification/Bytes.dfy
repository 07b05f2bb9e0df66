/** Byte memories and little-endian words, shared by the allocator and the Y86-64 models. */
module Bytes {

  type byte = x: int | 0 <= x < 256

  /** Conversion to a 32-bit int: the number with the same 32 low bits. */
  function ToInt(x: int): int {
    var r := x % 0x1_0000_0000;
    if r < 0x8000_0000 then r else r - 0x1_0000_0000
  }

  const MAX_INT := 0x7FFF_FFFF

  function Pow2(n: nat): (r: nat)
    ensures r > 0
  {
    if n == 0 then 1 else 2 * Pow2(n - 1)
  }

  /** `x` shifted right by `n` bits. */
  function Shift(x: nat, n: nat): nat {
    if n == 0 then x else Shift(x / 2, n - 1)
  }

  /** The number whose bytes, least significant first, are `s`. */
  function LittleEndian(s: seq<byte>): nat {
    if s == [] then 0 else s[0] + 256 * LittleEndian(s[1..])
  }

  /** The `n` low-order bytes of `v`, least significant first. For a negative number they are those of its
      two's complement: what storing a byte and shifting right arithmetically yields. */
  function Encode(v: int, n: nat): (s: seq<byte>)
    ensures |s| == n
    decreases n
  {
    if n == 0 then [] else [v % 256] + Encode(v / 256, n - 1)
  }

  function Pow256(n: nat): (r: nat)
    ensures r > 0
  {
    if n == 0 then 1 else 256 * Pow256(n - 1)
  }

  /** Only the low-order bytes matter. */
  lemma {:induction false} EncodeWraps(v: int, n: nat)
    ensures Encode(v + Pow256(n), n) == Encode(v, n)
    decreases n
  {
    if n > 0 {
      assert (v + Pow256(n)) / 256 == v / 256 + Pow256(n - 1) && (v + Pow256(n)) % 256 == v % 256;
      EncodeWraps(v / 256, n - 1);
    }
  }

  lemma {:induction false} DecodeEncode(v: nat, n: nat)
    requires v < Pow256(n)
    ensures LittleEndian(Encode(v, n)) == v
  {
    if n > 0 {
      DecodeEncode(v / 256, n - 1);
      assert Encode(v, n)[1..] == Encode(v / 256, n - 1);
    }
  }

  lemma {:induction false} EncodeDecode(s: seq<byte>)
    ensures LittleEndian(s) < Pow256(|s|)
    ensures Encode(LittleEndian(s), |s|) == s
  {
    if s != [] {
      EncodeDecode(s[1..]);
      var v := LittleEndian(s);
      assert v % 256 == s[0] && v / 256 == LittleEndian(s[1..]);
      assert [s[0]] + s[1..] == s;
    }
  }

  /** `m` with the bytes `s` written at address `p`. */
  function Splice(m: seq<byte>, p: nat, s: seq<byte>): (r: seq<byte>)
    requires p + |s| <= |m|
    ensures |r| == |m| && r[p..p + |s|] == s
    ensures SameOutside(m, r, p, p + |s|)
  {
    m[..p] + s + m[p + |s|..]
  }

  /** The memories agree on every byte outside [lo, hi). */
  ghost predicate SameOutside(m: seq<byte>, n: seq<byte>, lo: int, hi: int) {
    |n| == |m| && forall i :: 0 <= i < |m| && !(lo <= i < hi) ==> n[i] == m[i]
  }
}
