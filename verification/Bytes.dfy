/** Bytes, fixed-width integers and their wire forms, shared by every codec. */
module Bytes {
  type byte = b: int | 0 <= b < 0x100
  type u64 = n: int | 0 <= n < 0x1_0000_0000_0000_0000
  type i64 = n: int | -0x8000_0000_0000_0000 <= n < 0x8000_0000_0000_0000

  datatype Option<+T> = None | Some(value: T)

  /** A growable byte buffer, the `Vec<u8>` every encoder appends to. */
  class Buffer {
    var bytes: seq<byte>

    constructor ()
      ensures bytes == []
    {
      bytes := [];
    }

    method Push(b: byte)
      modifies this
      ensures bytes == old(bytes) + [b]
    {
      bytes := bytes + [b];
    }

    method Extend(s: seq<byte>)
      modifies this
      ensures bytes == old(bytes) + s
    {
      bytes := bytes + s;
    }
  }

  /** 256 to the power `w`: how many values `w` bytes can hold. */
  function Pow256(w: nat): (p: nat)
    ensures p > 0
  {
    if w == 0 then 1 else 256 * Pow256(w - 1)
  }

  lemma Pow256Values()
    ensures Pow256(0) == 1 && Pow256(1) == 0x100 && Pow256(2) == 0x1_0000
    ensures Pow256(3) == 0x100_0000 && Pow256(4) == 0x1_0000_0000
    ensures Pow256(8) == 0x1_0000_0000_0000_0000
  {
    assert Pow256(4) == 256 * Pow256(3) == 0x1_0000_0000;
    assert Pow256(6) == 256 * Pow256(5) == 256 * 256 * Pow256(4);
    assert Pow256(8) == 256 * Pow256(7) == 256 * 256 * Pow256(6);
  }

  lemma {:induction false} Pow256Mono(a: nat, b: nat)
    requires a <= b
    ensures Pow256(a) <= Pow256(b)
  {
    if a < b {
      Pow256Mono(a, b - 1);
    }
  }

  /** The low `w` bytes of `n`, least significant first (a truncating cast, then `to_le_bytes`). */
  function LE(n: nat, w: nat): (s: seq<byte>)
    ensures |s| == w
  {
    if w == 0 then [] else [n % 256] + LE(n / 256, w - 1)
  }

  function FromLE(s: seq<byte>): nat {
    if s == [] then 0 else s[0] + 256 * FromLE(s[1..])
  }

  /** The low `w` bytes of `n`, most significant first (`to_be_bytes`). */
  function BE(n: nat, w: nat): (s: seq<byte>)
    ensures |s| == w
  {
    if w == 0 then [] else BE(n / 256, w - 1) + [n % 256]
  }

  function FromBE(s: seq<byte>): nat {
    if s == [] then 0 else 256 * FromBE(s[..|s| - 1]) + s[|s| - 1]
  }

  lemma {:induction false} LERoundTrip(n: nat, w: nat)
    requires n < Pow256(w)
    ensures FromLE(LE(n, w)) == n
  {
    if w > 0 {
      LERoundTrip(n / 256, w - 1);
      assert LE(n, w)[1..] == LE(n / 256, w - 1);
    }
  }

  lemma {:induction false} BERoundTrip(n: nat, w: nat)
    requires n < Pow256(w)
    ensures FromBE(BE(n, w)) == n
  {
    if w > 0 {
      BERoundTrip(n / 256, w - 1);
      assert BE(n, w)[..w - 1] == BE(n / 256, w - 1);
    }
  }

  /** Little-endian: a byte further on weighs 256 times more. */
  lemma {:induction false} LastByteWeighsMost(s: seq<byte>, b: byte)
    ensures FromLE(s + [b]) == FromLE(s) + Pow256(|s|) * b
  {
    if s == [] {
      assert [] + [b] == [b];
    } else {
      assert (s + [b])[1..] == s[1..] + [b];
      LastByteWeighsMost(s[1..], b);
      Regroup(Pow256(|s| - 1), b);
    }
  }

  /** Big-endian: the other way round. */
  lemma {:induction false} FirstByteWeighsMost(b: byte, s: seq<byte>)
    ensures FromBE([b] + s) == Pow256(|s|) * b + FromBE(s)
  {
    if s == [] {
      assert [b] + [] == [b];
      assert [b][..0] == [];
    } else {
      assert ([b] + s)[..|s|] == [b] + s[..|s| - 1];
      FirstByteWeighsMost(b, s[..|s| - 1]);
      Regroup(Pow256(|s| - 1), b);
    }
  }

  lemma Regroup(p: nat, b: nat)
    ensures 256 * (p * b) == 256 * p * b
  {}

  lemma {:induction false} FromLEBound(s: seq<byte>)
    ensures FromLE(s) < Pow256(|s|)
  {
    if s != [] {
      FromLEBound(s[1..]);
    }
  }

  lemma {:induction false} FromBEBound(s: seq<byte>)
    ensures FromBE(s) < Pow256(|s|)
  {
    if s != [] {
      FromBEBound(s[..|s| - 1]);
    }
  }

  /** `v` fits a signed integer of `w` bytes. */
  predicate FitsSigned(v: int, w: nat) {
    0 <= 2 * v + Pow256(w) && 2 * v < Pow256(w)
  }

  /** The two's complement pattern of `v` in `w` bytes, as an `as i..` cast leaves it in memory. */
  function Wrap(v: int, w: nat): (n: nat)
    requires FitsSigned(v, w)
    ensures n < Pow256(w) && Signed(n, w) == v
  {
    if v < 0 then v + Pow256(w) else v
  }

  /** Reading a `w`-byte pattern back as a signed number. */
  function Signed(n: nat, w: nat): int {
    if 2 * n < Pow256(w) then n else n - Pow256(w)
  }

  /** Negative numbers stand for themselves plus a power of 256: casts to unsigned drop whole powers. */
  lemma WrapIsModular(v: int, w: nat)
    requires FitsSigned(v, w)
    ensures Wrap(v, w) == v % Pow256(w)
  {
    hide Pow256;
    Remainder(v, Pow256(w));
  }

  lemma Remainder(v: int, m: int)
    requires -m < v < m
    ensures v % m == if v < 0 then v + m else v
  {
    var q := v / m;
    assert v == q * m + v % m;
  }
}
