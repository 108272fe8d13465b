/** Little-endian integers and slices of byte strings. */
module Bytes {

  type byte = b: int | 0 <= b < 256

  /** 256 to the power `k`. */
  function Pow256(k: nat): (p: nat)
    ensures p > 0
  {
    if k == 0 then 1 else 256 * Pow256(k - 1)
  }

  /** The `k` bytes of `n`, lowest first. */
  function Pack(n: nat, k: nat): (bs: seq<byte>)
    ensures |bs| == k
    decreases k
  {
    if k == 0 then [] else [n % 256] + Pack(n / 256, k - 1)
  }

  function Unpack(bs: seq<byte>): nat {
    if bs == [] then 0 else bs[0] + 256 * Unpack(bs[1..])
  }

  lemma {:induction false} UnpackPack(n: nat, k: nat)
    requires n < Pow256(k)
    ensures Unpack(Pack(n, k)) == n
    decreases k
  {
    if k > 0 {
      assert n / 256 < Pow256(k - 1);
      UnpackPack(n / 256, k - 1);
      assert Pack(n, k)[1..] == Pack(n / 256, k - 1);
    }
  }

  /** Two's complement in `k` bytes. */
  function PackSigned(n: int, k: nat): (bs: seq<byte>)
    requires FitsSigned(n, k)
    ensures |bs| == k
  {
    Pack(if n < 0 then n + Pow256(k) else n, k)
  }

  function UnpackSigned(bs: seq<byte>): int {
    if 2 * Unpack(bs) >= Pow256(|bs|) then Unpack(bs) - Pow256(|bs|) else Unpack(bs)
  }

  predicate FitsSigned(n: int, k: nat) {
    0 - Pow256(k) <= 2 * n < Pow256(k)
  }

  lemma UnpackPackSigned(n: int, k: nat)
    requires FitsSigned(n, k)
    ensures UnpackSigned(PackSigned(n, k)) == n
  {
    UnpackPack(if n < 0 then n + Pow256(k) else n, k);
  }

  /** `w` stands at `pos` in `bs`. */
  ghost predicate HoldsAt(bs: seq<byte>, pos: nat, w: seq<byte>) {
    pos + |w| <= |bs| && bs[pos..pos + |w|] == w
  }

  lemma HoldsBoth(bs: seq<byte>, pos: nat, a: seq<byte>, b: seq<byte>)
    requires HoldsAt(bs, pos, a + b)
    ensures HoldsAt(bs, pos, a) && HoldsAt(bs, pos + |a|, b)
  {
    var w := bs[pos..pos + |a + b|];
    assert bs[pos..pos + |a|] == w[..|a|] == a;
    assert bs[pos + |a|..pos + |a| + |b|] == w[|a|..] == b;
  }

  function Zeros(n: nat): (bs: seq<byte>)
    ensures |bs| == n
  {
    seq(n, _ => 0)
  }

  lemma Assoc(a: seq<byte>, b: seq<byte>, c: seq<byte>)
    ensures (a + b) + c == a + (b + c)
  {
  }

  /** The lowest byte comes first. */
  lemma PackLowFirst(low: nat, high: nat, k: nat)
    requires low < 256
    ensures Pack(low + 256 * high, k + 1) == [low] + Pack(high, k)
  {
  }

  /** Small numbers, in four and in eight bytes, and -1. */
  lemma PackSmall(n: nat)
    requires n < 256
    ensures Pack(n, 4) == [n, 0, 0, 0] && Pack(n, 8) == [n, 0, 0, 0, 0, 0, 0, 0]
  {
    PackLowFirst(n, 0, 7);
    PackLowFirst(n, 0, 3);
    PackZero(3);
    PackZero(7);
    assert Nulls(3) == [0, 0, 0] && Nulls(7) == [0, 0, 0, 0, 0, 0, 0];
  }

  function Nulls(k: nat): seq<byte> {
    seq(k, _ => 0)
  }

  lemma {:induction false} PackZero(k: nat)
    ensures Pack(0, k) == Nulls(k)
  {
    if k > 0 {
      PackZero(k - 1);
      PackLowFirst(0, 0, k - 1);
      assert Nulls(k) == [0] + Nulls(k - 1);
    }
  }

  lemma PowersOf256()
    ensures Pow256(0) == 1 && Pow256(1) == 0x100 && Pow256(2) == 0x1_0000 && Pow256(3) == 0x100_0000
  {
    assert Pow256(1) == 256 * Pow256(0) && Pow256(2) == 256 * Pow256(1) && Pow256(3) == 256 * Pow256(2);
  }
}
