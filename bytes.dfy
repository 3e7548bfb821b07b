/** Bytes and the multi-byte integer packings used on the wire. */
module Bytes {

  /** An octet, as `uint8_t` holds it. */
  type byte = x: int | 0 <= x < 256

  datatype Option<+T> = None | Some(value: T)

  /** `n` zero bytes. */
  function Zeros(n: nat): seq<byte>
  {
    seq(n, _ => 0)
  }

  function Pow256(n: nat): (r: nat)
    ensures r >= 1
  {
    if n == 0 then 1 else 256 * Pow256(n - 1)
  }

  /** The `n` low-order bytes of `x`, least significant first (`byte_0(x)`, `byte_1(x)`, ...). */
  function LeBytes(x: nat, n: nat): (r: seq<byte>)
    ensures |r| == n
  {
    if n == 0 then [] else [x % 256] + LeBytes(x / 256, n - 1)
  }

  /** The value of a little-endian byte run (`b0 | b1 << 8 | b2 << 16 ...`). */
  function FromLe(bs: seq<byte>): (r: nat)
    ensures r < Pow256(|bs|)
  {
    if bs == [] then 0 else bs[0] + 256 * FromLe(bs[1..])
  }

  /** The `n` low-order bytes of `x`, most significant first. */
  function BeBytes(x: nat, n: nat): (r: seq<byte>)
    ensures |r| == n
  {
    if n == 0 then [] else BeBytes(x / 256, n - 1) + [x % 256]
  }

  /** The value of a big-endian byte run (`b0 << 16 | b1 << 8 | b2` for three bytes). */
  function FromBe(bs: seq<byte>): (r: nat)
    ensures r < Pow256(|bs|)
  {
    if bs == [] then 0 else 256 * FromBe(bs[..|bs| - 1]) + bs[|bs| - 1]
  }

  lemma {:induction false} FromLeOfLeBytes(x: nat, n: nat)
    requires x < Pow256(n)
    ensures FromLe(LeBytes(x, n)) == x
  {
    if n > 0 {
      FromLeOfLeBytes(x / 256, n - 1);
      assert LeBytes(x, n)[1..] == LeBytes(x / 256, n - 1);
    }
  }

  lemma {:induction false} LeBytesOfFromLe(bs: seq<byte>)
    ensures LeBytes(FromLe(bs), |bs|) == bs
  {
    if bs != [] {
      LeBytesOfFromLe(bs[1..]);
      var x := FromLe(bs);
      assert x % 256 == bs[0] && x / 256 == FromLe(bs[1..]);
      assert bs == [bs[0]] + bs[1..];
    }
  }

  lemma {:induction false} FromBeOfBeBytes(x: nat, n: nat)
    requires x < Pow256(n)
    ensures FromBe(BeBytes(x, n)) == x
  {
    if n > 0 {
      FromBeOfBeBytes(x / 256, n - 1);
      var bs := BeBytes(x, n);
      assert bs[..n - 1] == BeBytes(x / 256, n - 1);
    }
  }

  lemma {:induction false} BeBytesOfFromBe(bs: seq<byte>)
    ensures BeBytes(FromBe(bs), |bs|) == bs
  {
    if bs != [] {
      var n := |bs|;
      BeBytesOfFromBe(bs[..n - 1]);
      var x := FromBe(bs);
      assert x % 256 == bs[n - 1] && x / 256 == FromBe(bs[..n - 1]);
      assert bs == bs[..n - 1] + [bs[n - 1]];
    }
  }

  /** Two bytes little-endian are the `byte_0`/`byte_1` split of a 16-bit value. */
  lemma LeBytes2(x: nat)
    requires x < 0x1_0000
    ensures LeBytes(x, 2) == [x % 256, x / 256]
  {
    assert LeBytes(x, 2) == [x % 256] + LeBytes(x / 256, 1);
  }

  /** Four bytes little-endian are the `byte_0` .. `byte_3` split of a 32-bit value. */
  lemma LeBytes4(x: nat)
    requires x < 0x1_0000_0000
    ensures LeBytes(x, 4) == [x % 256, x / 256 % 256, x / 0x1_0000 % 256, x / 0x100_0000]
  {
    assert LeBytes(x, 4) == [x % 256] + LeBytes(x / 256, 3);
    assert LeBytes(x / 256, 3) == [x / 256 % 256] + LeBytes(x / 256 / 256, 2);
    assert LeBytes(x / 256 / 256, 2) == [x / 256 / 256 % 256] + LeBytes(x / 256 / 256 / 256, 1);
    assert x / 256 / 256 == x / 0x1_0000;
    assert x / 256 / 256 / 256 == x / 0x100_0000;
  }
}
