/** Byte strings and the fixed-width big-endian integers both wire formats use. */
module Bytes {

  type byte = x: int | 0 <= x < 256
  type bytes = seq<byte>

  const TWO_TO_32: nat := 0x1_0000_0000
  const TWO_TO_64: nat := 0x1_0000_0000_0000_0000

  type uint64 = x: int | 0 <= x < 0x1_0000_0000_0000_0000
  type int64 = x: int | -0x8000_0000_0000_0000 <= x < 0x8000_0000_0000_0000

  /** The low `width` bytes of `n`, most significant first. */
  function BigEndian(n: nat, width: nat): (bs: bytes)
    ensures |bs| == width
  {
    if width == 0 then [] else BigEndian(n / 256, width - 1) + [n % 256]
  }

  function FromBigEndian(bs: bytes): nat {
    if bs == [] then 0 else FromBigEndian(bs[..|bs| - 1]) * 256 + bs[|bs| - 1]
  }

  function Capacity(width: nat): (c: nat)
    ensures c > 0
  {
    if width == 0 then 1 else 256 * Capacity(width - 1)
  }

  lemma {:induction false} BigEndianRoundTrip(n: nat, width: nat)
    requires n < Capacity(width)
    ensures FromBigEndian(BigEndian(n, width)) == n
  {
    if width > 0 {
      BigEndianRoundTrip(n / 256, width - 1);
      assert BigEndian(n, width)[..width - 1] == BigEndian(n / 256, width - 1);
    }
  }

  lemma Capacities()
    ensures Capacity(4) == TWO_TO_32
    ensures Capacity(8) == TWO_TO_64
  {
    assert Capacity(4) == 256 * Capacity(3) == 256 * (256 * Capacity(2));
    assert Capacity(8) == 256 * Capacity(7) == 256 * (256 * Capacity(6));
    assert Capacity(6) == 256 * Capacity(5) == 256 * (256 * Capacity(4));
  }

  /** Every byte is worth 256 times the one behind it. */
  lemma {:induction false} BigEndianBytes(n: nat, width: nat)
    ensures forall i | 0 <= i < width :: BigEndian(n, width)[i] == n / Capacity(width - 1 - i) % 256
  {
    if width > 0 {
      BigEndianBytes(n / 256, width - 1);
      forall i | 0 <= i < width ensures BigEndian(n, width)[i] == n / Capacity(width - 1 - i) % 256 {
        if i < width - 1 {
          DivDiv(n, Capacity(width - 2 - i));
        }
      }
    }
  }

  lemma FourBigEndian(n: nat)
    requires n < TWO_TO_32
    ensures BigEndian(n, 4) == [n / 0x100_0000, n / 0x1_0000 % 0x100, n / 0x100 % 0x100, n % 0x100]
  {
    BigEndianBytes(n, 4);
    hide BigEndian;
    assert Capacity(0) == 1 && Capacity(1) == 0x100 && Capacity(2) == 0x1_0000 && Capacity(3) == 0x100_0000;
  }

  lemma DivDiv(n: nat, k: nat)
    requires k > 0
    ensures n / 256 / k == n / (256 * k)
  {
    var q := n / 256 / k;
    assert 256 * k * q <= n < 256 * k * (q + 1);
    Quotient(n, 256 * k, q);
  }

  lemma Quotient(n: nat, d: nat, q: nat)
    requires d > 0 && d * q <= n < d * (q + 1)
    ensures n / d == q
  {
    var r := n / d;
    assert d * r <= n < d * (r + 1);
    if r < q {
      Scaled(d, r + 1, q);
    } else if q < r {
      Scaled(d, q + 1, r);
    }
  }

  lemma Scaled(d: nat, a: nat, b: nat)
    requires a <= b
    ensures d * a <= d * b
  {
  }

  /** Big-endian encodings of the same width agree only on the same number. */
  lemma BigEndianInjective(m: nat, n: nat, width: nat)
    requires m < Capacity(width) && n < Capacity(width)
    requires BigEndian(m, width) == BigEndian(n, width)
    ensures m == n
  {
    BigEndianRoundTrip(m, width);
    BigEndianRoundTrip(n, width);
  }
}
