// Byte strings and the fixed-width big-endian integers every frame of the
// pipeline is built from (Go's encoding/binary.BigEndian).
module Bytes {
  type byte = x: int | 0 <= x < 256

  type Bytes = seq<byte>

  datatype Option<+T> = None | Some(value: T) {
    function GetOr(default: T): T {
      if Some? then value else default
    }
  }

  const U16_LIMIT: nat := 0x1_0000
  const U32_LIMIT: nat := 0x1_0000_0000
  const U64_LIMIT: nat := 0x1_0000_0000_0000_0000

  function Pow256(w: nat): (p: nat)
    ensures p > 0
  {
    if w == 0 then 1 else 256 * Pow256(w - 1)
  }

  /** PutUintN: the low `w` bytes of `n`, most significant first. Higher bits are dropped. */
  function BigEndian(n: nat, w: nat): (b: Bytes)
    ensures |b| == w
  {
    seq(w, i requires 0 <= i < w => n / Pow256(w - 1 - i) % 256)
  }

  /** UintN: the number a big-endian byte string stands for. */
  function FromBigEndian(b: Bytes): (n: nat)
    ensures n < Pow256(|b|)
  {
    if b == [] then 0
    else FromBigEndian(b[..|b| - 1]) * 256 + b[|b| - 1]
  }

  /** Widths used by the repository, as limits of the unsigned types. */
  lemma Widths()
    ensures Pow256(2) == U16_LIMIT && Pow256(4) == U32_LIMIT && Pow256(8) == U64_LIMIT
  {
    assert Pow256(2) == 0x1_0000;
    assert Pow256(4) == 0x1_0000 * Pow256(2);
    assert Pow256(6) == 0x1_0000 * Pow256(4);
    assert Pow256(8) == 0x1_0000 * Pow256(6);
  }

  lemma ModOfScaled(n: nat, p: nat)
    requires p > 0
    ensures n % (256 * p) == (n / 256 % p) * 256 + n % 256
  {
    var q, r := n / 256, n % 256;
    var k, m := q / p, q % p;
    var low := m * 256 + r;
    assert q == p * k + m;
    assert 256 * q == 256 * p * k + 256 * m;
    assert n == (256 * p) * k + low;
    assert 0 <= low < 256 * p by {
      assert m <= p - 1;
      assert m * 256 <= (p - 1) * 256;
    }
    DivModUnique(n, 256 * p, k, low);
  }

  lemma MulAtLeast(d: int, k: int)
    requires d > 0 && k >= 1
    ensures d * k >= d
  {
    assert d * k == d + d * (k - 1);
  }

  lemma DivModUnique(n: int, d: int, q: int, r: int)
    requires d > 0 && 0 <= r < d && n == d * q + r
    ensures n / d == q && n % d == r
  {
    var q', r' := n / d, n % d;
    assert n == d * q' + r' && 0 <= r' < d;
    assert d * (q - q') == d * q - d * q' && d * (q' - q) == d * q' - d * q;
    if q > q' {
      MulAtLeast(d, q - q');
    } else if q < q' {
      MulAtLeast(d, q' - q);
    }
  }

  lemma DivDiv(n: nat, p: nat)
    requires p > 0
    ensures n / 256 / p == n / (256 * p)
  {
    var q := n / (256 * p);
    var r := n % (256 * p);
    assert n == (256 * p) * q + r;
    assert n == 256 * (p * q + r / 256) + r % 256;
    DivModUnique(n, 256, p * q + r / 256, r % 256);
    assert r / 256 < p;
    DivModUnique(n / 256, p, q, r / 256);
  }

  /** The last byte holds the low eight bits, the bytes before it the rest. */
  lemma BigEndianStep(n: nat, w: nat)
    requires w > 0
    ensures BigEndian(n, w) == BigEndian(n / 256, w - 1) + [n % 256]
  {
    forall i | 0 <= i < w - 1 ensures BigEndian(n, w)[i] == BigEndian(n / 256, w - 1)[i] {
      assert Pow256(w - 1 - i) == 256 * Pow256(w - 2 - i);
      DivDiv(n, Pow256(w - 2 - i));
    }
    assert Pow256(0) == 1;
  }

  /** Reading back what was written gives the number modulo the width. */
  lemma {:induction false} BigEndianRead(n: nat, w: nat)
    ensures FromBigEndian(BigEndian(n, w)) == n % Pow256(w)
  {
    if w > 0 {
      var b := BigEndian(n, w);
      BigEndianStep(n, w);
      assert b[..|b| - 1] == BigEndian(n / 256, w - 1);
      BigEndianRead(n / 256, w - 1);
      ModOfScaled(n, Pow256(w - 1));
    }
  }

  /** Writing back what was read gives the same bytes, so the encoding of a width is a bijection. */
  lemma {:induction false} BigEndianWrite(b: Bytes)
    ensures BigEndian(FromBigEndian(b), |b|) == b
  {
    if b != [] {
      var hi, lo := b[..|b| - 1], b[|b| - 1];
      DivModUnique(FromBigEndian(b), 256, FromBigEndian(hi), lo);
      BigEndianWrite(hi);
      BigEndianStep(FromBigEndian(b), |b|);
      assert hi + [lo] == b;
    }
  }

  lemma U64RoundTrip(n: nat)
    ensures FromBigEndian(BigEndian(n, 8)) == n % U64_LIMIT
  {
    BigEndianRead(n, 8);
    Widths();
  }

  lemma U32RoundTrip(n: nat)
    ensures FromBigEndian(BigEndian(n, 4)) == n % U32_LIMIT
  {
    BigEndianRead(n, 4);
    Widths();
  }

  lemma U16RoundTrip(n: nat)
    ensures FromBigEndian(BigEndian(n, 2)) == n % U16_LIMIT
  {
    BigEndianRead(n, 2);
    Widths();
  }

  lemma U64Exact(n: nat)
    requires n < U64_LIMIT
    ensures FromBigEndian(BigEndian(n, 8)) == n
  {
    U64RoundTrip(n);
  }

  lemma U32Exact(n: nat)
    requires n < U32_LIMIT
    ensures FromBigEndian(BigEndian(n, 4)) == n
  {
    U32RoundTrip(n);
  }

  lemma U16Exact(n: nat)
    requires n < U16_LIMIT
    ensures FromBigEndian(BigEndian(n, 2)) == n
  {
    U16RoundTrip(n);
  }
}
