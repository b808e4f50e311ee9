/** Big-endian numbers of a fixed number of bytes. */
module NetworkOrder {
  import opened Bits
  import opened Wire

  function BigEndian(bs: seq<byte>): (v: nat)
    ensures v < Shl(1, 8 * |bs|)
  {
    if bs == [] then 0
    else
      BigEndianStep(BigEndian(bs[..|bs| - 1]), bs[|bs| - 1], 8 * |bs| - 8);
      256 * BigEndian(bs[..|bs| - 1]) + bs[|bs| - 1]
  }

  lemma BigEndianStep(high: nat, low: byte, n: nat)
    requires high < Shl(1, n)
    ensures 256 * high + low < Shl(1, n + 8)
  {
    ShlShl(1, n, 8);
    Shl8(Shl(1, n));
  }

  /** The low `n` bytes of `v`, most significant first. */
  function Bytes(v: nat, n: nat): (bs: seq<byte>)
    ensures |bs| == n
  {
    if n == 0 then [] else Bytes(v / 256, n - 1) + [v % 256]
  }

  lemma {:induction false} BytesRoundTrip(v: nat, n: nat)
    requires v < Shl(1, 8 * n)
    ensures BigEndian(Bytes(v, n)) == v
  {
    if n > 0 {
      ShlShl(1, 8 * n - 8, 8);
      Shl8(Shl(1, 8 * n - 8));
      BytesRoundTrip(v / 256, n - 1);
      assert Bytes(v, n)[..n - 1] == Bytes(v / 256, n - 1);
    }
  }

  /** Each byte is a digit, the most significant first. */
  lemma {:induction false} BytesDigits(v: nat, n: nat, i: nat)
    requires i < n
    ensures Bytes(v, n)[i] == v / Power256(n - 1 - i) % 256
    decreases n
  {
    if i < n - 1 {
      BytesDigits(v / 256, n - 1, i);
      DivTwice(v, Power256(n - 2 - i));
    }
  }

  /** And so it is in what they are read as. */
  lemma {:induction false} BigEndianDigits(bs: seq<byte>)
    requires bs != []
    ensures BigEndian(bs) == bs[0] * Power256(|bs| - 1) + BigEndian(bs[1..])
  {
    var n := |bs| - 1;
    if n > 0 {
      BigEndianDigits(bs[..n]);
      assert bs[..n][1..] == bs[1..][..n - 1] && bs[1..][n - 1] == bs[n];
      DigitUp(bs[0], Power256(n - 1));
    } else {
      assert bs[1..] == [] && bs[..0] == [];
    }
  }

  lemma DigitUp(a: nat, p: nat)
    ensures 256 * (a * p) == a * (256 * p)
  {
  }

  function Word16(high: byte, low: byte): nat {
    256 * (high as int) + low as int
  }

  function Word24(high: byte, middle: byte, low: byte): nat {
    65536 * (high as int) + 256 * (middle as int) + low as int
  }

  lemma Pair(v: nat)
    ensures Bytes(v, 2) == [v / 256 % 256, v % 256]
    ensures Word16(v / 256 % 256, v % 256) == v % 65536
  {
    assert Bytes(v / 256, 1) == [v / 256 % 256];
  }

  lemma Triple(v: nat)
    ensures Bytes(v, 3) == [v / 65536 % 256, v / 256 % 256, v % 256]
    ensures v < 16777216 ==> Word24(v / 65536 % 256, v / 256 % 256, v % 256) == v
  {
    Pair(v / 256);
  }

  lemma ReadPair(bs: seq<byte>)
    requires |bs| == 2
    ensures BigEndian(bs) == Word16(bs[0], bs[1])
  {
    assert bs[..1] == [bs[0]] && bs[..1][..0] == [];
  }

  lemma ReadTriple(bs: seq<byte>)
    requires |bs| == 3
    ensures BigEndian(bs) == Word24(bs[0], bs[1], bs[2])
  {
    ReadPair(bs[..2]);
  }

  lemma {:induction false} BigEndianInjective(a: seq<byte>, b: seq<byte>)
    requires |a| == |b| && BigEndian(a) == BigEndian(b)
    ensures a == b
  {
    if a != [] {
      var n := |a| - 1;
      BigEndianInjective(a[..n], b[..n]);
      assert a == a[..n] + [a[n]] && b == b[..n] + [b[n]];
    }
  }

  lemma Words()
    ensures Shl(1, 8) == 256 && Shl(1, 16) == 65536 && Shl(1, 24) == 16777216
  {
    Shl8(1);
    Shl8(256);
    Shl8(65536);
    ShlShl(1, 8, 8);
    ShlShl(1, 16, 8);
  }
}
