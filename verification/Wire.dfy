/** The Protocol Buffers wire format as nanopb reads and writes it: base-128
    varints, zigzag integers, little-endian words and field keys.

    Bytes and words are integers in range.  Where the C code or-s together bits
    that cannot overlap, the model adds; where it shifts a word, the model
    multiplies or divides and then reduces modulo the word size. */
module Wire {
  import opened Wrappers
  import opened Bits

  type byte = b: int | 0 <= b < 256

  const TWO_32: int := 0x1_0000_0000
  const TWO_64: int := 0x1_0000_0000_0000_0000

  lemma ShlWords()
    ensures Shl(1, 32) == TWO_32 && Shl(1, 64) == TWO_64
  {
    Shl8(1);
    ShlShl(1, 8, 8);
    Shl8(Shl(1, 8));
    ShlShl(1, 16, 8);
    Shl8(Shl(1, 16));
    ShlShl(1, 24, 8);
    Shl8(Shl(1, 24));
    ShlShl(1, 32, 8);
    Shl8(Shl(1, 32));
    ShlShl(1, 40, 8);
    Shl8(Shl(1, 40));
    ShlShl(1, 48, 8);
    Shl8(Shl(1, 48));
    ShlShl(1, 56, 8);
    Shl8(Shl(1, 56));
  }

  // ----- varints

  /** The bytes of a varint: seven bits a byte, low groups first. */
  function VarintBytes(v: nat): (bs: seq<byte>)
    ensures |bs| > 0
  {
    if v < 128 then [v] else [128 + v % 128] + VarintBytes(v / 128)
  }

  /** What reading a varint leaves: a value and the unread bytes, or only the
      unread bytes, when the stream ended or the value was too long. */
  datatype Parse = Parsed(value: nat, rest: seq<byte>) | Failed(rest: seq<byte>)

  /** The number of values of a 32-bit word, or of a 64-bit word when `wide`. */
  function Limit(wide: bool): nat {
    if wide then TWO_64 else TWO_32
  }

  function Width(wide: bool): nat {
    if wide then 64 else 32
  }

  /** Reads groups into a word, the next group going to bit `pos`. */
  function VarintFrom(bs: seq<byte>, pos: nat, acc: nat, wide: bool): (r: Parse)
    ensures |r.rest| <= |bs|
    ensures r.Parsed? ==> |r.rest| < |bs| && r.value < Limit(wide)
    decreases |bs|
  {
    if pos >= Width(wide) || bs == [] then Failed(bs)
    else
      var acc' := (acc + Shl(bs[0] % 128, pos)) % Limit(wide);
      if bs[0] < 128 then Parsed(acc', bs[1..])
      else VarintFrom(bs[1..], pos + 7, acc', wide)
  }

  function ReadVarint(bs: seq<byte>): Parse {
    VarintFrom(bs, 0, 0, true)
  }

  function ReadVarint32(bs: seq<byte>): Parse {
    VarintFrom(bs, 0, 0, false)
  }

  /** Reading from the middle of a value: a group that starts at bit `pos`. */
  lemma {:induction false} VarintFromBytes(v: nat, rest: seq<byte>, pos: nat, acc: nat, wide: bool)
    requires v > 0 || pos == 0
    requires acc + Shl(v, pos) < Limit(wide)
    ensures VarintFrom(VarintBytes(v) + rest, pos, acc, wide) == Parsed(acc + Shl(v, pos), rest)
    decreases v
  {
    hide VarintFrom, VarintBytes, Shl;
    if v < 128 {
      LastGroup(v, rest, pos, acc, wide);
    } else {
      PosBelowWidth(v, pos, acc, wide);
      MoreGroups(v, rest, pos, acc, wide);
      GroupSplit(v, pos);
      VarintFromBytes(v / 128, rest, pos + 7, acc + Shl(v % 128, pos), wide);
    }
  }

  lemma LastGroup(v: nat, rest: seq<byte>, pos: nat, acc: nat, wide: bool)
    requires v < 128 && (v > 0 || pos == 0) && acc + Shl(v, pos) < Limit(wide)
    ensures VarintFrom(VarintBytes(v) + rest, pos, acc, wide) == Parsed(acc + Shl(v, pos), rest)
  {
    PosBelowWidth(v, pos, acc, wide);
    GroupRead(v, v, rest, pos, acc, wide);
  }

  lemma MoreGroups(v: nat, rest: seq<byte>, pos: nat, acc: nat, wide: bool)
    requires v >= 128 && pos < Width(wide)
    requires acc + Shl(v, pos) < Limit(wide)
    ensures VarintFrom(VarintBytes(v) + rest, pos, acc, wide) ==
            VarintFrom(VarintBytes(v / 128) + rest, pos + 7, acc + Shl(v % 128, pos), wide)
  {
    var low, tail := v % 128, VarintBytes(v / 128) + rest;
    assert VarintBytes(v) + rest == [128 + low] + tail;
    GroupSplit(v, pos);
    GroupRead(128 + low, low, tail, pos, acc, wide);
  }

  lemma GroupSplit(v: nat, pos: nat)
    ensures Shl(v, pos) == Shl(v % 128, pos) + Shl(v / 128, pos + 7)
  {
    ShlAdd(v % 128, 128 * (v / 128), pos);
    Shl7(v / 128, pos);
  }

  /** One step of the reader, when the group read does not overflow the word. */
  lemma GroupRead(b: byte, group: nat, bs: seq<byte>, pos: nat, acc: nat, wide: bool)
    requires pos < Width(wide) && (b == group || b == 128 + group) && group < 128
    requires acc + Shl(group, pos) < Limit(wide)
    ensures VarintFrom([b] + bs, pos, acc, wide) ==
            if b < 128 then Parsed(acc + Shl(group, pos), bs)
            else VarintFrom(bs, pos + 7, acc + Shl(group, pos), wide)
  {
    assert ([b] + bs)[1..] == bs;
    assert b % 128 == group;
    SmallMod(acc + Shl(group, pos), Limit(wide));
  }

  lemma SmallMod(x: nat, m: nat)
    requires x < m
    ensures x % m == x
  {
  }

  lemma PosBelowWidth(v: nat, pos: nat, acc: nat, wide: bool)
    requires v > 0 || pos == 0
    requires acc + Shl(v, pos) < Limit(wide)
    ensures pos < Width(wide)
  {
    ShlWords();
    if pos >= Width(wide) {
      ShlMonotonic(1, v, Width(wide), pos);
    }
  }

  /** Every word survives the varint encoding, and reading stops at its last byte. */
  lemma VarintRoundTrip(v: nat, rest: seq<byte>)
    requires v < TWO_64
    ensures ReadVarint(VarintBytes(v) + rest) == Parsed(v, rest)
  {
    VarintFromBytes(v, rest, 0, 0, true);
  }

  lemma Varint32RoundTrip(v: nat, rest: seq<byte>)
    requires v < TWO_32
    ensures ReadVarint32(VarintBytes(v) + rest) == Parsed(v, rest)
  {
    VarintFromBytes(v, rest, 0, 0, false);
  }

  /** Wherever the 32-bit reader succeeds it agrees with the 64-bit one modulo 2^32 and
      stops at the same byte. */
  lemma {:induction false} Varint32IsTruncation(bs: seq<byte>, pos: nat, acc32: nat, acc64: nat)
    requires acc32 == acc64 % TWO_32
    requires VarintFrom(bs, pos, acc32, false).Parsed?
    ensures VarintFrom(bs, pos, acc64, true).Parsed?
    ensures VarintFrom(bs, pos, acc32, false).value == VarintFrom(bs, pos, acc64, true).value % TWO_32
    ensures VarintFrom(bs, pos, acc32, false).rest == VarintFrom(bs, pos, acc64, true).rest
    decreases |bs|
  {
    var group := Shl(bs[0] % 128, pos);
    TruncatedSum(acc32, acc64, group);
    if bs[0] >= 128 {
      Varint32IsTruncation(bs[1..], pos + 7, (acc32 + group) % TWO_32, (acc64 + group) % TWO_64);
    }
  }

  lemma TruncatedSum(a32: nat, a64: nat, g: nat)
    requires a32 == a64 % TWO_32
    ensures (a32 + g) % TWO_32 == ((a64 + g) % TWO_64) % TWO_32
  {
  }

  lemma ReadVarint32IsTruncation(bs: seq<byte>)
    requires ReadVarint32(bs).Parsed?
    ensures ReadVarint(bs).Parsed? && ReadVarint(bs).rest == ReadVarint32(bs).rest
    ensures ReadVarint32(bs).value == ReadVarint(bs).value % TWO_32
  {
    Varint32IsTruncation(bs, 0, 0, 0);
  }

  /** The scratch buffer of pb_encode_varint is big enough for any word. */
  lemma {:induction false} VarintLength(v: nat, groups: nat)
    requires groups > 0 && v < Shl(1, 7 * groups)
    ensures |VarintBytes(v)| <= groups
    decreases groups
  {
    assert Shl(1, 0) == 1;
    Shl7(1, 0);
    Shl7(1, 7 * groups - 7);
    if v >= 128 {
      ShlShl(1, 7 * groups - 7, 7);
      Shl7(Shl(1, 7 * groups - 7), 0);
      VarintLength(v / 128, groups - 1);
    }
  }

  lemma VarintFitsBuffer(v: nat)
    requires v < TWO_64
    ensures |VarintBytes(v)| <= 10
  {
    ShlWords();
    ShlMonotonic(1, 1, 64, 70);
    VarintLength(v, 10);
  }

  // ----- signed words

  /** The two's complement word of a signed 64-bit integer. */
  function ToWord(n: int): (w: nat)
    requires -TWO_64 / 2 <= n < TWO_64 / 2
    ensures w < TWO_64
  {
    if n < 0 then n + TWO_64 else n
  }

  /** The signed integer of `size` bytes that the low bits of a word spell. */
  function SignedOf(w: int, size: nat): (n: int)
    requires size in {1, 2, 4, 8}
    ensures InSigned(n, size)
  {
    var m := Modulus(size);
    if w % m >= m / 2 then w % m - m else w % m
  }

  function Modulus(size: nat): (m: nat)
    requires size in {1, 2, 4, 8}
  {
    if size == 1 then 0x100 else if size == 2 then 0x1_0000
    else if size == 4 then TWO_32 else TWO_64
  }

  predicate InSigned(n: int, size: nat)
    requires size in {1, 2, 4, 8}
  {
    -(Modulus(size) / 2) <= n < Modulus(size) / 2
  }

  predicate InUnsigned(n: int, size: nat)
    requires size in {1, 2, 4, 8}
  {
    0 <= n < Modulus(size)
  }

  lemma SignedOfWord(n: int, size: nat)
    requires size in {1, 2, 4, 8} && InSigned(n, size)
    ensures -TWO_64 / 2 <= n < TWO_64 / 2
    ensures SignedOf(ToWord(n), 8) == n
    ensures size != 8 ==> SignedOf(ToWord(n), 4) == n
    ensures SignedOf(n, size) == n
  {
    WrapsBack(n, Modulus(size));
    WrapsBack(n, TWO_64);
    SmallMod(ToWord(n), TWO_64);
    if size != 8 {
      LowWord(n);
    }
  }

  lemma LowWord(n: int)
    requires -(TWO_32 / 2) <= n < TWO_32 / 2
    ensures SignedOf(ToWord(n), 4) == n
  {
    WrapsBack(n, TWO_32);
    if n < 0 {
      assert ToWord(n) == TWO_32 * (TWO_32 - 1) + (n + TWO_32);
      assert ToWord(n) % TWO_32 == n + TWO_32;
    }
  }

  lemma WrapsBack(n: int, m: int)
    requires m > 0 && -m <= n < m
    ensures n % m == if n < 0 then n + m else n
  {
  }

  /** Zigzag: 0, -1, 1, -2 ... become 0, 1, 2, 3 ... */
  function ZigZag(n: int): (w: nat)
    requires -TWO_64 / 2 <= n < TWO_64 / 2
    ensures w < TWO_64
  {
    if n < 0 then -2 * n - 1 else 2 * n
  }

  function UnZigZag(w: nat): (n: int)
    requires w < TWO_64
    ensures -TWO_64 / 2 <= n < TWO_64 / 2
  {
    if w % 2 == 1 then -(w / 2) - 1 else w / 2
  }

  lemma ZigZagRoundTrip(n: int)
    requires -TWO_64 / 2 <= n < TWO_64 / 2
    ensures UnZigZag(ZigZag(n)) == n
  {
  }

  // ----- little-endian words

  function LittleEndian(v: nat, size: nat): (bs: seq<byte>)
    ensures |bs| == size
  {
    if size == 0 then [] else [v % 256] + LittleEndian(v / 256, size - 1)
  }

  function FromLittleEndian(bs: seq<byte>): nat {
    if bs == [] then 0 else bs[0] + 256 * FromLittleEndian(bs[1..])
  }

  lemma {:induction false} LittleEndianRoundTrip(v: nat, size: nat)
    requires v < Shl(1, 8 * size)
    ensures FromLittleEndian(LittleEndian(v, size)) == v
    decreases size
  {
    if size > 0 {
      ShlShl(1, 8 * size - 8, 8);
      Shl8(Shl(1, 8 * size - 8));
      LittleEndianRoundTrip(v / 256, size - 1);
      assert LittleEndian(v, size)[1..] == LittleEndian(v / 256, size - 1);
    }
  }

  lemma {:induction false} FromLittleEndianBound(bs: seq<byte>)
    ensures FromLittleEndian(bs) < Shl(1, 8 * |bs|)
  {
    if bs != [] {
      ShlShl(1, 8 * |bs| - 8, 8);
      Shl8(Shl(1, 8 * |bs| - 8));
      FromLittleEndianBound(bs[1..]);
    }
  }

  // ----- field keys and skipping

  type WireType = w: nat | w < 8
  const WT_VARINT: WireType := 0
  const WT_64BIT: WireType := 1
  const WT_STRING: WireType := 2
  const WT_32BIT: WireType := 5

  function KeyBytes(tag: nat, wt: WireType): seq<byte> {
    VarintBytes(tag * 8 + wt)
  }

  /** A key read from the stream: `Eof` both at a zero key and when the key is cut off by
      the end of the stream. */
  datatype Key = Key(tag: nat, wt: WireType, rest: seq<byte>) | Eof(rest: seq<byte>) | BadKey

  function ReadKey(bs: seq<byte>): (k: Key)
    ensures k.Key? ==> |k.rest| < |bs|
    ensures !k.BadKey? ==> |k.rest| <= |bs|
  {
    match ReadVarint32(bs)
    case Failed(rest) => if rest == [] then Eof([]) else BadKey
    case Parsed(key, rest) => if key == 0 then Eof(rest) else Key(key / 8, key % 8, rest)
  }

  lemma KeyRoundTrip(tag: nat, wt: WireType, rest: seq<byte>)
    requires 0 < tag < 0x2000_0000
    ensures ReadKey(KeyBytes(tag, wt) + rest) == Key(tag, wt, rest)
  {
    Varint32RoundTrip(tag * 8 + wt, rest);
  }

  /** A length-prefixed byte string. */
  function Delimited(bs: seq<byte>): seq<byte> {
    VarintBytes(|bs|) + bs
  }

  function SkipVarint(bs: seq<byte>): (r: Option<seq<byte>>)
    ensures r.Some? ==> |r.value| < |bs|
  {
    if bs == [] then None
    else if bs[0] < 128 then Some(bs[1..])
    else SkipVarint(bs[1..])
  }

  function Drop(bs: seq<byte>, n: nat): (r: Option<seq<byte>>)
    ensures r.Some? ==> |r.value| <= |bs|
  {
    if |bs| < n then None else Some(bs[n..])
  }

  /** Passes over the payload of an unknown field. */
  function Skip(wt: WireType, bs: seq<byte>): (r: Option<seq<byte>>)
    ensures r.Some? ==> |r.value| <= |bs|
  {
    if wt == WT_VARINT then SkipVarint(bs)
    else if wt == WT_64BIT then Drop(bs, 8)
    else if wt == WT_STRING then
      match ReadVarint32(bs) {
        case Failed(_) => None
        case Parsed(size, rest) => Drop(rest, size)
      }
    else if wt == WT_32BIT then Drop(bs, 4)
    else None
  }

  lemma {:induction false} SkipVarintBytes(v: nat, rest: seq<byte>)
    ensures SkipVarint(VarintBytes(v) + rest) == Some(rest)
    decreases v
  {
    var bs := VarintBytes(v) + rest;
    if v < 128 {
      assert bs[1..] == rest;
    } else {
      SkipVarintBytes(v / 128, rest);
      assert bs[1..] == VarintBytes(v / 128) + rest;
    }
  }

  lemma ReadDelimited(bs: seq<byte>, rest: seq<byte>)
    requires |bs| < TWO_32
    ensures ReadVarint32(Delimited(bs) + rest) == Parsed(|bs|, bs + rest)
  {
    Varint32RoundTrip(|bs|, bs + rest);
    assert Delimited(bs) + rest == VarintBytes(|bs|) + (bs + rest);
  }

  lemma SkipDelimited(bs: seq<byte>, rest: seq<byte>)
    requires |bs| < TWO_32
    ensures Skip(WT_STRING, Delimited(bs) + rest) == Some(rest)
  {
    ReadDelimited(bs, rest);
    assert (bs + rest)[|bs|..] == rest;
  }
}
