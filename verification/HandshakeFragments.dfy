/** DTLS handshake fragments (section 4.2.3 of RFC 6347): their headers, and the buffer that
    collects the fragments of one message under a bit mask of the bytes received. */
module HandshakeFragments {
  import opened Wrappers
  import opened Bits
  import opened Wire
  import opened NetworkOrder

  const HEADER: nat := 12
  const U24: nat := 16777216

  // ----- headers

  /** A fragment: bytes off .. off + |body| of the msgLen bytes of message `seqNo`. */
  datatype Fragment = Fragment(kind: byte, msgLen: nat, seqNo: nat, off: nat, body: seq<byte>)

  function HeaderBytes(kind: byte, msgLen: nat, seqNo: nat, off: nat, len: nat): (bs: seq<byte>)
    ensures |bs| == HEADER
  {
    [kind] + Bytes(msgLen, 3) + Bytes(seqNo, 2) + Bytes(off, 3) + Bytes(len, 3)
  }

  function FragmentBytes(f: Fragment): (bs: seq<byte>)
    ensures |bs| == HEADER + |f.body|
  {
    HeaderBytes(f.kind, f.msgLen, f.seqNo, f.off, |f.body|) + f.body
  }

  datatype Reading = Reading(frag: Fragment, rest: seq<byte>)

  /** dtls1_parse_fragment. */
  function ParseFragment(bs: seq<byte>): (p: Option<Reading>)
    ensures p.Some? ==> |p.value.rest| < |bs| && p.value.frag.msgLen < U24 && p.value.frag.seqNo < 65536
  {
    Words();
    if |bs| < HEADER then None
    else
      var len := BigEndian(bs[9..12]);
      if |bs| - HEADER < len then None
      else
        Some(Reading(Fragment(bs[0], BigEndian(bs[1..4]), BigEndian(bs[4..6]), BigEndian(bs[6..9]),
                             bs[HEADER..HEADER + len]), bs[HEADER + len..]))
  }

  predicate Encodable(f: Fragment) {
    f.msgLen < U24 && f.seqNo < 65536 && f.off < U24 && |f.body| < U24
  }

  /** A fragment followed by anything reads back as itself. */
  lemma FragmentRoundTrip(f: Fragment, rest: seq<byte>)
    requires Encodable(f)
    ensures ParseFragment(FragmentBytes(f) + rest) == Some(Reading(f, rest))
  {
    hide BigEndian, Bytes;
    Words();
    var bs := FragmentBytes(f) + rest;
    var len := |f.body|;
    BytesRoundTrip(f.msgLen, 3);
    BytesRoundTrip(f.seqNo, 2);
    BytesRoundTrip(f.off, 3);
    BytesRoundTrip(len, 3);
    assert bs[0] == f.kind;
    assert bs[1..4] == Bytes(f.msgLen, 3);
    assert bs[4..6] == Bytes(f.seqNo, 2);
    assert bs[6..9] == Bytes(f.off, 3);
    assert bs[9..12] == Bytes(len, 3);
    assert bs[HEADER..HEADER + len] == f.body;
    assert bs[HEADER + len..] == rest;
  }

  /** Where everything is in a fragment: type, 24 bits of length, 16 of number, 24 of offset and 24 of
      the length of the piece, high bytes first, and then the piece. */
  lemma FragmentLayout(f: Fragment)
    requires Encodable(f)
    ensures var bs := FragmentBytes(f);
            && bs[0] == f.kind && Word24(bs[1], bs[2], bs[3]) == f.msgLen && Word16(bs[4], bs[5]) == f.seqNo
            && Word24(bs[6], bs[7], bs[8]) == f.off && Word24(bs[9], bs[10], bs[11]) == |f.body|
            && bs[12..] == f.body
  {
    hide BigEndian, Word16, Word24;
    var bs := FragmentBytes(f);
    Triple(f.msgLen);
    Pair(f.seqNo);
    Triple(f.off);
    Triple(|f.body|);
    assert bs[1] == Bytes(f.msgLen, 3)[0] && bs[2] == Bytes(f.msgLen, 3)[1] && bs[3] == Bytes(f.msgLen, 3)[2];
    assert bs[4] == Bytes(f.seqNo, 2)[0] && bs[5] == Bytes(f.seqNo, 2)[1];
    assert bs[6] == Bytes(f.off, 3)[0] && bs[7] == Bytes(f.off, 3)[1] && bs[8] == Bytes(f.off, 3)[2];
    assert bs[9] == Bytes(|f.body|, 3)[0] && bs[10] == Bytes(|f.body|, 3)[1] && bs[11] == Bytes(|f.body|, 3)[2];
  }

  /** And where a reader finds it, in whatever arrives. */
  lemma FragmentRead(bs: seq<byte>)
    ensures ParseFragment(bs) ==
            if |bs| < 12 || |bs| < 12 + Word24(bs[9], bs[10], bs[11]) then None
            else
              var end := 12 + Word24(bs[9], bs[10], bs[11]);
              Some(Reading(Fragment(bs[0], Word24(bs[1], bs[2], bs[3]), Word16(bs[4], bs[5]),
                                    Word24(bs[6], bs[7], bs[8]), bs[12..end]), bs[end..]))
  {
    hide BigEndian, Word16, Word24;
    if |bs| >= 12 {
      ReadTriple(bs[1..4]);
      ReadPair(bs[4..6]);
      ReadTriple(bs[6..9]);
      ReadTriple(bs[9..12]);
    }
  }

  // ----- bytes as sets of bits

  predicate Bit8(b: bv8, i: nat)
    requires i < 8
  {
    (b >> i) & 1 == 1
  }

  /** bit_range: bits start .. end. */
  function BitRange(start: nat, end: nat): bv8
    requires start < 8 && end <= 8
  {
    ((!(((1 as bv32) << start) - 1) & (((1 as bv32) << end) - 1)) & 0xff) as bv8
  }

  lemma BitRangeBits(start: nat, end: nat, i: nat)
    requires start < 8 && end <= 8 && i < 8
    ensures Bit8(BitRange(start, end), i) <==> start <= i < end
  {
  }

  lemma OrBits(a: bv8, b: bv8, i: nat)
    requires i < 8
    ensures Bit8(a | b, i) <==> Bit8(a, i) || Bit8(b, i)
  {
  }

  lemma SameBits(a: bv8, b: bv8)
    requires forall i :: 0 <= i < 8 ==> (Bit8(a, i) <==> Bit8(b, i))
    ensures a == b
  {
    assert Bit8(a, 0) <==> Bit8(b, 0);
    assert Bit8(a, 1) <==> Bit8(b, 1);
    assert Bit8(a, 2) <==> Bit8(b, 2);
    assert Bit8(a, 3) <==> Bit8(b, 3);
    assert Bit8(a, 4) <==> Bit8(b, 4);
    assert Bit8(a, 5) <==> Bit8(b, 5);
    assert Bit8(a, 6) <==> Bit8(b, 6);
    assert Bit8(a, 7) <==> Bit8(b, 7);
  }

  lemma FullByte(i: nat)
    requires i < 8
    ensures Bit8(0xff, i)
  {
  }

  lemma EmptyByte(i: nat)
    requires i < 8
    ensures !Bit8(0, i)
  {
  }

  // ----- the mask of received bytes

  /** Bit j of byte k stands for the offset 8k + j. */
  ghost predicate ByteShows(b: bv8, covered: set<nat>, k: nat) {
    forall j :: 0 <= j < 8 ==> (Bit8(b, j) <==> 8 * k + j in covered)
  }

  ghost predicate MaskShows(mask: seq<bv8>, covered: set<nat>) {
    forall k :: 0 <= k < |mask| ==> ByteShows(mask[k], covered, k)
  }

  ghost predicate AllBelow(covered: set<nat>, n: nat) {
    forall i :: 0 <= i < n ==> i in covered
  }

  ghost function Range(start: nat, end: nat): (r: set<nat>)
    ensures forall i :: i in r <==> start <= i < end
    decreases end - start
  {
    if start >= end then {} else {start} + Range(start + 1, end)
  }

  lemma {:induction false} RangeJoin(covered: set<nat>, a: nat, b: nat, c: nat)
    requires a <= b <= c
    ensures covered + Range(a, b) + Range(b, c) == covered + Range(a, c)
  {
  }

  /** The mask with one byte replaced by itself or-ed with a bit range. */
  lemma OrRange(mask: seq<bv8>, covered: set<nat>, k: nat, start: nat, end: nat)
    requires MaskShows(mask, covered) && k < |mask| && start < 8 && end <= 8
    ensures MaskShows(mask[k := mask[k] | BitRange(start, end)], covered + Range(8 * k + start, 8 * k + end))
  {
    hide BitRange, Bit8;
    var added := covered + Range(8 * k + start, 8 * k + end);
    var marked := mask[k] | BitRange(start, end);
    forall j | 0 <= j < 8
      ensures Bit8(marked, j) <==> 8 * k + j in added
    {
      OrBits(mask[k], BitRange(start, end), j);
      BitRangeBits(start, end, j);
      assert ByteShows(mask[k], covered, k);
    }
    Untouched(mask, covered, added, k);
  }

  /** Covering offsets of byte k alone leaves what the other bytes show. */
  lemma Untouched(mask: seq<bv8>, covered: set<nat>, added: set<nat>, k: nat)
    requires MaskShows(mask, covered) && k < |mask|
    requires forall i: nat :: i < 8 * k || 8 * k + 8 <= i ==> (i in added <==> i in covered)
    ensures forall m :: 0 <= m < |mask| && m != k ==> ByteShows(mask[m], added, m)
  {
    hide Bit8;
  }

  lemma SetByte(mask: seq<bv8>, covered: set<nat>, k: nat)
    requires MaskShows(mask, covered) && k < |mask|
    ensures MaskShows(mask[k := 0xff], covered + Range(8 * k, 8 * k + 8))
  {
    hide Bit8;
    forall j | 0 <= j < 8
      ensures Bit8(0xff, j)
    {
      FullByte(j);
    }
    Untouched(mask, covered, covered + Range(8 * k, 8 * k + 8), k);
  }

  /** A byte of the mask equals a bit range from 0 just when it shows those offsets. */
  lemma ByteIsRange(b: bv8, covered: set<nat>, k: nat, end: nat)
    requires ByteShows(b, covered, k) && end <= 8
    ensures b == BitRange(0, end) <==> ByteShows(BitRange(0, end), covered, k)
  {
    hide BitRange, Bit8;
    if ByteShows(BitRange(0, end), covered, k) {
      SameBits(b, BitRange(0, end));
    }
  }

  lemma ShowsRange(covered: set<nat>, k: nat, end: nat)
    requires end <= 8 && AllBelow(covered, 8 * k)
    requires forall i :: i in covered && i < 8 * k + 8 ==> i < 8 * k + end
    ensures ByteShows(BitRange(0, end), covered, k) <==> AllBelow(covered, 8 * k + end)
  {
    hide BitRange, Bit8;
    forall j | 0 <= j < 8
      ensures Bit8(BitRange(0, end), j) <==> j < end
    {
      BitRangeBits(0, end, j);
    }
    if ByteShows(BitRange(0, end), covered, k) {
      forall i | 8 * k <= i < 8 * k + end
        ensures i in covered
      {
        assert Bit8(BitRange(0, end), i - 8 * k);
      }
    }
  }

  /** Or-ing a range into one byte of the mask. */
  method OrByte(mask: array<bv8>, k: nat, start: nat, end: nat, ghost covered: set<nat>)
    requires k < mask.Length && start < 8 && end <= 8 && MaskShows(mask[..], covered)
    modifies mask
    ensures MaskShows(mask[..], covered + Range(8 * k + start, 8 * k + end))
  {
    hide BitRange, Bit8, MaskShows, Range;
    ghost var was := mask[..];
    OrRange(was, covered, k, start, end);
    mask[k] := mask[k] | BitRange(start, end);
    assert mask[..] == was[k := was[k] | BitRange(start, end)];
  }

  /** The marking half of dtls1_hm_fragment_mark. */
  method MarkRange(mask: array<bv8>, start: nat, end: nat, ghost covered: set<nat>)
    requires start < end <= 8 * mask.Length && MaskShows(mask[..], covered)
    modifies mask
    ensures MaskShows(mask[..], covered + Range(start, end))
  {
    hide BitRange, Bit8, MaskShows, Range;
    var first, last := start / 8, end / 8;
    if first == last {
      OrByte(mask, first, start % 8, end % 8, covered);
      return;
    }
    OrByte(mask, first, start % 8, 8, covered);
    var i := first + 1;
    while i < last
      invariant first < i <= last && MaskShows(mask[..], covered + Range(start, 8 * i))
    {
      ghost var was := mask[..];
      SetByte(was, covered + Range(start, 8 * i), i);
      RangeJoin(covered, start, 8 * i, 8 * i + 8);
      mask[i] := 0xff;
      assert mask[..] == was[i := 0xff];
      i := i + 1;
    }
    if end % 8 != 0 {
      RangeJoin(covered, start, 8 * last, end);
      OrByte(mask, last, 0, end % 8, covered + Range(start, 8 * last));
    }
  }

  /** The completeness check of dtls1_hm_fragment_mark. */
  method IsComplete(mask: array<bv8>, msgLen: nat, ghost covered: set<nat>) returns (complete: bool)
    requires mask.Length == (msgLen + 7) / 8 && MaskShows(mask[..], covered)
    requires forall i :: i in covered ==> i < msgLen
    ensures complete <==> AllBelow(covered, msgLen)
  {
    assert BitRange(0, 8) == 0xff;
    hide BitRange, Bit8;
    var i := 0;
    while i < msgLen / 8
      invariant 0 <= i <= msgLen / 8 && AllBelow(covered, 8 * i)
    {
      ByteIsRange(mask[i], covered, i, 8);
      ShowsRange(covered, i, 8);
      if mask[i] != 0xff {
        return false;
      }
      i := i + 1;
    }
    if msgLen % 8 != 0 {
      ByteIsRange(mask[i], covered, i, msgLen % 8);
      ShowsRange(covered, i, msgLen % 8);
      if mask[i] != BitRange(0, msgLen % 8) {
        return false;
      }
    }
    return true;
  }
}
