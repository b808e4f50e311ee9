/** pb_decode as it runs: input streams that are consumed in place, and methods that fill a
    structure.  Each is proved against its function in `DecodeSpec`. */
module Decoder {
  import opened Wrappers
  import opened Bits
  import opened Wire
  import opened Schema
  import opened DecodeSpec
  import opened FieldIterator

  /** pb_istream_t over a buffer.  A substream has the same buffer and position and a smaller
      limit. */
  class IStream {
    const data: seq<byte>
    var state: nat
    var bytesLeft: nat

    ghost predicate Valid()
      reads this
    {
      state + bytesLeft <= |data|
    }

    /** The bytes not yet read. */
    ghost function Left(): (bs: seq<byte>)
      requires Valid()
      reads this
      ensures |bs| == bytesLeft
    {
      data[state..state + bytesLeft]
    }

    constructor FromBuffer(bs: seq<byte>)
      ensures Valid() && Left() == bs
    {
      data := bs;
      state := 0;
      bytesLeft := |bs|;
    }

    constructor Part(parent: IStream, size: nat)
      requires parent.Valid() && size <= parent.bytesLeft
      ensures Valid() && Left() == parent.Left()[..size]
      ensures data == parent.data && state == parent.state && bytesLeft == size
    {
      data := parent.data;
      state := parent.state;
      bytesLeft := size;
    }

    /** pb_read. */
    method Read(count: nat) returns (ok: bool, bs: seq<byte>)
      requires Valid()
      modifies this
      ensures Valid() && state + bytesLeft == old(state + bytesLeft)
      ensures ok <==> count <= old(bytesLeft)
      ensures ok ==> bs == old(Left())[..count] && Left() == old(Left())[count..]
      ensures !ok ==> Left() == old(Left())
    {
      if bytesLeft < count {
        return false, [];
      }
      bs := data[state..state + count];
      state := state + count;
      bytesLeft := bytesLeft - count;
      return true, bs;
    }

    method ReadByte() returns (ok: bool, b: byte)
      requires Valid()
      modifies this
      ensures Valid() && state + bytesLeft == old(state + bytesLeft)
      ensures ok <==> old(bytesLeft) > 0
      ensures ok ==> b == old(Left())[0] && Left() == old(Left())[1..]
      ensures !ok ==> Left() == old(Left())
    {
      if bytesLeft == 0 {
        return false, 0;
      }
      b := data[state];
      state := state + 1;
      bytesLeft := bytesLeft - 1;
      return true, b;
    }

    /** The stream has been read as `p` says. */
    twostate predicate Consumed(new p: Parse, ok: bool, value: nat)
      reads this
    {
      && Valid() && state + bytesLeft == old(state + bytesLeft)
      && Left() == p.rest
      && ok == p.Parsed? && (ok ==> value == p.value)
    }

    /** pb_decode_varint. */
    method DecodeVarint() returns (ok: bool, value: nat)
      requires Valid()
      modifies this
      ensures Consumed(ReadVarint(old(Left())), ok, value)
    {
      var bitpos: nat, result: nat := 0, 0;
      while true
        invariant Valid() && state + bytesLeft == old(state + bytesLeft)
        invariant result < TWO_64
        invariant VarintFrom(Left(), bitpos, result, true) == ReadVarint(old(Left()))
        decreases bytesLeft
      {
        if bitpos >= 64 {
          return false, 0;
        }
        var more, b := ReadByte();
        if !more {
          return false, 0;
        }
        result := (result + Shl(b % 128, bitpos)) % TWO_64;
        bitpos := bitpos + 7;
        if b < 128 {
          break;
        }
      }
      return true, result;
    }

    /** pb_decode_varint32, with its quick case of one byte. */
    method DecodeVarint32() returns (ok: bool, value: nat)
      requires Valid()
      modifies this
      ensures Consumed(ReadVarint32(old(Left())), ok, value)
    {
      var more, b := ReadByte();
      if !more {
        return false, 0;
      }
      if b < 128 {
        return true, b;
      }
      FirstGroup(old(Left()));
      hide Shl;
      var bitpos: nat, result: nat := 7, b % 128;
      while true
        invariant Valid() && state + bytesLeft == old(state + bytesLeft)
        invariant result < TWO_32
        invariant VarintFrom(Left(), bitpos, result, false) == ReadVarint32(old(Left()))
        decreases bytesLeft
      {
        if bitpos >= 32 {
          return false, 0;
        }
        more, b := ReadByte();
        if !more {
          return false, 0;
        }
        result := (result + Shl(b % 128, bitpos)) % TWO_32;
        bitpos := bitpos + 7;
        if b < 128 {
          break;
        }
      }
      return true, result;
    }

    /** The first byte of a longer varint. */
    static lemma FirstGroup(bs: seq<byte>)
      requires bs != [] && bs[0] >= 128
      ensures ReadVarint32(bs) == VarintFrom(bs[1..], 7, bs[0] % 128, false)
    {
      assert Shl(bs[0] % 128, 0) == bs[0] % 128;
    }

    /** The stream has passed over what `r` says, or the read has failed. */
    twostate predicate Passed(new r: Option<seq<byte>>, ok: bool)
      reads this
    {
      && Valid() && state + bytesLeft == old(state + bytesLeft)
      && ok == r.Some? && (ok ==> Left() == r.value)
    }

    /** pb_skip_varint. */
    method SkipVarintBytes() returns (ok: bool)
      requires Valid()
      modifies this
      ensures Passed(SkipVarint(old(Left())), ok)
    {
      while true
        invariant Valid() && state + bytesLeft == old(state + bytesLeft)
        invariant SkipVarint(Left()) == SkipVarint(old(Left()))
        decreases bytesLeft
      {
        var more, bs := Read(1);
        if !more {
          return false;
        }
        if bs[0] < 128 {
          break;
        }
      }
      return true;
    }

    /** pb_skip_field. */
    method SkipField(wt: WireType) returns (ok: bool)
      requires Valid()
      modifies this
      ensures Passed(Skip(wt, old(Left())), ok)
    {
      var skipped: seq<byte>;
      if wt == WT_VARINT {
        ok := SkipVarintBytes();
      } else if wt == WT_64BIT {
        ok, skipped := Read(8);
      } else if wt == WT_STRING {
        var size;
        ok, size := DecodeVarint32();
        if ok {
          ok, skipped := Read(size);
        }
      } else if wt == WT_32BIT {
        ok, skipped := Read(4);
      } else {
        ok := false;
      }
    }

    /** pb_decode_tag. */
    method DecodeTag() returns (ok: bool, wt: WireType, tag: nat, eof: bool)
      requires Valid()
      modifies this
      ensures Valid() && state + bytesLeft == old(state + bytesLeft)
      ensures match ReadKey(old(Left()))
              case Key(t, w, rest) => ok && tag == t && wt == w && Left() == rest
              case Eof(rest) => !ok && eof && Left() == rest
              case BadKey => !ok && !eof
    {
      var read, temp := DecodeVarint32();
      if !read {
        return false, 0, 0, bytesLeft == 0;
      }
      if temp == 0 {
        return false, 0, 0, true;
      }
      return true, temp % 8, temp / 8, false;
    }
  }

  // ----- substreams

  /** `s` has set aside the bytes of `sub`, and will go on with `rest` after them. */
  ghost predicate SetAside(s: IStream, sub: IStream, rest: seq<byte>)
    reads s, sub
  {
    && s != sub && sub.Valid() && sub.data == s.data
    && sub.state + sub.bytesLeft + s.bytesLeft <= |s.data|
    && rest == s.data[sub.state + sub.bytesLeft..sub.state + sub.bytesLeft + s.bytesLeft]
  }

  /** pb_make_string_substream. */
  method MakeSubstream(s: IStream) returns (ok: bool, sub: IStream)
    requires s.Valid()
    modifies s
    ensures fresh(sub)
    ensures ok <==> ReadDelimitedBody(old(s.Left())).Some?
    ensures ok ==> SetAside(s, sub, ReadDelimitedBody(old(s.Left())).value.1)
    ensures ok ==> sub.Left() == ReadDelimitedBody(old(s.Left())).value.0
    ensures ok ==> s.state == sub.state && sub.state + sub.bytesLeft + s.bytesLeft == old(s.state + s.bytesLeft)
    ensures !ok ==> s.Valid() && s.state + s.bytesLeft == old(s.state + s.bytesLeft)
  {
    var size;
    ok, size := s.DecodeVarint32();
    if !ok || s.bytesLeft < size {
      sub := new IStream.FromBuffer([]);
      return false, sub;
    }
    sub := new IStream.Part(s, size);
    s.bytesLeft := s.bytesLeft - size;
  }

  /** pb_close_string_substream: bytes the substream did not read are dropped. */
  method CloseSubstream(s: IStream, sub: IStream) returns (ok: bool)
    requires s != sub && sub.Valid() && sub.data == s.data
    requires sub.state + sub.bytesLeft + s.bytesLeft <= |s.data|
    modifies s, sub
    ensures ok && s.Valid()
    ensures s.state == old(sub.state + sub.bytesLeft) && s.bytesLeft == old(s.bytesLeft)
  {
    if sub.bytesLeft > 0 {
      var skipped;
      ok, skipped := sub.Read(sub.bytesLeft);
      if !ok {
        return false;
      }
    }
    s.state := sub.state;
    return true;
  }

  // ----- values

  /** The stream has yielded what `d` says, or decoding has failed. */
  twostate predicate Yielded(s: IStream, new d: Decoded, ok: bool, new v: Value)
    reads s
  {
    && s.Valid() && s.state + s.bytesLeft <= old(s.state + s.bytesLeft)
    && ok == d.Some?
    && (ok ==> v == d.value.0 && s.Left() == d.value.1 && s.state + s.bytesLeft == old(s.state + s.bytesLeft))
  }

  /** pb_dec_varint, pb_dec_uvarint and pb_dec_svarint. */
  method DecodeNumberFrom(s: IStream, f: Field) returns (ok: bool, v: Value)
    requires s.Valid() && (f.ltype.Varint? || f.ltype.UVarint? || f.ltype.SVarint?)
    modifies s
    ensures Yielded(s, DecodeNumber(f, old(s.Left())), ok, v)
  {
    v := Int(0);
    var word;
    ok, word := s.DecodeVarint();
    if !ok || f.dataSize !in {1, 2, 4, 8} {
      return false, v;
    }
    if f.ltype.UVarint? {
      FitsModulus(word, Modulus(f.dataSize));
      var clamped := word % Modulus(f.dataSize);
      return clamped == word, Int(word);
    }
    var value := if f.ltype.SVarint? then UnZigZag(word)
                 else SignedOf(word, if f.dataSize == 8 then 8 else 4);
    var clamped := SignedOf(value, f.dataSize);
    return clamped == value, Int(clamped);
  }

  lemma FitsModulus(word: nat, m: nat)
    requires m > 0
    ensures word % m == word <==> word < m
  {
    if word < m {
      SmallMod(word, m);
    }
  }

  /** pb_dec_fixed32 and pb_dec_fixed64. */
  method DecodeWordFrom(s: IStream, size: nat) returns (ok: bool, v: Value)
    requires s.Valid() && size > 0
    modifies s
    ensures Yielded(s, DecodeWord(size, old(s.Left())), ok, v)
  {
    var bs;
    ok, bs := s.Read(size);
    v := Int(if ok then FromLittleEndian(bs) else 0);
  }

  /** pb_dec_bytes, pb_dec_string and pb_dec_fixed_length_bytes. */
  method DecodeBlobFrom(s: IStream, f: Field) returns (ok: bool, v: Value)
    requires s.Valid() && (f.ltype.Bytes? || f.ltype.String? || f.ltype.FixedBytes?)
    modifies s
    ensures Yielded(s, DecodeBlob(f, old(s.Left())), ok, v)
  {
    v := Blob([]);
    var size, bs;
    ok, size := s.DecodeVarint32();
    if !ok {
      return;
    }
    if f.ltype.Bytes? && size + BYTES_HEADER > f.dataSize {
      return false, v;
    }
    if f.ltype.String? && size + 1 > f.dataSize {
      return false, v;
    }
    if f.ltype.FixedBytes? {
      if size == 0 {
        return true, Blob(Zeros(f.dataSize));
      }
      if size != f.dataSize {
        return false, v;
      }
    }
    ok, bs := s.Read(size);
    v := Blob(bs);
  }

  method DecodeScalarFrom(s: IStream, f: Field) returns (ok: bool, v: Value)
    requires s.Valid() && !f.ltype.Submessage?
    modifies s
    ensures Yielded(s, DecodeScalar(f, old(s.Left())), ok, v)
  {
    match f.ltype
    case Fixed32 => ok, v := DecodeWordFrom(s, 4);
    case Fixed64 => ok, v := DecodeWordFrom(s, 8);
    case Bytes => ok, v := DecodeBlobFrom(s, f);
    case String => ok, v := DecodeBlobFrom(s, f);
    case FixedBytes => ok, v := DecodeBlobFrom(s, f);
    case Varint => ok, v := DecodeNumberFrom(s, f);
    case UVarint => ok, v := DecodeNumberFrom(s, f);
    case SVarint => ok, v := DecodeNumberFrom(s, f);
  }

  // ----- structures

  /** The structure a message is decoded into. */
  class Dest {
    var cells: Msg

    constructor (m: Msg)
      ensures cells == m
    {
      cells := m;
    }
  }

  /** pb_message_set_to_defaults. */
  method SetToDefaults(fields: Desc, dest: Dest)
    requires WellFormed(fields) && Adjacent(fields) && dest.cells.Keys == Members(fields)
    modifies dest
    ensures dest.cells == Defaults(fields)
  {
    DefaultsAt(fields);
    if fields == [] {
      return;
    }
    hide WellFormed, DefaultCell, Defaults, Adjacent, RequiredBefore;
    var iter := new FieldIter.Begin(fields);
    while true
      invariant fresh(iter) && iter.Valid() && iter.start == fields
      invariant SetSoFar(fields, dest.cells, iter.pos)
      modifies dest, iter
      decreases |fields| - iter.pos
    {
      StoreDefault(fields, dest.cells, iter.pos);
      dest.cells := dest.cells[iter.pData := DefaultCell(fields[iter.pos])];
      var more := iter.Next();
      if !more {
        break;
      }
    }
    SameStructure(fields, dest.cells, Defaults(fields));
  }

  ghost predicate SetSoFar(fields: Desc, m: Msg, n: nat)
    requires n <= |fields|
  {
    && m.Keys == Members(fields) == Defaults(fields).Keys
    && forall i :: 0 <= i < n ==> m[fields[i].member] == Defaults(fields)[fields[i].member]
  }

  lemma StoreDefault(fields: Desc, m: Msg, n: nat)
    requires DistinctMembers(fields) && n < |fields| && SetSoFar(fields, m, n)
    ensures SetSoFar(fields, m[fields[n].member := DefaultCell(fields[n])], n + 1)
  {
    DefaultsAt(fields);
    hide DefaultCell, Defaults;
    assert fields[n].member in Members(fields);
  }

  lemma SameStructure(fields: Desc, a: Msg, b: Msg)
    requires SetSoFar(fields, a, |fields|) && b == Defaults(fields)
    ensures a == b
  {
    forall k | k in a.Keys
      ensures a[k] == b[k]
    {
    }
  }

  // ----- the bitmap of required fields

  /** A 32-bit word, lowest bit first. */
  type Word = w: seq<bool> | |w| == 32 witness seq(32, _ => false)

  /** The word with the lowest `n` bits set: all ones shifted right by 32 - n. */
  function LowBits(n: nat): Word {
    seq(32, i => i < n)
  }

  /** Bit k of the two words stands for the k-th required field, and nothing stands above. */
  ghost predicate Tracks(fields: Desc, w0: Word, w1: Word, seen: set<nat>) {
    && (forall i :: 0 <= i < |fields| && fields[i].htype.Required? && RequiredBefore(fields, i) < 64 ==>
          (RequiredBit(w0, w1, RequiredBefore(fields, i)) <==> fields[i].tag in seen))
    && (forall k :: RequiredBefore(fields, |fields|) <= k < 64 ==> !RequiredBit(w0, w1, k))
  }

  function RequiredBit(w0: Word, w1: Word, k: nat): bool
    requires k < 64
  {
    if k < 32 then w0[k] else w1[k - 32]
  }

  lemma {:induction false} RequiredBeforeMonotonic(fields: Desc, i: nat, k: nat)
    requires i <= k <= |fields|
    ensures RequiredBefore(fields, i) <= RequiredBefore(fields, k)
    ensures i < k && fields[i].htype.Required? ==> RequiredBefore(fields, i) < RequiredBefore(fields, k)
    decreases k - i
  {
    if i < k {
      RequiredBeforeMonotonic(fields, i, k - 1);
    }
  }

  /** The required field with a given index. */
  lemma {:induction false} RequiredAt(fields: Desc, n: nat, k: nat) returns (i: nat)
    requires n <= |fields| && k < RequiredBefore(fields, n)
    ensures i < n && fields[i].htype.Required? && RequiredBefore(fields, i) == k
  {
    if fields[n - 1].htype.Required? && RequiredBefore(fields, n - 1) == k {
      i := n - 1;
    } else {
      i := RequiredAt(fields, n - 1, k);
    }
  }

  /** Setting the bit of a required field records its tag. */
  lemma MarkTracks(fields: Desc, w0: Word, w1: Word, seen: set<nat>, i: nat, v0: Word, v1: Word)
    requires DistinctTags(fields) && Tracks(fields, w0, w1, seen)
    requires i < |fields| && fields[i].htype.Required? && RequiredBefore(fields, |fields|) < 64
    requires forall k :: 0 <= k < 64 ==>
      RequiredBit(v0, v1, k) == (k == RequiredBefore(fields, i) || RequiredBit(w0, w1, k))
    ensures Tracks(fields, v0, v1, seen + {fields[i].tag})
  {
    RequiredBeforeMonotonic(fields, i, |fields|);
    forall j | 0 <= j < |fields| && fields[j].htype.Required? && RequiredBefore(fields, j) < 64
      ensures RequiredBit(v0, v1, RequiredBefore(fields, j)) <==> fields[j].tag in seen + {fields[i].tag}
    {
      if i < j {
        RequiredBeforeMonotonic(fields, i, j);
      } else if j < i {
        RequiredBeforeMonotonic(fields, j, i);
      }
    }
  }

  /** The first n bits are set exactly when all n required tags have been met. */
  lemma AllSetMeansAllSeen(fields: Desc, w0: Word, w1: Word, seen: set<nat>)
    requires Tracks(fields, w0, w1, seen) && RequiredBefore(fields, |fields|) < 64
    ensures RequiredTags(fields) <= seen <==>
            forall k :: 0 <= k < RequiredBefore(fields, |fields|) ==> RequiredBit(w0, w1, k)
  {
    if RequiredTags(fields) <= seen {
      forall k | 0 <= k < RequiredBefore(fields, |fields|)
        ensures RequiredBit(w0, w1, k)
      {
        var i := RequiredAt(fields, |fields|, k);
        assert fields[i].tag in RequiredTags(fields);
      }
    }
    forall i | 0 <= i < |fields| && fields[i].htype.Required?
      ensures RequiredBefore(fields, i) < RequiredBefore(fields, |fields|)
    {
      RequiredBeforeMonotonic(fields, i, |fields|);
    }
  }

  /** The check at the end of pb_decode_noinit: how many required fields there are, by walking
      the iterator to the end from wherever it is; then whole words, then the remaining bits. */
  method CheckRequired(iter: FieldIter, fieldsSeen: array<Word>, ghost seen: set<nat>) returns (ok: bool)
    requires iter.Valid() && fieldsSeen.Length == 2
    requires RequiredBefore(iter.start, |iter.start|) < 64 && RequiredBefore(iter.start, |iter.start|) != 32
    requires Tracks(iter.start, fieldsSeen[0], fieldsSeen[1], seen)
    modifies iter
    ensures iter.Valid()
    ensures ok <==> RequiredTags(iter.start) <= seen
  {
    var fields := iter.start;
    AllSetMeansAllSeen(fields, fieldsSeen[0], fieldsSeen[1], seen);
    var count := 0;
    var lastRequired := false;
    while true
      invariant iter.Valid() && iter.start == fields
      decreases |fields| - iter.pos
    {
      count := iter.requiredIndex;
      lastRequired := fields != [] && fields[iter.pos].htype.Required?;
      ghost var at := iter.pos;
      var more := iter.Next();
      if !more {
        assert fields != [] ==> at + 1 == |fields|;
        break;
      }
    }
    if lastRequired {
      count := count + 1;
    }
    assert count == RequiredBefore(fields, |fields|);
    if count == 0 {
      return true;
    }
    var w0, w1 := fieldsSeen[0], fieldsSeen[1];
    WordsSuffice(w0, w1, count);
    var i := 0;
    while i < count / 32
      invariant 0 <= i <= count / 32
      invariant i == 1 ==> w0 == LowBits(32)
    {
      if fieldsSeen[i] != LowBits(32) {
        return false;
      }
      i := i + 1;
    }
    if fieldsSeen[count / 32] != LowBits(count % 32) {
      return false;
    }
    return true;
  }

  lemma WordsSuffice(w0: Word, w1: Word, count: nat)
    requires 0 < count < 64 && count != 32
    requires forall k :: count <= k < 64 ==> !RequiredBit(w0, w1, k)
    ensures (forall k :: 0 <= k < count ==> RequiredBit(w0, w1, k)) <==>
            if count < 32 then w0 == LowBits(count) else w0 == LowBits(32) && w1 == LowBits(count - 32)
  {
    if forall k :: 0 <= k < count ==> RequiredBit(w0, w1, k) {
      forall k | 0 <= k < 32
        ensures w0[k] == (k < count) && w1[k] == (k + 32 < count)
      {
        assert RequiredBit(w0, w1, k) == w0[k] && RequiredBit(w0, w1, k + 32) == w1[k];
      }
    }
  }

  // ----- fields and messages

  method DecodeValueFrom(s: IStream, f: Field, prev: Value) returns (ok: bool, v: Value)
    requires s.Valid() && WellFormedField(f) && LaidOutField(f) && TypedValue(f, prev)
    modifies s
    ensures Yielded(s, DecodeValue(f, prev, old(s.Left())), ok, v)
    decreases f, 1
  {
    if f.ltype.Submessage? {
      NestedReady(f, prev);
      NestedMeans(f, prev, s.Left());
      hide WellFormedField, LaidOutField, TypedValue, TypedMsg, WellFormed, LaidOut;
      hide DecodeMessage, ReadDelimitedBody, DecodeValue;
      var m;
      ok, m := DecodeSubmessageFrom(s, f.ltype.fields, prev.cells);
      v := Struct(m);
    } else {
      ok, v := DecodeScalarFrom(s, f);
    }
  }

  lemma NestedReady(f: Field, prev: Value)
    requires WellFormedField(f) && LaidOutField(f) && TypedValue(f, prev) && f.ltype.Submessage?
    ensures prev.Struct? && TypedMsg(f.ltype.fields, prev.cells)
    ensures WellFormed(f.ltype.fields) && LaidOut(f.ltype.fields)
  {
  }

  /** pb_dec_submessage, over what the structure holds. */
  method DecodeSubmessageFrom(s: IStream, fields: Desc, prev: Msg) returns (ok: bool, m: Msg)
    requires s.Valid() && WellFormed(fields) && LaidOut(fields) && TypedMsg(fields, prev)
    modifies s
    ensures s.Valid() && s.state + s.bytesLeft <= old(s.state + s.bytesLeft)
    ensures var body := ReadDelimitedBody(old(s.Left()));
            && (ok <==> body.Some? && DecodeMessage(fields, prev, body.value.0).Some?)
            && (ok ==> m == DecodeMessage(fields, prev, body.value.0).value.0 && s.Left() == body.value.1)
    ensures ok ==> s.state + s.bytesLeft == old(s.state + s.bytesLeft)
    decreases fields, 3
  {
    hide TypedMsg, WellFormed, LaidOut, DecodeMessage, ReadDelimitedBody;
    m := prev;
    var sub;
    ok, sub := MakeSubstream(s);
    if !ok {
      return;
    }
    var inner := new Dest(prev);
    ok := DecodeNoinit(sub, fields, inner);
    var closed := CloseSubstream(s, sub);
    m := inner.cells;
  }

  lemma NestedMeans(f: Field, prev: Value, bs: seq<byte>)
    requires WellFormedField(f) && TypedValue(f, prev) && f.ltype.Submessage?
    requires prev.Struct? && TypedMsg(f.ltype.fields, prev.cells) && WellFormed(f.ltype.fields)
    ensures DecodeValue(f, prev, bs) ==
            match ReadDelimitedBody(bs)
            case None => None
            case Some((body, rest)) =>
              var d := DecodeMessage(f.ltype.fields, prev.cells, body);
              if d.None? then None else Some((Struct(d.value.0), rest))
  {
  }

  /** The member at `at` has become what `d` says and the stream has been read so far, or
      decoding has failed. */
  twostate predicate Filled(s: IStream, dest: Dest, at: nat, new d: Option<(Cell, seq<byte>)>, ok: bool)
    reads s, dest
  {
    && s.Valid() && s.state + s.bytesLeft <= old(s.state + s.bytesLeft)
    && ok == d.Some?
    && (ok ==> dest.cells == old(dest.cells)[at := d.value.0] && s.Left() == d.value.1
               && s.state + s.bytesLeft == old(s.state + s.bytesLeft))
  }

  /** The packed branch of decode_static_field. */
  method DecodePackedFrom(s: IStream, f: Field, dest: Dest, at: nat) returns (ok: bool)
    requires s.Valid() && WellFormedField(f) && f.htype.Repeated? && f.ltype.Packable()
    requires at in dest.cells && TypedCell(f, dest.cells[at])
    modifies s, dest
    ensures Filled(s, dest, at, DecodePackedCell(f, old(dest.cells)[at], old(s.Left())), ok)
  {
    hide WellFormedField, TypedValue, DecodeScalar, DecodePacked;
    var sub;
    ok, sub := MakeSubstream(s);
    if !ok {
      return;
    }
    var status, vs := DecodeElementsFrom(sub, f, dest.cells[at].vs);
    dest.cells := dest.cells[at := Array(vs)];
    if sub.bytesLeft != 0 {
      return false;
    }
    var closed := CloseSubstream(s, sub);
    return status;
  }

  /** The loop of the packed branch: until the payload ends, the array is full, or an element
      cannot be decoded. */
  method DecodeElementsFrom(sub: IStream, f: Field, held: seq<Value>) returns (status: bool, vs: seq<Value>)
    requires sub.Valid() && f.ltype.Packable()
    modifies sub
    ensures sub.Valid() && sub.state + sub.bytesLeft <= old(sub.state + sub.bytesLeft)
    ensures status && sub.bytesLeft == 0 <==> DecodePacked(f, held, old(sub.Left())).Some?
    ensures status && sub.bytesLeft == 0 ==> DecodePacked(f, held, old(sub.Left())) == Some(vs)
    ensures status ==> sub.state + sub.bytesLeft == old(sub.state + sub.bytesLeft)
  {
    status, vs := true, held;
    while sub.bytesLeft > 0 && |vs| < f.arraySize
      invariant sub.Valid() && sub.state + sub.bytesLeft == old(sub.state + sub.bytesLeft)
      invariant status && DecodePacked(f, held, old(sub.Left())) == DecodePacked(f, vs, sub.Left())
      decreases sub.bytesLeft
    {
      var v;
      status, v := DecodeScalarFrom(sub, f);
      if !status {
        break;
      }
      vs := vs + [v];
    }
  }

  /** decode_static_field. */
  method DecodeFieldFrom(s: IStream, wt: WireType, f: Field, dest: Dest, at: nat) returns (ok: bool)
    requires s.Valid() && WellFormedField(f) && LaidOutField(f)
    requires at in dest.cells && TypedCell(f, dest.cells[at])
    modifies s, dest
    ensures Filled(s, dest, at, DecodeCell(f, wt, old(dest.cells)[at], old(s.Left())), ok)
    decreases f, 2
  {
    hide WellFormedField, TypedValue, DecodeValue, DecodePackedCell;
    var v;
    var c := dest.cells[at];
    match f.htype
    case Required =>
      ok, v := DecodeValueFrom(s, f, c.v);
      dest.cells := dest.cells[at := Single(v)];
    case Singular =>
      ok, v := DecodeValueFrom(s, f, c.v);
      dest.cells := dest.cells[at := Single(v)];
    case Optional =>
      ok, v := DecodeValueFrom(s, f, c.v);
      dest.cells := dest.cells[at := Maybe(true, v)];
    case Repeated =>
      if wt == WT_STRING && f.ltype.Packable() {
        ok := DecodePackedFrom(s, f, dest, at);
      } else {
        if |c.vs| >= f.arraySize {
          return false;
        }
        DefaultValueTyped(f);
        ok, v := DecodeValueFrom(s, f, DefaultValue(f));
        dest.cells := dest.cells[at := Array(c.vs + [v])];
      }
    case Oneof =>
      DefaultValueTyped(f);
      ok, v := DecodeValueFrom(s, f, DefaultValue(f));
      dest.cells := dest.cells[at := Arm(f.tag, v)];
  }

  /** The descriptor and the two words that the decoding loop keeps. */
  ghost predicate Loop(iter: FieldIter, fieldsSeen: array<Word>, fields: Desc, dest: Dest, seen: set<nat>)
    reads iter, fieldsSeen, dest
  {
    && iter.Valid() && iter.start == fields
    && fieldsSeen.Length == 2 && TypedMsg(fields, dest.cells)
    && Tracks(fields, fieldsSeen[0], fieldsSeen[1], seen)
  }

  /** pb_decode_noinit. */
  method DecodeNoinit(s: IStream, fields: Desc, dest: Dest) returns (ok: bool)
    requires s.Valid() && WellFormed(fields) && LaidOut(fields) && TypedMsg(fields, dest.cells)
    modifies s, dest
    ensures s.Valid() && s.state + s.bytesLeft <= old(s.state + s.bytesLeft)
    ensures ok <==> DecodeMessage(fields, old(dest.cells), old(s.Left())).Some?
    ensures ok ==> DecodeMessage(fields, old(dest.cells), old(s.Left())) == Some((dest.cells, s.Left()))
    ensures ok ==> s.state + s.bytesLeft == old(s.state + s.bytesLeft)
    decreases fields, 2
  {
    hide WellFormedField, LaidOutField, TypedCells, Adjacent, RequiredBefore, DecodeFields;
    var fieldsSeen := new Word[2](_ => LowBits(0));
    var iter := new FieldIter.Begin(fields);
    ghost var seen: set<nat> := {};
    NothingSeen(fields);
    while s.bytesLeft > 0
      invariant fresh(iter) && fresh(fieldsSeen) && s.Valid()
      invariant s.state + s.bytesLeft == old(s.state + s.bytesLeft)
      invariant Loop(iter, fieldsSeen, fields, dest, seen)
      invariant DecodeFields(fields, dest.cells, seen, s.Left()) ==
                DecodeFields(fields, old(dest.cells), {}, old(s.Left()))
      modifies s, dest, iter, fieldsSeen
      decreases s.bytesLeft
    {
      ghost var m, bs := dest.cells, s.Left();
      var more, wt, tag, eof := s.DecodeTag();
      KeyStep(fields, m, seen, bs);
      if !more {
        if eof {
          break;
        }
        return false;
      }
      var step: bool;
      step, seen := DecodeOne(s, iter, fieldsSeen, fields, dest, wt, tag, seen);
      if !step {
        return false;
      }
    }
    EmptyStep(fields, dest.cells, seen);
    ok := CheckRequired(iter, fieldsSeen, seen);
  }

  lemma NothingSeen(fields: Desc)
    ensures Tracks(fields, LowBits(0), LowBits(0), {})
  {
  }

  lemma EmptyStep(fields: Desc, m: Msg, seen: set<nat>)
    requires WellFormed(fields) && TypedMsg(fields, m)
    ensures DecodeFields(fields, m, seen, []) == Stopped(m, seen, [])
  {
  }

  /** One round of the loop behind a key: skip an unknown field, or note and decode a known one. */
  method DecodeOne(s: IStream, iter: FieldIter, fieldsSeen: array<Word>, fields: Desc, dest: Dest,
                   wt: WireType, tag: nat, ghost seen: set<nat>)
    returns (ok: bool, ghost seen': set<nat>)
    requires s.Valid() && WellFormed(fields) && LaidOut(fields)
    requires Loop(iter, fieldsSeen, fields, dest, seen)
    modifies s, dest, iter, fieldsSeen
    ensures s.Valid() && s.state + s.bytesLeft <= old(s.state + s.bytesLeft)
    ensures ok ==> s.state + s.bytesLeft == old(s.state + s.bytesLeft)
    ensures var next := AfterKey(fields, old(dest.cells), seen, wt, tag, old(s.Left()));
            && ok == next.Stopped?
            && (ok ==> next == Stopped(dest.cells, seen', s.Left()))
    ensures ok ==> Loop(iter, fieldsSeen, fields, dest, seen')
    decreases fields, 1
  {
    hide WellFormedField, LaidOutField, TypedCells, Adjacent, RequiredBefore, DecodeCell;
    seen' := seen;
    var known := iter.Find(tag);
    if !known {
      ok := s.SkipField(wt);
      return;
    }
    if fields == [] {
      // The terminator passes for a required varint of size 0, which cannot be stored.
      var read, word := s.DecodeVarint();
      return false, seen;
    }
    ok, seen' := DecodeKnown(s, iter, fieldsSeen, fields, dest, wt, tag, seen);
  }

  method DecodeKnown(s: IStream, iter: FieldIter, fieldsSeen: array<Word>, fields: Desc, dest: Dest,
                     wt: WireType, ghost tag: nat, ghost seen: set<nat>)
    returns (ok: bool, ghost seen': set<nat>)
    requires s.Valid() && WellFormed(fields) && LaidOut(fields) && fields != []
    requires Loop(iter, fieldsSeen, fields, dest, seen) && FindField(fields, tag) == Some(iter.pos)
    modifies s, dest, fieldsSeen
    ensures s.Valid() && s.state + s.bytesLeft <= old(s.state + s.bytesLeft)
    ensures ok ==> s.state + s.bytesLeft == old(s.state + s.bytesLeft)
    ensures var next := AfterKey(fields, old(dest.cells), seen, wt, tag, old(s.Left()));
            && ok == next.Stopped?
            && (ok ==> next == Stopped(dest.cells, seen', s.Left()))
    ensures ok ==> Loop(iter, fieldsSeen, fields, dest, seen')
    decreases fields, 0
  {
    hide WellFormedField, LaidOutField, TypedCells, Adjacent, RequiredBefore, DecodeCell, Tracks, FindField;
    var f, at := fields[iter.pos], iter.pData;
    FieldReady(fields, dest.cells, iter.pos);
    seen' := NoteRequired(iter, fieldsSeen, seen);
    ok := DecodeFieldFrom(s, wt, f, dest, at);
  }

  lemma FieldReady(fields: Desc, m: Msg, i: nat)
    requires WellFormed(fields) && LaidOut(fields) && TypedMsg(fields, m) && i < |fields|
    ensures WellFormedField(fields[i]) && LaidOutField(fields[i])
    ensures fields[i].member in m && TypedCell(fields[i], m[fields[i].member])
  {
  }

  /** The bit for the field at the iterator. */
  method NoteRequired(iter: FieldIter, fieldsSeen: array<Word>, ghost seen: set<nat>) returns (ghost seen': set<nat>)
    requires iter.Valid() && iter.pos < |iter.start| && DistinctTags(iter.start)
    requires fieldsSeen.Length == 2 && RequiredBefore(iter.start, |iter.start|) < 64
    requires Tracks(iter.start, fieldsSeen[0], fieldsSeen[1], seen)
    modifies fieldsSeen
    ensures seen' == Met(iter.start[iter.pos], seen)
    ensures Tracks(iter.start, fieldsSeen[0], fieldsSeen[1], seen')
  {
    seen' := seen;
    if iter.start[iter.pos].htype.Required? && iter.requiredIndex < 64 {
      RequiredBeforeMonotonic(iter.start, iter.pos, |iter.start|);
      var k := iter.requiredIndex;
      var w0, w1 := fieldsSeen[0], fieldsSeen[1];
      fieldsSeen[k / 32] := fieldsSeen[k / 32][k % 32 := true];
      seen' := seen + {iter.start[iter.pos].tag};
      MarkTracks(iter.start, w0, w1, seen, iter.pos, fieldsSeen[0], fieldsSeen[1]);
    } else {
      RequiredBeforeMonotonic(iter.start, iter.pos, |iter.start|);
    }
  }

  /** The state in which the loop goes round again after the key `tag`, `wt`. */
  ghost function AfterKey(fields: Desc, m: Msg, seen: set<nat>, wt: WireType, tag: nat, bs: seq<byte>): (r: Progress)
    requires WellFormed(fields) && TypedMsg(fields, m)
    ensures r.Stopped? ==> TypedMsg(fields, r.m) && |r.rest| <= |bs|
  {
    match FindField(fields, tag)
    case None =>
      if fields == [] && tag == 0 then Stuck
      else (match Skip(wt, bs)
            case None => Stuck
            case Some(after) => Stopped(m, seen, after))
    case Some(i) =>
      match DecodeCell(fields[i], wt, m[fields[i].member], bs)
      case None => Stuck
      case Some((c, after)) =>
        StoreTyped(fields, m, i, c);
        Stopped(m[fields[i].member := c], Met(fields[i], seen), after)
  }

  /** One unfolding of the loop. */
  ghost function Unfolded(fields: Desc, m: Msg, seen: set<nat>, k: Key): Progress
    requires WellFormed(fields) && TypedMsg(fields, m)
  {
    match k
    case BadKey => Stuck
    case Eof(rest) => Stopped(m, seen, rest)
    case Key(tag, wt, rest) =>
      var next := AfterKey(fields, m, seen, wt, tag, rest);
      if next.Stuck? then Stuck else DecodeFields(fields, next.m, next.seen, next.rest)
  }

  lemma KeyStep(fields: Desc, m: Msg, seen: set<nat>, bs: seq<byte>)
    requires WellFormed(fields) && TypedMsg(fields, m) && bs != []
    ensures DecodeFields(fields, m, seen, bs) == Unfolded(fields, m, seen, ReadKey(bs))
  {
  }

  /** pb_decode: defaults first, whatever the structure held. */
  method DecodeInto(s: IStream, fields: Desc, dest: Dest) returns (ok: bool)
    requires s.Valid() && WellFormed(fields) && LaidOut(fields) && dest.cells.Keys == Members(fields)
    modifies s, dest
    ensures s.Valid() && TypedMsg(fields, Defaults(fields))
    ensures ok <==> DecodeMessage(fields, Defaults(fields), old(s.Left())).Some?
    ensures ok ==> DecodeMessage(fields, Defaults(fields), old(s.Left())) == Some((dest.cells, s.Left()))
  {
    DefaultsTyped(fields);
    SetToDefaults(fields, dest);
    ok := DecodeNoinit(s, fields, dest);
  }
}
