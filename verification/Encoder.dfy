/** pb_encode as it runs: output streams that count or write, and methods that walk a
    descriptor.  Each is proved against its function in `EncodeSpec`. */
module Encoder {
  import opened Wrappers
  import opened Wire
  import opened Schema
  import opened EncodeSpec
  import opened FieldIterator

  /** pb_ostream_t.  A stream without a callback only counts; a stream with one writes into a
      buffer, behind the bytes already there.  Substreams share the buffer.

      `taken` is what the stream has accepted and `base` where in the buffer it began. */
  class OStream {
    const writes: bool
    const buf: array<byte>
    const maxSize: nat
    var state: nat
    var bytesWritten: nat
    ghost const base: nat
    ghost var taken: seq<byte>

    ghost predicate Valid()
      reads this, buf
    {
      && bytesWritten == |taken|
      && (writes ==>
            && |taken| <= maxSize && base + maxSize <= buf.Length
            && state == base + |taken| && buf[base..state] == taken)
    }

    constructor Sizing()
      ensures Valid() && !writes && taken == []
      ensures fresh(buf)
    {
      writes := false;
      buf := new byte[0];
      maxSize := 0;
      state := 0;
      bytesWritten := 0;
      base := 0;
      taken := [];
    }

    constructor FromBuffer(out: array<byte>, size: nat)
      requires size <= out.Length
      ensures Valid() && writes && buf == out && base == 0 && maxSize == size && taken == []
    {
      writes := true;
      buf := out;
      maxSize := size;
      state := 0;
      bytesWritten := 0;
      base := 0;
      taken := [];
    }

    /** The second pass of a submessage writes through a stream limited to the counted size. */
    constructor Limited(parent: OStream, size: nat)
      requires parent.Valid() && parent.writes && parent.bytesWritten + size <= parent.maxSize
      ensures Valid() && writes && buf == parent.buf && base == parent.state && maxSize == size && taken == []
    {
      writes := true;
      buf := parent.buf;
      maxSize := size;
      state := parent.state;
      bytesWritten := 0;
      base := parent.state;
      taken := [];
    }

    /** The stream has taken `e` if that is `Some` and there was room for all of it; otherwise it
        has failed.  Either way it has written nothing outside its part of the buffer. */
    twostate predicate Took(new e: Option<seq<byte>>, ok: bool)
      reads this, buf
    {
      && Valid()
      && (ok <==> e.Some? && (writes ==> old(|taken|) + |e.value| <= maxSize))
      && (ok ==> taken == old(taken) + e.value)
      && (writes ==> buf[..base] == old(buf[..base]) && buf[base + maxSize..] == old(buf[base + maxSize..]))
    }

    /** pb_write. */
    method Write(bs: seq<byte>) returns (ok: bool)
      requires Valid()
      modifies this, buf
      ensures Took(Some(bs), ok)
    {
      if writes {
        if bytesWritten + |bs| > maxSize {
          return false;
        }
        var dest := state;
        state := dest + |bs|;
        var i := 0;
        while i < |bs|
          invariant 0 <= i <= |bs| && state == dest + |bs|
          invariant bytesWritten == old(bytesWritten) && taken == old(taken)
          invariant buf[..base] == old(buf[..base])
          invariant buf[base..dest] == taken && buf[dest..dest + i] == bs[..i]
          invariant buf[base + maxSize..] == old(buf[base + maxSize..])
          modifies buf
        {
          buf[dest + i] := bs[i];
          i := i + 1;
        }
        assert buf[base..state] == buf[base..dest] + buf[dest..dest + |bs|];
      }
      bytesWritten := bytesWritten + |bs|;
      taken := taken + bs;
      return true;
    }

    /** pb_write without data, which a counting stream accepts: the count of `bs`. */
    method Count(size: nat, ghost bs: seq<byte>)
      requires Valid() && !writes && size == |bs|
      modifies this
      ensures Valid() && taken == old(taken) + bs
    {
      bytesWritten := bytesWritten + size;
      taken := taken + bs;
    }
  }

  // ----- varints, keys and words

  /** The top bit of the last byte unset. */
  function Closed(bs: seq<byte>): seq<byte>
    requires bs != []
  {
    bs[|bs| - 1 := bs[|bs| - 1] % 128]
  }

  lemma LastGroup(buffer: seq<byte>, v: nat)
    requires v < 128
    ensures Closed(buffer + [128 + v % 128]) == buffer + VarintBytes(v)
  {
  }

  lemma InnerGroup(buffer: seq<byte>, v: nat)
    requires v >= 128
    ensures buffer + VarintBytes(v) == (buffer + [128 + v % 128]) + VarintBytes(v / 128)
  {
    assert VarintBytes(v) == [128 + v % 128] + VarintBytes(v / 128);
  }

  /** The group loop of pb_encode_varint. */
  method VarintBuffer(value: nat) returns (buffer: seq<byte>)
    requires value > 0
    ensures buffer == VarintBytes(value)
  {
    buffer := [];
    var v: nat := value;
    while v != 0
      invariant v > 0 ==> VarintBytes(value) == buffer + VarintBytes(v)
      invariant v == 0 ==> buffer != [] && Closed(buffer) == VarintBytes(value)
      decreases v
    {
      if v < 128 {
        LastGroup(buffer, v);
      } else {
        InnerGroup(buffer, v);
      }
      buffer := buffer + [128 + v % 128];
      v := v / 128;
    }
    buffer := Closed(buffer);
  }

  method EncodeVarintTo(s: OStream, value: nat) returns (ok: bool)
    requires s.Valid()
    modifies s, s.buf
    ensures s.Took(Some(VarintBytes(value)), ok)
  {
    if value <= 0x7F {
      ok := s.Write([value]);
    } else {
      var buffer := VarintBuffer(value);
      ok := s.Write(buffer);
    }
  }

  method EncodeKeyTo(s: OStream, wt: WireType, tag: nat) returns (ok: bool)
    requires s.Valid()
    modifies s, s.buf
    ensures s.Took(Some(KeyBytes(tag, wt)), ok)
  {
    ok := EncodeVarintTo(s, tag * 8 + wt);
  }

  method EncodeStringTo(s: OStream, bs: seq<byte>) returns (ok: bool)
    requires s.Valid()
    modifies s, s.buf
    ensures s.Took(Some(Delimited(bs)), ok)
  {
    ok := EncodeVarintTo(s, |bs|);
    if ok {
      ok := s.Write(bs);
    }
  }

  /** The length of a string field: the loop of pb_enc_string. */
  method StringLength(f: Field, bs: seq<byte>) returns (size: nat)
    requires |bs| <= f.dataSize
    ensures size <= |bs| && CString(bs) == bs[..size]
  {
    size := 0;
    while size < f.dataSize && size < |bs| && bs[size] != 0
      invariant size <= |bs| && 0 !in bs[..size]
    {
      size := size + 1;
    }
    StopsAtZero(bs, size);
  }

  lemma {:induction false} StopsAtZero(bs: seq<byte>, size: nat)
    requires size <= |bs| && 0 !in bs[..size] && (size == |bs| || bs[size] == 0)
    ensures CString(bs) == bs[..size]
    decreases size
  {
    if size > 0 {
      assert bs[..size][0] == bs[0];
      assert bs[..size] == [bs[0]] + bs[1..][..size - 1];
      StopsAtZero(bs[1..], size - 1);
    }
  }

  // ----- the proto3 test

  /** pb_check_proto3_default_value. */
  method CheckZero(f: Field, c: Cell) returns (zero: bool)
    requires TypedCell(f, c) && LaidOutField(f)
    ensures zero == IsZeroCell(f, c)
    decreases f, 1
  {
    match c
    case Single(v) => zero := CheckZeroValue(f, v);
    case Maybe(_, v) => zero := CheckZeroValue(f, v);
    case Array(vs) =>
      if vs == [] {
        zero := IsZeroBlank(f);
      } else {
        zero := CheckZeroValue(f, vs[0]);
      }
    case Empty => zero := IsZeroBlank(f);
    case Arm(which, v) =>
      if which == f.tag {
        zero := CheckZeroValue(f, v);
      } else {
        zero := IsZeroBlank(f);
      }
  }

  method CheckZeroValue(f: Field, v: Value) returns (zero: bool)
    requires TypedValue(f, v) && LaidOutField(f)
    ensures zero == IsZeroValue(f, v)
    decreases f, 0
  {
    match f.ltype
    case Bytes => zero := |v.bs| == 0;
    case String => zero := v.bs == [] || v.bs[0] == 0;
    case FixedBytes => zero := f.dataSize == 0;
    case Submessage(fields) => zero := CheckZeroFields(fields, v.cells);
    case _ => zero := v.n == 0;
  }

  method CheckZeroFields(fields: Desc, m: Msg) returns (zero: bool)
    requires TypedCells(fields, m) && LaidOut(fields)
    ensures zero == IsZeroMsg(fields, m)
    decreases fields, 0
  {
    if fields == [] {
      return true;
    }
    var iter := new FieldIter.Begin(fields);
    while true
      invariant fresh(iter) && iter.Valid() && iter.start == fields
      invariant forall i :: 0 <= i < iter.pos ==> IsZeroCell(fields[i], m[fields[i].member])
      decreases |fields| - iter.pos
    {
      var z := CheckZero(fields[iter.pos], m[iter.pData]);
      if !z {
        return false;
      }
      var more := iter.Next();
      if !more {
        break;
      }
    }
    return true;
  }

  // ----- values, fields and messages

  method EncodeValueTo(s: OStream, f: Field, v: Value) returns (ok: bool)
    requires s.Valid() && TypedValue(f, v) && LaidOutField(f)
    modifies s, s.buf
    ensures s.Took(EncodeValue(f, v), ok)
    decreases f, 1
  {
    match f.ltype
    case Varint =>
      if f.dataSize !in {1, 2, 4, 8} {
        return false;
      }
      ok := EncodeVarintTo(s, ToWord(v.n));
    case UVarint =>
      if f.dataSize !in {1, 2, 4, 8} {
        return false;
      }
      ok := EncodeVarintTo(s, v.n);
    case SVarint =>
      if f.dataSize !in {1, 2, 4, 8} {
        return false;
      }
      ok := EncodeVarintTo(s, ZigZag(v.n));
    case Fixed32 => ok := s.Write(LittleEndian(v.n, 4));
    case Fixed64 => ok := s.Write(LittleEndian(v.n, 8));
    case Bytes =>
      if |v.bs| + BYTES_HEADER > f.dataSize {
        return false;
      }
      ok := EncodeStringTo(s, v.bs);
    case String =>
      var size := StringLength(f, v.bs);
      ok := EncodeStringTo(s, v.bs[..size]);
    case FixedBytes => ok := EncodeStringTo(s, v.bs);
    case Submessage(fields) => ok := EncodeSubmessageTo(s, fields, v.cells);
  }

  /** pb_encode_submessage: the nested message is counted, and then written through a stream
      limited to the count.  That the two passes disagree, the error the source guards against,
      cannot happen. */
  method EncodeSubmessageTo(s: OStream, fields: Desc, m: Msg) returns (ok: bool)
    requires s.Valid() && TypedCells(fields, m) && LaidOut(fields)
    modifies s, s.buf
    ensures var body := EncodeFields(fields, m);
            s.Took(if body.None? then None else Some(Delimited(body.value)), ok)
    decreases fields, 3
  {
    hide EncodeFields, TypedCells, VarintBytes;
    var sizing := new OStream.Sizing();
    ok := EncodeMessageTo(sizing, fields, m);
    if !ok {
      return false;
    }
    var size := sizing.bytesWritten;
    ok := EncodeVarintTo(s, size);
    if !ok {
      return false;
    }
    if !s.writes {
      s.Count(size, sizing.taken);
      return true;
    }
    ok := EncodeBodyTo(s, size, fields, m);
  }

  /** The second pass. */
  method EncodeBodyTo(s: OStream, size: nat, fields: Desc, m: Msg) returns (ok: bool)
    requires s.Valid() && s.writes && TypedCells(fields, m) && LaidOut(fields)
    requires EncodeFields(fields, m).Some? && size == |EncodeFields(fields, m).value|
    modifies s, s.buf
    ensures s.Took(EncodeFields(fields, m), ok)
    decreases fields, 2
  {
    hide EncodeFields, TypedCells, LaidOut;
    if s.bytesWritten + size > s.maxSize {
      return false;
    }
    var substream := new OStream.Limited(s, size);
    ghost var prefix := s.buf[..s.base];
    ghost var before := s.buf[..s.state];
    ok := EncodeMessageTo(substream, fields, m);
    assert s.buf[..substream.base] == before;
    assert s.buf[s.base..substream.base] == before[s.base..];
    assert s.buf[..s.base] == before[..s.base] == prefix;
    s.bytesWritten := s.bytesWritten + substream.bytesWritten;
    s.state := substream.state;
    s.taken := s.taken + substream.taken;
    assert s.buf[s.base..s.state] == s.buf[s.base..substream.base] + s.buf[substream.base..s.state];
    PastEnd(s, old(s.buf[..]), substream.base + size);
    assert ok && substream.bytesWritten == size;
    if substream.bytesWritten != size {
      return false;
    }
  }

  lemma PastEnd(s: OStream, before: seq<byte>, from: nat)
    requires |before| == s.buf.Length && from <= s.base + s.maxSize <= |before|
    requires s.buf[from..] == before[from..]
    ensures s.buf[s.base + s.maxSize..] == before[s.base + s.maxSize..]
  {
    var n := s.base + s.maxSize - from;
    assert s.buf[from..][n..] == s.buf[s.base + s.maxSize..];
    assert before[from..][n..] == before[s.base + s.maxSize..];
  }

  method EncodeTaggedTo(s: OStream, f: Field, v: Value) returns (ok: bool)
    requires s.Valid() && TypedValue(f, v) && LaidOutField(f)
    modifies s, s.buf
    ensures s.Took(EncodeTagged(f, v), ok)
    decreases f, 2
  {
    ok := EncodeKeyTo(s, FieldWireType(f.ltype), f.tag);
    if ok {
      ok := EncodeValueTo(s, f, v);
    }
  }

  /** The element loop of a packed array, which runs on a counting stream and then on the real
      one. */
  method EncodeElementsTo(s: OStream, f: Field, vs: seq<Value>) returns (ok: bool)
    requires s.Valid() && LaidOutField(f)
    requires forall i :: 0 <= i < |vs| ==> TypedValue(f, vs[i])
    modifies s, s.buf
    ensures s.Took(EncodeElements(f, vs), ok)
    decreases f, 3
  {
    hide TypedValue, EncodeValue;
    ghost var done: seq<byte> := [];
    assert vs[0..] == vs;
    ConcatNothing(EncodeElements(f, vs));
    var i := 0;
    while i < |vs|
      invariant 0 <= i <= |vs|
      invariant EncodeElements(f, vs) == Concat(Some(done), EncodeElements(f, vs[i..]))
      invariant s.Took(Some(done), true)
      modifies s, s.buf
    {
      NextElement(f, vs, i, done);
      ok := EncodeValueTo(s, f, vs[i]);
      if !ok {
        return false;
      }
      done := done + EncodeValue(f, vs[i]).value;
      i := i + 1;
    }
    return true;
  }

  lemma NextElement(f: Field, vs: seq<Value>, i: nat, done: seq<byte>)
    requires i < |vs| && forall k :: 0 <= k < |vs| ==> TypedValue(f, vs[k])
    requires EncodeElements(f, vs) == Concat(Some(done), EncodeElements(f, vs[i..]))
    ensures EncodeElements(f, vs) ==
            Concat(Concat(Some(done), EncodeValue(f, vs[i])), EncodeElements(f, vs[i + 1..]))
  {
    hide TypedValue, EncodeValue;
    assert vs[i..][1..] == vs[i + 1..];
    ConcatAssociative(Some(done), EncodeValue(f, vs[i]), EncodeElements(f, vs[i + 1..]));
  }

  lemma ConcatNothing(a: Option<seq<byte>>)
    ensures Concat(Some([]), a) == a && Concat(a, Some([])) == a
  {
    if a.Some? {
      assert [] + a.value == a.value && a.value + [] == a.value;
    }
  }

  lemma ConcatAssociative(a: Option<seq<byte>>, b: Option<seq<byte>>, c: Option<seq<byte>>)
    ensures Concat(a, Concat(b, c)) == Concat(Concat(a, b), c)
  {
    if a.Some? && b.Some? && c.Some? {
      assert a.value + (b.value + c.value) == (a.value + b.value) + c.value;
    }
  }

  method EncodeTaggedElementsTo(s: OStream, f: Field, vs: seq<Value>) returns (ok: bool)
    requires s.Valid() && LaidOutField(f)
    requires forall i :: 0 <= i < |vs| ==> TypedValue(f, vs[i])
    modifies s, s.buf
    ensures s.Took(EncodeTaggedElements(f, vs), ok)
    decreases f, 3
  {
    hide TypedValue, EncodeTagged;
    ghost var done: seq<byte> := [];
    assert vs[0..] == vs;
    ConcatNothing(EncodeTaggedElements(f, vs));
    var i := 0;
    while i < |vs|
      invariant 0 <= i <= |vs|
      invariant EncodeTaggedElements(f, vs) == Concat(Some(done), EncodeTaggedElements(f, vs[i..]))
      invariant s.Took(Some(done), true)
      modifies s, s.buf
    {
      NextTaggedElement(f, vs, i, done);
      ok := EncodeTaggedTo(s, f, vs[i]);
      if !ok {
        return false;
      }
      done := done + EncodeTagged(f, vs[i]).value;
      i := i + 1;
    }
    return true;
  }

  lemma NextTaggedElement(f: Field, vs: seq<Value>, i: nat, done: seq<byte>)
    requires i < |vs| && forall k :: 0 <= k < |vs| ==> TypedValue(f, vs[k])
    requires EncodeTaggedElements(f, vs) == Concat(Some(done), EncodeTaggedElements(f, vs[i..]))
    ensures EncodeTaggedElements(f, vs) ==
            Concat(Concat(Some(done), EncodeTagged(f, vs[i])), EncodeTaggedElements(f, vs[i + 1..]))
  {
    hide TypedValue, EncodeTagged;
    assert vs[i..][1..] == vs[i + 1..];
    ConcatAssociative(Some(done), EncodeTagged(f, vs[i]), EncodeTaggedElements(f, vs[i + 1..]));
  }

  /** A packed array: its key, the size of its elements, and the elements. */
  method EncodePackedTo(s: OStream, f: Field, vs: seq<Value>) returns (ok: bool)
    requires s.Valid() && LaidOutField(f) && f.ltype.Packable() && vs != []
    requires forall i :: 0 <= i < |vs| ==> TypedValue(f, vs[i])
    modifies s, s.buf
    ensures var body := EncodeElements(f, vs);
            s.Took(if body.None? then None else Some(KeyBytes(f.tag, WT_STRING) + Delimited(body.value)), ok)
    decreases f, 4
  {
    hide TypedValue, LaidOutField, EncodeValue, EncodeElements, KeyBytes, VarintBytes;
    ok := EncodeKeyTo(s, WT_STRING, f.tag);
    if !ok {
      return false;
    }
    var size := 0;
    if f.ltype.Fixed32? {
      FixedElements(f, vs, 4);
      size := 4 * |vs|;
    } else if f.ltype.Fixed64? {
      FixedElements(f, vs, 8);
      size := 8 * |vs|;
    } else {
      var sizing := new OStream.Sizing();
      ok := EncodeElementsTo(sizing, f, vs);
      if !ok {
        return false;
      }
      size := sizing.bytesWritten;
    }
    ok := EncodeVarintTo(s, size);
    if !ok {
      return false;
    }
    if !s.writes {
      s.Count(size, EncodeElements(f, vs).value);
      return true;
    }
    ok := EncodeElementsTo(s, f, vs);
    if ok {
      Glue(old(s.taken), KeyBytes(f.tag, WT_STRING), VarintBytes(size), EncodeElements(f, vs).value);
    }
  }

  lemma Glue(a: seq<byte>, b: seq<byte>, c: seq<byte>, d: seq<byte>)
    ensures ((a + b) + c) + d == a + (b + (c + d))
  {
  }

  lemma {:induction false} FixedElements(f: Field, vs: seq<Value>, width: nat)
    requires (f.ltype.Fixed32? && width == 4) || (f.ltype.Fixed64? && width == 8)
    requires forall i :: 0 <= i < |vs| ==> TypedValue(f, vs[i])
    ensures EncodeElements(f, vs).Some? && |EncodeElements(f, vs).value| == width * |vs|
    decreases |vs|
  {
    if vs != [] {
      FixedElements(f, vs[1..], width);
    }
  }

  /** encode_array. */
  method EncodeArrayTo(s: OStream, f: Field, vs: seq<Value>) returns (ok: bool)
    requires s.Valid() && LaidOutField(f)
    requires forall i :: 0 <= i < |vs| ==> TypedValue(f, vs[i])
    modifies s, s.buf
    ensures s.Took(EncodeArray(f, vs), ok)
    decreases f, 5
  {
    hide TypedValue, EncodeElements, EncodeTaggedElements;
    if |vs| == 0 {
      return true;
    }
    if |vs| > f.arraySize {
      return false;
    }
    if f.ltype.Packable() {
      ok := EncodePackedTo(s, f, vs);
    } else {
      ok := EncodeTaggedElementsTo(s, f, vs);
    }
  }

  /** encode_basic_field. */
  method EncodeFieldTo(s: OStream, f: Field, c: Cell) returns (ok: bool)
    requires s.Valid() && TypedCell(f, c) && LaidOutField(f)
    modifies s, s.buf
    ensures s.Took(EncodeField(f, c), ok)
    decreases f, 6
  {
    hide TypedValue, EncodeArray, EncodeTagged, IsZeroValue;
    match f.htype
    case Required => ok := EncodeTaggedTo(s, f, c.v);
    case Singular =>
      var zero := CheckZero(f, c);
      if zero {
        return true;
      }
      ok := EncodeTaggedTo(s, f, c.v);
    case Optional =>
      if !c.has {
        return true;
      }
      ok := EncodeTaggedTo(s, f, c.v);
    case Repeated => ok := EncodeArrayTo(s, f, c.vs);
    case Oneof =>
      if c.Empty? || c.which != f.tag {
        return true;
      }
      ok := EncodeTaggedTo(s, f, c.v);
  }

  /** pb_encode walks the descriptor with the field iterator. */
  method EncodeMessageTo(s: OStream, fields: Desc, m: Msg) returns (ok: bool)
    requires s.Valid() && TypedCells(fields, m) && LaidOut(fields)
    modifies s, s.buf
    ensures s.Took(EncodeFields(fields, m), ok)
    decreases fields, 1
  {
    hide TypedCell, LaidOutField, Adjacent, RequiredBefore, EncodeField;
    if fields == [] {
      return true;
    }
    hide EncodeFields;
    var iter := new FieldIter.Begin(fields);
    ghost var done: seq<byte> := [];
    assert fields[0..] == fields;
    ConcatNothing(EncodeFields(fields, m));
    while true
      invariant fresh(iter) && iter.Valid() && iter.start == fields
      invariant EncodeFields(fields, m) == Concat(Some(done), EncodeFields(fields[iter.pos..], m))
      invariant s.Took(Some(done), true)
      modifies s, s.buf, iter
      decreases |fields| - iter.pos
    {
      ghost var i := iter.pos;
      NextField(fields, m, i, done);
      ok := EncodeFieldTo(s, fields[iter.pos], m[iter.pData]);
      if !ok {
        return false;
      }
      done := done + EncodeField(fields[i], m[fields[i].member]).value;
      var more := iter.Next();
      if !more {
        break;
      }
    }
    return true;
  }

  lemma NextField(fields: Desc, m: Msg, i: nat, done: seq<byte>)
    requires i < |fields| && TypedCells(fields, m)
    requires EncodeFields(fields, m) == Concat(Some(done), EncodeFields(fields[i..], m))
    ensures TypedCells(fields[i + 1..], m)
    ensures EncodeFields(fields, m) ==
            Concat(Concat(Some(done), EncodeField(fields[i], m[fields[i].member])), EncodeFields(fields[i + 1..], m))
    ensures i + 1 == |fields| ==> EncodeFields(fields[i + 1..], m) == Some([])
  {
    hide TypedCell, EncodeField;
    assert fields[i..][1..] == fields[i + 1..];
    assert TypedCells(fields[i..], m);
    ConcatAssociative(Some(done), EncodeField(fields[i], m[fields[i].member]), EncodeFields(fields[i + 1..], m));
  }

  /** pb_get_encoded_size: the counting pass alone. */
  method EncodedSize(fields: Desc, m: Msg) returns (ok: bool, size: nat)
    requires TypedCells(fields, m) && LaidOut(fields)
    ensures ok <==> EncodeFields(fields, m).Some?
    ensures ok ==> size == |EncodeFields(fields, m).value|
  {
    var s := new OStream.Sizing();
    ok := EncodeMessageTo(s, fields, m);
    size := s.bytesWritten;
  }

  /** Encoding into a buffer succeeds exactly when the message can be sized and its size is at
      most the buffer's; the bytes are those counted, and nothing behind the buffer changes. */
  method EncodeToBuffer(out: array<byte>, size: nat, fields: Desc, m: Msg) returns (ok: bool, length: nat)
    requires size <= out.Length && TypedCells(fields, m) && LaidOut(fields)
    modifies out
    ensures ok <==> EncodeFields(fields, m).Some? && |EncodeFields(fields, m).value| <= size
    ensures ok ==> length == |EncodeFields(fields, m).value| && out[..length] == EncodeFields(fields, m).value
    ensures out[size..] == old(out[size..])
  {
    var s := new OStream.FromBuffer(out, size);
    ok := EncodeMessageTo(s, fields, m);
    length := s.bytesWritten;
    assert ok ==> out[..length] == s.taken;
  }
}
