/** What pb_decode makes of a stream, as a function of the descriptor, the structure it
    starts from and the bytes left.  `None` is a false return. */
module DecodeSpec {
  import opened Wrappers
  import opened Bits
  import opened Wire
  import opened Schema

  type Decoded = Option<(Value, seq<byte>)>

  // ----- values that are not submessages

  /** Stores a number that a varint carried, or finds that the member is too narrow. */
  function NarrowSigned(value: int, size: nat): Option<Value>
    requires size in {1, 2, 4, 8}
  {
    var n := SignedOf(value, size);
    if n == value then Some(Int(n)) else None
  }

  function DecodeNumber(f: Field, bs: seq<byte>): (r: Decoded)
    requires f.ltype.Varint? || f.ltype.UVarint? || f.ltype.SVarint?
    ensures r.Some? ==> |r.value.1| < |bs|
    ensures r.Some? ==> TypedValue(f, r.value.0)
  {
    match ReadVarint(bs)
    case Failed(_) => None
    case Parsed(word, rest) =>
      if f.dataSize !in {1, 2, 4, 8} then None
      else
        var stored :=
          if f.ltype.Varint? then
            NarrowSigned(SignedOf(word, if f.dataSize == 8 then 8 else 4), f.dataSize)
          else if f.ltype.SVarint? then NarrowSigned(UnZigZag(word), f.dataSize)
          else if word < Modulus(f.dataSize) then Some(Int(word)) else None;
        if stored.Some? then Some((stored.value, rest)) else None
  }

  function DecodeWord(size: nat, bs: seq<byte>): (r: Decoded)
    requires size > 0
    ensures r.Some? ==> |r.value.1| < |bs|
    ensures r.Some? ==> r.value.0.Int? && 0 <= r.value.0.n < Shl(1, 8 * size)
  {
    if |bs| < size then None
    else
      FromLittleEndianBound(bs[..size]);
      Some((Int(FromLittleEndian(bs[..size])), bs[size..]))
  }

  /** A length prefix and whether the stream holds that many bytes: the payload and the rest. */
  function ReadDelimitedBody(bs: seq<byte>): (r: Option<(seq<byte>, seq<byte>)>)
    ensures r.Some? ==> |r.value.0| < TWO_32
    ensures r.Some? ==> |r.value.0| + |r.value.1| < |bs|
  {
    match ReadVarint32(bs)
    case Failed(_) => None
    case Parsed(size, rest) =>
      if |rest| < size then None else Some((rest[..size], rest[size..]))
  }

  function DecodeBlob(f: Field, bs: seq<byte>): (r: Decoded)
    requires f.ltype.Bytes? || f.ltype.String? || f.ltype.FixedBytes?
    ensures r.Some? ==> |r.value.1| < |bs|
    ensures r.Some? ==> TypedValue(f, r.value.0)
  {
    match ReadDelimitedBody(bs)
    case None => None
    case Some((body, rest)) =>
      if f.ltype.Bytes? then
        if |body| + BYTES_HEADER > f.dataSize then None else Some((Blob(body), rest))
      else if f.ltype.String? then
        if |body| + 1 > f.dataSize then None else Some((Blob(body), rest))
      else if |body| == 0 then Some((Blob(Zeros(f.dataSize)), rest))
      else if |body| != f.dataSize then None
      else Some((Blob(body), rest))
  }

  function DecodeScalar(f: Field, bs: seq<byte>): (r: Decoded)
    requires !f.ltype.Submessage?
    ensures r.Some? ==> |r.value.1| < |bs|
    ensures r.Some? ==> TypedValue(f, r.value.0)
  {
    ShlWords();
    match f.ltype
    case Fixed32 => DecodeWord(4, bs)
    case Fixed64 => DecodeWord(8, bs)
    case Bytes => DecodeBlob(f, bs)
    case String => DecodeBlob(f, bs)
    case FixedBytes => DecodeBlob(f, bs)
    case Varint => DecodeNumber(f, bs)
    case UVarint => DecodeNumber(f, bs)
    case SVarint => DecodeNumber(f, bs)
  }

  /** Appends the elements of a packed array until the payload or the room for them ends;
      bytes left over are an error. */
  function DecodePacked(f: Field, vs: seq<Value>, body: seq<byte>): (r: Option<seq<Value>>)
    requires f.ltype.Packable()
    decreases |body|
  {
    if body == [] then Some(vs)
    else if |vs| >= f.arraySize then None
    else
      match DecodeScalar(f, body)
      case None => None
      case Some((v, rest)) => DecodePacked(f, vs + [v], rest)
  }

  // ----- messages

  /** The position of the field with a tag. */
  function FindField(fields: Desc, tag: nat): (r: Option<nat>)
    ensures r.Some? ==> r.value < |fields| && fields[r.value].tag == tag
    ensures r.None? ==> forall i :: 0 <= i < |fields| ==> fields[i].tag != tag
  {
    if fields == [] then None
    else if fields[0].tag == tag then Some(0)
    else
      var r := FindField(fields[1..], tag);
      assert forall i :: 1 <= i < |fields| ==> fields[i] == fields[1..][i - 1];
      if r.Some? then Some(r.value + 1) else None
  }

  function RequiredTags(fields: Desc): set<nat> {
    set i | 0 <= i < |fields| && fields[i].htype.Required? :: fields[i].tag
  }

  /** The decoding loop has failed, or has stopped with the structure as it now is, the tags of
      the required fields met, and the bytes it did not read. */
  datatype Progress = Stuck | Stopped(m: Msg, seen: set<nat>, rest: seq<byte>)

  /** Decodes a value over the one a member already holds. */
  function DecodeValue(f: Field, prev: Value, bs: seq<byte>): (r: Decoded)
    requires WellFormedField(f) && TypedValue(f, prev)
    ensures r.Some? ==> |r.value.1| < |bs|
    ensures r.Some? ==> TypedValue(f, r.value.0)
    decreases f, 0
  {
    match f.ltype
    case Submessage(fields) =>
      (match ReadDelimitedBody(bs)
       case None => None
       case Some((body, rest)) =>
         match DecodeMessage(fields, prev.cells, body)
         case None => None
         case Some((m, _)) => Some((Struct(m), rest)))
    case _ => DecodeScalar(f, bs)
  }

  /** What the next value of a field is decoded over: the value held, or a fresh one for an
      array element and for a oneof. */
  function Target(f: Field, c: Cell): (v: Value)
    requires WellFormedField(f) && TypedCell(f, c)
    ensures TypedValue(f, v)
  {
    DefaultValueTyped(f);
    if f.htype.Repeated? || f.htype.Oneof? then DefaultValue(f) else c.v
  }

  /** The member after a value has been decoded for it. */
  function Stored(f: Field, c: Cell, v: Value): (r: Cell)
    requires TypedCell(f, c) && TypedValue(f, v)
    ensures TypedCell(f, r) && (f.htype.Oneof? ==> r == Arm(f.tag, v))
  {
    match f.htype
    case Required => Single(v)
    case Singular => Single(v)
    case Optional => Maybe(true, v)
    case Repeated => Array(c.vs + [v])
    case Oneof => Arm(f.tag, v)
  }

  function DecodePackedCell(f: Field, c: Cell, bs: seq<byte>): (r: Option<(Cell, seq<byte>)>)
    requires f.htype.Repeated? && f.ltype.Packable() && TypedCell(f, c)
    ensures r.Some? ==> |r.value.1| <= |bs|
    ensures r.Some? ==> TypedCell(f, r.value.0)
  {
    match ReadDelimitedBody(bs)
    case None => None
    case Some((body, rest)) =>
      match DecodePacked(f, c.vs, body)
      case None => None
      case Some(vs) => DecodePackedTyped(f, c.vs, body); Some((Array(vs), rest))
  }

  /** Decodes one occurrence of a field into its member. */
  function DecodeCell(f: Field, wt: WireType, c: Cell, bs: seq<byte>): (r: Option<(Cell, seq<byte>)>)
    requires WellFormedField(f) && TypedCell(f, c)
    ensures r.Some? ==> |r.value.1| <= |bs|
    ensures r.Some? ==> TypedCell(f, r.value.0)
    ensures r.Some? && f.htype.Oneof? ==> r.value.0.Arm? && r.value.0.which == f.tag
    decreases f, 1
  {
    if f.htype.Repeated? && wt == WT_STRING && f.ltype.Packable() then DecodePackedCell(f, c, bs)
    else if f.htype.Repeated? && |c.vs| >= f.arraySize then None
    else
      match DecodeValue(f, Target(f, c), bs)
      case None => None
      case Some((v, rest)) => Some((Stored(f, c, v), rest))
  }

  lemma {:induction false} DecodePackedTyped(f: Field, vs: seq<Value>, body: seq<byte>)
    requires f.ltype.Packable()
    requires forall i :: 0 <= i < |vs| ==> TypedValue(f, vs[i])
    ensures var r := DecodePacked(f, vs, body);
            r.Some? ==> forall i :: 0 <= i < |r.value| ==> TypedValue(f, r.value[i])
    decreases |body|
  {
    if body != [] && |vs| < f.arraySize && DecodeScalar(f, body).Some? {
      var (v, rest) := DecodeScalar(f, body).value;
      DecodePackedTyped(f, vs + [v], rest);
    }
  }

  function DecodeFields(fields: Desc, m: Msg, seen: set<nat>, bs: seq<byte>): (r: Progress)
    requires WellFormed(fields) && TypedMsg(fields, m)
    ensures r.Stopped? ==> TypedMsg(fields, r.m) && |r.rest| <= |bs|
    decreases fields, 0, |bs|
  {
    if bs == [] then Stopped(m, seen, [])
    else
      match ReadKey(bs)
      case BadKey => Stuck
      case Eof(rest) => Stopped(m, seen, rest)
      case Key(tag, wt, rest) =>
        match FindField(fields, tag)
        case None =>
          // An empty descriptor is only its terminator, which a zero tag does match, as a
          // required varint of size 0.
          if fields == [] && tag == 0 then Stuck
          else (match Skip(wt, rest)
                case None => Stuck
                case Some(after) => DecodeFields(fields, m, seen, after))
        case Some(i) =>
          var f := fields[i];
          match DecodeCell(f, wt, m[f.member], rest)
          case None => Stuck
          case Some((c, after)) =>
            StoreTyped(fields, m, i, c);
            DecodeFields(fields, m[f.member := c], Met(f, seen), after)
  }

  function Met(f: Field, seen: set<nat>): set<nat> {
    if f.htype.Required? then seen + {f.tag} else seen
  }

  lemma StoreTyped(fields: Desc, m: Msg, i: nat, c: Cell)
    requires WellFormed(fields) && TypedMsg(fields, m)
    requires i < |fields| && TypedCell(fields[i], c)
    requires fields[i].htype.Oneof? ==> c.Empty? || (c.Arm? && c.which == fields[i].tag)
    ensures TypedMsg(fields, m[fields[i].member := c])
  {
    var m' := m[fields[i].member := c];
    assert fields[i].member in Members(fields);
    assert m'.Keys == Members(fields);
    forall j | 0 <= j < |fields|
      ensures fields[j].member in m' && TypedCell(fields[j], m'[fields[j].member])
    {
      if j < i {
        assert fields[j].tag != fields[i].tag;
      } else if i < j {
        assert fields[i].tag != fields[j].tag;
      }
    }
  }

  /** pb_decode_noinit: every required field must have been met. */
  function DecodeMessage(fields: Desc, m: Msg, bs: seq<byte>): (r: Option<(Msg, seq<byte>)>)
    requires WellFormed(fields) && TypedMsg(fields, m)
    ensures r.Some? ==> TypedMsg(fields, r.value.0) && |r.value.1| <= |bs|
    decreases fields, 1
  {
    match DecodeFields(fields, m, {}, bs)
    case Stuck => None
    case Stopped(m', seen, rest) => if RequiredTags(fields) <= seen then Some((m', rest)) else None
  }
}
