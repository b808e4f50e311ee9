/** What pb_encode writes, as a function of the descriptor and the structure.  `None` is a
    false return. */
module EncodeSpec {
  import opened Wrappers
  import opened Wire
  import opened Schema

  /** The bytes of a string field: those before its first zero byte. */
  function CString(bs: seq<byte>): (r: seq<byte>)
    ensures r <= bs && 0 !in r
    ensures |r| < |bs| ==> bs[|r|] == 0
  {
    if bs == [] || bs[0] == 0 then [] else [bs[0]] + CString(bs[1..])
  }

  function FieldWireType(t: LType): WireType {
    match t
    case Varint => WT_VARINT
    case UVarint => WT_VARINT
    case SVarint => WT_VARINT
    case Fixed32 => WT_32BIT
    case Fixed64 => WT_64BIT
    case _ => WT_STRING
  }

  /** The proto3 test for a value that need not be sent.  A number is zero, bytes and strings
      are empty, inline byte arrays are only ever empty when their size is 0, and a submessage
      is zero when the data of each of its fields is: counts, has_ and which_ members are not
      looked at. */
  predicate IsZeroValue(f: Field, v: Value)
    requires TypedValue(f, v)
    decreases f, 0
  {
    match f.ltype
    case Bytes => |v.bs| == 0
    case String => v.bs == [] || v.bs[0] == 0
    case FixedBytes => f.dataSize == 0
    case Submessage(fields) => IsZeroMsg(fields, v.cells)
    case _ => v.n == 0
  }

  predicate IsZeroMsg(fields: Desc, m: Msg)
    requires TypedCells(fields, m)
    decreases fields, 0
  {
    forall i :: 0 <= i < |fields| ==> IsZeroCell(fields[i], m[fields[i].member])
  }

  predicate IsZeroCell(f: Field, c: Cell)
    requires TypedCell(f, c)
    decreases f, 1
  {
    match c
    case Single(v) => IsZeroValue(f, v)
    case Maybe(_, v) => IsZeroValue(f, v)
    case Array(vs) => if vs == [] then IsZeroBlank(f) else IsZeroValue(f, vs[0])
    case Empty => IsZeroBlank(f)
    case Arm(which, v) => if which == f.tag then IsZeroValue(f, v) else IsZeroBlank(f)
  }

  /** The same test of storage that holds no live value, which is taken to be all zero bytes. */
  predicate IsZeroBlank(f: Field)
    decreases f
  {
    match f.ltype
    case FixedBytes => f.dataSize == 0
    case Submessage(fields) => forall i :: 0 <= i < |fields| ==> IsZeroBlank(fields[i])
    case _ => true
  }

  // ----- one value

  function EncodeValue(f: Field, v: Value): (r: Option<seq<byte>>)
    requires TypedValue(f, v)
    ensures r.Some? ==> |r.value| > 0
    decreases f, 0
  {
    match f.ltype
    case Varint => if f.dataSize in {1, 2, 4, 8} then Some(VarintBytes(ToWord(v.n))) else None
    case UVarint => if f.dataSize in {1, 2, 4, 8} then Some(VarintBytes(v.n)) else None
    case SVarint => if f.dataSize in {1, 2, 4, 8} then Some(VarintBytes(ZigZag(v.n))) else None
    case Fixed32 => Some(LittleEndian(v.n, 4))
    case Fixed64 => Some(LittleEndian(v.n, 8))
    case Bytes => if |v.bs| + BYTES_HEADER > f.dataSize then None else Some(Delimited(v.bs))
    case String => Some(Delimited(CString(v.bs)))
    case FixedBytes => Some(Delimited(v.bs))
    case Submessage(fields) =>
      match EncodeFields(fields, v.cells) {
        case None => None
        case Some(body) => Some(Delimited(body))
      }
  }

  function Concat(a: Option<seq<byte>>, b: Option<seq<byte>>): Option<seq<byte>> {
    if a.Some? && b.Some? then Some(a.value + b.value) else None
  }

  /** The elements of a packed array, end to end. */
  function EncodeElements(f: Field, vs: seq<Value>): (r: Option<seq<byte>>)
    requires forall i :: 0 <= i < |vs| ==> TypedValue(f, vs[i])
    ensures r.Some? ==> |r.value| >= |vs|
    decreases f, 1, |vs|
  {
    if vs == [] then Some([])
    else Concat(EncodeValue(f, vs[0]), EncodeElements(f, vs[1..]))
  }

  /** A value behind its key. */
  function EncodeTagged(f: Field, v: Value): (r: Option<seq<byte>>)
    requires TypedValue(f, v)
    decreases f, 1, 0
  {
    Concat(Some(KeyBytes(f.tag, FieldWireType(f.ltype))), EncodeValue(f, v))
  }

  /** The elements of an array that cannot be packed, each behind a key of its own. */
  function EncodeTaggedElements(f: Field, vs: seq<Value>): Option<seq<byte>>
    requires forall i :: 0 <= i < |vs| ==> TypedValue(f, vs[i])
    decreases f, 2, |vs|
  {
    if vs == [] then Some([])
    else Concat(EncodeTagged(f, vs[0]), EncodeTaggedElements(f, vs[1..]))
  }

  function EncodeArray(f: Field, vs: seq<Value>): Option<seq<byte>>
    requires forall i :: 0 <= i < |vs| ==> TypedValue(f, vs[i])
    decreases f, 3
  {
    if vs == [] then Some([])
    else if |vs| > f.arraySize then None
    else if f.ltype.Packable() then
      match EncodeElements(f, vs) {
        case None => None
        case Some(body) => Some(KeyBytes(f.tag, WT_STRING) + Delimited(body))
      }
    else EncodeTaggedElements(f, vs)
  }

  // ----- whole messages

  /** Whether a field that is not an array is sent at all. */
  predicate IsSent(f: Field, c: Cell)
    requires TypedCell(f, c)
  {
    match f.htype
    case Required => true
    case Singular => !IsZeroValue(f, c.v)
    case Optional => c.has
    case Repeated => c.vs != []
    case Oneof => c.Arm? && c.which == f.tag
  }

  function EncodeField(f: Field, c: Cell): Option<seq<byte>>
    requires TypedCell(f, c)
    decreases f, 4
  {
    if f.htype.Repeated? then EncodeArray(f, c.vs)
    else if IsSent(f, c) then EncodeTagged(f, c.v)
    else Some([])
  }

  function EncodeFields(fields: Desc, m: Msg): Option<seq<byte>>
    requires TypedCells(fields, m)
    decreases fields, 0
  {
    if fields == [] then Some([])
    else
      assert forall i :: 0 <= i < |fields[1..]| ==> fields[1..][i] == fields[i + 1];
      Concat(EncodeField(fields[0], m[fields[0].member]), EncodeFields(fields[1..], m))
  }
}
