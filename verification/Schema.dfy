/** Message descriptors and the C structures they describe.

    A descriptor is the array of pb_field_t without its terminator.  A structure is a map
    from the offsets of its members to cells; the arms of a oneof share one member.  Only
    statically allocated fields are described. */
module Schema {
  import opened Wrappers
  import opened Wire

  datatype LType =
    | Varint | UVarint | SVarint | Fixed32 | Fixed64
    | Bytes | String | FixedBytes
    | Submessage(fields: seq<Field>)
  {
    predicate Packable() {
      Varint? || UVarint? || SVarint? || Fixed32? || Fixed64?
    }
  }

  /** `Singular` is the proto3 field: PB_HTYPE_OPTIONAL without a has_ member. */
  datatype HType = Required | Optional | Singular | Repeated | Oneof

  /** `member` is the offset of the field's data in the structure, `dataOffset` the distance
      from the end of the previous field that the descriptor stores instead.  `initial` is what
      its ptr says of a field that is not a submessage: a default value, or none, which means
      zero. */
  datatype Field = Field(tag: nat, htype: HType, ltype: LType, dataSize: nat, arraySize: nat,
                         member: nat, dataOffset: nat, initial: Option<Value>)

  type Desc = seq<Field>

  /** Numbers, byte strings, and nested structures.  A `Blob` holds the bytes up to the size
      of a bytes field, and for a string the bytes stored in the buffer, with a terminator
      after them when there is room. */
  datatype Value = Int(n: int) | Blob(bs: seq<byte>) | Struct(cells: Msg)

  /** A member with its has_, _count or which_ companion. `Empty` is a union whose which_ is 0. */
  datatype Cell =
    | Single(v: Value)
    | Maybe(has: bool, v: Value)
    | Array(vs: seq<Value>)
    | Empty
    | Arm(which: nat, v: Value)

  type Msg = map<nat, Cell>

  /** pb_size_t is 32 bits wide in this build. */
  const PB_SIZE_MAX: nat := TWO_32 - 1

  /** sizeof the size header of a pb_bytes_array_t. */
  const BYTES_HEADER: nat := 4

  // ----- what memory of the struct's type can hold

  ghost predicate TypedValue(f: Field, v: Value)
    decreases f, 0
  {
    match f.ltype
    case Varint => v.Int? && (f.dataSize in {1, 2, 4, 8} ==> InSigned(v.n, f.dataSize))
    case SVarint => v.Int? && (f.dataSize in {1, 2, 4, 8} ==> InSigned(v.n, f.dataSize))
    case UVarint => v.Int? && (f.dataSize in {1, 2, 4, 8} ==> InUnsigned(v.n, f.dataSize))
    case Fixed32 => v.Int? && 0 <= v.n < TWO_32
    case Fixed64 => v.Int? && 0 <= v.n < TWO_64
    case Bytes => v.Blob? && |v.bs| < TWO_32
    case String => v.Blob? && |v.bs| <= f.dataSize
    case FixedBytes => v.Blob? && |v.bs| == f.dataSize
    case Submessage(fields) => v.Struct? && v.cells.Keys == Members(fields) && TypedCells(fields, v.cells)
  }

  ghost predicate TypedCell(f: Field, c: Cell)
    decreases f, 1
  {
    match f.htype
    case Required => c.Single? && TypedValue(f, c.v)
    case Singular => c.Single? && TypedValue(f, c.v)
    case Optional => c.Maybe? && TypedValue(f, c.v)
    case Repeated => c.Array? && forall i :: 0 <= i < |c.vs| ==> TypedValue(f, c.vs[i])
    case Oneof => c.Empty? || (c.Arm? && (c.which == f.tag ==> TypedValue(f, c.v)))
  }

  ghost predicate TypedCells(fields: Desc, m: Msg)
    decreases fields, 0
  {
    forall i :: 0 <= i < |fields| ==> fields[i].member in m && TypedCell(fields[i], m[fields[i].member])
  }

  function Members(fields: Desc): set<nat> {
    set i | 0 <= i < |fields| :: fields[i].member
  }

  ghost predicate TypedMsg(fields: Desc, m: Msg) {
    m.Keys == Members(fields) && TypedCells(fields, m)
  }

  // ----- well-formed descriptors

  ghost predicate WellFormed(fields: Desc)
    decreases fields, 0
  {
    && DistinctTags(fields)
    && DistinctMembers(fields)
    && forall i :: 0 <= i < |fields| ==> WellFormedField(fields[i])
  }

  ghost predicate DistinctTags(fields: Desc) {
    forall i, j :: 0 <= i < j < |fields| ==> fields[i].tag != fields[j].tag
  }

  /** Only the arms of a oneof share a member. */
  ghost predicate DistinctMembers(fields: Desc) {
    forall i, j :: 0 <= i < j < |fields| && fields[i].member == fields[j].member ==>
      fields[i].htype.Oneof? && fields[j].htype.Oneof?
  }

  ghost predicate WellFormedField(f: Field)
    decreases f, 0
  {
    && 0 < f.tag < 0x2000_0000
    && f.dataSize < TWO_32
    && match f.ltype {
         case Submessage(fields) => WellFormed(fields)
         case _ => f.initial.Some? ==> TypedValue(f, f.initial.value)
       }
  }

  // ----- default values

  function Zeros(n: nat): (z: seq<byte>)
    ensures |z| == n
  {
    seq(n, _ => 0 as byte)
  }

  function DefaultValue(f: Field): Value
    decreases f, 0
  {
    match f.ltype
    case Submessage(fields) => Struct(Defaults(fields))
    case _ =>
      if f.initial.Some? then f.initial.value
      else match f.ltype
        case Bytes => Blob([])
        case String => Blob([])
        case FixedBytes => Blob(Zeros(f.dataSize))
        case _ => Int(0)
  }

  function DefaultCell(f: Field): Cell
    decreases f, 1
  {
    match f.htype
    case Required => Single(DefaultValue(f))
    case Singular => Single(DefaultValue(f))
    case Optional => Maybe(false, DefaultValue(f))
    case Repeated => Array([])
    case Oneof => Empty
  }

  /** The structure that pb_message_set_to_defaults leaves. */
  function Defaults(fields: Desc): Msg
    decreases fields, 0
  {
    if fields == [] then map[]
    else Defaults(fields[1..])[fields[0].member := DefaultCell(fields[0])]
  }

  lemma {:induction false} DefaultsAt(fields: Desc)
    requires DistinctMembers(fields)
    ensures Defaults(fields).Keys == Members(fields)
    ensures forall i :: 0 <= i < |fields| ==>
      fields[i].member in Defaults(fields) && Defaults(fields)[fields[i].member] == DefaultCell(fields[i])
    decreases |fields|
  {
    if fields != [] {
      var rest := fields[1..];
      DistinctMembersTail(fields);
      DefaultsAt(rest);
      MembersTail(fields);
      forall i | 0 <= i < |fields|
        ensures fields[i].member in Defaults(fields)
        ensures Defaults(fields)[fields[i].member] == DefaultCell(fields[i])
      {
        if i > 0 {
          assert fields[i] == rest[i - 1];
        }
      }
    }
  }

  lemma DistinctMembersTail(fields: Desc)
    requires fields != [] && DistinctMembers(fields)
    ensures DistinctMembers(fields[1..])
  {
    var rest := fields[1..];
    forall i, j | 0 <= i < j < |rest| && rest[i].member == rest[j].member
      ensures rest[i].htype.Oneof? && rest[j].htype.Oneof?
    {
      assert rest[i] == fields[i + 1] && rest[j] == fields[j + 1];
    }
  }

  lemma MembersTail(fields: Desc)
    requires fields != []
    ensures Members(fields) == Members(fields[1..]) + {fields[0].member}
  {
    var rest := fields[1..];
    forall i | 0 <= i < |fields|
      ensures fields[i].member in Members(rest) + {fields[0].member}
    {
      if i > 0 {
        assert fields[i] == rest[i - 1];
      }
    }
    forall i | 0 <= i < |rest|
      ensures rest[i].member in Members(fields)
    {
      assert rest[i] == fields[i + 1];
    }
  }

  lemma {:induction false} DefaultValueTyped(f: Field)
    requires WellFormedField(f)
    ensures TypedValue(f, DefaultValue(f))
    decreases f, 0
  {
    match f.ltype
    case Submessage(fields) => DefaultsTyped(fields);
    case _ =>
  }

  lemma {:induction false} DefaultsTyped(fields: Desc)
    requires WellFormed(fields)
    ensures TypedMsg(fields, Defaults(fields))
    decreases fields, 0
  {
    DefaultsAt(fields);
    forall i | 0 <= i < |fields|
      ensures TypedCell(fields[i], DefaultCell(fields[i]))
    {
      DefaultValueTyped(fields[i]);
    }
  }
}
