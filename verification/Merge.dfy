/** What decoding an encoded message does to the structure it is decoded into, when the two
    sides may use different versions of a descriptor.

    `MergeFields` is the reference: it takes the fields of the sender's message one by one
    and never looks at bytes.  `Transfer.FieldsArrive` shows that the byte streams compute it. */
module Merge {
  import opened Wrappers
  import opened Wire
  import opened Schema
  import opened EncodeSpec
  import opened DecodeSpec

  // ----- versions of a descriptor

  /** The rules of fields that hold one value can be exchanged: required, optional or not even that. */
  predicate SameRule(a: HType, b: HType) {
    a == b || (HoldsOne(a) && HoldsOne(b))
  }

  predicate HoldsOne(h: HType) {
    h.Required? || h.Optional? || h.Singular?
  }

  /** The receiver's field `f` understands what the sender's field `g` writes. */
  ghost predicate Compatible(f: Field, g: Field)
    decreases f, 0
  {
    && f.tag == g.tag && SameRule(f.htype, g.htype)
    && match g.ltype {
         case Submessage(fields) => f.ltype.Submessage? && Evolves(f.ltype.fields, fields)
         case Bytes => f.ltype.Bytes?
         case String => f.ltype.String?
         case _ => f.ltype == g.ltype && f.dataSize == g.dataSize
       }
  }

  ghost predicate CommonFieldsCompatible(receiver: Desc, sender: Desc)
    decreases receiver, 0
  {
    forall i, j :: 0 <= i < |receiver| && 0 <= j < |sender| && receiver[i].tag == sender[j].tag ==>
      Compatible(receiver[i], sender[j])
  }

  /** The common arms of one receiver's oneof are arms of one sender's oneof. */
  ghost predicate SameUnions(receiver: Desc, sender: Desc) {
    forall i, k, j, l ::
      0 <= i < |receiver| && 0 <= k < |receiver| && receiver[i].member == receiver[k].member &&
      0 <= j < |sender| && 0 <= l < |sender| &&
      receiver[i].tag == sender[j].tag && receiver[k].tag == sender[l].tag ==>
        sender[j].member == sender[l].member
  }

  /** Either side may know, and require, fields that the other does not. */
  ghost predicate Evolves(receiver: Desc, sender: Desc)
    decreases receiver, 1
  {
    && CommonFieldsCompatible(receiver, sender)
    && SameUnions(receiver, sender)
  }

  lemma NestedCompatible(f: Field, g: Field)
    requires WellFormedField(f) && WellFormedField(g) && Compatible(f, g) && g.ltype.Submessage?
    ensures f.ltype.Submessage? && WellFormed(f.ltype.fields) && WellFormed(g.ltype.fields)
    ensures CommonFieldsCompatible(f.ltype.fields, g.ltype.fields)
    ensures SameUnions(f.ltype.fields, g.ltype.fields)
    ensures forall j :: 0 <= j < |g.ltype.fields| ==> WellFormedField(g.ltype.fields[j])
  {
    assert Evolves(f.ltype.fields, g.ltype.fields);
    assert WellFormed(g.ltype.fields);
  }

  /** The tags of the fields that a message has something to send for. */
  function SentTags(sender: Desc, sent: Msg): set<nat>
    requires TypedCells(sender, sent)
  {
    set j | 0 <= j < |sender| && IsSent(sender[j], sent[sender[j].member]) :: sender[j].tag
  }

  // ----- the merge

  /** The value a receiver's member takes when the sender's value `v` arrives over `prev`, or
      `None` when it does not fit. */
  function MergeValue(f: Field, g: Field, prev: Value, v: Value): (r: Option<Value>)
    requires WellFormedField(f) && WellFormedField(g) && Compatible(f, g)
    requires TypedValue(f, prev) && TypedValue(g, v)
    ensures r.Some? ==> TypedValue(f, r.value)
    decreases g, 0
  {
    match g.ltype
    case Submessage(fields) =>
      NestedCompatible(f, g);
      if RequiredTags(f.ltype.fields) <= SentTags(fields, v.cells) then
        (match MergeFields(f.ltype.fields, fields, prev.cells, v.cells)
         case None => None
         case Some(m) => Some(Struct(m)))
      else None
    case Bytes => if |v.bs| + BYTES_HEADER > f.dataSize then None else Some(v)
    case String =>
      var s := CString(v.bs);
      if |s| + 1 > f.dataSize then None else Some(Blob(s))
    case _ => Some(v)
  }

  function MergeElements(f: Field, g: Field, held: seq<Value>, vs: seq<Value>): (r: Option<seq<Value>>)
    requires WellFormedField(f) && WellFormedField(g) && Compatible(f, g)
    requires forall i :: 0 <= i < |held| ==> TypedValue(f, held[i])
    requires forall i :: 0 <= i < |vs| ==> TypedValue(g, vs[i])
    ensures r.Some? ==> forall i :: 0 <= i < |r.value| ==> TypedValue(f, r.value[i])
    decreases g, 1, |vs|
  {
    DefaultValueTyped(f);
    if vs == [] then Some(held)
    else if |held| >= f.arraySize then None
    else
      match MergeValue(f, g, DefaultValue(f), vs[0])
      case None => None
      case Some(v) => MergeElements(f, g, held + [v], vs[1..])
  }

  /** The receiver's member after the sender's field has arrived. */
  function MergeCell(f: Field, g: Field, c: Cell, sent: Cell): (r: Option<Cell>)
    requires WellFormedField(f) && WellFormedField(g) && Compatible(f, g)
    requires TypedCell(f, c) && TypedCell(g, sent) && IsSent(g, sent)
    ensures r.Some? ==> TypedCell(f, r.value)
    ensures r.Some? && f.htype.Oneof? ==> r.value.Arm? && r.value.which == f.tag
    decreases g, 2
  {
    if g.htype.Repeated? then
      match MergeElements(f, g, c.vs, sent.vs) {
        case None => None
        case Some(vs) => Some(Array(vs))
      }
    else
      match MergeValue(f, g, Target(f, c), sent.v)
      case None => None
      case Some(v) => Some(Stored(f, c, v))
  }

  function MergeField(receiver: Desc, g: Field, m: Msg, sent: Cell): (r: Option<Msg>)
    requires WellFormed(receiver) && WellFormedField(g) && CommonFieldsCompatible(receiver, [g])
    requires TypedMsg(receiver, m) && TypedCell(g, sent)
    ensures r.Some? ==> TypedMsg(receiver, r.value)
    decreases g, 3
  {
    if !IsSent(g, sent) then Some(m)
    else
      match FindField(receiver, g.tag)
      case None => Some(m)
      case Some(i) =>
        var f := receiver[i];
        assert [g][0] == g;
        match MergeCell(f, g, m[f.member], sent)
        case None => None
        case Some(c) => StoreTyped(receiver, m, i, c); Some(m[f.member := c])
  }

  /** A whole message: what the receiver requires must be sent. */
  function MergeMessage(receiver: Desc, sender: Desc, m: Msg, sent: Msg): (r: Option<Msg>)
    requires WellFormed(receiver) && CommonFieldsCompatible(receiver, sender)
    requires forall j :: 0 <= j < |sender| ==> WellFormedField(sender[j])
    requires TypedMsg(receiver, m) && TypedCells(sender, sent)
    ensures r.Some? ==> TypedMsg(receiver, r.value)
  {
    if RequiredTags(receiver) <= SentTags(sender, sent) then MergeFields(receiver, sender, m, sent) else None
  }

  function MergeFields(receiver: Desc, sender: Desc, m: Msg, sent: Msg): (r: Option<Msg>)
    requires WellFormed(receiver) && CommonFieldsCompatible(receiver, sender)
    requires forall j :: 0 <= j < |sender| ==> WellFormedField(sender[j])
    requires TypedMsg(receiver, m) && TypedCells(sender, sent)
    ensures r.Some? ==> TypedMsg(receiver, r.value)
    decreases sender, 0
  {
    if sender == [] then Some(m)
    else
      assert forall j :: 0 <= j < |sender[1..]| ==> sender[1..][j] == sender[j + 1];
      match MergeField(receiver, sender[0], m, sent[sender[0].member])
      case None => None
      case Some(m') => MergeFields(receiver, sender[1..], m', sent)
  }
}
