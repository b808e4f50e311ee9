/** The laws of the message codec: schema evolution, the round trip and its exact condition,
    and merging by concatenation. */
module MessageLaws {
  import opened Wrappers
  import opened Wire
  import opened Schema
  import opened EncodeSpec
  import opened DecodeSpec
  import opened Merge
  import opened Transfer
  import opened MergeLaws

  // ----- what a receiver holds after decoding into a fresh structure

  /** `r` is what the receiver has where the sender had `v`: the same number or bytes, the
      string up to its terminator, the nested structure with its fields arrived. */
  ghost predicate ArrivedValue(f: Field, g: Field, r: Value, v: Value)
    decreases g, 0
  {
    match g.ltype
    case Submessage(fields) =>
      f.ltype.Submessage? && r.Struct? && v.Struct? && ArrivedMsg(f.ltype.fields, fields, r.cells, v.cells)
    case String => v.Blob? && r == Blob(CString(v.bs))
    case _ => r == v
  }

  ghost predicate ArrivedCell(f: Field, g: Field, r: Cell, c: Cell)
    requires TypedCell(g, c)
    decreases g, 1
  {
    if !IsSent(g, c) then LeftAtDefault(f, r)
    else
      match f.htype
      case Required => r.Single? && !c.Array? && ArrivedValue(f, g, r.v, c.v)
      case Singular => r.Single? && !c.Array? && ArrivedValue(f, g, r.v, c.v)
      case Optional => r.Maybe? && !c.Array? && r.has && ArrivedValue(f, g, r.v, c.v)
      case Repeated =>
        && r.Array? && c.Array? && |r.vs| == |c.vs|
        && forall k :: 0 <= k < |c.vs| ==> ArrivedValue(f, g, r.vs[k], c.vs[k])
      case Oneof => r.Arm? && !c.Array? && r.which == f.tag && ArrivedValue(f, g, r.v, c.v)
  }

  /** A field that nothing arrived for: its default, or, for an arm, not the arm that is set. */
  ghost predicate LeftAtDefault(f: Field, r: Cell) {
    if f.htype.Oneof? then !(r.Arm? && r.which == f.tag) else r == DefaultCell(f)
  }

  ghost predicate ArrivedMsg(receiver: Desc, sender: Desc, r: Msg, m: Msg)
    decreases sender, 0
  {
    && r.Keys == Members(receiver) && TypedCells(sender, m)
    && (forall i, j :: 0 <= i < |receiver| && 0 <= j < |sender| && receiver[i].tag == sender[j].tag ==>
          ArrivedCell(receiver[i], sender[j], r[receiver[i].member], m[sender[j].member]))
    && (forall i :: 0 <= i < |receiver| && receiver[i].tag !in Tags(sender) ==>
          LeftAtDefault(receiver[i], r[receiver[i].member]))
    && OnlyKnownArms(receiver, r)
  }

  /** A union is empty or holds one of the arms of the descriptor. */
  ghost predicate OnlyKnownArms(fields: Desc, r: Msg)
    requires r.Keys == Members(fields)
  {
    forall i :: 0 <= i < |fields| && fields[i].htype.Oneof? && r[fields[i].member] != Empty ==>
      r[fields[i].member].Arm? && HasArm(fields, fields[i].member, r[fields[i].member].which)
  }

  ghost predicate HasArm(fields: Desc, member: nat, which: nat) {
    exists k :: 0 <= k < |fields| && fields[k].member == member && fields[k].tag == which
  }

  // ----- what fits

  /** The receiver's buffers are big enough: bytes with their size, strings with their terminator,
      nested structures throughout; and nothing that the receiver requires is missing. */
  ghost predicate FitsValue(f: Field, g: Field, v: Value)
    requires TypedValue(g, v)
    decreases g, 0
  {
    match g.ltype
    case Submessage(fields) => f.ltype.Submessage? && FitsMsg(f.ltype.fields, fields, v.cells)
    case Bytes => |v.bs| + BYTES_HEADER <= f.dataSize
    case String => |CString(v.bs)| < f.dataSize
    case _ => true
  }

  ghost predicate FitsCell(f: Field, g: Field, c: Cell)
    requires TypedCell(g, c)
    decreases g, 1
  {
    IsSent(g, c) ==>
      if g.htype.Repeated? then
        |c.vs| <= f.arraySize && forall k :: 0 <= k < |c.vs| ==> FitsValue(f, g, c.vs[k])
      else FitsValue(f, g, c.v)
  }

  ghost predicate FitsMsg(receiver: Desc, sender: Desc, m: Msg)
    requires TypedCells(sender, m)
    decreases sender, 0
  {
    && CellsFit(receiver, sender, m)
    && RequiredTags(receiver) <= SentTags(sender, m)
  }

  ghost predicate CellsFit(receiver: Desc, sender: Desc, m: Msg)
    requires TypedCells(sender, m)
    decreases sender, 0, 0
  {
    forall i, j :: 0 <= i < |receiver| && 0 <= j < |sender| && receiver[i].tag == sender[j].tag ==>
      FitsCell(receiver[i], sender[j], m[sender[j].member])
  }

  // ----- merging into a fresh structure

  /** Each element fits, decoded afresh. */
  ghost predicate ElementsFit(f: Field, g: Field, vs: seq<Value>)
    requires WellFormedField(f) && WellFormedField(g) && Compatible(f, g)
    requires TypedValue(f, DefaultValue(f)) && forall i :: 0 <= i < |vs| ==> TypedValue(g, vs[i])
  {
    forall k :: 0 <= k < |vs| ==> MergeValue(f, g, DefaultValue(f), vs[k]).Some?
  }

  ghost function FreshElements(f: Field, g: Field, vs: seq<Value>): (ws: seq<Value>)
    requires WellFormedField(f) && WellFormedField(g) && Compatible(f, g)
    requires TypedValue(f, DefaultValue(f)) && forall i :: 0 <= i < |vs| ==> TypedValue(g, vs[i])
    requires ElementsFit(f, g, vs)
    ensures |ws| == |vs|
    ensures forall k :: 0 <= k < |vs| ==> MergeValue(f, g, DefaultValue(f), vs[k]) == Some(ws[k])
  {
    seq(|vs|, k requires 0 <= k < |vs| => MergeValue(f, g, DefaultValue(f), vs[k]).value)
  }

  /** An array merge appends the elements, each decoded afresh, if there is room for them all. */
  lemma {:induction false} MergeElementsAppends(f: Field, g: Field, held: seq<Value>, vs: seq<Value>)
    requires WellFormedField(f) && WellFormedField(g) && Compatible(f, g)
    requires forall i :: 0 <= i < |held| ==> TypedValue(f, held[i])
    requires forall i :: 0 <= i < |vs| ==> TypedValue(g, vs[i])
    requires TypedValue(f, DefaultValue(f))
    ensures MergeElements(f, g, held, vs) ==
            if (vs == [] || |held| + |vs| <= f.arraySize) && ElementsFit(f, g, vs)
            then Some(held + FreshElements(f, g, vs)) else None
    decreases |vs|
  {
    if vs == [] {
      assert held + FreshElements(f, g, vs) == held;
    } else if |held| < f.arraySize && MergeValue(f, g, DefaultValue(f), vs[0]).Some? {
      var v := MergeValue(f, g, DefaultValue(f), vs[0]).value;
      MergeElementsAppends(f, g, held + [v], vs[1..]);
      FirstAndOthersFit(f, g, vs);
      if ElementsFit(f, g, vs) {
        AppendOne(held, v, FreshElements(f, g, vs[1..]));
      }
    } else {
      assert !((vs == [] || |held| + |vs| <= f.arraySize) && ElementsFit(f, g, vs));
    }
  }

  lemma AppendOne(held: seq<Value>, v: Value, ws: seq<Value>)
    ensures held + ([v] + ws) == (held + [v]) + ws
  {
  }

  lemma FirstAndOthersFit(f: Field, g: Field, vs: seq<Value>)
    requires WellFormedField(f) && WellFormedField(g) && Compatible(f, g)
    requires TypedValue(f, DefaultValue(f)) && forall i :: 0 <= i < |vs| ==> TypedValue(g, vs[i])
    requires vs != [] && MergeValue(f, g, DefaultValue(f), vs[0]).Some?
    ensures ElementsFit(f, g, vs) <==> ElementsFit(f, g, vs[1..])
    ensures ElementsFit(f, g, vs) ==>
      FreshElements(f, g, vs) == [MergeValue(f, g, DefaultValue(f), vs[0]).value] + FreshElements(f, g, vs[1..])
  {
    hide WellFormedField, Compatible, TypedValue, MergeValue, DefaultValue;
    assert forall k :: 1 <= k < |vs| ==> vs[k] == vs[1..][k - 1];
    assert forall k :: 0 <= k < |vs[1..]| ==> vs[1..][k] == vs[k + 1];
  }

  /** Merging into the default value: it succeeds exactly when the value fits, and then the
      value has arrived. */
  lemma {:induction false} FreshValue(f: Field, g: Field, v: Value)
    requires WellFormedField(f) && WellFormedField(g) && Compatible(f, g)
    requires TypedValue(g, v) && TypedValue(f, DefaultValue(f))
    ensures var r := MergeValue(f, g, DefaultValue(f), v);
            && (r.Some? <==> FitsValue(f, g, v))
            && (r.Some? ==> ArrivedValue(f, g, r.value, v))
    decreases g, 1
  {
    if g.ltype.Submessage? {
      FreshNested(f, g, v);
    } else {
      hide WellFormedField;
    }
  }

  lemma {:induction false} FreshNested(f: Field, g: Field, v: Value)
    requires WellFormedField(f) && WellFormedField(g) && Compatible(f, g) && g.ltype.Submessage?
    requires TypedValue(g, v) && TypedValue(f, DefaultValue(f))
    ensures var r := MergeValue(f, g, DefaultValue(f), v);
            && (r.Some? <==> FitsValue(f, g, v))
            && (r.Some? ==> ArrivedValue(f, g, r.value, v))
    decreases g, 0
  {
    NestedCompatible(f, g);
    NestedTyped(f, g, v);
    NestedMerge(f, g, v);
    hide WellFormedField, Compatible, TypedValue, MergeMessage, FitsMsg, ArrivedMsg, Defaults, MergeValue, DefaultValue;
    FreshMessage(f.ltype.fields, g.ltype.fields, v.cells);
  }

  lemma NestedMerge(f: Field, g: Field, v: Value)
    requires WellFormedField(f) && WellFormedField(g) && Compatible(f, g) && g.ltype.Submessage?
    requires f.ltype.Submessage? && TypedValue(g, v) && TypedValue(f, DefaultValue(f))
    requires WellFormed(f.ltype.fields) && CommonFieldsCompatible(f.ltype.fields, g.ltype.fields)
    requires forall j :: 0 <= j < |g.ltype.fields| ==> WellFormedField(g.ltype.fields[j])
    requires TypedMsg(f.ltype.fields, Defaults(f.ltype.fields)) && TypedCells(g.ltype.fields, v.cells)
    ensures MergeValue(f, g, DefaultValue(f), v) ==
            match MergeMessage(f.ltype.fields, g.ltype.fields, Defaults(f.ltype.fields), v.cells)
            case None => None
            case Some(m) => Some(Struct(m))
  {
    hide WellFormed, WellFormedField, Compatible, TypedValue, MergeFields, Defaults;
  }

  lemma NestedTyped(f: Field, g: Field, v: Value)
    requires WellFormedField(f) && f.ltype.Submessage? && g.ltype.Submessage?
    requires TypedValue(g, v) && TypedValue(f, DefaultValue(f))
    ensures v.Struct? && TypedCells(g.ltype.fields, v.cells)
    ensures DefaultValue(f) == Struct(Defaults(f.ltype.fields)) && TypedMsg(f.ltype.fields, Defaults(f.ltype.fields))
    ensures WellFormed(f.ltype.fields)
  {
    DefaultsTyped(f.ltype.fields);
  }

  lemma {:induction false} FreshCell(f: Field, g: Field, c: Cell)
    requires WellFormedField(f) && WellFormedField(g) && Compatible(f, g)
    requires TypedCell(g, c) && IsSent(g, c)
    ensures TypedCell(f, DefaultCell(f))
    ensures var r := MergeCell(f, g, DefaultCell(f), c);
            && (r.Some? <==> FitsCell(f, g, c))
            && (r.Some? ==> ArrivedCell(f, g, r.value, c))
    decreases g, 3
  {
    hide WellFormedField, TypedValue, FitsValue, ArrivedValue;
    DefaultValueTyped(f);
    if g.htype.Repeated? {
      FreshArray(f, g, c.vs);
    } else {
      FreshValue(f, g, c.v);
    }
  }

  lemma {:induction false} FreshArray(f: Field, g: Field, vs: seq<Value>)
    requires WellFormedField(f) && WellFormedField(g) && Compatible(f, g)
    requires vs != [] && TypedValue(f, DefaultValue(f))
    requires forall i :: 0 <= i < |vs| ==> TypedValue(g, vs[i])
    ensures var r := MergeElements(f, g, [], vs);
            && (r.Some? <==> |vs| <= f.arraySize && forall k :: 0 <= k < |vs| ==> FitsValue(f, g, vs[k]))
            && (r.Some? ==> |r.value| == |vs| &&
                            forall k :: 0 <= k < |vs| ==> ArrivedValue(f, g, r.value[k], vs[k]))
    decreases g, 2
  {
    hide TypedValue, WellFormedField, Compatible;
    MergeElementsAppends(f, g, [], vs);
    forall k | 0 <= k < |vs|
      ensures var r := MergeValue(f, g, DefaultValue(f), vs[k]);
              && (r.Some? <==> FitsValue(f, g, vs[k]))
              && (r.Some? ==> ArrivedValue(f, g, r.value, vs[k]))
    {
      FreshValue(f, g, vs[k]);
    }
    if ElementsFit(f, g, vs) {
      assert [] + FreshElements(f, g, vs) == FreshElements(f, g, vs);
    }
  }

  /** What a fresh merge leaves in one field. */
  ghost predicate FieldArrived(receiver: Desc, sender: Desc, r: Msg, sent: Msg, i: nat)
    requires TypedCells(sender, sent) && i < |receiver| && receiver[i].member in r
  {
    var f := receiver[i];
    match SentField(sender, sent, f.tag)
    case None => LeftAtDefault(f, r[f.member])
    case Some(j) => ArrivedCell(f, sender[j], r[f.member], sent[sender[j].member])
  }

  ghost predicate FieldFitsFresh(receiver: Desc, sender: Desc, sent: Msg, i: nat)
    requires TypedCells(sender, sent) && i < |receiver|
  {
    match SentField(sender, sent, receiver[i].tag)
    case None => true
    case Some(j) => FitsCell(receiver[i], sender[j], sent[sender[j].member])
  }

  lemma FitsByField(receiver: Desc, sender: Desc, sent: Msg)
    requires TypedCells(sender, sent) && DistinctTags(sender)
    ensures CellsFit(receiver, sender, sent) <==>
            forall i :: 0 <= i < |receiver| ==> FieldFitsFresh(receiver, sender, sent, i)
  {
    forall i, j | 0 <= i < |receiver| && 0 <= j < |sender| && receiver[i].tag == sender[j].tag
      ensures FieldFitsFresh(receiver, sender, sent, i) ==
              FitsCell(receiver[i], sender[j], sent[sender[j].member])
    {
      FoundAt(sender, j);
    }
  }

  lemma ArrivedByField(receiver: Desc, sender: Desc, r: Msg, sent: Msg)
    requires TypedCells(sender, sent) && DistinctTags(sender) && r.Keys == Members(receiver)
    requires OnlyKnownArms(receiver, r)
    requires forall i :: 0 <= i < |receiver| ==> FieldArrived(receiver, sender, r, sent, i)
    ensures ArrivedMsg(receiver, sender, r, sent)
  {
    forall i, j | 0 <= i < |receiver| && 0 <= j < |sender| && receiver[i].tag == sender[j].tag
      ensures ArrivedCell(receiver[i], sender[j], r[receiver[i].member], sent[sender[j].member])
    {
      FoundAt(sender, j);
      assert FieldArrived(receiver, sender, r, sent, i);
    }
    forall i | 0 <= i < |receiver| && receiver[i].tag !in Tags(sender)
      ensures LeftAtDefault(receiver[i], r[receiver[i].member])
    {
      assert FieldArrived(receiver, sender, r, sent, i);
    }
  }

  /** A union after a fresh merge: empty, or the one arm that was sent. */
  lemma UnionArrived(receiver: Desc, sender: Desc, sent: Msg, i: nat)
    requires Pending(receiver, sender, Defaults(receiver), sent) && SameUnions(receiver, sender)
    requires i < |receiver| && receiver[i].htype.Oneof?
    requires MergeFields(receiver, sender, Defaults(receiver), sent).Some?
    ensures var r := MergeFields(receiver, sender, Defaults(receiver), sent).value;
            var member := receiver[i].member;
            && member in r
            && (r[member] == Empty ||
                (r[member].Arm? && HasArm(receiver, member, r[member].which)))
            && (SentField(sender, sent, receiver[i].tag).None? ==> LeftAtDefault(receiver[i], r[member]))
  {
    var member := receiver[i].member;
    DefaultsAt(receiver);
    if k :| 0 <= k < |receiver| && receiver[k].member == member &&
            SentField(sender, sent, receiver[k].tag).Some?
    {
      assert receiver[k].htype.Oneof?;
      UnionAfterMerge(receiver, sender, Defaults(receiver), sent, k);
    } else {
      UnionUntouched(receiver, sender, Defaults(receiver), sent, member);
    }
  }

  lemma {:induction false} FreshMessage(receiver: Desc, sender: Desc, sent: Msg)
    requires Pending(receiver, sender, Defaults(receiver), sent) && SameUnions(receiver, sender)
    ensures var r := MergeMessage(receiver, sender, Defaults(receiver), sent);
            && (r.Some? <==> FitsMsg(receiver, sender, sent))
            && (r.Some? ==> ArrivedMsg(receiver, sender, r.value, sent))
    decreases sender, 2
  {
    hide CellsFit, ArrivedMsg, MergeFields, RequiredTags, SentTags, SameUnions;
    FreshFields(receiver, sender, sent);
  }

  lemma {:induction false} FreshFields(receiver: Desc, sender: Desc, sent: Msg)
    requires Pending(receiver, sender, Defaults(receiver), sent) && SameUnions(receiver, sender)
    ensures var r := MergeFields(receiver, sender, Defaults(receiver), sent);
            && (r.Some? <==> CellsFit(receiver, sender, sent))
            && (r.Some? ==> ArrivedMsg(receiver, sender, r.value, sent))
    decreases sender, 1
  {
    hide CellsFit, ArrivedMsg, WellFormed, SameUnions;
    FreshFits(receiver, sender, sent);
    var merged := MergeFields(receiver, sender, Defaults(receiver), sent);
    if merged.Some? {
      forall i | 0 <= i < |receiver|
        ensures receiver[i].member in merged.value
        ensures FieldArrived(receiver, sender, merged.value, sent, i)
      {
        OneFieldArrived(receiver, sender, sent, i);
      }
      forall i | 0 <= i < |receiver| && receiver[i].htype.Oneof?
        ensures var c := merged.value[receiver[i].member];
                c == Empty || (c.Arm? && HasArm(receiver, receiver[i].member, c.which))
      {
        UnionArrived(receiver, sender, sent, i);
      }
      ArrivedByField(receiver, sender, merged.value, sent);
    }
  }

  lemma {:induction false} FreshFits(receiver: Desc, sender: Desc, sent: Msg)
    requires Pending(receiver, sender, Defaults(receiver), sent)
    ensures MergeFields(receiver, sender, Defaults(receiver), sent).Some? <==> CellsFit(receiver, sender, sent)
    decreases sender, 0
  {
    var m := Defaults(receiver);
    DefaultsAt(receiver);
    MergeFits(receiver, sender, m, sent);
    FitsByField(receiver, sender, sent);
    forall i | 0 <= i < |receiver|
      ensures FieldFits(receiver, sender, m, sent, i) == FieldFitsFresh(receiver, sender, sent, i)
    {
      var j := SentField(sender, sent, receiver[i].tag);
      if j.Some? {
        FreshCell(receiver[i], sender[j.value], sent[sender[j.value].member]);
      }
    }
  }

  lemma {:induction false} OneFieldArrived(receiver: Desc, sender: Desc, sent: Msg, i: nat)
    requires Pending(receiver, sender, Defaults(receiver), sent) && SameUnions(receiver, sender)
    requires i < |receiver|
    requires MergeFields(receiver, sender, Defaults(receiver), sent).Some?
    ensures var r := MergeFields(receiver, sender, Defaults(receiver), sent).value;
            receiver[i].member in r && FieldArrived(receiver, sender, r, sent, i)
    decreases sender, 0, 0
  {
    var f, m := receiver[i], Defaults(receiver);
    DefaultsAt(receiver);
    var j := SentField(sender, sent, f.tag);
    if j.Some? {
      FreshCell(f, sender[j.value], sent[sender[j.value].member]);
    }
    if !f.htype.Oneof? {
      FieldAfterMerge(receiver, sender, m, sent, i);
    } else if j.Some? {
      UnionAfterMerge(receiver, sender, m, sent, i);
    } else {
      UnionArrived(receiver, sender, sent, i);
    }
  }

  // ----- the laws

  /** pb_decode: the structure is first set to its defaults. */
  function Decode(fields: Desc, bs: seq<byte>): (r: Option<(Msg, seq<byte>)>)
    requires WellFormed(fields)
    ensures r.Some? ==> TypedMsg(fields, r.value.0)
  {
    DefaultsTyped(fields);
    DecodeMessage(fields, Defaults(fields), bs)
  }

  /** Schema evolution.  What one version of a descriptor encodes, another decodes: the fields
      both know arrive, fields only the sender knows are skipped, fields only the receiver
      knows stay at their defaults, every byte is read, and decoding fails exactly when some
      value is too big for the receiver, or something the receiver requires is not sent. */
  lemma {:induction false} SchemaEvolution(receiver: Desc, sender: Desc, m: Msg)
    requires Peers(receiver, sender) && TypedCells(sender, m)
    requires EncodeFields(sender, m).Some? && |EncodeFields(sender, m).value| < TWO_32
    ensures var out := Decode(receiver, EncodeFields(sender, m).value);
            && (out.Some? <==> FitsMsg(receiver, sender, m))
            && (out.Some? ==> out.value.1 == [] && ArrivedMsg(receiver, sender, out.value.0, m))
  {
    DefaultsTyped(receiver);
    MessageArrives(receiver, sender, Defaults(receiver), m, EncodeFields(sender, m).value);
    FreshMessage(receiver, sender, m);
  }

  lemma {:induction false} CompatibleSelf(f: Field)
    requires WellFormedField(f)
    ensures Compatible(f, f)
    decreases f, 0
  {
    if f.ltype.Submessage? {
      EvolvesSelf(f.ltype.fields);
    }
  }

  lemma {:induction false} EvolvesSelf(fields: Desc)
    requires WellFormed(fields)
    ensures Evolves(fields, fields)
    decreases fields, 0
  {
    forall i, j | 0 <= i < |fields| && 0 <= j < |fields| && fields[i].tag == fields[j].tag
      ensures i == j && Compatible(fields[i], fields[j])
    {
      SameTag(fields, i, j);
      CompatibleSelf(fields[i]);
    }
  }

  /** A structure that holds nothing the wire cannot carry: strings stop at their terminator,
      a field that is not sent is at its default, and a union is empty or holds a known arm. */
  ghost predicate CanonicalValue(f: Field, v: Value)
    requires TypedValue(f, v)
    decreases f, 0
  {
    match f.ltype
    case Submessage(fields) => CanonicalMsg(fields, v.cells)
    case String => 0 !in v.bs
    case _ => true
  }

  ghost predicate CanonicalCell(f: Field, c: Cell)
    requires TypedCell(f, c)
    decreases f, 1
  {
    if !IsSent(f, c) then f.htype.Oneof? || c == DefaultCell(f)
    else if f.htype.Repeated? then forall k :: 0 <= k < |c.vs| ==> CanonicalValue(f, c.vs[k])
    else CanonicalValue(f, c.v)
  }

  ghost predicate CanonicalMsg(fields: Desc, m: Msg)
    requires TypedMsg(fields, m)
    decreases fields, 0
  {
    && (forall i :: 0 <= i < |fields| ==> CanonicalCell(fields[i], m[fields[i].member]))
    && OnlyKnownArms(fields, m)
  }

  lemma CStringWhole(bs: seq<byte>)
    ensures CString(bs) == bs <==> 0 !in bs
  {
    if |CString(bs)| == |bs| {
      assert CString(bs) == bs;
    }
  }

  lemma {:induction false} ArrivedSelfValue(f: Field, r: Value, v: Value)
    requires WellFormedField(f) && TypedValue(f, v) && ArrivedValue(f, f, r, v)
    ensures r == v <==> CanonicalValue(f, v)
    decreases f, 0
  {
    match f.ltype
    case Submessage(fields) => ArrivedSelf(fields, r.cells, v.cells);
    case String => CStringWhole(v.bs);
    case _ =>
  }

  lemma {:induction false} ArrivedSelfCell(f: Field, r: Cell, c: Cell)
    requires WellFormedField(f) && TypedCell(f, c) && ArrivedCell(f, f, r, c)
    requires f.htype.Oneof? ==> IsSent(f, c)
    ensures r == c <==> CanonicalCell(f, c)
    decreases f, 1
  {
    if IsSent(f, c) {
      if f.htype.Repeated? {
        forall k | 0 <= k < |c.vs|
          ensures r.vs[k] == c.vs[k] <==> CanonicalValue(f, c.vs[k])
        {
          ArrivedSelfValue(f, r.vs[k], c.vs[k]);
        }
      } else {
        ArrivedSelfValue(f, r.v, c.v);
      }
    }
  }

  /** What arrives from a sender with the same descriptor is the message itself exactly when
      that message is canonical. */
  lemma {:induction false} ArrivedSelf(fields: Desc, r: Msg, m: Msg)
    requires WellFormed(fields) && TypedMsg(fields, m) && ArrivedMsg(fields, fields, r, m)
    ensures r == m <==> CanonicalMsg(fields, m)
    decreases fields, 0
  {
    hide TypedValue, WellFormedField, ArrivedCell, CanonicalCell;
    forall i | 0 <= i < |fields| && !IsBlankUnion(fields[i], m)
      ensures r[fields[i].member] == m[fields[i].member] <==> CanonicalCell(fields[i], m[fields[i].member])
    {
      ArrivedSelfCell(fields[i], r[fields[i].member], m[fields[i].member]);
    }
    hide TypedCell;
    if CanonicalMsg(fields, m) {
      forall i | 0 <= i < |fields|
        ensures r[fields[i].member] == m[fields[i].member]
      {
        if IsBlankUnion(fields[i], m) {
          UnionSelf(fields, r, m, i);
        }
      }
      assert forall k :: k in m.Keys ==> r[k] == m[k];
    } else if r == m {
      forall i | 0 <= i < |fields|
        ensures CanonicalCell(fields[i], m[fields[i].member])
      {
        if IsBlankUnion(fields[i], m) {
          BlankUnionCanonical(fields[i], m);
        }
      }
    }
  }

  ghost predicate IsBlankUnion(f: Field, m: Msg)
    requires f.member in m && TypedCell(f, m[f.member])
  {
    f.htype.Oneof? && !IsSent(f, m[f.member])
  }

  lemma BlankUnionCanonical(f: Field, m: Msg)
    requires f.member in m && TypedCell(f, m[f.member]) && IsBlankUnion(f, m)
    ensures CanonicalCell(f, m[f.member])
  {
  }

  /** With canonical data a union arrives as it was sent, empty or not. */
  lemma UnionSelf(fields: Desc, r: Msg, m: Msg, i: nat)
    requires WellFormed(fields) && TypedMsg(fields, m) && ArrivedMsg(fields, fields, r, m)
    requires OnlyKnownArms(fields, m) && i < |fields| && fields[i].htype.Oneof?
    requires forall k :: 0 <= k < |fields| && !IsBlankUnion(fields[k], m) ==>
      r[fields[k].member] == m[fields[k].member]
    ensures r[fields[i].member] == m[fields[i].member]
  {
    hide WellFormedField, TypedValue, ArrivedCell;
    var member := fields[i].member;
    if m[member] != Empty {
      var k :| 0 <= k < |fields| && fields[k].member == member && fields[k].tag == m[member].which;
      OneofTogether(fields, i, k);
      ArmIsSent(fields[k], m);
    } else {
      EmptyUnion(fields, r, m, i);
    }
  }

  lemma ArmIsSent(f: Field, m: Msg)
    requires f.member in m && TypedCell(f, m[f.member]) && f.htype.Oneof?
    requires m[f.member].Arm? && m[f.member].which == f.tag
    ensures !IsBlankUnion(f, m)
  {
  }

  lemma OneofTogether(fields: Desc, i: nat, k: nat)
    requires DistinctMembers(fields) && i < |fields| && k < |fields| && fields[i].member == fields[k].member
    ensures fields[i].htype.Oneof? ==> fields[k].htype.Oneof?
  {
  }

  lemma EmptyUnion(fields: Desc, r: Msg, m: Msg, i: nat)
    requires WellFormed(fields) && TypedMsg(fields, m) && ArrivedMsg(fields, fields, r, m)
    requires i < |fields| && fields[i].htype.Oneof? && m[fields[i].member] == Empty
    ensures r[fields[i].member] == Empty
  {
    hide TypedValue, WellFormedField, ArrivedValue;
    forall k | 0 <= k < |fields| && fields[k].member == fields[i].member
      ensures LeftAtDefault(fields[k], r[fields[k].member]) && fields[k].htype.Oneof?
    {
      OneofTogether(fields, i, k);
    }
  }

  /** Every string that is sent has room for its terminator in its own buffer. */
  ghost predicate StringsFitValue(f: Field, v: Value)
    requires TypedValue(f, v)
    decreases f, 0
  {
    match f.ltype
    case Submessage(fields) => StringsFit(fields, v.cells)
    case String => |CString(v.bs)| < f.dataSize
    case _ => true
  }

  ghost predicate StringsFitCell(f: Field, c: Cell)
    requires TypedCell(f, c)
    decreases f, 1
  {
    IsSent(f, c) ==>
      if f.htype.Repeated? then forall k :: 0 <= k < |c.vs| ==> StringsFitValue(f, c.vs[k])
      else StringsFitValue(f, c.v)
  }

  ghost predicate StringsFit(fields: Desc, m: Msg)
    requires TypedCells(fields, m)
    decreases fields, 0
  {
    forall i :: 0 <= i < |fields| ==> StringsFitCell(fields[i], m[fields[i].member])
  }

  lemma {:induction false} FitsOwnValue(f: Field, v: Value)
    requires WellFormedField(f) && TypedValue(f, v) && EncodeValue(f, v).Some?
    ensures FitsValue(f, f, v) <==> StringsFitValue(f, v)
    decreases f, 0
  {
    if f.ltype.Submessage? {
      FitsOwn(f.ltype.fields, v.cells);
    }
  }

  lemma {:induction false} FitsOwnElements(f: Field, vs: seq<Value>)
    requires WellFormedField(f) && forall k :: 0 <= k < |vs| ==> TypedValue(f, vs[k])
    requires EncodeElements(f, vs).Some? || EncodeTaggedElements(f, vs).Some?
    ensures forall k :: 0 <= k < |vs| ==> (FitsValue(f, f, vs[k]) <==> StringsFitValue(f, vs[k]))
    decreases f, 1, |vs|
  {
    if vs != [] {
      FitsOwnValue(f, vs[0]);
      FitsOwnElements(f, vs[1..]);
      forall k | 1 <= k < |vs|
        ensures FitsValue(f, f, vs[k]) <==> StringsFitValue(f, vs[k])
      {
        assert vs[k] == vs[1..][k - 1];
      }
    }
  }

  lemma {:induction false} FitsOwnCell(f: Field, c: Cell)
    requires WellFormedField(f) && TypedCell(f, c) && EncodeField(f, c).Some?
    ensures FitsCell(f, f, c) <==> StringsFitCell(f, c)
    decreases f, 2
  {
    if f.htype.Repeated? {
      FitsOwnElements(f, c.vs);
    } else if IsSent(f, c) {
      FitsOwnValue(f, c.v);
    }
  }

  /** What can be encoded fits its own descriptor if its strings do. */
  lemma {:induction false} FitsOwn(fields: Desc, m: Msg)
    requires WellFormed(fields) && TypedCells(fields, m) && EncodeFields(fields, m).Some?
    ensures FitsMsg(fields, fields, m) <==> StringsFit(fields, m)
    decreases fields, 0
  {
    hide TypedCell, FitsCell, StringsFitCell;
    forall i | 0 <= i < |fields|
      ensures FitsCell(fields[i], fields[i], m[fields[i].member]) <==>
              StringsFitCell(fields[i], m[fields[i].member])
    {
      EachEncodes(fields, m, i);
      FitsOwnCell(fields[i], m[fields[i].member]);
    }
    OwnCells(fields, m);
    RequiredAreSent(fields, m);
  }

  lemma OwnCells(fields: Desc, m: Msg)
    requires WellFormed(fields) && TypedCells(fields, m)
    ensures CellsFit(fields, fields, m) <==>
            forall i :: 0 <= i < |fields| ==> FitsCell(fields[i], fields[i], m[fields[i].member])
  {
    hide TypedCell, FitsCell;
  }

  lemma RequiredAreSent(fields: Desc, m: Msg)
    requires TypedCells(fields, m)
    ensures RequiredTags(fields) <= SentTags(fields, m)
  {
    forall t | t in RequiredTags(fields)
      ensures t in SentTags(fields, m)
    {
      var i :| 0 <= i < |fields| && fields[i].htype.Required? && fields[i].tag == t;
      assert IsSent(fields[i], m[fields[i].member]);
    }
  }

  lemma {:induction false} EachEncodes(fields: Desc, m: Msg, i: nat)
    requires TypedCells(fields, m) && EncodeFields(fields, m).Some? && i < |fields|
    ensures EncodeField(fields[i], m[fields[i].member]).Some?
    decreases |fields|
  {
    hide TypedCell;
    if i > 0 {
      assert forall j :: 0 <= j < |fields[1..]| ==> fields[1..][j] == fields[j + 1];
      EachEncodes(fields[1..], m, i - 1);
    }
  }

  /** The round trip.  Decoding what was encoded succeeds exactly when every string that is sent
      has room for its terminator; it then reads every byte, and the structure it fills is the
      one that was encoded exactly when that one is canonical. */
  lemma {:induction false} RoundTrip(fields: Desc, m: Msg)
    requires WellFormed(fields) && TypedMsg(fields, m)
    requires EncodeFields(fields, m).Some? && |EncodeFields(fields, m).value| < TWO_32
    ensures var out := Decode(fields, EncodeFields(fields, m).value);
            && (out.Some? <==> StringsFit(fields, m))
            && (out.Some? ==> out.value.1 == [] && ArrivedMsg(fields, fields, out.value.0, m))
            && (out.Some? ==> (out.value.0 == m <==> CanonicalMsg(fields, m)))
  {
    EvolvesSelf(fields);
    SchemaEvolution(fields, fields, m);
    FitsOwn(fields, m);
    var out := Decode(fields, EncodeFields(fields, m).value);
    if out.Some? {
      ArrivedSelf(fields, out.value.0, m);
    }
  }

  // ----- no message at all

  /** A value that nothing has been decoded over: what the descriptor says, or zero. */
  ghost predicate Initial(f: Field, v: Value)
    decreases f, 0
  {
    match f.ltype
    case Submessage(fields) => v.Struct? && AllUntouched(fields, v.cells)
    case _ =>
      if f.initial.Some? then v == f.initial.value
      else if f.ltype.FixedBytes? then AllZero(v, f.dataSize)
      else if f.ltype.Bytes? || f.ltype.String? then v == Blob([])
      else v == Int(0)
  }

  ghost predicate AllZero(v: Value, size: nat) {
    v.Blob? && |v.bs| == size && forall i :: 0 <= i < size ==> v.bs[i] == 0
  }

  ghost predicate Untouched(f: Field, c: Cell)
    decreases f, 1
  {
    match f.htype
    case Optional => c.Maybe? && !c.has && Initial(f, c.v)
    case Repeated => c == Array([])
    case Oneof => c == Empty
    case _ => c.Single? && Initial(f, c.v)
  }

  ghost predicate AllUntouched(fields: Desc, m: Msg)
    decreases fields, 0
  {
    forall i :: 0 <= i < |fields| ==> fields[i].member in m && Untouched(fields[i], m[fields[i].member])
  }

  lemma {:induction false} DefaultsUntouched(fields: Desc)
    requires WellFormed(fields)
    ensures AllUntouched(fields, Defaults(fields))
    decreases fields, 0
  {
    DefaultsAt(fields);
    forall i | 0 <= i < |fields|
      ensures Untouched(fields[i], DefaultCell(fields[i]))
    {
      DefaultInitial(fields[i]);
    }
  }

  lemma {:induction false} DefaultInitial(f: Field)
    requires WellFormedField(f)
    ensures Initial(f, DefaultValue(f))
    decreases f, 0
  {
    if f.ltype.Submessage? {
      DefaultsUntouched(f.ltype.fields);
    }
  }

  /** An empty message is refused exactly if something is required, and otherwise leaves the values
      that the descriptor gives. */
  lemma EmptyInput(fields: Desc)
    requires WellFormed(fields)
    ensures Decode(fields, []).Some? <==> forall i :: 0 <= i < |fields| ==> !fields[i].htype.Required?
    ensures Decode(fields, []).Some? ==> AllUntouched(fields, Decode(fields, []).value.0)
  {
    DefaultsTyped(fields);
    DefaultsUntouched(fields);
    assert DecodeFields(fields, Defaults(fields), {}, []) == Stopped(Defaults(fields), {}, []);
    if i :| 0 <= i < |fields| && fields[i].htype.Required? {
      assert fields[i].tag in RequiredTags(fields);
    }
  }

  // ----- a message that does not survive

  const LIST: Field := Field(1, Repeated, Varint, 4, 4, 0, 0, None)
  const HOLDER: Field := Field(1, Singular, Submessage([LIST]), 20, 0, 0, 0, None)
  const ONE_ZERO: Msg := map[0 := Single(Struct(map[0 := Array([Int(0)])]))]

  /** A submessage without a has_ member whose only content is an array of one zero is taken
      for an empty one: nothing is sent and the element is lost. */
  lemma ZeroElementLost()
    ensures WellFormed([HOLDER]) && TypedMsg([HOLDER], ONE_ZERO)
    ensures EncodeFields([HOLDER], ONE_ZERO) == Some([])
    ensures Decode([HOLDER], []).Some? && Decode([HOLDER], []).value.0 != ONE_ZERO
    ensures !CanonicalMsg([HOLDER], ONE_ZERO)
  {
    HolderTyped();
    HolderNotSent();
    RoundTrip([HOLDER], ONE_ZERO);
    HolderDecoded();
  }

  lemma HolderTyped()
    ensures WellFormed([LIST]) && WellFormed([HOLDER])
    ensures TypedMsg([LIST], map[0 := Array([Int(0)])]) && TypedMsg([HOLDER], ONE_ZERO)
  {
    assert WellFormedField(LIST);
    assert WellFormed([LIST]);
    assert WellFormedField(HOLDER);
    var inner: Msg := map[0 := Array([Int(0)])];
    assert TypedValue(LIST, Int(0));
    assert TypedCell(LIST, inner[0]);
    assert Members([LIST]) == {0} by { assert [LIST][0].member == 0; }
    assert TypedMsg([LIST], inner);
    assert TypedValue(HOLDER, Struct(inner));
    assert TypedCell(HOLDER, ONE_ZERO[0]);
    assert Members([HOLDER]) == {0} by { assert [HOLDER][0].member == 0; }
  }

  lemma HolderNotSent()
    requires TypedMsg([HOLDER], ONE_ZERO) && TypedMsg([LIST], map[0 := Array([Int(0)])])
    ensures EncodeFields([HOLDER], ONE_ZERO) == Some([])
  {
    var inner: Msg := map[0 := Array([Int(0)])];
    assert IsZeroCell(LIST, inner[0]);
    assert IsZeroMsg([LIST], inner);
    assert IsZeroValue(HOLDER, Struct(inner));
    assert !IsSent(HOLDER, ONE_ZERO[0]);
    EncodeOneField(HOLDER, ONE_ZERO);
  }

  lemma EncodeOneField(f: Field, m: Msg)
    requires TypedCells([f], m) && f.member in m && TypedCell(f, m[f.member])
    requires !IsSent(f, m[f.member]) && !f.htype.Repeated?
    ensures EncodeFields([f], m) == Some([])
  {
    var fields, nothing: seq<byte> := [f], [];
    assert fields[0] == f && fields[1..] == [];
    assert nothing + nothing == nothing;
  }

  lemma DecodeNothing(fields: Desc)
    requires WellFormed(fields) && RequiredTags(fields) == {}
    ensures Decode(fields, []) == Some((Defaults(fields), []))
  {
    DefaultsTyped(fields);
    var m := Defaults(fields);
    assert DecodeFields(fields, m, {}, []) == Stopped(m, {}, []);
    assert DecodeMessage(fields, m, []) == Some((m, []));
  }

  lemma HolderDecoded()
    requires WellFormed([HOLDER])
    ensures Decode([HOLDER], []).Some? && Decode([HOLDER], []).value.0 != ONE_ZERO
  {
    assert RequiredTags([HOLDER]) == {};
    DefaultsTyped([HOLDER]);
    DefaultsAt([HOLDER]);
    assert [HOLDER][0] == HOLDER;
    assert Defaults([HOLDER])[0] == DefaultCell(HOLDER);
    assert DefaultCell(HOLDER) == Single(Struct(Defaults([LIST])));
    assert [LIST][1..] == [];
    assert [LIST][0] == LIST && Defaults([]) == map[];
    assert Defaults([LIST]) == map[0 := Array([])];
    DecodeNothing([HOLDER]);
    assert Defaults([HOLDER])[0].v.cells[0] != ONE_ZERO[0].v.cells[0];
  }

  // ----- merging by concatenation

  /** Decoding two encoded messages laid end to end, over a structure that already holds
      something, is merging the first and then the second; what the receiver requires may be in
      either. */
  lemma {:induction false} MergeByConcatenation(receiver: Desc, first: Desc, second: Desc, m: Msg, m1: Msg, m2: Msg)
    requires Peers(receiver, first) && Peers(receiver, second) && TypedMsg(receiver, m)
    requires TypedCells(first, m1) && TypedCells(second, m2)
    requires EncodeFields(first, m1).Some? && |EncodeFields(first, m1).value| < TWO_32
    requires EncodeFields(second, m2).Some? && |EncodeFields(second, m2).value| < TWO_32
    ensures DecodeMessage(receiver, m, EncodeFields(first, m1).value + EncodeFields(second, m2).value) ==
            match MergeFields(receiver, first, m, m1)
            case None => None
            case Some(r1) =>
              match MergeFields(receiver, second, r1, m2)
              case None => None
              case Some(r2) =>
                if RequiredTags(receiver) <= SentTags(first, m1) + SentTags(second, m2) then Some((r2, [])) else None
  {
    hide RequiredTags, SentTags, TypedMsg, TypedCells, WellFormedField;
    var e1, e2 := EncodeFields(first, m1).value, EncodeFields(second, m2).value;
    FieldsArrive(receiver, first, m, m1, {}, e1, e2);
    var seen := {} + RequiredTags(receiver) * SentTags(first, m1);
    MetInEither(RequiredTags(receiver), SentTags(first, m1), SentTags(second, m2));
    match MergeFields(receiver, first, m, m1)
    case None =>
    case Some(r1) =>
      FieldsArrive(receiver, second, r1, m2, seen, e2, []);
      assert e2 + [] == e2;
  }

  lemma MetInEither(required: set<nat>, a: set<nat>, b: set<nat>)
    ensures required <= a + b <==> required <= {} + required * a + required * b
  {
  }

  /** What the merge of one member is: the last number, bytes or string wins, nested structures
      merge member by member, arrays are appended while they fit, and a oneof is replaced by the
      arm that arrives, decoded afresh. */
  lemma {:induction false} MergeCellMeaning(f: Field, g: Field, c: Cell, sent: Cell)
    requires WellFormedField(f) && WellFormedField(g) && Compatible(f, g)
    requires TypedCell(f, c) && TypedCell(g, sent) && IsSent(g, sent)
    requires TypedValue(f, DefaultValue(f)) && MergeCell(f, g, c, sent).Some?
    ensures var r := MergeCell(f, g, c, sent).value;
            match f.htype
            case Repeated =>
              && |c.vs| + |sent.vs| <= f.arraySize && ElementsFit(f, g, sent.vs)
              && r == Array(c.vs + FreshElements(f, g, sent.vs))
            case Oneof => r.Arm? && r.which == f.tag && ArrivedValue(f, g, r.v, sent.v)
            case Optional => r.Maybe? && r.has && OverValue(f, g, c.v, sent.v, r.v)
            case _ => r.Single? && OverValue(f, g, c.v, sent.v, r.v)
  {
    hide MergeValue, OverValue, ArrivedValue, TypedValue, DefaultValue, Compatible, FreshElements, ElementsFit;
    assert SameRule(f.htype, g.htype) by { CompatibleRules(f, g); }
    if g.htype.Repeated? {
      MergeElementsAppends(f, g, c.vs, sent.vs);
    } else if g.htype.Oneof? {
      FreshValue(f, g, sent.v);
    } else {
      MergedOver(f, g, c.v, sent.v);
    }
  }

  lemma CompatibleRules(f: Field, g: Field)
    requires Compatible(f, g)
    ensures f.tag == g.tag && SameRule(f.htype, g.htype)
  {
  }

  lemma MergedOver(f: Field, g: Field, prev: Value, v: Value)
    requires WellFormedField(f) && WellFormedField(g) && Compatible(f, g)
    requires TypedValue(f, prev) && TypedValue(g, v) && MergeValue(f, g, prev, v).Some?
    ensures OverValue(f, g, prev, v, MergeValue(f, g, prev, v).value)
  {
    if g.ltype.Submessage? {
      NestedCompatible(f, g);
    }
  }

  /** A value that arrives over another. */
  ghost predicate OverValue(f: Field, g: Field, prev: Value, v: Value, r: Value)
    requires WellFormedField(f) && WellFormedField(g) && Compatible(f, g)
    requires TypedValue(f, prev) && TypedValue(g, v)
  {
    if g.ltype.Submessage? then
      NestedCompatible(f, g);
      r.Struct? && MergeMessage(f.ltype.fields, g.ltype.fields, prev.cells, v.cells) == Some(r.cells)
    else ArrivedValue(f, g, r, v)
  }
}
