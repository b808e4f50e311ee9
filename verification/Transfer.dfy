/** Decoding an encoded message is the merge: the bytes that one version of a descriptor
    writes, read with another, change the receiver's structure as `MergeFields` says, stop
    where they end, and fail exactly when the merge does not fit. */
module Transfer {
  import opened Wrappers
  import opened Bits
  import opened Wire
  import opened Schema
  import opened EncodeSpec
  import opened DecodeSpec
  import opened Merge

  function Tags(fields: Desc): set<nat> {
    set j | 0 <= j < |fields| :: fields[j].tag
  }

  /** The tag of a field, if it is sent. */
  function SentTag(g: Field, sent: Cell): set<nat>
    requires TypedCell(g, sent)
  {
    if IsSent(g, sent) then {g.tag} else {}
  }

  /** What the receiver goes on with after a merge. */
  ghost function Resume(receiver: Desc, merged: Option<Msg>, seen: set<nat>, rest: seq<byte>): Progress
    requires WellFormed(receiver) && (merged.Some? ==> TypedMsg(receiver, merged.value))
  {
    match merged
    case None => Stuck
    case Some(m) => DecodeFields(receiver, m, seen, rest)
  }

  ghost function WithRest(v: Option<Value>, rest: seq<byte>): Decoded {
    match v
    case None => None
    case Some(w) => Some((w, rest))
  }

  // ----- scalar values

  lemma NumberArrives(f: Field, v: Value, e: seq<byte>, rest: seq<byte>)
    requires f.ltype.Varint? || f.ltype.UVarint? || f.ltype.SVarint?
    requires TypedValue(f, v) && EncodeValue(f, v) == Some(e)
    ensures DecodeScalar(f, e + rest) == Some((v, rest))
  {
    match f.ltype
    case Varint =>
      SignedOfWord(v.n, f.dataSize);
      VarintRoundTrip(ToWord(v.n), rest);
    case UVarint =>
      VarintRoundTrip(v.n, rest);
    case SVarint =>
      SignedOfWord(v.n, f.dataSize);
      ZigZagRoundTrip(v.n);
      VarintRoundTrip(ZigZag(v.n), rest);
  }

  lemma WordArrives(f: Field, v: Value, rest: seq<byte>)
    requires f.ltype.Fixed32? || f.ltype.Fixed64?
    requires TypedValue(f, v)
    ensures DecodeScalar(f, EncodeValue(f, v).value + rest) == Some((v, rest))
  {
    ShlWords();
    var size := if f.ltype.Fixed32? then 4 else 8;
    var bs := LittleEndian(v.n, size) + rest;
    LittleEndianRoundTrip(v.n, size);
    assert bs[..size] == LittleEndian(v.n, size) && bs[size..] == rest;
  }

  lemma BodyArrives(body: seq<byte>, rest: seq<byte>)
    requires |body| < TWO_32
    ensures ReadDelimitedBody(Delimited(body) + rest) == Some((body, rest))
  {
    ReadDelimited(body, rest);
    assert (body + rest)[..|body|] == body && (body + rest)[|body|..] == rest;
  }

  lemma ScalarArrives(f: Field, g: Field, prev: Value, v: Value, e: seq<byte>, rest: seq<byte>)
    requires WellFormedField(f) && WellFormedField(g) && Compatible(f, g) && !g.ltype.Submessage?
    requires TypedValue(f, prev) && TypedValue(g, v)
    requires EncodeValue(g, v) == Some(e) && |e| < TWO_32
    ensures DecodeValue(f, prev, e + rest) == WithRest(MergeValue(f, g, prev, v), rest)
  {
    if g.ltype.Bytes? || g.ltype.String? || g.ltype.FixedBytes? {
      BlobArrives(f, g, prev, v, e, rest);
    } else {
      hide WellFormedField, DecodeScalar, EncodeValue;
      if g.ltype.Fixed32? || g.ltype.Fixed64? {
        WordArrives(g, v, rest);
      } else {
        NumberArrives(g, v, e, rest);
      }
      SameScalar(f, g, e + rest);
    }
  }

  /** Numbers are decoded by their type and size only. */
  lemma SameScalar(f: Field, g: Field, bs: seq<byte>)
    requires f.ltype == g.ltype && f.dataSize == g.dataSize && g.ltype.Packable()
    ensures DecodeScalar(f, bs) == DecodeScalar(g, bs)
  {
  }

  lemma BlobArrives(f: Field, g: Field, prev: Value, v: Value, e: seq<byte>, rest: seq<byte>)
    requires WellFormedField(f) && WellFormedField(g) && Compatible(f, g)
    requires g.ltype.Bytes? || g.ltype.String? || g.ltype.FixedBytes?
    requires TypedValue(f, prev) && TypedValue(g, v)
    requires EncodeValue(g, v) == Some(e) && |e| < TWO_32
    ensures DecodeValue(f, prev, e + rest) == WithRest(MergeValue(f, g, prev, v), rest)
  {
    hide WellFormedField, ReadDelimitedBody, Delimited;
    var body := if g.ltype.String? then CString(v.bs) else v.bs;
    assert e == Delimited(body) && |body| < TWO_32 by { DelimitedLength(body); }
    BodyArrives(body, rest);
  }

  lemma DelimitedLength(body: seq<byte>)
    ensures |Delimited(body)| > |body|
  {
  }

  // ----- fields the receiver does not know

  /** The skipper passes over exactly what the encoder wrote for one value. */
  lemma ValueSkipped(g: Field, v: Value, e: seq<byte>, rest: seq<byte>)
    requires TypedValue(g, v) && EncodeValue(g, v) == Some(e) && |e| < TWO_32
    ensures Skip(FieldWireType(g.ltype), e + rest) == Some(rest)
  {
    match g.ltype
    case Varint => SkipVarintBytes(ToWord(v.n), rest);
    case UVarint => SkipVarintBytes(v.n, rest);
    case SVarint => SkipVarintBytes(ZigZag(v.n), rest);
    case Fixed32 => assert (e + rest)[4..] == rest;
    case Fixed64 => assert (e + rest)[8..] == rest;
    case Bytes => SkipDelimited(v.bs, rest);
    case String => SkipDelimited(CString(v.bs), rest);
    case FixedBytes => SkipDelimited(v.bs, rest);
    case Submessage(fields) => SkipDelimited(EncodeFields(fields, v.cells).value, rest);
  }

  /** One key and a payload that the skipper passes over leave no trace. */
  lemma UnknownSkipped(receiver: Desc, tag: nat, wt: WireType, m: Msg, seen: set<nat>,
                       payload: seq<byte>, rest: seq<byte>)
    requires WellFormed(receiver) && TypedMsg(receiver, m)
    requires 0 < tag < 0x2000_0000 && FindField(receiver, tag).None?
    requires Skip(wt, payload + rest) == Some(rest)
    ensures DecodeFields(receiver, m, seen, (KeyBytes(tag, wt) + payload) + rest) ==
            DecodeFields(receiver, m, seen, rest)
  {
    KeyRoundTrip(tag, wt, payload + rest);
    assert (KeyBytes(tag, wt) + payload) + rest == KeyBytes(tag, wt) + (payload + rest);
  }

  lemma {:induction false} UnknownElements(receiver: Desc, g: Field, m: Msg, seen: set<nat>,
                                           vs: seq<Value>, e: seq<byte>, rest: seq<byte>)
    requires WellFormed(receiver) && TypedMsg(receiver, m)
    requires WellFormedField(g) && FindField(receiver, g.tag).None?
    requires forall i :: 0 <= i < |vs| ==> TypedValue(g, vs[i])
    requires EncodeTaggedElements(g, vs) == Some(e) && |e| < TWO_32
    ensures DecodeFields(receiver, m, seen, e + rest) == DecodeFields(receiver, m, seen, rest)
    decreases |vs|
  {
    if vs == [] {
      assert e + rest == rest;
    } else {
      var payload := EncodeValue(g, vs[0]).value;
      var e1 := EncodeTagged(g, vs[0]).value;
      var e2 := EncodeTaggedElements(g, vs[1..]).value;
      assert e + rest == e1 + (e2 + rest);
      ValueSkipped(g, vs[0], payload, e2 + rest);
      UnknownSkipped(receiver, g.tag, FieldWireType(g.ltype), m, seen, payload, e2 + rest);
      UnknownElements(receiver, g, m, seen, vs[1..], e2, rest);
    }
  }

  lemma UnknownField(receiver: Desc, g: Field, m: Msg, seen: set<nat>,
                     sent: Cell, e: seq<byte>, rest: seq<byte>)
    requires WellFormed(receiver) && TypedMsg(receiver, m)
    requires WellFormedField(g) && FindField(receiver, g.tag).None?
    requires TypedCell(g, sent) && EncodeField(g, sent) == Some(e) && |e| < TWO_32
    ensures DecodeFields(receiver, m, seen, e + rest) == DecodeFields(receiver, m, seen, rest)
  {
    if !IsSent(g, sent) {
      assert e + rest == rest;
    } else if !g.htype.Repeated? {
      var payload := EncodeValue(g, sent.v).value;
      ValueSkipped(g, sent.v, payload, rest);
      UnknownSkipped(receiver, g.tag, FieldWireType(g.ltype), m, seen, payload, rest);
    } else if g.ltype.Packable() {
      var body := EncodeElements(g, sent.vs).value;
      SkipDelimited(body, rest);
      UnknownSkipped(receiver, g.tag, WT_STRING, m, seen, Delimited(body), rest);
    } else {
      UnknownElements(receiver, g, m, seen, sent.vs, e, rest);
    }
  }

  // ----- fields both sides know

  /** One key of a known field hands the payload to the decoder of that field. */
  lemma KnownKey(receiver: Desc, i: nat, wt: WireType, m: Msg, seen: set<nat>, payload: seq<byte>, rest: seq<byte>)
    requires WellFormed(receiver) && TypedMsg(receiver, m)
    requires i < |receiver| && FindField(receiver, receiver[i].tag) == Some(i)
    ensures var f := receiver[i];
            DecodeFields(receiver, m, seen, (KeyBytes(f.tag, wt) + payload) + rest) ==
            (match DecodeCell(f, wt, m[f.member], payload + rest)
             case None => Stuck
             case Some((c, after)) =>
               StoreTyped(receiver, m, i, c);
               DecodeFields(receiver, m[f.member := c], Met(f, seen), after))
  {
    var f := receiver[i];
    KeyRoundTrip(f.tag, wt, payload + rest);
    assert (KeyBytes(f.tag, wt) + payload) + rest == KeyBytes(f.tag, wt) + (payload + rest);
  }

  /** Packed numbers are appended one by one until they end or the array is full. */
  lemma {:induction false} PackedArrives(f: Field, g: Field, held: seq<Value>, vs: seq<Value>, e: seq<byte>)
    requires WellFormedField(f) && WellFormedField(g) && Compatible(f, g) && g.ltype.Packable()
    requires forall i :: 0 <= i < |held| ==> TypedValue(f, held[i])
    requires forall i :: 0 <= i < |vs| ==> TypedValue(g, vs[i])
    requires EncodeElements(g, vs) == Some(e) && |e| < TWO_32
    ensures DecodePacked(f, held, e) == MergeElements(f, g, held, vs)
    decreases |vs|
  {
    DefaultValueTyped(f);
    if vs != [] && |held| < f.arraySize {
      var e1 := EncodeValue(g, vs[0]).value;
      var e2 := EncodeElements(g, vs[1..]).value;
      ScalarArrives(f, g, DefaultValue(f), vs[0], e1, e2);
      PackedArrives(f, g, held + [vs[0]], vs[1..], e2);
    }
  }

  lemma {:induction false} ValueArrives(f: Field, g: Field, prev: Value, v: Value, e: seq<byte>, rest: seq<byte>)
    requires WellFormedField(f) && WellFormedField(g) && Compatible(f, g)
    requires TypedValue(f, prev) && TypedValue(g, v)
    requires EncodeValue(g, v) == Some(e) && |e| < TWO_32
    ensures DecodeValue(f, prev, e + rest) == WithRest(MergeValue(f, g, prev, v), rest)
    decreases g, 1
  {
    if g.ltype.Submessage? {
      NestedArrives(f, g, prev, v, e, rest);
    } else {
      ScalarArrives(f, g, prev, v, e, rest);
    }
  }

  lemma {:induction false} NestedArrives(f: Field, g: Field, prev: Value, v: Value, e: seq<byte>, rest: seq<byte>)
    requires WellFormedField(f) && WellFormedField(g) && Compatible(f, g) && g.ltype.Submessage?
    requires TypedValue(f, prev) && TypedValue(g, v)
    requires EncodeValue(g, v) == Some(e) && |e| < TWO_32
    ensures DecodeValue(f, prev, e + rest) == WithRest(MergeValue(f, g, prev, v), rest)
    decreases g, 0
  {
    NestedCompatible(f, g);
    var inner, outer := f.ltype.fields, g.ltype.fields;
    assert TypedMsg(inner, prev.cells) && TypedCells(outer, v.cells);
    var body := EncodeFields(outer, v.cells).value;
    BodyArrives(body, rest);
    MessageArrives(inner, outer, prev.cells, v.cells, body);
  }

  lemma {:induction false} MessageArrives(receiver: Desc, sender: Desc, m: Msg, sent: Msg, e: seq<byte>)
    requires WellFormed(receiver) && TypedMsg(receiver, m) && CommonFieldsCompatible(receiver, sender)
    requires forall j :: 0 <= j < |sender| ==> WellFormedField(sender[j])
    requires TypedCells(sender, sent) && EncodeFields(sender, sent) == Some(e) && |e| < TWO_32
    ensures DecodeMessage(receiver, m, e) ==
            (match MergeMessage(receiver, sender, m, sent)
             case None => None
             case Some(m') => Some((m', [])))
    decreases sender, 1
  {
    FieldsArrive(receiver, sender, m, sent, {}, e, []);
    assert e + [] == e;
    assert RequiredTags(receiver) <= SentTags(sender, sent) <==>
           RequiredTags(receiver) <= {} + RequiredTags(receiver) * SentTags(sender, sent);
  }

  /** One value of a known field that is not packed. */
  lemma {:induction false} TaggedArrives(receiver: Desc, i: nat, g: Field, m: Msg, seen: set<nat>,
                                         v: Value, e: seq<byte>, rest: seq<byte>)
    requires Meets(receiver, i, g, m) && TypedValue(g, v)
    requires g.htype.Repeated? ==> |m[receiver[i].member].vs| < receiver[i].arraySize
    requires EncodeTagged(g, v) == Some(e) && |e| < TWO_32
    ensures var f := receiver[i];
            DecodeFields(receiver, m, seen, e + rest) ==
            Resume(receiver, StoreMerged(receiver, i, g, m, v), Met(f, seen), rest)
    decreases g, 2
  {
    hide TypedValue, WellFormedField;
    var f := receiver[i];
    var payload := EncodeValue(g, v).value;
    KnownKey(receiver, i, FieldWireType(g.ltype), m, seen, payload, rest);
    ValueArrives(f, g, Target(f, m[f.member]), v, payload, rest);
  }

  /** The receiver's field `i` is the sender's field `g`, and its member has the field's type. */
  ghost predicate Meets(receiver: Desc, i: nat, g: Field, m: Msg) {
    && WellFormed(receiver) && TypedMsg(receiver, m) && WellFormedField(g)
    && i < |receiver| && FindField(receiver, g.tag) == Some(i) && Compatible(receiver[i], g)
    && receiver[i].member in m && TypedCell(receiver[i], m[receiver[i].member])
  }

  ghost function StoreMerged(receiver: Desc, i: nat, g: Field, m: Msg, v: Value): (r: Option<Msg>)
    requires Meets(receiver, i, g, m) && TypedValue(g, v)
    ensures r.Some? ==> TypedMsg(receiver, r.value)
  {
    var f := receiver[i];
    match MergeValue(f, g, Target(f, m[f.member]), v)
    case None => None
    case Some(w) =>
      StoreTyped(receiver, m, i, Stored(f, m[f.member], w));
      Some(m[f.member := Stored(f, m[f.member], w)])
  }

  ghost function StoreElements(receiver: Desc, i: nat, g: Field, m: Msg, vs: seq<Value>): (r: Option<Msg>)
    requires Meets(receiver, i, g, m) && g.htype.Repeated?
    requires forall k :: 0 <= k < |vs| ==> TypedValue(g, vs[k])
    ensures r.Some? ==> TypedMsg(receiver, r.value)
  {
    var f := receiver[i];
    match MergeElements(f, g, m[f.member].vs, vs)
    case None => None
    case Some(ws) => StoreTyped(receiver, m, i, Array(ws)); Some(m[f.member := Array(ws)])
  }

  lemma FullArray(receiver: Desc, i: nat, g: Field, m: Msg, seen: set<nat>, v: Value, e: seq<byte>, rest: seq<byte>)
    requires Meets(receiver, i, g, m) && TypedValue(g, v)
    requires g.htype.Repeated? && |m[receiver[i].member].vs| >= receiver[i].arraySize
    requires EncodeTagged(g, v) == Some(e) && |e| < TWO_32
    ensures DecodeFields(receiver, m, seen, e + rest) == Stuck
  {
    KnownKey(receiver, i, FieldWireType(g.ltype), m, seen, EncodeValue(g, v).value, rest);
  }

  /** Array elements that come one by one, each behind a key of its own, are appended: that is how
      strings and messages are always sent, and how numbers may be. */
  lemma {:induction false} ElementsArrive(receiver: Desc, i: nat, g: Field, m: Msg, seen: set<nat>,
                                          vs: seq<Value>, e: seq<byte>, rest: seq<byte>)
    requires Meets(receiver, i, g, m) && g.htype.Repeated?
    requires forall k :: 0 <= k < |vs| ==> TypedValue(g, vs[k])
    requires EncodeTaggedElements(g, vs) == Some(e) && |e| < TWO_32
    ensures DecodeFields(receiver, m, seen, e + rest) ==
            Resume(receiver, StoreElements(receiver, i, g, m, vs), seen, rest)
    decreases g, 3, |vs|
  {
    var f := receiver[i];
    var held := m[f.member].vs;
    if vs == [] {
      assert e + rest == rest;
      assert m[f.member := Array(held)] == m;
    } else {
      var e1 := EncodeTagged(g, vs[0]).value;
      var e2 := EncodeTaggedElements(g, vs[1..]).value;
      assert e + rest == e1 + (e2 + rest);
      if |held| >= f.arraySize {
        FullArray(receiver, i, g, m, seen, vs[0], e1, e2 + rest);
      } else {
        TaggedArrives(receiver, i, g, m, seen, vs[0], e1, e2 + rest);
        var merged := StoreMerged(receiver, i, g, m, vs[0]);
        if merged.Some? {
          ElementStored(receiver, i, g, m, vs);
          ElementsArrive(receiver, i, g, merged.value, seen, vs[1..], e2, rest);
        }
      }
    }
  }

  /** Storing the first element and then the others is storing them all. */
  lemma ElementStored(receiver: Desc, i: nat, g: Field, m: Msg, vs: seq<Value>)
    requires Meets(receiver, i, g, m) && g.htype.Repeated?
    requires vs != [] && forall k :: 0 <= k < |vs| ==> TypedValue(g, vs[k])
    requires |m[receiver[i].member].vs| < receiver[i].arraySize
    requires StoreMerged(receiver, i, g, m, vs[0]).Some?
    ensures var m' := StoreMerged(receiver, i, g, m, vs[0]).value;
            && Meets(receiver, i, g, m')
            && StoreElements(receiver, i, g, m', vs[1..]) == StoreElements(receiver, i, g, m, vs)
  {
    hide TypedValue, WellFormedField;
    var f := receiver[i];
    var m' := StoreMerged(receiver, i, g, m, vs[0]).value;
    var all := MergeElements(f, g, m[f.member].vs, vs);
    assert MergeElements(f, g, m'[f.member].vs, vs[1..]) == all;
    if all.Some? {
      assert m'[f.member := Array(all.value)] == m[f.member := Array(all.value)];
    }
  }

  /** A field that the sender sends and the receiver knows. */
  lemma {:induction false} KnownFieldArrives(receiver: Desc, i: nat, g: Field, m: Msg, seen: set<nat>,
                                             sent: Cell, e: seq<byte>, rest: seq<byte>)
    requires Meets(receiver, i, g, m) && TypedCell(g, sent) && IsSent(g, sent)
    requires EncodeField(g, sent) == Some(e) && |e| < TWO_32
    requires CommonFieldsCompatible(receiver, [g])
    ensures DecodeFields(receiver, m, seen, e + rest) ==
            Resume(receiver, MergeField(receiver, g, m, sent), Met(receiver[i], seen), rest)
    decreases g, 4
  {
    hide TypedValue, WellFormedField;
    var f := receiver[i];
    if !g.htype.Repeated? {
      TaggedArrives(receiver, i, g, m, seen, sent.v, e, rest);
    } else if g.ltype.Packable() {
      var body := EncodeElements(g, sent.vs).value;
      KnownKey(receiver, i, WT_STRING, m, seen, Delimited(body), rest);
      BodyArrives(body, rest);
      PackedArrives(f, g, m[f.member].vs, sent.vs, body);
    } else {
      ElementsArrive(receiver, i, g, m, seen, sent.vs, e, rest);
    }
  }

  /** One field of the sender's message, whatever its repetition rule. */
  lemma {:induction false} FieldArrives(receiver: Desc, g: Field, m: Msg, seen: set<nat>,
                                        sent: Cell, e: seq<byte>, rest: seq<byte>)
    requires WellFormed(receiver) && TypedMsg(receiver, m)
    requires WellFormedField(g) && CommonFieldsCompatible(receiver, [g])
    requires TypedCell(g, sent) && EncodeField(g, sent) == Some(e) && |e| < TWO_32
    ensures DecodeFields(receiver, m, seen, e + rest) ==
            Resume(receiver, MergeField(receiver, g, m, sent), seen + RequiredTags(receiver) * SentTag(g, sent), rest)
    decreases g, 5
  {
    RequiredOrNot(receiver, g.tag);
    var found := FindField(receiver, g.tag);
    if found.None? {
      UnknownField(receiver, g, m, seen, sent, e, rest);
      assert seen + RequiredTags(receiver) * SentTag(g, sent) == seen;
    } else {
      var f := receiver[found.value];
      assert [g][0] == g;
      if IsSent(g, sent) {
        assert Met(f, seen) == seen + RequiredTags(receiver) * {g.tag};
        KnownFieldArrives(receiver, found.value, g, m, seen, sent, e, rest);
      } else {
        assert e + rest == rest;
        assert seen + RequiredTags(receiver) * SentTag(g, sent) == seen;
      }
    }
  }

  lemma RequiredOrNot(fields: Desc, tag: nat)
    requires WellFormed(fields)
    ensures tag in RequiredTags(fields) <==>
            FindField(fields, tag).Some? && fields[FindField(fields, tag).value].htype.Required?
  {
    if tag in RequiredTags(fields) {
      var k :| 0 <= k < |fields| && fields[k].htype.Required? && fields[k].tag == tag;
      var i := FindField(fields, tag).value;
      SameTag(fields, i, k);
    }
  }

  lemma SameTag(fields: Desc, i: nat, k: nat)
    requires DistinctTags(fields) && i < |fields| && k < |fields|
    requires fields[i].tag == fields[k].tag
    ensures i == k
  {
  }

  /** The whole message: reading what `sender` wrote is merging it, field by field. */
  lemma {:induction false} FieldsArrive(receiver: Desc, sender: Desc, m: Msg, sent: Msg, seen: set<nat>,
                                        e: seq<byte>, rest: seq<byte>)
    requires WellFormed(receiver) && TypedMsg(receiver, m) && CommonFieldsCompatible(receiver, sender)
    requires forall j :: 0 <= j < |sender| ==> WellFormedField(sender[j])
    requires TypedCells(sender, sent) && EncodeFields(sender, sent) == Some(e) && |e| < TWO_32
    ensures DecodeFields(receiver, m, seen, e + rest) ==
            Resume(receiver, MergeFields(receiver, sender, m, sent),
                   seen + RequiredTags(receiver) * SentTags(sender, sent), rest)
    decreases sender, 0, 0
  {
    hide TypedValue, WellFormedField, Compatible, TypedCell;
    if sender == [] {
      assert e + rest == rest;
      assert seen + RequiredTags(receiver) * SentTags(sender, sent) == seen;
    } else {
      var g, others := sender[0], sender[1..];
      assert forall j :: 0 <= j < |others| ==> others[j] == sender[j + 1];
      assert CommonFieldsCompatible(receiver, [g]);
      var cell := sent[g.member];
      var e1, e2 := EncodeField(g, cell).value, EncodeFields(others, sent).value;
      assert e + rest == e1 + (e2 + rest);
      FieldArrives(receiver, g, m, seen, cell, e1, e2 + rest);
      var merged := MergeField(receiver, g, m, cell);
      if merged.Some? {
        var seen' := seen + RequiredTags(receiver) * SentTag(g, cell);
        FieldsArrive(receiver, others, merged.value, sent, seen', e2, rest);
        SentTagsTail(sender, sent);
        assert seen' + RequiredTags(receiver) * SentTags(others, sent) ==
               seen + RequiredTags(receiver) * SentTags(sender, sent);
      }
    }
  }

  lemma SentTagsTail(sender: Desc, sent: Msg)
    requires sender != [] && TypedCells(sender, sent) && TypedCells(sender[1..], sent)
    ensures SentTags(sender, sent) == SentTag(sender[0], sent[sender[0].member]) + SentTags(sender[1..], sent)
  {
    hide IsSent, TypedCell;
    var others := sender[1..];
    forall i | 0 <= i < |sender| && IsSent(sender[i], sent[sender[i].member])
      ensures sender[i].tag in SentTag(sender[0], sent[sender[0].member]) + SentTags(others, sent)
    {
      if i > 0 {
        assert sender[i] == others[i - 1];
      }
    }
    forall i | 0 <= i < |others| && IsSent(others[i], sent[others[i].member])
      ensures others[i].tag in SentTags(sender, sent)
    {
      assert others[i] == sender[i + 1];
    }
  }
}
