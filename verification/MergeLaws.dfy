/** The merge, field by field: which fields of the receiver change, to what, and when the
    whole merge fits. */
module MergeLaws {
  import opened Wrappers
  import opened Wire
  import opened Schema
  import opened EncodeSpec
  import opened DecodeSpec
  import opened Merge
  import opened Transfer

  /** Two sides that may exchange messages. */
  ghost predicate Peers(receiver: Desc, sender: Desc) {
    WellFormed(receiver) && WellFormed(sender) && Evolves(receiver, sender)
  }

  // ----- suffixes of the sender's fields

  /** What `MergeFields` needs of the fields still to come. */
  ghost predicate Pending(receiver: Desc, sender: Desc, m: Msg, sent: Msg) {
    && WellFormed(receiver) && CommonFieldsCompatible(receiver, sender)
    && (forall j :: 0 <= j < |sender| ==> WellFormedField(sender[j]))
    && DistinctTags(sender)
    && TypedMsg(receiver, m) && TypedCells(sender, sent)
  }

  lemma PendingTail(receiver: Desc, sender: Desc, m: Msg, sent: Msg)
    requires Pending(receiver, sender, m, sent) && sender != []
    ensures CommonFieldsCompatible(receiver, [sender[0]])
    ensures var merged := MergeField(receiver, sender[0], m, sent[sender[0].member]);
            merged.Some? ==> Pending(receiver, sender[1..], merged.value, sent)
  {
    var others := sender[1..];
    assert forall j :: 0 <= j < |others| ==> others[j] == sender[j + 1];
  }

  lemma FoundAt(fields: Desc, i: nat)
    requires DistinctTags(fields) && i < |fields|
    ensures FindField(fields, fields[i].tag) == Some(i)
  {
    SameTag(fields, i, FindField(fields, fields[i].tag).value);
  }

  /** The sender's field with a tag, when that field is sent. */
  ghost function SentField(sender: Desc, sent: Msg, tag: nat): (r: Option<nat>)
    requires TypedCells(sender, sent)
    ensures r.Some? ==> r.value < |sender| && sender[r.value].tag == tag &&
                        IsSent(sender[r.value], sent[sender[r.value].member])
  {
    match FindField(sender, tag)
    case None => None
    case Some(j) => if IsSent(sender[j], sent[sender[j].member]) then Some(j) else None
  }

  lemma SentFieldTail(sender: Desc, sent: Msg, tag: nat)
    requires TypedCells(sender, sent) && sender != [] && DistinctTags(sender)
    requires TypedCells(sender[1..], sent)
    ensures sender[0].tag == tag ==> SentField(sender[1..], sent, tag).None?
    ensures sender[0].tag != tag ==>
      SentField(sender, sent, tag) ==
      match SentField(sender[1..], sent, tag) { case None => None case Some(j) => Some(j + 1) }
    ensures forall j :: 0 <= j < |sender[1..]| ==> sender[1..][j] == sender[j + 1]
  {
  }

  /** A member of the receiver that is not a oneof changes exactly when its field is sent, and
      then to the merge of the two cells. */
  lemma {:induction false} FieldAfterMerge(receiver: Desc, sender: Desc, m: Msg, sent: Msg, i: nat)
    requires Pending(receiver, sender, m, sent) && i < |receiver| && !receiver[i].htype.Oneof?
    requires MergeFields(receiver, sender, m, sent).Some?
    ensures var f, r := receiver[i], MergeFields(receiver, sender, m, sent).value;
            f.member in r && f.member in m && TypedCell(f, m[f.member]) &&
            match SentField(sender, sent, f.tag)
            case None => r[f.member] == m[f.member]
            case Some(j) => MergeCell(f, sender[j], m[f.member], sent[sender[j].member]) == Some(r[f.member])
    decreases |sender|
  {
    var f := receiver[i];
    if sender != [] {
      var g, others := sender[0], sender[1..];
      PendingTail(receiver, sender, m, sent);
      var m' := MergeField(receiver, g, m, sent[g.member]).value;
      FieldAfterMerge(receiver, others, m', sent, i);
      SentFieldTail(sender, sent, f.tag);
      FoundAt(receiver, i);
      if g.tag != f.tag {
        OtherMember(receiver, g, m, sent[g.member], i);
      }
    }
  }

  /** Merging a field leaves the members of other fields alone, unless they share a oneof. */
  lemma OtherMember(receiver: Desc, g: Field, m: Msg, sent: Cell, i: nat)
    requires WellFormed(receiver) && WellFormedField(g) && CommonFieldsCompatible(receiver, [g])
    requires TypedMsg(receiver, m) && TypedCell(g, sent)
    requires i < |receiver| && receiver[i].tag != g.tag && !receiver[i].htype.Oneof?
    requires MergeField(receiver, g, m, sent).Some?
    ensures receiver[i].member in m
    ensures MergeField(receiver, g, m, sent).value[receiver[i].member] == m[receiver[i].member]
  {
    var found := FindField(receiver, g.tag);
    if found.Some? {
      var k := found.value;
      assert receiver[k].member != receiver[i].member by {
        if i < k && receiver[i].member == receiver[k].member { assert false; }
        if k < i && receiver[k].member == receiver[i].member { assert false; }
      }
    }
  }

  // ----- oneofs

  ghost predicate NoArmSent(receiver: Desc, sender: Desc, sent: Msg, member: nat)
    requires TypedCells(sender, sent)
  {
    forall k :: 0 <= k < |receiver| && receiver[k].member == member ==>
      SentField(sender, sent, receiver[k].tag).None?
  }

  /** A oneof none of whose arms is sent keeps its arm. */
  lemma {:induction false} UnionUntouched(receiver: Desc, sender: Desc, m: Msg, sent: Msg, member: nat)
    requires Pending(receiver, sender, m, sent) && member in m
    requires NoArmSent(receiver, sender, sent, member)
    requires MergeFields(receiver, sender, m, sent).Some?
    ensures member in MergeFields(receiver, sender, m, sent).value
    ensures MergeFields(receiver, sender, m, sent).value[member] == m[member]
    decreases |sender|
  {
    if sender != [] {
      var g, others := sender[0], sender[1..];
      PendingTail(receiver, sender, m, sent);
      var m' := MergeField(receiver, g, m, sent[g.member]).value;
      forall k | 0 <= k < |receiver| && receiver[k].member == member
        ensures SentField(others, sent, receiver[k].tag).None?
      {
        SentFieldTail(sender, sent, receiver[k].tag);
      }
      UnionUntouched(receiver, others, m', sent, member);
    }
  }

  /** A oneof one of whose arms is sent holds that arm, whatever it held before. */
  lemma {:induction false} UnionAfterMerge(receiver: Desc, sender: Desc, m: Msg, sent: Msg, i: nat)
    requires Pending(receiver, sender, m, sent) && SameUnions(receiver, sender)
    requires i < |receiver| && receiver[i].htype.Oneof?
    requires SentField(sender, sent, receiver[i].tag).Some?
    requires MergeFields(receiver, sender, m, sent).Some?
    ensures var f, r := receiver[i], MergeFields(receiver, sender, m, sent).value;
            var j := SentField(sender, sent, f.tag).value;
            f.member in r && MergeCell(f, sender[j], Empty, sent[sender[j].member]) == Some(r[f.member])
    decreases |sender|
  {
    hide TypedValue, WellFormedField, Compatible;
    var f := receiver[i];
    var g, others := sender[0], sender[1..];
    PendingTail(receiver, sender, m, sent);
    SentFieldTail(sender, sent, f.tag);
    var m' := MergeField(receiver, g, m, sent[g.member]).value;
    if g.tag == f.tag {
      FoundAt(sender, 0);
      ArmStored(receiver, g, m, sent[g.member], i);
      OneArmSent(receiver, sender, sent, i);
      UnionUntouched(receiver, others, m', sent, f.member);
    } else {
      SameUnionsTail(receiver, sender);
      UnionAfterMerge(receiver, others, m', sent, i);
    }
  }

  lemma SameUnionsTail(receiver: Desc, sender: Desc)
    requires SameUnions(receiver, sender) && sender != []
    ensures SameUnions(receiver, sender[1..])
  {
    var others := sender[1..];
    forall i, k, j, l |
      0 <= i < |receiver| && 0 <= k < |receiver| && receiver[i].member == receiver[k].member &&
      0 <= j < |others| && 0 <= l < |others| &&
      receiver[i].tag == others[j].tag && receiver[k].tag == others[l].tag
      ensures others[j].member == others[l].member
    {
      assert others[j] == sender[j + 1] && others[l] == sender[l + 1];
    }
  }

  lemma ArmStored(receiver: Desc, g: Field, m: Msg, sent: Cell, i: nat)
    requires WellFormed(receiver) && WellFormedField(g) && CommonFieldsCompatible(receiver, [g])
    requires TypedMsg(receiver, m) && TypedCell(g, sent) && IsSent(g, sent)
    requires i < |receiver| && receiver[i].tag == g.tag && receiver[i].htype.Oneof?
    requires MergeField(receiver, g, m, sent).Some?
    ensures var f, r := receiver[i], MergeField(receiver, g, m, sent).value;
            && f.member in r && Compatible(f, g)
            && MergeCell(f, g, Empty, sent) == Some(r[f.member])
  {
    FoundAt(receiver, i);
    assert [g][0] == g;
  }

  /** After the arm that is sent no other arm of the same oneof can be. */
  lemma OneArmSent(receiver: Desc, sender: Desc, sent: Msg, i: nat)
    requires TypedCells(sender, sent) && sender != [] && TypedCells(sender[1..], sent)
    requires SameUnions(receiver, sender) && DistinctTags(sender) && CommonFieldsCompatible(receiver, sender)
    requires i < |receiver| && receiver[i].htype.Oneof? && receiver[i].tag == sender[0].tag
    requires IsSent(sender[0], sent[sender[0].member])
    requires DistinctMembers(receiver)
    ensures NoArmSent(receiver, sender[1..], sent, receiver[i].member)
  {
    var others := sender[1..];
    forall k | 0 <= k < |receiver| && receiver[k].member == receiver[i].member
      ensures SentField(others, sent, receiver[k].tag).None?
    {
      SentFieldTail(sender, sent, receiver[k].tag);
      var r := SentField(others, sent, receiver[k].tag);
      if r.Some? {
        assert false;
      }
    }
  }

  // ----- when a merge fits

  /** Every field that is sent and known fits the member it goes to. */
  ghost predicate AllFit(receiver: Desc, sender: Desc, m: Msg, sent: Msg)
    requires Pending(receiver, sender, m, sent)
  {
    forall i :: 0 <= i < |receiver| ==> FieldFits(receiver, sender, m, sent, i)
  }

  ghost predicate FieldFits(receiver: Desc, sender: Desc, m: Msg, sent: Msg, i: nat)
    requires Pending(receiver, sender, m, sent) && i < |receiver|
  {
    var f := receiver[i];
    match SentField(sender, sent, f.tag)
    case None => true
    case Some(j) =>
      assert TypedCell(f, m[f.member]);
      MergeCell(f, sender[j], m[f.member], sent[sender[j].member]).Some?
  }

  lemma {:induction false} MergeFits(receiver: Desc, sender: Desc, m: Msg, sent: Msg)
    requires Pending(receiver, sender, m, sent)
    ensures MergeFields(receiver, sender, m, sent).Some? <==> AllFit(receiver, sender, m, sent)
    decreases |sender|
  {
    if sender != [] {
      var g, others := sender[0], sender[1..];
      PendingTail(receiver, sender, m, sent);
      var merged := MergeField(receiver, g, m, sent[g.member]);
      HeadFits(receiver, sender, m, sent);
      if merged.Some? {
        MergeFits(receiver, others, merged.value, sent);
        forall i | 0 <= i < |receiver| && receiver[i].tag != g.tag
          ensures FieldFits(receiver, sender, m, sent, i) == FieldFits(receiver, others, merged.value, sent, i)
        {
          TailFits(receiver, sender, m, sent, i);
        }
        forall i | 0 <= i < |receiver| && receiver[i].tag == g.tag
          ensures FieldFits(receiver, sender, m, sent, i) && FieldFits(receiver, others, merged.value, sent, i)
        {
          SentFieldTail(sender, sent, g.tag);
        }
      }
    }
  }

  lemma HeadFits(receiver: Desc, sender: Desc, m: Msg, sent: Msg)
    requires Pending(receiver, sender, m, sent) && sender != []
    requires CommonFieldsCompatible(receiver, [sender[0]])
    ensures MergeField(receiver, sender[0], m, sent[sender[0].member]).Some? <==>
            forall i :: 0 <= i < |receiver| && receiver[i].tag == sender[0].tag ==>
              FieldFits(receiver, sender, m, sent, i)
  {
    var g := sender[0];
    FoundAt(sender, 0);
    var found := FindField(receiver, g.tag);
    if found.Some? {
      forall i | 0 <= i < |receiver| && receiver[i].tag == g.tag
        ensures i == found.value
      {
        FoundAt(receiver, i);
      }
      assert [g][0] == g;
      assert TypedCell(receiver[found.value], m[receiver[found.value].member]);
    }
  }

  lemma TailFits(receiver: Desc, sender: Desc, m: Msg, sent: Msg, i: nat)
    requires Pending(receiver, sender, m, sent) && sender != [] && i < |receiver|
    requires CommonFieldsCompatible(receiver, [sender[0]])
    requires receiver[i].tag != sender[0].tag
    requires MergeField(receiver, sender[0], m, sent[sender[0].member]).Some?
    ensures var m' := MergeField(receiver, sender[0], m, sent[sender[0].member]).value;
            && Pending(receiver, sender[1..], m', sent)
            && FieldFits(receiver, sender, m, sent, i) == FieldFits(receiver, sender[1..], m', sent, i)
  {
    PendingTail(receiver, sender, m, sent);
    SentFieldTail(sender, sent, receiver[i].tag);
    if !receiver[i].htype.Oneof? {
      OtherMember(receiver, sender[0], m, sent[sender[0].member], i);
    }
  }
}
