/** The cyclic field iterator of pb_common.c.  A descriptor stores only distances between
    members; the iterator adds them up as it goes, and counts required fields, starting over
    when it wraps round. */
module FieldIterator {
  import opened Wrappers
  import opened Wire
  import opened Schema
  import opened DecodeSpec

  /** The bytes a field takes in the structure. */
  function Extent(f: Field): nat {
    if f.htype.Repeated? then f.dataSize * f.arraySize else f.dataSize
  }

  /** A later arm of a oneof: its data_offset says that it does not advance. */
  predicate SharesUnion(prev: Field, f: Field) {
    prev.htype.Oneof? && f.htype.Oneof? && f.dataOffset == PB_SIZE_MAX
  }

  /** The stored distances lead from each member to the next. */
  ghost predicate Adjacent(fields: Desc) {
    && (fields != [] ==> fields[0].member == fields[0].dataOffset)
    && forall i :: 0 < i < |fields| ==>
         fields[i].member ==
         if SharesUnion(fields[i - 1], fields[i]) then fields[i - 1].member
         else fields[i - 1].member + Extent(fields[i - 1]) + fields[i].dataOffset
  }

  /** Adjacent at every level, and with a number of required fields that the bitmap of the
      decoder can check: fewer than 64, and not 32, for which it would shift a word by its
      own width. */
  ghost predicate LaidOut(fields: Desc)
    decreases fields, 0
  {
    && Adjacent(fields)
    && RequiredBefore(fields, |fields|) < 64 && RequiredBefore(fields, |fields|) != 32
    && forall i :: 0 <= i < |fields| ==> LaidOutField(fields[i])
  }

  ghost predicate LaidOutField(f: Field)
    decreases f, 0
  {
    f.ltype.Submessage? ==> LaidOut(f.ltype.fields)
  }

  /** How many of the first `i` fields are required. */
  function RequiredBefore(fields: Desc, i: nat): (n: nat)
    requires i <= |fields|
    ensures n <= i
  {
    if i == 0 then 0
    else RequiredBefore(fields, i - 1) + if fields[i - 1].htype.Required? then 1 else 0
  }

  class FieldIter {
    const start: Desc
    var pos: nat
    var pData: nat
    var requiredIndex: nat

    /** Whatever steps led here, the derived members are functions of the position. */
    ghost predicate Valid()
      reads this
    {
      && Adjacent(start)
      && (start == [] ==> pos == 0 && requiredIndex == 0)
      && (start != [] ==> pos < |start| && pData == start[pos].member
                          && requiredIndex == RequiredBefore(start, pos))
    }

    constructor Begin(fields: Desc)
      requires Adjacent(fields)
      ensures Valid() && start == fields && pos == 0
    {
      start := fields;
      pos := 0;
      requiredIndex := 0;
      pData := if fields == [] then 0 else fields[0].dataOffset;
    }

    /** Steps to the next field; false means that the end was passed and the iterator is back at
        the first one. */
    method Next() returns (more: bool)
      requires Valid()
      modifies this
      ensures Valid()
      ensures more == (old(pos) + 1 < |start|)
      ensures pos == if more then old(pos) + 1 else 0
    {
      if start == [] {
        return false;
      }
      var prev := start[pos];
      pos := pos + 1;
      if pos == |start| {
        pos := 0;
        requiredIndex := 0;
        pData := start[0].dataOffset;
        return false;
      }
      if SharesUnion(prev, start[pos]) {
        return true;
      }
      var prevSize := prev.dataSize;
      if prev.htype.Repeated? {
        prevSize := prevSize * prev.arraySize;
      }
      if prev.htype.Required? {
        requiredIndex := requiredIndex + 1;
      }
      pData := pData + prevSize + start[pos].dataOffset;
      return true;
    }

    /** Searches from the current position all the way round.  Where the search starts makes no
        difference to what it finds.  An empty descriptor is only its terminator, whose tag is
        zero. */
    method Find(tag: nat) returns (found: bool)
      requires Valid()
      modifies this
      ensures Valid()
      ensures start != [] ==> (found <==> FindField(start, tag).Some?)
      ensures start != [] && found ==> start[pos].tag == tag
      ensures start != [] && found && DistinctTags(start) ==> FindField(start, tag) == Some(pos)
      ensures !found ==> pos == old(pos)
      ensures start == [] ==> (found <==> tag == 0)
    {
      var first := pos;
      if start == [] {
        return tag == 0;
      }
      ghost var wrapped := false;
      while true
        invariant Valid()
        invariant first < |start|
        invariant !wrapped ==> first <= pos && forall i :: first <= i < pos ==> start[i].tag != tag
        invariant wrapped ==> pos < first && forall i :: first <= i < |start| || 0 <= i < pos ==> start[i].tag != tag
        decreases !wrapped, |start| - pos
      {
        if start[pos].tag == tag {
          return true;
        }
        var more := Next();
        if !more {
          wrapped := true;
        }
        if pos == first {
          break;
        }
      }
      return false;
    }
  }
}
