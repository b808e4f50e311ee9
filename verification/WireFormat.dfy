/** The bytes of the wire format, told apart one by one: what a varint, a fixed-width word, a key and
    a field look like, and how readers take them.  Nothing here is defined by what the encoder or the
    decoder does; both are shown to keep to it. */
module WireFormat {
  import opened Wrappers
  import opened Bits
  import opened Wire
  import opened Schema
  import opened EncodeSpec
  import opened DecodeSpec

  // ----- varints

  /** The number that groups of seven bits spell, low groups first. */
  function GroupSum(bs: seq<byte>): nat {
    if bs == [] then 0 else bs[0] % 128 + 128 * GroupSum(bs[1..])
  }

  /** The varint of a number: all bytes but the last have the high bit, and none is superfluous. */
  ghost predicate IsVarint(bs: seq<byte>, n: int) {
    && bs != [] && GroupSum(bs) == n
    && bs[|bs| - 1] < 128 && (|bs| > 1 ==> bs[|bs| - 1] > 0)
    && forall i :: 0 <= i < |bs| - 1 ==> bs[i] >= 128
  }

  lemma {:induction false} VarintFormat(n: nat)
    ensures IsVarint(VarintBytes(n), n)
    decreases n
  {
    if n >= 128 {
      var bs, tail := VarintBytes(n), VarintBytes(n / 128);
      VarintFormat(n / 128);
      assert bs[1..] == tail;
      forall i | 0 <= i < |bs| - 1
        ensures bs[i] >= 128
      {
        assert i > 0 ==> bs[i] == tail[i - 1];
      }
      assert bs[|bs| - 1] == tail[|tail| - 1];
    }
  }

  /** There is only one. */
  lemma {:induction false} VarintUnique(bs: seq<byte>, n: int)
    requires IsVarint(bs, n)
    ensures n >= 0 && bs == VarintBytes(n)
    decreases |bs|
  {
    var tail := bs[1..];
    if |bs| > 1 {
      assert forall i :: 0 <= i < |tail| ==> tail[i] == bs[i + 1];
      VarintUnique(tail, GroupSum(tail));
      PositiveSum(tail);
      VarintOf(bs[0], GroupSum(tail));
    } else {
      assert tail == [] && GroupSum(tail) == 0;
      SmallMod(bs[0], 128);
    }
    assert bs == [bs[0]] + tail;
  }

  lemma VarintOf(b: byte, high: nat)
    requires b >= 128 && high > 0
    ensures VarintBytes(b % 128 + 128 * high) == [b] + VarintBytes(high)
  {
  }

  lemma {:induction false} PositiveSum(bs: seq<byte>)
    requires bs != [] && 0 < bs[|bs| - 1] < 128
    ensures GroupSum(bs) > 0
  {
    if |bs| > 1 {
      PositiveSum(bs[1..]);
    }
  }

  /** The bytes up to the first without the high bit. */
  function FirstVarint(bs: seq<byte>): (r: Option<nat>)
    ensures r.Some? ==> 0 < r.value <= |bs| && bs[r.value - 1] < 128
    ensures r.Some? ==> forall i :: 0 <= i < r.value - 1 ==> bs[i] >= 128
    ensures r.None? ==> forall i :: 0 <= i < |bs| ==> bs[i] >= 128
  {
    if bs == [] then None
    else if bs[0] < 128 then Some(1)
    else
      var r := FirstVarint(bs[1..]);
      assert forall i :: 1 <= i < |bs| ==> bs[i] == bs[1..][i - 1];
      if r.Some? then Some(r.value + 1) else None
  }

  function Groups(wide: bool): nat {
    if wide then 10 else 5
  }

  /** The bits of a number that a word has room for. */
  function LowBits(n: nat, wide: bool): nat {
    n % if wide then 0x1_0000_0000_0000_0000 else 0x1_0000_0000
  }

  /** Reading from the middle, after `done` groups whose sum is `acc`: a word takes as many groups as
      it needs for its bits, and bits that are too high are lost; what goes on for longer, or is cut
      off, is refused. */
  function Reading(bs: seq<byte>, done: nat, acc: nat, wide: bool): Parse
    requires done <= Groups(wide)
  {
    var left := Groups(wide) - done;
    match FirstVarint(bs)
    case None => Failed(if |bs| <= left then [] else bs[left..])
    case Some(k) =>
      if k <= left then Parsed(LowBits(acc + Shl(GroupSum(bs[..k]), 7 * done), wide), bs[k..])
      else Failed(bs[left..])
  }

  lemma VarintReading(bs: seq<byte>)
    ensures ReadVarint(bs) == Reading(bs, 0, 0, true) && ReadVarint32(bs) == Reading(bs, 0, 0, false)
  {
    VarintReadingFrom(bs, 0, 0, true);
    VarintReadingFrom(bs, 0, 0, false);
  }

  lemma {:induction false} VarintReadingFrom(bs: seq<byte>, done: nat, acc: nat, wide: bool)
    requires acc < Limit(wide) && done <= Groups(wide)
    ensures VarintFrom(bs, 7 * done, acc, wide) == Reading(bs, done, acc, wide)
    decreases |bs|
  {
    hide Shl, GroupSum, LowBits;
    if bs != [] && done < Groups(wide) {
      VarintStep(bs, done, acc, wide);
      if bs[0] < 128 {
        FirstGroup(bs, 0);
      } else {
        VarintReadingFrom(bs[1..], done + 1, LowBits(acc + Shl(bs[0] % 128, 7 * done), wide), wide);
        NextGroup(bs, done, acc, wide);
      }
    }
  }

  lemma VarintStep(bs: seq<byte>, done: nat, acc: nat, wide: bool)
    requires bs != [] && done < Groups(wide)
    ensures var acc' := LowBits(acc + Shl(bs[0] % 128, 7 * done), wide);
            && acc' < Limit(wide)
            && VarintFrom(bs, 7 * done, acc, wide) ==
               if bs[0] < 128 then Parsed(acc', bs[1..]) else VarintFrom(bs[1..], 7 * (done + 1), acc', wide)
  {
  }

  lemma NextGroup(bs: seq<byte>, done: nat, acc: nat, wide: bool)
    requires done < Groups(wide) && bs != [] && bs[0] >= 128
    ensures Reading(bs, done, acc, wide) ==
            Reading(bs[1..], done + 1, LowBits(acc + Shl(bs[0] % 128, 7 * done), wide), wide)
  {
    hide Shl, GroupSum, LowBits, FirstVarint, Groups;
    LongerVarint(bs);
    match FirstVarint(bs[1..])
    case None => RestBehind(bs, Groups(wide) - done);
    case Some(k) =>
      if k < Groups(wide) - done {
        FirstGroup(bs, k);
        OneMoreGroup(bs[0] % 128, GroupSum(bs[1..][..k]), 7 * done, acc, wide);
      } else {
        RestBehind(bs, Groups(wide) - done);
      }
  }

  lemma RestBehind(bs: seq<byte>, n: nat)
    requires n > 0
    ensures n <= |bs| ==> bs[n..] == bs[1..][n - 1..]
  {
  }

  lemma LongerVarint(bs: seq<byte>)
    requires bs != [] && bs[0] >= 128
    ensures FirstVarint(bs) == match FirstVarint(bs[1..]) { case None => None case Some(k) => Some(k + 1) }
  {
  }

  lemma FirstGroup(bs: seq<byte>, k: nat)
    requires k < |bs|
    ensures GroupSum(bs[..k + 1]) == bs[0] % 128 + 128 * GroupSum(bs[1..][..k]) && bs[k + 1..] == bs[1..][k..]
    ensures GroupSum([]) == 0 && bs[1..][..0] == []
  {
    assert bs[..k + 1][1..] == bs[1..][..k];
  }

  lemma OneMoreGroup(low: nat, high: nat, pos: nat, acc: nat, wide: bool)
    ensures LowBits(LowBits(acc + Shl(low, pos), wide) + Shl(high, pos + 7), wide) ==
            LowBits(acc + Shl(low + 128 * high, pos), wide)
  {
    hide LowBits;
    ShlAdd(low, 128 * high, pos);
    Shl7(high, pos);
    LowSum(acc + Shl(low, pos), Shl(high, pos + 7), wide);
  }

  lemma LowSum(a: nat, b: nat, wide: bool)
    ensures LowBits(LowBits(a, wide) + b, wide) == LowBits(a + b, wide)
  {
  }

  // ----- zigzag and fixed-width words

  /** A word of `size` bytes, low bytes first. */
  ghost predicate IsLittleEndian(bs: seq<byte>, n: int, size: nat) {
    |bs| == size && n >= 0 && forall i :: 0 <= i < size ==> bs[i] == n / Power256(i) % 256
  }

  lemma {:induction false} LittleEndianFormat(n: nat, size: nat)
    ensures IsLittleEndian(LittleEndian(n, size), n, size)
    decreases size
  {
    if size > 0 {
      var bs := LittleEndian(n, size);
      LittleEndianFormat(n / 256, size - 1);
      forall i | 0 <= i < size
        ensures bs[i] == n / Power256(i) % 256
      {
        if i > 0 {
          assert bs[i] == LittleEndian(n / 256, size - 1)[i - 1];
          DivTwice(n, Power256(i - 1));
        }
      }
    }
  }

  lemma LittleEndianUnique(bs: seq<byte>, n: int, size: nat)
    requires IsLittleEndian(bs, n, size)
    ensures bs == LittleEndian(n, size)
  {
    LittleEndianFormat(n, size);
  }

  // ----- skipping

  /** How many bytes each wire type lets the skipper pass over: those of one varint, eight, those that
      a length tells, or four; the other wire types are refused. */
  lemma SkipSizes(bs: seq<byte>)
    ensures Skip(0, bs) == match FirstVarint(bs) { case None => None case Some(k) => Some(bs[k..]) }
    ensures Skip(1, bs) == if |bs| >= 8 then Some(bs[8..]) else None
    ensures Skip(5, bs) == if |bs| >= 4 then Some(bs[4..]) else None
    ensures Skip(3, bs) == Skip(4, bs) == Skip(6, bs) == Skip(7, bs) == None
  {
    SkipVarintReads(bs);
  }

  lemma {:induction false} SkipVarintReads(bs: seq<byte>)
    ensures SkipVarint(bs) == match FirstVarint(bs) { case None => None case Some(k) => Some(bs[k..]) }
    decreases |bs|
  {
    if bs != [] && bs[0] >= 128 {
      SkipVarintReads(bs[1..]);
      if FirstVarint(bs[1..]).Some? {
        assert bs[1..][FirstVarint(bs[1..]).value..] == bs[FirstVarint(bs).value..];
      }
    }
  }

  lemma SkipLength(bs: seq<byte>, body: seq<byte>, rest: seq<byte>)
    requires IsDelimited(bs, body) && |body| < TWO_32
    ensures Skip(2, bs + rest) == Some(rest)
  {
    DelimitedUnique(bs, body);
    SkipDelimited(body, rest);
  }

  // ----- values

  /** A body behind the varint of its length. */
  ghost predicate IsDelimited(bs: seq<byte>, body: seq<byte>) {
    |body| < |bs| && IsVarint(bs[..|bs| - |body|], |body|) && bs[|bs| - |body|..] == body
  }

  lemma DelimitedFormat(body: seq<byte>)
    ensures IsDelimited(Delimited(body), body)
  {
    VarintFormat(|body|);
    var bs := Delimited(body);
    assert bs[..|bs| - |body|] == VarintBytes(|body|) && bs[|bs| - |body|..] == body;
  }

  lemma DelimitedUnique(bs: seq<byte>, body: seq<byte>)
    requires IsDelimited(bs, body)
    ensures bs == Delimited(body)
  {
    VarintUnique(bs[..|bs| - |body|], |body|);
    assert bs == bs[..|bs| - |body|] + bs[|bs| - |body|..];
  }

  /** The text of a string member: what stands before its first zero byte. */
  ghost predicate IsText(body: seq<byte>, stored: seq<byte>) {
    body <= stored && 0 !in body && (|body| < |stored| ==> stored[|body|] == 0)
  }

  lemma {:induction false} TextUnique(body: seq<byte>, stored: seq<byte>)
    requires IsText(body, stored)
    ensures body == CString(stored)
  {
    if stored != [] && stored[0] != 0 {
      TextUnique(body[1..], stored[1..]);
    }
  }

  /** The number in the low three bits of a key. */
  function WireNumber(t: LType): nat {
    match t
    case Varint => 0
    case UVarint => 0
    case SVarint => 0
    case Fixed64 => 1
    case Fixed32 => 5
    case _ => 2
  }

  predicate IsNumber(t: LType) {
    t.Varint? || t.UVarint? || t.SVarint? || t.Fixed32? || t.Fixed64?
  }

  /** Sizes of C integers. */
  predicate IsIntSize(n: nat) {
    n == 1 || n == 2 || n == 4 || n == 8
  }

  /** `bs` is how the value of a field is written. */
  ghost predicate SpellsValue(f: Field, v: Value, bs: seq<byte>)
    requires TypedValue(f, v)
    decreases f, 0
  {
    match f.ltype
    case Varint => IsIntSize(f.dataSize) && IsVarint(bs, if v.n < 0 then 0x1_0000_0000_0000_0000 + v.n else v.n)
    case UVarint => IsIntSize(f.dataSize) && IsVarint(bs, v.n)
    case SVarint => IsIntSize(f.dataSize) && IsVarint(bs, if v.n < 0 then -2 * v.n - 1 else 2 * v.n)
    case Fixed32 => IsLittleEndian(bs, v.n, 4)
    case Fixed64 => IsLittleEndian(bs, v.n, 8)
    case Bytes => |v.bs| + 4 <= f.dataSize && IsDelimited(bs, v.bs)
    case String => exists text :: IsText(text, v.bs) && IsDelimited(bs, text)
    case FixedBytes => IsDelimited(bs, v.bs)
    case Submessage(fields) => exists body :: IsDelimited(bs, body) && SpellsMsg(fields, v.cells, body)
  }

  /** A value behind its key: the tag, and how the value is written. */
  ghost predicate SpellsTagged(f: Field, v: Value, bs: seq<byte>)
    requires TypedValue(f, v)
    decreases f, 1, 0
  {
    exists k :: 0 < k <= |bs| && IsVarint(bs[..k], 8 * f.tag + WireNumber(f.ltype)) && SpellsValue(f, v, bs[k..])
  }

  /** Values end to end. */
  ghost predicate SpellsAll(f: Field, vs: seq<Value>, bs: seq<byte>)
    requires forall i :: 0 <= i < |vs| ==> TypedValue(f, vs[i])
    decreases f, 2, |vs|
  {
    if vs == [] then bs == []
    else exists k :: 0 <= k <= |bs| && SpellsValue(f, vs[0], bs[..k]) && SpellsAll(f, vs[1..], bs[k..])
  }

  /** Values end to end, each behind its key. */
  ghost predicate SpellsEach(f: Field, vs: seq<Value>, bs: seq<byte>)
    requires forall i :: 0 <= i < |vs| ==> TypedValue(f, vs[i])
    decreases f, 2, |vs|
  {
    if vs == [] then bs == []
    else exists k :: 0 <= k <= |bs| && SpellsTagged(f, vs[0], bs[..k]) && SpellsEach(f, vs[1..], bs[k..])
  }

  /** Numbers in an array share one key and one length. */
  ghost predicate SpellsPacked(f: Field, vs: seq<Value>, bs: seq<byte>)
    requires forall i :: 0 <= i < |vs| ==> TypedValue(f, vs[i])
    decreases f, 3
  {
    exists k, body :: 0 < k <= |bs| && IsVarint(bs[..k], 8 * f.tag + 2) && IsDelimited(bs[k..], body)
                      && SpellsAll(f, vs, body)
  }

  /** What a field has to send: nothing, one value, or elements.  A field without a has_ member is
      left out if it is zero or empty. */
  ghost predicate SpellsField(f: Field, c: Cell, bs: seq<byte>)
    requires TypedCell(f, c)
    decreases f, 4
  {
    match f.htype
    case Required => SpellsTagged(f, c.v, bs)
    case Optional => if c.has then SpellsTagged(f, c.v, bs) else bs == []
    case Singular => if Blank(f, c.v) then bs == [] else SpellsTagged(f, c.v, bs)
    case Oneof => if c.Arm? && c.which == f.tag then SpellsTagged(f, c.v, bs) else bs == []
    case Repeated =>
      if c.vs == [] then bs == []
      else |c.vs| <= f.arraySize && if IsNumber(f.ltype) then SpellsPacked(f, c.vs, bs) else SpellsEach(f, c.vs, bs)
  }

  /** Zero, no bytes, no text, or a structure of nothing else; but no inline array is ever left out. */
  ghost predicate Blank(f: Field, v: Value)
    requires TypedValue(f, v)
  {
    !Inline(f) && !Shown(f, v)
  }

  /** The type of a field has an inline byte array somewhere. */
  ghost predicate Inline(f: Field)
    decreases f
  {
    match f.ltype
    case FixedBytes => f.dataSize > 0
    case Submessage(fields) => exists i :: 0 <= i < |fields| && Inline(fields[i])
    case _ => false
  }

  /** There is something that is not zero in a value; of an array only the first element counts. */
  ghost predicate Shown(f: Field, v: Value)
    requires TypedValue(f, v)
    decreases f, 0
  {
    match f.ltype
    case Bytes => v.bs != []
    case String => v.bs != [] && v.bs[0] != 0
    case FixedBytes => false
    case Submessage(fields) => ShownIn(fields, v.cells)
    case _ => v.n != 0
  }

  ghost predicate ShownIn(fields: Desc, m: Msg)
    requires TypedCells(fields, m)
    decreases fields, 0
  {
    exists i :: 0 <= i < |fields| && ShownCell(fields[i], m[fields[i].member])
  }

  ghost predicate ShownCell(f: Field, c: Cell)
    requires TypedCell(f, c)
    decreases f, 1
  {
    match c
    case Single(v) => Shown(f, v)
    case Maybe(_, v) => Shown(f, v)
    case Array(vs) => vs != [] && Shown(f, vs[0])
    case Empty => false
    case Arm(which, v) => which == f.tag && Shown(f, v)
  }

  ghost predicate SpellsMsg(fields: Desc, m: Msg, bs: seq<byte>)
    requires TypedCells(fields, m)
    decreases fields, 0
  {
    if fields == [] then bs == []
    else
      assert forall i :: 0 <= i < |fields[1..]| ==> fields[1..][i] == fields[i + 1];
      exists k :: 0 <= k <= |bs|
                  && SpellsField(fields[0], m[fields[0].member], bs[..k]) && SpellsMsg(fields[1..], m, bs[k..])
  }

  // ----- the encoder keeps to the format, and nothing else does

  lemma {:induction false} ValueFormat(f: Field, v: Value, bs: seq<byte>)
    requires TypedValue(f, v)
    ensures EncodeValue(f, v) == Some(bs) <==> SpellsValue(f, v, bs)
    decreases f, 0
  {
    match f.ltype
    case Varint => NumberFormat(f, v, bs);
    case UVarint => NumberFormat(f, v, bs);
    case SVarint => NumberFormat(f, v, bs);
    case Fixed32 => WordFormat(v.n, bs, 4);
    case Fixed64 => WordFormat(v.n, bs, 8);
    case Bytes => BodyFormat(v.bs, bs);
    case FixedBytes => BodyFormat(v.bs, bs);
    case String =>
      BodyFormat(CString(v.bs), bs);
      if text :| IsText(text, v.bs) && IsDelimited(bs, text) {
        TextUnique(text, v.bs);
      }
    case Submessage(fields) =>
      if EncodeValue(f, v) == Some(bs) {
        var body := EncodeFields(fields, v.cells).value;
        MessageFormat(fields, v.cells, body);
        DelimitedFormat(body);
      }
      if body :| IsDelimited(bs, body) && SpellsMsg(fields, v.cells, body) {
        MessageFormat(fields, v.cells, body);
        DelimitedUnique(bs, body);
      }
  }

  lemma NumberFormat(f: Field, v: Value, bs: seq<byte>)
    requires TypedValue(f, v) && (f.ltype.Varint? || f.ltype.UVarint? || f.ltype.SVarint?)
    ensures EncodeValue(f, v) == Some(bs) <==> SpellsValue(f, v, bs)
  {
    if f.dataSize in {1, 2, 4, 8} {
      var n :=
        if f.ltype.UVarint? then v.n
        else if f.ltype.Varint? then (if v.n < 0 then 0x1_0000_0000_0000_0000 + v.n else v.n)
        else if v.n < 0 then -2 * v.n - 1 else 2 * v.n;
      VarintFormat(n);
      if IsVarint(bs, n) {
        VarintUnique(bs, n);
      }
    }
  }

  lemma WordFormat(n: nat, bs: seq<byte>, size: nat)
    ensures bs == LittleEndian(n, size) <==> IsLittleEndian(bs, n, size)
  {
    LittleEndianFormat(n, size);
  }

  lemma BodyFormat(body: seq<byte>, bs: seq<byte>)
    ensures bs == Delimited(body) <==> IsDelimited(bs, body)
  {
    DelimitedFormat(body);
    if IsDelimited(bs, body) {
      DelimitedUnique(bs, body);
    }
  }

  lemma KeyFormat(tag: nat, k: WireType, bs: seq<byte>)
    ensures bs == KeyBytes(tag, k) <==> IsVarint(bs, 8 * tag + k)
  {
    VarintFormat(8 * tag + k);
    if IsVarint(bs, 8 * tag + k) {
      VarintUnique(bs, 8 * tag + k);
    }
  }

  lemma SplitAt(a: seq<byte>, b: seq<byte>)
    ensures (a + b)[..|a|] == a && (a + b)[|a|..] == b
  {
  }

  lemma {:induction false} TaggedFormat(f: Field, v: Value, bs: seq<byte>)
    requires TypedValue(f, v)
    ensures EncodeTagged(f, v) == Some(bs) <==> SpellsTagged(f, v, bs)
    decreases f, 1, 0
  {
    hide IsVarint, SpellsValue, EncodeValue, TypedValue, KeyBytes;
    var key := KeyBytes(f.tag, FieldWireType(f.ltype));
    assert WireNumber(f.ltype) == FieldWireType(f.ltype);
    KeyFormat(f.tag, FieldWireType(f.ltype), key);
    if EncodeTagged(f, v) == Some(bs) {
      var payload := EncodeValue(f, v).value;
      ValueFormat(f, v, payload);
      SplitAt(key, payload);
      KeyNotEmpty(key, f.tag, FieldWireType(f.ltype));
    }
    if k :| 0 < k <= |bs| && IsVarint(bs[..k], 8 * f.tag + WireNumber(f.ltype)) && SpellsValue(f, v, bs[k..]) {
      KeyFormat(f.tag, FieldWireType(f.ltype), bs[..k]);
      ValueFormat(f, v, bs[k..]);
      assert bs == bs[..k] + bs[k..];
    }
  }

  lemma KeyNotEmpty(key: seq<byte>, tag: nat, k: WireType)
    requires key == KeyBytes(tag, k)
    ensures |key| > 0
  {
  }

  lemma {:induction false} AllFormat(f: Field, vs: seq<Value>, bs: seq<byte>)
    requires forall i :: 0 <= i < |vs| ==> TypedValue(f, vs[i])
    ensures EncodeElements(f, vs) == Some(bs) <==> SpellsAll(f, vs, bs)
    decreases f, 2, |vs|
  {
    hide SpellsValue, EncodeValue, TypedValue;
    if vs != [] {
      if EncodeElements(f, vs) == Some(bs) {
        var e1, e2 := EncodeValue(f, vs[0]).value, EncodeElements(f, vs[1..]).value;
        ValueFormat(f, vs[0], e1);
        AllFormat(f, vs[1..], e2);
        SplitAt(e1, e2);
      }
      if k :| 0 <= k <= |bs| && SpellsValue(f, vs[0], bs[..k]) && SpellsAll(f, vs[1..], bs[k..]) {
        ValueFormat(f, vs[0], bs[..k]);
        AllFormat(f, vs[1..], bs[k..]);
        assert bs == bs[..k] + bs[k..];
      }
    }
  }

  lemma {:induction false} EachFormat(f: Field, vs: seq<Value>, bs: seq<byte>)
    requires forall i :: 0 <= i < |vs| ==> TypedValue(f, vs[i])
    ensures EncodeTaggedElements(f, vs) == Some(bs) <==> SpellsEach(f, vs, bs)
    decreases f, 2, |vs|
  {
    hide SpellsTagged, EncodeTagged, TypedValue;
    if vs != [] {
      if EncodeTaggedElements(f, vs) == Some(bs) {
        var e1, e2 := EncodeTagged(f, vs[0]).value, EncodeTaggedElements(f, vs[1..]).value;
        TaggedFormat(f, vs[0], e1);
        EachFormat(f, vs[1..], e2);
        SplitAt(e1, e2);
      }
      if k :| 0 <= k <= |bs| && SpellsTagged(f, vs[0], bs[..k]) && SpellsEach(f, vs[1..], bs[k..]) {
        TaggedFormat(f, vs[0], bs[..k]);
        EachFormat(f, vs[1..], bs[k..]);
        assert bs == bs[..k] + bs[k..];
      }
    }
  }

  lemma {:induction false} PackedFormat(f: Field, vs: seq<Value>, bs: seq<byte>)
    requires vs != [] && |vs| <= f.arraySize && f.ltype.Packable()
    requires forall i :: 0 <= i < |vs| ==> TypedValue(f, vs[i])
    ensures EncodeArray(f, vs) == Some(bs) <==> SpellsPacked(f, vs, bs)
    decreases f, 3
  {
    hide IsVarint, SpellsAll, EncodeElements, TypedValue, KeyBytes, Delimited, IsDelimited;
    var key := KeyBytes(f.tag, WT_STRING);
    KeyFormat(f.tag, 2, key);
    if EncodeArray(f, vs) == Some(bs) {
      var body := EncodeElements(f, vs).value;
      AllFormat(f, vs, body);
      DelimitedFormat(body);
      SplitAt(key, Delimited(body));
      KeyNotEmpty(key, f.tag, WT_STRING);
    }
    if k, body :| 0 < k <= |bs| && IsVarint(bs[..k], 8 * f.tag + 2) && IsDelimited(bs[k..], body)
                  && SpellsAll(f, vs, body) {
      KeyFormat(f.tag, 2, bs[..k]);
      AllFormat(f, vs, body);
      DelimitedUnique(bs[k..], body);
      assert bs == bs[..k] + bs[k..];
    }
  }

  lemma {:induction false} ZeroStorage(f: Field)
    ensures IsZeroBlank(f) <==> !Inline(f)
    decreases f
  {
    if f.ltype.Submessage? {
      forall i | 0 <= i < |f.ltype.fields|
        ensures IsZeroBlank(f.ltype.fields[i]) <==> !Inline(f.ltype.fields[i])
      {
        ZeroStorage(f.ltype.fields[i]);
      }
    }
  }

  /** What the encoder takes for zero. */
  lemma {:induction false} BlankIsZero(f: Field, v: Value)
    requires TypedValue(f, v)
    ensures IsZeroValue(f, v) <==> Blank(f, v)
    decreases f, 0
  {
    if f.ltype.Submessage? {
      var fields := f.ltype.fields;
      forall i | 0 <= i < |fields|
        ensures var c := v.cells[fields[i].member];
                IsZeroCell(fields[i], c) <==> !Inline(fields[i]) && !ShownCell(fields[i], c)
      {
        BlankCellIsZero(fields[i], v.cells[fields[i].member]);
      }
      if i :| 0 <= i < |fields| && (Inline(fields[i]) || ShownCell(fields[i], v.cells[fields[i].member])) {
        assert !IsZeroCell(fields[i], v.cells[fields[i].member]);
        assert Inline(f) || ShownIn(fields, v.cells);
      } else {
        assert IsZeroMsg(fields, v.cells);
        assert !ShownIn(fields, v.cells);
        assert !Inline(f);
      }
    }
  }

  lemma {:induction false} BlankCellIsZero(f: Field, c: Cell)
    requires TypedCell(f, c)
    ensures IsZeroCell(f, c) <==> !Inline(f) && !ShownCell(f, c)
    decreases f, 1
  {
    hide Inline, Shown, IsZeroValue, IsZeroBlank, TypedValue;
    ZeroStorage(f);
    match c
    case Single(v) => BlankIsZero(f, v);
    case Maybe(_, v) => BlankIsZero(f, v);
    case Array(vs) => if vs != [] { BlankIsZero(f, vs[0]); }
    case Empty =>
    case Arm(which, v) => if which == f.tag { BlankIsZero(f, v); }
  }

  lemma {:induction false} FieldFormat(f: Field, c: Cell, bs: seq<byte>)
    requires TypedCell(f, c)
    ensures EncodeField(f, c) == Some(bs) <==> SpellsField(f, c, bs)
    decreases f, 4
  {
    hide SpellsTagged, EncodeTagged, SpellsPacked, SpellsEach, TypedValue, IsZeroValue, Blank;
    if f.htype.Repeated? {
      if c.vs != [] && |c.vs| <= f.arraySize {
        if f.ltype.Packable() {
          PackedFormat(f, c.vs, bs);
        } else {
          EachFormat(f, c.vs, bs);
        }
      }
    } else if !c.Empty? {
      if !c.Arm? || c.which == f.tag {
        BlankIsZero(f, c.v);
        TaggedFormat(f, c.v, bs);
      }
    }
  }

  /** The bytes of a message are exactly those that the format gives for it; it has none exactly when
      it cannot be encoded. */
  lemma {:induction false} MessageFormat(fields: Desc, m: Msg, bs: seq<byte>)
    requires TypedCells(fields, m)
    ensures EncodeFields(fields, m) == Some(bs) <==> SpellsMsg(fields, m, bs)
    decreases fields, 0
  {
    hide SpellsField, EncodeField, TypedCell;
    if fields != [] {
      assert forall i :: 0 <= i < |fields[1..]| ==> fields[1..][i] == fields[i + 1];
      var cell := m[fields[0].member];
      if EncodeFields(fields, m) == Some(bs) {
        var e1, e2 := EncodeField(fields[0], cell).value, EncodeFields(fields[1..], m).value;
        FieldFormat(fields[0], cell, e1);
        MessageFormat(fields[1..], m, e2);
        SplitAt(e1, e2);
      }
      if k :| 0 <= k <= |bs| && SpellsField(fields[0], cell, bs[..k]) && SpellsMsg(fields[1..], m, bs[k..]) {
        FieldFormat(fields[0], cell, bs[..k]);
        MessageFormat(fields[1..], m, bs[k..]);
        assert bs == bs[..k] + bs[k..];
      }
    }
  }

  // ----- what the decoder takes

  lemma {:induction false} LittleEndianRead(bs: seq<byte>)
    ensures IsLittleEndian(bs, FromLittleEndian(bs), |bs|)
  {
    var n := FromLittleEndian(bs);
    if bs != [] {
      LittleEndianRead(bs[1..]);
      LittleEndianUnique(bs[1..], FromLittleEndian(bs[1..]), |bs| - 1);
      LowByte(bs[0], FromLittleEndian(bs[1..]));
      assert LittleEndian(n, |bs|) == [bs[0]] + bs[1..];
    }
    LittleEndianFormat(n, |bs|);
  }

  lemma LowByte(low: byte, high: nat)
    ensures (low + 256 * high) % 256 == low && (low + 256 * high) / 256 == high
  {
  }

  /** The number that a 64-bit word means for an integer field of a size: members smaller than 64 bits
      see only the low half of a word of plain signed type. */
  function Meant(t: LType, size: nat, w: nat): int
    requires t.Varint? || t.UVarint? || t.SVarint?
  {
    match t
    case UVarint => w
    case SVarint => if w % 2 == 0 then w / 2 else -((w + 1) / 2)
    case Varint =>
      if size == 8 then (if w < 0x8000_0000_0000_0000 then w else w - 0x1_0000_0000_0000_0000)
      else var low := w % 0x1_0000_0000; if low < 0x8000_0000 then low else low - 0x1_0000_0000
  }

  predicate Holds(t: LType, size: nat, n: int) {
    if t.UVarint? then 0 <= n < Power256(size) else -(Power256(size) as int) <= 2 * n < Power256(size)
  }

  lemma HoldsInRange(t: LType, size: nat, n: int)
    requires size in {1, 2, 4, 8}
    ensures Holds(t, size, n) <==> if t.UVarint? then InUnsigned(n, size) else InSigned(n, size)
  {
    PowersOfSizes();
  }

  lemma MeansSigned(size: nat, w: nat)
    requires size in {1, 2, 4, 8} && w < TWO_64
    ensures SignedOf(w, if size == 8 then 8 else 4) == Meant(Varint, size, w)
    ensures UnZigZag(w) == Meant(SVarint, size, w)
  {
    SmallMod(w, TWO_64);
  }

  /** Whatever word arrives for an integer field is stored if the member can hold what it means, and
      is an error if not. */
  lemma NumberTaken(f: Field, w: nat, rest: seq<byte>)
    requires f.ltype.Varint? || f.ltype.UVarint? || f.ltype.SVarint?
    requires w < 0x1_0000_0000_0000_0000
    ensures DecodeScalar(f, VarintBytes(w) + rest) ==
            var n := Meant(f.ltype, f.dataSize, w);
            if IsIntSize(f.dataSize) && Holds(f.ltype, f.dataSize, n) then Some((Int(n), rest)) else None
  {
    VarintRoundTrip(w, rest);
    hide VarintBytes, NarrowSigned, Meant, Holds, SignedOf, UnZigZag, InSigned, ReadVarint;
    if IsIntSize(f.dataSize) {
      HoldsInRange(f.ltype, f.dataSize, Meant(f.ltype, f.dataSize, w));
      MeansSigned(f.dataSize, w);
      SignedTaken(Meant(f.ltype, f.dataSize, w), f.dataSize);
      MeansItself(f.dataSize, w);
    }
  }

  lemma MeansItself(size: nat, w: nat)
    ensures Meant(UVarint, size, w) == w
  {
  }

  lemma PowersOfSizes()
    ensures Power256(1) == Modulus(1) && Power256(2) == Modulus(2) && Power256(4) == Modulus(4)
    ensures Power256(8) == Modulus(8)
  {
    assert Power256(0) == 1;
    assert Power256(3) == 256 * Power256(2);
    assert Power256(5) == 256 * Power256(4);
    assert Power256(6) == 256 * Power256(5);
    assert Power256(7) == 256 * Power256(6);
  }

  /** A number is what its low bytes spell exactly when they have room for it. */
  lemma SignedTaken(n: int, size: nat)
    requires size in {1, 2, 4, 8}
    ensures NarrowSigned(n, size) == if InSigned(n, size) then Some(Int(n)) else None
  {
    if InSigned(n, size) {
      WrapsBack(n, Modulus(size));
    }
  }

  /** Whatever body arrives for bytes or a string is stored if the buffer can hold it, with its header
      or terminator; an inline array takes a body of its size, and an empty one for zeros. */
  lemma BodyTaken(f: Field, body: seq<byte>, rest: seq<byte>)
    requires f.ltype.Bytes? || f.ltype.String? || f.ltype.FixedBytes?
    requires |body| < TWO_32
    ensures DecodeScalar(f, Delimited(body) + rest) ==
            match f.ltype
            case Bytes => if |body| + 4 <= f.dataSize then Some((Blob(body), rest)) else None
            case String => if |body| < f.dataSize then Some((Blob(body), rest)) else None
            case _ =>
              if body == [] then Some((Blob(Zeros(f.dataSize)), rest))
              else if |body| == f.dataSize then Some((Blob(body), rest)) else None
  {
    ReadDelimited(body, rest);
    assert (body + rest)[..|body|] == body && (body + rest)[|body|..] == rest;
  }

  /** A zero key ends a message, and so does one that the stream cuts off; a key that goes on for too
      long is an error. */
  lemma KeysThatStop(fields: Desc, m: Msg, seen: set<nat>, bs: seq<byte>)
    requires WellFormed(fields) && TypedMsg(fields, m) && bs != []
    ensures bs[0] == 0 ==> DecodeFields(fields, m, seen, bs) == Stopped(m, seen, bs[1..])
    ensures FirstVarint(bs).None? ==>
      DecodeFields(fields, m, seen, bs) == if |bs| <= 5 then Stopped(m, seen, []) else Stuck
    ensures FirstVarint(bs).Some? && FirstVarint(bs).value > 5 ==> DecodeFields(fields, m, seen, bs) == Stuck
  {
    hide WellFormed, TypedMsg, FindField, DecodeCell, Skip;
    VarintReading(bs);
    if bs[0] == 0 {
      assert bs[..1] == [bs[0]] && GroupSum(bs[..1][1..]) == 0;
    }
  }

  /** An unknown field is passed over by its wire type, or is an error. */
  lemma UnknownTag(fields: Desc, m: Msg, seen: set<nat>, tag: nat, wt: WireType, rest: seq<byte>)
    requires WellFormed(fields) && TypedMsg(fields, m)
    requires 0 < tag < 0x2000_0000 && forall i :: 0 <= i < |fields| ==> fields[i].tag != tag
    ensures wt == 3 || wt == 4 || wt == 6 || wt == 7 ==>
      DecodeFields(fields, m, seen, KeyBytes(tag, wt) + rest) == Stuck
    ensures wt == 1 && |rest| >= 8 ==>
      DecodeFields(fields, m, seen, KeyBytes(tag, wt) + rest) == DecodeFields(fields, m, seen, rest[8..])
    ensures wt == 5 && |rest| >= 4 ==>
      DecodeFields(fields, m, seen, KeyBytes(tag, wt) + rest) == DecodeFields(fields, m, seen, rest[4..])
  {
    hide FindField, WellFormed, TypedMsg;
    KeyRoundTrip(tag, wt, rest);
    SkipSizes(rest);
  }
}
