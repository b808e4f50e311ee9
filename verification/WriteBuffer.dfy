/** The buffer between the record layer and a byte stream: an array of which a window of bytes is
    in use; its offset and lengths have 16 bits. */
module WriteBuffer {
  import opened Wire

  const ALIGN_PAYLOAD: nat := 8
  const U16: nat := 65536

  // ----- the buffer as a value

  /** The memory, and the window of it that is in use. */
  datatype Image = Image(memory: seq<byte>, offset: nat, size: nat, cap: nat) {
    ghost predicate Valid() {
      size <= cap < U16 && offset < U16 && offset + cap <= |memory|
    }

    function Contents(): seq<byte>
      requires Valid()
    {
      memory[offset..offset + size]
    }

    /** After consuming; the offset is a 16-bit number. */
    function Consumed(len: nat): Image
      requires Valid() && len <= size
    {
      Image(memory, (offset + len) % U16, size - len, cap - len)
    }

    /** The bytes in use end by 2^16. */
    ghost predicate Fits() {
      offset + size <= U16
    }
  }

  /** What is left after consuming some bytes is the rest of the contents. */
  ghost predicate KeepsRest(b: Image, len: nat)
    requires b.Valid() && len <= b.size
  {
    b.Consumed(len).Valid() && b.Consumed(len).Contents() == b.Contents()[len..]
  }

  lemma RestOfSlice(memory: seq<byte>, offset: nat, size: nat, len: nat)
    requires offset + size <= |memory| && len <= size
    ensures memory[offset..offset + size][len..] == memory[offset + len..offset + size]
  {
  }

  lemma FitsKeepsRest(b: Image, len: nat)
    requires b.Valid() && b.Fits() && len <= b.size
    ensures KeepsRest(b, len) && b.Consumed(len).Fits()
  {
    RestOfSlice(b.memory, b.offset, b.size, len);
    if b.offset + len == U16 {
      assert len == b.size && b.Contents()[len..] == [];
    } else {
      assert (b.offset + len) % U16 == b.offset + len;
    }
  }

  /** Consuming any part of a window leaves the rest of its contents, whatever the memory holds,
      exactly when the bytes in use end by 2^16. */
  lemma {:induction false} ConsumingExact(length: nat, offset: nat, size: nat, cap: nat)
    requires size <= cap < U16 && offset < U16 && offset + cap <= length
    ensures offset + size <= U16 <==>
      forall memory: seq<byte>, len: nat :: |memory| == length && len <= size ==>
        KeepsRest(Image(memory, offset, size, cap), len)
  {
    if offset + size <= U16 {
      forall memory: seq<byte>, len: nat | |memory| == length && len <= size
        ensures KeepsRest(Image(memory, offset, size, cap), len)
      {
        FitsKeepsRest(Image(memory, offset, size, cap), len);
      }
    } else {
      var memory := seq(length, i => if i < U16 then 0 else 1);
      var b, len := Image(memory, offset, size, cap), U16 - offset;
      assert b.Consumed(len).Contents()[0] == 0 && b.Contents()[len..][0] == 1;
      assert !KeepsRest(b, len);
    }
  }

  // ----- the buffer as an object

  class SSLBuffer {
    var buf: array?<byte>
    var offset: nat
    var size: nat
    var cap: nat

    ghost predicate Valid()
      reads this
    {
      && size <= cap < U16 && offset < U16
      && (if buf == null then cap == 0 && offset == 0 else offset + cap <= buf.Length)
    }

    ghost function Now(): Image
      requires Valid()
      reads this, buf
    {
      Image(if buf == null then [] else buf[..], offset, size, cap)
    }

    ghost predicate Fits()
      reads this
    {
      offset + size <= U16
    }

    function Contents(): (bs: seq<byte>)
      requires Valid()
      reads this, buf
      ensures |bs| == size && bs == Now().Contents()
    {
      if buf == null then [] else buf[offset..offset + size]
    }

    constructor ()
      ensures Valid() && Contents() == [] && buf == null
    {
      buf, offset, size, cap := null, 0, 0, 0;
    }

    method Clear()
      modifies this
      ensures Valid() && Contents() == [] && buf == null
    {
      buf, offset, size, cap := null, 0, 0, 0;
    }

    /** `slack` is how far the new memory is from the alignment asked for. */
    method EnsureCap(slack: nat, newCap: nat) returns (ok: bool)
      requires Valid() && slack < ALIGN_PAYLOAD
      modifies this
      ensures Valid() && Contents() == old(Contents()) && size == old(size)
      ensures ok <==> newCap <= 65535
      ensures ok && newCap > old(cap) ==>
        && buf != null && fresh(buf) && cap == newCap && offset == slack
        && buf.Length == newCap + ALIGN_PAYLOAD - 1
      ensures !ok || newCap <= old(cap) ==> buf == old(buf) && cap == old(cap) && offset == old(offset)
    {
      hide Now, Image.Contents;
      if newCap > 0xffff {
        return false;
      }
      if cap >= newCap {
        return true;
      }
      var fresh_ := new byte[newCap + ALIGN_PAYLOAD - 1](_ => 0);
      if buf != null {
        forall i | 0 <= i < size {
          fresh_[slack + i] := buf[offset + i];
        }
      }
      assert fresh_[slack..slack + size] == Contents();
      buf, offset, cap := fresh_, slack, newCap;
      return true;
    }

    /** Bytes copied to `remaining()`, then DidWrite. */
    method Append(bs: seq<byte>)
      requires Valid() && size + |bs| <= cap
      modifies this`size, buf
      ensures Valid() && Contents() == old(Contents()) + bs && (buf == null ==> bs == [])
    {
      hide Now, Image.Contents;
      if buf != null {
        forall i | 0 <= i < |bs| {
          buf[offset + size + i] := bs[i];
        }
      }
      size := size + |bs|;
    }

    method Consume(len: nat)
      requires Valid() && len <= size
      modifies this`offset, this`size, this`cap
      ensures Valid() && Now() == old(Now()).Consumed(len)
      ensures old(Fits()) ==> Fits() && Contents() == old(Contents())[len..]
    {
      FitsKeepsRestIf(Now(), len);
      offset, size, cap := (offset + len) % U16, size - len, cap - len;
    }

    method DiscardConsumed()
      requires Valid()
      modifies this
      ensures Valid() && Contents() == old(Contents()) && (size > 0 ==> buf == old(buf))
    {
      if size == 0 {
        Clear();
      }
    }
  }

  lemma FitsKeepsRestIf(b: Image, len: nat)
    requires b.Valid() && len <= b.size
    ensures b.Fits() ==> KeepsRest(b, len) && b.Consumed(len).Fits()
  {
    if b.Fits() {
      FitsKeepsRest(b, len);
    }
  }

  lemma FullWindow(memory: seq<byte>, data: seq<byte>)
    requires |memory| == 65542 && |data| == 65535 && memory[7..7 + 65535] == data
    ensures memory[7..] == data
    ensures Image(memory, 7, 65535, 65535).Consumed(65534).Contents() == [memory[5]]
  {
  }

  /** A buffer that does not fit: the largest capacity there is, as far from the alignment as
      memory can be.  After 65534 of 65535 bytes what is left is taken to be a byte of the memory in
      front of them all. */
  method LongBuffer(data: seq<byte>) returns (b: SSLBuffer)
    requires |data| == 65535
    ensures fresh(b) && b.Valid() && b.buf != null && b.buf.Length == 65542 && b.buf[7..] == data
    ensures b.Contents() == [b.buf[5]]
  {
    b := new SSLBuffer();
    var ok := b.EnsureCap(7, 65535);
    b.Append(data);
    FullWindow(b.buf[..], data);
    b.Consume(65534);
  }
}
