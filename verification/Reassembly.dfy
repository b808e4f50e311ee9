/** Receiving DTLS handshake messages: a ring of seven buffers, each collecting the fragments of
    one message, refines a map from message numbers to the bytes received of them. */
module Reassembly {
  import opened Wrappers
  import opened Wire
  import opened NetworkOrder
  import opened HandshakeFragments
  import opened ReplayWindow

  const FLIGHT: nat := 7
  const CHANGE_CIPHER_SPEC: byte := 20
  const HANDSHAKE: byte := 22
  const APPLICATION_DATA: byte := 23
  const SEQ_LIMIT: nat := 65536

  // ----- the specification: messages as maps from offsets to bytes

  /** A message in the making: `got` holds the bytes received. */
  datatype Slot = Slot(kind: byte, msgLen: nat, got: map<nat, byte>)

  ghost predicate Complete(slot: Slot) {
    AllBelow(slot.got.Keys, slot.msgLen)
  }

  ghost function Write(got: map<nat, byte>, off: nat, body: seq<byte>): map<nat, byte> {
    var offsets := Range(off, off + |body|);
    got + map i | i in offsets :: body[i - off]
  }

  ghost function Collect(slot: Slot, f: Fragment): Slot {
    if Complete(slot) then slot else slot.(got := Write(slot.got, f.off, f.body))
  }

  /** The messages from `readSeq` on that some fragment has reached. */
  datatype Inbox = Inbox(readSeq: nat, slots: map<nat, Slot>)

  predicate InRange(f: Fragment, limit: nat) {
    f.off + |f.body| <= f.msgLen <= limit
  }

  predicate Ignored(f: Fragment, readSeq: nat) {
    f.seqNo < readSeq || f.seqNo > readSeq + FLIGHT
  }

  ghost predicate Refused(b: Inbox, f: Fragment, epoch: nat, limit: nat) {
    || !InRange(f, limit)
    || (epoch == 1 && f.seqNo != b.readSeq)
    || (!Ignored(f, b.readSeq)
        && (f.seqNo - b.readSeq >= FLIGHT
            || (f.seqNo in b.slots
                && (b.slots[f.seqNo].kind != f.kind || b.slots[f.seqNo].msgLen != f.msgLen))))
  }

  ghost function Take(b: Inbox, f: Fragment): Inbox {
    if Ignored(f, b.readSeq) then b
    else
      var slot := if f.seqNo in b.slots then b.slots[f.seqNo] else Slot(f.kind, f.msgLen, map[]);
      b.(slots := b.slots[f.seqNo := Collect(slot, f)])
  }

  /** Everything in a handshake record, up to the first fragment that is malformed or refused. */
  ghost function TakeAll(b: Inbox, record: seq<byte>, epoch: nat, limit: nat): (r: (Inbox, bool))
    decreases |record|
  {
    if record == [] then (b, true)
    else
      var p := ParseFragment(record);
      if p.None? || Refused(b, p.value.frag, epoch, limit) then (b, false)
      else TakeAll(Take(b, p.value.frag), p.value.rest, epoch, limit)
  }

  /** Whatever arrives, only the seven messages of the window are held, none is longer than the limit,
      and nothing is held outside a message. */
  ghost predicate Bounded(b: Inbox, limit: nat) {
    forall s <- b.slots ::
      && b.readSeq <= s < b.readSeq + 7 && b.slots[s].msgLen <= limit
      && forall i <- b.slots[s].got :: i < b.slots[s].msgLen
  }

  /** And what kind of message one is, and how long, is settled by its first fragment; a fragment that
      says something else is an error. */
  lemma {:induction false} TakeAllBounded(b: Inbox, record: seq<byte>, epoch: nat, limit: nat)
    requires Bounded(b, limit)
    ensures var after := TakeAll(b, record, epoch, limit).0;
            && Bounded(after, limit) && after.readSeq == b.readSeq
            && forall s <- b.slots :: s in after.slots && after.slots[s].kind == b.slots[s].kind
                                      && after.slots[s].msgLen == b.slots[s].msgLen
    decreases |record|
  {
    hide ParseFragment;
    if record != [] {
      var p := ParseFragment(record);
      if p.Some? && !Refused(b, p.value.frag, epoch, limit) {
        TakeBounded(b, p.value.frag, epoch, limit);
        TakeAllBounded(Take(b, p.value.frag), p.value.rest, epoch, limit);
      }
    }
  }

  lemma TakeBounded(b: Inbox, f: Fragment, epoch: nat, limit: nat)
    requires Bounded(b, limit) && !Refused(b, f, epoch, limit)
    ensures Bounded(Take(b, f), limit) && Take(b, f).readSeq == b.readSeq
    ensures forall s <- b.slots :: s in Take(b, f).slots && Take(b, f).slots[s].kind == b.slots[s].kind
                                   && Take(b, f).slots[s].msgLen == b.slots[s].msgLen
    ensures f.seqNo in b.slots ==> b.slots[f.seqNo].kind == f.kind && b.slots[f.seqNo].msgLen == f.msgLen
  {
    hide Complete;
  }

  ghost function Body(slot: Slot): (body: seq<byte>)
    requires Complete(slot)
  {
    seq(slot.msgLen, i requires 0 <= i < slot.msgLen => slot.got[i])
  }

  /** SSLMessage: the body, and the bytes that enter the transcript. */
  datatype Message = Message(kind: byte, body: seq<byte>, raw: seq<byte>)

  function Raw(kind: byte, seqNo: nat, body: seq<byte>): seq<byte> {
    HeaderBytes(kind, |body|, seqNo, 0, |body|) + body
  }

  ghost function Available(b: Inbox): Option<Message> {
    if b.readSeq in b.slots && Complete(b.slots[b.readSeq]) then
      var body := Body(b.slots[b.readSeq]);
      Some(Message(b.slots[b.readSeq].kind, body, Raw(b.slots[b.readSeq].kind, b.readSeq, body)))
    else None
  }

  ghost function Advance(b: Inbox): Inbox {
    Inbox((b.readSeq + 1) % SEQ_LIMIT, b.slots - {b.readSeq})
  }

  // ----- one buffer

  /** hm_fragment. */
  class HmFragment {
    const kind: byte
    const seqNo: nat
    const msgLen: nat
    const data: array<byte>
    var reassembly: array?<bv8>
    ghost var got: map<nat, byte>
    ghost const repr: set<object>

    ghost predicate DataValid()
      reads this, data
    {
      && data.Length == HEADER + msgLen
      && data[..HEADER] == HeaderBytes(kind, msgLen, seqNo, 0, msgLen)
      && (forall i :: i in got ==> i < msgLen && data[HEADER + i] == got[i])
    }

    ghost predicate Valid()
      reads this, repr
    {
      && this in repr && data in repr && DataValid()
      && (reassembly == null ==> AllBelow(got.Keys, msgLen))
      && (reassembly != null ==>
            && reassembly in repr && reassembly.Length == (msgLen + 7) / 8
            && MaskShows(reassembly[..], got.Keys) && !AllBelow(got.Keys, msgLen))
    }

    ghost function Now(): Slot
      reads this
    {
      Slot(kind, msgLen, got)
    }

    /** dtls1_hm_fragment_new. */
    constructor (f: Fragment)
      ensures Valid() && fresh(repr) && Now() == Slot(f.kind, f.msgLen, map[]) && seqNo == f.seqNo
    {
      kind, seqNo, msgLen := f.kind, f.seqNo, f.msgLen;
      var header := HeaderBytes(f.kind, f.msgLen, f.seqNo, 0, f.msgLen);
      var len := HEADER + f.msgLen;
      var buffer := new byte[len](i => if 0 <= i < |header| then header[i] else 0);
      data := buffer;
      got := map[];
      if f.msgLen > 0 {
        var mask := new bv8[(f.msgLen + 7) / 8](_ => 0);
        reassembly := mask;
        repr := {this, buffer, mask};
      } else {
        reassembly := null;
        repr := {this, buffer};
      }
      new;
      assert data[..HEADER] == header;
      if reassembly != null {
        assert 0 !in got.Keys;
        forall j | 0 <= j < 8
          ensures !Bit8(0, j)
        {
          EmptyByte(j);
        }
      }
    }

    /** dtls1_hm_fragment_mark, after the bytes have been copied: the mask is given up exactly
        when nothing is missing any more. */
    method Mark(start: nat, end: nat, ghost before: map<nat, byte>)
      requires this in repr && data in repr && DataValid()
      requires reassembly != null && reassembly in repr && reassembly.Length == (msgLen + 7) / 8
      requires MaskShows(reassembly[..], before.Keys) && !AllBelow(before.Keys, msgLen)
      requires start <= end <= msgLen && got.Keys == before.Keys + Range(start, end)
      modifies this`reassembly, reassembly
      ensures Valid()
    {
      if start == end {
        assert got.Keys == before.Keys;
        return;
      }
      MarkRange(reassembly, start, end, before.Keys);
      var complete := IsComplete(reassembly, msgLen, got.Keys);
      if complete {
        reassembly := null;
      }
    }

    /** The tail of dtls1_open_handshake's loop: copy the body, mark it. */
    method Receive(f: Fragment)
      requires Valid() && f.off + |f.body| <= msgLen
      modifies repr
      ensures Valid() && Now() == Collect(old(Now()), f)
    {
      if reassembly == null {
        return;
      }
      ghost var before := got;
      forall i | 0 <= i < |f.body| {
        data[HEADER + f.off + i] := f.body[i];
      }
      got := Write(got, f.off, f.body);
      assert data[..HEADER] == old(data[..HEADER]);
      assert reassembly[..] == old(reassembly[..]);
      Mark(f.off, f.off + |f.body|, before);
    }
  }

  // ----- the ring

  /** The incoming half of the DTLS state. */
  class Ring {
    const incoming: array<HmFragment?>
    var readSeq: nat
    var hasMessage: bool
    var hasChangeCipherSpec: bool
    ghost var slots: map<nat, Slot>
    ghost var repr: set<object>

    ghost predicate Shape()
      reads this`readSeq, this`slots, this`repr
    {
      && this !in repr && incoming in repr && incoming.Length == FLIGHT && readSeq < SEQ_LIMIT
      && forall s :: s in slots ==> readSeq <= s < readSeq + FLIGHT && s < SEQ_LIMIT
    }

    /** The place of message s, s modulo 7, holds its buffer, or nothing yet. */
    ghost predicate At(s: nat)
      requires Shape()
      reads this`readSeq, this`slots, this`repr, repr
    {
      var frag := incoming[s % FLIGHT];
      if s in slots then
        && frag != null && frag.seqNo == s && frag in repr && frag.repr <= repr
        && incoming !in frag.repr && frag.Valid() && frag.Now() == slots[s]
      else frag == null
    }

    ghost predicate Apart(s: nat, t: nat)
      requires Shape()
      reads this`readSeq, this`slots, this`repr, repr
    {
      var a, b := incoming[s % FLIGHT], incoming[t % FLIGHT];
      a == null || b == null || a.repr !! b.repr
    }

    /** The ring shows exactly the slots of the window, in buffers that share no memory. */
    ghost predicate Valid()
      reads this`readSeq, this`slots, this`repr, repr
    {
      && Shape()
      && (forall s :: readSeq <= s < readSeq + FLIGHT ==> At(s))
      && (forall s, t :: readSeq <= s < t < readSeq + FLIGHT ==> Apart(s, t))
    }

    ghost function Now(): Inbox
      reads this`readSeq, this`slots
    {
      Inbox(readSeq, slots)
    }

    constructor ()
      ensures Valid() && fresh(repr) && Now() == Inbox(0, map[]) && !hasMessage && !hasChangeCipherSpec
    {
      var ring := new HmFragment?[FLIGHT](_ => null);
      incoming := ring;
      readSeq := 0;
      hasMessage, hasChangeCipherSpec := false, false;
      slots := map[];
      repr := {ring};
    }

    /** Each place of the ring only ever holds the one message of the window that belongs there,
        even after the 16-bit counter wraps. */
    lemma PlaceOf(k: nat)
      requires Valid() && k < FLIGHT && incoming[k] != null
      ensures incoming[k].seqNo % FLIGHT == k && readSeq <= incoming[k].seqNo < readSeq + FLIGHT
      ensures incoming[k].seqNo in slots && slots[incoming[k].seqNo] == incoming[k].Now()
    {
      var s := readSeq + (k + FLIGHT - readSeq % FLIGHT) % FLIGHT;
      PlaceInWindow(readSeq, k);
      assert At(s);
    }

    /** dtls1_is_current_message_complete. */
    method IsCurrentComplete() returns (complete: bool)
      requires Valid()
      ensures complete <==> readSeq in slots && Complete(slots[readSeq])
    {
      assert At(readSeq);
      var frag := incoming[readSeq % FLIGHT];
      return frag != null && frag.reassembly == null;
    }

    /** dtls1_get_incoming_message: the buffer for a fragment of the window, made on demand. */
    method GetIncomingMessage(f: Fragment) returns (frag: HmFragment?)
      requires Valid() && f.seqNo < SEQ_LIMIT
      modifies this`slots, this`repr, incoming
      ensures Valid() && fresh(repr - old(repr))
      ensures frag == null <==>
        || f.seqNo < readSeq || f.seqNo - readSeq >= FLIGHT
        || (f.seqNo in old(slots) && (old(slots)[f.seqNo].kind != f.kind || old(slots)[f.seqNo].msgLen != f.msgLen))
      ensures frag == null ==> slots == old(slots)
      ensures frag != null ==>
        && f.seqNo in slots && frag == incoming[f.seqNo % FLIGHT]
        && slots == (if f.seqNo in old(slots) then old(slots)
                     else old(slots)[f.seqNo := Slot(f.kind, f.msgLen, map[])])
    {
      if f.seqNo < readSeq || f.seqNo - readSeq >= FLIGHT {
        return null;
      }
      assert At(f.seqNo);
      var idx := f.seqNo % FLIGHT;
      frag := incoming[idx];
      if frag != null {
        if frag.kind != f.kind || frag.msgLen != f.msgLen {
          return null;
        }
        return;
      }
      frag := new HmFragment(f);
      Insert(f.seqNo, frag);
    }

    /** A new buffer in an empty place of the ring. */
    method Insert(s: nat, frag: HmFragment)
      requires Valid() && readSeq <= s < readSeq + FLIGHT && s < SEQ_LIMIT && s !in slots
      requires frag.Valid() && frag.seqNo == s && frag in frag.repr && frag.repr !! repr + {this}
      modifies this`slots, this`repr, incoming
      ensures Valid() && repr == old(repr) + frag.repr && frag == incoming[s % FLIGHT]
      ensures slots == old(slots)[s := frag.Now()]
    {
      hide HmFragment.Valid;
      incoming[s % FLIGHT] := frag;
      slots := slots[s := frag.Now()];
      repr := repr + frag.repr;
      forall t | readSeq <= t < readSeq + FLIGHT && t != s
        ensures t % FLIGHT != s % FLIGHT && At(t)
      {
        OnePlaceEach(readSeq, s, t);
        assert old(At(t));
      }
      forall t, u | readSeq <= t < u < readSeq + FLIGHT
        ensures Apart(t, u)
      {
        OnePlaceEach(readSeq, t, u);
        assert old(Apart(t, u));
        assert old(At(t)) && old(At(u));
      }
    }
  
    /** The bytes of a fragment enter the buffer of its message. */
    method Fill(frag: HmFragment, f: Fragment)
      requires Valid() && f.seqNo in slots && frag == incoming[f.seqNo % FLIGHT] && At(f.seqNo)
      requires f.off + |f.body| <= slots[f.seqNo].msgLen
      modifies this`slots, frag.repr
      ensures Valid()
      ensures slots == old(slots)[f.seqNo := Collect(old(slots)[f.seqNo], f)]
    {
      frag.Receive(f);
      slots := slots[f.seqNo := frag.Now()];
      forall t | readSeq <= t < readSeq + FLIGHT && t != f.seqNo
        ensures At(t)
      {
        OnePlaceEach(readSeq, f.seqNo, t);
        assert old(At(t));
        assert if t < f.seqNo then old(Apart(t, f.seqNo)) else old(Apart(f.seqNo, t));
      }
      forall t, u | readSeq <= t < u < readSeq + FLIGHT
        ensures Apart(t, u)
      {
        assert old(Apart(t, u));
      }
    }

    /** The checks on one fragment, and what it changes. */
    method TakeFragment(f: Fragment, epoch: nat, limit: nat) returns (ok: bool)
      requires Valid() && f.seqNo < SEQ_LIMIT
      modifies this`slots, this`repr, repr
      ensures Valid() && fresh(repr - old(repr))
      ensures ok <==> !Refused(old(Now()), f, epoch, limit)
      ensures Now() == if ok then Take(old(Now()), f) else old(Now())
    {
      hide Complete, Write;
      if f.off > f.msgLen || f.off + |f.body| > f.msgLen || f.msgLen > limit {
        return false;
      }
      if epoch == 1 && f.seqNo != readSeq {
        return false;
      }
      if f.seqNo < readSeq || f.seqNo > readSeq + FLIGHT {
        return true;
      }
      var frag := GetIncomingMessage(f);
      if frag == null {
        return false;
      }
      assert At(f.seqNo);
      Fill(frag, f);
      return true;
    }

    /** The handshake part of dtls1_open_handshake. */
    method ReadFragments(record: seq<byte>, epoch: nat, limit: nat) returns (ok: bool)
      requires Valid()
      modifies this`slots, this`repr, repr
      ensures Valid() && fresh(repr - old(repr))
      ensures (Now(), ok) == TakeAll(old(Now()), record, epoch, limit)
    {
      hide Refused, Take;
      var rest := record;
      while |rest| > 0
        invariant Valid() && fresh(repr - old(repr))
        invariant TakeAll(Now(), rest, epoch, limit) == TakeAll(old(Now()), record, epoch, limit)
        decreases |rest|
      {
        var p := ParseFragment(rest);
        if p.None? {
          return false;
        }
        rest := p.value.rest;
        ok := TakeFragment(p.value.frag, epoch, limit);
        if !ok {
          return;
        }
      }
      return true;
    }

    method NoteChangeCipherSpec()
      requires Valid()
      modifies this`hasChangeCipherSpec
      ensures Valid() && hasChangeCipherSpec
    {
      hasChangeCipherSpec := true;
    }

    /** dtls1_open_handshake: open a record, and take its fragments or note a ChangeCipherSpec. */
    method OpenHandshake(reader: Reader, data: seq<byte>, limit: nat) returns (r: Opened, consumed: nat)
      requires Valid() && reader.Valid() && reader !in repr && reader.bitmap !in repr
      modifies this`slots, this`repr, this`hasChangeCipherSpec, repr, reader.bitmap
      ensures Valid() && reader.Valid() && fresh(repr - old(repr))
      ensures reader.Now() == After(old(reader.Now()), Accepts(old(reader.Now()), data))
      ensures consumed == Consumes(old(reader.Now()), data)
      ensures var rec, v := ParseRecord(data), old(reader.Now());
              if Accepts(v, data).None? || rec.value.kind == 21
              then Now() == old(Now()) && hasChangeCipherSpec == old(hasChangeCipherSpec) && !r.Success?
              else
                var plain := Decrypted(v, rec.value).value;
                if rec.value.kind == 23 then
                  && Now() == old(Now()) && hasChangeCipherSpec == old(hasChangeCipherSpec)
                  && r == if v.keys.isNull then Error else Discard
                else if rec.value.kind == 20 then
                  var ok := v.keys.isNull && plain == [1];
                  && Now() == old(Now()) && hasChangeCipherSpec == (ok || old(hasChangeCipherSpec))
                  && r == if ok then Success(rec.value.kind, plain) else Error
                else if rec.value.kind == 22 then
                  var (inbox, ok) := TakeAll(old(Now()), plain, v.epoch, limit);
                  && Now() == inbox && hasChangeCipherSpec == old(hasChangeCipherSpec)
                  && r == if ok then Success(rec.value.kind, plain) else Error
                else Now() == old(Now()) && hasChangeCipherSpec == old(hasChangeCipherSpec) && r == Error
    {
      hide TakeAll, Accepts, ParseRecord, Decrypted, After, Consumes;
      AcceptsParsed(reader.Now(), data);
      r, consumed := reader.OpenRecord(data);
      if !r.Success? {
        return;
      }
      if r.kind == APPLICATION_DATA {
        r := if reader.keys.isNull then Error else Discard;
      } else if r.kind == CHANGE_CIPHER_SPEC {
        if !reader.keys.isNull || |r.plain| != 1 || r.plain[0] != 1 {
          r := Error;
        } else {
          NoteChangeCipherSpec();
        }
      } else if r.kind == HANDSHAKE {
        var ok := ReadFragments(r.plain, reader.epoch, limit);
        if !ok {
          r := Error;
        }
      } else {
        r := Error;
      }
    }

    /** dtls1_get_message: the current message, once all its bytes have arrived. */
    method GetMessage() returns (message: Option<Message>)
      requires Valid()
      modifies this`hasMessage
      ensures Valid()
      ensures message == Available(Now())
      ensures hasMessage == (old(hasMessage) || message.Some?)
    {
      var complete := IsCurrentComplete();
      if !complete {
        return None;
      }
      assert At(readSeq);
      var frag := incoming[readSeq % FLIGHT];
      hasMessage := true;
      assert frag.data[HEADER..HEADER + frag.msgLen] == Body(slots[readSeq]);
      message := Some(Message(frag.kind, frag.data[HEADER..HEADER + frag.msgLen],
                              frag.data[..HEADER + frag.msgLen]));
      assert message.value.raw == frag.data[..HEADER] + frag.data[HEADER..HEADER + frag.msgLen];
    }

    /** dtls1_next_message: the place of the current message becomes that of the message seven
        later.  When the 16-bit counter wraps, the ring is empty. */
    method NextMessage()
      requires Valid() && hasMessage && readSeq in slots && Complete(slots[readSeq])
      modifies this, incoming
      ensures Valid() && repr == old(repr)
      ensures Now() == Advance(old(Now())) && !hasMessage
      ensures hasChangeCipherSpec == old(hasChangeCipherSpec)
    {
      hide HmFragment.Valid, HmFragment.Now, Complete;
      var r := readSeq;
      incoming[r % FLIGHT] := null;
      slots := slots - {r};
      hasMessage := false;
      readSeq := (r + 1) % SEQ_LIMIT;
      if r + 1 == SEQ_LIMIT {
        assert slots == map[];
        forall k | 0 <= k < FLIGHT
          ensures incoming[k] == null
        {
          PlaceInWindow(r, k);
          assert old(At(r + (k + FLIGHT - r % FLIGHT) % FLIGHT));
        }
      } else {
        forall t | r + 1 <= t < r + 1 + FLIGHT
          ensures At(t)
        {
          if t < r + FLIGHT {
            OnePlaceEach(r, r, t);
            assert old(At(t));
          }
        }
        forall t, u | r + 1 <= t < u < r + 1 + FLIGHT
          ensures Apart(t, u)
        {
          if u < r + FLIGHT {
            assert old(Apart(t, u));
          }
        }
      }
    }

    /** dtls_has_unprocessed_handshake_data. */
    method HasUnprocessedData() returns (left: bool)
      requires Valid() && (hasMessage ==> readSeq in slots)
      ensures left <==> hasChangeCipherSpec || exists s :: s in slots && !(hasMessage && s == readSeq)
    {
      if hasChangeCipherSpec {
        return true;
      }
      var current := readSeq % FLIGHT;
      var i := 0;
      while i < FLIGHT
        invariant 0 <= i <= FLIGHT
        invariant forall s :: s in slots && s % FLIGHT < i ==> hasMessage && s == readSeq
      {
        if !(hasMessage && i == current) && incoming[i] != null {
          PlaceOf(i);
          return true;
        }
        forall s | s in slots && s % FLIGHT == i
          ensures hasMessage && s == readSeq
        {
          assert At(s);
          if s != readSeq {
            OnePlaceEach(readSeq, readSeq, s);
          }
        }
        i := i + 1;
      }
      return false;
    }
  }

  lemma OnePlaceEach(r: nat, s: nat, t: nat)
    requires r <= s < r + FLIGHT && r <= t < r + FLIGHT && s != t
    ensures s % FLIGHT != t % FLIGHT
  {
  }

  lemma PlaceInWindow(r: nat, k: nat)
    requires k < FLIGHT
    ensures (r + (k + FLIGHT - r % FLIGHT) % FLIGHT) % FLIGHT == k
  {
  }
}
