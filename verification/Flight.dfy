/** Sending a DTLS flight: messages are cut to the MTU, sealed and packed into datagrams, and a
    datagram the transport does not take is packed again later. */
module Flight {
  import opened Wrappers
  import opened Bits
  import opened Wire
  import opened NetworkOrder
  import opened HandshakeFragments
  import opened Reassembly

  const RECORD_HEADER: nat := 13
  const MIN_MTU: nat := 256 - 28
  const DEFAULT_MTU: nat := 1500 - 28
  const NUMBER_LIMIT: nat := 0x1_0000_0000_0000

  // ----- sealing

  /** The write side of a cipher.  `seal` is what encryption makes of a record's type, version,
      epoch and number, and plaintext, if it succeeds. */
  datatype WriteKeys = WriteKeys(version: nat, maxOverhead: nat, nonceLen: nat,
                                 seal: (byte, nat, seq<byte>, seq<byte>) -> Option<seq<byte>>)

  /** A record before encryption. */
  datatype Plain = Plain(kind: byte, epoch: nat, number: nat, content: seq<byte>)

  /** The current epoch, and the keys of it and of the epoch before. */
  datatype Keying = Keying(epoch: nat, current: WriteKeys, last: WriteKeys)

  function KeysFor(k: Keying, epoch: nat): WriteKeys {
    if epoch == k.epoch then k.current else k.last
  }

  function Sequence(epoch: nat, number: nat): seq<byte> {
    Bytes(epoch, 2) + Bytes(number, 6)
  }

  function Ciphertext(k: Keying, p: Plain): Option<seq<byte>> {
    KeysFor(k, p.epoch).seal(p.kind, k.current.version, Sequence(p.epoch, p.number), p.content)
  }

  function RecordBytes(k: Keying, p: Plain, ciphertext: seq<byte>): (bs: seq<byte>)
    ensures |bs| == RECORD_HEADER + |ciphertext|
  {
    [p.kind] + Bytes(k.current.version, 2) + Sequence(p.epoch, p.number) + Bytes(|ciphertext|, 2) + ciphertext
  }

  /** Where everything is in a record: type, version, epoch, six bytes of number and 16 bits of length,
      high bytes first, and then the ciphertext. */
  lemma RecordLayout(k: Keying, p: Plain, ciphertext: seq<byte>)
    ensures var bs := RecordBytes(k, p, ciphertext);
            && bs[0] == p.kind && Word16(bs[1], bs[2]) == k.current.version % 65536
            && Word16(bs[3], bs[4]) == p.epoch % 65536
            && (forall i :: 5 <= i < 11 ==> bs[i] == p.number / Power256(10 - i) % 256)
            && Word16(bs[11], bs[12]) == |ciphertext| % 65536 && bs[13..] == ciphertext
  {
    hide Word16, Bytes;
    var bs := RecordBytes(k, p, ciphertext);
    Pair(k.current.version);
    Pair(p.epoch);
    Pair(|ciphertext|);
    assert bs[1] == Bytes(k.current.version, 2)[0] && bs[2] == Bytes(k.current.version, 2)[1];
    assert bs[3] == Bytes(p.epoch, 2)[0] && bs[4] == Bytes(p.epoch, 2)[1];
    assert bs[11] == Bytes(|ciphertext|, 2)[0] && bs[12] == Bytes(|ciphertext|, 2)[1];
    forall i | 5 <= i < 11
      ensures bs[i] == p.number / Power256(10 - i) % 256
    {
      BytesDigits(p.number, 6, i - 5);
      assert bs[i] == Bytes(p.number, 6)[i - 5];
    }
  }

  /** `bs` is the records `ps`, sealed one after the other. */
  ghost predicate Packs(k: Keying, bs: seq<byte>, ps: seq<Plain>) {
    if ps == [] then bs == []
    else
      var n := |ps| - 1;
      var ct := Ciphertext(k, ps[n]);
      && ct.Some? && RECORD_HEADER + |ct.value| <= |bs|
      && bs[|bs| - RECORD_HEADER - |ct.value|..] == RecordBytes(k, ps[n], ct.value)
      && Packs(k, bs[..|bs| - RECORD_HEADER - |ct.value|], ps[..n])
  }

  /** Encryption of one type of record never fails and never adds more than it says. */
  ghost predicate Dependable(k: WriteKeys, kind: byte) {
    forall version: nat, sq: seq<byte>, plain: seq<byte> ::
      var ct := k.seal(kind, version, sq, plain);
      ct.Some? && |ct.value| <= |plain| + k.maxOverhead
  }

  /** The length of some records, one behind the other. */
  ghost function SizeOf(k: Keying, ps: seq<Plain>): nat {
    if ps == [] then 0
    else
      var ct := Ciphertext(k, ps[|ps| - 1]);
      SizeOf(k, ps[..|ps| - 1]) + RECORD_HEADER + if ct.Some? then |ct.value| else 0
  }

  /** Encryption does not fail for any of them. */
  ghost predicate AllEncrypt(k: Keying, ps: seq<Plain>) {
    forall p :: p in ps ==> Ciphertext(k, p).Some?
  }

  lemma {:induction false} PacksSize(k: Keying, bs: seq<byte>, ps: seq<Plain>)
    requires Packs(k, bs, ps)
    ensures |bs| == SizeOf(k, ps) && AllEncrypt(k, ps)
    decreases |ps|
  {
    if ps != [] {
      var n := |ps| - 1;
      PacksSize(k, bs[..|bs| - RECORD_HEADER - |Ciphertext(k, ps[n]).value|], ps[..n]);
      assert ps == ps[..n] + [ps[n]];
    }
  }

  // ----- the specification: a cursor that walks over the flight

  /** DTLS_OUTGOING_MESSAGE. */
  datatype Outgoing = Outgoing(data: seq<byte>, epoch: nat, isCcs: bool)

  /** The message a well-formed entry holds: one fragment that is all of it. */
  ghost predicate Sealable(m: Outgoing) {
    m.isCcs ||
    var p := ParseFragment(m.data);
    p.Some? && p.value.rest == [] && p.value.frag.off == 0 && p.value.frag.msgLen == |p.value.frag.body|
  }

  function MessageOf(m: Outgoing): Fragment
    requires !m.isCcs && ParseFragment(m.data).Some?
  {
    ParseFragment(m.data).value.frag
  }

  datatype Cursor = Cursor(written: nat, offset: nat)

  function Piece(m: Fragment, off: nat, len: nat): Fragment
    requires off + len <= |m.body|
  {
    Fragment(m.kind, m.msgLen, m.seqNo, off, m.body[off..off + len])
  }

  ghost predicate InFlight(flight: seq<Outgoing>, c: Cursor) {
    && c.written <= |flight|
    && (c.written == |flight| || flight[c.written].isCcs ==> c.offset == 0)
    && (c.written < |flight| && !flight[c.written].isCcs && Sealable(flight[c.written]) ==>
          c.offset == 0 || c.offset < |MessageOf(flight[c.written]).body|)
  }

  /** How much of a message's body a record carries. */
  function Carried(p: Plain): nat {
    if p.kind == CHANGE_CIPHER_SPEC || |p.content| < HEADER then 0 else |p.content| - HEADER
  }

  /** A record that carries the cursor on: the ChangeCipherSpec, or the next piece of a message. */
  ghost predicate Moves(flight: seq<Outgoing>, c: Cursor, p: Plain)
    requires InFlight(flight, c)
  {
    && c.written < |flight|
    && var m, len := flight[c.written], Carried(p);
       p.epoch == m.epoch && Sealable(m) &&
       if m.isCcs then p.kind == 20 && p.content == [1]
       else
         && p.kind == 22 && c.offset + len <= |MessageOf(m).body|
         && (len > 0 || MessageOf(m).body == [])
         && p.content == FragmentBytes(Piece(MessageOf(m), c.offset, len))
  }

  ghost function Moved(flight: seq<Outgoing>, c: Cursor, p: Plain): (next: Cursor)
    requires InFlight(flight, c) && Moves(flight, c, p)
    ensures InFlight(flight, next)
  {
    var m := flight[c.written];
    if m.isCcs || c.offset + Carried(p) == |MessageOf(m).body| then Cursor(c.written + 1, 0)
    else c.(offset := c.offset + Carried(p))
  }

  /** The records `ps` cut the stretch of the flight between two cursors, in order and without a
      gap or an overlap. */
  ghost predicate Cuts(flight: seq<Outgoing>, from: Cursor, ps: seq<Plain>, to: Cursor)
    decreases |ps|
  {
    InFlight(flight, from) &&
    if ps == [] then from == to
    else Moves(flight, from, ps[0]) && Cuts(flight, Moved(flight, from, ps[0]), ps[1..], to)
  }

  lemma {:induction false} CutsConcat(flight: seq<Outgoing>, a: Cursor, ps: seq<Plain>, b: Cursor,
                                      qs: seq<Plain>, c: Cursor)
    requires Cuts(flight, a, ps, b) && Cuts(flight, b, qs, c)
    ensures Cuts(flight, a, ps + qs, c)
    decreases |ps|
  {
    hide InFlight, Moves, Moved;
    if ps == [] {
      assert ps + qs == qs;
    } else {
      CutsConcat(flight, Moved(flight, a, ps[0]), ps[1..], b, qs, c);
      assert (ps + qs)[1..] == ps[1..] + qs && (ps + qs)[0] == ps[0];
    }
  }

  lemma CutsOne(flight: seq<Outgoing>, a: Cursor, p: Plain)
    requires InFlight(flight, a) && Moves(flight, a, p)
    ensures Cuts(flight, a, [p], Moved(flight, a, p))
  {
    assert [p][1..] == [];
  }

  // ----- the sender

  /** The transport: what it will answer to each datagram, and the datagrams it took. */
  class Transport {
    var answers: seq<int>
    var taken: seq<seq<byte>>
    var last: int

    constructor (answers: seq<int>)
      ensures this.answers == answers && taken == [] && last == 1
    {
      this.answers := answers;
      taken := [];
      last := 1;
    }

    method Answer() returns (n: int)
      modifies this
      ensures last == n && taken == old(taken)
    {
      if answers == [] {
        n := -1;
      } else {
        n, answers := answers[0], answers[1..];
      }
      last := n;
    }

    method Write(packet: array<byte>, len: nat) returns (n: int)
      requires len <= packet.Length
      modifies this
      ensures last == n && taken == (if n > 0 then old(taken) + [packet[..len]] else old(taken))
    {
      n := Answer();
      if n > 0 {
        taken := taken + [packet[..len]];
      }
    }
  }

  /** Encryption of the records of a message never fails. */
  ghost predicate Encrypts(m: Outgoing, k: Keying) {
    var keys := KeysFor(k, m.epoch);
    keys.nonceLen <= keys.maxOverhead && Dependable(keys, if m.isCcs then CHANGE_CIPHER_SPEC else HANDSHAKE)
  }

  /** Nothing stands in the way of a message: it is well formed, of this epoch or the one before,
      and its keys work. */
  ghost predicate Ready(m: Outgoing, k: Keying) {
    !Unsealable(m, k) && Encrypts(m, k)
  }

  /** A message that cannot be sealed whatever the room: it is malformed, or of another epoch. */
  ghost predicate Unsealable(m: Outgoing, k: Keying) {
    !Sealable(m) || (m.epoch != k.epoch && m.epoch + 1 != k.epoch)
  }

  /** The room the next record of a message needs at least. */
  ghost function Needed(m: Outgoing, k: Keying): nat {
    var keys := KeysFor(k, m.epoch);
    if m.isCcs then 1 + RECORD_HEADER + keys.maxOverhead
    else if keys.nonceLen > HEADER + 1 + keys.maxOverhead then RECORD_HEADER + keys.nonceLen
    else HEADER + 1 + RECORD_HEADER + keys.maxOverhead
  }

  /** Nothing more of the flight goes into a datagram that holds some records and leaves the cursor
      at `at`: the flight is at its end, or a message has been cut there, or its next message needs
      more room. */
  ghost predicate Full(k: Keying, flight: seq<Outgoing>, ps: seq<Plain>, at: Cursor, mtu: nat) {
    at.written >= |flight| || at.offset > 0
    || (mtu < SizeOf(k, ps) + Needed(flight[at.written], k) && !Unsealable(flight[at.written], k))
  }

  ghost predicate AllReady(flight: seq<Outgoing>, k: Keying, mtu: nat) {
    mtu < 65536 && forall i :: 0 <= i < |flight| ==> Ready(flight[i], k) && Needed(flight[i], k) <= mtu
  }

  /** A message of which not even the first record of a datagram can be made. */
  ghost predicate Stuck(m: Outgoing, k: Keying, mtu: nat) {
    Unsealable(m, k) || mtu < Needed(m, k)
  }

  /** How the sending of a flight ends. */
  datatype Stop = AllSent | NotOpen | SealFailed | WriteFailed | FlushFailed

  /** What came of it: the records in each datagram the transport took, which lead the cursor to
      `end`; and those that were sealed for a datagram it did not take, which lead it `ahead`. */
  datatype Sending = Sending(stop: Stop, packets: seq<seq<Plain>>, end: Cursor, dropped: seq<Plain>, ahead: Cursor)

  datatype SealResult = SealError | NoProgress | SealPartial | SealSuccess

  /** The outgoing half of the DTLS state.  `sealed` is every record ever encrypted. */
  class Sender {
    var outgoing: seq<Outgoing>
    var written: nat
    var offset: nat
    var complete: bool
    var writeSeq: nat
    var keys: Keying
    var number: nat
    var lastNumber: nat
    var mtu: nat
    var shutdown: bool
    ghost var sealed: seq<Plain>
    ghost var overflowed: bool
    /** The 16-bit epoch has gone all the way round. */
    ghost var wrapped: bool

    ghost predicate Valid()
      reads this
    {
      && InFlight(outgoing, Cursor(written, offset)) && |outgoing| <= FLIGHT
      && writeSeq < 65536 && keys.epoch < 65536 && number < NUMBER_LIMIT && lastNumber < NUMBER_LIMIT
      && number <= |sealed| && lastNumber <= |sealed| && (overflowed ==> |sealed| >= NUMBER_LIMIT)
      && (!overflowed && !wrapped ==> NumbersBelow(sealed, keys.epoch, number, lastNumber) && NumbersOnce(sealed))
    }

    ghost function At(): Cursor
      reads this
    {
      Cursor(written, offset)
    }

    /** The number under which a record has been sealed is used up; the last one is not used. */
    method UseNumber(previous: bool, ghost p: Plain) returns (ok: bool)
      requires Valid() && (previous ==> keys.epoch >= 1)
      requires p.epoch == (if previous then keys.epoch - 1 else keys.epoch)
      requires p.number == (if previous then lastNumber else number)
      modifies this`number, this`lastNumber, this`sealed, this`overflowed
      ensures Valid() && sealed == old(sealed) + [p] && (overflowed <==> old(overflowed) || !ok)
    {
      hide InFlight, NumbersBelow, NumbersOnce;
      var n := if previous then lastNumber else number;
      if !overflowed && !wrapped {
        NumbersStep(sealed, p, keys.epoch, number, lastNumber);
      }
      sealed := sealed + [p];
      if previous {
        lastNumber := (n + 1) % NUMBER_LIMIT;
      } else {
        number := (n + 1) % NUMBER_LIMIT;
      }
      ok := n + 1 != NUMBER_LIMIT;
      overflowed := overflowed || !ok;
    }

    /** dtls_seal_record. */
    method SealRecord(packet: array<byte>, at: nat, room: nat, kind: byte, content: seq<byte>, previous: bool)
      returns (ok: bool, len: nat)
      requires Valid() && at + room <= packet.Length && (previous ==> keys.epoch >= 1)
      modifies this`number, this`lastNumber, this`sealed, this`overflowed, packet
      ensures Valid() && old(sealed) <= sealed && packet[..at] == old(packet[..at])
      ensures (old(overflowed) ==> overflowed) && |sealed| <= |old(sealed)| + 1
      ensures ok ==>
        && len <= room && len > 0 && overflowed == old(overflowed)
        && |sealed| == |old(sealed)| + 1 && sealed[..|old(sealed)|] == old(sealed)
        && var p := sealed[|old(sealed)|]; var ct := Ciphertext(keys, p);
           && p.kind == kind && p.content == content
           && p.epoch == (if previous then keys.epoch - 1 else keys.epoch)
           && ct.Some? && packet[at..at + len] == RecordBytes(keys, p, ct.value)
      ensures var k := if previous then keys.last else keys.current;
              Dependable(k, kind) && room >= RECORD_HEADER + |content| + k.maxOverhead && room < 65536 ==>
                (ok || overflowed) && (ok ==> len <= RECORD_HEADER + |content| + k.maxOverhead)
    {
      hide InFlight, Bytes, NumbersBelow, NumbersOnce, Valid;
      var epoch := if previous then keys.epoch - 1 else keys.epoch;
      var n := if previous then lastNumber else number;
      var k := if previous then keys.last else keys.current;
      if room < RECORD_HEADER {
        return false, 0;
      }
      var ct := k.seal(kind, keys.current.version, Sequence(epoch, n), content);
      if ct.None? || |ct.value| > room - RECORD_HEADER {
        return false, 0;
      }
      ok := UseNumber(previous, Plain(kind, epoch, n, content));
      if !ok || |ct.value| >= 65536 {
        return false, 0;
      }
      var bytes := [kind] + Bytes(keys.current.version, 2) + Sequence(epoch, n) + Bytes(|ct.value|, 2) + ct.value;
      len := |bytes|;
      forall i | 0 <= i < len {
        packet[at + i] := bytes[i];
      }
    }

    /** `sealed` grew by one record, which stands at `at` in the packet. */
    twostate predicate SealedAt(packet: array<byte>, at: nat, len: nat)
      requires at + len <= packet.Length
      reads this, packet
    {
      && |sealed| == |old(sealed)| + 1 && sealed[..|old(sealed)|] == old(sealed)
      && var p := sealed[|old(sealed)|]; var ct := Ciphertext(keys, p);
         ct.Some? && packet[at..at + len] == RecordBytes(keys, p, ct.value)
    }

    /** What is left of the message at the cursor. */
    ghost function Left(): nat
      requires Valid()
      reads this
    {
      if written < |outgoing| && Sealable(outgoing[written]) && !outgoing[written].isCcs
      then |MessageOf(outgoing[written]).body| - offset else 0
    }

    /** What one record of the message at the cursor must have achieved. */
    twostate predicate Progressed(packet: array<byte>, at: nat, room: nat, r: SealResult, len: nat)
      requires old(Valid()) && at + room <= packet.Length && len <= room
      reads this, packet
    {
      && len > 0 && SealedAt(packet, at, len) && overflowed == old(overflowed)
      && outgoing == old(outgoing) && written == old(written)
      && var p := sealed[|old(sealed)|];
         && Moves(outgoing, old(At()), p)
         && Moved(outgoing, old(At()), p) == (if r.SealSuccess? then Cursor(written + 1, 0) else At())
         && (if r.SealSuccess? then offset == 0 else Valid() && Left() < old(Left()))
    }

    /** seal_next_message. */
    method SealNextMessage(packet: array<byte>, at: nat, room: nat) returns (r: SealResult, len: nat)
      requires Valid() && written < |outgoing| && at + room <= packet.Length
      modifies this`offset, this`number, this`lastNumber, this`sealed, this`overflowed, packet
      ensures Valid() && old(sealed) <= sealed && packet[..at] == old(packet[..at])
      ensures (old(overflowed) ==> overflowed) && |sealed| <= |old(sealed)| + 1
      ensures r.SealSuccess? || r.SealPartial? ==> len <= room && Progressed(packet, at, room, r, len)
      ensures r.NoProgress? ==> sealed == old(sealed) && overflowed == old(overflowed)
      ensures r.NoProgress? || r.SealError? ==> offset == old(offset)
      ensures Unsealable(outgoing[written], keys) ==> r.SealError?
      ensures r.SealSuccess? || r.SealPartial? ==> room >= Needed(outgoing[written], keys)
      ensures Encrypts(outgoing[written], keys) && room < 65536 ==>
        (r.SealError? ==> overflowed || Unsealable(outgoing[written], keys))
      ensures r.NoProgress? ==> room < Needed(outgoing[written], keys)
      ensures r.SealPartial? ==> offset > 0
    {
      hide NumbersBelow, NumbersOnce, Packs, ParseFragment, FragmentBytes, RecordBytes, Ciphertext, Dependable;
      var msg := outgoing[written];
      var previous := false;
      if keys.epoch >= 1 && msg.epoch == keys.epoch - 1 {
        previous := true;
      } else if msg.epoch != keys.epoch {
        return SealError, 0;
      }
      var k := if previous then keys.last else keys.current;
      var overhead := RECORD_HEADER + k.maxOverhead;
      if msg.isCcs {
        if room < 1 + overhead {
          return NoProgress, 0;
        }
        var ok;
        ok, len := SealRecord(packet, at, room, CHANGE_CIPHER_SPEC, [1], previous);
        return if ok then SealSuccess else SealError, len;
      }
      var parsed := ParseFragment(msg.data);
      if parsed.None? || parsed.value.frag.off != 0 || parsed.value.frag.msgLen != |parsed.value.frag.body|
         || offset > |parsed.value.frag.body| || parsed.value.rest != [] {
        return SealError, 0;
      }
      r, len := SealPiece(packet, at, room, parsed.value.frag, previous);
    }

    /** The part of seal_next_message that cuts a piece of a message to the room there is. */
    method SealPiece(packet: array<byte>, at: nat, room: nat, hdr: Fragment, previous: bool)
      returns (r: SealResult, len: nat)
      requires Valid() && written < |outgoing| && at + room <= packet.Length && (previous ==> keys.epoch >= 1)
      requires !outgoing[written].isCcs && Sealable(outgoing[written]) && MessageOf(outgoing[written]) == hdr
      requires outgoing[written].epoch == (if previous then keys.epoch - 1 else keys.epoch)
      modifies this`offset, this`number, this`lastNumber, this`sealed, this`overflowed, packet
      ensures Valid() && old(sealed) <= sealed && packet[..at] == old(packet[..at])
      ensures (old(overflowed) ==> overflowed) && |sealed| <= |old(sealed)| + 1
      ensures r.SealSuccess? || r.SealPartial? ==> len <= room && Progressed(packet, at, room, r, len)
      ensures r.NoProgress? ==> sealed == old(sealed) && overflowed == old(overflowed)
      ensures r.NoProgress? || r.SealError? ==> offset == old(offset)
      ensures r.SealSuccess? || r.SealPartial? ==> room >= Needed(outgoing[written], keys)
      ensures Encrypts(outgoing[written], keys) && room < 65536 && r.SealError? ==> overflowed
      ensures r.NoProgress? ==> room < Needed(outgoing[written], keys)
      ensures r.SealPartial? ==> offset > 0
    {
      hide NumbersBelow, NumbersOnce, Packs, ParseFragment, FragmentBytes, RecordBytes, Ciphertext, Dependable;
      var k := if previous then keys.last else keys.current;
      var overhead := RECORD_HEADER + k.maxOverhead;
      var prefix := RECORD_HEADER + k.nonceLen;
      if room < HEADER + 1 + overhead || room < prefix {
        return NoProgress, 0;
      }
      var left := |hdr.body| - offset;
      var todo := left;
      if todo > room - HEADER - overhead {
        todo := room - HEADER - overhead;
      }
      var frag := Fragment(hdr.kind, hdr.msgLen, hdr.seqNo, offset, hdr.body[offset..offset + todo]);
      if HEADER + todo > room - prefix {
        return SealError, 0;
      }
      var ok;
      ok, len := SealRecord(packet, at, room, HANDSHAKE, FragmentBytes(frag), previous);
      if !ok {
        return SealError, len;
      }
      if todo == left {
        offset := 0;
        return SealSuccess, len;
      }
      offset := offset + todo;
      return SealPartial, len;
    }

    /** The records sealed since `before`, which lie packed in the first `total` bytes, have
        carried the cursor on from `from`. */
    ghost predicate Packed(packet: array<byte>, total: nat, before: seq<Plain>, from: Cursor)
      requires total <= packet.Length
      reads this, packet
    {
      && before <= sealed
      && Packs(keys, packet[..total], sealed[|before|..])
      && Cuts(outgoing, from, sealed[|before|..], At())
    }

    /** One more message of a packet, or a piece of it. */
    method SealMore(packet: array<byte>, total: nat, ghost before: seq<Plain>, ghost from: Cursor)
      returns (r: SealResult, len: nat)
      requires Valid() && written < |outgoing| && total <= packet.Length
      requires Packed(packet, total, before, from)
      modifies this`written, this`offset, this`number, this`lastNumber, this`sealed, this`overflowed, packet
      ensures Valid() && old(sealed) <= sealed && (old(overflowed) ==> overflowed) && |sealed| <= |old(sealed)| + 1
      ensures r.NoProgress? || r.SealError? ==> At() == old(At())
      ensures r.NoProgress? ==> sealed == old(sealed) && Packed(packet, total, before, from)
      ensures r.SealSuccess? || r.SealPartial? ==>
        && len <= packet.Length - total && Packed(packet, total + len, before, from)
        && |sealed| > |old(sealed)| && packet.Length - total >= Needed(outgoing[old(written)], keys)
        && (if r.SealSuccess? then written == old(written) + 1
            else written == old(written) && Left() < old(Left()) && offset > 0)
      ensures !r.SealError? ==> overflowed == old(overflowed) && !Unsealable(outgoing[old(written)], keys)
      ensures r.NoProgress? ==> packet.Length - total < Needed(outgoing[old(written)], keys)
      ensures Encrypts(outgoing[old(written)], keys) && packet.Length < 65536 && r.SealError? ==>
        overflowed || Unsealable(outgoing[old(written)], keys)
    {
      hide Packs, Moves, Moved, RecordBytes, Ciphertext, NumbersBelow, NumbersOnce, Dependable, Sealable, Cuts,
        Unsealable, Needed;
      ghost var ps, at := sealed[|before|..], At();
      r, len := SealNextMessage(packet, total, packet.Length - total);
      if r.SealSuccess? || r.SealPartial? {
        OneMore(keys, outgoing, packet[..], total, len, from, ps, at, sealed[|sealed| - 1]);
        assert sealed[|before|..] == ps + [sealed[|sealed| - 1]];
      }
      if r.SealSuccess? {
        written := written + 1;
      }
    }

    /** seal_next_packet: as many records as fit.  When it fails, those before the failure are
        dropped, and the cursor stands behind them. */
    method SealNextPacket(packet: array<byte>) returns (ok: bool, total: nat, ghost dropped: seq<Plain>)
      requires Valid() && written < |outgoing| && packet.Length == mtu
      modifies this`written, this`offset, this`number, this`lastNumber, this`sealed, this`overflowed, packet
      ensures Valid() && old(sealed) <= sealed && (old(overflowed) ==> overflowed)
      ensures ok ==>
        && total <= mtu && Packed(packet, total, old(sealed), old(At())) && sealed != old(sealed)
        && (written > old(written) || (written == old(written) && Left() < old(Left())))
        && Full(keys, outgoing, sealed[|old(sealed)|..], At(), mtu) && AllEncrypt(keys, sealed[|old(sealed)|..])
      ensures !ok ==> Cuts(outgoing, old(At()), dropped, At()) && |sealed| <= |old(sealed)| + |dropped| + 1
      ensures !ok ==> written < |outgoing| && AllEncrypt(keys, dropped)
      ensures !ok && dropped != [] ==> !Stuck(outgoing[old(written)], keys, mtu)
      ensures !ok && mtu < 65536 && Encrypts(outgoing[written], keys) ==>
        overflowed || if dropped == [] then Stuck(outgoing[written], keys, mtu) else Unsealable(outgoing[written], keys)
      ensures AllReady(outgoing, keys, mtu) ==> ok || overflowed
    {
      hide Packs, Moves, Moved, RecordBytes, Ciphertext, NumbersBelow, NumbersOnce, Dependable, Sealable, Cuts,
        InFlight, Unsealable, Needed;
      CutsNothing(outgoing, At());
      PacksNothing(keys);
      assert packet[..0] == [] && sealed[|sealed|..] == [];
      var progress := false;
      total := 0;
      while written < |outgoing|
        invariant total <= mtu && Valid() && old(sealed) <= sealed && (old(overflowed) ==> overflowed)
        invariant Packed(packet, total, old(sealed), old(At()))
        invariant progress <==> sealed != old(sealed)
        invariant if progress then written > old(written) && !Stuck(outgoing[old(written)], keys, mtu)
                  else total == 0 && At() == old(At())
      {
        dropped := sealed[|old(sealed)|..];
        PacksSize(keys, packet[..total], dropped);
        var r, len := SealMore(packet, total, old(sealed), old(At()));
        if r.SealError? {
          return false, 0, dropped;
        }
        if r.NoProgress? {
          break;
        }
        total := total + len;
        progress := true;
        if r.SealPartial? {
          break;
        }
      }
      if !progress {
        return false, 0, [];
      }
      PacksSize(keys, packet[..total], sealed[|old(sealed)|..]);
      return true, total, [];
    }

    /** dtls1_update_mtu; `queried` is what the transport says its MTU is. */
    method UpdateMtu(queried: int, noQuery: bool)
      requires Valid()
      modifies this`mtu
      ensures Valid()
      ensures mtu == NewMtu(old(mtu), queried, noQuery)
      ensures
        if old(mtu) >= 228 || noQuery then mtu == old(mtu)
        else if 228 <= queried <= 0x4000_0000 then mtu == queried else mtu == 1472
    {
      if mtu < MIN_MTU && !noQuery {
        if 0 <= queried <= 0x4000_0000 && queried >= MIN_MTU {
          mtu := queried;
        } else {
          mtu := DEFAULT_MTU;
        }
      }
    }

    /** Where the cursor is left.  After a datagram that the transport did not take, or any other
        end but a failure to seal, it stands behind the last datagram taken.  A failure to seal
        leaves it at the message that cannot be sealed, ahead of the last datagram taken exactly
        if that message was not the first of its datagram. */
    ghost predicate Stopped(ret: int, s: Sending, last: int)
      reads this
    {
      && Cuts(outgoing, s.end, s.dropped, s.ahead) && AllEncrypt(keys, s.dropped)
      && At() == (if s.stop.SealFailed? then s.ahead else s.end)
      && (ret == 1 <==> s.stop.AllSent?)
      && match s.stop
         case AllSent => s.end == Cursor(|outgoing|, 0)
         case NotOpen => ret == -1 && shutdown && s.packets == []
         case SealFailed =>
           && ret == -1 && s.end.written < |outgoing| && written < |outgoing|
           && (overflowed || !AllReady(outgoing, keys, mtu))
           && (mtu < 65536 && !overflowed ==>
                 && (Encrypts(outgoing[s.end.written], keys) ==>
                       (At() == s.end <==> Stuck(outgoing[s.end.written], keys, mtu)))
                 && (Encrypts(outgoing[written], keys) && At() != s.end ==> Unsealable(outgoing[written], keys)))
         case WriteFailed =>
           && ret == last <= 0 && s.dropped != []
           && Full(keys, outgoing, s.dropped, s.ahead, mtu)
         case FlushFailed => ret == -1 && last <= 0 && s.end == Cursor(|outgoing|, 0)
    }

    /** The datagrams taken so far, none without a record, are packed with sealed records that cut the
        flight between `from` and the end; the last of them has no room for more. */
    ghost predicate SentSoFar(s: Sending, from: Cursor, was: seq<seq<byte>>, now: seq<seq<byte>>)
      reads this
    {
      && Taken(was, now, s.packets, keys, mtu) && Cuts(outgoing, from, Flatten(s.packets), s.end)
      && |s.packets| <= |Flatten(s.packets)| && AllIn(Flatten(s.packets), sealed)
      && (s.packets != [] ==> Full(keys, outgoing, s.packets[|s.packets| - 1], s.end, mtu))
    }

    /** A datagram is packed and written; if the transport does not take it the cursor goes back. */
    method SendPacket(bio: Transport, packet: array<byte>, ghost s: Sending, ghost from: Cursor,
                      ghost was: seq<seq<byte>>)
      returns (ok: bool, n: int, ghost t: Sending)
      requires Valid() && written < |outgoing| && packet.Length == mtu && s.end == At() && s.dropped == []
      requires s.stop != SealFailed && SentSoFar(s, from, was, bio.taken)
      modifies this`written, this`offset, this`number, this`lastNumber, this`sealed, this`overflowed, packet, bio
      ensures Valid() && old(sealed) <= sealed && (old(overflowed) ==> overflowed)
      ensures SentSoFar(t, from, was, bio.taken)
      ensures |sealed| + |Flatten(s.packets)| <= |old(sealed)| + Spent(t)
      ensures ok && n > 0 ==> t.dropped == [] && t.stop == s.stop
      ensures !ok ==> t.stop == SealFailed && n == -1 && Stopped(n, t, bio.last)
      ensures ok && n <= 0 ==> t.stop == WriteFailed && Stopped(n, t, bio.last)
      ensures ok && n > 0 ==>
        t.end == At() && (written > old(written) || (written == old(written) && Left() < old(Left())))
      ensures AllReady(outgoing, keys, mtu) ==> ok || overflowed
    {
      hide Packs, Moves, Moved, Cuts, RecordBytes, Ciphertext, NumbersBelow, NumbersOnce, Dependable, Taken, AllReady,
        InFlight, Unsealable, Needed, Stuck, Flatten, AllIn, Full, AllEncrypt, Encrypts;
      var oldWritten, oldOffset := written, offset;
      ghost var before, took := sealed, bio.taken;
      ghost var dropped;
      var len;
      ok, len, dropped := SealNextPacket(packet);
      if !ok {
        CutsStand(outgoing, s.end, dropped, At());
        AllInMore(Flatten(s.packets), before, sealed);
        return false, -1, s.(stop := SealFailed, dropped := dropped, ahead := At());
      }
      ghost var ps := sealed[|before|..];
      AllInMore(Flatten(s.packets), before, sealed);
      n := bio.Write(packet, len);
      if n <= 0 {
        t := s.(stop := WriteFailed, dropped := ps, ahead := At());
        written, offset := oldWritten, oldOffset;
        NotTaken(t, n);
        return;
      }
      t := s.(packets := s.packets + [ps], end := At());
      OneTaken(s, from, was, took, packet[..len], ps);
    }

    /** A datagram has not been taken. */
    lemma NotTaken(s: Sending, n: int)
      requires s.stop == WriteFailed && n <= 0 && s.dropped != [] && At() == s.end
      requires Cuts(outgoing, s.end, s.dropped, s.ahead) && AllEncrypt(keys, s.dropped)
      requires Full(keys, outgoing, s.dropped, s.ahead, mtu)
      ensures Stopped(n, s, n)
    {
    }

    /** One more datagram has been taken. */
    lemma OneTaken(s: Sending, from: Cursor, was: seq<seq<byte>>, took: seq<seq<byte>>, bs: seq<byte>, ps: seq<Plain>)
      requires Taken(was, took, s.packets, keys, mtu) && Cuts(outgoing, from, Flatten(s.packets), s.end)
      requires |s.packets| <= |Flatten(s.packets)| && ps != []
      requires |bs| <= mtu && Packs(keys, bs, ps) && Cuts(outgoing, s.end, ps, At())
      requires AllIn(Flatten(s.packets) + ps, sealed) && Full(keys, outgoing, ps, At(), mtu)
      ensures SentSoFar(s.(packets := s.packets + [ps], end := At()), from, was, took + [bs])
      ensures |Flatten(s.packets + [ps])| == |Flatten(s.packets)| + |ps|
    {
      hide Packs, Cuts, Taken, Flatten, AllIn, Full;
      TakenMore(was, took, s.packets, keys, mtu, bs, ps);
      CutsConcat(outgoing, from, Flatten(s.packets), s.end, ps, At());
      FlattenMore(s.packets, ps);
    }

    /** send_flight: every datagram fits the MTU and holds sealed records, and the datagrams taken
        cut the flight from the old cursor on. */
    method SendFlight(bio: Transport, queried: int, noQuery: bool) returns (ret: int, ghost s: Sending)
      requires Valid()
      modifies this`written, this`offset, this`mtu, this`number, this`lastNumber, this`sealed, this`overflowed, bio
      ensures Valid() && old(sealed) <= sealed && (old(overflowed) ==> overflowed)
      ensures |sealed| <= |old(sealed)| + Spent(s)
      ensures mtu == if shutdown then old(mtu) else NewMtu(old(mtu), queried, noQuery)
      ensures SentSoFar(s, old(At()), old(bio.taken), bio.taken)
      ensures Stopped(ret, s, bio.last)
      ensures ret != 1 ==> shutdown || bio.last <= 0 || overflowed || !AllReady(outgoing, keys, mtu)
    {
      hide Packs, Moves, Moved, Cuts, RecordBytes, Ciphertext, NumbersBelow, NumbersOnce, Dependable, Taken, AllReady,
        InFlight, Unsealable, Needed, Stuck, Flatten, AllIn, Full, AllEncrypt, Encrypts;
      FlattenNothing(sealed);
      s := Sending(NotOpen, [], At(), [], At());
      TakenNothing(bio.taken, keys, mtu);
      CutsNothing(outgoing, At());
      EncryptNothing(keys);
      if shutdown {
        return -1, s;
      }
      UpdateMtu(queried, noQuery);
      TakenNothing(bio.taken, keys, mtu);
      var packet := new byte[mtu];
      while written < |outgoing|
        invariant Valid() && old(sealed) <= sealed && s.end == At() && packet.Length == mtu
        invariant |sealed| <= |old(sealed)| + |Flatten(s.packets)| && s.dropped == [] && s.stop != SealFailed
        invariant (old(overflowed) ==> overflowed) && SentSoFar(s, old(At()), old(bio.taken), bio.taken)
        decreases |outgoing| - written, Left()
      {
        var ok, n;
        ok, n, s := SendPacket(bio, packet, s, old(At()), old(bio.taken));
        if !ok || n <= 0 {
          return n, s;
        }
      }
      ret, s := FlushTransport(bio, s);
    }

    /** BIO_flush, once every datagram has been taken. */
    method FlushTransport(bio: Transport, ghost s: Sending) returns (ret: int, ghost t: Sending)
      requires Valid() && written >= |outgoing| && s.end == At()
      modifies bio
      ensures t == s.(stop := t.stop, dropped := [], ahead := s.end) && !t.stop.SealFailed?
      ensures Stopped(ret, t, bio.last) && (ret != 1 ==> bio.last <= 0) && bio.taken == old(bio.taken)
    {
      hide Packs, Moves, Moved, Cuts, RecordBytes, Ciphertext, NumbersBelow, NumbersOnce, Dependable, Taken, AllReady,
        InFlight, Unsealable, Needed, Stuck, Flatten, AllIn, Full, AllEncrypt, Encrypts;
      CutsNothing(outgoing, At());
      EncryptNothing(keys);
      AtEnd(outgoing, At());
      t := s.(dropped := [], ahead := At());
      var flushed := bio.Answer();
      if flushed <= 0 {
        return -1, t.(stop := FlushFailed);
      }
      return 1, t.(stop := AllSent);
    }

    constructor (keys: Keying, mtu: nat)
      requires keys.epoch == 0
      ensures Valid() && this.keys == keys && this.mtu == mtu && outgoing == [] && At() == Cursor(0, 0)
      ensures writeSeq == 0 && !complete && !shutdown && sealed == [] && !overflowed && !wrapped
    {
      outgoing, written, offset, complete, writeSeq := [], 0, 0, false, 0;
      this.keys, number, lastNumber, this.mtu, shutdown := keys, 0, 0, mtu, false;
      sealed, overflowed, wrapped := [], false, false;
    }

    /** add_outgoing: a new flight begins once the last one has been flushed. */
    method AddOutgoing(isCcs: bool, data: seq<byte>) returns (ok: bool)
      requires Valid()
      modifies this`outgoing, this`written, this`offset, this`complete, this`writeSeq
      ensures Valid()
      ensures var flight := if old(complete) then [] else old(outgoing);
              && (ok <==> |flight| < FLIGHT && |data| <= 0xffffffff)
              && outgoing == (if ok then flight + [Outgoing(data, keys.epoch, isCcs)] else flight)
      ensures At() == (if old(complete) then Cursor(0, 0) else old(At())) && !complete
      ensures writeSeq == if ok && !isCcs then (old(writeSeq) + 1) % 65536 else old(writeSeq)
    {
      if complete {
        outgoing, written, offset, complete := [], 0, 0, false;
      }
      if |outgoing| >= FLIGHT || |data| > 0xffffffff {
        return false;
      }
      if !isCcs {
        writeSeq := (writeSeq + 1) % 65536;
      }
      outgoing := outgoing + [Outgoing(data, keys.epoch, isCcs)];
      return true;
    }

    /** dtls1_init_message, dtls1_finish_message and dtls1_add_message: the next number, and one
        fragment that is the whole message. */
    method AddMessage(kind: byte, body: seq<byte>) returns (ok: bool)
      requires Valid() && |body| < U24
      modifies this`outgoing, this`written, this`offset, this`complete, this`writeSeq
      ensures Valid()
      ensures var flight := if old(complete) then [] else old(outgoing);
              && (ok <==> |flight| < FLIGHT)
              && (!ok ==> outgoing == flight)
              && (ok ==> |outgoing| == |flight| + 1 && outgoing[..|flight|] == flight
                         && var m := outgoing[|flight|];
                            && m.epoch == keys.epoch && !m.isCcs && Sealable(m)
                            && MessageOf(m) == Fragment(kind, |body|, old(writeSeq), 0, body))
      ensures At() == (if old(complete) then Cursor(0, 0) else old(At())) && !complete
      ensures writeSeq == if ok then (old(writeSeq) + 1) % 65536 else old(writeSeq)
    {
      var f := Fragment(kind, |body|, writeSeq, 0, body);
      FragmentRoundTrip(f, []);
      assert FragmentBytes(f) + [] == FragmentBytes(f);
      ok := AddOutgoing(false, FragmentBytes(f));
    }

    /** dtls1_set_write_state: the last epoch's keys stay, for retransmissions.  The epoch has 16
        bits. */
    method SetWriteState(next: WriteKeys)
      requires Valid()
      modifies this`keys, this`number, this`lastNumber, this`wrapped
      ensures Valid() && keys == Keying((old(keys).epoch + 1) % 65536, next, old(keys).current)
      ensures number == 0 && lastNumber == old(number)
      ensures wrapped <==> old(wrapped) || old(keys).epoch == 65535
    {
      wrapped := wrapped || keys.epoch == 65535;
      keys := Keying((keys.epoch + 1) % 65536, next, keys.current);
      number, lastNumber := 0, number;
    }

    /** dtls1_flush_flight. */
    method FlushFlight(bio: Transport, queried: int, noQuery: bool) returns (ret: int, ghost s: Sending)
      requires Valid()
      modifies this`complete, this`written, this`offset, this`mtu, this`number, this`lastNumber
      modifies this`sealed, this`overflowed, bio
      ensures Valid() && old(sealed) <= sealed && complete
      ensures SentSoFar(s, old(At()), old(bio.taken), bio.taken)
      ensures Stopped(ret, s, bio.last)
      ensures ret != 1 ==> shutdown || bio.last <= 0 || overflowed || !AllReady(outgoing, keys, mtu)
    {
      complete := true;
      ret, s := SendFlight(bio, queried, noQuery);
    }

    /** dtls1_retransmit_outgoing_messages: the flight again, from its start. */
    method Retransmit(bio: Transport, queried: int, noQuery: bool) returns (ret: int, ghost s: Sending)
      requires Valid()
      modifies this`written, this`offset, this`mtu, this`number, this`lastNumber, this`sealed, this`overflowed, bio
      ensures Valid() && old(sealed) <= sealed
      ensures SentSoFar(s, Cursor(0, 0), old(bio.taken), bio.taken)
      ensures Stopped(ret, s, bio.last)
      ensures ret != 1 ==> shutdown || bio.last <= 0 || overflowed || !AllReady(outgoing, keys, mtu)
    {
      written, offset := 0, 0;
      ret, s := SendFlight(bio, queried, noQuery);
    }
  }

  /** A ChangeCipherSpec and a handshake message, both as they should be, under a cipher that fails on
      handshake records. */
  ghost predicate HalfSealable(flight: seq<Outgoing>, k: Keying) {
    && |flight| == 2 && flight[0] == Outgoing([1], 0, true)
    && flight[1].epoch == 0 && !flight[1].isCcs && Sealable(flight[1])
    && k == Keying(0, HalfCipher(), HalfCipher())
  }

  function HalfCipher(): WriteKeys {
    WriteKeys(0xfeff, 0, 0, (kind, version, sequence, plain) => if kind == HANDSHAKE then None else Some(plain))
  }

  method HalfSealableFlight() returns (s: Sender)
    ensures fresh(s) && s.Valid() && HalfSealable(s.outgoing, s.keys) && s.mtu == MIN_MTU && s.At() == Cursor(0, 0)
      && s.sealed == []
    ensures !s.overflowed && !s.shutdown
  {
    hide InFlight, NumbersBelow, NumbersOnce, HalfCipher, Sealable, ParseFragment;
    s := new Sender(Keying(0, HalfCipher(), HalfCipher()), MIN_MTU);
    var first := s.AddOutgoing(true, [1]);
    var second := s.AddMessage(20, [7]);
  }

  /** Under that cipher only the ChangeCipherSpec ever gets into a datagram. */
  lemma HalfMoves(flight: seq<Outgoing>, k: Keying, c: Cursor, p: Plain)
    requires HalfSealable(flight, k) && InFlight(flight, c) && Moves(flight, c, p) && Ciphertext(k, p).Some?
    ensures c == Cursor(0, 0) && Moved(flight, c, p) == Cursor(1, 0) && |Ciphertext(k, p).value| == 1
  {
    hide Sealable, ParseFragment, FragmentBytes;
  }

  lemma {:induction false} NotPast(flight: seq<Outgoing>, k: Keying, from: Cursor, ps: seq<Plain>, to: Cursor)
    requires HalfSealable(flight, k) && Cuts(flight, from, ps, to) && AllEncrypt(k, ps)
    ensures ps != [] ==> from == Cursor(0, 0) && to == Cursor(1, 0) && |ps| == 1 && SizeOf(k, ps) == RECORD_HEADER + 1
    decreases |ps|
  {
    hide HalfSealable, InFlight, Moves, Moved, Ciphertext;
    if ps != [] {
      HalfMoves(flight, k, from, ps[0]);
      NotPast(flight, k, Moved(flight, from, ps[0]), ps[1..], to);
      assert ps == [ps[0]] && ps[..0] == [] && SizeOf(k, ps[..0]) == 0;
    }
  }

  lemma NotFull(flight: seq<Outgoing>, k: Keying, ps: seq<Plain>)
    requires HalfSealable(flight, k) && SizeOf(k, ps) == RECORD_HEADER + 1
    ensures !Full(k, flight, ps, Cursor(1, 0), MIN_MTU)
  {
  }

  lemma {:induction false} TakenEncrypt(was: seq<seq<byte>>, now: seq<seq<byte>>, packets: seq<seq<Plain>>,
                                        k: Keying, mtu: nat)
    requires Taken(was, now, packets, k, mtu)
    ensures AllEncrypt(k, Flatten(packets)) && forall j :: 0 <= j < |packets| ==> AllEncrypt(k, packets[j])
    decreases |packets|
  {
    hide Packs, AllEncrypt;
    if packets == [] {
      EncryptNothing(k);
    } else {
      var n := |packets| - 1;
      TakenEncrypt(was, now[..|now| - 1], packets[..n], k, mtu);
      PacksSize(k, now[|now| - 1], packets[n]);
      EncryptBoth(k, Flatten(packets[..n]), packets[n]);
      assert forall j :: 0 <= j < n ==> packets[j] == packets[..n][j];
    }
  }

  lemma EncryptBoth(k: Keying, ps: seq<Plain>, qs: seq<Plain>)
    requires AllEncrypt(k, ps) && AllEncrypt(k, qs)
    ensures AllEncrypt(k, ps + qs)
  {
  }

  lemma HalfSealableStops(flight: seq<Outgoing>, k: Keying, s: Sending, was: seq<seq<byte>>, now: seq<seq<byte>>)
    requires HalfSealable(flight, k) && Taken(was, now, s.packets, k, MIN_MTU)
    requires Cuts(flight, Cursor(0, 0), Flatten(s.packets), s.end) && |s.packets| <= |Flatten(s.packets)|
    requires Cuts(flight, s.end, s.dropped, s.ahead) && AllEncrypt(k, s.dropped)
    requires s.packets != [] ==> Full(k, flight, s.packets[|s.packets| - 1], s.end, MIN_MTU)
    ensures |flight| == 2 && s.packets == [] && now == was && s.end == Cursor(0, 0) && Spent(s) <= 2
    ensures Encrypts(flight[0], k) && !Stuck(flight[0], k, MIN_MTU)
    ensures if s.dropped == [] then s.ahead == s.end
            else s.ahead == Cursor(1, 0) && !Full(k, flight, s.dropped, s.ahead, MIN_MTU)
  {
    hide Packs, Cuts, Full, AllEncrypt, SizeOf, ParseFragment;
    TakenEncrypt(was, now, s.packets, k, MIN_MTU);
    CutsStand(flight, Cursor(0, 0), Flatten(s.packets), s.end);
    NotPast(flight, k, Cursor(0, 0), Flatten(s.packets), s.end);
    if s.packets != [] {
      OnePacket(s.packets);
      NotFull(flight, k, s.packets[0]);
    }
    CutsStand(flight, s.end, s.dropped, s.ahead);
    NotPast(flight, k, s.end, s.dropped, s.ahead);
    if s.dropped != [] {
      NotFull(flight, k, s.dropped);
    }
  }

  lemma OnePacket(packets: seq<seq<Plain>>)
    requires packets != [] && |packets| <= |Flatten(packets)| && |Flatten(packets)| <= 1
    ensures |packets| == 1 && packets[0] == Flatten(packets)
  {
    assert Flatten(packets[..|packets| - 1]) + packets[|packets| - 1] == Flatten(packets);
  }

  /** Sending such a flight, over any transport: the cursor is left at the handshake message, though
      not even the datagram with the ChangeCipherSpec has been written. */
  method CursorLeftAhead(s: Sender, bio: Transport) returns (ret: int, ghost done: Sending)
    requires s.Valid() && HalfSealable(s.outgoing, s.keys) && s.mtu == MIN_MTU && s.At() == Cursor(0, 0)
    requires s.sealed == [] && !s.overflowed && !s.shutdown
    modifies s, bio
    ensures s.Stopped(ret, done, bio.last) && done.stop == SealFailed && ret == -1
    ensures s.At() == Cursor(1, 0) && done.end == Cursor(0, 0) && bio.taken == old(bio.taken)
  {
    hide Cuts, Stuck, Sealable, HalfSealable, Taken, Packs, Flatten, Spent, InFlight, NumbersBelow, NumbersOnce,
      HalfCipher, AllReady, Unsealable, Full, Encrypts, AllEncrypt, AllIn;
    ret, done := s.SendFlight(bio, 0, false);
    HalfSealableStops(s.outgoing, s.keys, done, old(bio.taken), bio.taken);
  }

  /** Records carry the cursor forward, and nothing else does. */
  lemma {:induction false} CutsForward(flight: seq<Outgoing>, from: Cursor, ps: seq<Plain>, to: Cursor)
    requires Cuts(flight, from, ps, to)
    ensures from.written < to.written || (from.written == to.written && from.offset <= to.offset)
    ensures ps != [] ==> from != to
    decreases |ps|
  {
    if ps != [] {
      CutsForward(flight, Moved(flight, from, ps[0]), ps[1..], to);
    }
  }

  lemma AtEnd(flight: seq<Outgoing>, c: Cursor)
    requires InFlight(flight, c) && c.written >= |flight|
    ensures c == Cursor(|flight|, 0)
  {
  }

  lemma CutsStand(flight: seq<Outgoing>, from: Cursor, ps: seq<Plain>, to: Cursor)
    requires Cuts(flight, from, ps, to)
    ensures from == to <==> ps == []
  {
    CutsForward(flight, from, ps, to);
  }

  /** An MTU that is large enough stays; otherwise the transport is asked. */
  function NewMtu(mtu: nat, queried: int, noQuery: bool): nat {
    if mtu >= MIN_MTU || noQuery then mtu
    else if MIN_MTU <= queried <= 0x4000_0000 then queried
    else DEFAULT_MTU
  }

  /** The records sealed on the way, and one more that failed. */
  ghost function Spent(s: Sending): nat {
    |Flatten(s.packets)| + |s.dropped| + if s.stop.SealFailed? then 1 else 0
  }

  ghost predicate AllIn(ps: seq<Plain>, sealed: seq<Plain>) {
    forall p :: p in ps ==> p in sealed
  }

  lemma AllInMore(ps: seq<Plain>, was: seq<Plain>, now: seq<Plain>)
    requires AllIn(ps, was) && was <= now
    ensures AllIn(ps, now) && AllIn(ps + now[|was|..], now)
  {
  }

  lemma FlattenNothing(sealed: seq<Plain>)
    ensures Flatten([]) == [] && AllIn([], sealed)
  {
  }

  lemma FlattenMore(packets: seq<seq<Plain>>, ps: seq<Plain>)
    ensures Flatten(packets + [ps]) == Flatten(packets) + ps
  {
    assert (packets + [ps])[..|packets|] == packets;
  }

  function Flatten(packets: seq<seq<Plain>>): seq<Plain> {
    if packets == [] then [] else Flatten(packets[..|packets| - 1]) + packets[|packets| - 1]
  }

  /** The transport took the datagrams that `packets` are packed into, none above the MTU. */
  ghost predicate Taken(was: seq<seq<byte>>, now: seq<seq<byte>>, packets: seq<seq<Plain>>, k: Keying, mtu: nat) {
    if packets == [] then now == was
    else
      var n, last := |packets| - 1, |now| - 1;
      && last >= 0 && |now[last]| <= mtu && Packs(k, now[last], packets[n])
      && Taken(was, now[..last], packets[..n], k, mtu)
  }

  lemma TakenNothing(was: seq<seq<byte>>, k: Keying, mtu: nat)
    ensures Taken(was, was, [], k, mtu)
  {
  }

  lemma TakenMore(was: seq<seq<byte>>, now: seq<seq<byte>>, packets: seq<seq<Plain>>, k: Keying, mtu: nat,
                  bs: seq<byte>, ps: seq<Plain>)
    requires Taken(was, now, packets, k, mtu) && |bs| <= mtu && Packs(k, bs, ps)
    ensures Taken(was, now + [bs], packets + [ps], k, mtu)
  {
    hide Packs;
    assert (now + [bs])[..|now|] == now && (packets + [ps])[..|packets|] == packets;
  }

  lemma EncryptNothing(k: Keying)
    ensures AllEncrypt(k, [])
  {
  }

  lemma CutsNothing(flight: seq<Outgoing>, c: Cursor)
    requires InFlight(flight, c)
    ensures Cuts(flight, c, [], c)
  {
  }

  lemma PacksNothing(k: Keying)
    ensures Packs(k, [], [])
  {
  }

  /** A record sealed behind others, from where they left the cursor. */
  lemma OneMore(k: Keying, flight: seq<Outgoing>, bs: seq<byte>, total: nat, len: nat,
                from: Cursor, ps: seq<Plain>, at: Cursor, p: Plain)
    requires total + len <= |bs| && Packs(k, bs[..total], ps) && Cuts(flight, from, ps, at)
    requires Ciphertext(k, p).Some? && bs[total..total + len] == RecordBytes(k, p, Ciphertext(k, p).value)
    requires InFlight(flight, at) && Moves(flight, at, p)
    ensures Packs(k, bs[..total + len], ps + [p]) && Cuts(flight, from, ps + [p], Moved(flight, at, p))
  {
    hide Moves, Moved, Ciphertext;
    CutsOne(flight, at, p);
    CutsConcat(flight, from, ps, at, [p], Moved(flight, at, p));
    var all := bs[..total + len];
    assert (ps + [p])[..|ps|] == ps && all[..total] == bs[..total] && all[total..] == bs[total..total + len];
  }

  lemma NumbersStep(ps: seq<Plain>, p: Plain, epoch: nat, number: nat, lastNumber: nat)
    requires NumbersBelow(ps, epoch, number, lastNumber) && NumbersOnce(ps)
    requires (p.epoch == epoch && p.number == number) || (p.epoch + 1 == epoch && p.number == lastNumber)
    ensures NumbersOnce(ps + [p])
    ensures p.epoch == epoch ==> NumbersBelow(ps + [p], epoch, number + 1, lastNumber)
    ensures p.epoch + 1 == epoch ==> NumbersBelow(ps + [p], epoch, number, lastNumber + 1)
  {
  }

  ghost predicate NumbersBelow(ps: seq<Plain>, epoch: nat, number: nat, lastNumber: nat) {
    forall i :: 0 <= i < |ps| ==>
      && ps[i].epoch <= epoch
      && (ps[i].epoch == epoch ==> ps[i].number < number)
      && (ps[i].epoch + 1 == epoch ==> ps[i].number < lastNumber)
  }

  /** No epoch uses a record number twice. */
  ghost predicate NumbersOnce(ps: seq<Plain>) {
    forall i, j :: 0 <= i < j < |ps| ==> ps[i].epoch != ps[j].epoch || ps[i].number != ps[j].number
  }
}
