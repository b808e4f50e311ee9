/** From one end to the other: the records a sender cuts a flight into are honest and leave out
    nothing, so a receiver that gets each of them at least once, in any order and among any other
    honest records, hands over the flight. */
module FlightDelivery {
  import opened Wrappers
  import opened Wire
  import opened Bits
  import opened NetworkOrder
  import opened HandshakeFragments
  import opened Reassembly
  import opened Delivery
  import opened Flight
  import ReplayWindow

  /** The handshake messages of the flight are the sender's messages of the same numbers. */
  ghost predicate Carries(flight: seq<Outgoing>, sent: seq<Sent>) {
    forall i :: 0 <= i < |flight| && !flight[i].isCcs ==>
      && Sealable(flight[i])
      && var m := MessageOf(flight[i]);
         m.seqNo < |sent| && m.kind == sent[m.seqNo].kind && m.body == sent[m.seqNo].body
  }

  /** The fragment in a handshake record. */
  ghost predicate Contains(p: Plain, f: Fragment) {
    p.kind == HANDSHAKE && p.content == FragmentBytes(f) && Encodable(f)
  }

  lemma MessageEncodable(m: Outgoing)
    requires !m.isCcs && Sealable(m)
    ensures Encodable(MessageOf(m)) && MessageOf(m).msgLen == |MessageOf(m).body|
  {
  }

  lemma MovesHonest(flight: seq<Outgoing>, sent: seq<Sent>, c: Cursor, p: Plain)
    requires Carries(flight, sent) && InFlight(flight, c) && Moves(flight, c, p) && p.kind == HANDSHAKE
    ensures !flight[c.written].isCcs && c.offset + Carried(p) <= |MessageOf(flight[c.written]).body|
    ensures var f := Piece(MessageOf(flight[c.written]), c.offset, Carried(p));
            Contains(p, f) && Honest(f, sent) && HonestRecord(p.content, sent)
  {
    hide ParseFragment, FragmentBytes;
    var m := MessageOf(flight[c.written]);
    var f := Piece(m, c.offset, Carried(p));
    MessageEncodable(flight[c.written]);
    FragmentRoundTrip(f, []);
    assert p.content + [] == p.content;
  }

  /** What the records of a flight carry is honest. */
  lemma {:induction false} CutsHonest(flight: seq<Outgoing>, sent: seq<Sent>, from: Cursor, ps: seq<Plain>, to: Cursor)
    requires Carries(flight, sent) && Cuts(flight, from, ps, to)
    ensures forall i :: 0 <= i < |ps| && ps[i].kind == HANDSHAKE ==> HonestRecord(ps[i].content, sent)
    decreases |ps|
  {
    hide Moves, Moved, InFlight, HonestRecord, Carries;
    if ps != [] {
      if ps[0].kind == HANDSHAKE {
        MovesHonest(flight, sent, from, ps[0]);
      }
      CutsHonest(flight, sent, Moved(flight, from, ps[0]), ps[1..], to);
      assert ps == [ps[0]] + ps[1..];
    }
  }

  ghost predicate CarriesByte(p: Plain, m: Fragment, off: nat) {
    exists f :: Contains(p, f) && f.seqNo == m.seqNo && (off < |m.body| ==> f.off <= off < f.off + |f.body|)
  }

  /** Every byte of every message between the cursors is in some record, and every message,
      even an empty one, has a record. */
  lemma {:induction false} CutsCover(flight: seq<Outgoing>, from: Cursor, ps: seq<Plain>, to: Cursor, i: nat, off: nat)
    requires Cuts(flight, from, ps, to) && from.written <= i < to.written <= |flight| && !flight[i].isCcs
    requires Sealable(flight[i]) && off <= |MessageOf(flight[i]).body|
    requires i == from.written ==> from.offset <= off
    ensures exists k :: 0 <= k < |ps| && CarriesByte(ps[k], MessageOf(flight[i]), off)
    decreases |ps|
  {
    hide ParseFragment, FragmentBytes;
    var p, m := ps[0], MessageOf(flight[i]);
    var next := Moved(flight, from, p);
    if i == from.written && (off < from.offset + Carried(p) || m.body == []) {
      MessageEncodable(flight[i]);
      assert Contains(p, Piece(m, from.offset, Carried(p)));
      assert CarriesByte(ps[0], m, off);
    } else if i == from.written && next.written > i {
      assert off == |m.body|;
      MessageEncodable(flight[i]);
      assert Contains(p, Piece(m, from.offset, Carried(p)));
      assert CarriesByte(ps[0], m, off);
    } else {
      CutsCover(flight, next, ps[1..], to, i, off);
      var k :| 0 <= k < |ps[1..]| && CarriesByte(ps[1..][k], m, off);
      assert ps[k + 1] == ps[1..][k];
    }
  }

  /** The bytes of message `s` that a record carries, if any. */
  function PieceIn(p: Plain, s: nat): seq<byte> {
    var parsed := ParseFragment(p.content);
    if p.kind == HANDSHAKE && parsed.Some? && parsed.value.frag.seqNo == s then parsed.value.frag.body else []
  }

  function PiecesOf(ps: seq<Plain>, s: nat): seq<byte> {
    if ps == [] then [] else PieceIn(ps[0], s) + PiecesOf(ps[1..], s)
  }

  ghost predicate DistinctNumbers(flight: seq<Outgoing>) {
    forall i, j :: 0 <= i < j < |flight| && !flight[i].isCcs && !flight[j].isCcs ==>
      Sealable(flight[i]) && Sealable(flight[j]) && MessageOf(flight[i]).seqNo != MessageOf(flight[j]).seqNo
  }

  /** The pieces of each message that a cut passes, one after the other, are its body, or what
      was left of it. */
  lemma {:induction false} CutsPartition(flight: seq<Outgoing>, from: Cursor, ps: seq<Plain>, to: Cursor, i: nat)
    requires Cuts(flight, from, ps, to) && DistinctNumbers(flight)
    requires i < |flight| && i < to.written && !flight[i].isCcs && Sealable(flight[i])
    requires i == from.written ==> from.offset <= |MessageOf(flight[i]).body|
    ensures var m := MessageOf(flight[i]);
            PiecesOf(ps, m.seqNo) ==
              if i < from.written then [] else if i == from.written then m.body[from.offset..] else m.body
    decreases |ps|
  {
    hide ParseFragment, FragmentBytes, PieceIn, Moves, Moved, Sealable, DistinctNumbers, InFlight, Carried;
    if ps != [] {
      var p := ps[0];
      var next := Moved(flight, from, p);
      PieceMoved(flight, from, p, i);
      WhereMoved(flight, from, p, i);
      CutsPartition(flight, next, ps[1..], to, i);
    }
  }

  /** Where a record takes the cursor, as seen from message `i`. */
  lemma WhereMoved(flight: seq<Outgoing>, c: Cursor, p: Plain, i: nat)
    requires InFlight(flight, c) && Moves(flight, c, p)
    requires i < |flight| && !flight[i].isCcs && Sealable(flight[i])
    ensures var next := Moved(flight, c, p);
            if i == c.written then
              if c.offset + Carried(p) == |MessageOf(flight[i]).body| then next == Cursor(i + 1, 0)
              else next == Cursor(i, c.offset + Carried(p)) && next.offset <= |MessageOf(flight[i]).body|
            else (i < next.written <==> i < c.written) && (i == next.written ==> next.offset == 0)
  {
    hide ParseFragment, FragmentBytes;
  }

  lemma PieceMoved(flight: seq<Outgoing>, c: Cursor, p: Plain, i: nat)
    requires InFlight(flight, c) && Moves(flight, c, p) && DistinctNumbers(flight)
    requires i < |flight| && !flight[i].isCcs && Sealable(flight[i])
    ensures i != c.written ==> PieceIn(p, MessageOf(flight[i]).seqNo) == []
    ensures i == c.written ==>
      var m := MessageOf(flight[i]);
      c.offset + Carried(p) <= |m.body| && PieceIn(p, m.seqNo) == m.body[c.offset..c.offset + Carried(p)]
  {
    hide ParseFragment, FragmentBytes;
    if !flight[c.written].isCcs {
      var f := Piece(MessageOf(flight[c.written]), c.offset, Carried(p));
      MessageEncodable(flight[c.written]);
      FragmentRoundTrip(f, []);
      assert p.content + [] == p.content;
      assert if i < c.written then MessageOf(flight[i]).seqNo != f.seqNo
             else i > c.written ==> f.seqNo != MessageOf(flight[i]).seqNo;
    }
  }

  // ----- nothing that reaches the window is lost

  lemma {:induction false} ReceiveGrows(w: World, record: seq<byte>, epoch: nat, limit: nat)
    ensures var after := Receive(w, record, epoch, limit);
            w.log <= after.log && after.inbox.readSeq == w.inbox.readSeq && after.delivered == w.delivered
    decreases |record|
  {
    if record != [] {
      var p := ParseFragment(record);
      if p.Some? && !Refused(w.inbox, p.value.frag, epoch, limit) {
        ReceiveGrows(ReceiveOne(w, p.value.frag), p.value.rest, epoch, limit);
      }
    }
  }

  /** All fragments of a record lie below `end`. */
  ghost predicate Below(record: seq<byte>, end: nat)
    decreases |record|
  {
    record == [] ||
    var p := ParseFragment(record);
    p.Some? && p.value.frag.seqNo < end && Below(p.value.rest, end)
  }

  lemma {:induction false} BelowInTime(record: seq<byte>, epoch: nat, readSeq: nat, end: nat)
    requires Below(record, end) && end <= readSeq + FLIGHT && epoch != 1
    ensures AllInTime(record, epoch, readSeq)
    decreases |record|
  {
    if record != [] {
      BelowInTime(ParseFragment(record).value.rest, epoch, readSeq, end);
    }
  }

  /** Outside epoch 1 all records are of the window. */
  ghost predicate BelowRun(events: seq<Event>, end: nat) {
    forall i :: 0 <= i < |events| && events[i].Arrives? ==> events[i].epoch != 1 && Below(events[i].record, end)
  }

  /** A run of honest records from a sound receiver stays sound and only moves forward; and if all
      records are of its window it does not end in an error. */
  lemma {:induction false} RunSound(w: World, events: seq<Event>, sent: seq<Sent>, limit: nat)
    requires Sound(w, sent) && !w.failed && Sendable(sent, limit) && HonestRun(events, sent)
    ensures var after := Run(w, events, limit);
            && Sound(after, sent) && w.inbox.readSeq <= after.inbox.readSeq && w.log <= after.log
            && (BelowRun(events, w.inbox.readSeq + FLIGHT) ==> !after.failed)
    decreases |events|
  {
    hide Sound, HonestRecord, Below, Step;
    if events != [] {
      var n := |events| - 1;
      RunSound(w, events[..n], sent, limit);
      OneStep(w.inbox.readSeq, Run(w, events[..n], limit), events[n], sent, limit);
    }
  }

  lemma OneStep(start: nat, w: World, e: Event, sent: seq<Sent>, limit: nat)
    requires Sound(w, sent) && Sendable(sent, limit) && start <= w.inbox.readSeq
    requires e.Arrives? ==> HonestRecord(e.record, sent)
    ensures var after := Step(w, e, limit);
            && Sound(after, sent) && w.inbox.readSeq <= after.inbox.readSeq && w.log <= after.log
            && (w.failed ==> after.failed)
            && (!w.failed && (e.Arrives? ==> e.epoch != 1 && Below(e.record, start + FLIGHT)) ==> !after.failed)
  {
    hide Sound, Receive, HonestRecord, Below, AllInTime;
    match e
    case Arrives(epoch, record) =>
      ReceiveSound(w, record, sent, epoch, limit);
      ReceiveGrows(w, record, epoch, limit);
      if epoch != 1 && Below(record, start + FLIGHT) {
        BelowInTime(record, epoch, w.inbox.readSeq, start + FLIGHT);
      }
    case Asks =>
      AskSound(w, sent);
      AskNeverFails(w);
      AvailableWhenArrived(w, sent);
  }

  /** In a run without an error, a fragment of the window that arrives is in the log at the end, or
      its message has been handed over. */
  lemma {:induction false} ArrivesInLog(w: World, events: seq<Event>, sent: seq<Sent>, limit: nat, k: nat,
                                        epoch: nat, f: Fragment)
    requires Sound(w, sent) && !w.failed && Sendable(sent, limit)
    requires HonestRun(events, sent) && !Run(w, events, limit).failed && f.seqNo < w.inbox.readSeq + FLIGHT
    requires k < |events| && Encodable(f) && events[k] == Arrives(epoch, FragmentBytes(f))
    ensures var after := Run(w, events, limit); f in after.log || f.seqNo < after.inbox.readSeq
    decreases |events|
  {
    hide Sound, HonestRecord, Sendable, Take, Refused, ParseFragment, FragmentBytes, Below;
    var n := |events| - 1;
    RunSound(w, events[..n], sent, limit);
    var before := Run(w, events[..n], limit);
    OneStep(w.inbox.readSeq, before, events[n], sent, limit);
    if k < n {
      ArrivesInLog(w, events[..n], sent, limit, k, epoch, f);
    } else {
      FragmentRoundTrip(f, []);
      assert FragmentBytes(f) + [] == FragmentBytes(f);
      assert Receive(before, FragmentBytes(f), epoch, limit) == ReceiveOne(before, f);
    }
  }

  // ----- the whole way

  ghost predicate AllArrive(ps: seq<Plain>, events: seq<Event>) {
    forall i :: 0 <= i < |ps| && ps[i].kind == HANDSHAKE ==> Arrives(ps[i].epoch, ps[i].content) in events
  }

  /** Once every record of a completely sent flight has arrived, in a run without an error, each of its
      messages has been handed over or can be as soon as its turn comes. */
  lemma {:induction false} FlightArrives(w: World, events: seq<Event>, sent: seq<Sent>, limit: nat,
                      flight: seq<Outgoing>, ps: seq<Plain>, i: nat)
    requires Sound(w, sent) && !w.failed && Sendable(sent, limit)
    requires HonestRun(events, sent) && !Run(w, events, limit).failed
    requires Carries(flight, sent) && Cuts(flight, Cursor(0, 0), ps, Cursor(|flight|, 0)) && AllArrive(ps, events)
    requires i < |flight| && !flight[i].isCcs && MessageOf(flight[i]).seqNo < w.inbox.readSeq + FLIGHT
    ensures var after, s := Run(w, events, limit), MessageOf(flight[i]).seqNo;
            s < after.inbox.readSeq || Arrived(after.log, sent, s)
  {
    var after, m := Run(w, events, limit), MessageOf(flight[i]);
    if m.seqNo >= after.inbox.readSeq {
      forall off: nat | off <= |m.body|
        ensures off < |m.body| ==> Covers(after.log, m.seqNo, off)
        ensures Reached(after.log, m.seqNo)
      {
        ByteArrives(w, events, sent, limit, flight, ps, i, off);
      }
      assert 0 <= |m.body|;
      ByteArrives(w, events, sent, limit, flight, ps, i, 0);
    }
  }

  lemma {:induction false} ByteArrives(w: World, events: seq<Event>, sent: seq<Sent>, limit: nat,
                    flight: seq<Outgoing>, ps: seq<Plain>, i: nat, off: nat)
    requires Sound(w, sent) && !w.failed && Sendable(sent, limit)
    requires HonestRun(events, sent) && !Run(w, events, limit).failed
    requires Carries(flight, sent) && Cuts(flight, Cursor(0, 0), ps, Cursor(|flight|, 0)) && AllArrive(ps, events)
    requires i < |flight| && !flight[i].isCcs && off <= |MessageOf(flight[i]).body|
    requires MessageOf(flight[i]).seqNo < w.inbox.readSeq + FLIGHT
    ensures var after, m := Run(w, events, limit), MessageOf(flight[i]);
            m.seqNo < after.inbox.readSeq ||
            (Reached(after.log, m.seqNo) && (off < |m.body| ==> Covers(after.log, m.seqNo, off)))
  {
    hide Run, Sound, HonestRun, Sendable, Cuts;
    var after, m := Run(w, events, limit), MessageOf(flight[i]);
    CutsCover(flight, Cursor(0, 0), ps, Cursor(|flight|, 0), i, off);
    var k :| 0 <= k < |ps| && CarriesByte(ps[k], m, off);
    var f :| Contains(ps[k], f) && f.seqNo == m.seqNo && (off < |m.body| ==> f.off <= off < f.off + |f.body|);
    var j :| 0 <= j < |events| && events[j] == Arrives(ps[k].epoch, ps[k].content);
    ArrivesInLog(w, events, sent, limit, j, ps[k].epoch, f);
    if f in after.log {
      var x :| 0 <= x < |after.log| && after.log[x] == f;
      assert after.log[x].seqNo == m.seqNo;
    }
  }

  ghost function AskTimes(w: World, n: nat): World
    decreases n
  {
    if n == 0 then w else AskTimes(Ask(w), n - 1)
  }

  lemma {:induction false} AsksDeliver(w: World, sent: seq<Sent>, upto: nat)
    requires Sound(w, sent) && |sent| < SEQ_LIMIT && w.inbox.readSeq <= upto <= |sent|
    requires forall s: nat :: w.inbox.readSeq <= s < upto ==> Arrived(w.log, sent, s)
    ensures var after := AskTimes(w, upto - w.inbox.readSeq);
            Sound(after, sent) && |after.delivered| == upto
    decreases upto - w.inbox.readSeq
  {
    if w.inbox.readSeq < upto {
      AvailableWhenArrived(w, sent);
      AskSound(w, sent);
      AsksDeliver(Ask(w), sent, upto);
    }
  }

  /** Message s is one of the flight. */
  ghost predicate InThe(flight: seq<Outgoing>, s: nat) {
    exists i :: 0 <= i < |flight| && !flight[i].isCcs && Sealable(flight[i]) && MessageOf(flight[i]).seqNo == s
  }

  /** A flight sent to its end, every record of which arrives at least once among any other honest
      records.  The run is an error exactly if some fragment does not come in time, which cannot
      happen outside epoch 1 if all are of the window; and without an error the flight is handed
      over completely: the messages up to its last are the sender's, in order and each once. */
  lemma {:induction false} FlightDelivered(w: World, events: seq<Event>, sent: seq<Sent>, limit: nat,
                        flight: seq<Outgoing>, ps: seq<Plain>, upto: nat)
    requires Sound(w, sent) && !w.failed && Sendable(sent, limit) && HonestRun(events, sent)
    requires Carries(flight, sent) && Cuts(flight, Cursor(0, 0), ps, Cursor(|flight|, 0)) && AllArrive(ps, events)
    requires upto <= |sent| && upto <= w.inbox.readSeq + FLIGHT
    requires forall s: nat :: w.inbox.readSeq <= s < upto ==> InThe(flight, s)
    ensures var after := Run(w, events, limit);
            && Sound(after, sent) && (after.failed <==> Spoiled(w, events, limit))
            && (BelowRun(events, w.inbox.readSeq + FLIGHT) ==> !after.failed)
            && (!after.failed && after.inbox.readSeq <= upto ==>
                  var last := AskTimes(after, upto - after.inbox.readSeq);
                  last.delivered == seq(upto, i requires 0 <= i < |sent| => Whole(sent, i)))
  {
    hide Run, HonestRun, BelowRun, AllArrive, Carries, Cuts, InboxAgrees, Arrived, Spoiled;
    var after := Run(w, events, limit);
    RunSound(w, events, sent, limit);
    FailsExactly(w, events, sent, limit);
    if !after.failed && after.inbox.readSeq <= upto {
      forall s: nat | after.inbox.readSeq <= s < upto
        ensures Arrived(after.log, sent, s)
      {
        assert InThe(flight, s);
        var i :| 0 <= i < |flight| && !flight[i].isCcs && Sealable(flight[i]) && MessageOf(flight[i]).seqNo == s;
        FlightArrives(w, events, sent, limit, flight, ps, i);
      }
      AsksDeliver(after, sent, upto);
    }
  }

  // ----- records

  /** What is sealed is read back as a record of the same type, number and ciphertext. */
  lemma RecordReadsBack(k: Keying, p: Plain, ct: seq<byte>, rest: seq<byte>)
    requires k.current.version < 65536 && |ct| <= ReplayWindow.MAX_ENCRYPTED_LENGTH
    ensures ReplayWindow.ParseRecord(RecordBytes(k, p, ct) + rest) ==
            Some(ReplayWindow.Record(p.kind, k.current.version, Sequence(p.epoch, p.number), ct))
  {
    var bs := RecordBytes(k, p, ct) + rest;
    Words();
    BytesRoundTrip(k.current.version, 2);
    BytesRoundTrip(|ct|, 2);
    assert bs[0] == p.kind && bs[1..3] == Bytes(k.current.version, 2);
    assert bs[3..11] == Sequence(p.epoch, p.number) && bs[11..13] == Bytes(|ct|, 2);
    assert bs[13..13 + |ct|] == ct;
  }

  /** Records of different epochs or numbers are different to the replay window. */
  lemma SequencesDiffer(epoch: nat, number: nat, epoch': nat, number': nat)
    requires epoch < 65536 && epoch' < 65536 && number < NUMBER_LIMIT && number' < NUMBER_LIMIT
    requires BigEndian(Sequence(epoch, number)) == BigEndian(Sequence(epoch', number'))
    ensures epoch == epoch' && number == number'
  {
    Words();
    ShlShl(1, 24, 24);
    ShlShl(16777216, 16, 8);
    ShlShl(16777216, 8, 8);
    Shl8(16777216);
    Shl8(0x1_0000_0000);
    Shl8(0x100_0000_0000);
    var a, b := Sequence(epoch, number), Sequence(epoch', number');
    BigEndianInjective(a, b);
    BytesRoundTrip(epoch, 2);
    BytesRoundTrip(epoch', 2);
    BytesRoundTrip(number, 6);
    BytesRoundTrip(number', 6);
    assert a[..2] == Bytes(epoch, 2) && b[..2] == Bytes(epoch', 2);
    assert a[2..] == Bytes(number, 6) && b[2..] == Bytes(number', 6);
  }
}
