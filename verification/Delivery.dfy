/** What a run of receiving delivers: whatever is lost, reordered, repeated or cut differently,
    exactly the sender's messages, in order, each once all of it has arrived. */
module Delivery {
  import opened Wrappers
  import opened Wire
  import opened HandshakeFragments
  import opened Reassembly

  /** A handshake message of the sender; its number is its index. */
  datatype Sent = Sent(kind: byte, body: seq<byte>)

  /** A fragment cut from the sender's messages. */
  ghost predicate Honest(f: Fragment, sent: seq<Sent>) {
    && f.seqNo < |sent| && f.kind == sent[f.seqNo].kind && f.msgLen == |sent[f.seqNo].body|
    && f.off + |f.body| <= f.msgLen && f.body == sent[f.seqNo].body[f.off..f.off + |f.body|]
  }

  /** A record that holds honest fragments and nothing else. */
  ghost predicate HonestRecord(record: seq<byte>, sent: seq<Sent>)
    decreases |record|
  {
    record == [] ||
    var p := ParseFragment(record);
    p.Some? && Honest(p.value.frag, sent) && HonestRecord(p.value.rest, sent)
  }

  ghost predicate Sendable(sent: seq<Sent>, limit: nat) {
    |sent| < SEQ_LIMIT && forall i :: 0 <= i < |sent| ==> |sent[i].body| <= limit
  }

  /** A record arrives while some epoch is read, or the handshake asks for a message and, if there is
      one, moves on. */
  datatype Event = Arrives(epoch: nat, record: seq<byte>) | Asks

  /** A receiver, what it has handed over, and the fragments that reached its window. */
  datatype World = World(inbox: Inbox, delivered: seq<Message>, log: seq<Fragment>, failed: bool)

  ghost function Receive(w: World, record: seq<byte>, epoch: nat, limit: nat): World
    decreases |record|
  {
    if record == [] then w
    else
      var p := ParseFragment(record);
      if p.None? || Refused(w.inbox, p.value.frag, epoch, limit) then w.(failed := true)
      else Receive(ReceiveOne(w, p.value.frag), p.value.rest, epoch, limit)
  }

  ghost function ReceiveOne(w: World, f: Fragment): World {
    w.(inbox := Take(w.inbox, f), log := if Ignored(f, w.inbox.readSeq) then w.log else w.log + [f])
  }

  ghost function Ask(w: World): World {
    var message := Available(w.inbox);
    if message.None? then w
    else w.(inbox := Advance(w.inbox), delivered := w.delivered + [message.value])
  }

  ghost function Step(w: World, e: Event, limit: nat): World {
    if w.failed then w
    else match e
      case Arrives(epoch, record) => Receive(w, record, epoch, limit)
      case Asks => Ask(w)
  }

  ghost function Run(w: World, events: seq<Event>, limit: nat): World {
    if events == [] then w else Step(Run(w, events[..|events| - 1], limit), events[|events| - 1], limit)
  }

  const Start: World := World(Inbox(0, map[]), [], [], false)

  /** `Receive` does to the inbox what reading the record does. */
  lemma {:induction false} ReceiveIsTakeAll(w: World, record: seq<byte>, epoch: nat, limit: nat)
    requires !w.failed
    ensures var after := Receive(w, record, epoch, limit);
            TakeAll(w.inbox, record, epoch, limit) == (after.inbox, !after.failed) && after.delivered == w.delivered
    decreases |record|
  {
    if record != [] {
      var p := ParseFragment(record);
      if p.Some? && !Refused(w.inbox, p.value.frag, epoch, limit) {
        ReceiveIsTakeAll(ReceiveOne(w, p.value.frag), p.value.rest, epoch, limit);
      }
    }
  }

  // ----- the invariant

  function Whole(sent: seq<Sent>, s: nat): Message
    requires s < |sent|
  {
    Message(sent[s].kind, sent[s].body, Raw(sent[s].kind, s, sent[s].body))
  }

  /** Byte i of message s is among the fragments. */
  ghost predicate Covers(log: seq<Fragment>, s: nat, i: nat) {
    exists k :: 0 <= k < |log| && log[k].seqNo == s && log[k].off <= i < log[k].off + |log[k].body|
  }

  ghost predicate Reached(log: seq<Fragment>, s: nat) {
    exists k :: 0 <= k < |log| && log[k].seqNo == s
  }

  /** All of message s is among the fragments. */
  ghost predicate Arrived(log: seq<Fragment>, sent: seq<Sent>, s: nat)
    requires s < |sent|
  {
    Reached(log, s) && forall i :: 0 <= i < |sent[s].body| ==> Covers(log, s, i)
  }

  ghost predicate SlotAgrees(slot: Slot, m: Sent) {
    && slot.kind == m.kind && slot.msgLen == |m.body|
    && forall i :: i in slot.got ==> i < |m.body| && slot.got[i] == m.body[i]
  }

  ghost predicate SlotCovers(slot: Slot, log: seq<Fragment>, s: nat) {
    forall i :: 0 <= i < slot.msgLen ==> (i in slot.got <==> Covers(log, s, i))
  }

  ghost predicate InboxAgrees(b: Inbox, sent: seq<Sent>, log: seq<Fragment>) {
    && b.readSeq <= |sent|
    && (forall s :: s in b.slots ==> b.readSeq <= s < |sent| && SlotAgrees(b.slots[s], sent[s]))
    && (forall s :: s in b.slots ==> SlotCovers(b.slots[s], log, s))
    && (forall s: nat :: b.readSeq <= s ==> (s in b.slots <==> Reached(log, s)))
  }

  ghost predicate Sound(w: World, sent: seq<Sent>) {
    && InboxAgrees(w.inbox, sent, w.log)
    && w.delivered == seq(w.inbox.readSeq, i requires 0 <= i < |sent| => Whole(sent, i))
  }

  // ----- one fragment

  lemma CoversMore(log: seq<Fragment>, f: Fragment, s: nat)
    ensures forall i: nat :: Covers(log + [f], s, i) <==>
              Covers(log, s, i) || (f.seqNo == s && f.off <= i < f.off + |f.body|)
    ensures Reached(log + [f], s) <==> Reached(log, s) || f.seqNo == s
  {
    var more := log + [f];
    assert more[|log|] == f && forall k :: 0 <= k < |log| ==> more[k] == log[k];
    forall i: nat
      ensures Covers(more, s, i) <==> Covers(log, s, i) || (f.seqNo == s && f.off <= i < f.off + |f.body|)
    {
      if Covers(log, s, i) {
        var k :| 0 <= k < |log| && log[k].seqNo == s && log[k].off <= i < log[k].off + |log[k].body|;
        assert more[k] == log[k];
      }
    }
    if Reached(log, s) {
      var k :| 0 <= k < |log| && log[k].seqNo == s;
      assert more[k] == log[k];
    }
  }

  lemma CollectAgrees(slot: Slot, f: Fragment, sent: seq<Sent>)
    requires Honest(f, sent) && SlotAgrees(slot, sent[f.seqNo])
    ensures SlotAgrees(Collect(slot, f), sent[f.seqNo])
    ensures forall i :: 0 <= i < slot.msgLen ==>
      (i in Collect(slot, f).got <==> i in slot.got || f.off <= i < f.off + |f.body|)
  {
  }

  /** An honest fragment keeps the inbox in agreement with the sender. */
  lemma {:induction false} TakeAgrees(w: World, f: Fragment, sent: seq<Sent>, epoch: nat, limit: nat)
    requires Sound(w, sent) && Honest(f, sent) && !Refused(w.inbox, f, epoch, limit)
    ensures Sound(ReceiveOne(w, f), sent)
  {
    if !Ignored(f, w.inbox.readSeq) {
      var slot := if f.seqNo in w.inbox.slots then w.inbox.slots[f.seqNo] else Slot(f.kind, f.msgLen, map[]);
      CollectAgrees(slot, f, sent);
      forall s: nat | w.inbox.readSeq <= s
        ensures s in Take(w.inbox, f).slots <==> Reached(w.log + [f], s)
        ensures s in Take(w.inbox, f).slots ==> SlotCovers(Take(w.inbox, f).slots[s], w.log + [f], s)
      {
        CoversMore(w.log, f, s);
        if s == f.seqNo && s !in w.inbox.slots {
          assert !Reached(w.log, s);
        }
      }
    }
  }

  /** Honest fragments are refused exactly when they lie seven ahead (such a fragment passes the check
      for fragments too far in the future but has no place in the ring), and in epoch 1, which has
      only one message, whenever they are not of the message being read. */
  lemma RefusedHonest(w: World, f: Fragment, sent: seq<Sent>, epoch: nat, limit: nat)
    requires Sound(w, sent) && Honest(f, sent) && Sendable(sent, limit)
    ensures Refused(w.inbox, f, epoch, limit) <==> !InTime(f, epoch, w.inbox.readSeq)
  {
  }

  ghost predicate InTime(f: Fragment, epoch: nat, readSeq: nat) {
    if epoch == 1 then f.seqNo == readSeq else f.seqNo != readSeq + 7
  }

  /** All fragments of a record come in time. */
  ghost predicate AllInTime(record: seq<byte>, epoch: nat, readSeq: nat)
    decreases |record|
  {
    record == [] ||
    var p := ParseFragment(record);
    p.Some? && InTime(p.value.frag, epoch, readSeq) && AllInTime(p.value.rest, epoch, readSeq)
  }

  // ----- runs

  /** An honest record keeps the receiver sound, and is an error exactly when some fragment does not
      come in time. */
  lemma {:induction false} ReceiveSound(w: World, record: seq<byte>, sent: seq<Sent>, epoch: nat, limit: nat)
    requires Sound(w, sent) && HonestRecord(record, sent) && Sendable(sent, limit)
    ensures Sound(Receive(w, record, epoch, limit), sent)
    ensures Receive(w, record, epoch, limit).failed <==> w.failed || !AllInTime(record, epoch, w.inbox.readSeq)
    decreases |record|
  {
    hide InboxAgrees, Honest, Refused, Sendable, InTime, Take, Whole;
    if record != [] {
      var p := ParseFragment(record).value;
      RefusedHonest(w, p.frag, sent, epoch, limit);
      if !Refused(w.inbox, p.frag, epoch, limit) {
        TakeAgrees(w, p.frag, sent, epoch, limit);
        KeepsReading(w, p.frag);
        ReceiveSound(ReceiveOne(w, p.frag), p.rest, sent, epoch, limit);
      }
    }
  }

  lemma KeepsReading(w: World, f: Fragment)
    ensures ReceiveOne(w, f).inbox.readSeq == w.inbox.readSeq
  {
  }

  /** A message is available exactly when all of it has arrived, and then it is the sender's,
      header bytes included. */
  lemma AvailableWhenArrived(w: World, sent: seq<Sent>)
    requires Sound(w, sent)
    ensures var s := w.inbox.readSeq;
            && (Available(w.inbox).Some? <==> s < |sent| && Arrived(w.log, sent, s))
            && (Available(w.inbox).Some? ==> Available(w.inbox).value == Whole(sent, s))
  {
    var s := w.inbox.readSeq;
    if s in w.inbox.slots {
      var slot := w.inbox.slots[s];
      assert SlotCovers(slot, w.log, s);
      if Complete(slot) {
        assert Body(slot) == sent[s].body;
      }
    }
  }

  /** Moving on from a message forgets its slot and nothing else. */
  lemma AdvanceAgrees(b: Inbox, sent: seq<Sent>, log: seq<Fragment>)
    requires InboxAgrees(b, sent, log) && b.readSeq < |sent| < SEQ_LIMIT
    ensures InboxAgrees(Advance(b), sent, log)
  {
    hide SlotAgrees, SlotCovers, Reached;
  }

  lemma AskSound(w: World, sent: seq<Sent>)
    requires Sound(w, sent) && |sent| < SEQ_LIMIT
    ensures Sound(Ask(w), sent)
  {
    hide InboxAgrees, Whole, Available;
    AvailableWhenArrived(w, sent);
    if Available(w.inbox).Some? {
      AdvanceAgrees(w.inbox, sent, w.log);
    }
  }

  ghost predicate HonestRun(events: seq<Event>, sent: seq<Sent>) {
    forall i :: 0 <= i < |events| && events[i].Arrives? ==> HonestRecord(events[i].record, sent)
  }

  /** In every run the messages handed over are the sender's first messages, each once, in
      order, and the next is handed over exactly when every byte of it has arrived. */
  lemma {:induction false} DeliveredInOrder(events: seq<Event>, sent: seq<Sent>, limit: nat)
    requires Sendable(sent, limit) && HonestRun(events, sent)
    ensures var w := Run(Start, events, limit);
            && Sound(w, sent)
            && |w.delivered| <= |sent|
            && (forall i :: 0 <= i < |w.delivered| ==> w.delivered[i] == Whole(sent, i))
            && (|Ask(w).delivered| > |w.delivered| <==>
                  |w.delivered| < |sent| && Arrived(w.log, sent, |w.delivered|))
    decreases |events|
  {
    hide Sound, Available, Advance, Receive, HonestRecord, Whole, Arrived;
    if events == [] {
      StartSound(sent);
    } else {
      var n := |events| - 1;
      DeliveredInOrder(events[..n], sent, limit);
      var w := Run(Start, events[..n], limit);
      match events[n]
      case Arrives(epoch, record) => ReceiveSound(w, record, sent, epoch, limit);
      case Asks => AskSound(w, sent);
    }
    SoundDelivers(Run(Start, events, limit), sent);
  }

  lemma StartSound(sent: seq<Sent>)
    ensures Sound(Start, sent)
  {
  }

  lemma SoundDelivers(w: World, sent: seq<Sent>)
    requires Sound(w, sent)
    ensures |w.delivered| <= |sent| && forall i :: 0 <= i < |w.delivered| ==> w.delivered[i] == Whole(sent, i)
    ensures |Ask(w).delivered| > |w.delivered| <==> |w.delivered| < |sent| && Arrived(w.log, sent, |w.delivered|)
  {
    hide Whole, Arrived, Available;
    AvailableWhenArrived(w, sent);
  }

  /** At some point of a run a record arrives with a fragment that does not come in time. */
  ghost predicate Spoiled(w: World, events: seq<Event>, limit: nat) {
    exists k :: 0 <= k < |events| && SpoiledAt(w, events, limit, k)
  }

  ghost predicate SpoiledAt(w: World, events: seq<Event>, limit: nat, k: nat)
    requires k < |events|
  {
    events[k].Arrives? && !AllInTime(events[k].record, events[k].epoch, Run(w, events[..k], limit).inbox.readSeq)
  }

  /** A run of honest records ends in an error exactly if that happens. */
  lemma {:induction false} FailsExactly(w: World, events: seq<Event>, sent: seq<Sent>, limit: nat)
    requires Sound(w, sent) && !w.failed && Sendable(sent, limit) && HonestRun(events, sent)
    ensures var after := Run(w, events, limit);
            Sound(after, sent) && (after.failed <==> Spoiled(w, events, limit))
    decreases |events|
  {
    hide Sound, Receive, HonestRecord, AllInTime, Ask;
    if events != [] {
      var n := |events| - 1;
      FailsExactly(w, events[..n], sent, limit);
      var before := Run(w, events[..n], limit);
      match events[n] {
        case Arrives(epoch, record) => ReceiveSound(before, record, sent, epoch, limit);
        case Asks =>
          AskSound(before, sent);
          AskNeverFails(before);
      }
      SpoiledMore(w, events, limit);
    }
  }

  lemma AskNeverFails(w: World)
    ensures Ask(w).failed == w.failed
  {
  }

  lemma SpoiledMore(w: World, events: seq<Event>, limit: nat)
    requires events != []
    ensures var n := |events| - 1;
            Spoiled(w, events, limit) <==> Spoiled(w, events[..n], limit) || SpoiledAt(w, events, limit, n)
  {
    hide Run, AllInTime;
    var n := |events| - 1;
    forall k | 0 <= k < n
      ensures SpoiledAt(w, events, limit, k) <==> SpoiledAt(w, events[..n], limit, k)
    {
      assert events[..n][..k] == events[..k];
    }
  }
}
