/** The whole way of a flight: the datagrams a sender got accepted, opened by a reader with matching
    keys through its replay window, hand over the flight's messages. */
module Datagrams {
  import opened Wrappers
  import opened Wire
  import opened NetworkOrder
  import opened HandshakeFragments
  import opened Reassembly
  import opened Delivery
  import opened Flight
  import opened FlightDelivery
  import R = ReplayWindow

  /** What a record holds once it is opened. */
  datatype Plaintext = Plaintext(kind: byte, content: seq<byte>)

  // ----- opening datagrams

  ghost function OpenFirst(v: R.View, data: seq<byte>): seq<Plaintext> {
    var rec := R.ParseRecord(data);
    if R.Accepts(v, data).Some? then [Plaintext(rec.value.kind, R.Decrypted(v, rec.value).value)] else []
  }

  /** The records of a datagram, one after the other. */
  ghost function OpenAll(v: R.View, data: seq<byte>): (R.View, seq<Plaintext>)
    decreases |data|
  {
    if v.closed || data == [] then (v, [])
    else
      var (after, more) := OpenAll(R.After(v, R.Accepts(v, data)), data[R.Consumes(v, data)..]);
      (after, OpenFirst(v, data) + more)
  }

  ghost function OpenRun(v: R.View, datagrams: seq<seq<byte>>): (R.View, seq<Plaintext>)
    decreases |datagrams|
  {
    if datagrams == [] then (v, [])
    else
      var (next, first) := OpenAll(v, datagrams[0]);
      var (after, more) := OpenRun(next, datagrams[1..]);
      (after, first + more)
  }

  // ----- sender and reader

  function SequenceOf(p: Plain): seq<byte> {
    Sequence(p.epoch, p.number)
  }

  /** The reader's keys undo the sender's, which do not make anything shorter. */
  ghost predicate Matching(k: Keying, v: R.View) {
    && k.current.version < 65536 && R.VersionOk(v.keys, k.current.version)
    && forall p: Plain :: p.epoch == v.epoch && Ciphertext(k, p).Some? ==>
         var ct := Ciphertext(k, p).value;
         |p.content| <= |ct| && v.keys.open(p.kind, k.current.version, SequenceOf(p), ct) == Some(p.content)
  }

  /** Every record ever sealed, none of them under the number of another. */
  ghost predicate Ledger(ledger: seq<Plain>) {
    && NumbersOnce(ledger)
    && forall i :: 0 <= i < |ledger| ==> ledger[i].epoch < 65536 && ledger[i].number < NUMBER_LIMIT
  }

  /** A record that authenticates is one that was sealed. */
  ghost predicate Sealed(v: R.View, rec: R.Record, ledger: seq<Plain>)
    requires |rec.sequence| == 8
  {
    var plain := R.Decrypted(v, rec);
    BigEndian(rec.sequence[..2]) == v.epoch && plain.Some? ==>
      exists i :: 0 <= i < |ledger| && ledger[i].epoch == v.epoch && SequenceOf(ledger[i]) == rec.sequence
                  && ledger[i].kind == rec.kind && ledger[i].content == plain.value
  }

  /** Nobody but the sender makes records that authenticate. */
  ghost predicate Genuine(v: R.View, data: seq<byte>, ledger: seq<Plain>)
    decreases |data|
  {
    v.closed || data == [] ||
    (&& (R.ParseRecord(data).Some? ==> Sealed(v, R.ParseRecord(data).value, ledger))
     && Genuine(v, data[R.Consumes(v, data)..], ledger))
  }

  /** The records of the reader's epoch have numbers up to `most`. */
  ghost predicate UpTo(v: R.View, ledger: seq<Plain>, most: nat) {
    forall i :: 0 <= i < |ledger| && ledger[i].epoch == v.epoch ==> BigEndian(SequenceOf(ledger[i])) <= most
  }

  /** Some record of the ledger. */
  ghost predicate Among(ledger: seq<Plain>, epoch: nat, x: Plaintext) {
    exists i :: 0 <= i < |ledger| && ledger[i].epoch == epoch && x == Plaintext(ledger[i].kind, ledger[i].content)
  }

  /** The number `s` is that of a record of the ledger which was opened. */
  ghost predicate OpenedAs(ledger: seq<Plain>, epoch: nat, s: nat, plains: seq<Plaintext>) {
    exists i :: 0 <= i < |ledger| && ledger[i].epoch == epoch && BigEndian(SequenceOf(ledger[i])) == s
                && Plaintext(ledger[i].kind, ledger[i].content) in plains
  }

  /** The reader went from `v` to `w` by opening records of the ledger. */
  ghost predicate Opens(v: R.View, w: R.View, plains: seq<Plaintext>, ledger: seq<Plain>, most: nat) {
    && w.epoch == v.epoch && w.keys == v.keys && w.closed == v.closed && v.seen <= w.seen && w.max <= most
    && (forall x :: x in plains ==> Among(ledger, v.epoch, x))
    && (forall s :: s in w.seen && s !in v.seen ==> OpenedAs(ledger, v.epoch, s, plains))
  }

  lemma OpensNothing(v: R.View, ledger: seq<Plain>, most: nat)
    requires v.max <= most
    ensures Opens(v, v, [], ledger, most)
  {
  }

  lemma OpensMore(u: R.View, v: R.View, w: R.View, a: seq<Plaintext>, b: seq<Plaintext>, ledger: seq<Plain>, most: nat)
    requires Opens(u, v, a, ledger, most) && Opens(v, w, b, ledger, most)
    ensures Opens(u, w, a + b, ledger, most)
  {
    hide Among;
    forall s | s in w.seen && s !in u.seen
      ensures OpenedAs(ledger, u.epoch, s, a + b)
    {
      var from := if s in v.seen then a else b;
      assert OpenedAs(ledger, u.epoch, s, from);
      var i :| 0 <= i < |ledger| && ledger[i].epoch == u.epoch && BigEndian(SequenceOf(ledger[i])) == s
               && Plaintext(ledger[i].kind, ledger[i].content) in from;
      assert Plaintext(ledger[i].kind, ledger[i].content) in a + b;
    }
  }

  lemma OpensFirst(v: R.View, data: seq<byte>, ledger: seq<Plain>, most: nat)
    requires v.max <= most && UpTo(v, ledger, most)
    requires R.ParseRecord(data).Some? ==> Sealed(v, R.ParseRecord(data).value, ledger)
    ensures Opens(v, R.After(v, R.Accepts(v, data)), OpenFirst(v, data), ledger, most)
  {
    hide R.ParseRecord, SequenceOf, BigEndian;
    var s := R.Accepts(v, data);
    if s.Some? {
      var rec := R.ParseRecord(data).value;
      var plain := R.Decrypted(v, rec).value;
      var i :| 0 <= i < |ledger| && ledger[i].epoch == v.epoch && SequenceOf(ledger[i]) == rec.sequence
               && ledger[i].kind == rec.kind && ledger[i].content == plain;
      assert OpenFirst(v, data) == [Plaintext(ledger[i].kind, ledger[i].content)];
      assert Among(ledger, v.epoch, OpenFirst(v, data)[0]);
      assert OpenedAs(ledger, v.epoch, BigEndian(s.value), OpenFirst(v, data));
    }
  }

  lemma GenuineAlike(v: R.View, w: R.View, data: seq<byte>, ledger: seq<Plain>)
    requires w.epoch == v.epoch && w.keys == v.keys && w.closed == v.closed
    ensures Genuine(v, data, ledger) == Genuine(w, data, ledger)
    decreases |data|
  {
    hide R.ParseRecord, SequenceOf, BigEndian;
    if !v.closed && data != [] {
      GenuineAlike(v, w, data[R.Consumes(v, data)..], ledger);
    }
  }

  /** Whatever arrives, only records of the ledger are opened. */
  lemma {:induction false} OpensAll(v: R.View, data: seq<byte>, ledger: seq<Plain>, most: nat)
    requires v.max <= most && UpTo(v, ledger, most) && Genuine(v, data, ledger)
    ensures var (after, plains) := OpenAll(v, data); Opens(v, after, plains, ledger, most)
    decreases |data|
  {
    hide R.ParseRecord, R.After, R.Accepts, OpenFirst, Sealed, Among, OpenedAs, SequenceOf;
    if v.closed || data == [] {
      OpensNothing(v, ledger, most);
    } else {
      var next, rest := R.After(v, R.Accepts(v, data)), data[R.Consumes(v, data)..];
      OpensFirst(v, data, ledger, most);
      GenuineAlike(v, next, rest, ledger);
      OpensAll(next, rest, ledger, most);
      var (after, plains) := OpenAll(next, rest);
      OpensMore(v, next, after, OpenFirst(v, data), plains, ledger, most);
    }
  }

  ghost predicate AllGenuine(v: R.View, datagrams: seq<seq<byte>>, ledger: seq<Plain>) {
    forall i :: 0 <= i < |datagrams| ==> Genuine(v, datagrams[i], ledger)
  }

  lemma {:induction false} OpensRun(v: R.View, datagrams: seq<seq<byte>>, ledger: seq<Plain>, most: nat)
    requires v.max <= most && UpTo(v, ledger, most) && AllGenuine(v, datagrams, ledger)
    ensures var (after, plains) := OpenRun(v, datagrams); Opens(v, after, plains, ledger, most)
    decreases |datagrams|
  {
    hide Genuine, OpenAll, Among, OpenedAs, SequenceOf;
    if datagrams == [] {
      OpensNothing(v, ledger, most);
    } else {
      OpensAll(v, datagrams[0], ledger, most);
      var (next, first) := OpenAll(v, datagrams[0]);
      forall i | 0 <= i < |datagrams[1..]|
        ensures Genuine(next, datagrams[1..][i], ledger)
      {
        GenuineAlike(v, next, datagrams[i + 1], ledger);
      }
      OpensRun(next, datagrams[1..], ledger, most);
      var (after, more) := OpenRun(next, datagrams[1..]);
      OpensMore(v, next, after, first, more, ledger, most);
    }
  }

  // ----- a datagram of the sender's

  lemma Slices<T>(s: seq<T>, m: nat, n: nat)
    requires m <= n <= |s|
    ensures s[..n][..m] == s[..m] && s[m..][..n - m] == s[..n][m..] && s[m..][n - m..] == s[n..]
  {
  }

  /** The length of a record. */
  ghost function Length(k: Keying, p: Plain): nat {
    RECORD_HEADER + if Ciphertext(k, p).Some? then |Ciphertext(k, p).value| else 0
  }

  ghost predicate StandsAt(k: Keying, p: Plain, bs: seq<byte>) {
    Ciphertext(k, p).Some? && bs == RecordBytes(k, p, Ciphertext(k, p).value)
  }

  lemma PacksLast(k: Keying, bs: seq<byte>, ps: seq<Plain>)
    requires ps != []
    ensures var n, last := |bs| - Length(k, ps[|ps| - 1]), ps[|ps| - 1];
            Packs(k, bs, ps) <==> n >= 0 && StandsAt(k, last, bs[n..]) && Packs(k, bs[..n], ps[..|ps| - 1])
  {
    hide Ciphertext;
  }

  lemma {:induction false} PacksFront(k: Keying, bs: seq<byte>, ps: seq<Plain>)
    requires Packs(k, bs, ps) && ps != []
    ensures var m := Length(k, ps[0]);
            m <= |bs| && StandsAt(k, ps[0], bs[..m]) && Packs(k, bs[m..], ps[1..])
    decreases |ps|
  {
    hide Packs, StandsAt, Length;
    var front, n, m := ps[..|ps| - 1], |bs| - Length(k, ps[|ps| - 1]), Length(k, ps[0]);
    PacksLast(k, bs, ps);
    if front == [] {
      assert ps[1..] == [];
      PacksEmpty(k, bs[..n]);
      PacksEmpty(k, bs[m..]);
      assert bs[n..] == bs && bs[..m] == bs;
    } else {
      PacksFront(k, bs[..n], front);
      Slices(bs, m, n);
      assert ps[1..][..|ps| - 2] == front[1..] && ps[1..][|ps| - 2] == ps[|ps| - 1];
      PacksLast(k, bs[m..], ps[1..]);
    }
  }

  lemma PacksEmpty(k: Keying, bs: seq<byte>)
    ensures Packs(k, bs, []) <==> bs == []
  {
  }

  lemma SequenceEpoch(p: Plain)
    requires p.epoch < 65536
    ensures |SequenceOf(p)| == 8 && BigEndian(SequenceOf(p)[..2]) == p.epoch
  {
    Words();
    BytesRoundTrip(p.epoch, 2);
    assert SequenceOf(p)[..2] == Bytes(p.epoch, 2);
  }

  /** A record in front, unless it is of another epoch, is recorded once it has been opened. */
  lemma FirstRecorded(v: R.View, k: Keying, p: Plain, ct: seq<byte>, data: seq<byte>)
    requires Matching(k, v) && !v.closed && p.epoch < 65536 && Ciphertext(k, p) == Some(ct)
    requires |ct| <= R.MAX_PLAIN_LENGTH && RECORD_HEADER + |ct| <= |data|
    requires data[..RECORD_HEADER + |ct|] == RecordBytes(k, p, ct)
    requires p.epoch == v.epoch ==> v.max < BigEndian(SequenceOf(p)) + R.WINDOW
    ensures R.Consumes(v, data) == RECORD_HEADER + |ct|
    ensures p.epoch == v.epoch ==> BigEndian(SequenceOf(p)) in R.After(v, R.Accepts(v, data)).seen
  {
    hide Ciphertext, RecordBytes, BigEndian, R.ParseRecord, SequenceOf, Sequence;
    RecordReadsBack(k, p, ct, data[RECORD_HEADER + |ct|..]);
    assert data == RecordBytes(k, p, ct) + data[RECORD_HEADER + |ct|..];
    assert SequenceOf(p) == Sequence(p.epoch, p.number) by { SequenceIs(p); }
    SequenceEpoch(p);
  }

  lemma SequenceIs(p: Plain)
    ensures SequenceOf(p) == Sequence(p.epoch, p.number)
  {
  }

  /** The window is wide enough for the records of this epoch. */
  ghost predicate InWindow(v: R.View, ps: seq<Plain>, most: nat) {
    forall i :: 0 <= i < |ps| && ps[i].epoch == v.epoch ==> most < BigEndian(SequenceOf(ps[i])) + R.WINDOW
  }

  ghost predicate AllRecorded(v: R.View, ps: seq<Plain>) {
    forall i :: 0 <= i < |ps| && ps[i].epoch == v.epoch ==> BigEndian(SequenceOf(ps[i])) in v.seen
  }

  lemma {:induction false} PackedRecorded(v: R.View, data: seq<byte>, ps: seq<Plain>, k: Keying,
                                          ledger: seq<Plain>, most: nat)
    requires Packs(k, data, ps) && Matching(k, v) && !v.closed && |data| <= R.MAX_PLAIN_LENGTH
    requires v.max <= most && UpTo(v, ledger, most) && Genuine(v, data, ledger) && InWindow(v, ps, most)
    requires forall i :: 0 <= i < |ps| ==> ps[i].epoch < 65536
    ensures AllRecorded(OpenAll(v, data).0, ps)
    decreases |ps|
  {
    hide Packs, Ciphertext, RecordBytes, R.ParseRecord, R.After, R.Accepts, R.Consumes, OpenFirst, Sealed, Among,
      OpenedAs, SequenceOf, BigEndian;
    OpensAll(v, data, ledger, most);
    if ps != [] {
      PacksFront(k, data, ps);
      var p, ct := ps[0], Ciphertext(k, ps[0]).value;
      FirstRecorded(v, k, p, ct, data);
      var next, rest := R.After(v, R.Accepts(v, data)), data[R.Consumes(v, data)..];
      OpensFirst(v, data, ledger, most);
      GenuineAlike(v, next, rest, ledger);
      PackedRecorded(next, rest, ps[1..], k, ledger, most);
      OpensAll(next, rest, ledger, most);
      assert ps == [p] + ps[1..];
    }
  }

  lemma {:induction false} RunRecorded(v: R.View, datagrams: seq<seq<byte>>, i: nat, ps: seq<Plain>,
                                       k: Keying, ledger: seq<Plain>, most: nat)
    requires i < |datagrams| && Packs(k, datagrams[i], ps) && |datagrams[i]| <= R.MAX_PLAIN_LENGTH
    requires Matching(k, v) && !v.closed && v.max <= most && UpTo(v, ledger, most) && InWindow(v, ps, most)
    requires AllGenuine(v, datagrams, ledger) && forall j :: 0 <= j < |ps| ==> ps[j].epoch < 65536
    ensures AllRecorded(OpenRun(v, datagrams).0, ps)
    decreases |datagrams|
  {
    hide Packs, Ciphertext, OpenAll, Genuine, Among, OpenedAs, SequenceOf;
    var next, rest := OpenAll(v, datagrams[0]).0, datagrams[1..];
    OpensAll(v, datagrams[0], ledger, most);
    forall j | 0 <= j < |rest|
      ensures Genuine(next, rest[j], ledger)
    {
      GenuineAlike(v, next, rest[j], ledger);
    }
    OpensRun(next, rest, ledger, most);
    if i == 0 {
      PackedRecorded(v, datagrams[0], ps, k, ledger, most);
    } else {
      RunRecorded(next, rest, i - 1, ps, k, ledger, most);
    }
  }

  /** A record that was sealed, and whose number was recorded in a run, has been opened in it. */
  lemma RecordedOpened(v: R.View, w: R.View, plains: seq<Plaintext>, ledger: seq<Plain>, most: nat, p: Plain)
    requires Opens(v, w, plains, ledger, most) && Ledger(ledger) && p in ledger && p.epoch == v.epoch
    requires BigEndian(SequenceOf(p)) in w.seen && BigEndian(SequenceOf(p)) !in v.seen
    ensures Plaintext(p.kind, p.content) in plains
  {
    hide BigEndian;
    var s := BigEndian(SequenceOf(p));
    assert OpenedAs(ledger, v.epoch, s, plains);
    var i :| 0 <= i < |ledger| && ledger[i].epoch == v.epoch && BigEndian(SequenceOf(ledger[i])) == s
             && Plaintext(ledger[i].kind, ledger[i].content) in plains;
    var j :| 0 <= j < |ledger| && ledger[j] == p;
    SequencesDiffer(p.epoch, p.number, ledger[i].epoch, ledger[i].number);
    assert i == j;
  }

  lemma {:induction false} TakenAt(was: seq<seq<byte>>, now: seq<seq<byte>>, packets: seq<seq<Plain>>, k: Keying,
                                   mtu: nat)
    requires Taken(was, now, packets, k, mtu)
    ensures |now| == |was| + |packets|
    ensures forall i :: |was| <= i < |now| ==> |now[i]| <= mtu && Packs(k, now[i], packets[i - |was|])
    decreases |packets|
  {
    hide Packs;
    if packets != [] {
      var front := now[..|now| - 1];
      TakenAt(was, front, packets[..|packets| - 1], k, mtu);
      assert forall i :: |was| <= i < |front| ==> now[i] == front[i];
    }
  }

  lemma {:induction false} FlattenAt(packets: seq<seq<Plain>>, p: Plain)
    ensures p in Flatten(packets) <==> exists j :: 0 <= j < |packets| && p in packets[j]
    decreases |packets|
  {
    if packets != [] {
      FlattenAt(packets[..|packets| - 1], p);
      if j :| 0 <= j < |packets| && p in packets[j] {
        assert j < |packets| - 1 ==> p in packets[..|packets| - 1][j];
      }
    }
  }

  // ----- the whole way

  /** What `v` makes of the datagrams includes every record of its epoch that was sent in them. */
  lemma SentOpened(v: R.View, datagrams: seq<seq<byte>>, packets: seq<seq<Plain>>, k: Keying, mtu: nat,
                   was: seq<seq<byte>>, now: seq<seq<byte>>, ledger: seq<Plain>, most: nat, p: Plain)
    requires Taken(was, now, packets, k, mtu) && mtu <= R.MAX_PLAIN_LENGTH
    requires forall i :: |was| <= i < |now| ==> now[i] in datagrams
    requires Matching(k, v) && !v.closed && v.max <= most && UpTo(v, ledger, most) && AllGenuine(v, datagrams, ledger)
    requires Ledger(ledger) && AllIn(Flatten(packets), ledger)
    requires InWindow(v, Flatten(packets), most)
    requires p in Flatten(packets) && p.epoch == v.epoch && BigEndian(SequenceOf(p)) !in v.seen
    ensures Plaintext(p.kind, p.content) in OpenRun(v, datagrams).1
  {
    hide Packs, Flatten, Taken, Genuine, OpenRun, SequenceOf, BigEndian, Among, OpenedAs;
    FlattenAt(packets, p);
    TakenAt(was, now, packets, k, mtu);
    var j :| 0 <= j < |packets| && p in packets[j];
    var i :| 0 <= i < |datagrams| && datagrams[i] == now[|was| + j];
    var ps := packets[j];
    forall x | 0 <= x < |ps|
      ensures ps[x] in Flatten(packets)
    {
      FlattenAt(packets, ps[x]);
    }
    RunRecorded(v, datagrams, i, ps, k, ledger, most);
    var x :| 0 <= x < |ps| && ps[x] == p;
    OpensRun(v, datagrams, ledger, most);
    RecordedOpened(v, OpenRun(v, datagrams).0, OpenRun(v, datagrams).1, ledger, most, p);
  }

  /** The handshake data that arrives in a run of the receiver, and in opened records. */
  ghost function Arrivals(events: seq<Event>): seq<seq<byte>> {
    if events == [] then []
    else (if events[0].Arrives? then [events[0].record] else []) + Arrivals(events[1..])
  }

  ghost function HandshakeData(plains: seq<Plaintext>): seq<seq<byte>> {
    if plains == [] then []
    else (if plains[0].kind == HANDSHAKE then [plains[0].content] else []) + HandshakeData(plains[1..])
  }

  /** All that arrives does so while one epoch is read. */
  ghost predicate InEpoch(events: seq<Event>, epoch: nat) {
    forall i :: 0 <= i < |events| && events[i].Arrives? ==> events[i].epoch == epoch
  }

  lemma {:induction false} InArrivals(events: seq<Event>, epoch: nat, record: seq<byte>)
    requires InEpoch(events, epoch)
    ensures record in Arrivals(events) <==> Arrives(epoch, record) in events
    decreases |events|
  {
    if events != [] {
      InArrivals(events[1..], epoch, record);
      assert events == [events[0]] + events[1..];
    }
  }

  lemma {:induction false} InHandshakeData(plains: seq<Plaintext>, content: seq<byte>)
    ensures content in HandshakeData(plains) <==> Plaintext(HANDSHAKE, content) in plains
    decreases |plains|
  {
    if plains != [] {
      InHandshakeData(plains[1..], content);
      assert plains == [plains[0]] + plains[1..];
    }
  }

  /** What the sender ever sealed for the epoch that is read are fragments of its messages, and
      the ChangeCipherSpec where that is in order. */
  ghost predicate HonestLedger(ledger: seq<Plain>, v: R.View, sent: seq<Sent>) {
    forall i :: 0 <= i < |ledger| && ledger[i].epoch == v.epoch ==>
      if ledger[i].kind == HANDSHAKE then HonestRecord(ledger[i].content, sent)
      else ledger[i].kind == CHANGE_CIPHER_SPEC && ledger[i].content == [1] && v.keys.isNull
  }

  /** Its fragments are all of messages below `end`. */
  ghost predicate BelowLedger(ledger: seq<Plain>, epoch: nat, end: nat) {
    forall i :: 0 <= i < |ledger| && ledger[i].kind == HANDSHAKE && ledger[i].epoch == epoch ==>
      Below(ledger[i].content, end)
  }

  /** A flight that was sent completely (`packets` are the records of the datagrams the transport
      took), all of whose datagrams arrive, whatever else arrives, in whatever order and however
      often, and whenever the handshake asks.  The handshake ends in an error exactly if some
      fragment does not come in time, which in epoch 1 is every one that is not of the message being
      read, and outside epoch 1 none if all are of the window.  Without an error the messages
      handed over up to the flight's last are the sender's, in order and each once.  Nobody else
      makes records that authenticate, and no record comes a whole replay window late. */
  lemma FlightReceived(w: World, events: seq<Event>, sent: seq<Sent>, limit: nat, flight: seq<Outgoing>,
                       packets: seq<seq<Plain>>, k: Keying, mtu: nat, was: seq<seq<byte>>, now: seq<seq<byte>>,
                       ledger: seq<Plain>, v: R.View, datagrams: seq<seq<byte>>, most: nat, upto: nat)
    requires Taken(was, now, packets, k, mtu) && mtu <= R.MAX_PLAIN_LENGTH
    requires Cuts(flight, Cursor(0, 0), Flatten(packets), Cursor(|flight|, 0)) && Carries(flight, sent)
    requires Ledger(ledger) && AllIn(Flatten(packets), ledger) && HonestLedger(ledger, v, sent)
    requires forall p :: p in Flatten(packets) && p.kind == HANDSHAKE ==>
      p.epoch == v.epoch && BigEndian(SequenceOf(p)) !in v.seen
    requires forall i :: |was| <= i < |now| ==> now[i] in datagrams
    requires Matching(k, v) && !v.closed && AllGenuine(v, datagrams, ledger)
    requires v.max <= most && UpTo(v, ledger, most) && InWindow(v, Flatten(packets), most)
    requires Sound(w, sent) && !w.failed && Sendable(sent, limit)
    requires Arrivals(events) == HandshakeData(OpenRun(v, datagrams).1) && InEpoch(events, v.epoch)
    requires upto <= |sent| && upto <= w.inbox.readSeq + FLIGHT
    requires forall s: nat :: w.inbox.readSeq <= s < upto ==> InThe(flight, s)
    ensures var after := Run(w, events, limit);
            && Sound(after, sent) && (after.failed <==> Spoiled(w, events, limit))
            && (v.epoch != 1 && BelowLedger(ledger, v.epoch, w.inbox.readSeq + FLIGHT) ==> !after.failed)
            && (!after.failed && after.inbox.readSeq <= upto ==>
                  var last := AskTimes(after, upto - after.inbox.readSeq);
                  last.delivered == seq(upto, i requires 0 <= i < |sent| => Whole(sent, i)))
  {
    hide Taken, Cuts, Carries, Flatten, Genuine, OpenRun, SequenceOf, BigEndian, Sound, Run, AskTimes, InThe, UpTo,
      InWindow, Matching, Whole, Arrivals, HandshakeData, HonestRecord, Below, Among, Spoiled;
    var plains, end := OpenRun(v, datagrams).1, w.inbox.readSeq + FLIGHT;
    OpensRun(v, datagrams, ledger, most);
    forall i | 0 <= i < |events| && events[i].Arrives?
      ensures HonestRecord(events[i].record, sent)
      ensures BelowLedger(ledger, v.epoch, end) ==> Below(events[i].record, end)
    {
      InArrivals(events, v.epoch, events[i].record);
      InHandshakeData(plains, events[i].record);
      FromLedger(ledger, v.epoch, Plaintext(HANDSHAKE, events[i].record));
    }
    forall i | 0 <= i < |Flatten(packets)| && Flatten(packets)[i].kind == HANDSHAKE
      ensures Arrives(v.epoch, Flatten(packets)[i].content) in events
    {
      var p := Flatten(packets)[i];
      SentOpened(v, datagrams, packets, k, mtu, was, now, ledger, most, p);
      InHandshakeData(plains, p.content);
      InArrivals(events, v.epoch, p.content);
    }
    FlightDelivered(w, events, sent, limit, flight, Flatten(packets), upto);
  }

  lemma FromLedger(ledger: seq<Plain>, epoch: nat, x: Plaintext)
    ensures Among(ledger, epoch, x) ==>
      exists i :: 0 <= i < |ledger| && ledger[i].epoch == epoch && ledger[i].kind == x.kind
        && ledger[i].content == x.content
  {
  }

  // ----- the loop that opens a datagram

  /** What has been opened, and whether a record that decrypts to too much did not put an end to it. */
  datatype Opening = Opening(view: R.View, plains: seq<Plaintext>, ok: bool)

  ghost function OpenTo(v: R.View, data: seq<byte>): Opening
    decreases |data|
  {
    if v.closed || data == [] then Opening(v, [], true)
    else if R.Oversized(v, data) then Opening(v, [], false)
    else
      var rest := OpenTo(R.After(v, R.Accepts(v, data)), data[R.Consumes(v, data)..]);
      Behind(OpenFirst(v, data), rest)
  }

  /** Where nothing sealed is too much, every datagram is opened to its end. */
  lemma {:induction false} OpensToEnd(v: R.View, data: seq<byte>, ledger: seq<Plain>)
    requires Genuine(v, data, ledger)
    requires forall i :: 0 <= i < |ledger| && ledger[i].epoch == v.epoch ==> |ledger[i].content| <= R.MAX_PLAIN_LENGTH
    ensures OpenTo(v, data) == Opening(OpenAll(v, data).0, OpenAll(v, data).1, true)
    decreases |data|
  {
    hide R.ParseRecord, SequenceOf, BigEndian;
    if !v.closed && data != [] {
      var next, rest := R.After(v, R.Accepts(v, data)), data[R.Consumes(v, data)..];
      GenuineAlike(v, next, rest, ledger);
      OpensToEnd(next, rest, ledger);
    }
  }

  ghost function Behind(plains: seq<Plaintext>, o: Opening): Opening {
    o.(plains := plains + o.plains)
  }

  lemma OversizedChangesNothing(v: R.View, data: seq<byte>)
    ensures R.Oversized(v, data) ==> R.After(v, R.Accepts(v, data)) == v
  {
  }

  lemma BehindMore(a: seq<Plaintext>, b: seq<Plaintext>, o: Opening)
    ensures Behind([], o) == o && Behind(a, Opening(o.view, [], o.ok)) == Opening(o.view, a, o.ok)
    ensures Behind(a, Behind(b, o)) == Behind(a + b, o)
  {
  }

  /** Records are opened until the datagram is used up, or one is an error. */
  method OpenDatagram(reader: R.Reader, data: seq<byte>) returns (plains: seq<Plaintext>, ok: bool)
    requires reader.Valid()
    modifies reader.bitmap
    ensures reader.Valid() && Opening(reader.Now(), plains, ok) == OpenTo(old(reader.Now()), data)
  {
    hide R.ParseRecord, R.After, R.Accepts, R.Decrypted, R.Consumes, R.Oversized;
    plains := [];
    var rest := data;
    BehindMore([], [], OpenTo(reader.Now(), rest));
    while rest != [] && !reader.closed
      invariant reader.Valid()
      invariant OpenTo(old(reader.Now()), data) == Behind(plains, OpenTo(reader.Now(), rest))
      decreases |rest|
    {
      ghost var v, was := reader.Now(), plains;
      var r, consumed := reader.OpenRecord(rest);
      if r.Error? {
        OversizedChangesNothing(v, rest);
        BehindMore(plains, [], Opening(v, [], false));
        return plains, false;
      }
      if r.Success? || r.Alert? {
        plains := plains + [Plaintext(if r.Alert? then R.ALERT else r.kind, r.plain)];
      }
      assert plains == was + OpenFirst(v, rest);
      BehindMore(was, OpenFirst(v, rest), OpenTo(reader.Now(), rest[consumed..]));
      rest := rest[consumed..];
    }
    BehindMore(plains, [], Opening(reader.Now(), [], true));
    ok := true;
  }
}
