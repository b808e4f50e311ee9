/** What both sides of a handshake stand on: the transcript, and the flights and messages that
    travel in order. */
module HandshakeTransport {
  import opened Wrappers
  import opened HandshakeScript

  /** What a handshake waits for, or that it does not. */
  datatype Wait = Ok | Error | Flush | ReadServerHello | ReadMessage | ReadChange | Paused | EarlyReturn

  /** What the application, the certificates and the peer's bytes decide in one step: whether all
      checks on a message succeed, whether a callback wants to be asked again, what a ServerHello
      says, and so on; and, if the transport blocks, how much of a flight it takes before. */
  datatype Choice = Choice(ok: bool, retry: bool, early: bool, emptyTicket: bool, emptyChain: bool, hello: Hello,
                           blocks: Option<nat>)

  /** The checks that a side makes of its peer: those that both make; those of a client, which begin
      with what the ServerHello said; and those of a server, with whether the client's chain is empty. */
  datatype Check =
    | CipherChanged | FinishedMatched(from: Side)
    | HelloRead(hello: Hello) | CertificateRead | CertificateVerified | KeyExchangeSigned
    | ChainRead(empty: bool) | ClientVerified | ClientSigned

  /** What has happened on a connection: something was read, or queued, or a check was passed. */
  datatype Event = Got(item: Item) | Put(item: Item) | Passed(check: Check, c: Choice)

  function GotItems(h: seq<Event>): seq<Item> {
    if h == [] then []
    else GotItems(h[..|h| - 1]) + if h[|h| - 1].Got? then [h[|h| - 1].item] else []
  }

  function PutItems(h: seq<Event>): seq<Item> {
    if h == [] then []
    else PutItems(h[..|h| - 1]) + if h[|h| - 1].Put? then [h[|h| - 1].item] else []
  }

  /** The handshake messages of both directions, in order. */
  function Messages(h: seq<Event>): seq<Message> {
    if h == [] then []
    else
      var e := h[|h| - 1];
      Messages(h[..|h| - 1]) + if !e.Passed? && e.item.Handshake? then [e.item.m] else []
  }

  /** The history accounts for what was received and sent, and for the transcript. */
  ghost predicate Recorded(h: seq<Event>, received: seq<Item>, sent: seq<Item>, content: seq<Message>) {
    GotItems(h) == received && PutItems(h) == sent && Messages(h) == content
  }

  lemma RecordedMore(h: seq<Event>, received: seq<Item>, sent: seq<Item>, content: seq<Message>, e: Event)
    requires Recorded(h, received, sent, content)
    ensures Recorded(h + [e],
                     if e.Got? then received + [e.item] else received,
                     if e.Put? then sent + [e.item] else sent,
                     if !e.Passed? && e.item.Handshake? then content + [e.item.m] else content)
  {
    assert (h + [e])[..|h|] == h;
  }

  class SSLTranscript {
    var buffer: Option<seq<Message>>
    var hash: Option<seq<Message>>

    /** Buffer and rolling hash, as far as they exist, have seen the same messages. */
    ghost predicate Valid()
      reads this
    {
      (buffer.Some? || hash.Some?) && (buffer.Some? && hash.Some? ==> buffer == hash)
    }

    ghost function Content(): seq<Message>
      requires Valid()
      reads this
    {
      if buffer.Some? then buffer.value else hash.value
    }

    constructor Init()
      ensures Valid() && buffer == Some([]) && hash == None
    {
      buffer, hash := Some([]), None;
    }

    method InitHash()
      requires Valid() && buffer.Some?
      modifies this
      ensures Valid() && buffer == old(buffer) && hash == old(buffer)
    {
      hash := Some(buffer.value);
    }

    method FreeBuffer()
      requires Valid() && hash.Some?
      modifies this
      ensures Valid() && Content() == old(Content()) && hash == old(hash) && buffer == None
    {
      buffer := None;
    }

    method Update(m: Message)
      requires Valid()
      modifies this
      ensures Valid() && Content() == old(Content()) + [m]
      ensures (buffer.Some? <==> old(buffer).Some?) && (hash.Some? <==> old(hash).Some?)
    {
      if buffer.Some? {
        buffer := Some(buffer.value + [m]);
      }
      if hash.Some? {
        hash := Some(hash.value + [m]);
      }
    }
  }

  /** The parts of an SSL connection that a handshake uses.  `received` is everything consumed,
      `sent` everything queued, `gone` what has left for the peer, and `history` what happened. */
  class Connection {
    const transcript: SSLTranscript
    const side: Side
    var inbox: seq<Item>
    var flight: seq<Item>
    var outbox: seq<Item>
    ghost var received: seq<Item>
    ghost var sent: seq<Item>
    ghost var gone: seq<Item>
    ghost var history: seq<Event>

    ghost predicate Valid()
      reads this, transcript
    {
      && transcript.Valid() && sent == gone + outbox + flight
      && Recorded(history, received, sent, transcript.Content())
    }

    /** The connection is through with the places before `n`, with exactly their messages in the
        transcript, and the peer keeps to the script. */
    ghost predicate OnScript(p: Params, n: nat)
      requires Valid()
      reads this, transcript
    {
      && n <= End(p.hello.resumed)
      && transcript.Content() == Transcript(p, n)
      && received == Sent(p, side.Peer(), n) && sent == Sent(p, side, n)
      && received + inbox <= All(p, side.Peer())
    }

    constructor (side: Side)
      ensures Valid() && fresh(transcript) && this.side == side && transcript.hash == None
      ensures transcript.buffer == Some([])
      ensures inbox == [] && flight == [] && outbox == [] && received == [] && sent == [] && gone == []
      ensures history == []
    {
      transcript := new SSLTranscript.Init();
      this.side := side;
      inbox, flight, outbox, received, sent, gone, history := [], [], [], [], [], [], [];
    }

    /** Everything that has arrived. */
    ghost function Seen(): seq<Item>
      reads this`received, this`inbox
    {
      received + inbox
    }

    /** get_message. */
    function GetMessage(): Option<Message>
      reads this`inbox
    {
      if inbox != [] && inbox[0].Handshake? then Some(inbox[0].m) else None
    }

    /** Reading a message: ssl_hash_message, and next_message once it has been processed. */
    method Read(ghost p: Params, ghost n: nat)
      requires Valid() && GetMessage().Some?
      modifies this`inbox, this`received, this`history, transcript
      ensures Valid() && inbox == old(inbox)[1..] && received == old(received) + [old(inbox)[0]]
      ensures history == old(history) + [Got(old(inbox)[0])]
      ensures Seen() == old(Seen())
      ensures transcript.Content() == old(transcript.Content()) + [old(GetMessage()).value]
      ensures (transcript.buffer.Some? <==> old(transcript.buffer).Some?)
      ensures (transcript.hash.Some? <==> old(transcript.hash).Some?)
      ensures old(OnScript(p, n)) && Comes(p, side.Peer(), n, old(inbox)[0]) ==> OnScript(p, n + 1)
    {
      hide Recorded;
      var m := inbox[0].m;
      RecordedMore(history, received, sent, transcript.Content(), Got(inbox[0]));
      history := history + [Got(inbox[0])];
      transcript.Update(m);
      assert received + inbox == received + [inbox[0]] + inbox[1..];
      received := received + [inbox[0]];
      inbox := inbox[1..];
    }

    /** The transcript's buffer is hashed from here on. */
    method InitHash(ghost p: Params, ghost n: nat)
      requires Valid() && transcript.buffer.Some?
      modifies transcript
      ensures Valid() && transcript.buffer.Some? && transcript.hash.Some?
      ensures transcript.Content() == old(transcript.Content()) && (old(OnScript(p, n)) ==> OnScript(p, n))
    {
      transcript.InitHash();
    }

    /** The transcript's buffer is given up. */
    method FreeBuffer(ghost p: Params, ghost n: nat)
      requires Valid() && transcript.hash.Some?
      modifies transcript
      ensures Valid() && transcript.buffer.None? && transcript.hash == old(transcript.hash)
      ensures transcript.Content() == old(transcript.Content()) && (old(OnScript(p, n)) ==> OnScript(p, n))
    {
      transcript.FreeBuffer();
    }

    /** It is given up unless it is still needed. */
    method KeepBuffer(needed: bool, ghost p: Params, ghost n: nat)
      requires Valid() && transcript.hash.Some? && transcript.buffer.Some?
      modifies transcript
      ensures Valid() && transcript.buffer.Some? == needed && transcript.hash == old(transcript.hash)
      ensures transcript.Content() == old(transcript.Content()) && (old(OnScript(p, n)) ==> OnScript(p, n))
    {
      if !needed {
        FreeBuffer(p, n);
      }
    }

    /** add_message. */
    method Add(m: Message, ghost p: Params, ghost n: nat)
      requires Valid()
      modifies this`flight, this`sent, this`history, transcript
      ensures history == old(history) + [Put(Handshake(m))]
      ensures Valid() && flight == old(flight) + [Handshake(m)] && sent == old(sent) + [Handshake(m)]
      ensures (transcript.buffer.Some? <==> old(transcript.buffer).Some?)
      ensures (transcript.hash.Some? <==> old(transcript.hash).Some?)
      ensures transcript.Content() == old(transcript.Content()) + [m]
      ensures old(OnScript(p, n)) && Comes(p, side, n, Handshake(m)) ==> OnScript(p, n + 1)
    {
      hide Recorded;
      RecordedMore(history, received, sent, transcript.Content(), Put(Handshake(m)));
      history := history + [Put(Handshake(m))];
      transcript.Update(m);
      flight, sent := flight + [Handshake(m)], sent + [Handshake(m)];
    }

    /** add_change_cipher_spec. */
    method AddChange(ghost p: Params, ghost n: nat)
      requires Valid()
      modifies this`flight, this`sent, this`history
      ensures history == old(history) + [Put(ChangeCipherSpec)]
      ensures Valid() && flight == old(flight) + [ChangeCipherSpec] && sent == old(sent) + [ChangeCipherSpec]
      ensures old(OnScript(p, n)) && Comes(p, side, n, ChangeCipherSpec) ==> OnScript(p, n + 1)
    {
      hide Recorded;
      RecordedMore(history, received, sent, transcript.Content(), Put(ChangeCipherSpec));
      history := history + [Put(ChangeCipherSpec)];
      flight, sent := flight + [ChangeCipherSpec], sent + [ChangeCipherSpec];
    }

    /** flush_flight.  A transport that blocks may have taken a part of the flight, or all of it. */
    method FlushFlight(blocks: Option<nat>, ghost p: Params, ghost n: nat) returns (done: bool)
      requires Valid()
      modifies this`flight, this`outbox
      ensures Valid() && (old(OnScript(p, n)) ==> OnScript(p, n))
      ensures outbox + flight == old(outbox) + old(flight) && old(outbox) <= outbox
      ensures (done <==> blocks.None?) && (done ==> flight == [])
    {
      var k := if blocks.Some? && blocks.value < |flight| then blocks.value else |flight|;
      hide Recorded;
      Regroup(gone, outbox, flight, k);
      outbox, flight := outbox + flight[..k], flight[k..];
      done := blocks.None?;
    }

    /** The ChangeCipherSpec at the head of the inbox is taken. */
    method TakeChange(ghost p: Params, ghost n: nat)
      requires Valid() && inbox != [] && inbox[0].ChangeCipherSpec?
      modifies this`inbox, this`received, this`history
      ensures Valid() && inbox == old(inbox)[1..] && received == old(received) + [ChangeCipherSpec]
      ensures history == old(history) + [Got(ChangeCipherSpec)]
      ensures Seen() == old(Seen())
      ensures old(OnScript(p, n)) && Comes(p, side.Peer(), n, ChangeCipherSpec) ==> OnScript(p, n + 1)
    {
      hide Recorded;
      RecordedMore(history, received, sent, transcript.Content(), Got(ChangeCipherSpec));
      history := history + [Got(ChangeCipherSpec)];
      assert received + inbox == received + [inbox[0]] + inbox[1..];
      received := received + [inbox[0]];
      inbox := inbox[1..];
    }

    /** A check has been passed. */
    ghost method Pass(check: Check, c: Choice, p: Params, n: nat)
      requires Valid()
      modifies this`history
      ensures Valid() && history == old(history) + [Passed(check, c)]
      ensures Seen() == old(Seen()) && (old(OnScript(p, n)) ==> OnScript(p, n))
    {
      hide Recorded;
      RecordedMore(history, received, sent, transcript.Content(), Passed(check, c));
      history := history + [Passed(check, c)];
    }

    /** A place where nothing is sent. */
    lemma Skip(p: Params, n: nat)
      requires Valid() && OnScript(p, n) && n < End(p.hello.resumed) && !Here(p, n)
      ensures OnScript(p, n + 1)
    {
    }

    /** What is at the head of the inbox of a connection on the script. */
    lemma Head(p: Params, n: nat) returns (k: nat)
      requires Valid() && OnScript(p, n) && inbox != []
      ensures n <= k < End(p.hello.resumed) && SendsAt(p, side.Peer(), k) && inbox[0] == ItemAt(p, k)
      ensures forall j :: n <= j < k ==> !SendsAt(p, side.Peer(), j)
    {
      k := NextFrom(p, side.Peer(), n, inbox);
    }
  }

  /** What one side has flushed reaches the other. */
  method Deliver(from: Connection, to: Connection, ghost p: Params, ghost n: nat, ghost m: nat)
    requires from.Valid() && to.Valid() && from != to && to.side == from.side.Peer()
    requires from.gone == to.received + to.inbox
    modifies from`outbox, from`gone, to`inbox
    ensures from.Valid() && to.Valid() && from.gone == to.received + to.inbox && from.outbox == []
    ensures old(from.inbox) == from.inbox && (old(from.OnScript(p, n)) ==> from.OnScript(p, n))
    ensures old(from.OnScript(p, n)) && old(to.OnScript(p, m)) ==> to.OnScript(p, m)
    ensures to.inbox == old(to.inbox) + old(from.outbox)
  {
    if from.OnScript(p, n) {
      SentPrefix(p, from.side, n, End(p.hello.resumed));
    }
    MoveOver(to.received, to.inbox, from.outbox, from.flight, from.gone);
    to.inbox := to.inbox + from.outbox;
    from.gone := from.gone + from.outbox;
    from.outbox := [];
  }

  lemma MoveOver(received: seq<Item>, inbox: seq<Item>, outbox: seq<Item>, flight: seq<Item>, gone: seq<Item>)
    requires gone == received + inbox
    ensures gone + outbox == received + (inbox + outbox)
    ensures gone + outbox + [] + flight == gone + outbox + flight
    ensures gone + outbox <= gone + outbox + flight
  {
  }

  lemma Regroup(gone: seq<Item>, outbox: seq<Item>, flight: seq<Item>, k: nat)
    requires k <= |flight|
    ensures outbox + flight[..k] + flight[k..] == outbox + flight
    ensures gone + (outbox + flight[..k]) + flight[k..] == gone + outbox + flight
  {
    assert flight[..k] + flight[k..] == flight;
    assert outbox + flight[..k] + flight[k..] == outbox + (flight[..k] + flight[k..]);
    assert gone + (outbox + flight[..k]) + flight[k..] == gone + outbox + (flight[..k] + flight[k..]);
  }

  predicate Reading(wait: Wait) {
    wait == Wait.ReadServerHello || wait == ReadMessage
  }

  /** A place at which nothing is sent. */
  lemma SkipIn(conn: Connection, p: Params, n: nat)
    requires conn.Valid()
    ensures conn.OnScript(p, n) && n < End(p.hello.resumed) && !Here(p, n) ==> conn.OnScript(p, n + 1)
  {
    if conn.OnScript(p, n) && n < End(p.hello.resumed) && !Here(p, n) {
      conn.Skip(p, n);
    }
  }

  // ----- snapshots of the transcript

  /** The transcripts over which a side computed its own Finished, checked its peer's, and signed
      or verified the client's CertificateVerify. */
  datatype Snapshots = Snapshots(sent: Option<seq<Message>>, checked: Option<seq<Message>>,
                                 signed: Option<seq<Message>>)

  function FinishedPlace(p: Params, side: Side): nat {
    if p.hello.resumed then (if side.Client? then 8 else 4) else if side.Client? then 13 else 16
  }

  /** At place `n`, exactly those have been taken whose messages are behind, and they are those of
      the script. */
  ghost predicate SnapshotsOk(p: Params, side: Side, n: nat, s: Snapshots) {
    && s.sent == (if n > FinishedPlace(p, side) then Some(Transcript(p, FinishedPlace(p, side))) else None)
    && s.checked == (if n > FinishedPlace(p, side.Peer()) then Some(Transcript(p, FinishedPlace(p, side.Peer())))
                     else None)
    && s.signed == (if n > 9 && SignsAt9(p) then Some(Transcript(p, 9)) else None)
  }

  /** The client signs the transcript in a CertificateVerify. */
  predicate SignsAt9(p: Params) {
    !p.hello.resumed && RequestsCertificate(p) && p.clientHasCertificate
  }

  /** No snapshot is due from place `n` to place `m`. */
  ghost predicate NoneDue(p: Params, n: nat, m: nat) {
    && n <= m
    && (n > FinishedPlace(p, Client) || m <= FinishedPlace(p, Client))
    && (n > FinishedPlace(p, Server) || m <= FinishedPlace(p, Server))
    && (n > 9 || m <= 9 || !SignsAt9(p))
  }

  lemma SnapshotsStay(p: Params, side: Side, s: Snapshots, n: nat, m: nat)
    ensures NoneDue(p, n, m) && SnapshotsOk(p, side, n, s) ==> SnapshotsOk(p, side, m, s)
  {
  }

  /** A Finished is sent, or checked, or a CertificateVerify is signed or verified. */
  lemma SnapshotTaken(p: Params, side: Side, s: Snapshots, n: nat, over: seq<Message>)
    requires n <= End(p.hello.resumed) && over == Transcript(p, n) && SnapshotsOk(p, side, n, s)
    ensures n == FinishedPlace(p, side) ==> SnapshotsOk(p, side, n + 1, s.(sent := Some(over)))
    ensures n == FinishedPlace(p, side.Peer()) ==> SnapshotsOk(p, side, n + 1, s.(checked := Some(over)))
    ensures n == 9 && SignsAt9(p) ==> SnapshotsOk(p, side, n + 1, s.(signed := Some(over)))
  {
  }

  lemma SnapshotOf(conn: Connection, p: Params, n: nat)
    requires conn.Valid()
    ensures conn.OnScript(p, n) && conn.transcript.hash.Some? ==>
      n <= End(p.hello.resumed) && conn.transcript.hash.value == Transcript(p, n)
    ensures conn.OnScript(p, n) && conn.transcript.buffer.Some? ==>
      n <= End(p.hello.resumed) && conn.transcript.buffer.value == Transcript(p, n)
  {
  }

  // ----- waiting

  /** The first thing to be sent at place `n` or later is the peer's. */
  ghost predicate PeersTurn(p: Params, side: Side, n: nat) {
    exists k :: n <= k < End(p.hello.resumed) && SendsAt(p, side.Peer(), k)
                && forall j :: n <= j < k ==> !SendsAt(p, side, j)
  }

  /** It is not the peer's turn for both sides, when everything sent has been received. */
  lemma NotBothPeersTurn(p: Params, client: nat, server: nat)
    requires client <= End(p.hello.resumed) && server <= End(p.hello.resumed)
    requires Sent(p, Server, client) == Sent(p, Server, server) && Sent(p, Client, client) == Sent(p, Client, server)
    ensures !(PeersTurn(p, Client, client) && PeersTurn(p, Server, server))
    ensures client == End(p.hello.resumed) ==> !PeersTurn(p, Server, server)
    ensures server == End(p.hello.resumed) ==> !PeersTurn(p, Client, client)
  {
    hide PlaceAt, ItemAt;
    var low, high := if client <= server then client else server, if client <= server then server else client;
    SentPrefix(p, Server, low, high);
    SentPrefix(p, Client, low, high);
  }
}
