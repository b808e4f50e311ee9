/** The order of messages of a TLS 1.0 to 1.2 handshake (section 7.3 of RFC 5246, section 3.3 of
    RFC 5077), full or resumed, and the transcript before each of them. */
module HandshakeScript {
  datatype Kind =
    | ClientHello | ServerHello | Certificate | CertificateStatus | ServerKeyExchange
    | CertificateRequest | ServerHelloDone | ClientKeyExchange | CertificateVerify
    | NextProto | ChannelId | NewSessionTicket | Finished

  /** A handshake message; `body` stands for its bytes. */
  datatype Message = Message(kind: Kind, body: nat)

  /** What travels in order from one side to the other. */
  datatype Item = Handshake(m: Message) | ChangeCipherSpec

  datatype Side = Client | Server {
    function Peer(): Side {
      if Client? then Server else Client
    }
  }

  datatype Cipher = RsaCert | EcdheCert | PlainPsk | EcdhePsk {
    predicate UsesCertificate() {
      RsaCert? || EcdheCert?
    }

    predicate RequiresServerKeyExchange() {
      EcdheCert? || EcdhePsk?
    }
  }

  /** What the ServerHello settles. */
  datatype Hello = Hello(cipher: Cipher, resumed: bool, ocsp: bool, ticket: bool, npn: bool, channelId: bool)

  /** A handshake's negotiated parameters, the server's verify mode, and the cryptography as functions
      of the transcript.  `channelIdOffered` is what the server knows of Channel ID when it decides
      whether to ask for a certificate. */
  datatype Params = Params(
    hello: Hello,
    pskHint: bool,
    verifyPeer: bool,
    unlessChannelId: bool,
    channelIdOffered: bool,
    requireCertificate: bool,
    clientHasCertificate: bool,
    make: (Kind, Side, seq<Message>) -> nat,
    mac: (seq<Message>, Side) -> nat,
    sign: seq<Message> -> nat,
    verify: (seq<Message>, nat) -> bool)

  /** Signatures verify against what was signed. */
  ghost predicate Sound(p: Params) {
    forall t :: p.verify(t, p.sign(t))
  }

  predicate RequestsCertificate(p: Params) {
    p.verifyPeer && !(p.unlessChannelId && p.channelIdOffered) && p.hello.cipher.UsesCertificate()
  }

  predicate SendsKeyExchange(p: Params) {
    p.hello.cipher.RequiresServerKeyExchange() || (!p.hello.cipher.UsesCertificate() && p.pskHint)
  }

  /** One place in the order of messages; nothing is sent at a place that is not present. */
  datatype Place = Place(from: Side, present: bool, kind: Kind) | Change(from: Side)

  function End(resumed: bool): nat {
    if resumed then 9 else 17
  }

  function PlaceAt(p: Params, n: nat): Place
    requires n < End(p.hello.resumed)
  {
    var h := p.hello;
    if n == 0 then Place(Client, true, ClientHello)
    else if n == 1 then Place(Server, true, ServerHello)
    else if h.resumed then
      if n == 2 then Place(Server, h.ticket, NewSessionTicket)
      else if n == 3 then Change(Server)
      else if n == 4 then Place(Server, true, Finished)
      else if n == 5 then Change(Client)
      else if n == 6 then Place(Client, h.npn, NextProto)
      else if n == 7 then Place(Client, h.channelId, ChannelId)
      else Place(Client, true, Finished)
    else if n == 2 then Place(Server, h.cipher.UsesCertificate(), Certificate)
    else if n == 3 then Place(Server, h.cipher.UsesCertificate() && h.ocsp, CertificateStatus)
    else if n == 4 then Place(Server, SendsKeyExchange(p), ServerKeyExchange)
    else if n == 5 then Place(Server, RequestsCertificate(p), CertificateRequest)
    else if n == 6 then Place(Server, true, ServerHelloDone)
    else if n == 7 then Place(Client, RequestsCertificate(p), Certificate)
    else if n == 8 then Place(Client, true, ClientKeyExchange)
    else if n == 9 then Place(Client, RequestsCertificate(p) && p.clientHasCertificate, CertificateVerify)
    else if n == 10 then Change(Client)
    else if n == 11 then Place(Client, h.npn, NextProto)
    else if n == 12 then Place(Client, h.channelId, ChannelId)
    else if n == 13 then Place(Client, true, Finished)
    else if n == 14 then Place(Server, h.ticket, NewSessionTicket)
    else if n == 15 then Change(Server)
    else Place(Server, true, Finished)
  }

  predicate Here(p: Params, n: nat)
    requires n < End(p.hello.resumed)
  {
    PlaceAt(p, n).Change? || PlaceAt(p, n).present
  }

  function BodyOf(p: Params, kind: Kind, from: Side, transcript: seq<Message>): nat {
    match kind
    case Finished => p.mac(transcript, from)
    case CertificateVerify => p.sign(transcript)
    case _ => p.make(kind, from, transcript)
  }

  /** The messages of all places before `n`. */
  function Transcript(p: Params, n: nat): seq<Message>
    requires n <= End(p.hello.resumed)
  {
    if n == 0 then []
    else
      var before, place := Transcript(p, n - 1), PlaceAt(p, n - 1);
      if place.Place? && place.present
      then before + [Message(place.kind, BodyOf(p, place.kind, place.from, before))]
      else before
  }

  /** What is sent at a place. */
  function ItemAt(p: Params, n: nat): Item
    requires n < End(p.hello.resumed)
  {
    var place := PlaceAt(p, n);
    if place.Change? then ChangeCipherSpec
    else Handshake(Message(place.kind, BodyOf(p, place.kind, place.from, Transcript(p, n))))
  }

  /** What a side sends at the places before `n`. */
  function Sent(p: Params, from: Side, n: nat): seq<Item>
    requires n <= End(p.hello.resumed)
  {
    if n == 0 then []
    else Sent(p, from, n - 1) + if PlaceAt(p, n - 1).from == from && Here(p, n - 1) then [ItemAt(p, n - 1)] else []
  }

  /** Everything a side sends. */
  function All(p: Params, from: Side): seq<Item> {
    Sent(p, from, End(p.hello.resumed))
  }

  predicate SendsAt(p: Params, from: Side, n: nat)
    requires n < End(p.hello.resumed)
  {
    PlaceAt(p, n).from == from && Here(p, n)
  }

  /** An item is what a side sends at a place. */
  predicate Comes(p: Params, from: Side, n: nat, item: Item) {
    n < End(p.hello.resumed) && SendsAt(p, from, n) && item == ItemAt(p, n)
  }

  lemma {:induction false} SentPrefix(p: Params, from: Side, n: nat, m: nat)
    requires n <= m <= End(p.hello.resumed)
    ensures Sent(p, from, n) <= Sent(p, from, m)
    ensures (Sent(p, from, n) == Sent(p, from, m)) <==> forall k :: n <= k < m ==> !SendsAt(p, from, k)
    ensures |Sent(p, from, n)| == |Sent(p, from, m)| ==> Sent(p, from, n) == Sent(p, from, m)
    decreases m - n
  {
    if n < m {
      SentPrefix(p, from, n, m - 1);
      assert !SendsAt(p, from, m - 1) ==> Sent(p, from, m) == Sent(p, from, m - 1);
      assert SendsAt(p, from, m - 1) ==> |Sent(p, from, m)| == |Sent(p, from, m - 1)| + 1;
    }
  }

  /** What comes next from a side, to a reader that is through with the places before `n`. */
  lemma {:induction false} NextFrom(p: Params, from: Side, n: nat, rest: seq<Item>) returns (k: nat)
    requires n <= End(p.hello.resumed) && rest != [] && Sent(p, from, n) + rest <= All(p, from)
    ensures n <= k < End(p.hello.resumed) && SendsAt(p, from, k) && rest[0] == ItemAt(p, k)
    ensures forall j :: n <= j < k ==> !SendsAt(p, from, j)
    ensures Sent(p, from, k) == Sent(p, from, n) && Sent(p, from, k + 1) == Sent(p, from, n) + [rest[0]]
    decreases End(p.hello.resumed) - n
  {
    hide PlaceAt, ItemAt;
    SentPrefix(p, from, n, End(p.hello.resumed));
    if SendsAt(p, from, n) {
      k := n;
      SentPrefix(p, from, n + 1, End(p.hello.resumed));
      assert Sent(p, from, n + 1) == Sent(p, from, n) + [ItemAt(p, n)];
      var at := |Sent(p, from, n)|;
      assert rest[0] == (Sent(p, from, n) + rest)[at] == All(p, from)[at] == Sent(p, from, n + 1)[at];
    } else {
      k := NextFrom(p, from, n + 1, rest);
    }
  }
}
