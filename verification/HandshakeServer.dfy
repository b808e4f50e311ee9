/** The server's handshake state machine. */
module HandshakeServer {
  import opened Wrappers
  import opened HandshakeScript
  import opened HandshakeTransport
  import opened HandshakeChecks

  datatype State =
    | StartAccept | ReadClientHello | SelectCertificate | SelectParameters
    | SendServerHello | SendServerCertificate | SendServerKeyExchange | SendServerHelloDone
    | ReadClientCertificate | VerifyClientCertificate | ReadClientKeyExchange | ReadClientCertificateVerify
    | ReadChangeCipherSpec | ProcessChangeCipherSpec | ReadNextProto | ReadChannelId | ReadClientFinished
    | SendServerFinished | FinishServerHandshake | Done

  /** Where a state stands in the order of states, which depends on resumption. */
  function Pos(state: State, resumed: bool): nat {
    match state
    case StartAccept => 0
    case ReadClientHello => 1
    case SelectCertificate => 2
    case SelectParameters => 3
    case SendServerHello => 4
    case SendServerCertificate => 5
    case SendServerKeyExchange => 6
    case SendServerHelloDone => 7
    case ReadClientCertificate => 8
    case VerifyClientCertificate => 9
    case ReadClientKeyExchange => 10
    case ReadClientCertificateVerify => 11
    case ReadChangeCipherSpec => 12
    case ProcessChangeCipherSpec => 13
    case ReadNextProto => 14
    case ReadChannelId => 15
    case ReadClientFinished => 16
    case SendServerFinished => if resumed then 5 else 17
    case FinishServerHandshake => 18
    case Done => 19
  }

  const LAST: nat := 19

  /** The first place of the script that a server in a state is not through with. */
  function PlaceOf(state: State, wait: Wait, resumed: bool): nat {
    match state
    case StartAccept => 0
    case ReadClientHello => 0
    case SelectCertificate => 0
    case SelectParameters => 0
    case SendServerHello => 1
    case SendServerCertificate => 2
    case SendServerKeyExchange => 4
    case SendServerHelloDone => 5
    case ReadClientCertificate => 7
    case VerifyClientCertificate => 8
    case ReadClientKeyExchange => 8
    case ReadClientCertificateVerify => 9
    case ReadChangeCipherSpec => if resumed then 5 else 10
    case ProcessChangeCipherSpec => (if resumed then 5 else 10) + if wait == ReadChange then 0 else 1
    case ReadNextProto => if resumed then 6 else 11
    case ReadChannelId => if resumed then 7 else 12
    case ReadClientFinished => if resumed then 8 else 13
    case SendServerFinished => if resumed then 2 else 14
    case FinishServerHandshake => if resumed then 9 else 17
    case Done => if resumed then 9 else 17
  }

  /** The state that follows. */
  function After(state: State, resumed: bool): State {
    match state
    case StartAccept => ReadClientHello
    case ReadClientHello => SelectCertificate
    case SelectCertificate => SelectParameters
    case SelectParameters => SendServerHello
    case SendServerHello => if resumed then SendServerFinished else SendServerCertificate
    case SendServerCertificate => SendServerKeyExchange
    case SendServerKeyExchange => SendServerHelloDone
    case SendServerHelloDone => ReadClientCertificate
    case ReadClientCertificate => VerifyClientCertificate
    case VerifyClientCertificate => ReadClientKeyExchange
    case ReadClientKeyExchange => ReadClientCertificateVerify
    case ReadClientCertificateVerify => ReadChangeCipherSpec
    case ReadChangeCipherSpec => ProcessChangeCipherSpec
    case ProcessChangeCipherSpec => ReadNextProto
    case ReadNextProto => ReadChannelId
    case ReadChannelId => ReadClientFinished
    case ReadClientFinished => if resumed then FinishServerHandshake else SendServerFinished
    case SendServerFinished => if resumed then ReadChangeCipherSpec else FinishServerHandshake
    case FinishServerHandshake => Done
    case Done => Done
  }

  /** States that a resumed handshake does not go through. */
  predicate OnlyInFull(state: State) {
    match state
    case SendServerCertificate => true
    case SendServerKeyExchange => true
    case SendServerHelloDone => true
    case ReadClientCertificate => true
    case VerifyClientCertificate => true
    case ReadClientKeyExchange => true
    case ReadClientCertificateVerify => true
    case _ => false
  }

  /** `t` is the state after `s`. */
  predicate Follows(s: State, t: State, resumed: bool) {
    s != Done && t == After(s, resumed) && (resumed ==> !OnlyInFull(s))
  }

  lemma AfterIsNext(s: State, t: State, resumed: bool)
    requires Follows(s, t, resumed)
    ensures Pos(t, resumed) > Pos(s, resumed) && (resumed ==> !OnlyInFull(t))
  {
  }

  // ----- what a server keeps between calls

  datatype Phase = Phase(state: State, wait: Wait, certRequest: bool, serverParams: bool, peerKey: bool) {
    function Place(p: Params): nat {
      PlaceOf(state, wait, p.hello.resumed)
    }

    predicate Early() {
      state.StartAccept? || state.ReadClientHello? || state.SelectCertificate? || state.SelectParameters?
    }

    /** The kind of message the state insists on. */
    function Wanted(p: Params): Option<Kind> {
      match state
      case ReadClientHello => Some(ClientHello)
      case SelectCertificate => Some(ClientHello)
      case SelectParameters => Some(ClientHello)
      case ReadClientCertificate => if certRequest then Some(Certificate) else None
      case ReadClientKeyExchange => Some(ClientKeyExchange)
      case ReadClientCertificateVerify => if peerKey then Some(CertificateVerify) else None
      case ReadNextProto => if p.hello.npn then Some(NextProto) else None
      case ReadChannelId => if p.hello.channelId then Some(ChannelId) else None
      case ReadClientFinished => Some(Finished)
      case _ => None
    }

    /** Nothing is to be read or written in the state, as far as the server knows. */
    predicate Empty(p: Params) {
      || (state == SendServerKeyExchange && !serverParams)
      || (state == ReadClientCertificate && !certRequest)
      || (state == ReadClientCertificateVerify && !peerKey)
      || (state == ReadNextProto && !p.hello.npn)
      || (state == ReadChannelId && !p.hello.channelId)
    }

    /** A flight is being put together. */
    predicate Sending() {
      state.SendServerCertificate? || state.SendServerKeyExchange? || state.SendServerHelloDone?
        || state.SendServerFinished?
    }

    /** A snapshot of the transcript is taken. */
    predicate Snaps() {
      state.SendServerFinished? || state.ReadClientFinished? || (state.ReadClientCertificateVerify? && peerKey)
    }

    /** The client's certificate, if it was asked for, has been read. */
    predicate KnowsPeer() {
      !Early() &&
      match state
      case SendServerHello => false
      case SendServerCertificate => false
      case SendServerKeyExchange => false
      case SendServerHelloDone => false
      case ReadClientCertificate => false
      case _ => true
    }

    /** The handshake buffer is still to be verified against, or may be. */
    predicate NeedsBuffer() {
      certRequest &&
      match state
      case SendServerHello => true
      case SendServerCertificate => true
      case SendServerKeyExchange => true
      case SendServerHelloDone => true
      case ReadClientCertificate => true
      case VerifyClientCertificate => peerKey
      case ReadClientKeyExchange => peerKey
      case ReadClientCertificateVerify => peerKey
      case _ => false
    }
  }

  // ----- the order of checks

  /** The server asks its client for a certificate. */
  predicate Asks(p: Params) {
    !p.hello.resumed && RequestsCertificate(p)
  }

  /** The checks that a server in a state has passed, in this order; `peerKey` says whether its client
      sent a certificate. */
  function Due(p: Params, state: State, peerKey: bool): seq<Check> {
    (if Asks(p) && Pos(state, false) > 8 then [ChainRead(!peerKey)] else [])
    + (if peerKey && Pos(state, false) > 9 then [ClientVerified] else [])
    + (if peerKey && Pos(state, false) > 11 then [ClientSigned] else [])
    + (if Pos(state, p.hello.resumed) > 13 then [CipherChanged] else [])
    + (if Pos(state, p.hello.resumed) > 16 then [FinishedMatched(Client)] else [])
  }

  /** The server wants a certificate of its client: its verify mode says so, no Channel ID stands in for
      one, and the handshake is a full one with a cipher that goes with certificates. */
  predicate WantsCertificate(p: Params) {
    && p.verifyPeer && !(p.unlessChannelId && p.channelIdOffered)
    && !p.hello.resumed && (p.hello.cipher == RsaCert || p.hello.cipher == EcdheCert)
  }

  // The parts of what a server reads and sends, from its parameters.

  function ChainActs(p: Params): seq<Act> {
    if p.hello.cipher != RsaCert && p.hello.cipher != EcdheCert then []
    else if p.hello.ocsp then [Sends(Some(Certificate)), Sends(Some(CertificateStatus))]
    else [Sends(Some(Certificate))]
  }

  predicate WantsExchange(p: Params) {
    p.hello.cipher == EcdheCert || p.hello.cipher == EcdhePsk || (p.hello.cipher == PlainPsk && p.pskHint)
  }

  function ExchangeActs(p: Params): seq<Act> {
    if WantsExchange(p) then [Sends(Some(ServerKeyExchange))] else []
  }

  function DoneActs(p: Params): seq<Act> {
    if WantsCertificate(p) then [Sends(Some(CertificateRequest)), Sends(Some(ServerHelloDone))]
    else [Sends(Some(ServerHelloDone))]
  }

  function ClientChainActs(p: Params): seq<Act> {
    if WantsCertificate(p) then [Reads(Some(Certificate))] else []
  }

  function SignedActs(peerKey: bool): seq<Act> {
    if peerKey then [Reads(Some(CertificateVerify))] else []
  }

  function NextProtoActs(p: Params): seq<Act> {
    if p.hello.npn then [Reads(Some(NextProto))] else []
  }

  function ChannelIdActs(p: Params): seq<Act> {
    if p.hello.channelId then [Reads(Some(ChannelId))] else []
  }

  function FinishedActs(p: Params): seq<Act> {
    if p.hello.ticket then [Sends(Some(NewSessionTicket)), Sends(None), Sends(Some(Finished))]
    else [Sends(None), Sends(Some(Finished))]
  }

  /** What a server reads and sends in a state; `peerKey` is as above. */
  function Acts(p: Params, state: State, peerKey: bool): seq<Act> {
    match state
    case SelectParameters => [Reads(Some(ClientHello))]
    case SendServerHello => [Sends(Some(ServerHello))]
    case SendServerCertificate => ChainActs(p)
    case SendServerKeyExchange => ExchangeActs(p)
    case SendServerHelloDone => DoneActs(p)
    case ReadClientCertificate => ClientChainActs(p)
    case ReadClientKeyExchange => [Reads(Some(ClientKeyExchange))]
    case ReadClientCertificateVerify => SignedActs(peerKey)
    case ReadNextProto => NextProtoActs(p)
    case ReadChannelId => ChannelIdActs(p)
    case ReadClientFinished => [Reads(Some(Finished))]
    case SendServerFinished => FinishedActs(p)
    case _ => []
  }

  /** What it waits for behind a state, and has read before the next begins. */
  function Awaited(state: State): seq<Act> {
    if state.ProcessChangeCipherSpec? then [Reads(None)] else []
  }

  /** What was read and sent when a state is reached. */
  function Past(p: Params, state: State, peerKey: bool): seq<Act>
    decreases Pos(state, p.hello.resumed)
  {
    if state == StartAccept then []
    else
      var before := Before(state, p.hello.resumed);
      Past(p, before, peerKey) + Awaited(before) + Acts(p, before, peerKey)
  }

  /** The state before. */
  function Before(state: State, resumed: bool): (s: State)
    requires state != StartAccept
    ensures Pos(s, resumed) < Pos(state, resumed)
  {
    match state
    case ReadClientHello => StartAccept
    case SelectCertificate => ReadClientHello
    case SelectParameters => SelectCertificate
    case SendServerHello => SelectParameters
    case SendServerCertificate => SendServerHello
    case SendServerKeyExchange => SendServerCertificate
    case SendServerHelloDone => SendServerKeyExchange
    case ReadClientCertificate => SendServerHelloDone
    case VerifyClientCertificate => ReadClientCertificate
    case ReadClientKeyExchange => VerifyClientCertificate
    case ReadClientCertificateVerify => ReadClientKeyExchange
    case ReadChangeCipherSpec => if resumed then SendServerFinished else ReadClientCertificateVerify
    case ProcessChangeCipherSpec => ReadChangeCipherSpec
    case ReadNextProto => ProcessChangeCipherSpec
    case ReadChannelId => ReadNextProto
    case ReadClientFinished => ReadChannelId
    case SendServerFinished => if resumed then SendServerHello else ReadClientFinished
    case FinishServerHandshake => if resumed then ReadClientFinished else SendServerFinished
    case Done => FinishServerHandshake
  }

  function TraceAt(p: Params, v: Phase): seq<Act> {
    Past(p, v.state, v.peerKey) + if v.wait != ReadChange then Awaited(v.state) else []
  }

  /** The checks passed in a history are those due, and what was read and sent is what leads to
      where the server is. */
  ghost predicate Kept(p: Params, h: seq<Event>, v: Phase) {
    InOrder(p, h, Due(p, v.state, v.peerKey)) && Trace(h) == TraceAt(p, v)
  }

  /** The state that makes a check; none makes those of the client. */
  function StateOf(check: Check): State {
    match check
    case ChainRead(_) => ReadClientCertificate
    case ClientVerified => VerifyClientCertificate
    case ClientSigned => ReadClientCertificateVerify
    case CipherChanged => ProcessChangeCipherSpec
    case FinishedMatched(from) => if from.Client? then ReadClientFinished else Done
    case _ => Done
  }

  /** What was passed in between was decided by `choose`. */
  ghost predicate Decided(was: seq<Event>, now: seq<Event>, choose: State -> Choice) {
    was <= now && forall i :: |was| <= i < |now| && now[i].Passed? ==> now[i].c == choose(StateOf(now[i].check))
  }

  /** What was passed in between is the state's check, decided by `c`. */
  ghost predicate DecidedIn(was: seq<Event>, now: seq<Event>, state: State, c: Choice) {
    was <= now && forall i :: |was| <= i < |now| && now[i].Passed? ==> now[i].c == c && StateOf(now[i].check) == state
  }

  /** A state makes no check, or not of this client. */
  predicate Unchecked(v: Phase) {
    match v.state
    case ReadClientCertificate => !v.certRequest
    case VerifyClientCertificate => !v.peerKey
    case ReadClientCertificateVerify => !v.peerKey
    case ProcessChangeCipherSpec => false
    case ReadClientFinished => false
    case _ => true
  }

  /** State, parameters and transcript fit together: the handshake buffer is there as long as it may
      be read, and a flight is flushed before anything is read. */
  ghost predicate Fits(p: Params, v: Phase, buffer: bool, idle: bool) {
    && (v.NeedsBuffer() && v.wait != Error ==> buffer) && (p.hello.resumed ==> !OnlyInFull(v.state))
    && v.certRequest == (!v.Early() && Asks(p)) && (v.peerKey ==> v.certRequest && v.KnowsPeer())
    && (v.certRequest && p.requireCertificate && v.KnowsPeer() && v.wait != Error ==> v.peerKey)
    && (v.wait == Flush || v.Sending() || idle)
    && (Reading(v.wait) ==> v.Wanted(p).Some?)
    && (v.wait == ReadChange ==> v.state == ProcessChangeCipherSpec)
    && (v.state == SendServerKeyExchange ==> v.serverParams == SendsKeyExchange(p))
  }

  /** What the server knows of the negotiated parameters, and of its client, is right. */
  ghost predicate Knows(p: Params, v: Phase) {
    && (!v.Early() && !p.hello.resumed ==> v.certRequest == RequestsCertificate(p))
    && (v.KnowsPeer() && !p.hello.resumed ==> v.peerKey == (RequestsCertificate(p) && p.clientHasCertificate))
  }

  /** A state leads to the one after it, and waits for nothing but a flush or a ChangeCipherSpec. */
  predicate Leads(p: Params, v: Phase, w: Phase) {
    && v.wait == Ok && Follows(v.state, w.state, p.hello.resumed)
    && (if w.state == ProcessChangeCipherSpec then w.wait == ReadChange else w.wait == Ok || w.wait == Flush)
    && w.certRequest == (if v.state == SelectParameters then Asks(p) else v.certRequest)
    && (if v.state == ReadClientCertificate then
          (w.peerKey ==> v.certRequest) && (v.certRequest && p.requireCertificate ==> w.peerKey)
        else w.peerKey == v.peerKey)
    && (v.state == SendServerCertificate ==> w.serverParams == SendsKeyExchange(p))
  }

  lemma LeadsFits(p: Params, v: Phase, w: Phase, buffer: bool, idle: bool, buffer': bool, idle': bool)
    requires Fits(p, v, buffer, idle) && Leads(p, v, w)
    requires (buffer == buffer' && v.state != SelectParameters) || !w.NeedsBuffer() || buffer'
    requires (idle' == idle && !v.Sending()) || w.wait == Flush || w.Sending()
    ensures Fits(p, w, buffer', idle')
  {
  }

  lemma LeadsKnows(p: Params, v: Phase, w: Phase)
    requires Leads(p, v, w) && (v.certRequest ==> !p.hello.resumed)
    ensures Knows(p, v)
            && (v.state == ReadClientCertificate ==>
                  w.peerKey == (RequestsCertificate(p) && p.clientHasCertificate)) ==>
      Knows(p, w)
  {
  }

  /** A state comes to rest: it fails, or is to be tried again, or waits for its message. */
  lemma Rests(p: Params, v: Phase, buffer: bool, idle: bool, wait: Wait)
    requires Fits(p, v, buffer, idle) && v.wait == Ok
    requires wait == Error || wait == Paused || (Reading(wait) && v.Wanted(p).Some?)
    ensures Fits(p, v.(wait := wait), buffer, idle) && (Knows(p, v) ==> Knows(p, v.(wait := wait)))
  {
  }

  /** A step fails, whatever has become of the buffer. */
  lemma Fails(p: Params, v: Phase, buffer: bool, buffer': bool, idle: bool)
    requires Fits(p, v, buffer, idle) && v.wait == Ok
    ensures Fits(p, v.(wait := Error), buffer', idle)
  {
  }

  /** A state that waited for anything but a flush goes on, or fails. */
  lemma Resumes(p: Params, v: Phase, buffer: bool, idle: bool)
    requires Fits(p, v, buffer, idle) && v.wait != Flush && v.wait != Error
    ensures Fits(p, v.(wait := Ok), buffer, idle) && Fits(p, v.(wait := Error), buffer, idle)
    ensures Knows(p, v) ==> Knows(p, v.(wait := Ok))
    ensures v.wait == ReadChange ==> v.state == ProcessChangeCipherSpec
  {
  }

  /** One that waited for a flush goes on with nothing left to be flushed. */
  lemma Flushes(p: Params, v: Phase, buffer: bool, idle: bool)
    requires Fits(p, v, buffer, idle) && v.wait == Flush
    ensures Fits(p, v.(wait := Ok), buffer, true) && Fits(p, v, buffer, true) && Fits(p, v, buffer, false)
    ensures Knows(p, v) ==> Knows(p, v.(wait := Ok))
  {
  }

  lemma DueSame(p: Params, v: Phase, w: Phase)
    requires Leads(p, v, w) && Unchecked(v) && v.certRequest == (!v.Early() && Asks(p))
    requires v.peerKey ==> v.certRequest && v.KnowsPeer()
    ensures Due(p, w.state, w.peerKey) == Due(p, v.state, v.peerKey)
  {
  }

  lemma DueNext(p: Params, check: Check, v: Phase, w: Phase)
    requires Leads(p, v, w) && v.state == StateOf(check) && !Unchecked(v)
      && (check.ChainRead? ==> check.empty == !w.peerKey)
    requires v.certRequest == (!v.Early() && Asks(p)) && (v.peerKey ==> v.certRequest && v.KnowsPeer())
    ensures Due(p, w.state, w.peerKey) == Due(p, v.state, v.peerKey) + [check]
  {
  }

  /** Going on is having done what the state does. */
  lemma PastNext(p: Params, v: Phase, w: Phase)
    requires Leads(p, v, w) && v.wait == Ok && (p.hello.resumed ==> !OnlyInFull(w.state))
    ensures TraceAt(p, w) == TraceAt(p, v) + Acts(p, v.state, v.peerKey)
  {
    hide Acts;
    assert w.state != StartAccept && Before(w.state, p.hello.resumed) == v.state;
    if v.peerKey != w.peerKey {
      PastSame(p, v.state, v.peerKey, w.peerKey);
      SameActs(p, v.state, v.peerKey, w.peerKey);
    }
  }

  lemma SameActs(p: Params, state: State, peerKey: bool, other: bool)
    requires state != ReadClientCertificateVerify
    ensures Acts(p, state, peerKey) == Acts(p, state, other)
  {
  }

  lemma {:induction false} PastSame(p: Params, state: State, peerKey: bool, other: bool)
    requires Pos(state, false) <= 8
    ensures Past(p, state, peerKey) == Past(p, state, other)
    decreases Pos(state, false)
  {
    hide Acts;
    if state != StartAccept {
      PastSame(p, Before(state, p.hello.resumed), peerKey, other);
      SameActs(p, Before(state, p.hello.resumed), peerKey, other);
    }
  }

  /** Waiting, but for a ChangeCipherSpec, changes nothing. */
  lemma KeptWaiting(p: Params, h: seq<Event>, v: Phase, w: Wait)
    requires Kept(p, h, v) && v.wait != ReadChange && w != ReadChange
    ensures Kept(p, h, v.(wait := w))
  {
  }

  /** When it comes it is what the server waited for. */
  lemma KeptChange(p: Params, h: seq<Event>, v: Phase)
    requires Kept(p, h, v) && v.wait == ReadChange && v.state == ProcessChangeCipherSpec
    ensures Kept(p, h + [Got(ChangeCipherSpec)], v.(wait := Ok))
  {
    hide InOrder, Due, Past;
    InOrderMore(p, h, h + [Got(ChangeCipherSpec)], Due(p, v.state, v.peerKey));
    NotActed(h);
    ActedMore(h, h, [], Got(ChangeCipherSpec));
  }

  /** Within a state nothing but messages changes the history. */
  lemma StaysIn(p: Params, was: seq<Event>, now: seq<Event>, v: Phase, checks: seq<Check>, c: Choice)
    requires Quietly(was, now)
    ensures InOrder(p, was, checks) ==> InOrder(p, now, checks)
    ensures DecidedIn(was, now, v.state, c)
  {
    hide InOrder;
    if InOrder(p, was, checks) {
      InOrderMore(p, was, now, checks);
    }
  }

  // ----- the beginning of a step

  /** A server and its connection at the beginning of a step. */
  datatype Footing = Footing(phase: Phase, buffer: bool, inbox: seq<Item>, flight: seq<Item>, outbox: seq<Item>,
                             gone: seq<Item>, sent: seq<Item>, seen: seq<Item>, history: seq<Event>,
                             snapshots: Snapshots, onScript: bool)

  /** What is so where a state begins. */
  ghost predicate Begins(p: Params, a: Footing) {
    && a.phase.wait == Ok && Fits(p, a.phase, a.buffer, a.flight == [])
    && Kept(p, a.history, a.phase)
    && (a.onScript ==> Knows(p, a.phase) && SnapshotsOk(p, Server, a.phase.Place(p), a.snapshots))
  }

  /** The buffer and the flight are as they should be in the next state. */
  ghost predicate MayEnter(p: Params, a: Footing, w: Phase, buffer: bool, flight: seq<Item>) {
    && Leads(p, a.phase, w) && ((buffer == a.buffer && a.phase.state != SelectParameters) || !w.NeedsBuffer() || buffer)
    && (w.wait == Flush || w.Sending() || (flight == a.flight && !a.phase.Sending()))
  }

  lemma BeginsNext(p: Params, a: Footing, w: Phase, buffer: bool, flight: seq<Item>, honest: bool)
    requires Begins(p, a) && MayEnter(p, a, w, buffer, flight)
    requires a.onScript && honest && a.phase.state == ReadClientCertificate ==>
      w.peerKey == (RequestsCertificate(p) && p.clientHasCertificate)
    ensures Fits(p, w, buffer, flight == []) && (a.onScript && honest ==> Knows(p, w))
    ensures p.hello.resumed ==> !OnlyInFull(w.state)
    ensures Pos(w.state, p.hello.resumed) > Pos(a.phase.state, p.hello.resumed)
    ensures !Reading(w.wait) && w.wait != Paused && w.wait != Error
    ensures w.state == ProcessChangeCipherSpec ==> w.wait == ReadChange
  {
    hide InOrder, Due, SnapshotsOk, Knows;
    AfterIsNext(a.phase.state, w.state, p.hello.resumed);
    LeadsFits(p, a.phase, w, a.buffer, a.flight == [], buffer, flight == []);
    LeadsKnows(p, a.phase, w);
  }

  lemma BeginsOn(p: Params, a: Footing, w: Phase, buffer: bool, flight: seq<Item>, now: seq<Event>, c: Choice)
    requires Begins(p, a) && MayEnter(p, a, w, buffer, flight) && Quietly(a.history, now) && Unchecked(a.phase)
    requires Acted(a.history, now, Acts(p, a.phase.state, a.phase.peerKey))
    ensures Kept(p, now, w) && DecidedIn(a.history, now, a.phase.state, c)
  {
    hide Knows, InOrder, Due, SnapshotsOk, TraceAt, Acts, Trace;
    AfterIsNext(a.phase.state, w.state, p.hello.resumed);
    DueSame(p, a.phase, w);
    PastNext(p, a.phase, w);
    StaysIn(p, a.history, now, a.phase, Due(p, w.state, w.peerKey), c);
  }

  lemma BeginsPast(p: Params, a: Footing, w: Phase, buffer: bool, flight: seq<Item>, mid: seq<Event>,
                   check: Check, c: Choice)
    requires Begins(p, a) && MayEnter(p, a, w, buffer, flight) && Quietly(a.history, mid)
    requires Earns(p, mid, check, c) && a.phase.state == StateOf(check) && !Unchecked(a.phase)
    requires check.ChainRead? ==> check.empty == !w.peerKey
    requires Acted(a.history, mid, Acts(p, a.phase.state, a.phase.peerKey))
    ensures Kept(p, mid + [Passed(check, c)], w)
    ensures DecidedIn(a.history, mid + [Passed(check, c)], a.phase.state, c)
  {
    hide Knows, InOrder, Due, SnapshotsOk, Earns, TraceAt, Acts, Trace;
    AfterIsNext(a.phase.state, w.state, p.hello.resumed);
    DueNext(p, check, a.phase, w);
    PastNext(p, a.phase, w);
    ActedMore(a.history, mid, Acts(p, a.phase.state, a.phase.peerKey), Passed(check, c));
    InOrderMore(p, a.history, mid, Due(p, a.phase.state, a.phase.peerKey));
    InOrderPass(p, mid, Due(p, a.phase.state, a.phase.peerKey), check, c);
  }

  lemma BeginsStill(p: Params, a: Footing, w: Phase, buffer: bool, flight: seq<Item>)
    requires Begins(p, a) && MayEnter(p, a, w, buffer, flight) && !a.phase.Snaps()
    ensures a.onScript ==> SnapshotsOk(p, Server, w.Place(p), a.snapshots)
  {
    hide Fits, Knows, InOrder, Due, SnapshotsOk;
    LeadsStill(p, a.phase, w, a.snapshots);
  }

  lemma LeadsStill(p: Params, v: Phase, w: Phase, s: Snapshots)
    requires Leads(p, v, w) && !v.Snaps()
    ensures Knows(p, v) && SnapshotsOk(p, Server, v.Place(p), s) ==> SnapshotsOk(p, Server, w.Place(p), s)
  {
    hide SnapshotsOk;
    if Knows(p, v) {
      SnapshotsStay(p, Server, s, v.Place(p), w.Place(p));
    }
  }

  lemma SamePlace(state: State, w: Wait, resumed: bool)
    requires w != ReadChange
    ensures PlaceOf(state, w, resumed) == PlaceOf(state, Ok, resumed)
  {
  }

  lemma EmptyPlace(p: Params, v: Phase, buffer: bool, idle: bool)
    requires Fits(p, v, buffer, idle) && Knows(p, v) && v.Empty(p)
    ensures v.Place(p) < End(p.hello.resumed) && !Here(p, v.Place(p))
  {
  }

  /** A server that waits for its peer is at a place of the client's, and something is sent there. */
  lemma ReadsAt(p: Params, v: Phase, buffer: bool, idle: bool)
    requires Fits(p, v, buffer, idle) && Knows(p, v)
    requires Reading(v.wait) || v.wait == ReadChange || (v.wait == Ok && v.Wanted(p).Some?)
    ensures v.Place(p) < End(p.hello.resumed) && SendsAt(p, Client, v.Place(p))
    ensures v.Place(p) == 0 || if p.hello.resumed then 5 <= v.Place(p) <= 8 else 7 <= v.Place(p) <= 13
    ensures ItemAt(p, v.Place(p)).Handshake? <==> v.wait != ReadChange
    ensures v.wait == Ok ==> PlaceAt(p, v.Place(p)).kind == v.Wanted(p).value
    ensures v.wait == Ok && v.state == ReadClientCertificateVerify ==> buffer
    ensures Reading(v.wait) || v.wait == ReadChange ==> idle
  {
    hide Transcript, BodyOf;
  }

  lemma BeginsSnapped(p: Params, a: Footing)
    requires Begins(p, a)
    ensures a.onScript ==> SnapshotsOk(p, Server, a.phase.Place(p), a.snapshots)
  {
  }

  class ServerHandshake {
    const p: Params
    const conn: Connection
    var state: State
    var wait: Wait
    var certRequest: bool
    var serverParams: bool
    var peerKey: bool
    ghost var snapshots: Snapshots

    function Now(): Phase
      reads this`state, this`wait, this`certRequest, this`serverParams, this`peerKey
    {
      Phase(state, wait, certRequest, serverParams, peerKey)
    }

    /** The transcript's hash exists as soon as the ClientHello has been read. */
    ghost predicate HasHash()
      reads this, conn.transcript
    {
      if Now().Early() then conn.transcript.buffer.Some? && conn.transcript.hash.None? else conn.transcript.hash.Some?
    }

    /** What holds whatever the peer sends: state and transcript fit together, and the checks due in
        the state have been passed, in order. */
    ghost predicate Valid()
      reads this, conn, conn.transcript
    {
      && conn.Valid() && conn.side == Server && HasHash() && (p.hello.resumed ==> !OnlyInFull(state))
      && Fits(p, Now(), conn.transcript.buffer.Some?, conn.flight == [])
      && (wait != Error ==> Kept(p, conn.history, Now()) && MayChange())
    }

    /** The read cipher is changed only upon a ChangeCipherSpec. */
    ghost predicate MayChange()
      reads this`state, this`wait, conn`history
    {
      state == ProcessChangeCipherSpec && wait != ReadChange ==> JustChanged(conn.history)
    }

    ghost function At(): nat
      reads this`state, this`wait, this`certRequest, this`serverParams, this`peerKey
    {
      Now().Place(p)
    }

    /** The server and its peer keep to the script. */
    ghost predicate OnScript()
      requires Valid()
      reads this, conn, conn.transcript
    {
      && conn.OnScript(p, At()) && wait != Error && SnapshotsOk(p, Server, At(), snapshots) && Knows(p, Now())
    }

    ghost function Stands(): Footing
      requires Valid()
      reads this, conn, conn.transcript
    {
      Footing(Now(), conn.transcript.buffer.Some?, conn.inbox, conn.flight, conn.outbox, conn.gone, conn.sent,
              conn.Seen(), conn.history, snapshots, OnScript())
    }

    /** All checks succeed; and the client's chain is empty just when it has no certificate, which
        then is not required. */
    ghost predicate Honest(c: Choice) {
      && c.ok && c.emptyChain == !p.clientHasCertificate && Sound(p)
      && (p.requireCertificate && RequestsCertificate(p) ==> p.clientHasCertificate)
    }

    constructor (p: Params)
      ensures this.p == p && fresh(conn) && fresh(conn.transcript) && conn.side == Server
      ensures Valid() && OnScript() && state == StartAccept && wait == Ok && snapshots == Snapshots(None, None, None)
      ensures conn.inbox == conn.flight == conn.outbox == conn.received == conn.sent == conn.gone == []
      ensures conn.history == []
    {
      this.p := p;
      conn := new Connection(Server);
      state, wait, certRequest, serverParams, peerKey := StartAccept, Ok, false, false, false;
      snapshots := Snapshots(None, None, None);
      new;
      SentPrefix(p, Client, 0, End(p.hello.resumed));
    }

    /** A state whose place is empty, as far as the server knows, is on the script at the next. */
    lemma Absent()
      requires Valid() && wait == Ok && Now().Empty(p)
      ensures Through(Stands(), At() + 1, false) && Acted(Stands().history, conn.history, [])
    {
      hide Kept, Fits, PlaceOf, Pos, Phase.Empty, Connection.Valid, Connection.OnScript;
      Nothing();
      if OnScript() {
        EmptyPlace(p, Now(), conn.transcript.buffer.Some?, conn.flight == []);
        conn.Skip(p, At());
      }
    }

    /** On the script the message arrives that a state insists on; a Finished is that of the server's
        own transcript, and a CertificateVerify signs its buffer. */
    lemma Arrives()
      requires Valid() && conn.GetMessage().Some? && Now().Wanted(p).Some? && wait == Ok
      ensures OnScript() ==> Comes(p, Client, At(), conn.inbox[0]) && conn.inbox[0].m.kind == Now().Wanted(p).value
      ensures OnScript() && state == ReadClientFinished ==>
        conn.inbox[0].m.body == p.mac(conn.transcript.hash.value, Client)
      ensures OnScript() && Sound(p) && state == ReadClientCertificateVerify ==>
        conn.transcript.buffer.Some? && p.verify(conn.transcript.buffer.value, conn.inbox[0].m.body)
    {
      hide Kept, SnapshotsOk, Knows, Pos, PlaceOf, PlaceAt, Fits;
      if OnScript() {
        ReadsAt(p, Now(), conn.transcript.buffer.Some?, conn.flight == []);
        var k := conn.Head(p, At());
      }
    }

    /** It is the client's turn in a state that reads. */
    lemma ReadsNext()
      requires Valid() && wait == Ok && Now().Wanted(p).Some?
      ensures OnScript() ==> PeersTurn(p, Server, At())
    {
      hide Kept, SnapshotsOk, Fits, Knows, Connection.Valid, Connection.OnScript, PlaceOf;
      if OnScript() {
        ReadsAt(p, Now(), conn.transcript.buffer.Some?, conn.flight == []);
        TurnOfClient(p, At());
      }
    }

    /** A step of server and peer on the script stays on it. */
    ghost predicate Followed(a: Footing, c: Choice)
      requires Valid()
      reads this, conn, conn.transcript
    {
      a.onScript && Honest(c) ==>
        OnScript() && (Reading(wait) || wait == ReadChange ==> PeersTurn(p, Server, At()))
    }

    /** A step passes no check but its state's.  It waits for input only when there is none, and then
        changes nothing, as when it is to be tried again; otherwise it fails, or it moves on to a
        later state. */
    ghost predicate Advanced(a: Footing, c: Choice)
      reads this, conn
    {
      && a.flight <= conn.flight && conn.outbox == a.outbox && conn.gone == a.gone && conn.Seen() == a.seen
      && DecidedIn(a.history, conn.history, a.phase.state, c)
      && (if Reading(wait) || wait == Paused then
            && state == a.phase.state && conn.inbox == a.inbox && conn.sent == a.sent
            && (if wait == Paused then c.retry else conn.GetMessage().None?)
          else wait == Error || Pos(state, p.hello.resumed) > Pos(a.phase.state, p.hello.resumed))
    }

    ghost predicate Stepped(a: Footing, c: Choice)
      reads this, conn, conn.transcript
    {
      Valid() && Followed(a, c) && Advanced(a, c)
    }

    // ----- within a step

    /** The step that began at `a` has not yet changed the server's state, nor what has left. */
    ghost predicate Within(a: Footing)
      reads this, conn, conn.transcript
    {
      && conn.Valid() && conn.side == Server && Begins(p, a) && (p.hello.resumed ==> !OnlyInFull(state))
      && (conn.transcript.hash.Some? || (Now().Early() && conn.transcript.buffer.Some?))
      && state == a.phase.state && wait == Ok
      && a.flight <= conn.flight && conn.outbox == a.outbox && conn.gone == a.gone && conn.Seen() == a.seen
    }

    /** Its messages up to place `n` have been read, or written, and it has passed no check yet. */
    ghost predicate Through(a: Footing, n: nat, wrote: bool)
      reads this, conn, conn.transcript
    {
      && Within(a) && Quietly(a.history, conn.history) && (wrote || conn.flight == a.flight)
      && (a.onScript ==> conn.OnScript(p, n))
    }

    /** The snapshots are those due at place `n`. */
    ghost predicate Snapped(a: Footing, n: nat)
      reads this`snapshots
    {
      (!a.phase.Snaps() && snapshots == a.snapshots) || (a.onScript ==> SnapshotsOk(p, Server, n, snapshots))
    }

    lemma Starts()
      requires Valid() && wait == Ok
      ensures Through(Stands(), At(), false) && Acted(Stands().history, conn.history, [])
    {
      hide Connection.Valid, Connection.OnScript, Connection.Seen, Fits, Knows, Kept, SnapshotsOk;
    }

    /** A state whose place is empty has nothing to read or write. */
    lemma Nothing()
      requires Valid() && wait == Ok
      ensures OnScript() ==> conn.OnScript(p, At())
      ensures (OnScript() ==> conn.OnScript(p, At() + 1)) ==> Through(Stands(), At() + 1, false)
      ensures Acted(Stands().history, conn.history, [])
    {
      hide Connection.Valid, Connection.OnScript, Connection.Seen, Fits, Knows, Kept, SnapshotsOk;
    }

    /** A step that has come to a next state is over. */
    lemma Finishes(a: Footing, c: Choice)
      requires conn.Valid() && conn.side == Server && HasHash() && (p.hello.resumed ==> !OnlyInFull(state))
      requires Fits(p, Now(), conn.transcript.buffer.Some?, conn.flight == [])
      requires Kept(p, conn.history, Now()) && MayChange()
      requires !Reading(wait) && wait != Paused && wait != Error
      requires a.onScript && Honest(c) ==>
        && conn.OnScript(p, At()) && SnapshotsOk(p, Server, At(), snapshots) && Knows(p, Now())
        && (wait == ReadChange ==> PeersTurn(p, Server, At()))
      requires a.flight <= conn.flight && conn.outbox == a.outbox && conn.gone == a.gone && conn.Seen() == a.seen
      requires DecidedIn(a.history, conn.history, a.phase.state, c)
      requires Pos(state, p.hello.resumed) > Pos(a.phase.state, p.hello.resumed)
      ensures Stepped(a, c)
    {
      hide Fits, Kept, DecidedIn, Pos, PlaceOf, OnlyInFull, Connection.Valid, Connection.OnScript;
    }

    /** The step is over: the next state is entered. */
    method Enter(t: State, w: Wait, c: Choice, ghost a: Footing)
      requires Within(a) && MayEnter(p, a, Now().(state := t, wait := w), conn.transcript.buffer.Some?, conn.flight)
      requires Kept(p, conn.history, Now().(state := t, wait := w)) && DecidedIn(a.history, conn.history, state, c)
      requires Now().(state := t, wait := w).Early() <==> conn.transcript.hash.None?
      requires a.onScript && Honest(c) && state == ReadClientCertificate ==>
        peerKey == (RequestsCertificate(p) && p.clientHasCertificate)
      requires a.onScript ==>
        && conn.OnScript(p, PlaceOf(t, w, p.hello.resumed))
        && SnapshotsOk(p, Server, PlaceOf(t, w, p.hello.resumed), snapshots)
        && (w == ReadChange ==> PeersTurn(p, Server, PlaceOf(t, w, p.hello.resumed)))
      modifies this`state, this`wait
      ensures Stepped(a, c)
    {
      hide Fits, Kept, DecidedIn, Pos, PlaceOf, OnlyInFull, Valid, Followed, Advanced, Stepped, Begins,
        MayEnter, Connection.Valid, Connection.OnScript;
      BeginsNext(p, a, Now().(state := t, wait := w), conn.transcript.buffer.Some?, conn.flight, Honest(c));
      state, wait := t, w;
      Finishes(a, c);
    }

    /** A state that makes no check is left for the next. */
    method GoTo(t: State, w: Wait, c: Choice, ghost a: Footing)
      requires Through(a, PlaceOf(t, w, p.hello.resumed), true) && Unchecked(a.phase)
      requires Acted(a.history, conn.history, Acts(p, a.phase.state, a.phase.peerKey))
      requires MayEnter(p, a, Now().(state := t, wait := w), conn.transcript.buffer.Some?, conn.flight)
      requires Snapped(a, PlaceOf(t, w, p.hello.resumed))
      requires Now().(state := t, wait := w).Early() <==> conn.transcript.hash.None?
      requires a.onScript && Honest(c) && state == ReadClientCertificate ==>
        peerKey == (RequestsCertificate(p) && p.clientHasCertificate)
      requires w == ReadChange && a.onScript ==> PeersTurn(p, Server, PlaceOf(t, w, p.hello.resumed))
      modifies this`state, this`wait
      ensures Stepped(a, c)
    {
      hide Fits, Kept, DecidedIn, Pos, Stepped, Quietly, PlaceOf, Begins, MayEnter, Unchecked, Acted,
        Connection.Valid, Connection.OnScript;
      BeginsOn(p, a, Now().(state := t, wait := w), conn.transcript.buffer.Some?, conn.flight, conn.history, c);
      if !a.phase.Snaps() && snapshots == a.snapshots {
        BeginsStill(p, a, Now().(state := t, wait := w), conn.transcript.buffer.Some?, conn.flight);
      }
      Enter(t, w, c, a);
    }

    ghost method NotePassed(check: Check, c: Choice, a: Footing, n: nat)
      requires Within(a) && (a.onScript ==> conn.OnScript(p, n))
      modifies conn`history
      ensures Within(a) && (a.onScript ==> conn.OnScript(p, n))
        && conn.history == old(conn.history) + [Passed(check, c)]
    {
      hide Connection.Valid, Connection.OnScript, Connection.Seen, Begins, OnlyInFull;
      conn.Pass(check, c, p, n);
    }

    /** The check of a state is passed, and the state is left for the next. */
    method PassCheck(ghost check: Check, t: State, c: Choice, ghost a: Footing)
      requires Through(a, PlaceOf(t, Ok, p.hello.resumed), true) && !Unchecked(a.phase)
      requires Acted(a.history, conn.history, Acts(p, a.phase.state, a.phase.peerKey))
      requires MayEnter(p, a, Now().(state := t, wait := Ok), conn.transcript.buffer.Some?, conn.flight)
      requires Snapped(a, PlaceOf(t, Ok, p.hello.resumed))
      requires Now().(state := t, wait := Ok).Early() <==> conn.transcript.hash.None?
      requires state == StateOf(check) && Earns(p, conn.history, check, c)
        && (check.ChainRead? ==> check.empty == !peerKey)
      requires a.onScript && Honest(c) && state == ReadClientCertificate ==>
        peerKey == (RequestsCertificate(p) && p.clientHasCertificate)
      modifies this`state, this`wait, conn`history
      ensures Stepped(a, c)
    {
      hide Fits, Kept, DecidedIn, Pos, Stepped, Quietly, Earns, PlaceOf, Begins, MayEnter, Unchecked, Acted,
        Connection.Valid, Connection.OnScript;
      BeginsPast(p, a, Now().(state := t, wait := Ok), conn.transcript.buffer.Some?, conn.flight, conn.history,
        check, c);
      if !a.phase.Snaps() && snapshots == a.snapshots {
        BeginsStill(p, a, Now().(state := t, wait := Ok), conn.transcript.buffer.Some?, conn.flight);
      }
      NotePassed(check, c, a, PlaceOf(t, Ok, p.hello.resumed));
      Enter(t, Ok, c, a);
    }

    /** The step comes to rest: it fails, or is to be tried again, or waits for its message. */
    method Rest(w: Wait, c: Choice, ghost a: Footing)
      requires Valid() && wait == Ok && a == Stands() && (w == Paused ==> c.retry && state != ProcessChangeCipherSpec)
      requires w == Error || w == Paused || (Reading(w) && Now().Wanted(p).Some?)
      requires Reading(w) ==> conn.GetMessage().None?
      requires w == Error ==> !c.ok || !OnScript()
      modifies this`wait
      ensures Stepped(a, c)
    {
      hide Fits, Kept, Pos, PlaceOf, Connection.Valid, Connection.OnScript;
      SamePlace(state, w, p.hello.resumed);
      Rests(p, Now(), conn.transcript.buffer.Some?, conn.flight == [], w);
      KeptWaiting(p, conn.history, Now(), w);
      if Reading(w) {
        ReadsNext();
      }
      wait := w;
      assert wait != ReadChange && Valid() && Advanced(a, c) && Followed(a, c);
    }

    /** The step fails after its message has been read. */
    method Fail(c: Choice, ghost a: Footing, ghost n: nat)
      requires Through(a, n, false) && (a.onScript ==> !Honest(c)) && Now() == a.phase && HasHash()
      modifies this`wait
      ensures Stepped(a, c)
    {
      hide Fits, Kept, Pos, Connection.Valid, Connection.OnScript;
      Fails(p, Now(), a.buffer, conn.transcript.buffer.Some?, conn.flight == []);
      StaysIn(p, a.history, conn.history, a.phase, [], c);
      wait := Error;
    }

    // ----- what the states have in common

    /** What a place has the server send. */
    lemma Writes(n: nat, kind: Kind)
      requires conn.Valid() && conn.side == Server && conn.transcript.hash.Some?
      ensures conn.transcript.hash.value == conn.transcript.Content()
      ensures conn.OnScript(p, n) && n < End(p.hello.resumed) && PlaceAt(p, n) == Place(Server, true, kind) ==>
        Comes(p, Server, n, Handshake(Message(kind, BodyOf(p, kind, Server, conn.transcript.hash.value))))
    {
    }

    /** The message a state insists on, as far as get_message and ssl_check_message_type go. */
    method PeekWanted(c: Choice, ghost a: Footing) returns (msg: Option<Message>)
      requires Valid() && wait == Ok && Now().Wanted(p).Some? && a == Stands()
      modifies this`wait
      ensures msg.None? ==> Stepped(a, c)
      ensures msg.Some? ==>
        && wait == Ok && Valid() && Stands() == a && c.ok
        && conn.GetMessage() == msg && msg.value.kind == Now().Wanted(p).value
    {
      hide Fits, Kept, Pos, Stepped, Connection.Valid, Connection.OnScript;
      msg := conn.GetMessage();
      if msg.None? {
        Rest(ReadMessage, c, a);
        return;
      }
      Arrives();
      if msg.value.kind != Now().Wanted(p).value || !c.ok {
        Rest(Error, c, a);
        msg := None;
      }
    }

    /** The same with ssl_hash_message and next_message. */
    method ReadWanted(c: Choice, ghost a: Footing) returns (msg: Option<Message>)
      requires Valid() && wait == Ok && Now().Wanted(p).Some? && !Now().Early() && a == Stands()
      modifies this`wait, conn`inbox, conn`received, conn`history, conn.transcript
      ensures msg.None? ==> Stepped(a, c)
      ensures msg.Some? ==>
        && c.ok && Through(a, a.phase.Place(p) + 1, false) && Now() == a.phase
        && old(conn.GetMessage()) == msg && msg.value.kind == old(Now().Wanted(p)).value
        && conn.history == a.history + [Got(Handshake(msg.value))]
        && Acted(a.history, conn.history, [Reads(Some(msg.value.kind))])
        && conn.transcript.buffer.Some? == a.buffer && conn.transcript.hash.Some?
      ensures msg.Some? && a.onScript && state == ReadClientFinished ==>
        msg.value.body == p.mac(old(conn.transcript.hash).value, Client)
    {
      hide Fits, Kept, Pos, Stepped, Connection.Valid, Connection.OnScript;
      msg := PeekWanted(c, a);
      if msg.Some? {
        Arrives();
        Starts();
        ActedMore(a.history, conn.history, [], Got(Handshake(msg.value)));
        conn.Read(p, At());
      }
    }

    /** Whether a step goes ahead, when callbacks may ask for it to be tried again. */
    method Proceed(c: Choice, mayPause: bool, ghost a: Footing) returns (go: bool)
      requires Valid() && wait == Ok && (mayPause ==> state != ProcessChangeCipherSpec) && a == Stands()
      modifies this`wait
      ensures !go ==> Stepped(a, c)
      ensures go ==> wait == Ok && Valid() && Stands() == a && Through(a, At(), false)
      ensures go ==> Acted(a.history, conn.history, [])
      ensures go <==> !(mayPause && c.retry) && c.ok
    {
      hide Fits, Kept, Through, Stepped, Pos, Connection.Valid, Connection.OnScript;
      if mayPause && c.retry {
        Rest(Paused, c, a);
        return false;
      }
      if !c.ok {
        Rest(Error, c, a);
        return false;
      }
      Starts();
      return true;
    }

    /** A message of the server's own, which belongs at place `n` if anything does. */
    method Write(kind: Kind, ghost n: nat, ghost a: Footing, ghost acts: seq<Act>)
      requires Acted(a.history, conn.history, acts)
      requires Through(a, n, true) && conn.transcript.hash.Some? && kind != Finished && kind != CertificateVerify
      requires a.onScript ==> n < End(p.hello.resumed) && PlaceAt(p, n) == Place(Server, true, kind)
      modifies conn`flight, conn`sent, conn`history, conn.transcript
      ensures Through(a, n + 1, true) && conn.transcript.hash.Some?
      ensures conn.transcript.buffer.Some? == old(conn.transcript.buffer.Some?)
      ensures Acted(a.history, conn.history, acts + [Sends(Some(kind))])
      ensures acts == [] ==> Acted(a.history, conn.history, [Sends(Some(kind))])
    {
      hide Connection.Valid, Connection.OnScript, Connection.Seen, Begins, Comes, PlaceAt, Acted;
      Writes(n, kind);
      ActedMore(a.history, conn.history, acts,
        Put(Handshake(Message(kind, p.make(kind, Server, conn.transcript.hash.value)))));
      conn.Add(Message(kind, p.make(kind, Server, conn.transcript.hash.value)), p, n);
    }

    /** Nothing is sent at place `n`. */
    lemma Skips(n: nat, a: Footing)
      requires Through(a, n, true)
      requires a.onScript ==> n < End(p.hello.resumed) && !Here(p, n)
      ensures Through(a, n + 1, true)
    {
      hide Begins;
      SkipIn(conn, p, n);
    }

    // ----- the states

    /** do_start_accept. */
    method DoStartAccept(c: Choice)
      requires Valid() && state == StartAccept && wait == Ok
      modifies this`state, this`wait
      ensures Stepped(old(Stands()), c)
    {
      hide Fits, Kept, Begins, Stepped, Acted, Connection.Valid, Connection.OnScript, Pos;
      Starts();
      GoTo(ReadClientHello, Ok, c, Stands());
    }

    /** do_read_client_hello: the message stays where it is. */
    method DoReadClientHello(c: Choice)
      requires Valid() && state == ReadClientHello && wait == Ok
      modifies this`state, this`wait
      ensures Stepped(old(Stands()), c)
    {
      hide Fits, Kept, Begins, Stepped, Acted, Connection.Valid, Connection.OnScript, Pos;
      ghost var a := Stands();
      var msg := PeekWanted(c, a);
      if msg.None? {
        return;
      }
      var go := Proceed(c, true, a);
      if go {
        GoTo(SelectCertificate, Ok, c, a);
      }
    }

    /** do_select_certificate. */
    method DoSelectCertificate(c: Choice)
      requires Valid() && state == SelectCertificate && wait == Ok
      modifies this`state, this`wait
      ensures Stepped(old(Stands()), c)
    {
      hide Fits, Kept, Begins, Stepped, Acted, Connection.Valid, Connection.OnScript, Pos;
      ghost var a := Stands();
      var msg := PeekWanted(c, a);
      if msg.None? {
        return;
      }
      var go := Proceed(c, true, a);
      if go {
        GoTo(SelectParameters, Ok, c, a);
      }
    }

    /** do_select_parameters: the ClientHello is hashed now that all parameters are known. */
    method DoSelectParameters(c: Choice)
      requires Valid() && state == SelectParameters && wait == Ok
      modifies this`state, this`wait, conn`inbox, conn`received, conn`history, conn.transcript, this`certRequest
      ensures Stepped(old(Stands()), c)
    {
      hide Fits, Kept, Begins, Stepped, Connection.Valid, Connection.OnScript, Pos;
      ghost var a := Stands();
      var msg := PeekWanted(c, a);
      if msg.None? {
        return;
      }
      Arrives();
      var go := Proceed(c, true, a);
      if go {
        TakeClientHello(c, a);
      }
    }

    /** Whether a certificate is asked for. */
    method AsksCertificate() returns (asks: bool)
      ensures asks == Asks(p)
    {
      if p.hello.resumed {
        return false;
      }
      asks := p.verifyPeer;
      if p.unlessChannelId && p.channelIdOffered {
        asks := false;
      }
      if !p.hello.cipher.UsesCertificate() {
        asks := false;
      }
    }

    method TakeClientHello(c: Choice, ghost a: Footing)
      requires Valid() && state == SelectParameters && wait == Ok && conn.GetMessage().Some? && a == Stands()
      requires conn.GetMessage().value.kind == ClientHello && (a.onScript ==> Comes(p, Client, 0, conn.inbox[0]))
      modifies this`state, this`wait, this`certRequest, conn`inbox, conn`received, conn`history, conn.transcript
      ensures Stepped(a, c)
    {
      hide Fits, Kept, Begins, Stepped, Acted, Connection.Valid, Connection.OnScript, Pos;
      Starts();
      NotAsked(a);
      ActedMore(a.history, conn.history, [], Got(conn.inbox[0]));
      var asks := AsksCertificate();
      conn.InitHash(p, 0);
      conn.Read(p, 0);
      conn.KeepBuffer(asks, p, 1);
      SelectRequest(asks, c, a);
    }

    method SelectRequest(asks: bool, c: Choice, ghost a: Footing)
      requires Through(a, 1, false) && Now() == a.phase && state == SelectParameters && snapshots == a.snapshots
      requires conn.transcript.hash.Some? && conn.transcript.buffer.Some? == asks
      requires asks == Asks(p) && !peerKey && Acted(a.history, conn.history, [Reads(Some(ClientHello))])
      modifies this`state, this`wait, this`certRequest
      ensures Stepped(a, c)
    {
      hide Fits, Kept, Begins, Stepped, Acted, Connection.Valid, Connection.OnScript, Pos;
      certRequest := asks;
      GoTo(SendServerHello, Ok, c, a);
    }

    /** Before the parameters have been selected no certificate has been asked for. */
    lemma NotAsked(a: Footing)
      requires Begins(p, a) && a.phase.state == SelectParameters
      ensures !a.phase.certRequest && !a.phase.peerKey
    {
    }

    /** do_send_server_hello. */
    method DoSendServerHello(c: Choice)
      requires Valid() && state == SendServerHello && wait == Ok
      modifies this`state, this`wait, conn`flight, conn`sent, conn`history, conn.transcript
      ensures Stepped(old(Stands()), c)
    {
      hide Fits, Kept, Begins, Stepped, Acted, Connection.Valid, Connection.OnScript, Pos;
      ghost var a := Stands();
      var go := Proceed(c, false, a);
      if go {
        Write(ServerHello, 1, a, []);
        GoTo(if p.hello.resumed then SendServerFinished else SendServerCertificate, Ok, c, a);
      }
    }

    /** do_send_server_certificate, with the CertificateStatus; and whether a ServerKeyExchange follows. */
    method DoSendServerCertificate(c: Choice)
      requires Valid() && state == SendServerCertificate && wait == Ok
      modifies this`state, this`wait, conn`flight, conn`sent, conn`history, conn.transcript, this`serverParams
      ensures Stepped(old(Stands()), c)
    {
      hide Fits, Kept, Begins, Stepped, Connection.Valid, Connection.OnScript, Pos;
      ghost var a := Stands();
      var go := Proceed(c, false, a);
      if !go {
        return;
      }
      SendChain(a);
      serverParams := SendsKeyExchange(p);
      GoTo(SendServerKeyExchange, Ok, c, a);
    }

    method SendChain(ghost a: Footing)
      requires Through(a, 2, true) && conn.transcript.hash.Some? && !p.hello.resumed
      requires Acted(a.history, conn.history, [])
      modifies conn`flight, conn`sent, conn`history, conn.transcript
      ensures Acted(a.history, conn.history, Acts(p, SendServerCertificate, false))
      ensures Through(a, 4, true) && conn.transcript.hash.Some?
      ensures conn.transcript.buffer.Some? == old(conn.transcript.buffer.Some?)
    {
      hide Within, Quietly, Connection.OnScript;
      if p.hello.cipher.UsesCertificate() {
        Write(Certificate, 2, a, []);
        if p.hello.ocsp {
          Write(CertificateStatus, 3, a, [Sends(Some(Certificate))]);
        } else {
          Skips(3, a);
        }
      } else {
        Skips(2, a);
        Skips(3, a);
      }
    }

    /** do_send_server_key_exchange. */
    method DoSendServerKeyExchange(c: Choice)
      requires Valid() && state == SendServerKeyExchange && wait == Ok
      modifies this`state, this`wait, conn`flight, conn`sent, conn`history, conn.transcript, this`serverParams
      ensures Stepped(old(Stands()), c)
    {
      hide Fits, Kept, Begins, Stepped, Connection.Valid, Connection.OnScript, Pos;
      ghost var a := Stands();
      KeyExchangePlace();
      if !serverParams {
        Absent();
        GoTo(SendServerHelloDone, Ok, c, a);
        return;
      }
      var go := Proceed(c, p.hello.cipher.UsesCertificate(), a);
      if go {
        SendKeyExchange(c, a);
      }
    }

    method SendKeyExchange(c: Choice, ghost a: Footing)
      requires Valid() && state == SendServerKeyExchange && wait == Ok && serverParams && a == Stands()
      modifies this`state, this`wait, conn`flight, conn`sent, conn`history, conn.transcript, this`serverParams
      ensures Stepped(a, c)
    {
      hide Fits, Kept, Begins, Stepped, Acted, Connection.Valid, Connection.OnScript, Pos;
      Starts();
      KeyExchangePlace();
      Write(ServerKeyExchange, 4, a, []);
      serverParams := false;
      GoTo(SendServerHelloDone, Ok, c, a);
    }

    lemma KeyExchangePlace()
      requires Valid() && state == SendServerKeyExchange
      ensures serverParams == SendsKeyExchange(p)
      ensures OnScript() && serverParams ==>
        4 < End(p.hello.resumed) && PlaceAt(p, 4) == Place(Server, true, ServerKeyExchange)
    {
      hide Kept, SnapshotsOk;
    }

    /** do_send_server_hello_done, after the CertificateRequest if there is one. */
    method DoSendServerHelloDone(c: Choice)
      requires Valid() && state == SendServerHelloDone && wait == Ok
      modifies this`state, this`wait, conn`flight, conn`sent, conn`history, conn.transcript
      ensures Stepped(old(Stands()), c)
    {
      hide Fits, Kept, Begins, Stepped, Connection.Valid, Connection.OnScript, Pos;
      ghost var a := Stands();
      var go := Proceed(c, false, a);
      if !go {
        return;
      }
      SendRequestAndDone(a);
      GoTo(ReadClientCertificate, Flush, c, a);
    }

    method SendRequestAndDone(ghost a: Footing)
      requires Valid() && state == SendServerHelloDone && wait == Ok && a == Stands()
      modifies conn`flight, conn`sent, conn`history, conn.transcript
      ensures Acted(a.history, conn.history, Acts(p, SendServerHelloDone, false))
      ensures Through(a, 7, true) && conn.transcript.hash.Some?
      ensures conn.transcript.buffer.Some? == old(conn.transcript.buffer.Some?)
    {
      hide Fits, Kept, Begins, Stepped, Acted, Connection.Valid, Connection.OnScript, Pos;
      Starts();
      RequestPlace();
      if certRequest {
        Write(CertificateRequest, 5, a, []);
        Write(ServerHelloDone, 6, a, [Sends(Some(CertificateRequest))]);
        assert [Sends(Some(CertificateRequest))] + [Sends(Some(ServerHelloDone))] == Acts(p, state, false);
      } else {
        Skips(5, a);
        Write(ServerHelloDone, 6, a, []);
      }
    }

    lemma RequestPlace()
      requires Valid() && state == SendServerHelloDone
      ensures certRequest == Asks(p)
      ensures OnScript() ==>
        && 6 < End(p.hello.resumed) && PlaceAt(p, 6) == Place(Server, true, ServerHelloDone)
        && PlaceAt(p, 5) == Place(Server, certRequest, CertificateRequest)
    {
      hide Kept, SnapshotsOk;
    }

    /** do_read_client_certificate. */
    method DoReadClientCertificate(c: Choice)
      requires Valid() && state == ReadClientCertificate && wait == Ok
      modifies this`state, this`wait, conn`inbox, conn`received, conn`history, conn.transcript, this`peerKey
      ensures Stepped(old(Stands()), c)
    {
      hide Fits, Kept, Begins, Stepped, Acted, Connection.Valid, Connection.OnScript, Pos;
      ghost var a := Stands();
      NoPeerYet();
      if !certRequest {
        Absent();
        GoTo(VerifyClientCertificate, Ok, c, a);
        return;
      }
      var msg := ReadWanted(c, a);
      if msg.None? {
        return;
      }
      NoteChain(c, a);
    }

    /** Without a certificate of the client's, which may be required, nothing is to be verified. */
    method NoteChain(c: Choice, ghost a: Footing)
      requires Through(a, 8, false) && Now() == a.phase && state == ReadClientCertificate && c.ok
      requires certRequest && !peerKey && snapshots == a.snapshots && JustGot(conn.history, Certificate)
      requires conn.transcript.buffer.Some? == a.buffer && conn.transcript.hash.Some?
      requires Acted(a.history, conn.history, Acts(p, ReadClientCertificate, a.phase.peerKey))
      requires a.onScript ==> RequestsCertificate(p)
      modifies this`state, this`wait, this`peerKey, conn`history, conn.transcript
      ensures Stepped(a, c)
    {
      hide Fits, Kept, Stepped, Begins, Pos, Quietly, JustGot, SnapshotsOk, Acted, Connection.Valid,
        Connection.OnScript;
      if c.emptyChain {
        conn.FreeBuffer(p, 8);
        if p.requireCertificate {
          Fail(c, a, 8);
          return;
        }
      } else {
        peerKey := true;
      }
      PassCheck(ChainRead(c.emptyChain), VerifyClientCertificate, c, a);
    }

    lemma NoPeerYet()
      requires Valid() && state == ReadClientCertificate
      ensures !peerKey && certRequest == Asks(p) && (OnScript() ==> certRequest == RequestsCertificate(p))
    {
      hide Kept, SnapshotsOk;
    }

    /** do_verify_client_certificate. */
    method DoVerifyClientCertificate(c: Choice)
      requires Valid() && state == VerifyClientCertificate && wait == Ok
      modifies this`state, this`wait, conn`history
      ensures Stepped(old(Stands()), c)
    {
      hide Fits, Kept, Begins, Stepped, Acted, Connection.Valid, Connection.OnScript, Pos;
      ghost var a := Stands();
      if !peerKey {
        Starts();
        GoTo(ReadClientKeyExchange, Ok, c, a);
        return;
      }
      var go := Proceed(c, true, a);
      if go {
        PassCheck(ClientVerified, ReadClientKeyExchange, c, a);
      }
    }

    /** do_read_client_key_exchange; decryption may have to be tried again, before anything is hashed. */
    method DoReadClientKeyExchange(c: Choice)
      requires Valid() && state == ReadClientKeyExchange && wait == Ok
      modifies this`state, this`wait, conn`inbox, conn`received, conn`history, conn.transcript
      ensures Stepped(old(Stands()), c)
    {
      hide Fits, Kept, Begins, Stepped, Connection.Valid, Connection.OnScript, Pos;
      ghost var a := Stands();
      var msg := PeekWanted(c, a);
      if msg.None? {
        return;
      }
      var go := Proceed(c, p.hello.cipher == RsaCert, a);
      if !go {
        return;
      }
      TakeKeyExchange(c, a);
    }

    method TakeKeyExchange(c: Choice, ghost a: Footing)
      requires Valid() && state == ReadClientKeyExchange && wait == Ok && a == Stands()
      modifies this`state, this`wait, conn`inbox, conn`received, conn`history, conn.transcript
      ensures Stepped(a, c)
    {
      hide Fits, Kept, Begins, Stepped, Acted, Connection.Valid, Connection.OnScript, Pos;
      var read := ReadWanted(c, a);
      if read.Some? {
        GoTo(ReadClientCertificateVerify, Ok, c, a);
      }
    }

    /** do_read_client_certificate_verify: the signature is checked against the buffer, then the
        buffer is given up and the message hashed. */
    method DoReadClientCertificateVerify(c: Choice)
      requires Valid() && state == ReadClientCertificateVerify && wait == Ok
      modifies this`state, this`wait, conn`inbox, conn`received, conn`history, conn.transcript, this`snapshots
      ensures Stepped(old(Stands()), c)
    {
      hide Fits, Kept, Begins, Stepped, Acted, Connection.Valid, Connection.OnScript, Pos;
      ghost var a := Stands();
      if !peerKey {
        Absent();
        conn.FreeBuffer(p, 10);
        GoTo(ReadChangeCipherSpec, Ok, c, a);
        return;
      }
      var msg := PeekWanted(c, a);
      if msg.Some? {
        VerifySignature(msg.value, c, a);
      }
    }

    method VerifySignature(msg: Message, c: Choice, ghost a: Footing)
      requires Valid() && state == ReadClientCertificateVerify && wait == Ok && peerKey && a == Stands() && c.ok
      requires conn.GetMessage() == Some(msg) && msg.kind == CertificateVerify
      modifies this`state, this`wait, this`snapshots, conn`inbox, conn`received, conn`history, conn.transcript
      ensures Stepped(a, c)
    {
      hide Fits, Kept, Begins, Stepped, Connection.Valid, Connection.OnScript, Pos;
      Starts();
      Arrives();
      VerifiesHere();
      var over := conn.transcript.buffer.value;
      if !p.verify(over, msg.body) {
        Rejected(c, a);
      } else {
        Accepted(msg, over, c, a);
      }
    }

    method Accepted(msg: Message, over: seq<Message>, c: Choice, ghost a: Footing)
      requires Through(a, 9, false) && state == ReadClientCertificateVerify && peerKey && Now() == a.phase && c.ok
      requires conn.GetMessage() == Some(msg) && msg.kind == CertificateVerify && a.history == conn.history
      requires over == Messages(conn.history) && p.verify(over, msg.body) && conn.transcript.hash.Some?
      requires a.onScript ==> Comes(p, Client, 9, conn.inbox[0])
      requires a.onScript ==> SnapshotsOk(p, Server, 10, snapshots.(signed := Some(over)))
      modifies this`state, this`wait, this`snapshots, conn`inbox, conn`received, conn`history, conn.transcript
      ensures Stepped(a, c)
    {
      hide Fits, Knows, Kept, SnapshotsOk, PeersTurn, Comes, Stepped, Begins, Pos, JustSigned, Messages, Quietly,
        Acted, Acts, Connection.Valid, Connection.OnScript;
      assert !p.hello.resumed;
      TakeSigned(msg, over, a);
      PassCheck(ClientSigned, ReadChangeCipherSpec, c, a);
    }

    method TakeSigned(msg: Message, over: seq<Message>, ghost a: Footing)
      requires Through(a, 9, false) && state == ReadClientCertificateVerify && conn.transcript.hash.Some?
      requires conn.GetMessage() == Some(msg) && msg.kind == CertificateVerify && a.history == conn.history
      requires p.verify(Messages(conn.history), msg.body) && (a.onScript ==> Comes(p, Client, 9, conn.inbox[0]))
      modifies this`snapshots, conn`inbox, conn`received, conn`history, conn.transcript
      ensures Through(a, 10, false) && JustSigned(p, conn.history)
      ensures Acted(a.history, conn.history, Acts(p, ReadClientCertificateVerify, true))
      ensures conn.transcript.hash.Some? && conn.transcript.buffer.None?
      ensures snapshots == old(snapshots).(signed := Some(over))
    {
      hide Fits, Kept, Begins, Stepped, Acted, Connection.Valid, Connection.OnScript, Pos;
      conn.FreeBuffer(p, 9);
      NotActed(conn.history);
      ActedMore(a.history, conn.history, [], Got(conn.inbox[0]));
      conn.Read(p, 9);
      LastOf(a.history, Got(Handshake(msg)));
      snapshots := snapshots.(signed := Some(over));
    }

    method Rejected(c: Choice, ghost a: Footing)
      requires Valid() && wait == Ok && a == Stands() && (a.onScript ==> !Honest(c))
      modifies this`wait
      ensures Stepped(a, c)
    {
      hide Fits, Kept, Begins, Stepped, Connection.Valid, Connection.OnScript, Pos;
      Starts();
      Fail(c, a, At());
    }

    /** The buffer is there when it is needed and holds all messages so far; on the script it is the
        transcript at this place. */
    lemma VerifiesHere()
      requires Valid() && wait == Ok && state == ReadClientCertificateVerify && peerKey
      ensures conn.transcript.buffer == Some(Messages(conn.history))
      ensures OnScript() ==> SnapshotsOk(p, Server, 10, snapshots.(signed := conn.transcript.buffer))
    {
      hide Kept;
      if OnScript() {
        SnapshotTaken(p, Server, snapshots, 9, conn.transcript.buffer.value);
      }
    }

    /** do_read_change_cipher_spec. */
    method DoReadChangeCipherSpec(c: Choice)
      requires Valid() && state == ReadChangeCipherSpec && wait == Ok
      modifies this`state, this`wait
      ensures Stepped(old(Stands()), c)
    {
      hide Fits, Kept, Begins, Stepped, Acted, Connection.Valid, Connection.OnScript, Pos;
      Starts();
      TurnOfClient(p, At());
      GoTo(ProcessChangeCipherSpec, ReadChange, c, Stands());
    }

    /** do_process_change_cipher_spec. */
    method DoProcessChangeCipherSpec(c: Choice)
      requires Valid() && state == ProcessChangeCipherSpec && wait == Ok
      modifies this`state, this`wait, conn`history
      ensures Stepped(old(Stands()), c)
    {
      hide Fits, Kept, Begins, Stepped, Acted, Connection.Valid, Connection.OnScript, Pos;
      ghost var a := Stands();
      var go := Proceed(c, false, a);
      if go {
        PassCheck(CipherChanged, ReadNextProto, c, a);
      }
    }

    /** A message that is there if its extension was negotiated. */
    method ReadNegotiated(negotiated: bool, c: Choice, ghost a: Footing) returns (go: bool)
      requires Valid() && wait == Ok && a == Stands()
      requires (state == ReadNextProto && negotiated == p.hello.npn)
               || (state == ReadChannelId && negotiated == p.hello.channelId)
      modifies this`wait, conn`inbox, conn`received, conn`history, conn.transcript
      ensures !go ==> Stepped(a, c)
      ensures go ==>
        && Through(a, a.phase.Place(p) + 1, false) && Now() == a.phase
        && Acted(a.history, conn.history, Acts(p, a.phase.state, a.phase.peerKey))
        && conn.transcript.buffer.Some? == a.buffer && conn.transcript.hash.Some?
    {
      hide Fits, Kept, Stepped, Begins, Pos, PlaceOf, Connection.Valid, Connection.OnScript;
      if !negotiated {
        Absent();
        return true;
      }
      var msg := ReadWanted(c, a);
      return msg.Some?;
    }

    /** do_read_next_proto. */
    method DoReadNextProto(c: Choice)
      requires Valid() && state == ReadNextProto && wait == Ok
      modifies this`state, this`wait, conn`inbox, conn`received, conn`history, conn.transcript
      ensures Stepped(old(Stands()), c)
    {
      hide Fits, Kept, Begins, Stepped, Acted, Connection.Valid, Connection.OnScript, Pos;
      ghost var a := Stands();
      var go := ReadNegotiated(p.hello.npn, c, a);
      if go {
        GoTo(ReadChannelId, Ok, c, a);
      }
    }

    /** do_read_channel_id. */
    method DoReadChannelId(c: Choice)
      requires Valid() && state == ReadChannelId && wait == Ok
      modifies this`state, this`wait, conn`inbox, conn`received, conn`history, conn.transcript
      ensures Stepped(old(Stands()), c)
    {
      hide Fits, Kept, Begins, Stepped, Acted, Connection.Valid, Connection.OnScript, Pos;
      ghost var a := Stands();
      var go := ReadNegotiated(p.hello.channelId, c, a);
      if go {
        GoTo(ReadClientFinished, Ok, c, a);
      }
    }

    /** ssl_get_finished: the MAC is taken before the message is hashed. */
    method GetFinished(c: Choice, ghost a: Footing) returns (ok: bool)
      requires Valid() && state == ReadClientFinished && wait == Ok && a == Stands()
      modifies this`wait, this`snapshots, conn`inbox, conn`received, conn`history, conn.transcript
      ensures !ok ==> Stepped(a, c)
      ensures ok ==>
        && c.ok && Through(a, a.phase.Place(p) + 1, false) && JustFinished(p, conn.history, Client)
        && Acted(a.history, conn.history, [Reads(Some(Finished))])
        && Now() == a.phase && conn.transcript.buffer.Some? == a.buffer && conn.transcript.hash.Some?
        && snapshots == a.snapshots.(checked := old(conn.transcript.hash))
        && (a.onScript ==> SnapshotsOk(p, Server, a.phase.Place(p) + 1, snapshots))
      ensures ok ==> old(conn.GetMessage()) == Some(Message(Finished, p.mac(snapshots.checked.value, Client)))
    {
      hide Fits, Kept, Begins, Stepped, SnapshotsOk, Acted, Connection.Valid, Connection.OnScript, Pos;
      var over := conn.transcript.hash.value;
      var finished := p.mac(over, Client);
      HashIsHistory();
      var msg := ReadWanted(c, a);
      if msg.None? {
        return false;
      }
      if msg.value.body != finished {
        Fail(c, a, a.phase.Place(p) + 1);
        return false;
      }
      LastOf(a.history, Got(Handshake(msg.value)));
      snapshots := snapshots.(checked := Some(over));
      ok := true;
    }

    /** The transcript is that of all messages so far; where a Finished is checked on the script a
        snapshot is due. */
    lemma HashIsHistory()
      requires Valid() && state == ReadClientFinished && wait == Ok
      ensures conn.transcript.hash == Some(Messages(conn.history))
      ensures OnScript() ==>
        SnapshotsOk(p, Server, At() + 1, snapshots.(checked := Some(conn.transcript.hash.value)))
    {
      hide Kept;
      if OnScript() {
        SnapshotTaken(p, Server, snapshots, At(), conn.transcript.hash.value);
      }
    }

    /** do_read_client_finished. */
    method DoReadClientFinished(c: Choice)
      requires Valid() && state == ReadClientFinished && wait == Ok
      modifies this`state, this`wait, conn`inbox, conn`received, conn`history, conn.transcript, this`snapshots
      ensures Stepped(old(Stands()), c)
    {
      hide Fits, Kept, Stepped, Begins, Pos, JustFinished, Quietly, SnapshotsOk, Acted, Connection.Valid,
        Connection.OnScript;
      ghost var a := Stands();
      var ok := GetFinished(c, a);
      if ok {
        PassCheck(FinishedMatched(Client), if p.hello.resumed then FinishServerHandshake else SendServerFinished, c, a);
      }
    }

    /** do_send_server_finished, after the ticket if there is one. */
    method DoSendServerFinished(c: Choice)
      requires Valid() && state == SendServerFinished && wait == Ok
      modifies this`state, this`wait, conn`flight, conn`sent, conn`history, conn.transcript, this`snapshots
      ensures Stepped(old(Stands()), c)
    {
      hide Fits, Kept, Begins, Stepped, Acted, Connection.Valid, Connection.OnScript, Pos;
      ghost var a := Stands();
      var go := Proceed(c, false, a);
      if go {
        SendFinalFlight(a);
        GoTo(if p.hello.resumed then ReadChangeCipherSpec else FinishServerHandshake, Flush, c, a);
      }
    }

    /** The ticket, ChangeCipherSpec and Finished. */
    method SendFinalFlight(ghost a: Footing)
      requires Through(a, At(), false) && state == SendServerFinished && snapshots == a.snapshots && Now() == a.phase
      requires Acted(a.history, conn.history, [])
      modifies this`snapshots, conn`flight, conn`sent, conn`history, conn.transcript
      ensures Through(a, if p.hello.resumed then 5 else 17, true) && conn.transcript.hash.Some?
      ensures Acted(a.history, conn.history, Acts(p, SendServerFinished, peerKey))
      ensures conn.transcript.buffer.Some? == old(conn.transcript.buffer.Some?)
      ensures a.onScript ==> SnapshotsOk(p, Server, if p.hello.resumed then 5 else 17, snapshots)
    {
      hide Fits, Kept, Begins, SnapshotsOk, Acted, Connection.Valid, Connection.OnScript;
      ghost var n := if p.hello.resumed then 2 else 14;
      BeginsSnapped(p, a);
      SnapshotsStay(p, Server, snapshots, n, n + 2);
      SendTicketAndChange(n, a);
      SendFinished(n + 2, a, TicketAndChange());
      AllSent();
    }

    ghost function TicketAndChange(): seq<Act> {
      if p.hello.ticket then [Sends(Some(NewSessionTicket)), Sends(None)] else [Sends(None)]
    }

    lemma AllSent()
      ensures Acts(p, SendServerFinished, peerKey) == TicketAndChange() + [Sends(Some(Finished))]
    {
    }

    method SendTicketAndChange(ghost n: nat, ghost a: Footing)
      requires Through(a, n, true) && n == At() && state == SendServerFinished && conn.transcript.hash.Some?
      requires Acted(a.history, conn.history, [])
      modifies conn`flight, conn`sent, conn`history, conn.transcript
      ensures Through(a, n + 2, true) && conn.transcript.hash.Some?
      ensures Acted(a.history, conn.history, TicketAndChange())
      ensures conn.transcript.buffer.Some? == old(conn.transcript.buffer.Some?)
    {
      hide Fits, Kept, Begins, SnapshotsOk, Connection.Valid, Connection.OnScript;
      if p.hello.ticket {
        Write(NewSessionTicket, n, a, []);
        WriteChange(n + 1, a, [Sends(Some(NewSessionTicket))]);
      } else {
        Skips(n, a);
        WriteChange(n + 1, a, []);
      }
    }

    method WriteChange(ghost n: nat, ghost a: Footing, ghost acts: seq<Act>)
      requires Through(a, n, true) && conn.transcript.hash.Some? && n == if p.hello.resumed then 3 else 15
      requires Acted(a.history, conn.history, acts)
      modifies conn`flight, conn`sent, conn`history
      ensures Through(a, n + 1, true) && Acted(a.history, conn.history, acts + [Sends(None)])
      ensures acts == [] ==> Acted(a.history, conn.history, [Sends(None)])
    {
      hide Fits, Kept, Begins, Acted, Connection.Valid, Connection.OnScript;
      ChangePlace(p);
      ActedMore(a.history, conn.history, acts, Put(ChangeCipherSpec));
      conn.AddChange(p, n);
    }

    /** ssl_send_finished. */
    method SendFinished(ghost n: nat, ghost a: Footing, ghost acts: seq<Act>)
      requires Acted(a.history, conn.history, acts)
      requires Through(a, n, true) && conn.transcript.hash.Some? && n == FinishedPlace(p, Server)
      requires a.onScript ==> SnapshotsOk(p, Server, n, snapshots)
      modifies this`snapshots, conn`flight, conn`sent, conn`history, conn.transcript
      ensures snapshots == old(snapshots).(sent := old(conn.transcript.hash))
      ensures conn.flight == old(conn.flight) + [Handshake(Message(Finished, p.mac(snapshots.sent.value, Server)))]
      ensures Through(a, n + 1, true) && conn.transcript.hash.Some?
      ensures conn.transcript.buffer.Some? == old(conn.transcript.buffer.Some?)
      ensures a.onScript ==> SnapshotsOk(p, Server, n + 1, snapshots)
      ensures Acted(a.history, conn.history, acts + [Sends(Some(Finished))])
    {
      hide Fits, Kept, Begins, Acted, Connection.Valid, Connection.OnScript;
      Writes(n, Finished);
      SnapshotOf(conn, p, n);
      if a.onScript {
        SnapshotTaken(p, Server, snapshots, n, conn.transcript.hash.value);
      }
      snapshots := snapshots.(sent := conn.transcript.hash);
      ActedMore(a.history, conn.history, acts,
        Put(Handshake(Message(Finished, p.mac(conn.transcript.hash.value, Server)))));
      conn.Add(Message(Finished, p.mac(conn.transcript.hash.value, Server)), p, n);
    }

    /** do_finish_server_handshake. */
    method DoFinishServerHandshake(c: Choice)
      requires Valid() && state == FinishServerHandshake && wait == Ok
      modifies this`state, this`wait
      ensures Stepped(old(Stands()), c)
    {
      hide Fits, Kept, Begins, Stepped, Acted, Connection.Valid, Connection.OnScript, Pos;
      ghost var a := Stands();
      var go := Proceed(c, false, a);
      if go {
        GoTo(Done, Ok, c, a);
      }
    }

    /** One iteration of ssl_server_handshake. */
    method Step(c: Choice)
      requires Valid() && state != Done && wait == Ok
      modifies this, conn, conn.transcript
      ensures Stepped(old(Stands()), c)
    {
      hide Valid, Stepped;
      match state
      case StartAccept => DoStartAccept(c);
      case ReadClientHello => DoReadClientHello(c);
      case SelectCertificate => DoSelectCertificate(c);
      case SelectParameters => DoSelectParameters(c);
      case SendServerHello => DoSendServerHello(c);
      case SendServerCertificate => DoSendServerCertificate(c);
      case SendServerKeyExchange => DoSendServerKeyExchange(c);
      case SendServerHelloDone => DoSendServerHelloDone(c);
      case ReadClientCertificate => DoReadClientCertificate(c);
      case VerifyClientCertificate => DoVerifyClientCertificate(c);
      case ReadClientKeyExchange => DoReadClientKeyExchange(c);
      case ReadClientCertificateVerify => DoReadClientCertificateVerify(c);
      case ReadChangeCipherSpec => DoReadChangeCipherSpec(c);
      case ProcessChangeCipherSpec => DoProcessChangeCipherSpec(c);
      case ReadNextProto => DoReadNextProto(c);
      case ReadChannelId => DoReadChannelId(c);
      case ReadClientFinished => DoReadClientFinished(c);
      case SendServerFinished => DoSendServerFinished(c);
      case FinishServerHandshake => DoFinishServerHandshake(c);
    }

    /** ssl_server_handshake: states until one waits, fails, or is the last.  Every check passed on
        the way was passed by a decision of `choose`. */
    method Run(choose: State -> Choice)
      requires Valid() && wait == Ok
      modifies this, conn, conn.transcript
      ensures Valid() && (wait == Ok ==> state == Done)
      ensures Decided(old(conn.history), conn.history, choose)
      ensures old(OnScript()) && (forall s :: Honest(choose(s))) ==>
        OnScript() && (Reading(wait) || wait == ReadChange ==> PeersTurn(p, Server, At()))
      ensures (Reading(wait) ==> conn.GetMessage().None?) && ((forall s :: !choose(s).retry) ==> wait != Paused)
      ensures conn.outbox == old(conn.outbox) && conn.gone == old(conn.gone) && conn.Seen() == old(conn.Seen())
      ensures Pos(state, p.hello.resumed) > Pos(old(state), p.hello.resumed)
              || wait == Error || Reading(wait) || wait == Paused || old(state) == Done
      ensures Pos(state, p.hello.resumed) >= Pos(old(state), p.hello.resumed) || wait == Error
    {
      hide Connection.Valid, Connection.OnScript, Connection.Seen, SnapshotsOk, Kept, Decided, DecidedIn;
      ghost var first := true;
      NothingDecided(conn.history, choose);
      while state != Done
        invariant Valid() && wait == Ok && Decided(old(conn.history), conn.history, choose)
        invariant old(OnScript()) && (forall s :: Honest(choose(s))) ==> OnScript()
        invariant conn.outbox == old(conn.outbox) && conn.gone == old(conn.gone) && conn.Seen() == old(conn.Seen())
        invariant if first then state == old(state) else Pos(state, p.hello.resumed) > Pos(old(state), p.hello.resumed)
        decreases LAST - Pos(state, p.hello.resumed)
      {
        ghost var was, s := conn.history, state;
        Step(choose(state));
        DecidedMore(old(conn.history), was, conn.history, s, choose);
        first := first && (Reading(wait) || wait == Paused);
        if wait != Ok {
          return;
        }
      }
    }

    lemma HeadIsMessage()
      requires Valid() && Reading(wait) && conn.inbox != []
      ensures OnScript() ==> conn.GetMessage().Some?
    {
      hide Kept, Fits, PlaceOf, Pos, PlaceAt, ItemAt, Here, Connection.Valid, Connection.OnScript;
      if OnScript() {
        ReadsAt(p, Now(), conn.transcript.buffer.Some?, conn.flight == []);
        var k := conn.Head(p, At());
      }
    }

    lemma HeadIsChange()
      requires Valid() && wait == ReadChange && conn.inbox != []
      ensures OnScript() ==> Comes(p, Client, At(), conn.inbox[0]) && conn.inbox[0].ChangeCipherSpec?
    {
      hide Kept, Fits, PlaceOf, Pos, PlaceAt, ItemAt, Here, Connection.Valid, Connection.OnScript;
      if OnScript() {
        var k := conn.Head(p, At());
        ReadsAt(p, Now(), conn.transcript.buffer.Some?, conn.flight == []);
      }
    }

    method ResolveFlush(c: Choice) returns (done: bool)
      requires Valid() && wait == Flush
      modifies this`wait, conn`flight, conn`outbox
      ensures Valid() && (old(OnScript()) ==> OnScript())
      ensures (done <==> c.blocks.None?) && wait == if done then Ok else Flush
    {
      hide Kept, Fits, Pos, PlaceOf, Knows, SnapshotsOk, PeersTurn, Connection.Valid, Connection.OnScript;
      SamePlace(state, wait, p.hello.resumed);
      Flushes(p, Now(), conn.transcript.buffer.Some?, conn.flight == []);
      KeptWaiting(p, conn.history, Now(), Ok);
      done := conn.FlushFlight(c.blocks, p, At());
      if done {
        wait := Ok;
      }
    }

    method ResolveRead()
      requires Valid() && Reading(wait) && conn.inbox != []
      modifies this`wait
      ensures Valid() && (old(OnScript()) ==> OnScript()) && (wait == Ok || wait == Error)
    {
      hide Kept, Fits, Pos, PlaceOf, Knows, SnapshotsOk, PeersTurn, Connection.Valid, Connection.OnScript;
      HeadIsMessage();
      if conn.GetMessage().Some? {
        ResolveOther();
      } else {
        Resumes(p, Now(), conn.transcript.buffer.Some?, conn.flight == []);
        wait := Error;
      }
    }

    method ResolveChange()
      requires Valid() && wait == ReadChange && conn.inbox != []
      modifies this`wait, conn`inbox, conn`received, conn`history
      ensures Valid() && (old(OnScript()) ==> OnScript())
      ensures wait == if old(conn.inbox)[0].ChangeCipherSpec? then Ok else Error
      ensures conn.Seen() == old(conn.Seen()) && Quietly(old(conn.history), conn.history)
    {
      hide Kept, Fits, Pos, Knows, SnapshotsOk, PeersTurn, Connection.Valid, Connection.OnScript;
      HeadIsChange();
      Resumes(p, Now(), conn.transcript.buffer.Some?, conn.flight == []);
      if conn.inbox[0].ChangeCipherSpec? {
        TakeAwaited();
      } else {
        wait := Error;
      }
    }

    method TakeAwaited()
      requires Valid() && wait == ReadChange && conn.inbox != [] && conn.inbox[0].ChangeCipherSpec?
      requires OnScript() ==> Comes(p, Client, At(), conn.inbox[0])
      modifies this`wait, conn`inbox, conn`received, conn`history
      ensures Valid() && (old(OnScript()) ==> OnScript()) && wait == Ok
      ensures conn.Seen() == old(conn.Seen()) && Quietly(old(conn.history), conn.history)
    {
      hide Fits, Kept, Knows, SnapshotsOk, PeersTurn, Comes, Pos, Connection.Valid, Connection.OnScript;
      Resumes(p, Now(), conn.transcript.buffer.Some?, conn.flight == []);
      KeptChange(p, conn.history, Now());
      SnapshotsStay(p, Server, snapshots, At(), At() + 1);
      conn.TakeChange(p, At());
      wait := Ok;
    }

    /** ssl_run_handshake, before the state machine runs: what the handshake was waiting for is
        resolved, or it is still missing. */
    method Resolve(c: Choice) returns (blocked: bool)
      requires Valid() && wait != Error
      modifies this`wait, conn`inbox, conn`received, conn`history, conn`flight, conn`outbox
      ensures Valid() && (old(OnScript()) ==> OnScript()) && Quietly(old(conn.history), conn.history)
      ensures if blocked then
                && wait == old(wait) && conn.inbox == old(conn.inbox)
                && (if wait == Flush then c.blocks.Some?
                    else (Reading(wait) || wait == ReadChange) && conn.outbox == old(conn.outbox) && conn.inbox == [])
              else (wait == Ok || wait == Error) && (old(wait) != Flush ==> conn.outbox == old(conn.outbox))
      ensures conn.sent == old(conn.sent) && conn.gone == old(conn.gone) && conn.Seen() == old(conn.Seen())
    {
      hide Kept, Fits, Pos, Valid, OnScript, Connection.Valid, Connection.OnScript;
      blocked := false;
      if wait == Flush {
        var done := ResolveFlush(c);
        blocked := !done;
      } else if Reading(wait) {
        if conn.inbox == [] {
          return true;
        }
        ResolveRead();
      } else if wait == ReadChange {
        if conn.inbox == [] {
          return true;
        }
        ResolveChange();
      } else {
        ResolveOther();
      }
    }

    method ResolveOther()
      requires Valid() && wait != Error && wait != Flush && wait != ReadChange
      modifies this`wait
      ensures Valid() && (old(OnScript()) ==> OnScript()) && wait == Ok
    {
      hide Kept, Fits, Pos, PlaceOf, Knows, SnapshotsOk, PeersTurn, Connection.Valid, Connection.OnScript;
      SamePlace(state, wait, p.hello.resumed);
      Resumes(p, Now(), conn.transcript.buffer.Some?, conn.flight == []);
      KeptWaiting(p, conn.history, Now(), Ok);
      wait := Ok;
    }

    /** How far the server is from the end. */
    ghost function Work(): nat
      reads this
    {
      2 * (LAST - Pos(state, p.hello.resumed)) + if wait == Flush then 1 else 0
    }

    /** The server has finished, or has flushed all it can send and waits for its peer. */
    ghost predicate Waiting()
      reads this, conn
    {
      conn.flight == [] && ((state == Done && wait == Ok) || (conn.inbox == [] && PeersTurn(p, Server, At())))
    }

    lemma Blocked()
      requires Valid() && (Reading(wait) || wait == ReadChange)
      requires if wait == ReadChange then conn.inbox == [] else conn.GetMessage().None?
      ensures OnScript() ==> Waiting()
    {
      hide Kept, Fits, PlaceOf, Pos, Connection.Valid, Connection.OnScript;
      if OnScript() {
        if wait != ReadChange && conn.inbox != [] {
          HeadIsMessage();
        }
        ReadsAt(p, Now(), conn.transcript.buffer.Some?, conn.flight == []);
        TurnOfClient(p, At());
      }
    }

    /** All that the application decides and the peer's messages contain is right. */
    ghost predicate AllHonest(choose: State -> Choice) {
      forall s :: Honest(choose(s))
    }

    /** The state machine runs, once nothing is waited for. */
    method Continue(choose: State -> Choice)
      requires Valid() && wait == Ok
      modifies this, conn, conn.transcript
      ensures Valid() && conn.gone == old(conn.gone) && conn.Seen() == old(conn.Seen())
      ensures conn.outbox == old(conn.outbox) && Decided(old(conn.history), conn.history, choose)
      ensures old(OnScript()) && AllHonest(choose) ==> OnScript()
      ensures old(OnScript()) && AllHonest(choose) && (forall s :: !choose(s).retry) ==>
        Work() < old(Work()) || (Waiting() && Work() == old(Work()))
    {
      assert state == Done ==> conn.flight == [];
      hide Valid, OnScript, Pos, PlaceOf, Kept, Decided, Connection.Valid, Connection.OnScript;
      NothingDecided(conn.history, choose);
      if state == Done {
        return;
      }
      Run(choose);
      if Reading(wait) {
        Blocked();
      }
    }

    /** An iteration of ssl_run_handshake: what the handshake waits for is resolved and the state
        machine runs, or it keeps waiting; a handshake that has failed stays as it is.  Whatever the
        peer sends, each check passed was passed by a decision of `choose`. */
    method Turn(choose: State -> Choice)
      requires Valid()
      modifies this, conn, conn.transcript
      ensures Valid() && conn.gone == old(conn.gone) && conn.Seen() == old(conn.Seen())
      ensures Decided(old(conn.history), conn.history, choose) && (old(wait) == Error ==> wait == Error)
      ensures old(OnScript()) && AllHonest(choose) ==> OnScript()
      ensures old(OnScript()) && AllHonest(choose) && Eager(choose) ==>
        Work() < old(Work()) || (Waiting() && Work() == old(Work()) && conn.outbox == old(conn.outbox))
    {
      hide Pos, PlaceOf, Kept, Decided, Connection.Valid, Connection.OnScript;
      NothingDecided(conn.history, choose);
      if wait == Error {
        return;
      }
      var blocked := Resolve(choose(state));
      QuietlyDecided(old(conn.history), conn.history, choose);
      if blocked {
        if wait != Flush {
          Blocked();
        }
      } else if wait == Ok {
        ghost var mid := conn.history;
        Continue(choose);
        DecidedOn(old(conn.history), mid, conn.history, choose);
      }
    }

    /** Something arrives from whoever sends it. */
    method Deliver(items: seq<Item>)
      requires Valid()
      modifies conn`inbox
      ensures Valid() && conn.Seen() == old(conn.Seen()) + items
    {
      hide Kept, Recorded;
      conn.inbox := conn.inbox + items;
    }
  }

  /** No callback asks to be asked again, and the transport does not block. */
  ghost predicate Eager(choose: State -> Choice) {
    forall s :: !choose(s).retry && choose(s).blocks.None?
  }

  lemma NothingDecided(h: seq<Event>, choose: State -> Choice)
    ensures Decided(h, h, choose)
  {
  }

  lemma DecidedMore(was: seq<Event>, mid: seq<Event>, now: seq<Event>, s: State, choose: State -> Choice)
    requires Decided(was, mid, choose) && DecidedIn(mid, now, s, choose(s))
    ensures Decided(was, now, choose)
  {
  }

  lemma DecidedOn(was: seq<Event>, mid: seq<Event>, now: seq<Event>, choose: State -> Choice)
    requires Decided(was, mid, choose) && Decided(mid, now, choose)
    ensures Decided(was, now, choose)
  {
  }

  lemma QuietlyDecided(was: seq<Event>, now: seq<Event>, choose: State -> Choice)
    requires Quietly(was, now)
    ensures Decided(was, now, choose)
  {
  }

  // ----- whole runs against any peer

  /** A server's run against a peer that sends whatever it likes, in any order of arrivals and turns.
      What it has read is what arrived, as far as it has read; each check was passed by a decision
      made in the run; and the checks due in its state were passed in order. */
  method Play(p: Params, run: seq<Action<State>>) returns (server: ServerHandshake)
    ensures fresh(server) && server.Valid() && server.p == p
    ensures GotItems(server.conn.history) + server.conn.inbox == Arrived(run)
    ensures DecidedInRun(StateOf, run, server.conn.history)
    ensures server.wait != Error ==> Kept(p, server.conn.history, server.Now())
  {
    hide Arrived, DecidedInRun, Kept, GotItems, Connection.Seen, ServerHandshake.Valid,
      ServerHandshake.OnScript;
    NothingHappened(StateOf);
    server := new ServerHandshake(p);
    SeenNothing(server.conn);
    var i := 0;
    assert run[..0] == [];
    while i < |run|
      invariant 0 <= i <= |run| && server.Valid() && server.p == p
      invariant fresh(server) && fresh(server.conn) && fresh(server.conn.transcript)
      invariant server.conn.Seen() == Arrived(run[..i]) && DecidedInRun(StateOf, run[..i], server.conn.history)
    {
      Act(server, run[i], run[..i]);
      assert run[..i + 1] == run[..i] + [run[i]];
      i := i + 1;
    }
    assert run[..|run|] == run;
    Accounted(server);
  }

  method Act(server: ServerHandshake, action: Action<State>, ghost before: seq<Action<State>>)
    requires server.Valid() && server.conn.Seen() == Arrived(before)
    requires DecidedInRun(StateOf, before, server.conn.history)
    modifies server, server.conn, server.conn.transcript
    ensures server.Valid() && server.conn.Seen() == Arrived(before + [action])
    ensures DecidedInRun(StateOf, before + [action], server.conn.history)
  {
    hide ServerHandshake.Valid, DecidedInRun, Arrived, Connection.Seen;
    ghost var was := server.conn.history;
    match action {
      case Arrival(items) => server.Deliver(items);
      case GoOn(choose) => server.Turn(choose);
    }
    ArrivedMore(before, action);
    ByDecisionMore(StateOf, before, action, was, server.conn.history);
  }

  lemma Accounted(server: ServerHandshake)
    requires server.Valid()
    ensures server.conn.Seen() == GotItems(server.conn.history) + server.conn.inbox
    ensures server.wait != Error ==> Kept(server.p, server.conn.history, server.Now())
  {
    hide Kept, Fits;
  }

  /** All of them, in order; `peerKey` says whether the client's chain is not empty. */
  function WholeTrace(p: Params, peerKey: bool): seq<Act> {
    var hellos := [Reads(Some(ClientHello)), Sends(Some(ServerHello))];
    if p.hello.resumed then
      hellos + FinishedActs(p) + [Reads(None)] + NextProtoActs(p) + ChannelIdActs(p) + [Reads(Some(Finished))]
    else
      hellos + ChainActs(p) + ExchangeActs(p) + DoneActs(p)
      + ClientChainActs(p) + [Reads(Some(ClientKeyExchange))] + SignedActs(peerKey)
      + [Reads(None)] + NextProtoActs(p) + ChannelIdActs(p) + [Reads(Some(Finished))]
      + FinishedActs(p)
  }

  lemma PastHellos(p: Params, peerKey: bool)
    ensures Past(p, SendServerCertificate, peerKey) == [Reads(Some(ClientHello)), Sends(Some(ServerHello))]
    ensures p.hello.resumed ==>
      Past(p, SendServerFinished, peerKey) == [Reads(Some(ClientHello)), Sends(Some(ServerHello))]
  {
    assert Past(p, ReadClientHello, peerKey) == [];
    assert Past(p, SelectCertificate, peerKey) == [];
    assert Past(p, SelectParameters, peerKey) == [];
    assert Past(p, SendServerHello, peerKey) == [Reads(Some(ClientHello))];
  }

  /** What a state adds. */
  lemma PastAdds(p: Params, state: State, peerKey: bool, more: seq<Act>)
    requires state != StartAccept
    requires more == StateActs(p, Before(state, p.hello.resumed), peerKey)
    ensures Past(p, state, peerKey) == Past(p, Before(state, p.hello.resumed), peerKey) + more
    ensures more == [] ==> Past(p, state, peerKey) == Past(p, Before(state, p.hello.resumed), peerKey)
  {
    hide Before;
    StateAdds(p, Before(state, p.hello.resumed), peerKey, Past(p, Before(state, p.hello.resumed), peerKey));
  }

  function StateActs(p: Params, state: State, peerKey: bool): seq<Act> {
    if state.ProcessChangeCipherSpec? then [Reads(None)] else Acts(p, state, peerKey)
  }

  lemma StateAdds(p: Params, state: State, peerKey: bool, past: seq<Act>)
    ensures past + Awaited(state) + Acts(p, state, peerKey) == past + StateActs(p, state, peerKey)
  {
  }

  lemma ActsAreParts(p: Params, peerKey: bool)
    ensures Acts(p, SendServerCertificate, peerKey) == ChainActs(p)
    ensures Acts(p, SendServerKeyExchange, peerKey) == ExchangeActs(p)
    ensures Acts(p, SendServerHelloDone, peerKey) == DoneActs(p)
    ensures Acts(p, ReadClientCertificate, peerKey) == ClientChainActs(p)
    ensures Acts(p, ReadClientKeyExchange, peerKey) == [Reads(Some(ClientKeyExchange))]
    ensures Acts(p, ReadClientCertificateVerify, peerKey) == SignedActs(peerKey)
    ensures Acts(p, ReadNextProto, peerKey) == NextProtoActs(p)
    ensures Acts(p, ReadChannelId, peerKey) == ChannelIdActs(p)
    ensures Acts(p, ReadClientFinished, peerKey) == [Reads(Some(Finished))]
    ensures Acts(p, SendServerFinished, peerKey) == FinishedActs(p)
    ensures Acts(p, VerifyClientCertificate, peerKey) == Acts(p, ReadChangeCipherSpec, peerKey) == []
    ensures Acts(p, FinishServerHandshake, peerKey) == Acts(p, ProcessChangeCipherSpec, peerKey) == []
  {
    hide ChainActs, ExchangeActs, DoneActs, ClientChainActs, SignedActs, NextProtoActs, ChannelIdActs, FinishedActs;
  }

  lemma TraceDone(p: Params, peerKey: bool)
    ensures Past(p, Done, peerKey) == WholeTrace(p, peerKey)
  {
    hide Acts, Past, ChainActs, ExchangeActs, DoneActs, ClientChainActs, SignedActs, NextProtoActs, ChannelIdActs,
      FinishedActs;
    if p.hello.resumed {
      PastHellos(p, peerKey);
      PastFinished(p, ReadChangeCipherSpec, peerKey);
    } else {
      PastFlights(p, peerKey);
    }
    PastClientFinished(p, peerKey);
    if !p.hello.resumed {
      PastFinished(p, FinishServerHandshake, peerKey);
    }
    ActsAreParts(p, peerKey);
    PastAdds(p, Done, peerKey, []);
  }

  lemma PastFlights(p: Params, peerKey: bool)
    requires !p.hello.resumed
    ensures Past(p, ReadChangeCipherSpec, peerKey) ==
            [Reads(Some(ClientHello)), Sends(Some(ServerHello))] + ChainActs(p) + ExchangeActs(p) + DoneActs(p)
            + ClientChainActs(p) + [Reads(Some(ClientKeyExchange))] + SignedActs(peerKey)
  {
    hide Acts, Past, ChainActs, ExchangeActs, DoneActs, ClientChainActs, SignedActs;
    ActsAreParts(p, peerKey);
    PastHellos(p, peerKey);
    PastAdds(p, SendServerKeyExchange, peerKey, ChainActs(p));
    PastAdds(p, SendServerHelloDone, peerKey, ExchangeActs(p));
    PastAdds(p, ReadClientCertificate, peerKey, DoneActs(p));
    PastAdds(p, VerifyClientCertificate, peerKey, ClientChainActs(p));
    PastAdds(p, ReadClientKeyExchange, peerKey, []);
    PastAdds(p, ReadClientCertificateVerify, peerKey, [Reads(Some(ClientKeyExchange))]);
    PastAdds(p, ReadChangeCipherSpec, peerKey, SignedActs(peerKey));
  }

  lemma PastClientFinished(p: Params, peerKey: bool)
    ensures Past(p, if p.hello.resumed then FinishServerHandshake else SendServerFinished, peerKey) ==
            Past(p, ReadChangeCipherSpec, peerKey) + [Reads(None)] + NextProtoActs(p) + ChannelIdActs(p)
            + [Reads(Some(Finished))]
  {
    hide Acts, Past, NextProtoActs, ChannelIdActs;
    PastExtensions(p, peerKey);
    ActsAreParts(p, peerKey);
    PastAdds(p, if p.hello.resumed then FinishServerHandshake else SendServerFinished, peerKey,
      [Reads(Some(Finished))]);
  }

  lemma PastExtensions(p: Params, peerKey: bool)
    ensures Past(p, ReadClientFinished, peerKey) ==
            Past(p, ReadChangeCipherSpec, peerKey) + [Reads(None)] + NextProtoActs(p) + ChannelIdActs(p)
  {
    hide Acts, Past, NextProtoActs, ChannelIdActs;
    ActsAreParts(p, peerKey);
    PastAdds(p, ProcessChangeCipherSpec, peerKey, []);
    PastAdds(p, ReadNextProto, peerKey, [Reads(None)]);
    PastAdds(p, ReadChannelId, peerKey, NextProtoActs(p));
    PastAdds(p, ReadClientFinished, peerKey, ChannelIdActs(p));
  }

  lemma PastFinished(p: Params, state: State, peerKey: bool)
    requires state == if p.hello.resumed then ReadChangeCipherSpec else FinishServerHandshake
    ensures Past(p, state, peerKey) == Past(p, SendServerFinished, peerKey) + FinishedActs(p)
  {
    hide Acts, Past, FinishedActs;
    ActsAreParts(p, peerKey);
    PastAdds(p, state, peerKey, FinishedActs(p));
  }

  /** What a server sends in a handshake, apart from what it always sends. */
  predicate SendsKind(p: Params, kind: Kind) {
    match kind
    case Certificate => !p.hello.resumed && (p.hello.cipher == RsaCert || p.hello.cipher == EcdheCert)
    case CertificateStatus =>
      !p.hello.resumed && (p.hello.cipher == RsaCert || p.hello.cipher == EcdheCert) && p.hello.ocsp
    case ServerKeyExchange => !p.hello.resumed && WantsExchange(p)
    case CertificateRequest => WantsCertificate(p)
    case NewSessionTicket => p.hello.ticket
    case ServerHello => true
    case ServerHelloDone => !p.hello.resumed
    case Finished => true
    case _ => false
  }

  lemma SendsInTrace(p: Params, peerKey: bool, kind: Kind)
    ensures Sends(Some(kind)) in WholeTrace(p, peerKey) <==> SendsKind(p, kind)
  {
    PartsHave(p, peerKey, kind);
    hide ChainActs, ExchangeActs, DoneActs, ClientChainActs, SignedActs, NextProtoActs, ChannelIdActs, FinishedActs,
      WantsCertificate, WantsExchange;
  }

  lemma PartsHave(p: Params, peerKey: bool, kind: Kind)
    ensures var s := Sends(Some(kind));
            && (s in ChainActs(p) <==>
                  (p.hello.cipher == RsaCert || p.hello.cipher == EcdheCert)
                  && (kind == Certificate || (kind == CertificateStatus && p.hello.ocsp)))
            && (s in ExchangeActs(p) <==> WantsExchange(p) && kind == ServerKeyExchange)
            && (s in DoneActs(p) <==> kind == ServerHelloDone || (kind == CertificateRequest && WantsCertificate(p)))
            && (s in FinishedActs(p) <==> kind == Finished || (kind == NewSessionTicket && p.hello.ticket))
            && s !in ClientChainActs(p) && s !in SignedActs(peerKey)
            && s !in NextProtoActs(p) && s !in ChannelIdActs(p)
    ensures p.hello.resumed ==> !WantsCertificate(p)
  {
  }

  /** A handshake that is through, whatever its client sent: what was read and sent, in order, is what
      the parameters ask for, and a message is sent exactly when they do. */
  lemma SentAsDue(server: ServerHandshake)
    requires server.Valid() && server.state == Done && server.wait != Error
    ensures Trace(server.conn.history) == WholeTrace(server.p, server.peerKey)
    ensures forall kind :: Puts(server.conn.history, kind) <==> SendsKind(server.p, kind)
  {
    DoneTrace(server);
    hide *;
    TraceDone(server.p, server.peerKey);
    forall kind
      ensures Puts(server.conn.history, kind) <==> SendsKind(server.p, kind)
    {
      PutsInTrace(server.conn.history, kind);
      SendsInTrace(server.p, server.peerKey, kind);
    }
  }

  lemma DoneTrace(server: ServerHandshake)
    requires server.Valid() && server.state == Done && server.wait != Error
    ensures Trace(server.conn.history) == Past(server.p, Done, server.peerKey)
  {
    hide InOrder, Due, Past, Fits, Connection.Valid;
  }

  /** The checks of a handshake that is through, in order. */
  lemma ChecksInOrder(p: Params, h: seq<Event>, peerKey: bool)
    returns (read: nat, verified: nat, signed: nat, changed: nat, finished: nat)
    requires InOrder(p, h, Due(p, Done, peerKey)) && (peerKey ==> Asks(p))
    ensures 0 < changed < finished < |h|
    ensures PassedAt(p, h, changed, CipherChanged) && h[changed - 1] == Got(ChangeCipherSpec)
    ensures PassedAt(p, h, finished, FinishedMatched(Client))
    ensures h[finished - 1] == Got(Handshake(Message(Finished, p.mac(Messages(h[..finished - 1]), Client))))
    ensures Asks(p) ==> read < changed && ReadsChain(h, read) && h[read].c.emptyChain == !peerKey
    ensures peerKey ==>
      && read < verified < signed < changed
      && PassedAt(p, h, verified, ClientVerified) && h[verified].c.ok && !h[verified].c.retry
      && PassedAt(p, h, signed, ClientSigned)
      && h[signed - 1].Got? && h[signed - 1].item.Handshake? && h[signed - 1].item.m.kind == CertificateVerify
      && p.verify(Messages(h[..signed - 1]), h[signed - 1].item.m.body)
  {
    hide InOrder, Due, Messages, PassedAt, ReadsChain;
    var ks := InOrderPlaces(p, h, Due(p, Done, peerKey));
    DueDone(p, peerKey);
    var n := |ks|;
    changed, finished := ks[n - 2], ks[n - 1];
    read, verified, signed := 0, 0, 0;
    if Asks(p) {
      ChainReadOnce(p, h, peerKey, ks);
      read := ks[0];
    }
    WhatPassed(p, h, changed, CipherChanged);
    WhatPassed(p, h, finished, FinishedMatched(Client));
    if peerKey {
      verified, signed := ks[1], ks[2];
      WhatPassed(p, h, verified, ClientVerified);
      WhatPassed(p, h, signed, ClientSigned);
    }
  }

  lemma DoneInOrder(server: ServerHandshake)
    requires server.Valid() && server.state == Done && server.wait != Error
    ensures InOrder(server.p, server.conn.history, Due(server.p, Done, server.peerKey))
    ensures server.peerKey ==> Asks(server.p)
  {
    hide InOrder, Due, TraceAt, Connection.Valid;
  }

  /** A handshake that is through: upon a ChangeCipherSpec the read cipher was changed, and then the
      client's Finished was read, which matched the messages before it.  A CertificateRequest was sent
      if and only if a certificate is wanted, and then the client's Certificate was read; and if the
      chain in it was not empty, that was verified, and then a CertificateVerify was read whose
      signature is over the messages before it; each by a decision that accepts. */
  lemma OrderSafety(server: ServerHandshake)
    returns (read: nat, verified: nat, signed: nat, changed: nat, finished: nat)
    requires server.Valid() && server.state == Done && server.wait != Error
    ensures var p, h := server.p, server.conn.history;
            && 0 < changed < finished < |h|
            && PassedAt(p, h, changed, CipherChanged) && h[changed - 1] == Got(ChangeCipherSpec)
            && PassedAt(p, h, finished, FinishedMatched(Client))
            && h[finished - 1] == Got(Handshake(Message(Finished, p.mac(Messages(h[..finished - 1]), Client))))
    ensures var p, h := server.p, server.conn.history;
            && (Puts(h, CertificateRequest) <==> WantsCertificate(p))
            && (WantsCertificate(p) ==> read < changed < |h| && ReadsChain(h, read))
    ensures var p, h := server.p, server.conn.history;
            WantsCertificate(p) && ReadsChain(h, read) && !h[read].c.emptyChain ==>
              && read < verified < signed < changed < |h|
              && PassedAt(p, h, verified, ClientVerified) && h[verified].c.ok && !h[verified].c.retry
              && PassedAt(p, h, signed, ClientSigned)
              && h[signed - 1].Got? && h[signed - 1].item.Handshake? && h[signed - 1].item.m.kind == CertificateVerify
              && p.verify(Messages(h[..signed - 1]), h[signed - 1].item.m.body)
  {
    hide ServerHandshake.Valid, InOrder, Due, Messages, PassedAt, ReadsChain, Puts, WholeTrace, WantsCertificate, Asks;
    SentAsDue(server);
    AsksWhenWanted(server.p);
    DoneInOrder(server);
    read, verified, signed, changed, finished := ChecksInOrder(server.p, server.conn.history, server.peerKey);
    ChainHas(server.conn.history, read);
  }

  lemma ChainHas(h: seq<Event>, k: nat)
    ensures ReadsChain(h, k) ==> k < |h| && h[k].Passed?
  {
  }

  lemma AsksWhenWanted(p: Params)
    ensures Asks(p) <==> WantsCertificate(p)
  {
  }

  lemma DueDone(p: Params, peerKey: bool)
    ensures Due(p, Done, peerKey) ==
      (if Asks(p) then [ChainRead(!peerKey)] else []) + (if peerKey then [ClientVerified, ClientSigned] else [])
      + [CipherChanged, FinishedMatched(Client)]
  {
  }

  /** At `k` the server notes whether the chain is empty in the Certificate that it has just read, the
      only one it ever notes. */
  ghost predicate ReadsChain(h: seq<Event>, k: nat) {
    && 0 < k < |h| && h[k].Passed? && h[k].check.ChainRead? && h[k].c.ok
    && h[k - 1].Got? && h[k - 1].item.Handshake? && h[k - 1].item.m.kind == Certificate
    && forall i :: 0 <= i < |h| && h[i].Passed? && h[i].check.ChainRead? ==> i == k
  }

  lemma ChainReadOnce(p: Params, h: seq<Event>, peerKey: bool, ks: seq<nat>)
    requires Places(p, h, Due(p, Done, peerKey), ks) && Asks(p)
    ensures ks != [] && ReadsChain(h, ks[0]) && h[ks[0]].c.emptyChain == !peerKey
  {
    hide Due, PassedAt;
    DueDone(p, peerKey);
    WhatPassed(p, h, ks[0], ChainRead(!peerKey));
    forall i | 0 <= i < |h| && h[i].Passed? && h[i].check.ChainRead?
      ensures i == ks[0]
    {
      var j :| 0 <= j < |ks| && ks[j] == i;
      WhatPassed(p, h, i, Due(p, Done, peerKey)[j]);
    }
  }

  /** With a verify mode that requires a certificate, no Channel ID in its place, and a full handshake
      with a cipher that goes with certificates, a handshake that is through has asked for one, has read
      a chain that is not empty, has verified it, and has then read a signature over the messages
      before it. */
  lemma RequiredCertificate(server: ServerHandshake) returns (read: nat, verified: nat, signed: nat)
    requires server.Valid() && server.state == Done && server.wait != Error
    requires server.p.verifyPeer && !(server.p.unlessChannelId && server.p.channelIdOffered)
    requires server.p.requireCertificate && !server.p.hello.resumed
    requires server.p.hello.cipher == RsaCert || server.p.hello.cipher == EcdheCert
    ensures var p, h := server.p, server.conn.history;
            && Puts(h, CertificateRequest)
            && ReadsChain(h, read) && !h[read].c.emptyChain && server.peerKey
            && read < verified < signed && PassedAt(p, h, verified, ClientVerified)
            && PassedAt(p, h, signed, ClientSigned)
  {
    hide ServerHandshake.Valid, InOrder, Due, Messages, PassedAt, ReadsChain, Puts, WholeTrace;
    SentAsDue(server);
    AsksWhenWanted(server.p);
    DoneInOrder(server);
    RequiredSent(server);
    var changed, finished;
    read, verified, signed, changed, finished := ChecksInOrder(server.p, server.conn.history, server.peerKey);
  }

  lemma RequiredSent(server: ServerHandshake)
    requires server.Valid() && server.state == Done && server.wait != Error
    ensures server.p.requireCertificate && Asks(server.p) ==> server.peerKey
  {
    hide Kept, Connection.Valid;
  }

  /** From these places on the client's flight is next. */
  lemma TurnOfClient(p: Params, n: nat)
    requires n == 0 || if p.hello.resumed then 5 <= n <= 8 else 7 <= n <= 13
    ensures PeersTurn(p, Server, n)
  {
    var k := if n == 0 then 0 else if p.hello.resumed then 8 else 13;
    assert SendsAt(p, Server.Peer(), k);
  }

  lemma ChangePlace(p: Params)
    ensures Comes(p, Server, if p.hello.resumed then 3 else 15, ChangeCipherSpec)
  {
  }
}
