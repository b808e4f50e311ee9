/** The client's handshake state machine. */
module HandshakeClient {
  import opened Wrappers
  import opened HandshakeScript
  import opened HandshakeTransport
  import opened HandshakeChecks

  datatype State =
    | StartConnect | EnterEarlyData | ReadServerHello
    | ReadServerCertificate | ReadCertificateStatus | VerifyServerCertificate | ReadServerKeyExchange
    | ReadCertificateRequest | ReadServerHelloDone
    | SendClientCertificate | SendClientKeyExchange | SendClientCertificateVerify | SendClientFinished
    | FinishFlight | ReadSessionTicket | ProcessChangeCipherSpec | ReadServerFinished
    | FinishClientHandshake | Done

  /** Where a state stands in the order of states, which depends on resumption. */
  function Pos(state: State, resumed: bool): nat {
    match state
    case StartConnect => 0
    case EnterEarlyData => 1
    case ReadServerHello => 2
    case ReadServerCertificate => 3
    case ReadCertificateStatus => 4
    case VerifyServerCertificate => 5
    case ReadServerKeyExchange => 6
    case ReadCertificateRequest => 7
    case ReadServerHelloDone => 8
    case SendClientCertificate => 9
    case SendClientKeyExchange => 10
    case SendClientCertificateVerify => 11
    case SendClientFinished => if resumed then 15 else 12
    case FinishFlight => if resumed then 16 else 13
    case ReadSessionTicket => if resumed then 12 else 14
    case ProcessChangeCipherSpec => if resumed then 13 else 15
    case ReadServerFinished => if resumed then 14 else 16
    case FinishClientHandshake => 17
    case Done => 18
  }

  const LAST: nat := 18

  /** The first place of the script that a client in a state is not through with. */
  function PlaceOf(state: State, wait: Wait, resumed: bool): nat {
    match state
    case StartConnect => 0
    case EnterEarlyData => 1
    case ReadServerHello => 1
    case ReadServerCertificate => 2
    case ReadCertificateStatus => 3
    case VerifyServerCertificate => 4
    case ReadServerKeyExchange => 4
    case ReadCertificateRequest => 5
    case ReadServerHelloDone => 6
    case SendClientCertificate => 7
    case SendClientKeyExchange => 8
    case SendClientCertificateVerify => 9
    case SendClientFinished => if resumed then 5 else 10
    case FinishFlight => if resumed then 9 else 14
    case ReadSessionTicket => if resumed then 2 else 14
    case ProcessChangeCipherSpec => (if resumed then 3 else 15) + if wait == ReadChange then 0 else 1
    case ReadServerFinished => if resumed then 4 else 16
    case FinishClientHandshake => if resumed then 9 else 17
    case Done => if resumed then 9 else 17
  }

  // ----- the order of checks

  /** The checks of a client, in this order; `h` is what its ServerHello said. */
  function Checks(h: Hello): seq<Check> {
    [HelloRead(h), CertificateRead, CertificateVerified, KeyExchangeSigned, CipherChanged, FinishedMatched(Server)]
  }

  /** Those that a client in a state has passed. */
  function Due(state: State, h: Hello): seq<Check> {
    DueOf(Checks(h), state, h)
  }

  function DueOf(checks: seq<Check>, state: State, h: Hello): seq<Check> {
    if checks == [] then []
    else
      var n := |checks| - 1;
      DueOf(checks[..n], state, h) + if IsDue(checks[n], state, h) then [checks[n]] else []
  }

  predicate IsDue(check: Check, state: State, h: Hello) {
    match check
    case HelloRead(_) => Pos(state, false) > 2
    case CertificateRead => !h.resumed && Pos(state, false) > 3 && h.cipher.UsesCertificate()
    case CertificateVerified => !h.resumed && Pos(state, false) > 5 && h.cipher.UsesCertificate()
    case KeyExchangeSigned => !h.resumed && Pos(state, false) > 6 && h.cipher == EcdheCert
    case CipherChanged => Pos(state, h.resumed) > Pos(ProcessChangeCipherSpec, h.resumed)
    case FinishedMatched(_) => Pos(state, h.resumed) > Pos(ReadServerFinished, h.resumed)
    case _ => false
  }

  /** The state that makes a check; none makes those of the server. */
  function StateOf(check: Check): State {
    match check
    case HelloRead(_) => State.ReadServerHello
    case CertificateRead => ReadServerCertificate
    case CertificateVerified => VerifyServerCertificate
    case KeyExchangeSigned => ReadServerKeyExchange
    case CipherChanged => ProcessChangeCipherSpec
    case FinishedMatched(from) => if from.Server? then ReadServerFinished else Done
    case _ => Done
  }

  // ----- what a client reads and sends

  /** What a client may read and send in a state.  `certRequest` is whether its server has asked for a
      certificate; a CertificateStatus may be left out, and a ServerKeyExchange for plain PSK. */
  ghost predicate MayDo(p: Params, state: State, h: Hello, certRequest: bool, acts: seq<Act>) {
    match state
    case StartConnect => acts == [Sends(Some(ClientHello))]
    case ReadServerHello => acts == [Reads(Some(ServerHello))]
    case ReadServerCertificate =>
      acts == if h.cipher == RsaCert || h.cipher == EcdheCert then [Reads(Some(Certificate))] else []
    case ReadCertificateStatus => acts == [] || (h.ocsp && acts == [Reads(Some(CertificateStatus))])
    case ReadServerKeyExchange =>
      if h.cipher == EcdheCert || h.cipher == EcdhePsk then acts == [Reads(Some(ServerKeyExchange))]
      else acts == [] || (h.cipher == PlainPsk && acts == [Reads(Some(ServerKeyExchange))])
    case ReadCertificateRequest => acts == if certRequest then [Reads(Some(CertificateRequest))] else []
    case ReadServerHelloDone => acts == [Reads(Some(ServerHelloDone))]
    case SendClientCertificate => acts == if certRequest then [Sends(Some(Certificate))] else []
    case SendClientKeyExchange => acts == [Sends(Some(ClientKeyExchange))]
    case SendClientCertificateVerify =>
      acts == if certRequest && p.clientHasCertificate then [Sends(Some(CertificateVerify))] else []
    case SendClientFinished => acts == FinishedActs(h)
    case ReadSessionTicket => acts == if h.ticket then [Reads(Some(NewSessionTicket))] else []
    case ReadServerFinished => acts == [Reads(Some(Finished))]
    case _ => acts == []
  }

  function NextProtoActs(h: Hello): seq<Act> {
    if h.npn then [Sends(Some(NextProto))] else []
  }

  function ChannelIdActs(h: Hello): seq<Act> {
    if h.channelId then [Sends(Some(ChannelId))] else []
  }

  function FinishedActs(h: Hello): seq<Act> {
    [Sends(None)] + NextProtoActs(h) + ChannelIdActs(h) + [Sends(Some(Finished))]
  }

  /** It did what it may. */
  ghost predicate Did(p: Params, was: seq<Event>, now: seq<Event>, state: State, h: Hello, certRequest: bool) {
    exists acts :: Acted(was, now, acts) && MayDo(p, state, h, certRequest, acts)
  }

  lemma Doing(p: Params, was: seq<Event>, now: seq<Event>, state: State, h: Hello, certRequest: bool, acts: seq<Act>)
    requires Acted(was, now, acts) && MayDo(p, state, h, certRequest, acts)
    ensures Did(p, was, now, state, h, certRequest)
  {
  }

  /** The state before. */
  function Before(state: State, resumed: bool): (s: State)
    requires state != StartConnect
    ensures Pos(s, resumed) < Pos(state, resumed)
  {
    match state
    case EnterEarlyData => StartConnect
    case ReadServerHello => EnterEarlyData
    case ReadServerCertificate => State.ReadServerHello
    case ReadCertificateStatus => ReadServerCertificate
    case VerifyServerCertificate => ReadCertificateStatus
    case ReadServerKeyExchange => VerifyServerCertificate
    case ReadCertificateRequest => ReadServerKeyExchange
    case ReadServerHelloDone => ReadCertificateRequest
    case SendClientCertificate => ReadServerHelloDone
    case SendClientKeyExchange => SendClientCertificate
    case SendClientCertificateVerify => SendClientKeyExchange
    case SendClientFinished => if resumed then ReadServerFinished else SendClientCertificateVerify
    case FinishFlight => SendClientFinished
    case ReadSessionTicket => if resumed then State.ReadServerHello else FinishFlight
    case ProcessChangeCipherSpec => ReadSessionTicket
    case ReadServerFinished => ProcessChangeCipherSpec
    case FinishClientHandshake => if resumed then FinishFlight else ReadServerFinished
    case Done => FinishClientHandshake
  }

  /** `acts` is what may happen from a state to the next; the ChangeCipherSpec is awaited behind its
      state. */
  ghost predicate Passes(p: Params, state: State, h: Hello, certRequest: bool, acts: seq<Act>) {
    if state.ProcessChangeCipherSpec? then acts == [Reads(None)] else MayDo(p, state, h, certRequest, acts)
  }

  /** What was read and sent leads to a state. */
  ghost predicate Trail(p: Params, state: State, h: Hello, certRequest: bool, trace: seq<Act>)
    decreases Pos(state, h.resumed)
  {
    if state == StartConnect then trace == []
    else
      var before := Before(state, h.resumed);
      exists k :: 0 <= k <= |trace| && Trail(p, before, h, certRequest, trace[..k])
                  && Passes(p, before, h, certRequest, trace[k..])
  }

  ghost predicate TrailAt(p: Params, v: Phase, trace: seq<Act>) {
    if v.state.ProcessChangeCipherSpec? && v.wait != ReadChange then
      && trace != [] && trace[|trace| - 1] == Reads(None)
      && Trail(p, v.state, v.hello, v.certRequest, trace[..|trace| - 1])
    else Trail(p, v.state, v.hello, v.certRequest, trace)
  }

  /** The checks passed in a history are those due, and what was read and sent leads to where the
      client is. */
  ghost predicate Kept(p: Params, h: seq<Event>, v: Phase) {
    InOrder(p, h, Due(v.state, v.hello)) && TrailAt(p, v, Trace(h))
  }

  /** Going on is having done what the state may do. */
  lemma TrailNext(p: Params, v: Phase, w: Phase, trace: seq<Act>, acts: seq<Act>)
    requires v.wait == Ok && TrailAt(p, v, trace) && MayDo(p, v.state, w.hello, w.certRequest, acts)
    requires w.hello == v.hello && w.certRequest == v.certRequest && Follows(v.state, w.state, v.hello.resumed)
    requires w.state == ProcessChangeCipherSpec ==> w.wait == ReadChange
    ensures TrailAt(p, w, trace + acts)
  {
    hide Trail, MayDo;
    assert w.state != StartConnect && Before(w.state, w.hello.resumed) == v.state;
    if v.state == ProcessChangeCipherSpec {
      assert acts == [] by { NoActs(p, w.hello, w.certRequest, acts); }
      assert trace + acts == trace && trace == trace[..|trace| - 1] + [Reads(None)];
      TrailOn(p, v.state, w.state, w.hello, w.certRequest, trace[..|trace| - 1], [Reads(None)]);
    } else {
      TrailOn(p, v.state, w.state, w.hello, w.certRequest, trace, acts);
    }
  }

  lemma NoActs(p: Params, h: Hello, certRequest: bool, acts: seq<Act>)
    requires MayDo(p, ProcessChangeCipherSpec, h, certRequest, acts)
    ensures acts == []
  {
  }

  lemma TrailOn(p: Params, s: State, t: State, h: Hello, certRequest: bool, trace: seq<Act>, acts: seq<Act>)
    requires t != StartConnect && Before(t, h.resumed) == s
    requires Trail(p, s, h, certRequest, trace) && Passes(p, s, h, certRequest, acts)
    ensures Trail(p, t, h, certRequest, trace + acts)
  {
    hide Passes;
    var all := trace + acts;
    assert all[..|trace|] == trace && all[|trace|..] == acts;
  }

  /** What leads to the ServerHello does not depend on what it says, nor what leads to a
      CertificateRequest on whether there is one. */
  lemma {:induction false} TrailSame(p: Params, s: State, h: Hello, other: Hello, certRequest: bool, requested: bool,
                                     trace: seq<Act>)
    requires Pos(s, false) <= 2 || (h == other && !h.resumed && Pos(s, false) <= 7)
    requires Trail(p, s, h, certRequest, trace)
    ensures Trail(p, s, other, requested, trace)
    decreases Pos(s, false)
  {
    hide Passes;
    if s != StartConnect {
      var before := Before(s, h.resumed);
      var k :| 0 <= k <= |trace| && Trail(p, before, h, certRequest, trace[..k])
               && Passes(p, before, h, certRequest, trace[k..]);
      TrailSame(p, before, h, other, certRequest, requested, trace[..k]);
      PassesSame(p, before, h, other, certRequest, requested, trace[k..]);
    }
  }

  lemma PassesSame(p: Params, s: State, h: Hello, other: Hello, certRequest: bool, requested: bool, acts: seq<Act>)
    requires Pos(s, false) <= 1 || (h == other && Pos(s, false) <= 6)
    ensures Passes(p, s, h, certRequest, acts) == Passes(p, s, other, requested, acts)
  {
  }

  /** Waiting, but for a ChangeCipherSpec, changes nothing. */
  lemma KeptWaiting(p: Params, h: seq<Event>, v: Phase, w: Wait)
    requires Kept(p, h, v) && v.wait != ReadChange && w != ReadChange
    ensures Kept(p, h, v.(wait := w))
  {
    hide InOrder, Due, Trail, Trace;
  }

  /** When it comes it is what the client waited for. */
  lemma KeptChange(p: Params, h: seq<Event>, v: Phase)
    requires Kept(p, h, v) && v.wait == ReadChange && v.state == ProcessChangeCipherSpec
    ensures Kept(p, h + [Got(ChangeCipherSpec)], v.(wait := Ok))
  {
    hide InOrder, Due, Trail, Trace;
    InOrderMore(p, h, h + [Got(ChangeCipherSpec)], Due(v.state, v.hello));
    NotActed(h);
    ActedMore(h, h, [], Got(ChangeCipherSpec));
    assert (Trace(h) + [Reads(None)])[..|Trace(h)|] == Trace(h);
  }

  /** The ServerHello settles what the trail is about. */
  lemma TrailPastHello(p: Params, v: Phase, said: Hello, trace: seq<Act>)
    requires v.state == State.ReadServerHello && TrailAt(p, v, trace)
    ensures Trail(p, if said.resumed then ReadSessionTicket else ReadServerCertificate, said, false,
                  trace + [Reads(Some(ServerHello))])
  {
    hide Trail;
    var t := if said.resumed then ReadSessionTicket else ReadServerCertificate;
    TrailSame(p, v.state, v.hello, said, v.certRequest, false, trace);
    TrailOn(p, v.state, t, said, false, trace, [Reads(Some(ServerHello))]);
  }

  /** And so does a CertificateRequest, or its absence. */
  lemma TrailPastRequest(p: Params, v: Phase, requested: bool, trace: seq<Act>)
    requires v.state == ReadCertificateRequest && !v.hello.resumed && TrailAt(p, v, trace)
    ensures Trail(p, ReadServerHelloDone, v.hello, requested,
                  trace + if requested then [Reads(Some(CertificateRequest))] else [])
  {
    hide Trail;
    TrailSame(p, v.state, v.hello, v.hello, v.certRequest, requested, trace);
    TrailOn(p, v.state, ReadServerHelloDone, v.hello, requested, trace,
      if requested then [Reads(Some(CertificateRequest))] else []);
  }

  // ----- decisions

  /** What was passed in between was decided by `choose`. */
  ghost predicate Decided(was: seq<Event>, now: seq<Event>, choose: State -> Choice) {
    was <= now && forall i :: |was| <= i < |now| && now[i].Passed? ==> now[i].c == choose(StateOf(now[i].check))
  }

  /** What was passed in between is the state's check, decided by `c`. */
  ghost predicate DecidedIn(was: seq<Event>, now: seq<Event>, state: State, c: Choice) {
    was <= now && forall i :: |was| <= i < |now| && now[i].Passed? ==> now[i].c == c && StateOf(now[i].check) == state
  }

  /** A state makes no check, or not with these parameters. */
  predicate Unchecked(state: State, h: Hello) {
    match state
    case ReadServerHello => false
    case ReadServerCertificate => h.resumed || !h.cipher.UsesCertificate()
    case VerifyServerCertificate => h.resumed || !h.cipher.UsesCertificate()
    case ReadServerKeyExchange => h.resumed || h.cipher != EcdheCert
    case ProcessChangeCipherSpec => false
    case ReadServerFinished => false
    case _ => true
  }

  /** `t` is the state after `s`. */
  predicate Follows(s: State, t: State, resumed: bool) {
    s != Done && t == After(s, resumed) && (resumed ==> !OnlyInFull(s))
  }

  lemma DueSame(s: State, t: State, h: Hello)
    requires Follows(s, t, h.resumed) && Unchecked(s, h)
    ensures Due(t, h) == Due(s, h)
  {
    hide IsDue;
    SameDue(s, t, h);
    DueOfSame(Checks(h), s, t, h);
  }

  lemma SameDue(s: State, t: State, h: Hello)
    requires Follows(s, t, h.resumed) && Unchecked(s, h)
    ensures forall check :: IsDue(check, t, h) == IsDue(check, s, h)
  {
  }

  lemma {:induction false} DueOfSame(checks: seq<Check>, s: State, t: State, h: Hello)
    requires forall i :: 0 <= i < |checks| ==> IsDue(checks[i], t, h) == IsDue(checks[i], s, h)
    ensures DueOf(checks, t, h) == DueOf(checks, s, h)
    decreases |checks|
  {
    hide IsDue;
    if checks != [] {
      DueOfSame(checks[..|checks| - 1], s, t, h);
    }
  }

  /** One more is due, and none of those behind it. */
  lemma {:induction false} DueOfNext(checks: seq<Check>, k: nat, s: State, t: State, h: Hello)
    requires k < |checks| && IsDue(checks[k], t, h) && !IsDue(checks[k], s, h)
    requires forall i :: 0 <= i < |checks| && i != k ==> IsDue(checks[i], t, h) == IsDue(checks[i], s, h)
    requires forall i :: k < i < |checks| ==> !IsDue(checks[i], s, h)
    ensures DueOf(checks, t, h) == DueOf(checks, s, h) + [checks[k]]
    decreases |checks|
  {
    hide IsDue;
    var n := |checks| - 1;
    if k < n {
      DueOfNext(checks[..n], k, s, t, h);
    } else {
      DueOfSame(checks[..n], s, t, h);
    }
  }

  /** Moving on from a state that makes no check. */
  lemma MovesOn(p: Params, was: seq<Event>, now: seq<Event>, s: State, t: State, h: Hello, c: Choice)
    requires Quietly(was, now) && (s == t || (Follows(s, t, h.resumed) && Unchecked(s, h)))
    ensures InOrder(p, was, Due(s, h)) ==> InOrder(p, now, Due(t, h))
    ensures DecidedIn(was, now, s, c)
  {
    hide InOrder, Due, Follows, Unchecked;
    if s != t {
      DueSame(s, t, h);
    }
    if InOrder(p, was, Due(s, h)) {
      InOrderMore(p, was, now, Due(s, h));
    }
  }

  lemma DueNext(check: Check, t: State, h: Hello)
    requires Follows(StateOf(check), t, h.resumed) && !Unchecked(StateOf(check), h) && !check.HelloRead?
    ensures Due(t, h) == Due(StateOf(check), h) + [check]
  {
    hide DueOf;
    var k :=
      match check
      case CertificateRead => 1
      case CertificateVerified => 2
      case KeyExchangeSigned => 3
      case CipherChanged => 4
      case _ => 5;
    DueOfNext(Checks(h), k, StateOf(check), t, h);
  }

  /** Moving on past a check. */
  lemma MovesPast(p: Params, was: seq<Event>, mid: seq<Event>, check: Check, t: State, h: Hello, c: Choice)
    requires Quietly(was, mid) && Earns(p, mid, check, c)
    requires Follows(StateOf(check), t, h.resumed) && !Unchecked(StateOf(check), h) && !check.HelloRead?
    ensures InOrder(p, was, Due(StateOf(check), h)) ==> InOrder(p, mid + [Passed(check, c)], Due(t, h))
    ensures DecidedIn(was, mid + [Passed(check, c)], StateOf(check), c)
  {
    hide InOrder, Earns, Due;
    DueNext(check, t, h);
    if InOrder(p, was, Due(StateOf(check), h)) {
      InOrderMore(p, was, mid, Due(StateOf(check), h));
      InOrderPass(p, mid, Due(StateOf(check), h), check, c);
    }
  }

  lemma DueAtHello(h: Hello)
    ensures Due(State.ReadServerHello, h) == []
    ensures Due(if h.resumed then ReadSessionTicket else ReadServerCertificate, h) == [HelloRead(h)]
  {
    var t := if h.resumed then ReadSessionTicket else ReadServerCertificate;
    NothingDue(State.ReadServerHello, h);
    DueOfNext(Checks(h), 0, State.ReadServerHello, t, h);
  }

  lemma NothingDue(s: State, h: Hello)
    requires s == StartConnect || s == State.ReadServerHello
    ensures Due(s, h) == []
  {
    DueOfNone(Checks(h), s, h);
  }

  lemma {:induction false} DueOfNone(checks: seq<Check>, s: State, h: Hello)
    requires forall i :: 0 <= i < |checks| ==> !IsDue(checks[i], s, h)
    ensures DueOf(checks, s, h) == []
    decreases |checks|
  {
    hide IsDue;
    if checks != [] {
      DueOfNone(checks[..|checks| - 1], s, h);
    }
  }

  /** Moving on from the ServerHello, whose parameters become those of the handshake. */
  lemma MovesPastHello(p: Params, was: seq<Event>, mid: seq<Event>, before: Hello, c: Choice)
    requires Quietly(was, mid) && Earns(p, mid, HelloRead(c.hello), c)
    requires InOrder(p, was, Due(State.ReadServerHello, before))
    ensures var t := if c.hello.resumed then ReadSessionTicket else ReadServerCertificate;
            InOrder(p, mid + [Passed(HelloRead(c.hello), c)], Due(t, c.hello))
    ensures DecidedIn(was, mid + [Passed(HelloRead(c.hello), c)], State.ReadServerHello, c)
  {
    hide InOrder, Earns, Due;
    DueAtHello(before);
    DueAtHello(c.hello);
    InOrderMore(p, was, mid, []);
    InOrderPass(p, mid, [], HelloRead(c.hello), c);
    assert [] + [HelloRead(c.hello)] == [HelloRead(c.hello)];
  }

  // ----- the order of states

  /** The state that follows. */
  function After(state: State, resumed: bool): State {
    match state
    case StartConnect => EnterEarlyData
    case EnterEarlyData => State.ReadServerHello
    case ReadServerHello => if resumed then ReadSessionTicket else ReadServerCertificate
    case ReadServerCertificate => ReadCertificateStatus
    case ReadCertificateStatus => VerifyServerCertificate
    case VerifyServerCertificate => ReadServerKeyExchange
    case ReadServerKeyExchange => ReadCertificateRequest
    case ReadCertificateRequest => ReadServerHelloDone
    case ReadServerHelloDone => SendClientCertificate
    case SendClientCertificate => SendClientKeyExchange
    case SendClientKeyExchange => SendClientCertificateVerify
    case SendClientCertificateVerify => SendClientFinished
    case SendClientFinished => FinishFlight
    case FinishFlight => if resumed then FinishClientHandshake else ReadSessionTicket
    case ReadSessionTicket => ProcessChangeCipherSpec
    case ProcessChangeCipherSpec => ReadServerFinished
    case ReadServerFinished => if resumed then SendClientFinished else FinishClientHandshake
    case FinishClientHandshake => Done
    case Done => Done
  }

  /** States that a resumed handshake does not go through. */
  predicate OnlyInFull(state: State) {
    match state
    case StartConnect => true
    case EnterEarlyData => true
    case ReadServerHello => true
    case ReadServerCertificate => true
    case ReadCertificateStatus => true
    case VerifyServerCertificate => true
    case ReadServerKeyExchange => true
    case ReadCertificateRequest => true
    case ReadServerHelloDone => true
    case SendClientCertificate => true
    case SendClientKeyExchange => true
    case SendClientCertificateVerify => true
    case _ => false
  }

  lemma AfterIsNext(s: State, t: State, resumed: bool)
    requires Follows(s, t, resumed)
    ensures Pos(t, resumed) == Pos(s, resumed) + 1 && (resumed ==> !OnlyInFull(t))
  {
  }

  // ----- what a client keeps between calls

  datatype Phase = Phase(state: State, wait: Wait, hello: Hello, certRequest: bool, ticketExpected: bool) {
    function Place(): nat {
      PlaceOf(state, wait, hello.resumed)
    }

    predicate Early() {
      state.StartConnect? || state.EnterEarlyData? || state.ReadServerHello?
    }

    /** The kind of message the state insists on. */
    function Wanted(): Option<Kind> {
      match state
      case ReadServerHello => Some(ServerHello)
      case ReadServerCertificate => if hello.cipher.UsesCertificate() then Some(Certificate) else None
      case ReadServerHelloDone => Some(ServerHelloDone)
      case ReadSessionTicket => if ticketExpected then Some(NewSessionTicket) else None
      case ReadServerFinished => Some(Finished)
      case _ => None
    }

    /** The kind of message the state takes if it is there. */
    function Welcome(): Option<Kind> {
      match state
      case ReadCertificateStatus => Some(CertificateStatus)
      case ReadServerKeyExchange => Some(ServerKeyExchange)
      case ReadCertificateRequest => Some(CertificateRequest)
      case _ => None
    }

    /** Nothing is to be read or written in the state, as far as the client knows. */
    predicate Empty(p: Params) {
      || (state == ReadServerCertificate && !hello.cipher.UsesCertificate())
      || (state == ReadCertificateStatus && !hello.ocsp)
      || (state == ReadCertificateRequest && !hello.cipher.UsesCertificate())
      || (state == SendClientCertificate && !certRequest)
      || (state == SendClientCertificateVerify && !(certRequest && p.clientHasCertificate))
      || (state == ReadSessionTicket && !ticketExpected)
    }

    /** A flight is being put together. */
    predicate Sending() {
      state.SendClientKeyExchange? || state.SendClientCertificateVerify? || state.SendClientFinished?
    }

    /** A snapshot of the transcript is taken. */
    predicate Snaps(p: Params) {
      state.SendClientFinished? || state.ReadServerFinished?
      || (state.SendClientCertificateVerify? && certRequest && p.clientHasCertificate)
    }

    /** The handshake buffer is still to be signed, or may be. */
    predicate NeedsBuffer(p: Params) {
      hello.cipher.UsesCertificate() && !hello.resumed &&
      match state
      case ReadServerCertificate => true
      case ReadCertificateStatus => true
      case VerifyServerCertificate => true
      case ReadServerKeyExchange => true
      case ReadCertificateRequest => true
      case ReadServerHelloDone => certRequest
      case SendClientCertificate => certRequest && p.clientHasCertificate
      case SendClientKeyExchange => certRequest && p.clientHasCertificate
      case SendClientCertificateVerify => certRequest && p.clientHasCertificate
      case _ => false
    }
  }

  /** State, parameters and transcript fit together: the handshake buffer is there as long as it may
      be read, and a flight is flushed before anything is read. */
  ghost predicate Fits(p: Params, v: Phase, buffer: bool, idle: bool) {
    && (v.NeedsBuffer(p) ==> buffer) && (v.hello.resumed ==> !OnlyInFull(v.state))
    && (v.certRequest ==> Pos(v.state, false) > 7 && v.hello.cipher.UsesCertificate() && !v.hello.resumed)
    && (v.wait == Flush || v.Sending() || idle)
    && (Reading(v.wait) ==> v.Wanted().Some? || v.Welcome().Some?)
    && (v.wait == ReadChange ==> v.state == ProcessChangeCipherSpec)
    && (!v.Early() && Pos(v.state, v.hello.resumed) <= Pos(ReadSessionTicket, v.hello.resumed) ==>
          v.ticketExpected == v.hello.ticket)
  }

  /** What the client knows of the negotiated parameters is right. */
  ghost predicate Knows(p: Params, v: Phase) {
    && (!v.Early() ==> v.hello == p.hello)
    && (!v.Early() && Pos(v.state, p.hello.resumed) > 7 ==>
          v.certRequest == (RequestsCertificate(p) && !p.hello.resumed))
    && (!v.Early() && Pos(v.state, p.hello.resumed) <= Pos(ReadSessionTicket, p.hello.resumed) ==>
          v.ticketExpected == p.hello.ticket)
  }

  /** A state leads to the one after it, and waits for nothing but a flush or a ChangeCipherSpec. */
  predicate Leads(v: Phase, w: Phase) {
    && v.wait == Ok && w.hello == v.hello && w.certRequest == v.certRequest && v.Early() == w.Early()
    && Follows(v.state, w.state, v.hello.resumed)
    && (if w.state == ProcessChangeCipherSpec then w.wait == ReadChange
        else w.wait == Ok || w.wait == Flush || w.wait == EarlyReturn)
    && (w.ticketExpected == v.ticketExpected || v.state == ReadSessionTicket)
  }

  lemma LeadsFits(p: Params, v: Phase, w: Phase, buffer: bool, idle: bool, buffer': bool, idle': bool)
    requires Fits(p, v, buffer, idle) && Leads(v, w)
    requires buffer == buffer' || !w.NeedsBuffer(p)
    requires (idle' == idle && !v.Sending()) || w.wait == Flush || w.Sending()
    ensures Fits(p, w, buffer', idle') && (v.certRequest ==> v.hello.cipher.UsesCertificate())
  {
  }

  lemma LeadsKnows(p: Params, v: Phase, w: Phase)
    requires Leads(v, w) && (v.state == ReadCertificateRequest ==> !v.hello.cipher.UsesCertificate())
    requires v.certRequest ==> v.hello.cipher.UsesCertificate()
    ensures Knows(p, v) ==> Knows(p, w)
    ensures Pos(w.state, w.hello.resumed) > Pos(v.state, v.hello.resumed)
  {
  }

  /** A state comes to rest: it fails, or is to be tried again, or waits for its message. */
  lemma Rests(p: Params, v: Phase, buffer: bool, idle: bool, wait: Wait)
    requires Fits(p, v, buffer, idle) && v.wait == Ok
    requires wait == Error || wait == Paused || (Reading(wait) && (v.Wanted().Some? || v.Welcome().Some?))
    ensures Fits(p, v.(wait := wait), buffer, idle) && (Knows(p, v) ==> Knows(p, v.(wait := wait)))
  {
  }

  /** A state that waited for anything but a flush goes on, or fails. */
  lemma Resumes(p: Params, v: Phase, buffer: bool, idle: bool)
    requires Fits(p, v, buffer, idle) && v.wait != Flush
    ensures Fits(p, v.(wait := Ok), buffer, idle) && Fits(p, v.(wait := Error), buffer, idle)
    ensures Knows(p, v) ==> Knows(p, v.(wait := Ok))
    ensures v.wait == ReadChange ==> v.state == ProcessChangeCipherSpec
  {
  }

  /** One that waited for a flush goes on with nothing left to be flushed. */
  lemma Flushes(p: Params, v: Phase, buffer: bool, idle: bool)
    requires Fits(p, v, buffer, idle) && v.wait == Flush
    ensures Fits(p, v.(wait := Ok), buffer, true) && Fits(p, v, buffer, true) && Fits(p, v, buffer, false)
    ensures Knows(p, v) ==> Knows(p, v.(wait := Ok))
  {
  }

  /** A ServerHello settles the parameters, and whether the buffer is needed any more. */
  lemma HelloAdopted(p: Params, v: Phase, idle: bool, said: Hello)
    requires Fits(p, v, true, idle) && v.state == State.ReadServerHello && v.wait == Ok
    ensures !v.certRequest && idle
    ensures var state := if said.resumed then ReadSessionTicket else ReadServerCertificate;
            var w := Phase(state, Ok, said, false, said.ticket);
            && Fits(p, w, !said.resumed && said.cipher.UsesCertificate(), idle)
            && Fits(p, w, true, idle)
            && (said == p.hello ==> Knows(p, w))
            && Pos(w.state, said.resumed) > Pos(v.state, v.hello.resumed)
  {
  }

  /** What the client notes of a CertificateRequest, or of there being none. */
  lemma RequestNoted(p: Params, v: Phase, buffer: bool, idle: bool, requested: bool)
    requires Fits(p, v, buffer, idle) && v.state == ReadCertificateRequest && v.wait == Ok
    requires v.hello.cipher.UsesCertificate() && !v.hello.resumed
    ensures buffer && idle
    ensures var w := v.(state := ReadServerHelloDone, certRequest := requested);
            && Fits(p, w, requested, idle) && Fits(p, w, true, idle)
            && Pos(w.state, v.hello.resumed) > Pos(v.state, v.hello.resumed)
            && (Knows(p, v) && requested == RequestsCertificate(p) ==> Knows(p, w))
  {
  }

  /** A client and its connection at the beginning of a step. */
  datatype Footing = Footing(phase: Phase, buffer: bool, inbox: seq<Item>, flight: seq<Item>, outbox: seq<Item>,
                             gone: seq<Item>, sent: seq<Item>, seen: seq<Item>, history: seq<Event>,
                             snapshots: Snapshots, onScript: bool) {
    function To(t: State, w: Wait): Phase {
      phase.(state := t, wait := w)
    }
  }

  lemma SamePlace(state: State, w: Wait, resumed: bool)
    requires w != ReadChange
    ensures PlaceOf(state, w, resumed) == PlaceOf(state, Ok, resumed)
  {
  }

  lemma EmptyPlace(p: Params, v: Phase)
    requires Knows(p, v) && v.Empty(p) && (v.hello.resumed ==> !OnlyInFull(v.state))
    ensures v.Place() < End(p.hello.resumed) && !Here(p, v.Place())
  {
  }

  /** A client that waits for its peer is at a place of the server's. */
  lemma ReadsAt(p: Params, v: Phase, buffer: bool, idle: bool)
    requires Fits(p, v, buffer, idle) && Knows(p, v)
    requires Reading(v.wait) || v.wait == ReadChange || (v.wait == Ok && (v.Wanted().Some? || v.Welcome().Some?))
    ensures if p.hello.resumed then 1 <= v.Place() <= 4 else 1 <= v.Place() <= 6 || 14 <= v.Place() <= 16
  {
  }

  /** What it then finds is a message. */
  lemma MessageNext(p: Params, v: Phase, k: nat, buffer: bool, idle: bool)
    requires Fits(p, v, buffer, idle) && Knows(p, v) && Reading(v.wait)
    requires v.Place() <= k < End(p.hello.resumed) && SendsAt(p, Server, k)
    requires forall j :: v.Place() <= j < k ==> !SendsAt(p, Server, j)
    ensures ItemAt(p, k).Handshake?
  {
    hide ItemAt;
    var n := v.Place();
    ReadsAt(p, v, buffer, idle);
    assert SendsAt(p, Server, if n == 1 || p.hello.resumed || n > 6 then n else 6);
    assert PlaceAt(p, k).Place?;
    ItemOf(p, k);
  }

  lemma ItemOf(p: Params, k: nat)
    requires k < End(p.hello.resumed)
    ensures ItemAt(p, k).Handshake? <==> PlaceAt(p, k).Place?
  {
  }

  lemma FlightFlushed(p: Params, v: Phase, buffer: bool, idle: bool)
    requires Fits(p, v, buffer, idle) && (Reading(v.wait) || v.wait == ReadChange)
    ensures idle
  {
  }

  /** Or the ChangeCipherSpec, if it waits for that. */
  lemma ChangeNext(p: Params, v: Phase, buffer: bool, idle: bool)
    requires Fits(p, v, buffer, idle) && Knows(p, v) && v.wait == ReadChange
    ensures v.Place() < End(p.hello.resumed) && SendsAt(p, Server, v.Place())
      && ItemAt(p, v.Place()) == ChangeCipherSpec
  {
  }

  /** What is so where a state begins. */
  ghost predicate Begins(p: Params, a: Footing) {
    && a.phase.wait == Ok && Fits(p, a.phase, a.buffer, a.flight == [])
    && Kept(p, a.history, a.phase)
    && (a.onScript ==> Knows(p, a.phase) && SnapshotsOk(p, Client, a.phase.Place(), a.snapshots))
  }

  /** What the next state has, if the buffer and the flight are as they should be there. */
  ghost predicate MayEnter(p: Params, a: Footing, w: Phase, buffer: bool, flight: seq<Item>) {
    && Leads(a.phase, w) && (buffer == a.buffer || !w.NeedsBuffer(p))
    && (w.wait == Flush || w.Sending() || (flight == a.flight && !a.phase.Sending()))
    && (a.phase.state == ReadCertificateRequest ==> !w.hello.cipher.UsesCertificate())
  }

  lemma BeginsNext(p: Params, a: Footing, w: Phase, buffer: bool, flight: seq<Item>)
    requires Begins(p, a) && MayEnter(p, a, w, buffer, flight)
    ensures Fits(p, w, buffer, flight == []) && (a.onScript ==> Knows(p, w))
    ensures w.hello == a.phase.hello && a.phase.Early() == w.Early() && (w.hello.resumed ==> !OnlyInFull(w.state))
    ensures Pos(w.state, w.hello.resumed) > Pos(a.phase.state, a.phase.hello.resumed)
    ensures !Reading(w.wait) && w.wait != Paused && w.wait != Error
    ensures w.state == ProcessChangeCipherSpec ==> w.wait == ReadChange
  {
    hide InOrder, Due, SnapshotsOk, Fits, Knows;
    AfterIsNext(a.phase.state, w.state, w.hello.resumed);
    LeadsFits(p, a.phase, w, a.buffer, a.flight == [], buffer, flight == []);
    LeadsKnows(p, a.phase, w);
  }

  lemma BeginsOn(p: Params, a: Footing, w: Phase, buffer: bool, flight: seq<Item>, now: seq<Event>, c: Choice)
    requires Begins(p, a) && MayEnter(p, a, w, buffer, flight) && Quietly(a.history, now)
    requires Unchecked(a.phase.state, w.hello)
    requires Did(p, a.history, now, a.phase.state, w.hello, w.certRequest)
    ensures Kept(p, now, w) && DecidedIn(a.history, now, a.phase.state, c)
  {
    hide Fits, Knows, InOrder, Due, SnapshotsOk, MayDo, TrailAt, Trace;
    MovesOn(p, a.history, now, a.phase.state, w.state, w.hello, c);
    var acts :| Acted(a.history, now, acts) && MayDo(p, a.phase.state, w.hello, w.certRequest, acts);
    TrailNext(p, a.phase, w, Trace(a.history), acts);
  }

  lemma BeginsPast(p: Params, a: Footing, w: Phase, buffer: bool, flight: seq<Item>, mid: seq<Event>,
                   check: Check, c: Choice)
    requires Begins(p, a) && MayEnter(p, a, w, buffer, flight) && Quietly(a.history, mid)
    requires Earns(p, mid, check, c) && a.phase.state == StateOf(check) && !Unchecked(a.phase.state, w.hello)
    requires !check.HelloRead? && Did(p, a.history, mid, a.phase.state, w.hello, w.certRequest)
    ensures Kept(p, mid + [Passed(check, c)], w)
    ensures DecidedIn(a.history, mid + [Passed(check, c)], a.phase.state, c)
  {
    hide Fits, Knows, InOrder, Due, SnapshotsOk, MayDo, TrailAt, Trace, Earns;
    MovesPast(p, a.history, mid, check, w.state, w.hello, c);
    var acts :| Acted(a.history, mid, acts) && MayDo(p, a.phase.state, w.hello, w.certRequest, acts);
    ActedMore(a.history, mid, acts, Passed(check, c));
    assert acts + ActOf(Passed(check, c)) == acts;
    TrailNext(p, a.phase, w, Trace(a.history), acts);
  }

  /** Past the ServerHello, and past the CertificateRequest. */
  lemma KeptPastHello(p: Params, was: seq<Event>, mid: seq<Event>, v: Phase, c: Choice)
    requires Quietly(was, mid) && Earns(p, mid, HelloRead(c.hello), c)
    requires v.state == State.ReadServerHello && Kept(p, was, v)
    requires Acted(was, mid, [Reads(Some(ServerHello))])
    ensures var state := if c.hello.resumed then ReadSessionTicket else ReadServerCertificate;
            Kept(p, mid + [Passed(HelloRead(c.hello), c)], Phase(state, Ok, c.hello, false, c.hello.ticket))
    ensures DecidedIn(was, mid + [Passed(HelloRead(c.hello), c)], State.ReadServerHello, c)
  {
    hide InOrder, Due, Earns, Trail, Trace;
    MovesPastHello(p, was, mid, v.hello, c);
    ActedMore(was, mid, [Reads(Some(ServerHello))], Passed(HelloRead(c.hello), c));
    TrailPastHello(p, v, c.hello, Trace(was));
    assert [Reads(Some(ServerHello))] + ActOf(Passed(HelloRead(c.hello), c)) == [Reads(Some(ServerHello))];
  }

  lemma KeptPastRequest(p: Params, a: Footing, now: seq<Event>, requested: bool, c: Choice)
    requires Begins(p, a) && a.phase.state == ReadCertificateRequest && Quietly(a.history, now)
    requires Acted(a.history, now, if requested then [Reads(Some(CertificateRequest))] else [])
    ensures Kept(p, now, a.phase.(state := ReadServerHelloDone, certRequest := requested))
    ensures DecidedIn(a.history, now, a.phase.state, c)
  {
    hide Knows, InOrder, Due, SnapshotsOk, Trail, Trace;
    MovesOn(p, a.history, now, a.phase.state, ReadServerHelloDone, a.phase.hello, c);
    TrailPastRequest(p, a.phase, requested, Trace(a.history));
  }

  lemma BeginsStill(p: Params, a: Footing, w: Phase, buffer: bool, flight: seq<Item>)
    requires Begins(p, a) && MayEnter(p, a, w, buffer, flight) && !a.phase.Snaps(p)
    ensures a.onScript ==> SnapshotsOk(p, Client, w.Place(), a.snapshots)
  {
    hide Fits, Knows, InOrder, Due, SnapshotsOk;
    LeadsStill(p, a.phase, w, a.snapshots);
  }

  lemma LeadsStill(p: Params, v: Phase, w: Phase, s: Snapshots)
    requires Leads(v, w) && !v.Snaps(p)
    requires v.state == ReadCertificateRequest ==> !v.hello.cipher.UsesCertificate()
    ensures Knows(p, v) && SnapshotsOk(p, Client, v.Place(), s) ==> SnapshotsOk(p, Client, w.Place(), s)
  {
    hide SnapshotsOk;
    if Knows(p, v) {
      SnapshotsStay(p, Client, s, v.Place(), w.Place());
    }
  }

  class ClientHandshake {
    const p: Params
    const conn: Connection
    var state: State
    var wait: Wait
    var hello: Hello
    var certRequest: bool
    var ticketExpected: bool
    ghost var snapshots: Snapshots

    function Now(): Phase
      reads this`state, this`wait, this`hello, this`certRequest, this`ticketExpected
    {
      Phase(state, wait, hello, certRequest, ticketExpected)
    }

    /** The transcript's hash exists as soon as the ServerHello has been read. */
    ghost predicate HasHash()
      reads this, conn.transcript
    {
      if Now().Early() then conn.transcript.buffer.Some? && conn.transcript.hash.None? else conn.transcript.hash.Some?
    }

    /** What holds whatever the peer sends: state and transcript fit together, and the checks due in
        the state have been passed, in order. */
    ghost predicate Valid()
      reads this, conn, conn.transcript
    {
      && conn.Valid() && conn.side == Client && HasHash() && (hello.resumed ==> !OnlyInFull(state))
      && Fits(p, Now(), conn.transcript.buffer.Some?, conn.flight == [])
      && (wait != Error ==> Kept(p, conn.history, Now()) && MayChange())
    }

    /** The read cipher is changed only upon a ChangeCipherSpec. */
    ghost predicate MayChange()
      reads this`state, this`wait, conn`history
    {
      state == ProcessChangeCipherSpec && wait != ReadChange ==> JustChanged(conn.history)
    }

    ghost function At(): nat
      reads this`state, this`wait, this`hello, this`certRequest, this`ticketExpected
    {
      Now().Place()
    }

    /** The client and its peer keep to the script. */
    ghost predicate OnScript()
      requires Valid()
      reads this, conn, conn.transcript
    {
      && conn.OnScript(p, At()) && wait != Error && SnapshotsOk(p, Client, At(), snapshots) && Knows(p, Now())
    }

    ghost function Stands(): Footing
      requires Valid()
      reads this, conn, conn.transcript
    {
      Footing(Now(), conn.transcript.buffer.Some?, conn.inbox, conn.flight, conn.outbox, conn.gone, conn.sent,
              conn.Seen(), conn.history, snapshots, OnScript())
    }

    /** All checks succeed, and the peer's hello says what was negotiated. */
    ghost predicate Honest(c: Choice) {
      c.ok && c.hello == p.hello && Sound(p)
    }

    constructor (p: Params)
      ensures this.p == p && fresh(conn) && fresh(conn.transcript) && conn.side == Client
      ensures Valid() && OnScript() && state == StartConnect && wait == Ok && snapshots == Snapshots(None, None, None)
      ensures conn.inbox == conn.flight == conn.outbox == conn.received == conn.sent == conn.gone == []
      ensures conn.history == []
    {
      this.p := p;
      conn := new Connection(Client);
      state, wait, certRequest, ticketExpected := StartConnect, Ok, false, false;
      hello := Hello(PlainPsk, false, false, false, false, false);
      snapshots := Snapshots(None, None, None);
      new;
      hide Due;
      NothingDue(state, hello);
      SentPrefix(p, Server, 0, End(p.hello.resumed));
    }

    /** On the script, the first message in the inbox is that of the next place the server sends
        anything at. */
    lemma Next() returns (k: nat)
      requires Valid() && conn.GetMessage().Some? && OnScript()
      ensures At() <= k < End(p.hello.resumed) && Comes(p, Server, k, conn.inbox[0]) && PlaceAt(p, k).Place?
      ensures PlaceAt(p, k).kind == conn.inbox[0].m.kind && SendsAt(p, Server, k)
      ensures forall j :: At() <= j < k ==> !SendsAt(p, Server, j)
    {
      k := conn.Head(p, At());
    }

    /** A state whose place is empty, as far as the client knows, is on the script at the next. */
    lemma Absent()
      requires Valid() && wait == Ok && Now().Empty(p)
      ensures Through(Stands(), At() + 1, false) && Acted(Stands().history, conn.history, [])
    {
      hide Kept, Fits, PlaceOf, Pos, Phase.Empty, Connection.Valid, Connection.OnScript;
      Nothing();
      if OnScript() {
        EmptyPlace(p, Now());
        conn.Skip(p, At());
      }
    }

    /** On the script it is what arrives; and a Finished is that of the client's own transcript. */
    lemma Arrives()
      requires Valid() && conn.GetMessage().Some? && Now().Wanted().Some? && wait == Ok
      ensures OnScript() ==> Comes(p, Server, At(), conn.inbox[0]) && conn.inbox[0].m.kind == Now().Wanted().value
      ensures OnScript() && state == ReadServerFinished ==>
        conn.inbox[0].m.body == p.mac(conn.transcript.hash.value, Server)
    {
      hide Kept, SnapshotsOk;
      if OnScript() {
        var k := Next();
        assert SendsAt(p, Server, At());
      }
    }

    /** On the script, another message means that its place is empty, and is one that may follow. */
    lemma Optional()
      requires Valid() && conn.GetMessage().Some? && Now().Welcome().Some? && wait == Ok
      ensures OnScript() && conn.inbox[0].m.kind == Now().Welcome().value ==> Comes(p, Server, At(), conn.inbox[0])
      ensures OnScript() && conn.inbox[0].m.kind != Now().Welcome().value ==>
        conn.OnScript(p, At() + 1) && (state == ReadCertificateRequest ==> conn.inbox[0].m.kind == ServerHelloDone)
      ensures OnScript() && state == ReadServerKeyExchange && conn.inbox[0].m.kind == ServerKeyExchange ==>
        hello.cipher != RsaCert
      ensures OnScript() && state == ReadServerKeyExchange && conn.inbox[0].m.kind != ServerKeyExchange ==>
        !hello.cipher.RequiresServerKeyExchange()
      ensures OnScript() && state == ReadCertificateRequest ==>
        (conn.inbox[0].m.kind == CertificateRequest <==> RequestsCertificate(p))
    {
      hide Kept, SnapshotsOk;
      if OnScript() {
        var k := Next();
        assert SendsAt(p, Server, 6);
        if k != At() {
          assert PlaceAt(p, At()).from == Server && !SendsAt(p, Server, At());
          conn.Skip(p, At());
        }
      }
    }

    /** It is the server's turn in a state that reads. */
    lemma ReadsNext()
      requires Valid() && wait == Ok && (Now().Wanted().Some? || Now().Welcome().Some?)
      ensures OnScript() ==> PeersTurn(p, Client, At())
    {
      hide Kept, SnapshotsOk;
      if OnScript() {
        TurnOfServer(p, At());
      }
    }

    /** A step of client and peer on the script stays on it. */
    ghost predicate Followed(a: Footing, c: Choice)
      requires Valid()
      reads this, conn, conn.transcript
    {
      a.onScript && Honest(c) ==>
        OnScript() && (Reading(wait) || wait == ReadChange ==> PeersTurn(p, Client, At()))
    }

    /** A step passes no check but its state's.  It waits for input only when there is none, and then
        changes nothing, as when it is to be tried again; otherwise it fails, or it moves on to a
        later state. */
    ghost predicate Advanced(a: Footing, c: Choice)
      reads this, conn
    {
      && a.flight <= conn.flight && conn.outbox == a.outbox && conn.gone == a.gone && conn.Seen() == a.seen
      && DecidedIn(a.history, conn.history, a.phase.state, c)
      && (if Reading(wait) || wait == Paused then
            && state == a.phase.state && hello == a.phase.hello && conn.inbox == a.inbox && conn.sent == a.sent
            && (if wait == Paused then c.retry else conn.GetMessage().None?)
          else wait == Error || Pos(state, hello.resumed) > Pos(a.phase.state, a.phase.hello.resumed))
    }

    ghost predicate Stepped(a: Footing, c: Choice)
      reads this, conn, conn.transcript
    {
      Valid() && Followed(a, c) && Advanced(a, c)
    }

    // ----- within a step

    /** The step that began at `a` has not yet changed the client's state, nor what has left. */
    ghost predicate Within(a: Footing)
      reads this, conn, conn.transcript
    {
      && conn.Valid() && conn.side == Client && HasHash() && (hello.resumed ==> !OnlyInFull(state)) && Begins(p, a)
      && Now() == a.phase.(ticketExpected := ticketExpected)
      && (ticketExpected == a.phase.ticketExpected || state == ReadSessionTicket)
      && a.flight <= conn.flight && conn.outbox == a.outbox && conn.gone == a.gone && conn.Seen() == a.seen
    }

    /** Its messages up to place `n` have been read, or written, and it has passed no check yet. */
    ghost predicate Through(a: Footing, n: nat, wrote: bool)
      reads this, conn, conn.transcript
    {
      && Within(a) && Quietly(a.history, conn.history) && (wrote || conn.flight == a.flight)
      && (conn.transcript.buffer.Some? == a.buffer || !a.To(After(state, hello.resumed), Ok).NeedsBuffer(p))
      && (a.onScript ==> conn.OnScript(p, n))
    }

    /** The snapshots are those due at place `n`. */
    ghost predicate Snapped(a: Footing, n: nat)
      reads this`snapshots
    {
      (!a.phase.Snaps(p) && snapshots == a.snapshots) || (a.onScript ==> SnapshotsOk(p, Client, n, snapshots))
    }

    lemma Starts()
      requires Valid() && wait == Ok
      ensures Through(Stands(), At(), false) && Acted(Stands().history, conn.history, [])
    {
      hide Connection.Valid, Connection.OnScript, Connection.Seen, Fits, Knows, Kept, SnapshotsOk;
    }

    /** A state whose place is empty has nothing to read or write. */
    lemma Nothing()
      requires Valid() && wait == Ok
      ensures OnScript() ==> conn.OnScript(p, At())
      ensures (OnScript() ==> conn.OnScript(p, At() + 1)) ==> Through(Stands(), At() + 1, false)
      ensures Acted(Stands().history, conn.history, [])
    {
      hide Connection.Valid, Connection.OnScript, Connection.Seen, Fits, Knows, Kept, SnapshotsOk;
    }

    /** A step that has come to a next state is over. */
    lemma Finishes(a: Footing, c: Choice)
      requires conn.Valid() && conn.side == Client && HasHash() && (hello.resumed ==> !OnlyInFull(state))
      requires Fits(p, Now(), conn.transcript.buffer.Some?, conn.flight == [])
      requires Kept(p, conn.history, Now()) && MayChange()
      requires !Reading(wait) && wait != Paused && wait != Error
      requires a.onScript && Honest(c) ==>
        && conn.OnScript(p, At()) && SnapshotsOk(p, Client, At(), snapshots) && Knows(p, Now())
        && (wait == ReadChange ==> PeersTurn(p, Client, At()))
      requires a.flight <= conn.flight && conn.outbox == a.outbox && conn.gone == a.gone && conn.Seen() == a.seen
      requires DecidedIn(a.history, conn.history, a.phase.state, c)
      requires Pos(state, hello.resumed) > Pos(a.phase.state, a.phase.hello.resumed)
      ensures Stepped(a, c)
    {
      hide Fits, Kept, DecidedIn, Pos, PlaceOf, OnlyInFull, Connection.Valid, Connection.OnScript;
    }

    /** The step is over: the next state is entered. */
    method Enter(t: State, w: Wait, c: Choice, ghost a: Footing)
      requires Within(a) && MayEnter(p, a, Now().(state := t, wait := w), conn.transcript.buffer.Some?, conn.flight)
      requires Kept(p, conn.history, Now().(state := t, wait := w)) && DecidedIn(a.history, conn.history, state, c)
      requires a.onScript ==>
        && conn.OnScript(p, PlaceOf(t, w, hello.resumed))
        && SnapshotsOk(p, Client, PlaceOf(t, w, hello.resumed), snapshots)
        && (w == ReadChange ==> PeersTurn(p, Client, PlaceOf(t, w, hello.resumed)))
      modifies this`state, this`wait
      ensures Stepped(a, c)
    {
      hide Fits, Kept, DecidedIn, Pos, PlaceOf, OnlyInFull, Valid, Followed, Advanced, Stepped, Begins, MayEnter,
        Connection.Valid, Connection.OnScript;
      BeginsNext(p, a, Now().(state := t, wait := w), conn.transcript.buffer.Some?, conn.flight);
      state, wait := t, w;
      Finishes(a, c);
    }

    /** A state that makes no check is left for the next. */
    method GoTo(t: State, w: Wait, c: Choice, ghost a: Footing)
      requires Through(a, PlaceOf(t, w, hello.resumed), true) && Unchecked(state, hello)
      requires Did(p, a.history, conn.history, state, hello, certRequest)
      requires MayEnter(p, a, Now().(state := t, wait := w), conn.transcript.buffer.Some?, conn.flight)
      requires Snapped(a, PlaceOf(t, w, hello.resumed))
      requires w == ReadChange && a.onScript ==> PeersTurn(p, Client, PlaceOf(t, w, hello.resumed))
      modifies this`state, this`wait
      ensures Stepped(a, c)
    {
      hide Fits, Kept, DecidedIn, Pos, Stepped, Quietly, PlaceOf, Begins, MayEnter, Unchecked, Acted,
        Connection.Valid, Connection.OnScript;
      BeginsOn(p, a, Now().(state := t, wait := w), conn.transcript.buffer.Some?, conn.flight, conn.history, c);
      if !a.phase.Snaps(p) && snapshots == a.snapshots {
        BeginsStill(p, a, Now().(state := t, wait := w), conn.transcript.buffer.Some?, conn.flight);
      }
      Enter(t, w, c, a);
    }

    ghost method NotePassed(check: Check, c: Choice, a: Footing, n: nat)
      requires Within(a) && (a.onScript ==> conn.OnScript(p, n))
      modifies conn`history
      ensures Within(a) && (a.onScript ==> conn.OnScript(p, n))
        && conn.history == old(conn.history) + [Passed(check, c)]
    {
      hide Connection.Valid, Connection.OnScript, Connection.Seen, Begins, OnlyInFull;
      conn.Pass(check, c, p, n);
    }

    /** The check of a state is passed, and the state is left for the next. */
    method PassCheck(ghost check: Check, t: State, c: Choice, ghost a: Footing)
      requires Through(a, PlaceOf(t, Ok, hello.resumed), true) && !Unchecked(state, hello)
      requires Did(p, a.history, conn.history, state, hello, certRequest)
      requires MayEnter(p, a, Now().(state := t, wait := Ok), conn.transcript.buffer.Some?, conn.flight)
      requires Snapped(a, PlaceOf(t, Ok, hello.resumed))
      requires state == StateOf(check) && Earns(p, conn.history, check, c) && !check.HelloRead?
      modifies this`state, this`wait, conn`history
      ensures Stepped(a, c)
    {
      hide Fits, Kept, DecidedIn, Pos, Stepped, Quietly, Earns, PlaceOf, Begins, MayEnter, Unchecked, Acted,
        Connection.Valid, Connection.OnScript;
      BeginsPast(p, a, Now().(state := t, wait := Ok), conn.transcript.buffer.Some?, conn.flight, conn.history,
        check, c);
      if !a.phase.Snaps(p) && snapshots == a.snapshots {
        BeginsStill(p, a, Now().(state := t, wait := Ok), conn.transcript.buffer.Some?, conn.flight);
      }
      NotePassed(check, c, a, PlaceOf(t, Ok, hello.resumed));
      Enter(t, Ok, c, a);
    }

    /** The step comes to rest: it fails, or is to be tried again, or waits for its message. */
    method Rest(w: Wait, c: Choice, ghost a: Footing)
      requires Valid() && wait == Ok && a == Stands() && (w == Paused ==> c.retry && state != ProcessChangeCipherSpec)
      requires w == Error || w == Paused || (Reading(w) && (Now().Wanted().Some? || Now().Welcome().Some?))
      requires Reading(w) ==> conn.GetMessage().None?
      requires w == Error ==> !c.ok || !OnScript()
      modifies this`wait
      ensures Stepped(a, c)
    {
      hide Fits, Kept, Pos, PlaceOf, Connection.Valid, Connection.OnScript;
      SamePlace(state, w, hello.resumed);
      Rests(p, Now(), conn.transcript.buffer.Some?, conn.flight == [], w);
      KeptWaiting(p, conn.history, Now(), w);
      if Reading(w) {
        ReadsNext();
      }
      wait := w;
      assert wait != ReadChange && Valid() && Advanced(a, c) && Followed(a, c);
    }

    /** The step fails after its message has been read. */
    method Fail(c: Choice, ghost a: Footing, ghost n: nat)
      requires Through(a, n, false) && (a.onScript ==> !Honest(c))
      requires Now() == a.phase && conn.transcript.buffer.Some? == a.buffer
      modifies this`wait
      ensures Stepped(a, c)
    {
      hide Fits, Kept, Pos, Connection.Valid, Connection.OnScript;
      Rests(p, Now(), conn.transcript.buffer.Some?, conn.flight == [], Error);
      MovesOn(p, a.history, conn.history, state, state, hello, c);
      wait := Error;
    }

    // ----- what the states have in common

    /** What the place of a state has the client send. */
    lemma Writes(n: nat, kind: Kind)
      requires conn.Valid() && conn.side == Client && conn.transcript.hash.Some?
      ensures conn.transcript.hash.value == conn.transcript.Content()
      ensures conn.OnScript(p, n) && n < End(p.hello.resumed) && PlaceAt(p, n) == Place(Client, true, kind) ==>
        Comes(p, Client, n, Handshake(Message(kind, BodyOf(p, kind, Client, conn.transcript.hash.value))))
    {
    }

    lemma WritesNext(a: Footing, kind: Kind)
      requires Through(a, At(), false)
      requires
        || (state == SendClientCertificate && certRequest && kind == Certificate)
        || (state == SendClientKeyExchange && kind == ClientKeyExchange)
        || (state == SendClientCertificateVerify && certRequest && p.clientHasCertificate && kind == CertificateVerify)
      ensures conn.transcript.hash.Some?
      ensures a.onScript ==>
        Comes(p, Client, At(), Handshake(Message(kind, BodyOf(p, kind, Client, conn.transcript.hash.value))))
    {
      hide Kept, SnapshotsOk, Fits;
      Writes(At(), kind);
    }

    lemma WritesHello()
      requires Valid() && state == StartConnect
      ensures OnScript() ==>
        Comes(p, Client, 0, Handshake(Message(ClientHello, p.make(ClientHello, Client, conn.transcript.buffer.value))))
    {
      hide Kept, SnapshotsOk, Fits;
    }

    /** The message a state insists on: get_message, ssl_check_message_type, the checks of its
        contents, ssl_hash_message and next_message.  None when there is no message, or a wrong one. */
    method ReadWanted(c: Choice, ghost a: Footing) returns (msg: Option<Message>)
      requires Valid() && wait == Ok && Now().Wanted().Some? && !Now().Early() && a == Stands()
      modifies this`wait, conn`inbox, conn`received, conn`history, conn.transcript
      ensures msg.None? ==> Stepped(a, c)
      ensures msg.Some? ==>
        && wait == Ok && c.ok && Through(a, a.phase.Place() + 1, false)
        && old(conn.GetMessage()) == msg && msg.value.kind == old(Now().Wanted()).value
        && conn.history == a.history + [Got(Handshake(msg.value))]
        && Acted(a.history, conn.history, [Reads(Some(msg.value.kind))])
        && conn.transcript.buffer.Some? == a.buffer
      ensures msg.Some? && a.onScript && state == ReadServerFinished ==>
        msg.value.body == p.mac(old(conn.transcript.hash).value, Server)
    {
      hide Fits, Kept, Pos, Stepped, Acted, Connection.Valid, Connection.OnScript;
      Starts();
      msg := conn.GetMessage();
      if msg.None? {
        Rest(ReadMessage, c, a);
        return;
      }
      Arrives();
      if msg.value.kind != Now().Wanted().value || !c.ok {
        Rest(Error, c, a);
        msg := None;
        return;
      }
      ActedMore(a.history, conn.history, [], Got(Handshake(msg.value)));
      conn.Read(p, At());
    }

    /** The message a state takes if it is there.  None when there is no message, or a bad one. */
    method ReadWelcome(c: Choice, ghost a: Footing) returns (there: Option<bool>)
      requires Valid() && wait == Ok && Now().Welcome().Some? && a == Stands()
      modifies this`wait, conn`inbox, conn`received, conn`history, conn.transcript
      ensures there.None? ==> Stepped(a, c)
      ensures there.Some? ==> wait == Ok && Through(a, a.phase.Place() + 1, false)
                              && conn.transcript.buffer.Some? == a.buffer
      ensures there == Some(true) ==> c.ok && JustGot(conn.history, old(Now().Welcome()).value)
      ensures there == Some(true) ==> Acted(a.history, conn.history, [Reads(Some(old(Now().Welcome()).value))])
      ensures there == Some(false) ==> conn.GetMessage().Some? && Acted(a.history, conn.history, [])
      ensures there.Some? && a.onScript && state == ReadServerKeyExchange ==>
        (there.value ==> hello.cipher != RsaCert) && (!there.value ==> !hello.cipher.RequiresServerKeyExchange())
      ensures there.Some? && a.onScript && state == ReadCertificateRequest ==>
        (there.value <==> RequestsCertificate(p)) && (!there.value ==> conn.GetMessage().value.kind == ServerHelloDone)
    {
      hide Fits, Kept, Pos, Stepped, Acted, Connection.Valid, Connection.OnScript;
      Starts();
      Nothing();
      var msg := conn.GetMessage();
      if msg.None? {
        Rest(ReadMessage, c, a);
        return None;
      }
      Optional();
      if msg.value.kind != Now().Welcome().value {
        return Some(false);
      }
      if !c.ok {
        Rest(Error, c, a);
        return None;
      }
      ActedMore(a.history, conn.history, [], Got(Handshake(msg.value)));
      conn.Read(p, At());
      return Some(true);
    }

    /** A message of the client's own, at the place of its state. */
    method Write(kind: Kind, body: nat, ghost a: Footing)
      requires Through(a, At(), false) && !Now().Early() && Acted(a.history, conn.history, [])
      requires body == BodyOf(p, kind, Client, conn.transcript.hash.value)
      requires
        || (state == SendClientCertificate && certRequest && kind == Certificate)
        || (state == SendClientKeyExchange && kind == ClientKeyExchange)
        || (state == SendClientCertificateVerify && certRequest && p.clientHasCertificate && kind == CertificateVerify)
      modifies conn`flight, conn`sent, conn`history, conn.transcript
      ensures Through(a, At() + 1, true) && conn.transcript.buffer.Some? == old(conn.transcript.buffer.Some?)
      ensures conn.flight == old(conn.flight) + [Handshake(Message(kind, body))]
      ensures Acted(a.history, conn.history, [Sends(Some(kind))])
    {
      hide Acted, Connection.Valid, Connection.OnScript, Connection.Seen, Begins, SnapshotsOk, Comes, BodyOf;
      WritesNext(a, kind);
      ActedMore(a.history, conn.history, [], Put(Handshake(Message(kind, body))));
      conn.Add(Message(kind, body), p, At());
    }

    /** The handshake buffer is given up. */
    method FreeBuffer(ghost a: Footing, ghost n: nat, ghost wrote: bool)
      requires Through(a, n, wrote) && !Now().Early() && !a.To(After(state, hello.resumed), Ok).NeedsBuffer(p)
      modifies conn.transcript
      ensures Through(a, n, wrote) && conn.transcript.hash == old(conn.transcript.hash)
    {
      hide Connection.Valid, Connection.OnScript, Connection.Seen, Begins, SnapshotsOk;
      conn.FreeBuffer(p, n);
    }

    /** Whether a step goes ahead, when callbacks may ask for it to be tried again. */
    method Proceed(c: Choice, mayPause: bool, ghost a: Footing) returns (go: bool)
      requires Valid() && wait == Ok && (mayPause ==> state != ProcessChangeCipherSpec) && a == Stands()
      modifies this`wait
      ensures !go ==> Stepped(a, c)
      ensures go ==> wait == Ok && Valid() && Stands() == a && Through(a, At(), false)
      ensures go ==> Acted(a.history, conn.history, [])
      ensures go <==> !(mayPause && c.retry) && c.ok
    {
      hide Fits, Kept, Through, Stepped, Pos, Connection.Valid, Connection.OnScript;
      if mayPause && c.retry {
        Rest(Paused, c, a);
        return false;
      }
      if !c.ok {
        Rest(Error, c, a);
        return false;
      }
      Starts();
      return true;
    }

    // ----- the states

    /** do_start_connect. */
    method DoStartConnect(c: Choice)
      requires Valid() && state == StartConnect && wait == Ok
      modifies this`state, this`wait, conn`flight, conn`sent, conn`history, conn.transcript
      ensures Stepped(old(Stands()), c)
    {
      hide Fits, Kept, Begins, Stepped, Acted, Connection.Valid, Connection.OnScript, Pos;
      ghost var a := Stands();
      var go := Proceed(c, false, a);
      if go {
        WritesHello();
        ActedMore(a.history, conn.history, [],
          Put(Handshake(Message(ClientHello, p.make(ClientHello, Client, conn.transcript.buffer.value)))));
        conn.Add(Message(ClientHello, p.make(ClientHello, Client, conn.transcript.buffer.value)), p, 0);
        GoTo(EnterEarlyData, Flush, c, a);
      }
    }

    /** do_enter_early_data, over a stream and without early data. */
    method DoEnterEarlyData(c: Choice)
      requires Valid() && state == EnterEarlyData && wait == Ok
      modifies this`state, this`wait
      ensures Stepped(old(Stands()), c)
    {
      hide Fits, Kept, Begins, Stepped, Acted, Connection.Valid, Connection.OnScript, Pos;
      Starts();
      GoTo(State.ReadServerHello, Ok, c, Stands());
    }

    /** do_read_server_hello. */
    method DoReadServerHello(c: Choice)
      requires Valid() && state == State.ReadServerHello && wait == Ok
      modifies this, conn, conn.transcript
      ensures Stepped(old(Stands()), c)
    {
      hide Fits, Kept, Begins, Stepped, Connection.Valid, Connection.OnScript, Pos;
      ghost var a := Stands();
      var msg := conn.GetMessage();
      if msg.None? {
        Rest(Wait.ReadServerHello, c, a);
        return;
      }
      Arrives();
      if msg.value.kind != ServerHello || !c.ok {
        Rest(Error, c, a);
        return;
      }
      TakeServerHello(c, a);
    }

    /** The ServerHello is hashed, and tells what has been negotiated. */
    method TakeServerHello(c: Choice, ghost a: Footing)
      requires Valid() && state == State.ReadServerHello && wait == Ok && conn.GetMessage().Some? && a == Stands()
      requires conn.GetMessage().value.kind == ServerHello && c.ok
      requires a.onScript ==> Comes(p, Server, 1, conn.inbox[0])
      modifies this`state, this`hello, this`ticketExpected, conn`inbox, conn`received, conn`history, conn.transcript
      ensures Stepped(a, c)
    {
      hide Fits, Kept, Begins, Stepped, Acted, Connection.Valid, Connection.OnScript, Pos;
      SnapshotsStay(p, Client, snapshots, 1, 2);
      NotActed(conn.history);
      ActedMore(a.history, conn.history, [], Got(conn.inbox[0]));
      conn.InitHash(p, 1);
      conn.Read(p, 1);
      AdoptHello(c, a);
    }

    /** The part of do_read_server_hello that follows what the ServerHello says. */
    method AdoptHello(c: Choice, ghost a: Footing)
      requires conn.Valid() && conn.side == Client && conn.transcript.buffer.Some? && conn.transcript.hash.Some?
      requires state == State.ReadServerHello && Now() == a.phase && a.phase.wait == Ok
      requires Fits(p, a.phase, true, conn.flight == []) && Quietly(a.history, conn.history)
      requires Kept(p, a.history, a.phase) && Earns(p, conn.history, HelloRead(c.hello), c)
      requires Acted(a.history, conn.history, [Reads(Some(ServerHello))])
      requires a.flight == conn.flight && a.outbox == conn.outbox && a.gone == conn.gone && a.seen == conn.Seen()
      requires a.onScript ==> conn.OnScript(p, 2) && SnapshotsOk(p, Client, 2, snapshots)
      modifies this`state, this`hello, this`ticketExpected, conn`history, conn.transcript
      ensures Stepped(a, c)
    {
      hide Fits, Kept, Pos, Valid, Followed, Advanced, Stepped, DecidedIn, Earns, Quietly, Acted, Connection.Valid,
        Connection.OnScript;
      HelloAdopted(p, Now(), conn.flight == [], c.hello);
      KeptPastHello(p, a.history, conn.history, a.phase, c);
      conn.Pass(HelloRead(c.hello), c, p, 2);
      hello, ticketExpected := c.hello, c.hello.ticket;
      conn.KeepBuffer(!hello.resumed && hello.cipher.UsesCertificate(), p, 2);
      state := if hello.resumed then ReadSessionTicket else ReadServerCertificate;
      Finishes(a, c);
    }

    /** do_read_server_certificate. */
    method DoReadServerCertificate(c: Choice)
      requires Valid() && state == ReadServerCertificate && wait == Ok
      modifies this`state, this`wait, conn`inbox, conn`received, conn`history, conn.transcript
      ensures Stepped(old(Stands()), c)
    {
      hide Fits, Kept, Begins, Stepped, Acted, Did, Knows, SnapshotsOk, Connection.Valid, Connection.OnScript, Pos;
      ghost var a := Stands();
      if !hello.cipher.UsesCertificate() {
        Absent();
        Doing(p, a.history, conn.history, state, hello, certRequest, []);
        GoTo(ReadCertificateStatus, Ok, c, a);
        return;
      }
      var msg := ReadWanted(c, a);
      if msg.Some? {
        Doing(p, a.history, conn.history, state, hello, certRequest, [Reads(Some(Certificate))]);
        PassCheck(CertificateRead, ReadCertificateStatus, c, a);
      }
    }

    /** do_read_certificate_status: the server may change its mind. */
    method DoReadCertificateStatus(c: Choice)
      requires Valid() && state == ReadCertificateStatus && wait == Ok
      modifies this`state, this`wait, conn`inbox, conn`received, conn`history, conn.transcript
      ensures Stepped(old(Stands()), c)
    {
      hide Fits, Kept, Begins, Stepped, Acted, Connection.Valid, Connection.OnScript, Pos;
      ghost var a := Stands();
      if !hello.ocsp {
        Absent();
        GoTo(VerifyServerCertificate, Ok, c, a);
        return;
      }
      var there := ReadWelcome(c, a);
      if there.Some? {
        if there.value {
          assert Acted(a.history, conn.history, [Reads(Some(CertificateStatus))]);
        }
        GoTo(VerifyServerCertificate, Ok, c, a);
      }
    }

    /** do_verify_server_certificate. */
    method DoVerifyServerCertificate(c: Choice)
      requires Valid() && state == VerifyServerCertificate && wait == Ok
      modifies this`state, this`wait, conn`history
      ensures Stepped(old(Stands()), c)
    {
      hide Fits, Kept, Begins, Stepped, Acted, Connection.Valid, Connection.OnScript, Pos;
      ghost var a := Stands();
      if !hello.cipher.UsesCertificate() {
        Starts();
        GoTo(ReadServerKeyExchange, Ok, c, a);
        return;
      }
      var go := Proceed(c, true, a);
      if go {
        PassCheck(CertificateVerified, ReadServerKeyExchange, c, a);
      }
    }

    /** do_read_server_key_exchange: optional for plain PSK. */
    method DoReadServerKeyExchange(c: Choice)
      requires Valid() && state == ReadServerKeyExchange && wait == Ok
      modifies this`state, this`wait, conn`inbox, conn`received, conn`history, conn.transcript
      ensures Stepped(old(Stands()), c)
    {
      hide Fits, Knows, Kept, SnapshotsOk, PeersTurn, Begins, Stepped, Pos, Acted, Did, Connection.Valid,
        Connection.OnScript;
      ghost var a := Stands();
      var there := ReadWelcome(c, a);
      if there.None? {
        return;
      }
      if (there.value && hello.cipher == RsaCert) || (!there.value && hello.cipher.RequiresServerKeyExchange()) {
        Fail(c, a, 5);
        return;
      }
      LeaveKeyExchange(there.value, c, a);
    }

    /** With a certificate cipher its signature is checked. */
    method LeaveKeyExchange(there: bool, c: Choice, ghost a: Footing)
      requires Through(a, 5, false) && Now() == a.phase && state == ReadServerKeyExchange && wait == Ok
      requires snapshots == a.snapshots && conn.transcript.buffer.Some? == a.buffer
      requires if there then c.ok && JustGot(conn.history, ServerKeyExchange) && hello.cipher != RsaCert
               else !hello.cipher.RequiresServerKeyExchange()
      requires Acted(a.history, conn.history, if there then [Reads(Some(ServerKeyExchange))] else [])
      modifies this`state, this`wait, conn`history
      ensures Stepped(a, c)
    {
      hide Fits, Kept, Begins, Stepped, Pos, Acted, Did, JustGot, Quietly, Connection.Valid, Connection.OnScript;
      Doing(p, a.history, conn.history, state, hello, certRequest,
        if there then [Reads(Some(ServerKeyExchange))] else []);
      if there && hello.cipher.UsesCertificate() {
        PassCheck(KeyExchangeSigned, ReadCertificateRequest, c, a);
      } else {
        GoTo(ReadCertificateRequest, Ok, c, a);
      }
    }

    /** do_read_certificate_request. */
    method DoReadCertificateRequest(c: Choice)
      requires Valid() && state == ReadCertificateRequest && wait == Ok
      modifies this`state, this`wait, conn`inbox, conn`received, conn`history, conn.transcript, this`certRequest
      ensures Stepped(old(Stands()), c)
    {
      hide Fits, Kept, Begins, Stepped, Acted, Connection.Valid, Connection.OnScript, Pos;
      ghost var a := Stands();
      if !hello.cipher.UsesCertificate() {
        Absent();
        NotRequested();
        GoTo(ReadServerHelloDone, Ok, c, a);
        return;
      }
      var there := ReadWelcome(c, a);
      if there.None? {
        return;
      }
      if !there.value && conn.inbox[0].m.kind != ServerHelloDone {
        Fail(c, a, 6);
        return;
      }
      NoteRequest(there.value, c, a);
    }

    lemma NotRequested()
      requires Valid() && state == ReadCertificateRequest
      ensures !certRequest
    {
      hide Kept;
    }

    /** What the next state has, whether or not there was a CertificateRequest. */
    lemma RequestReady(requested: bool, c: Choice, a: Footing)
      requires Through(a, 6, false) && Now() == a.phase && state == ReadCertificateRequest
      requires hello.cipher.UsesCertificate() && snapshots == a.snapshots && conn.transcript.buffer.Some? == a.buffer
      requires Acted(a.history, conn.history, if requested then [Reads(Some(CertificateRequest))] else [])
      requires a.onScript ==> requested == RequestsCertificate(p)
      ensures conn.Valid() && conn.side == Client && conn.transcript.hash.Some? && conn.transcript.buffer.Some?
      ensures !hello.resumed && wait == Ok && conn.flight == a.flight == []
      ensures var w := Now().(state := ReadServerHelloDone, certRequest := requested);
              && Fits(p, w, requested, true) && Kept(p, conn.history, w)
              && (a.onScript ==> Knows(p, w) && conn.OnScript(p, 6) && SnapshotsOk(p, Client, 6, snapshots))
              && Pos(w.state, hello.resumed) > Pos(state, hello.resumed)
      ensures DecidedIn(a.history, conn.history, a.phase.state, c)
      ensures conn.outbox == a.outbox && conn.gone == a.gone && conn.Seen() == a.seen
    {
      hide Fits, Kept, Pos, DecidedIn, Acted, Knows, SnapshotsOk, Quietly, Connection.Valid, Connection.OnScript;
      RequestNoted(p, Now(), a.buffer, a.flight == [], requested);
      SnapshotsStay(p, Client, snapshots, 5, 6);
      KeptPastRequest(p, a, conn.history, requested, c);
    }

    /** Without a CertificateRequest the handshake buffer is not needed any more. */
    method NoteRequest(requested: bool, c: Choice, ghost a: Footing)
      requires Through(a, 6, false) && Now() == a.phase && state == ReadCertificateRequest
      requires hello.cipher.UsesCertificate() && snapshots == a.snapshots && conn.transcript.buffer.Some? == a.buffer
      requires Acted(a.history, conn.history, if requested then [Reads(Some(CertificateRequest))] else [])
      requires a.onScript ==> requested == RequestsCertificate(p)
      modifies this`state, this`certRequest, conn.transcript
      ensures Stepped(a, c)
    {
      hide Fits, Kept, Pos, Valid, Followed, Advanced, Stepped, DecidedIn, Acted, Knows, SnapshotsOk, PeersTurn,
        Quietly, Through, Connection.Valid, Connection.OnScript;
      RequestReady(requested, c, a);
      conn.KeepBuffer(requested, p, 6);
      certRequest := requested;
      state := ReadServerHelloDone;
      Finishes(a, c);
    }

    /** do_read_server_hello_done. */
    method DoReadServerHelloDone(c: Choice)
      requires Valid() && state == ReadServerHelloDone && wait == Ok
      modifies this`state, this`wait, conn`inbox, conn`received, conn`history, conn.transcript
      ensures Stepped(old(Stands()), c)
    {
      hide Fits, Kept, Begins, Stepped, Acted, Connection.Valid, Connection.OnScript, Pos;
      ghost var a := Stands();
      var msg := ReadWanted(c, a);
      if msg.Some? {
        GoTo(SendClientCertificate, Ok, c, a);
      }
    }

    /** do_send_client_certificate: an empty chain when there is no certificate. */
    method DoSendClientCertificate(c: Choice)
      requires Valid() && state == SendClientCertificate && wait == Ok
      modifies this`state, this`wait, conn`flight, conn`sent, conn`history, conn.transcript
      ensures Stepped(old(Stands()), c)
    {
      hide Fits, Kept, Begins, Stepped, Acted, Did, Knows, SnapshotsOk, Connection.Valid, Connection.OnScript, Pos;
      ghost var a := Stands();
      if !certRequest {
        Absent();
        Doing(p, a.history, conn.history, state, hello, certRequest, []);
        GoTo(SendClientKeyExchange, Ok, c, a);
        return;
      }
      var go := Proceed(c, true, a);
      if !go {
        return;
      }
      if !p.clientHasCertificate {
        FreeBuffer(a, 7, false);
      }
      var body := p.make(Certificate, Client, conn.transcript.hash.value);
      BodyOfMade(p, Certificate, Client, conn.transcript.hash.value);
      Write(Certificate, body, a);
      Doing(p, a.history, conn.history, state, hello, certRequest, [Sends(Some(Certificate))]);
      GoTo(SendClientKeyExchange, Ok, c, a);
    }

    /** do_send_client_key_exchange. */
    method DoSendClientKeyExchange(c: Choice)
      requires Valid() && state == SendClientKeyExchange && wait == Ok
      modifies this`state, this`wait, conn`flight, conn`sent, conn`history, conn.transcript
      ensures Stepped(old(Stands()), c)
    {
      hide Fits, Kept, Begins, Stepped, Acted, Connection.Valid, Connection.OnScript, Pos;
      ghost var a := Stands();
      var go := Proceed(c, false, a);
      if !go {
        return;
      }
      var body := p.make(ClientKeyExchange, Client, conn.transcript.hash.value);
      BodyOfMade(p, ClientKeyExchange, Client, conn.transcript.hash.value);
      Write(ClientKeyExchange, body, a);
      GoTo(SendClientCertificateVerify, Ok, c, a);
    }

    /** do_send_client_certificate_verify: what is signed is the handshake buffer. */
    method DoSendClientCertificateVerify(c: Choice)
      requires Valid() && state == SendClientCertificateVerify && wait == Ok
      modifies this`state, this`wait, conn`flight, conn`sent, conn`history, conn.transcript, this`snapshots
      ensures Stepped(old(Stands()), c)
    {
      hide Fits, Kept, Begins, Stepped, Acted, Did, Knows, SnapshotsOk, Connection.Valid, Connection.OnScript, Pos;
      ghost var a := Stands();
      if !certRequest || !p.clientHasCertificate {
        Absent();
        Doing(p, a.history, conn.history, state, hello, certRequest, []);
        GoTo(SendClientFinished, Ok, c, a);
        return;
      }
      var go := Proceed(c, true, a);
      if !go {
        return;
      }
      SignTranscript(a);
      Doing(p, a.history, conn.history, state, hello, certRequest, [Sends(Some(CertificateVerify))]);
      GoTo(SendClientFinished, Ok, c, a);
    }

    /** The handshake buffer is there when it is to be signed, and what has been hashed; on the script
        it is the transcript at this place. */
    lemma SignsHere()
      requires Valid() && wait == Ok && state == SendClientCertificateVerify && certRequest && p.clientHasCertificate
      ensures conn.transcript.buffer.Some? && conn.transcript.buffer == conn.transcript.hash
      ensures OnScript() ==> SnapshotsOk(p, Client, 10, snapshots.(signed := conn.transcript.buffer))
    {
      hide Kept;
      if OnScript() {
        SnapshotTaken(p, Client, snapshots, 9, conn.transcript.buffer.value);
      }
    }

    method SignTranscript(ghost a: Footing)
      requires Valid() && wait == Ok && state == SendClientCertificateVerify && certRequest && p.clientHasCertificate
      requires a == Stands()
      modifies this`snapshots, conn`flight, conn`sent, conn`history, conn.transcript
      ensures Through(a, 10, true) && snapshots == a.snapshots.(signed := old(conn.transcript.buffer))
      ensures Acted(a.history, conn.history, [Sends(Some(CertificateVerify))])
      ensures a.onScript ==> SnapshotsOk(p, Client, 10, snapshots)
      ensures conn.flight == old(conn.flight) + [Handshake(Message(CertificateVerify, p.sign(snapshots.signed.value)))]
    {
      hide Fits, Kept, Begins, Stepped, Acted, Connection.Valid, Connection.OnScript, Pos;
      Starts();
      SignsHere();
      BodyOfMade(p, CertificateVerify, Client, conn.transcript.hash.value);
      var signed := conn.transcript.buffer.value;
      Write(CertificateVerify, p.sign(signed), a);
      FreeBuffer(a, 10, true);
      snapshots := snapshots.(signed := Some(signed));
    }

    /** do_send_client_finished. */
    method DoSendClientFinished(c: Choice)
      requires Valid() && state == SendClientFinished && wait == Ok
      modifies this`state, this`wait, conn`flight, conn`sent, conn`history, conn.transcript, this`snapshots
      ensures Stepped(old(Stands()), c)
    {
      hide Fits, Kept, Begins, Stepped, Acted, Did, Knows, SnapshotsOk, Connection.Valid, Connection.OnScript, Pos;
      ghost var a := Stands();
      var go := Proceed(c, hello.channelId, a);
      if go {
        KnowsHello();
        SendFinalFlight();
        Doing(p, a.history, conn.history, state, hello, certRequest, FinishedActs(hello));
        GoTo(FinishFlight, Flush, c, a);
      }
    }

    lemma KnowsHello()
      requires Valid() && state == SendClientFinished
      ensures OnScript() ==> hello == p.hello
    {
    }

    /** ChangeCipherSpec, and the messages under the new keys. */
    method SendFinalFlight()
      requires conn.Valid() && conn.side == Client && conn.transcript.hash.Some?
      modifies this`snapshots, conn`flight, conn`sent, conn`history, conn.transcript
      ensures conn.Valid() && conn.transcript.hash.Some? && old(conn.flight) <= conn.flight
      ensures Quietly(old(conn.history), conn.history) && Acted(old(conn.history), conn.history, FinishedActs(hello))
      ensures conn.transcript.buffer.Some? <==> old(conn.transcript.buffer).Some?
      ensures old(conn.OnScript(p, if p.hello.resumed then 5 else 10)) && hello == p.hello ==>
        && conn.OnScript(p, if p.hello.resumed then 9 else 14)
        && (old(SnapshotsOk(p, Client, if p.hello.resumed then 5 else 10, snapshots)) ==>
              SnapshotsOk(p, Client, if p.hello.resumed then 9 else 14, snapshots))
    {
      hide Acted, Connection.Valid, Connection.OnScript, SSLTranscript.Valid, SSLTranscript.Content, Transcript,
        Sent, SnapshotsOk;
      ghost var n, was := if p.hello.resumed then 5 else 10, conn.history;
      NotActed(was);
      ActedMore(was, was, [], Put(ChangeCipherSpec));
      conn.AddChange(p, n);
      SendNegotiated(NextProto, n + 1, was, [Sends(None)]);
      SendNegotiated(ChannelId, n + 2, was, [Sends(None)] + NextProtoActs(hello));
      SnapshotsStay(p, Client, snapshots, n, n + 3);
      SendFinished(n + 3, was, [Sends(None)] + NextProtoActs(hello) + ChannelIdActs(hello));
    }

    /** A message that is sent if its extension was negotiated. */
    method SendNegotiated(kind: Kind, ghost n: nat, ghost was: seq<Event>, ghost acts: seq<Act>)
      requires conn.Valid() && conn.side == Client && conn.transcript.hash.Some?
      requires Acted(was, conn.history, acts) && (kind == NextProto || kind == ChannelId)
      requires n == (if p.hello.resumed then 6 else 11) + if kind == ChannelId then 1 else 0
      modifies conn`flight, conn`sent, conn`history, conn.transcript
      ensures conn.Valid() && conn.transcript.hash.Some? && old(conn.flight) <= conn.flight
      ensures Quietly(old(conn.history), conn.history)
      ensures conn.transcript.buffer.Some? <==> old(conn.transcript.buffer).Some?
      ensures Acted(was, conn.history, acts + if kind == NextProto then NextProtoActs(hello) else ChannelIdActs(hello))
      ensures old(conn.OnScript(p, n)) && hello == p.hello ==> conn.OnScript(p, n + 1)
    {
      hide Connection.Valid, Connection.OnScript, SSLTranscript.Valid, SSLTranscript.Content, Transcript, Sent, Acted;
      if if kind == NextProto then hello.npn else hello.channelId {
        Writes(n, kind);
        ActedMore(was, conn.history, acts,
          Put(Handshake(Message(kind, p.make(kind, Client, conn.transcript.hash.value)))));
        conn.Add(Message(kind, p.make(kind, Client, conn.transcript.hash.value)), p, n);
      } else {
        SkipIn(conn, p, n);
        assert acts + [] == acts;
      }
    }

    /** ssl_send_finished. */
    method SendFinished(ghost n: nat, ghost was: seq<Event>, ghost acts: seq<Act>)
      requires Acted(was, conn.history, acts)
      requires conn.Valid() && conn.side == Client && conn.transcript.hash.Some?
      modifies this`snapshots, conn`flight, conn`sent, conn`history, conn.transcript
      ensures snapshots == old(snapshots).(sent := old(conn.transcript.hash))
      ensures conn.flight == old(conn.flight) + [Handshake(Message(Finished, p.mac(snapshots.sent.value, Client)))]
      ensures conn.Valid() && conn.transcript.hash.Some? && Quietly(old(conn.history), conn.history)
      ensures conn.transcript.buffer.Some? <==> old(conn.transcript.buffer).Some?
      ensures old(conn.OnScript(p, n)) && n == FinishedPlace(p, Client) ==>
        && conn.OnScript(p, n + 1)
        && (old(SnapshotsOk(p, Client, n, snapshots)) ==> SnapshotsOk(p, Client, n + 1, snapshots))
      ensures Acted(was, conn.history, acts + [Sends(Some(Finished))])
    {
      hide Acted, Connection.Valid, Connection.OnScript, SSLTranscript.Valid, SSLTranscript.Content, Transcript,
        Sent, SnapshotsOk;
      Writes(n, Finished);
      SnapshotOf(conn, p, n);
      if conn.OnScript(p, n) && n == FinishedPlace(p, Client) && SnapshotsOk(p, Client, n, snapshots) {
        SnapshotTaken(p, Client, snapshots, n, conn.transcript.hash.value);
      }
      snapshots := snapshots.(sent := conn.transcript.hash);
      ActedMore(was, conn.history, acts,
        Put(Handshake(Message(Finished, p.mac(conn.transcript.hash.value, Client)))));
      conn.Add(Message(Finished, p.mac(conn.transcript.hash.value, Client)), p, n);
    }

    /** do_finish_flight, with False Start if the application wants it and may have it. */
    method DoFinishFlight(c: Choice)
      requires Valid() && state == FinishFlight && wait == Ok
      modifies this`state, this`wait
      ensures Stepped(old(Stands()), c)
    {
      hide Fits, Kept, Begins, Stepped, SnapshotsOk, Acted, Connection.Valid, Connection.OnScript, Pos;
      ghost var a := Stands();
      if hello.resumed {
        Starts();
        GoTo(FinishClientHandshake, Ok, c, a);
        return;
      }
      var go := Proceed(c, false, a);
      if go {
        GoTo(ReadSessionTicket, if c.early then EarlyReturn else Ok, c, a);
      }
    }

    /** do_read_session_ticket. */
    method DoReadSessionTicket(c: Choice)
      requires Valid() && state == ReadSessionTicket && wait == Ok
      modifies this`state, this`wait, conn`inbox, conn`received, conn`history, conn.transcript, this`ticketExpected
      ensures Stepped(old(Stands()), c)
    {
      hide Fits, Kept, Stepped, Begins, Pos, PlaceOf, Acted, Connection.Valid, Connection.OnScript;
      ghost var a := Stands();
      AwaitsChange();
      var go := ReadTicket(c, a);
      if go {
        AwaitChange(c, a);
      }
    }

    /** The ticket, unless none is expected. */
    method ReadTicket(c: Choice, ghost a: Footing) returns (go: bool)
      requires Valid() && state == ReadSessionTicket && wait == Ok && a == Stands()
      modifies this`wait, conn`inbox, conn`received, conn`history, conn.transcript, this`ticketExpected
      ensures !go ==> Stepped(a, c)
      ensures go ==>
        && Through(a, a.phase.Place() + 1, false)
        && Acted(a.history, conn.history, if hello.ticket then [Reads(Some(NewSessionTicket))] else [])
    {
      hide Fits, Kept, Stepped, Begins, Pos, PlaceOf, Acted, Connection.Valid, Connection.OnScript;
      TicketIsExpected();
      if !ticketExpected {
        Absent();
        return true;
      }
      var msg := ReadWanted(c, a);
      if msg.None? {
        return false;
      }
      ticketExpected := !c.emptyTicket;
      return true;
    }

    lemma TicketIsExpected()
      requires Valid() && state == ReadSessionTicket
      ensures ticketExpected == hello.ticket
    {
      hide Kept;
    }

    method AwaitChange(c: Choice, ghost a: Footing)
      requires Acted(a.history, conn.history, if hello.ticket then [Reads(Some(NewSessionTicket))] else [])
      requires Through(a, a.phase.Place() + 1, false) && state == ReadSessionTicket && a.phase.wait == Ok
      requires snapshots == a.snapshots
      requires a.onScript ==> PeersTurn(p, Client, a.phase.Place() + 1)
      modifies this`state, this`wait
      ensures Stepped(a, c)
    {
      hide Acted, Connection.Valid, Connection.OnScript, Connection.Seen, SnapshotsOk, PeersTurn, Stepped, Begins,
        Pos;
      GoTo(ProcessChangeCipherSpec, ReadChange, c, a);
    }

    lemma AwaitsChange()
      requires Valid() && state == ReadSessionTicket
      ensures OnScript() ==> PeersTurn(p, Client, At() + 1)
    {
      hide Kept, SnapshotsOk;
      if OnScript() {
        TurnOfServer(p, if hello.resumed then 3 else 15);
      }
    }

    /** do_process_change_cipher_spec. */
    method DoProcessChangeCipherSpec(c: Choice)
      requires Valid() && state == ProcessChangeCipherSpec && wait == Ok
      modifies this`state, this`wait, conn`history
      ensures Stepped(old(Stands()), c)
    {
      hide Fits, Kept, Begins, Stepped, Acted, Connection.Valid, Connection.OnScript, Pos;
      ghost var a := Stands();
      var go := Proceed(c, false, a);
      if go {
        PassCheck(CipherChanged, ReadServerFinished, c, a);
      }
    }

    /** ssl_get_finished: the MAC is taken before the message is hashed. */
    method GetFinished(c: Choice, ghost a: Footing) returns (ok: bool)
      requires Valid() && state == ReadServerFinished && wait == Ok && a == Stands()
      modifies this`wait, this`snapshots, conn`inbox, conn`received, conn`history, conn.transcript
      ensures !ok ==> Stepped(a, c)
      ensures ok ==>
        && wait == Ok && c.ok && Through(a, a.phase.Place() + 1, false) && JustFinished(p, conn.history, Server)
        && Acted(a.history, conn.history, [Reads(Some(Finished))])
        && snapshots == a.snapshots.(checked := old(conn.transcript.hash))
        && (a.onScript ==> SnapshotsOk(p, Client, a.phase.Place() + 1, snapshots))
      ensures ok ==> old(conn.GetMessage()) == Some(Message(Finished, p.mac(snapshots.checked.value, Server)))
    {
      hide Fits, Kept, Begins, Stepped, SnapshotsOk, Acted, Connection.Valid, Connection.OnScript, Pos;
      var over := conn.transcript.hash.value;
      var finished := p.mac(over, Server);
      HashIsHistory();
      var msg := ReadWanted(c, a);
      if msg.None? {
        return false;
      }
      if msg.value.body != finished {
        Fail(c, a, a.phase.Place() + 1);
        return false;
      }
      LastOf(a.history, Got(Handshake(msg.value)));
      snapshots := snapshots.(checked := Some(over));
      ok := true;
    }

    /** The transcript is that of all messages so far; where a Finished is checked on the script a
        snapshot is due. */
    lemma HashIsHistory()
      requires Valid() && state == ReadServerFinished && wait == Ok
      ensures conn.transcript.hash == Some(Messages(conn.history))
      ensures OnScript() ==>
        SnapshotsOk(p, Client, At() + 1, snapshots.(checked := Some(conn.transcript.hash.value)))
    {
      hide Kept;
      if OnScript() {
        SnapshotTaken(p, Client, snapshots, At(), conn.transcript.hash.value);
      }
    }

    /** do_read_server_finished. */
    method DoReadServerFinished(c: Choice)
      requires Valid() && state == ReadServerFinished && wait == Ok
      modifies this`state, this`wait, this`snapshots, conn`inbox, conn`received, conn`history, conn.transcript
      ensures Stepped(old(Stands()), c)
    {
      hide Fits, Kept, Begins, Stepped, Acted, Connection.Valid, Connection.OnScript, Pos;
      ghost var a := Stands();
      var ok := GetFinished(c, a);
      if ok {
        PassCheck(FinishedMatched(Server), if hello.resumed then SendClientFinished else FinishClientHandshake, c, a);
      }
    }

    /** do_finish_client_handshake. */
    method DoFinishClientHandshake(c: Choice)
      requires Valid() && state == FinishClientHandshake && wait == Ok
      modifies this`state, this`wait
      ensures Stepped(old(Stands()), c)
    {
      hide Fits, Kept, Begins, Stepped, Acted, Connection.Valid, Connection.OnScript, Pos;
      ghost var a := Stands();
      var go := Proceed(c, false, a);
      if go {
        GoTo(Done, Ok, c, a);
      }
    }

    /** One iteration of ssl_client_handshake. */
    method Step(c: Choice)
      requires Valid() && state != Done && wait == Ok
      modifies this, conn, conn.transcript
      ensures Stepped(old(Stands()), c)
    {
      hide Valid, Stepped;
      match state
      case StartConnect => DoStartConnect(c);
      case EnterEarlyData => DoEnterEarlyData(c);
      case ReadServerHello => DoReadServerHello(c);
      case ReadServerCertificate => DoReadServerCertificate(c);
      case ReadCertificateStatus => DoReadCertificateStatus(c);
      case VerifyServerCertificate => DoVerifyServerCertificate(c);
      case ReadServerKeyExchange => DoReadServerKeyExchange(c);
      case ReadCertificateRequest => DoReadCertificateRequest(c);
      case ReadServerHelloDone => DoReadServerHelloDone(c);
      case SendClientCertificate => DoSendClientCertificate(c);
      case SendClientKeyExchange => DoSendClientKeyExchange(c);
      case SendClientCertificateVerify => DoSendClientCertificateVerify(c);
      case SendClientFinished => DoSendClientFinished(c);
      case FinishFlight => DoFinishFlight(c);
      case ReadSessionTicket => DoReadSessionTicket(c);
      case ProcessChangeCipherSpec => DoProcessChangeCipherSpec(c);
      case ReadServerFinished => DoReadServerFinished(c);
      case FinishClientHandshake => DoFinishClientHandshake(c);
    }

    /** ssl_client_handshake: states until one waits, fails, or is the last.  Every check passed on
        the way was passed by a decision of `choose`. */
    method Run(choose: State -> Choice)
      requires Valid() && wait == Ok
      modifies this, conn, conn.transcript
      ensures Valid() && (wait == Ok ==> state == Done)
      ensures Decided(old(conn.history), conn.history, choose)
      ensures old(OnScript()) && (forall s :: Honest(choose(s))) ==>
        OnScript() && (Reading(wait) || wait == ReadChange ==> PeersTurn(p, Client, At()))
      ensures (Reading(wait) ==> conn.GetMessage().None?) && ((forall s :: !choose(s).retry) ==> wait != Paused)
      ensures conn.outbox == old(conn.outbox) && conn.gone == old(conn.gone) && conn.Seen() == old(conn.Seen())
      ensures Pos(state, hello.resumed) > Pos(old(state), old(hello).resumed)
              || wait == Error || Reading(wait) || wait == Paused || old(state) == Done
      ensures Pos(state, hello.resumed) >= Pos(old(state), old(hello).resumed) || wait == Error
    {
      hide Connection.Valid, Connection.OnScript, Connection.Seen, SnapshotsOk, Kept, Decided, DecidedIn;
      ghost var first := true;
      NothingDecided(conn.history, choose);
      while state != Done
        invariant Valid() && wait == Ok && Decided(old(conn.history), conn.history, choose)
        invariant old(OnScript()) && (forall s :: Honest(choose(s))) ==> OnScript()
        invariant conn.outbox == old(conn.outbox) && conn.gone == old(conn.gone) && conn.Seen() == old(conn.Seen())
        invariant if first then state == old(state) && hello == old(hello)
                  else Pos(state, hello.resumed) > Pos(old(state), old(hello).resumed)
        decreases LAST - Pos(state, hello.resumed)
      {
        ghost var was, s := conn.history, state;
        Step(choose(state));
        DecidedMore(old(conn.history), was, conn.history, s, choose);
        first := first && (Reading(wait) || wait == Paused);
        if wait != Ok {
          return;
        }
      }
    }

    lemma HeadIsMessage()
      requires Valid() && Reading(wait) && conn.inbox != []
      ensures OnScript() ==> conn.GetMessage().Some?
    {
      hide Kept, Fits, PlaceOf, Pos, PlaceAt, ItemAt, Here, Connection.Valid, Connection.OnScript;
      if OnScript() {
        ReadsAt(p, Now(), conn.transcript.buffer.Some?, conn.flight == []);
        var k := conn.Head(p, At());
        MessageNext(p, Now(), k, conn.transcript.buffer.Some?, conn.flight == []);
      }
    }

    lemma HeadIsChange()
      requires Valid() && wait == ReadChange && conn.inbox != []
      ensures OnScript() ==> Comes(p, Server, At(), conn.inbox[0]) && conn.inbox[0].ChangeCipherSpec?
    {
      hide Kept, Fits, PlaceOf, Pos, PlaceAt, ItemAt, Here, Connection.Valid, Connection.OnScript;
      if OnScript() {
        var k := conn.Head(p, At());
        ChangeNext(p, Now(), conn.transcript.buffer.Some?, conn.flight == []);
      }
    }

    method ResolveFlush(c: Choice) returns (done: bool)
      requires Valid() && wait == Flush
      modifies this`wait, conn`flight, conn`outbox
      ensures Valid() && (old(OnScript()) ==> OnScript())
      ensures (done <==> c.blocks.None?) && wait == if done then Ok else Flush
    {
      hide Kept, Fits, Pos, PlaceOf, Knows, SnapshotsOk, PeersTurn, Connection.Valid, Connection.OnScript;
      SamePlace(state, wait, hello.resumed);
      Flushes(p, Now(), conn.transcript.buffer.Some?, conn.flight == []);
      KeptWaiting(p, conn.history, Now(), Ok);
      done := conn.FlushFlight(c.blocks, p, At());
      if done {
        wait := Ok;
      }
    }

    method ResolveRead()
      requires Valid() && Reading(wait) && conn.inbox != []
      modifies this`wait
      ensures Valid() && (old(OnScript()) ==> OnScript()) && (wait == Ok || wait == Error)
    {
      hide Kept, Fits, Pos, PlaceOf, Knows, SnapshotsOk, PeersTurn, Connection.Valid, Connection.OnScript;
      HeadIsMessage();
      if conn.GetMessage().Some? {
        ResolveOther();
      } else {
        Resumes(p, Now(), conn.transcript.buffer.Some?, conn.flight == []);
        wait := Error;
      }
    }

    method ResolveChange()
      requires Valid() && wait == ReadChange && conn.inbox != []
      modifies this`wait, conn`inbox, conn`received, conn`history
      ensures Valid() && (old(OnScript()) ==> OnScript())
      ensures wait == if old(conn.inbox)[0].ChangeCipherSpec? then Ok else Error
      ensures conn.Seen() == old(conn.Seen()) && Quietly(old(conn.history), conn.history)
    {
      hide Kept, Fits, Pos, Knows, SnapshotsOk, PeersTurn, Connection.Valid, Connection.OnScript;
      HeadIsChange();
      Resumes(p, Now(), conn.transcript.buffer.Some?, conn.flight == []);
      if conn.inbox[0].ChangeCipherSpec? {
        SnapshotsStay(p, Client, snapshots, At(), At() + 1);
        KeptChange(p, conn.history, Now());
        conn.TakeChange(p, At());
        wait := Ok;
      } else {
        wait := Error;
      }
    }

    /** ssl_run_handshake, before the state machine runs: what the handshake was waiting for is
        resolved, or it is still missing. */
    method Resolve(c: Choice) returns (blocked: bool)
      requires Valid() && wait != Error
      modifies this`wait, conn`inbox, conn`received, conn`history, conn`flight, conn`outbox
      ensures Valid() && (old(OnScript()) ==> OnScript()) && Quietly(old(conn.history), conn.history)
      ensures if blocked then
                && wait == old(wait) && conn.inbox == old(conn.inbox)
                && (if wait == Flush then c.blocks.Some?
                    else (Reading(wait) || wait == ReadChange) && conn.outbox == old(conn.outbox) && conn.inbox == [])
              else (wait == Ok || wait == Error) && (old(wait) != Flush ==> conn.outbox == old(conn.outbox))
      ensures conn.sent == old(conn.sent) && conn.gone == old(conn.gone) && conn.Seen() == old(conn.Seen())
    {
      hide Kept, Fits, Pos, Valid, OnScript, Connection.Valid, Connection.OnScript;
      blocked := false;
      if wait == Flush {
        var done := ResolveFlush(c);
        blocked := !done;
      } else if Reading(wait) {
        if conn.inbox == [] {
          return true;
        }
        ResolveRead();
      } else if wait == ReadChange {
        if conn.inbox == [] {
          return true;
        }
        ResolveChange();
      } else {
        ResolveOther();
      }
    }

    method ResolveOther()
      requires Valid() && wait != Error && wait != Flush && wait != ReadChange
      modifies this`wait
      ensures Valid() && (old(OnScript()) ==> OnScript()) && wait == Ok
    {
      hide Kept, Fits, Pos, PlaceOf, Knows, SnapshotsOk, PeersTurn, Connection.Valid, Connection.OnScript;
      SamePlace(state, wait, hello.resumed);
      Resumes(p, Now(), conn.transcript.buffer.Some?, conn.flight == []);
      KeptWaiting(p, conn.history, Now(), Ok);
      wait := Ok;
    }

    /** How far the client is from the end. */
    ghost function Work(): nat
      reads this
    {
      2 * (LAST - Pos(state, hello.resumed)) + if wait == Flush then 1 else 0
    }

    /** The client has finished, or has flushed all it can send and waits for its peer. */
    ghost predicate Waiting()
      reads this, conn
    {
      conn.flight == [] && ((state == Done && wait == Ok) || (conn.inbox == [] && PeersTurn(p, Client, At())))
    }

    lemma Blocked()
      requires Valid() && (Reading(wait) || wait == ReadChange)
      requires if wait == ReadChange then conn.inbox == [] else conn.GetMessage().None?
      ensures OnScript() ==> Waiting()
    {
      hide Kept, Fits, PlaceOf, Pos, Connection.Valid, Connection.OnScript;
      if OnScript() {
        if wait != ReadChange && conn.inbox != [] {
          HeadIsMessage();
        }
        ReadsAt(p, Now(), conn.transcript.buffer.Some?, conn.flight == []);
        TurnOfServer(p, At());
        FlightFlushed(p, Now(), conn.transcript.buffer.Some?, conn.flight == []);
      }
    }

    /** All that the application decides and the peer's messages contain is right. */
    ghost predicate AllHonest(choose: State -> Choice) {
      forall s :: Honest(choose(s))
    }

    /** The state machine runs, once nothing is waited for. */
    method Continue(choose: State -> Choice)
      requires Valid() && wait == Ok
      modifies this, conn, conn.transcript
      ensures Valid() && conn.gone == old(conn.gone) && conn.Seen() == old(conn.Seen())
      ensures conn.outbox == old(conn.outbox) && Decided(old(conn.history), conn.history, choose)
      ensures old(OnScript()) && AllHonest(choose) ==> OnScript()
      ensures old(OnScript()) && AllHonest(choose) && (forall s :: !choose(s).retry) ==>
        Work() < old(Work()) || (Waiting() && Work() == old(Work()))
    {
      assert state == Done ==> conn.flight == [];
      hide Valid, OnScript, Pos, PlaceOf, Kept, Decided, Connection.Valid, Connection.OnScript;
      NothingDecided(conn.history, choose);
      if state == Done {
        return;
      }
      Run(choose);
      if Reading(wait) {
        Blocked();
      }
    }

    /** An iteration of ssl_run_handshake: what the handshake waits for is resolved and the state
        machine runs, or it keeps waiting; a handshake that has failed stays as it is.  Whatever the
        peer sends, each check passed was passed by a decision of `choose`. */
    method Turn(choose: State -> Choice)
      requires Valid()
      modifies this, conn, conn.transcript
      ensures Valid() && conn.gone == old(conn.gone) && conn.Seen() == old(conn.Seen())
      ensures Decided(old(conn.history), conn.history, choose) && (old(wait) == Error ==> wait == Error)
      ensures old(OnScript()) && AllHonest(choose) ==> OnScript()
      ensures old(OnScript()) && AllHonest(choose) && Eager(choose) ==>
        Work() < old(Work()) || (Waiting() && Work() == old(Work()) && conn.outbox == old(conn.outbox))
    {
      hide Pos, PlaceOf, Kept, Decided, Connection.Valid, Connection.OnScript;
      NothingDecided(conn.history, choose);
      if wait == Error {
        return;
      }
      var blocked := Resolve(choose(state));
      QuietlyDecided(old(conn.history), conn.history, choose);
      if blocked {
        if wait != Flush {
          Blocked();
        }
      } else if wait == Ok {
        ghost var mid := conn.history;
        Continue(choose);
        DecidedOn(old(conn.history), mid, conn.history, choose);
      }
    }

    /** Something arrives from whoever sends it. */
    method Deliver(items: seq<Item>)
      requires Valid()
      modifies conn`inbox
      ensures Valid() && conn.Seen() == old(conn.Seen()) + items
    {
      hide Kept, Recorded;
      conn.inbox := conn.inbox + items;
    }
  }

  /** No callback asks to be asked again, and the transport does not block. */
  ghost predicate Eager(choose: State -> Choice) {
    forall s :: !choose(s).retry && choose(s).blocks.None?
  }

  lemma NothingDecided(h: seq<Event>, choose: State -> Choice)
    ensures Decided(h, h, choose)
  {
  }

  lemma DecidedMore(was: seq<Event>, mid: seq<Event>, now: seq<Event>, s: State, choose: State -> Choice)
    requires Decided(was, mid, choose) && DecidedIn(mid, now, s, choose(s))
    ensures Decided(was, now, choose)
  {
  }

  lemma DecidedOn(was: seq<Event>, mid: seq<Event>, now: seq<Event>, choose: State -> Choice)
    requires Decided(was, mid, choose) && Decided(mid, now, choose)
    ensures Decided(was, now, choose)
  {
  }

  lemma QuietlyDecided(was: seq<Event>, now: seq<Event>, choose: State -> Choice)
    requires Quietly(was, now)
    ensures Decided(was, now, choose)
  {
  }

  // ----- whole runs against any peer

  /** A client's run against a peer that sends whatever it likes, in any order of arrivals and turns.
      What it has read is what arrived, as far as it has read; each check was passed by a decision
      made in the run; and the checks due in its state were passed in order. */
  method Play(p: Params, run: seq<Action<State>>) returns (client: ClientHandshake)
    ensures fresh(client) && client.Valid() && client.p == p
    ensures GotItems(client.conn.history) + client.conn.inbox == Arrived(run)
    ensures DecidedInRun(StateOf, run, client.conn.history)
    ensures client.wait != Error ==> Kept(p, client.conn.history, client.Now())
  {
    hide Arrived, DecidedInRun, Kept, GotItems, Connection.Seen, ClientHandshake.Valid,
      ClientHandshake.OnScript;
    NothingHappened(StateOf);
    client := new ClientHandshake(p);
    SeenNothing(client.conn);
    var i := 0;
    assert run[..0] == [];
    while i < |run|
      invariant 0 <= i <= |run| && client.Valid() && client.p == p
      invariant fresh(client) && fresh(client.conn) && fresh(client.conn.transcript)
      invariant client.conn.Seen() == Arrived(run[..i]) && DecidedInRun(StateOf, run[..i], client.conn.history)
    {
      Act(client, run[i], run[..i]);
      assert run[..i + 1] == run[..i] + [run[i]];
      i := i + 1;
    }
    assert run[..|run|] == run;
    Accounted(client);
  }

  method Act(client: ClientHandshake, action: Action<State>, ghost before: seq<Action<State>>)
    requires client.Valid() && client.conn.Seen() == Arrived(before)
    requires DecidedInRun(StateOf, before, client.conn.history)
    modifies client, client.conn, client.conn.transcript
    ensures client.Valid() && client.conn.Seen() == Arrived(before + [action])
    ensures DecidedInRun(StateOf, before + [action], client.conn.history)
  {
    hide ClientHandshake.Valid, DecidedInRun, Arrived, Connection.Seen;
    ghost var was := client.conn.history;
    match action {
      case Arrival(items) => client.Deliver(items);
      case GoOn(choose) => client.Turn(choose);
    }
    ArrivedMore(before, action);
    ByDecisionMore(StateOf, before, action, was, client.conn.history);
  }

  lemma Accounted(client: ClientHandshake)
    requires client.Valid()
    ensures client.conn.Seen() == GotItems(client.conn.history) + client.conn.inbox
    ensures client.wait != Error ==> Kept(client.p, client.conn.history, client.Now())
  {
    hide Kept, Fits;
  }

  // ----- what a client that is through has read and sent

  function ChainActs(h: Hello): seq<Act> {
    if h.cipher == RsaCert || h.cipher == EcdheCert then [Reads(Some(Certificate))] else []
  }

  function StatusActs(status: bool): seq<Act> {
    if status then [Reads(Some(CertificateStatus))] else []
  }

  function ExchangeActs(exchange: bool): seq<Act> {
    if exchange then [Reads(Some(ServerKeyExchange))] else []
  }

  function RequestActs(certRequest: bool): seq<Act> {
    if certRequest then [Reads(Some(CertificateRequest))] else []
  }

  function OwnChainActs(certRequest: bool): seq<Act> {
    if certRequest then [Sends(Some(Certificate))] else []
  }

  function OwnSignedActs(p: Params, certRequest: bool): seq<Act> {
    if certRequest && p.clientHasCertificate then [Sends(Some(CertificateVerify))] else []
  }

  function TicketActs(h: Hello): seq<Act> {
    if h.ticket then [Reads(Some(NewSessionTicket))] else []
  }

  function HelloActs(): seq<Act> {
    [Sends(Some(ClientHello)), Reads(Some(ServerHello))]
  }

  /** All that it has, in order; `certRequest`, `status` and `exchange` are whether a CertificateRequest,
      a CertificateStatus and a ServerKeyExchange were read. */
  function WholeTrace(p: Params, h: Hello, certRequest: bool, status: bool, exchange: bool): seq<Act> {
    if h.resumed then HelloActs() + TicketActs(h) + [Reads(None)] + [Reads(Some(Finished))] + FinishedActs(h)
    else
      HelloActs() + ChainActs(h) + StatusActs(status) + ExchangeActs(exchange) + RequestActs(certRequest)
      + [Reads(Some(ServerHelloDone))]
      + OwnChainActs(certRequest) + [Sends(Some(ClientKeyExchange))] + OwnSignedActs(p, certRequest) + FinishedActs(h)
      + TicketActs(h) + [Reads(None)] + [Reads(Some(Finished))]
  }

  /** What the last state did, and what was there before. */
  lemma TrailBack(p: Params, s: State, h: Hello, certRequest: bool, trace: seq<Act>)
    returns (front: seq<Act>, acts: seq<Act>)
    requires s != StartConnect && Trail(p, s, h, certRequest, trace)
    ensures Trail(p, Before(s, h.resumed), h, certRequest, front)
    ensures Passes(p, Before(s, h.resumed), h, certRequest, acts)
    ensures trace == front + acts && (acts == [] ==> trace == front)
  {
    hide Passes;
    var k :| 0 <= k <= |trace| && Trail(p, Before(s, h.resumed), h, certRequest, trace[..k])
             && Passes(p, Before(s, h.resumed), h, certRequest, trace[k..]);
    front, acts := trace[..k], trace[k..];
  }

  lemma TrailHellos(p: Params, h: Hello, certRequest: bool, trace: seq<Act>)
    requires Trail(p, if h.resumed then ReadSessionTicket else ReadServerCertificate, h, certRequest, trace)
    ensures trace == HelloActs()
  {
    hide Trail;
    var next := if h.resumed then ReadSessionTicket else ReadServerCertificate;
    var t1, hello := TrailBack(p, next, h, certRequest, trace);
    var t2, none := TrailBack(p, State.ReadServerHello, h, certRequest, t1);
    var t3, own := TrailBack(p, EnterEarlyData, h, certRequest, t2);
    assert t3 == [] by { TrailStart(p, h, certRequest, t3); }
  }

  lemma TrailStart(p: Params, h: Hello, certRequest: bool, trace: seq<Act>)
    requires Trail(p, StartConnect, h, certRequest, trace)
    ensures trace == []
  {
  }

  lemma TrailServerFlight(p: Params, h: Hello, certRequest: bool, trace: seq<Act>)
    returns (status: bool, exchange: bool)
    requires !h.resumed && Trail(p, SendClientCertificate, h, certRequest, trace)
    ensures trace ==
            HelloActs() + ChainActs(h) + StatusActs(status) + ExchangeActs(exchange) + RequestActs(certRequest)
            + [Reads(Some(ServerHelloDone))]
    ensures (status ==> h.ocsp) && (h.cipher == RsaCert ==> !exchange)
    ensures h.cipher == EcdheCert || h.cipher == EcdhePsk ==> exchange
  {
    hide Trail;
    var t1, done := TrailBack(p, SendClientCertificate, h, certRequest, trace);
    var t2, request := TrailBack(p, ReadServerHelloDone, h, certRequest, t1);
    var t3, key := TrailBack(p, ReadCertificateRequest, h, certRequest, t2);
    var t4, none := TrailBack(p, ReadServerKeyExchange, h, certRequest, t3);
    var t5, stapled := TrailBack(p, VerifyServerCertificate, h, certRequest, t4);
    var t6, chain := TrailBack(p, ReadCertificateStatus, h, certRequest, t5);
    TrailHellos(p, h, certRequest, t6);
    status, exchange := stapled != [], key != [];
    PartsOfServer(p, h, certRequest, chain, stapled, none, key, request, done);
  }

  lemma PartsOfServer(p: Params, h: Hello, certRequest: bool, chain: seq<Act>, stapled: seq<Act>, none: seq<Act>,
                      key: seq<Act>, request: seq<Act>, done: seq<Act>)
    requires !h.resumed
    requires Passes(p, ReadServerCertificate, h, certRequest, chain)
    requires Passes(p, ReadCertificateStatus, h, certRequest, stapled)
    requires Passes(p, VerifyServerCertificate, h, certRequest, none)
    requires Passes(p, ReadServerKeyExchange, h, certRequest, key)
    requires Passes(p, ReadCertificateRequest, h, certRequest, request)
    requires Passes(p, ReadServerHelloDone, h, certRequest, done)
    ensures chain == ChainActs(h) && stapled == StatusActs(stapled != []) && none == []
    ensures key == ExchangeActs(key != []) && request == RequestActs(certRequest)
    ensures done == [Reads(Some(ServerHelloDone))]
    ensures (stapled != [] ==> h.ocsp) && (h.cipher == RsaCert ==> key == [])
    ensures h.cipher == EcdheCert || h.cipher == EcdhePsk ==> key != []
  {
  }

  lemma TrailClientFlight(p: Params, h: Hello, certRequest: bool, trace: seq<Act>) returns (front: seq<Act>)
    requires !h.resumed && Trail(p, ReadSessionTicket, h, certRequest, trace)
    ensures Trail(p, SendClientCertificate, h, certRequest, front)
    ensures trace ==
            front + OwnChainActs(certRequest) + [Sends(Some(ClientKeyExchange))] + OwnSignedActs(p, certRequest)
            + FinishedActs(h)
  {
    hide Trail, FinishedActs;
    var t1, none := TrailBack(p, ReadSessionTicket, h, certRequest, trace);
    var t2, finished := TrailBack(p, FinishFlight, h, certRequest, t1);
    var t3, signed := TrailBack(p, SendClientFinished, h, certRequest, t2);
    var t4, key := TrailBack(p, SendClientCertificateVerify, h, certRequest, t3);
    var chain;
    front, chain := TrailBack(p, SendClientKeyExchange, h, certRequest, t4);
  }

  lemma TrailServerFinished(p: Params, h: Hello, certRequest: bool, trace: seq<Act>) returns (front: seq<Act>)
    requires Trail(p, if h.resumed then SendClientFinished else FinishClientHandshake, h, certRequest, trace)
    ensures Trail(p, ReadSessionTicket, h, certRequest, front)
    ensures trace == front + TicketActs(h) + [Reads(None)] + [Reads(Some(Finished))]
  {
    hide Trail;
    var t1, finished :=
      TrailBack(p, if h.resumed then SendClientFinished else FinishClientHandshake, h, certRequest, trace);
    var t2, change := TrailBack(p, ReadServerFinished, h, certRequest, t1);
    var ticket;
    front, ticket := TrailBack(p, ProcessChangeCipherSpec, h, certRequest, t2);
  }

  lemma TrailDone(p: Params, h: Hello, certRequest: bool, trace: seq<Act>) returns (status: bool, exchange: bool)
    requires Trail(p, Done, h, certRequest, trace)
    ensures trace == WholeTrace(p, h, certRequest, status, exchange)
    ensures !h.resumed ==>
      (status ==> h.ocsp) && (h.cipher == RsaCert ==> !exchange)
      && (h.cipher == EcdheCert || h.cipher == EcdhePsk ==> exchange)
  {
    hide Trail, HelloActs, ChainActs, StatusActs, ExchangeActs, RequestActs, OwnChainActs, OwnSignedActs, TicketActs,
      FinishedActs;
    var t1, none := TrailBack(p, Done, h, certRequest, trace);
    status, exchange := false, false;
    if h.resumed {
      var t2, more := TrailBack(p, FinishClientHandshake, h, certRequest, t1);
      var t3, finished := TrailBack(p, FinishFlight, h, certRequest, t2);
      var t4 := TrailServerFinished(p, h, certRequest, t3);
      TrailHellos(p, h, certRequest, t4);
    } else {
      var t2 := TrailServerFinished(p, h, certRequest, t1);
      var t3 := TrailClientFlight(p, h, certRequest, t2);
      status, exchange := TrailServerFlight(p, h, certRequest, t3);
    }
  }

  /** A handshake that is through, whatever its server sent: what was read and sent, in order, is what
      goes with the ServerHello adopted.  A CertificateStatus was read only if one was negotiated, a
      ServerKeyExchange for ECDHE and never for RSA, and a CertificateRequest only with a certificate
      cipher; the client sent a chain exactly if it was asked for one, and a signature if it has a
      certificate. */
  lemma DoneAsDue(client: ClientHandshake) returns (status: bool, exchange: bool)
    requires client.Valid() && client.state == Done && client.wait != Error
    ensures Trace(client.conn.history) == WholeTrace(client.p, client.hello, client.certRequest, status, exchange)
    ensures !client.hello.resumed ==>
      (status ==> client.hello.ocsp) && (client.hello.cipher == RsaCert ==> !exchange)
      && (client.hello.cipher == EcdheCert || client.hello.cipher == EcdhePsk ==> exchange)
    ensures client.certRequest ==> Certified(client.hello)
  {
    DoneTrail(client);
    hide *;
    status, exchange := TrailDone(client.p, client.hello, client.certRequest, Trace(client.conn.history));
  }

  lemma DoneTrail(client: ClientHandshake)
    requires client.Valid() && client.state == Done && client.wait != Error
    ensures Trail(client.p, Done, client.hello, client.certRequest, Trace(client.conn.history))
    ensures client.certRequest ==> Certified(client.hello)
  {
    hide InOrder, Due, Trail, Connection.Valid;
  }

  /** A full handshake with a cipher that goes with certificates. */
  predicate Certified(hello: Hello) {
    !hello.resumed && (hello.cipher == RsaCert || hello.cipher == EcdheCert)
  }

  /** A handshake that is through.  A ServerHello was read, the only one to be adopted, and it said what
      the handshake is with.  Then, in full and with a certificate cipher, the certificate was read and
      then verified, and for ECDHE the key exchange was read and its signature checked.  Then upon a
      ChangeCipherSpec the read cipher was changed, and then the server's Finished was read, which
      matched the messages before it; each by a decision that accepts. */
  lemma OrderSafety(p: Params, h: seq<Event>, hello: Hello)
    returns (adopted: nat, read: nat, verified: nat, signed: nat, changed: nat, finished: nat)
    requires InOrder(p, h, Due(Done, hello))
    ensures 0 < adopted < changed < finished < |h| && Adopts(h, adopted, hello)
    ensures Certified(hello) ==>
      && adopted < read < verified < changed
      && PassedAt(p, h, read, CertificateRead)
      && h[read - 1].Got? && h[read - 1].item.Handshake? && h[read - 1].item.m.kind == Certificate
      && PassedAt(p, h, verified, CertificateVerified) && h[verified].c.ok && !h[verified].c.retry
    ensures Certified(hello) && hello.cipher == EcdheCert ==>
      && verified < signed < changed && PassedAt(p, h, signed, KeyExchangeSigned) && h[signed].c.ok
      && h[signed - 1].Got? && h[signed - 1].item.Handshake? && h[signed - 1].item.m.kind == ServerKeyExchange
    ensures PassedAt(p, h, changed, CipherChanged) && h[changed - 1] == Got(ChangeCipherSpec)
    ensures PassedAt(p, h, finished, FinishedMatched(Server))
    ensures h[finished - 1] == Got(Handshake(Message(Finished, p.mac(Messages(h[..finished - 1]), Server))))
  {
    hide InOrder, Due, Messages, PassedAt;
    var ks := InOrderPlaces(p, h, Due(Done, hello));
    DueDone(hello);
    AdoptedOnce(p, h, hello, ks);
    adopted, changed, finished := ks[0], ks[|ks| - 2], ks[|ks| - 1];
    read, verified, signed := 0, 0, 0;
    if Certified(hello) {
      read, verified := ks[1], ks[2];
      WhatPassed(p, h, read, CertificateRead);
      WhatPassed(p, h, verified, CertificateVerified);
      if hello.cipher == EcdheCert {
        signed := ks[3];
        WhatPassed(p, h, signed, KeyExchangeSigned);
      }
    }
    WhatPassed(p, h, changed, CipherChanged);
    WhatPassed(p, h, finished, FinishedMatched(Server));
  }

  lemma DueDone(hello: Hello)
    ensures Due(Done, hello) ==
      if hello.resumed || !hello.cipher.UsesCertificate()
      then [HelloRead(hello), CipherChanged, FinishedMatched(Server)]
      else if hello.cipher == EcdheCert
      then
        [HelloRead(hello), CertificateRead, CertificateVerified, KeyExchangeSigned, CipherChanged,
         FinishedMatched(Server)]
      else [HelloRead(hello), CertificateRead, CertificateVerified, CipherChanged, FinishedMatched(Server)]
  {
    hide DueOf;
    var checks := Checks(hello);
    DueOfMore(checks, 0, Done, hello);
    DueOfMore(checks, 1, Done, hello);
    DueOfMore(checks, 2, Done, hello);
    DueOfMore(checks, 3, Done, hello);
    DueOfMore(checks, 4, Done, hello);
    DueOfMore(checks, 5, Done, hello);
    assert checks[..6] == checks;
  }

  lemma DueOfMore(checks: seq<Check>, k: nat, s: State, h: Hello)
    requires k < |checks|
    ensures DueOf(checks[..k + 1], s, h) ==
            DueOf(checks[..k], s, h) + if IsDue(checks[k], s, h) then [checks[k]] else []
    ensures k == 0 ==> DueOf(checks[..k], s, h) == []
  {
    assert checks[..k + 1][..k] == checks[..k];
  }

  /** At `k` the client adopts what the ServerHello it has just read says, which is `hello`; it never
      adopts anything else. */
  ghost predicate Adopts(h: seq<Event>, k: nat, hello: Hello) {
    && 0 < k < |h| && h[k].Passed? && h[k].check.HelloRead? && h[k].c.ok && h[k].c.hello == hello
    && h[k - 1].Got? && h[k - 1].item.Handshake? && h[k - 1].item.m.kind == ServerHello
    && forall i :: 0 <= i < |h| && h[i].Passed? && h[i].check.HelloRead? ==> i == k
  }

  lemma AdoptedOnce(p: Params, h: seq<Event>, hello: Hello, ks: seq<nat>)
    requires Places(p, h, Due(Done, hello), ks)
    ensures ks != [] && Adopts(h, ks[0], hello)
  {
    hide Due, PassedAt;
    DueDone(hello);
    WhatPassed(p, h, ks[0], HelloRead(hello));
    forall i | 0 <= i < |h| && h[i].Passed? && h[i].check.HelloRead?
      ensures i == ks[0]
    {
      var j :| 0 <= j < |ks| && ks[j] == i;
      WhatPassed(p, h, i, Due(Done, hello)[j]);
    }
  }

  /** And a resumed one: the ServerHello adopted said so, then the read cipher was changed, and then
      the server's Finished matched. */
  lemma ResumedOrderSafety(p: Params, h: seq<Event>, hello: Hello) returns (adopted: nat, changed: nat, finished: nat)
    requires InOrder(p, h, Due(Done, hello)) && hello.resumed
    ensures 0 < adopted < changed < finished < |h|
    ensures Adopts(h, adopted, hello)
    ensures PassedAt(p, h, changed, CipherChanged) && h[changed - 1] == Got(ChangeCipherSpec)
    ensures PassedAt(p, h, finished, FinishedMatched(Server))
    ensures h[finished - 1] == Got(Handshake(Message(Finished, p.mac(Messages(h[..finished - 1]), Server))))
  {
    hide InOrder, Due, Messages, PassedAt;
    var ks := InOrderPlaces(p, h, Due(Done, hello));
    DueDone(hello);
    AdoptedOnce(p, h, hello, ks);
    adopted, changed, finished := ks[0], ks[1], ks[2];
    WhatPassed(p, h, changed, CipherChanged);
    WhatPassed(p, h, finished, FinishedMatched(Server));
  }

  lemma BodyOfMade(p: Params, kind: Kind, from: Side, t: seq<Message>)
    ensures BodyOf(p, kind, from, t) ==
            match kind
            case Finished => p.mac(t, from)
            case CertificateVerify => p.sign(t)
            case _ => p.make(kind, from, t)
  {
  }

  /** From these places on the server's flight is next. */
  lemma TurnOfServer(p: Params, n: nat)
    requires if p.hello.resumed then 1 <= n <= 4 else 1 <= n <= 6 || 14 <= n <= 16
    ensures PeersTurn(p, Client, n)
  {
    var k := if n == 1 then 1 else if p.hello.resumed then 4 else if n <= 6 then 6 else 16;
    assert SendsAt(p, Client.Peer(), k);
  }
}
