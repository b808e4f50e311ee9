/** The checks of a handshake in the order in which they were passed, read off its history. */
module HandshakeChecks {
  import opened Wrappers
  import opened HandshakeScript
  import opened HandshakeTransport

  ghost predicate JustGot(h: seq<Event>, kind: Kind) {
    h != [] && var e := h[|h| - 1]; e.Got? && e.item.Handshake? && e.item.m.kind == kind
  }

  ghost predicate JustChanged(h: seq<Event>) {
    h != [] && h[|h| - 1] == Got(ChangeCipherSpec)
  }

  /** The last thing read is the Finished that the peer makes of all messages before it. */
  ghost predicate JustFinished(p: Params, h: seq<Event>, from: Side) {
    h != [] && var n := |h| - 1; h[n] == Got(Handshake(Message(Finished, p.mac(Messages(h[..n]), from))))
  }

  /** The last thing read is a CertificateVerify whose signature is over all messages before it. */
  ghost predicate JustSigned(p: Params, h: seq<Event>) {
    JustGot(h, CertificateVerify) && var n := |h| - 1; p.verify(Messages(h[..n]), h[n].item.m.body)
  }

  /** What it takes to pass a check after a history `h`: that the decision `c` accepts, and that
      what it is about has just been read. */
  ghost predicate Earns(p: Params, h: seq<Event>, check: Check, c: Choice) {
    c.ok &&
    match check
    case HelloRead(hello) => JustGot(h, ServerHello) && c.hello == hello
    case CertificateRead => JustGot(h, Certificate)
    case CertificateVerified => !c.retry
    case KeyExchangeSigned => JustGot(h, ServerKeyExchange)
    case CipherChanged => JustChanged(h)
    case FinishedMatched(from) => JustFinished(p, h, from)
    case ChainRead(empty) => JustGot(h, Certificate) && c.emptyChain == empty
    case ClientVerified => !c.retry
    case ClientSigned => JustSigned(p, h)
  }

  /** Some check, passed by right at the place `k` of a history. */
  ghost predicate PassedAt(p: Params, h: seq<Event>, k: nat, check: Check) {
    k < |h| && h[k].Passed? && h[k].check == check && Earns(p, h[..k], check, h[k].c)
  }

  /** The checks passed in a history are these and no others, in this order and each by right. */
  ghost predicate InOrder(p: Params, h: seq<Event>, checks: seq<Check>) {
    if h == [] then checks == []
    else
      var n, m := |h| - 1, |checks| - 1;
      if h[n].Passed? then checks != [] && PassedAt(p, h, n, checks[m]) && InOrder(p, h[..n], checks[..m])
      else InOrder(p, h[..n], checks)
  }

  /** Where each of them was passed; nothing was passed anywhere else. */
  ghost predicate Places(p: Params, h: seq<Event>, checks: seq<Check>, ks: seq<nat>) {
    && |ks| == |checks|
    && (forall i, j :: 0 <= i < j < |ks| ==> ks[i] < ks[j])
    && (forall i :: 0 <= i < |ks| ==> PassedAt(p, h, ks[i], checks[i]))
    && (forall k: nat :: k < |h| && h[k].Passed? ==> k in ks)
  }

  lemma {:induction false} InOrderPlaces(p: Params, h: seq<Event>, checks: seq<Check>) returns (ks: seq<nat>)
    requires InOrder(p, h, checks)
    ensures Places(p, h, checks, ks)
    decreases |h|
  {
    ks := [];
    if h != [] {
      var n, m := |h| - 1, |checks| - 1;
      if h[n].Passed? {
        ks := InOrderPlaces(p, h[..n], checks[..m]);
        ks := ks + [n];
      } else {
        ks := InOrderPlaces(p, h[..n], checks);
      }
      forall i | 0 <= i < |ks|
        ensures PassedAt(p, h, ks[i], checks[i])
      {
        assert ks[i] < n ==> h[..n][..ks[i]] == h[..ks[i]];
      }
      forall k: nat | k < |h| && h[k].Passed?
        ensures k in ks
      {
        assert k < n ==> h[..n][k] == h[k];
      }
    }
  }

  /** A history does not leave open which checks were passed in it. */
  lemma {:induction false} InOrderUnique(p: Params, h: seq<Event>, checks: seq<Check>, others: seq<Check>)
    requires InOrder(p, h, checks) && InOrder(p, h, others)
    ensures checks == others
    decreases |h|
  {
    if h != [] {
      var n := |h| - 1;
      if h[n].Passed? {
        InOrderUnique(p, h[..n], checks[..|checks| - 1], others[..|others| - 1]);
        assert checks == checks[..|checks| - 1] + [h[n].check] && others == others[..|others| - 1] + [h[n].check];
      } else {
        InOrderUnique(p, h[..n], checks, others);
      }
    }
  }

  lemma {:induction false} InOrderMore(p: Params, was: seq<Event>, now: seq<Event>, checks: seq<Check>)
    requires Quietly(was, now) && InOrder(p, was, checks)
    ensures InOrder(p, now, checks)
    decreases |now|
  {
    if was != now {
      var n := |now| - 1;
      InOrderMore(p, was, now[..n], checks);
    }
  }

  lemma InOrderPass(p: Params, h: seq<Event>, checks: seq<Check>, check: Check, c: Choice)
    requires InOrder(p, h, checks) && Earns(p, h, check, c)
    ensures InOrder(p, h + [Passed(check, c)], checks + [check])
  {
    var now, more := h + [Passed(check, c)], checks + [check];
    assert now[..|h|] == h && more[..|checks|] == checks;
  }

  /** Nothing was passed in between. */
  ghost predicate Quietly(was: seq<Event>, now: seq<Event>) {
    was <= now && forall i :: |was| <= i < |now| ==> !now[i].Passed?
  }

  lemma WhatPassed(p: Params, h: seq<Event>, k: nat, check: Check)
    requires PassedAt(p, h, k, check)
    ensures k < |h| && h[k].Passed? && h[k].check == check && h[k].c.ok
    ensures check.HelloRead? ==>
      && k > 0 && h[k - 1].Got? && h[k - 1].item.Handshake? && h[k - 1].item.m.kind == ServerHello
      && h[k].c.hello == check.hello
    ensures check.ChainRead? ==>
      && k > 0 && h[k - 1].Got? && h[k - 1].item.Handshake? && h[k - 1].item.m.kind == Certificate
      && h[k].c.emptyChain == check.empty
    ensures check == CertificateRead ==>
      k > 0 && h[k - 1].Got? && h[k - 1].item.Handshake? && h[k - 1].item.m.kind == Certificate
    ensures check == CertificateVerified ==> !h[k].c.retry
    ensures check == KeyExchangeSigned ==>
      k > 0 && h[k - 1].Got? && h[k - 1].item.Handshake? && h[k - 1].item.m.kind == ServerKeyExchange
    ensures check == CipherChanged ==> k > 0 && h[k - 1] == Got(ChangeCipherSpec)
    ensures check.FinishedMatched? ==>
      k > 0 && h[k - 1] == Got(Handshake(Message(Finished, p.mac(Messages(h[..k - 1]), check.from))))
    ensures check == ClientVerified ==> !h[k].c.retry
    ensures check == ClientSigned ==>
      && k > 0 && h[k - 1].Got? && h[k - 1].item.Handshake? && h[k - 1].item.m.kind == CertificateVerify
      && p.verify(Messages(h[..k - 1]), h[k - 1].item.m.body)
  {
    hide Messages;
    if k > 0 {
      assert h[..k][..k - 1] == h[..k - 1];
    }
  }

  // ----- what was read and written, in order

  /** A message of some kind, or a ChangeCipherSpec, was read or sent. */
  datatype Act = Reads(kind: Option<Kind>) | Sends(kind: Option<Kind>)

  function KindOf(item: Item): Option<Kind> {
    if item.Handshake? then Some(item.m.kind) else None
  }

  function ActOf(e: Event): seq<Act> {
    match e
    case Got(item) => [Reads(KindOf(item))]
    case Put(item) => [Sends(KindOf(item))]
    case Passed(_, _) => []
  }

  function Trace(h: seq<Event>): seq<Act> {
    if h == [] then [] else Trace(h[..|h| - 1]) + ActOf(h[|h| - 1])
  }

  /** What was read and written in between. */
  ghost predicate Acted(was: seq<Event>, now: seq<Event>, acts: seq<Act>) {
    Trace(now) == Trace(was) + acts
  }

  /** A message of a kind was queued to be sent. */
  ghost predicate Puts(h: seq<Event>, kind: Kind) {
    exists k :: 0 <= k < |h| && h[k].Put? && h[k].item.Handshake? && h[k].item.m.kind == kind
  }

  lemma {:induction false} PutsInTrace(h: seq<Event>, kind: Kind)
    ensures Puts(h, kind) <==> Sends(Some(kind)) in Trace(h)
    decreases |h|
  {
    if h != [] {
      hide Puts;
      PutsInTrace(h[..|h| - 1], kind);
      PutsMore(h, kind);
    }
  }

  lemma PutsMore(h: seq<Event>, kind: Kind)
    requires h != []
    ensures Puts(h, kind) <==> Puts(h[..|h| - 1], kind) || Sends(Some(kind)) in ActOf(h[|h| - 1])
  {
    var n := |h| - 1;
    if k :| 0 <= k < |h| && h[k].Put? && h[k].item.Handshake? && h[k].item.m.kind == kind {
      assert k < n ==> h[..n][k] == h[k];
    }
    if k :| 0 <= k < n && h[..n][k].Put? && h[..n][k].item.Handshake? && h[..n][k].item.m.kind == kind {
      assert h[k] == h[..n][k];
    }
  }

  lemma NotActed(h: seq<Event>)
    ensures Acted(h, h, [])
  {
  }

  lemma ActedMore(was: seq<Event>, now: seq<Event>, acts: seq<Act>, e: Event)
    requires Acted(was, now, acts)
    ensures Acted(was, now + [e], acts + ActOf(e)) && (acts == [] ==> Acted(was, now + [e], ActOf(e)))
  {
    assert (now + [e])[..|now|] == now;
  }

  lemma LastOf(h: seq<Event>, e: Event)
    ensures (h + [e])[..|h|] == h
  {
  }

  // ----- whole runs against any peer

  /** What happens to a side: something arrives, or the application lets the handshake go on and
      decides in each state `S` as `choose` says. */
  datatype Action<!S> = Arrival(items: seq<Item>) | GoOn(choose: S -> Choice)

  function Arrived<S(!new)>(run: seq<Action<S>>): seq<Item> {
    if run == [] then []
    else Arrived(run[..|run| - 1]) + if run[|run| - 1].Arrival? then run[|run| - 1].items else []
  }

  /** Every check passed was passed by a decision made in the run, for the state that checks. */
  ghost predicate DecidedInRun<S(!new)>(stateOf: Check -> S, run: seq<Action<S>>, h: seq<Event>) {
    forall i :: 0 <= i < |h| && h[i].Passed? ==> ByDecision(stateOf, run, h[i])
  }

  ghost predicate ByDecision<S(!new)>(stateOf: Check -> S, run: seq<Action<S>>, e: Event)
    requires e.Passed?
  {
    exists k :: 0 <= k < |run| && run[k].GoOn? && run[k].choose(stateOf(e.check)) == e.c
  }

  lemma ByDecisionMore<S(!new)>(stateOf: Check -> S, run: seq<Action<S>>, a: Action<S>, was: seq<Event>,
                         now: seq<Event>)
    requires DecidedInRun(stateOf, run, was) && was <= now
    requires forall i :: |was| <= i < |now| && now[i].Passed? ==> a.GoOn? && now[i].c == a.choose(stateOf(now[i].check))
    ensures DecidedInRun(stateOf, run + [a], now)
  {
    var more := run + [a];
    forall i | 0 <= i < |now| && now[i].Passed?
      ensures ByDecision(stateOf, more, now[i])
    {
      if i < |was| {
        assert now[i] == was[i] && ByDecision(stateOf, run, was[i]);
        var k :| 0 <= k < |run| && run[k].GoOn? && run[k].choose(stateOf(was[i].check)) == was[i].c;
        assert more[k] == run[k];
      } else {
        assert more[|run|] == a;
      }
    }
  }

  lemma NothingHappened<S(!new)>(stateOf: Check -> S)
    ensures Arrived<S>([]) == [] && DecidedInRun(stateOf, [], [])
  {
  }

  lemma ArrivedMore<S(!new)>(run: seq<Action<S>>, a: Action<S>)
    ensures Arrived(run + [a]) == if a.Arrival? then Arrived(run) + a.items else Arrived(run)
  {
    assert (run + [a])[..|run|] == run;
  }

  lemma SeenNothing(conn: Connection)
    requires conn.received == conn.inbox == []
    ensures conn.Seen() == []
  {
  }
}
