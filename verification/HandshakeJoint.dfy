/** A client and a server that run a handshake with each other over a reliable ordered channel. */
module HandshakeJoint {
  import opened Wrappers
  import opened HandshakeScript
  import opened HandshakeTransport
  import opened HandshakeChecks
  import C = HandshakeClient
  import S = HandshakeServer

  /** What the two applications decide, state by state. */
  datatype Choices = Choices(client: C.State -> Choice, server: S.State -> Choice)

  class Joint {
    const p: Params
    const client: C.ClientHandshake
    const server: S.ServerHandshake

    ghost predicate Apart()
      reads this
    {
      && client.p == p && server.p == p && client.conn != server.conn
      && client.conn.transcript != server.conn.transcript
    }

    /** Both sides are in order, and what one has sent is what the other has received or will. */
    ghost predicate Valid()
      reads this, client, client.conn, client.conn.transcript, server, server.conn, server.conn.transcript
    {
      && Apart() && client.Valid() && server.Valid()
      && client.conn.gone == server.conn.Seen()
      && server.conn.gone == client.conn.Seen()
    }

    ghost predicate OnScript()
      requires Valid()
      reads this, client, client.conn, client.conn.transcript, server, server.conn, server.conn.transcript
    {
      client.OnScript() && server.OnScript()
    }

    constructor (p: Params)
      ensures Valid() && OnScript() && this.p == p
      ensures fresh(client) && fresh(client.conn) && fresh(client.conn.transcript)
      ensures fresh(server) && fresh(server.conn) && fresh(server.conn.transcript)
      ensures client.wait == Ok && server.wait == Ok
    {
      hide C.Kept, S.Kept, Recorded;
      this.p := p;
      client := new C.ClientHandshake(p);
      server := new S.ServerHandshake(p);
    }

    /** What either side has flushed reaches the other. */
    method DeliverToServer()
      requires Valid()
      modifies client.conn`outbox, client.conn`gone, server.conn`inbox
      ensures Valid() && (old(OnScript()) ==> OnScript()) && client.conn.outbox == []
      ensures server.conn.inbox == old(server.conn.inbox) + old(client.conn.outbox)
    {
      hide Connection.Valid, Connection.OnScript, SSLTranscript.Valid, SSLTranscript.Content, SnapshotsOk,
        C.PlaceOf, S.PlaceOf, C.Kept, S.Kept;
      Deliver(client.conn, server.conn, p, client.At(), server.At());
    }

    method DeliverToClient()
      requires Valid()
      modifies server.conn`outbox, server.conn`gone, client.conn`inbox
      ensures Valid() && (old(OnScript()) ==> OnScript()) && server.conn.outbox == []
      ensures client.conn.inbox == old(client.conn.inbox) + old(server.conn.outbox)
    {
      hide Connection.Valid, Connection.OnScript, SSLTranscript.Valid, SSLTranscript.Content, SnapshotsOk,
        C.PlaceOf, S.PlaceOf, C.Kept, S.Kept;
      Deliver(server.conn, client.conn, p, server.At(), client.At());
    }

    ghost predicate Honest(choices: Choices)
      reads this
    {
      client.AllHonest(choices.client) && server.AllHonest(choices.server)
    }

    ghost predicate Patient(choices: Choices) {
      C.Eager(choices.client) && S.Eager(choices.server)
    }

    /** An iteration of one side's ssl_run_handshake, whatever its application decides. */
    method Turn(side: Side, choices: Choices)
      requires Valid()
      modifies client, client.conn, client.conn.transcript, server, server.conn, server.conn.transcript
      ensures Valid() && (old(OnScript()) && Honest(choices) ==> OnScript())
      ensures old(OnScript()) && Honest(choices) && Patient(choices) ==>
        if side.Client? then
          && server.Work() == old(server.Work()) && (old(server.Waiting()) ==> server.Waiting())
          && (client.Work() < old(client.Work())
              || (client.Waiting() && client.Work() == old(client.Work())
                  && client.conn.outbox == old(client.conn.outbox)))
        else
          && client.Work() == old(client.Work()) && (old(client.Waiting()) ==> client.Waiting())
          && (server.Work() < old(server.Work())
              || (server.Waiting() && server.Work() == old(server.Work())
                  && server.conn.outbox == old(server.conn.outbox)))
      ensures if side.Client? then server.conn.outbox == old(server.conn.outbox)
              else client.conn.outbox == old(client.conn.outbox)
    {
      hide Connection.Valid, Connection.OnScript, Connection.Seen, SSLTranscript.Valid, SSLTranscript.Content,
        SnapshotsOk, PeersTurn, C.PlaceOf, S.PlaceOf, C.Pos, S.Pos, Sent,
        C.ClientHandshake.Valid, S.ServerHandshake.Valid, C.ClientHandshake.OnScript,
        S.ServerHandshake.OnScript, C.ClientHandshake.Waiting, S.ServerHandshake.Waiting;
      match side
      case Client => client.Turn(choices.client);
      case Server => server.Turn(choices.server);
    }

    /** Every joint run, in any order of turns and deliveries, with callbacks that ask for retries
        as they like, stays on the script as long as all checks succeed. */
    method Run(schedule: seq<(Side, bool, Choices)>)
      requires Valid() && OnScript() && forall i :: 0 <= i < |schedule| ==> Honest(schedule[i].2)
      modifies client, client.conn, client.conn.transcript, server, server.conn, server.conn.transcript
      ensures Valid() && OnScript()
    {
      var i := 0;
      while i < |schedule|
        invariant 0 <= i <= |schedule| && Valid() && OnScript()
      {
        var (side, delivers, choices) := schedule[i];
        if delivers {
          if side.Client? {
            DeliverToServer();
          } else {
            DeliverToClient();
          }
        } else {
          Turn(side, choices);
        }
        i := i + 1;
      }
    }

    /** Transcript agreement, at any point of a run whose checks succeed: a side has computed, or
        checked, a Finished once it is past that place of the script, and the client's
        CertificateVerify was signed, or verified, if and once one was due; and what is checked or
        verified is what it was computed over. */
    lemma TranscriptAgreement()
      requires Valid() && OnScript()
      ensures var c, s := client.snapshots, server.snapshots;
              && (c.sent.Some? <==> client.At() > FinishedPlace(p, Client))
              && (s.checked.Some? <==> server.At() > FinishedPlace(p, Client))
              && (s.sent.Some? <==> server.At() > FinishedPlace(p, Server))
              && (c.checked.Some? <==> client.At() > FinishedPlace(p, Server))
              && (c.signed.Some? <==> SignsAt9(p) && client.At() > 9)
              && (s.signed.Some? <==> SignsAt9(p) && server.At() > 9)
              && (c.sent.Some? && s.checked.Some? ==> c.sent == s.checked)
              && (s.sent.Some? && c.checked.Some? ==> s.sent == c.checked)
              && (c.signed.Some? && s.signed.Some? ==> c.signed == s.signed)
    {
    }

    /** When both are through, all of this has happened. */
    lemma AgreedAtTheEnd()
      requires Valid() && OnScript() && client.state == C.Done && server.state == S.Done
      ensures Agreed()
    {
      TranscriptAgreement();
    }

    /** Each side's Finished was checked against the transcript it was computed over, and a
        CertificateVerify, if one was due, verified over what was signed. */
    ghost predicate Agreed()
      reads this, client, server
    {
      var c, s := client.snapshots, server.snapshots;
      && c.sent.Some? && s.checked == c.sent && s.sent.Some? && c.checked == s.sent
      && c.signed == s.signed && (c.signed.Some? <==> SignsAt9(p))
    }

    /** Nothing is under way. */
    ghost predicate Quiet()
      reads client, server, client.conn, server.conn
    {
      client.conn.outbox == [] && server.conn.outbox == []
    }

    /** Client and server never both wait for each other. */
    lemma NeverBothWait()
      requires Valid() && OnScript() && Quiet() && client.Waiting() && server.Waiting()
      ensures client.state == C.Done && server.state == S.Done && client.Work() == server.Work() == 0
    {
      hide C.Fits, S.Fits, S.Knows, C.Kept, S.Kept, SnapshotsOk, PeersTurn, Recorded, Sent, Transcript;
      assert client.conn.gone == client.conn.sent && server.conn.gone == server.conn.sent;
      NobodyWaits(p, client.At(), server.At(), client.conn.inbox, server.conn.inbox,
                  client.state == C.Done && client.wait == Ok, server.state == S.Done && server.wait == Ok);
    }

    /** Who has nothing left to do is done. */
    lemma NoWorkDone()
      ensures (client.Work() == 0 ==> client.state == C.Done) && (server.Work() == 0 ==> server.state == S.Done)
    {
    }

    /** A turn of both sides, after everything has been delivered: unless both are done, less is
        left to do. */
    method Round(choices: Choices)
      requires Valid() && OnScript() && Honest(choices) && Patient(choices)
      requires client.state != C.Done || server.state != S.Done
      modifies client, client.conn, client.conn.transcript, server, server.conn, server.conn.transcript
      ensures Valid() && OnScript() && client.Work() + server.Work() < old(client.Work() + server.Work())
    {
      hide Connection.Valid, Connection.OnScript, Connection.Seen, SSLTranscript.Valid, SSLTranscript.Content,
        SnapshotsOk, PeersTurn, C.PlaceOf, S.PlaceOf, C.Pos, S.Pos, Sent,
        C.ClientHandshake.Valid, S.ServerHandshake.Valid, C.ClientHandshake.OnScript,
        S.ServerHandshake.OnScript, C.ClientHandshake.Waiting, S.ServerHandshake.Waiting,
        C.ClientHandshake.Work, S.ServerHandshake.Work, Honest, Patient;
      NoWorkDone();
      DeliverToServer();
      DeliverToClient();
      Turn(Client, choices);
      Turn(Server, choices);
      if client.Work() + server.Work() == old(client.Work() + server.Work()) {
        NeverBothWait();
      }
    }

    /** With successful checks and no more retries, the handshake completes: both sides reach
        their last state, on the script to its end, and agree on the transcripts. */
    method Complete(choices: Choices)
      requires Valid() && OnScript() && Honest(choices) && Patient(choices)
      modifies client, client.conn, client.conn.transcript, server, server.conn, server.conn.transcript
      ensures Valid() && OnScript() && client.state == C.Done && server.state == S.Done && Agreed()
    {
      hide Connection.Valid, Connection.OnScript, Connection.Seen, SSLTranscript.Valid, SSLTranscript.Content,
        SnapshotsOk, PeersTurn, C.PlaceOf, S.PlaceOf, C.Pos, S.Pos, Sent,
        C.ClientHandshake.Valid, S.ServerHandshake.Valid, C.ClientHandshake.OnScript,
        S.ServerHandshake.OnScript, C.ClientHandshake.Waiting, S.ServerHandshake.Waiting,
        C.ClientHandshake.Work, S.ServerHandshake.Work, Honest, Patient;
      while client.state != C.Done || server.state != S.Done
        invariant Valid() && OnScript()
        decreases client.Work() + server.Work()
      {
        Round(choices);
      }
      AgreedAtTheEnd();
    }
  }

  /** Two sides that have read everything up to their inboxes, each of them through or at a place
      where its peer is next, are both through. */
  lemma NobodyWaits(p: Params, c: nat, s: nat, toClient: seq<Item>, toServer: seq<Item>, clientDone: bool,
                    serverDone: bool)
    requires c <= End(p.hello.resumed) && s <= End(p.hello.resumed)
    requires Sent(p, Client, s) + toServer == Sent(p, Client, c) && Sent(p, Server, c) + toClient == Sent(p, Server, s)
    requires if clientDone then c == End(p.hello.resumed) else toClient == [] && PeersTurn(p, Client, c)
    requires if serverDone then s == End(p.hello.resumed) else toServer == [] && PeersTurn(p, Server, s)
    ensures clientDone && serverDone
  {
    hide PeersTurn, Sent;
    SentPrefix(p, Client, if c <= s then c else s, if c <= s then s else c);
    SentPrefix(p, Server, if c <= s then c else s, if c <= s then s else c);
    NotBothPeersTurn(p, c, s);
  }
}
