/** The handshake objects: each state of the source's loops as a method that updates its side in place. */
module HandshakeDrivers {
  import opened Wire
  import opened HandshakeMachines

  /** Why a state returned: to go on, because of an error, or to wait for a message or a callback. */
  datatype Wait = Ok | Error | ReadMessage | Callback

  /** Whether a step was blocked: waiting for a message or for a callback. */
  predicate Blocked<T(==)>(x: T, r: Moved<T>) {
    r.side == x && !r.took
  }

  lemma ClientBlocked(c: Client, r: Moved<Client>)
    ensures r == Stay(c) ==> Blocked(c, r)
    ensures r.took || r.side.state != c.state ==> !Blocked(c, r)
  {
  }

  lemma ServerBlocked(s: Server, r: Moved<Server>)
    ensures r == Stay(s) ==> Blocked(s, r)
    ensures r.took || r.side.state != s.state ==> !Blocked(s, r)
  {
  }

  /** The client's next pass finds no message, or a callback that is not ready. */
  predicate HeldClient(cfg: Config, w: World, retry: bool) {
    Blocked(w.client, ClientStep(cfg, w.client, Head(w.toClient), retry))
  }

  predicate HeldServer(cfg: Config, w: World, retry: bool) {
    Blocked(w.server, ServerStep(cfg, w.server, Head(w.toServer), retry))
  }

  /** The client is still under way. */
  predicate GoesClient(w: World) {
    w.client.state != CDone && w.client.state != CFailed
  }

  predicate GoesServer(w: World) {
    w.server.state != SDone && w.server.state != SFailed
  }

  /** The moves of a loop: one for each callback, by a side under way, and none after one that was held. */
  ghost predicate ClientPath(cfg: Config, start: World, callbacks: seq<bool>, moves: seq<Move>) {
    moves == [] ||
    var n := |moves| - 1;
    && ClientPath(cfg, start, callbacks, moves[..n]) && !ClientWaits(cfg, start, callbacks, moves[..n])
    && n < |callbacks| && moves[n] == ClientMoves(callbacks[n])
    && GoesClient(RunFrom(cfg, start, moves[..n]))
  }

  /** The last move was held. */
  ghost predicate ClientWaits(cfg: Config, start: World, callbacks: seq<bool>, moves: seq<Move>) {
    && 0 < |moves| <= |callbacks|
    && HeldClient(cfg, RunFrom(cfg, start, moves[..|moves| - 1]), callbacks[|moves| - 1])
  }

  lemma ClientPathBegins(cfg: Config, start: World, callbacks: seq<bool>)
    ensures RunFrom(cfg, start, []) == start
    ensures ClientPath(cfg, start, callbacks, []) && !ClientWaits(cfg, start, callbacks, [])
  {
  }

  lemma ClientPathGrows(cfg: Config, start: World, callbacks: seq<bool>, moves: seq<Move>)
    requires ClientPath(cfg, start, callbacks, moves) && !ClientWaits(cfg, start, callbacks, moves)
    requires |moves| < |callbacks| && GoesClient(RunFrom(cfg, start, moves))
    ensures var grown := moves + [ClientMoves(callbacks[|moves|])];
            && ClientPath(cfg, start, callbacks, grown)
            && RunFrom(cfg, start, grown) == Step(cfg, RunFrom(cfg, start, moves), ClientMoves(callbacks[|moves|]))
            && (ClientWaits(cfg, start, callbacks, grown) <==>
                  HeldClient(cfg, RunFrom(cfg, start, moves), callbacks[|moves|]))
  {
    var grown := moves + [ClientMoves(callbacks[|moves|])];
    assert grown[..|moves|] == moves;
    hide HeldClient, Step;
  }

  ghost predicate ServerPath(cfg: Config, start: World, callbacks: seq<bool>, moves: seq<Move>) {
    moves == [] ||
    var n := |moves| - 1;
    && ServerPath(cfg, start, callbacks, moves[..n]) && !ServerWaits(cfg, start, callbacks, moves[..n])
    && n < |callbacks| && moves[n] == ServerMoves(callbacks[n])
    && GoesServer(RunFrom(cfg, start, moves[..n]))
  }

  ghost predicate ServerWaits(cfg: Config, start: World, callbacks: seq<bool>, moves: seq<Move>) {
    && 0 < |moves| <= |callbacks|
    && HeldServer(cfg, RunFrom(cfg, start, moves[..|moves| - 1]), callbacks[|moves| - 1])
  }

  lemma ServerPathBegins(cfg: Config, start: World, callbacks: seq<bool>)
    ensures RunFrom(cfg, start, []) == start
    ensures ServerPath(cfg, start, callbacks, []) && !ServerWaits(cfg, start, callbacks, [])
  {
  }

  lemma ServerPathGrows(cfg: Config, start: World, callbacks: seq<bool>, moves: seq<Move>)
    requires ServerPath(cfg, start, callbacks, moves) && !ServerWaits(cfg, start, callbacks, moves)
    requires |moves| < |callbacks| && GoesServer(RunFrom(cfg, start, moves))
    ensures var grown := moves + [ServerMoves(callbacks[|moves|])];
            && ServerPath(cfg, start, callbacks, grown)
            && RunFrom(cfg, start, grown) == Step(cfg, RunFrom(cfg, start, moves), ServerMoves(callbacks[|moves|]))
            && (ServerWaits(cfg, start, callbacks, grown) <==>
                  HeldServer(cfg, RunFrom(cfg, start, moves), callbacks[|moves|]))
  {
    var grown := moves + [ServerMoves(callbacks[|moves|])];
    assert grown[..|moves|] == moves;
    hide HeldServer, Step;
  }

  class ClientHandshake {
    const cfg: Config
    var state: CState
    var wantCcs: bool
    var transcript: Transcript
    var params: Params
    var certRequest: bool
    var secret: Option<Secret>
    var recorded: Option<seq<Msg>>
    var inbox: seq<Msg>
    var outbox: seq<Msg>

    ghost function Hs(): Client
      reads this
    {
      Client(state, wantCcs, transcript, params, certRequest, secret, recorded)
    }

    constructor (cfg: Config)
      ensures this.cfg == cfg && Hs() == ClientStart && inbox == [] && outbox == []
    {
      this.cfg, state, wantCcs, transcript, params := cfg, StartConnect, false, Empty, NoParams;
      certRequest, secret, recorded, inbox, outbox := false, None, None, [], [];
    }

    ghost predicate Made(r: Moved<Client>, received: seq<Msg>, sent: seq<Msg>)
      reads this
    {
      Hs() == r.side && outbox == sent + r.sent && inbox == After(received, r.took)
    }

    /** Step r of hs, with these messages, has been taken. */
    ghost predicate SteppedTo(r: Moved<Client>, hs: Client, received: seq<Msg>, sent: seq<Msg>, retry: bool, wait: Wait)
      reads this
    {
      && Made(r, received, sent)
      && (wait == Error <==> state == CFailed)
      && ((wait == ReadMessage || wait == Callback) <==> Blocked(hs, r))
      && (wait == ReadMessage ==> received == []) && (wait == Callback ==> retry)
    }

    ghost predicate Stepped(hs: Client, received: seq<Msg>, sent: seq<Msg>, retry: bool, wait: Wait)
      reads this
    {
      SteppedTo(ClientStep(cfg, hs, Head(received), retry), hs, received, sent, retry, wait)
    }


    /** ssl_hash_message and next_message */
    method TakeMessage()
      requires inbox != []
      modifies this`transcript, this`inbox
      ensures transcript == old(transcript).Update(old(inbox)[0]) && inbox == old(inbox)[1..]
    {
      transcript, inbox := transcript.Update(inbox[0]), inbox[1..];
    }

    /** ssl_add_message_cbb, which also hashes */
    method AddMessage(m: Msg)
      modifies this`transcript, this`outbox
      ensures transcript == old(transcript).Update(m) && outbox == old(outbox) + [m]
    {
      transcript, outbox := transcript.Update(m), outbox + [m];
    }

    method DoStartConnect(retry: bool) returns (wait: Wait)
      requires state == StartConnect
      modifies this
      ensures SteppedTo(OnStartConnect(cfg, old(Hs()), Head(old(inbox)), retry),
                        old(Hs()), old(inbox), old(outbox), retry, wait)
    {
      hide Transcript.Update, Blocked;
      ClientBlocked(Hs(), OnStartConnect(cfg, Hs(), Head(inbox), retry));
      AddMessage(Msg(ClientHello, Offer(cfg.offersSession)));
      state := EnterEarlyData;
      return Ok;
    }

    method DoEnterEarlyData(retry: bool) returns (wait: Wait)
      requires state == EnterEarlyData
      modifies this
      ensures SteppedTo(OnEnterEarlyData(cfg, old(Hs()), Head(old(inbox)), retry),
                        old(Hs()), old(inbox), old(outbox), retry, wait)
    {
      hide Transcript.Update, Blocked;
      ClientBlocked(Hs(), OnEnterEarlyData(cfg, Hs(), Head(inbox), retry));
      state := ReadServerHello;
      return Ok;
    }

    method DoReadServerHello(retry: bool) returns (wait: Wait)
      requires state == ReadServerHello
      modifies this
      ensures SteppedTo(OnReadServerHello(cfg, old(Hs()), Head(old(inbox)), retry),
                        old(Hs()), old(inbox), old(outbox), retry, wait)
    {
      hide Transcript.Update, Transcript.InitHash, Transcript.FreeBuffer, Blocked;
      ClientBlocked(Hs(), OnReadServerHello(cfg, Hs(), Head(inbox), retry));
      hide ReadsServerHello;
      if inbox == [] {
        return ReadMessage;
      }
      if inbox[0].kind == ChangeCipherSpec {
        state := CFailed;
        return Error;
      }
      wait := TakeServerHello();
    }

    method TakeServerHello() returns (wait: Wait)
      requires state == ReadServerHello && inbox != []
      modifies this
      ensures Made(ReadsServerHello(cfg, old(Hs()), old(inbox)[0]), old(inbox), old(outbox))
      ensures state != old(state) && wait == if state == CFailed then Error else Ok
    {
      hide Transcript.Update, Transcript.InitHash, Transcript.FreeBuffer;
      if inbox[0].kind != ServerHello || !inbox[0].content.Choice? {
        state := CFailed;
        return Error;
      }
      var p := inbox[0].content.params;
      var reused := cfg.offersSession && p.resumed;
      params := p.(resumed := reused);
      secret := if reused then Some(Old) else None;
      transcript := transcript.InitHash();
      TakeMessage();
      if reused || !p.certAuth {
        transcript := transcript.FreeBuffer();
      }
      state := if reused then ReadSessionTicket else ReadServerCertificate;
      return Ok;
    }

    method DoReadServerCertificate(retry: bool) returns (wait: Wait)
      requires state == ReadServerCertificate
      modifies this
      ensures SteppedTo(OnReadServerCertificate(cfg, old(Hs()), Head(old(inbox)), retry),
                        old(Hs()), old(inbox), old(outbox), retry, wait)
    {
      hide Transcript.Update, Blocked;
      ClientBlocked(Hs(), OnReadServerCertificate(cfg, Hs(), Head(inbox), retry));
      if params.certAuth {
        if inbox == [] {
          return ReadMessage;
        }
        if inbox[0].kind != Certificate {
          state := CFailed;
          return Error;
        }
        TakeMessage();
      }
      state := ReadCertificateStatus;
      return Ok;
    }

    method DoReadCertificateStatus(retry: bool) returns (wait: Wait)
      requires state == ReadCertificateStatus
      modifies this
      ensures SteppedTo(OnReadCertificateStatus(cfg, old(Hs()), Head(old(inbox)), retry),
                        old(Hs()), old(inbox), old(outbox), retry, wait)
    {
      hide Transcript.Update, Blocked;
      ClientBlocked(Hs(), OnReadCertificateStatus(cfg, Hs(), Head(inbox), retry));
      if params.status {
        if inbox == [] {
          return ReadMessage;
        }
        if inbox[0].kind == ChangeCipherSpec {
          state := CFailed;
          return Error;
        }
        if inbox[0].kind == CertificateStatus {
          TakeMessage();
        }
      }
      state := VerifyServerCertificate;
      return Ok;
    }

    method DoVerifyServerCertificate(retry: bool) returns (wait: Wait)
      requires state == VerifyServerCertificate
      modifies this
      ensures SteppedTo(OnVerifyServerCertificate(cfg, old(Hs()), Head(old(inbox)), retry),
                        old(Hs()), old(inbox), old(outbox), retry, wait)
    {
      hide Transcript.Update, Blocked;
      ClientBlocked(Hs(), OnVerifyServerCertificate(cfg, Hs(), Head(inbox), retry));
      if params.certAuth && retry {
        return Callback;
      }
      state := ReadServerKeyExchange;
      return Ok;
    }

    method DoReadServerKeyExchange(retry: bool) returns (wait: Wait)
      requires state == ReadServerKeyExchange
      modifies this
      ensures SteppedTo(OnReadServerKeyExchange(cfg, old(Hs()), Head(old(inbox)), retry),
                        old(Hs()), old(inbox), old(outbox), retry, wait)
    {
      hide Transcript.Update, Blocked;
      ClientBlocked(Hs(), OnReadServerKeyExchange(cfg, Hs(), Head(inbox), retry));
      if inbox == [] {
        return ReadMessage;
      }
      if inbox[0].kind == ChangeCipherSpec {
        state := CFailed;
        return Error;
      }
      if inbox[0].kind == ServerKeyExchange {
        if !cfg.ecdhe && params.certAuth {
          state := CFailed;
          return Error;
        }
        TakeMessage();
      } else if params.needsSke {
        state := CFailed;
        return Error;
      }
      state := ReadCertificateRequest;
      return Ok;
    }

    method DoReadCertificateRequest(retry: bool) returns (wait: Wait)
      requires state == ReadCertificateRequest
      modifies this
      ensures SteppedTo(OnReadCertificateRequest(cfg, old(Hs()), Head(old(inbox)), retry),
                        old(Hs()), old(inbox), old(outbox), retry, wait)
    {
      hide Transcript.Update, Transcript.FreeBuffer, Blocked;
      ClientBlocked(Hs(), OnReadCertificateRequest(cfg, Hs(), Head(inbox), retry));
      hide ReadsCertificateRequest;
      if params.certAuth {
        if inbox == [] {
          return ReadMessage;
        }
        if inbox[0].kind == ChangeCipherSpec {
          state := CFailed;
          return Error;
        }
        wait := TakeCertificateRequest();
        return;
      }
      state := ReadServerHelloDone;
      return Ok;
    }

    method TakeCertificateRequest() returns (wait: Wait)
      requires state == ReadCertificateRequest && inbox != []
      modifies this
      ensures Made(ReadsCertificateRequest(old(Hs()), old(inbox)[0]), old(inbox), old(outbox))
      ensures state != old(state) && wait == if state == CFailed then Error else Ok
    {
      hide Transcript.Update, Transcript.FreeBuffer;
      if inbox[0].kind == ServerHelloDone {
        transcript := transcript.FreeBuffer();
      } else {
        if inbox[0].kind != CertificateRequest {
          state := CFailed;
          return Error;
        }
        certRequest := true;
        TakeMessage();
      }
      state := ReadServerHelloDone;
      return Ok;
    }

    method DoReadServerHelloDone(retry: bool) returns (wait: Wait)
      requires state == ReadServerHelloDone
      modifies this
      ensures SteppedTo(OnReadServerHelloDone(cfg, old(Hs()), Head(old(inbox)), retry),
                        old(Hs()), old(inbox), old(outbox), retry, wait)
    {
      hide Transcript.Update, Blocked;
      ClientBlocked(Hs(), OnReadServerHelloDone(cfg, Hs(), Head(inbox), retry));
      if inbox == [] {
        return ReadMessage;
      }
      if inbox[0].kind != ServerHelloDone {
        state := CFailed;
        return Error;
      }
      TakeMessage();
      state := SendClientCertificate;
      return Ok;
    }

    method DoSendClientCertificate(retry: bool) returns (wait: Wait)
      requires state == SendClientCertificate
      modifies this
      ensures SteppedTo(OnSendClientCertificate(cfg, old(Hs()), Head(old(inbox)), retry),
                        old(Hs()), old(inbox), old(outbox), retry, wait)
    {
      hide Transcript.Update, Transcript.FreeBuffer, Blocked;
      ClientBlocked(Hs(), OnSendClientCertificate(cfg, Hs(), Head(inbox), retry));
      if certRequest {
        if retry {
          return Callback;
        }
        if !cfg.clientHasCert {
          transcript := transcript.FreeBuffer();
        }
        AddMessage(Msg(Certificate, Chain(cfg.clientHasCert)));
      }
      state := SendClientKeyExchange;
      return Ok;
    }

    method DoSendClientKeyExchange(retry: bool) returns (wait: Wait)
      requires state == SendClientKeyExchange
      modifies this
      ensures SteppedTo(OnSendClientKeyExchange(cfg, old(Hs()), Head(old(inbox)), retry),
                        old(Hs()), old(inbox), old(outbox), retry, wait)
    {
      hide Transcript.Update, Transcript.Hashed, Blocked;
      ClientBlocked(Hs(), OnSendClientKeyExchange(cfg, Hs(), Head(inbox), retry));
      AddMessage(Msg(ClientKeyExchange, Plain(cfg.key)));
      secret := Some(Derive(params.ems, cfg.key, transcript.Hashed()));
      state := SendClientCertificateVerify;
      return Ok;
    }

    method DoSendClientCertificateVerify(retry: bool) returns (wait: Wait)
      requires state == SendClientCertificateVerify
      modifies this
      ensures SteppedTo(OnSendClientCertificateVerify(cfg, old(Hs()), Head(old(inbox)), retry),
                        old(Hs()), old(inbox), old(outbox), retry, wait)
    {
      hide Transcript.Update, Transcript.FreeBuffer, Blocked;
      ClientBlocked(Hs(), OnSendClientCertificateVerify(cfg, Hs(), Head(inbox), retry));
      if certRequest && cfg.clientHasCert {
        if retry {
          return Callback;
        }
        if transcript.buffer.None? {
          state := CFailed;
          return Error;
        }
        AddMessage(Msg(CertificateVerify, Signed(transcript.buffer.value)));
        transcript := transcript.FreeBuffer();
      }
      state := SendClientFinished;
      return Ok;
    }

    method DoSendClientFinished(retry: bool) returns (wait: Wait)
      requires state == SendClientFinished
      modifies this
      ensures SteppedTo(OnSendClientFinished(cfg, old(Hs()), Head(old(inbox)), retry),
                        old(Hs()), old(inbox), old(outbox), retry, wait)
    {
      hide Transcript.Update, Transcript.Hashed, Blocked;
      ClientBlocked(Hs(), OnSendClientFinished(cfg, Hs(), Head(inbox), retry));
      hide SendsFinished;
      if params.channelId && retry {
        return Callback;
      }
      AddFinishedFlight();
      return Ok;
    }

    method AddFinishedFlight()
      requires state == SendClientFinished
      modifies this
      ensures Made(SendsFinished(old(Hs())), old(inbox), old(outbox))
      ensures state == FinishFlight
    {
      hide Transcript.Update, Transcript.Hashed;
      outbox := outbox + [Ccs()];
      if params.npn {
        AddMessage(Msg(NextProto, Plain(0)));
      }
      if params.channelId {
        AddMessage(Msg(ChannelId, Signed(transcript.Hashed())));
      }
      AddMessage(Msg(Finished, Mac(false, secret, transcript.Hashed())));
      state := FinishFlight;
    }

    method DoFinishFlight(retry: bool) returns (wait: Wait)
      requires state == FinishFlight
      modifies this
      ensures SteppedTo(OnFinishFlight(cfg, old(Hs()), Head(old(inbox)), retry),
                        old(Hs()), old(inbox), old(outbox), retry, wait)
    {
      hide Transcript.Update, Transcript.Hashed, Blocked;
      ClientBlocked(Hs(), OnFinishFlight(cfg, Hs(), Head(inbox), retry));
      if params.resumed {
        state := FinishClientHandshake;
        return Ok;
      }
      recorded := Some(transcript.Hashed());
      state := ReadSessionTicket;
      return Ok;
    }

    method DoReadSessionTicket(retry: bool) returns (wait: Wait)
      requires state == ReadSessionTicket
      modifies this
      ensures SteppedTo(OnReadSessionTicket(cfg, old(Hs()), Head(old(inbox)), retry),
                        old(Hs()), old(inbox), old(outbox), retry, wait)
    {
      hide Transcript.Update, Blocked;
      ClientBlocked(Hs(), OnReadSessionTicket(cfg, Hs(), Head(inbox), retry));
      if params.ticket {
        if inbox == [] {
          return ReadMessage;
        }
        if inbox[0].kind != NewSessionTicket {
          state := CFailed;
          return Error;
        }
        TakeMessage();
      }
      wantCcs := true;
      state := CProcessChangeCipherSpec;
      return Ok;
    }

    method DoProcessChangeCipherSpec(retry: bool) returns (wait: Wait)
      requires state == CProcessChangeCipherSpec
      modifies this
      ensures SteppedTo(OnCProcessChangeCipherSpec(cfg, old(Hs()), Head(old(inbox)), retry),
                        old(Hs()), old(inbox), old(outbox), retry, wait)
    {
      hide Transcript.Update, Blocked;
      ClientBlocked(Hs(), OnCProcessChangeCipherSpec(cfg, Hs(), Head(inbox), retry));
      if wantCcs {
        if inbox == [] {
          return ReadMessage;
        }
        if inbox[0].kind != ChangeCipherSpec {
          state := CFailed;
          return Error;
        }
        wantCcs, inbox := false, inbox[1..];
        return Ok;
      }
      state := ReadServerFinished;
      return Ok;
    }

    method DoReadServerFinished(retry: bool) returns (wait: Wait)
      requires state == ReadServerFinished
      modifies this
      ensures SteppedTo(OnReadServerFinished(cfg, old(Hs()), Head(old(inbox)), retry),
                        old(Hs()), old(inbox), old(outbox), retry, wait)
    {
      hide Transcript.Update, Transcript.Hashed, Blocked;
      ClientBlocked(Hs(), OnReadServerFinished(cfg, Hs(), Head(inbox), retry));
      hide ReadsServerFinished;
      if inbox == [] {
        return ReadMessage;
      }
      if inbox[0].kind == ChangeCipherSpec {
        state := CFailed;
        return Error;
      }
      wait := TakeServerFinished();
    }

    method TakeServerFinished() returns (wait: Wait)
      requires state == ReadServerFinished && inbox != []
      modifies this
      ensures Made(ReadsServerFinished(old(Hs()), old(inbox)[0]), old(inbox), old(outbox))
      ensures state != old(state) && wait == if state == CFailed then Error else Ok
    {
      hide Transcript.Update, Transcript.Hashed;
      if inbox[0].kind != Finished || inbox[0].content != Mac(true, secret, transcript.Hashed()) {
        state := CFailed;
        return Error;
      }
      TakeMessage();
      state := if params.resumed then SendClientFinished else FinishClientHandshake;
      return Ok;
    }

    method DoFinishClientHandshake(retry: bool) returns (wait: Wait)
      requires state == FinishClientHandshake
      modifies this
      ensures SteppedTo(OnFinishClientHandshake(cfg, old(Hs()), Head(old(inbox)), retry),
                        old(Hs()), old(inbox), old(outbox), retry, wait)
    {
      hide Transcript.Update, Blocked;
      ClientBlocked(Hs(), OnFinishClientHandshake(cfg, Hs(), Head(inbox), retry));
      state := CDone;
      return Ok;
    }

    /** One pass of the loop: the method of the current state. */
    method Advance(retry: bool) returns (wait: Wait)
      requires state != CDone && state != CFailed
      modifies this
      ensures Stepped(old(Hs()), old(inbox), old(outbox), retry, wait)
    {
      hide SteppedTo, ClientStep;
      ClientStepIs(cfg, Hs(), Head(inbox), retry);
      match state
      case StartConnect => wait := DoStartConnect(retry);
      case EnterEarlyData => wait := DoEnterEarlyData(retry);
      case ReadServerHello => wait := DoReadServerHello(retry);
      case ReadServerCertificate => wait := DoReadServerCertificate(retry);
      case ReadCertificateStatus => wait := DoReadCertificateStatus(retry);
      case VerifyServerCertificate => wait := DoVerifyServerCertificate(retry);
      case ReadServerKeyExchange => wait := DoReadServerKeyExchange(retry);
      case ReadCertificateRequest => wait := DoReadCertificateRequest(retry);
      case ReadServerHelloDone => wait := DoReadServerHelloDone(retry);
      case SendClientCertificate => wait := DoSendClientCertificate(retry);
      case SendClientKeyExchange => wait := DoSendClientKeyExchange(retry);
      case SendClientCertificateVerify => wait := DoSendClientCertificateVerify(retry);
      case SendClientFinished => wait := DoSendClientFinished(retry);
      case FinishFlight => wait := DoFinishFlight(retry);
      case ReadSessionTicket => wait := DoReadSessionTicket(retry);
      case CProcessChangeCipherSpec => wait := DoProcessChangeCipherSpec(retry);
      case ReadServerFinished => wait := DoReadServerFinished(retry);
      case FinishClientHandshake => wait := DoFinishClientHandshake(retry);
    }

    /** This side and its peer, with this side's buffers as the two channels. */
    ghost function Joint(server: Server): World
      reads this
    {
      World(Hs(), server, outbox, inbox)
    }

    /** One pass of the loop is one move of the two machines together. */
    method Pass(retry: bool, ghost server: Server) returns (wait: Wait)
      requires GoesClient(Joint(server))
      modifies this
      ensures Joint(server) == Step(cfg, old(Joint(server)), ClientMoves(retry))
      ensures wait == Error <==> state == CFailed
      ensures (wait == ReadMessage || wait == Callback) <==> HeldClient(cfg, old(Joint(server)), retry)
      ensures wait == ReadMessage ==> inbox == [] && GoesClient(Joint(server))
      ensures wait == Callback ==> retry && GoesClient(Joint(server))
    {
      hide ClientStep;
      wait := Advance(retry);
    }

    /**
     * The source's loop: passes are made until one waits, or the handshake is done or has failed; callbacks
     * says which passes find a callback not ready, and bounds how many there are.
     */
    method Run(callbacks: seq<bool>, ghost server: Server) returns (wait: Wait, ghost moves: seq<Move>)
      modifies this
      ensures Joint(server) == RunFrom(cfg, old(Joint(server)), moves)
      ensures ClientPath(cfg, old(Joint(server)), callbacks, moves)
      ensures match wait
              case Error => state == CFailed
              case Ok => state == CDone || (|moves| == |callbacks| && state != CFailed)
              case ReadMessage => inbox == [] && GoesClient(Joint(server))
              case Callback => moves != [] && callbacks[|moves| - 1] && GoesClient(Joint(server))
      ensures (wait == ReadMessage || wait == Callback) <==> ClientWaits(cfg, old(Joint(server)), callbacks, moves)
    {
      hide Step, RunFrom, ClientPath, ClientWaits, HeldClient;
      moves, wait := [], if state == CFailed then Error else Ok;
      var i := 0;
      ghost var start := Joint(server);
      ClientPathBegins(cfg, start, callbacks);
      while i < |callbacks| && state != CDone && state != CFailed
        invariant |moves| == i <= |callbacks| && (wait == Error <==> state == CFailed) && (wait == Ok || wait == Error)
        invariant Joint(server) == RunFrom(cfg, start, moves)
        invariant ClientPath(cfg, start, callbacks, moves) && !ClientWaits(cfg, start, callbacks, moves)
      {
        ClientPathGrows(cfg, start, callbacks, moves);
        moves := moves + [ClientMoves(callbacks[i])];
        wait := Pass(callbacks[i], server);
        if wait == ReadMessage || wait == Callback {
          return;
        }
        i := i + 1;
      }
    }
  }

  class ServerHandshake {
    const cfg: Config
    var state: SState
    var wantCcs: bool
    var transcript: Transcript
    var params: Params
    var certRequest: bool
    var sendsSke: bool
    var peerCert: bool
    var secret: Option<Secret>
    var recorded: Option<seq<Msg>>
    var inbox: seq<Msg>
    var outbox: seq<Msg>

    ghost function Hs(): Server
      reads this
    {
      Server(state, wantCcs, transcript, params, certRequest, sendsSke, peerCert, secret, recorded)
    }

    constructor (cfg: Config)
      ensures this.cfg == cfg && Hs() == ServerStart && inbox == [] && outbox == []
    {
      this.cfg, state, wantCcs, transcript, params := cfg, StartAccept, false, Empty, NoParams;
      certRequest, sendsSke, peerCert, secret, recorded, inbox, outbox := false, false, false, None, None, [], [];
    }

    ghost predicate Made(r: Moved<Server>, received: seq<Msg>, sent: seq<Msg>)
      reads this
    {
      Hs() == r.side && outbox == sent + r.sent && inbox == After(received, r.took)
    }

    /** Step r of hs, with these messages, has been taken. */
    ghost predicate SteppedTo(r: Moved<Server>, hs: Server, received: seq<Msg>, sent: seq<Msg>, retry: bool, wait: Wait)
      reads this
    {
      && Made(r, received, sent)
      && (wait == Error <==> state == SFailed)
      && ((wait == ReadMessage || wait == Callback) <==> Blocked(hs, r))
      && (wait == ReadMessage ==> received == []) && (wait == Callback ==> retry)
    }

    ghost predicate Stepped(hs: Server, received: seq<Msg>, sent: seq<Msg>, retry: bool, wait: Wait)
      reads this
    {
      SteppedTo(ServerStep(cfg, hs, Head(received), retry), hs, received, sent, retry, wait)
    }


    method TakeMessage()
      requires inbox != []
      modifies this`transcript, this`inbox
      ensures transcript == old(transcript).Update(old(inbox)[0]) && inbox == old(inbox)[1..]
    {
      transcript, inbox := transcript.Update(inbox[0]), inbox[1..];
    }

    method AddMessage(m: Msg)
      modifies this`transcript, this`outbox
      ensures transcript == old(transcript).Update(m) && outbox == old(outbox) + [m]
    {
      transcript, outbox := transcript.Update(m), outbox + [m];
    }

    method DoStartAccept(retry: bool) returns (wait: Wait)
      requires state == StartAccept
      modifies this
      ensures SteppedTo(OnStartAccept(cfg, old(Hs()), Head(old(inbox)), retry),
                        old(Hs()), old(inbox), old(outbox), retry, wait)
    {
      hide Transcript.Update, Blocked;
      ServerBlocked(Hs(), OnStartAccept(cfg, Hs(), Head(inbox), retry));
      state := ReadClientHello;
      return Ok;
    }

    method DoReadClientHello(retry: bool) returns (wait: Wait)
      requires state == ReadClientHello
      modifies this
      ensures SteppedTo(OnReadClientHello(cfg, old(Hs()), Head(old(inbox)), retry),
                        old(Hs()), old(inbox), old(outbox), retry, wait)
    {
      hide Transcript.Update, Blocked;
      ServerBlocked(Hs(), OnReadClientHello(cfg, Hs(), Head(inbox), retry));
      if inbox == [] {
        return ReadMessage;
      }
      if inbox[0].kind != ClientHello {
        state := SFailed;
        return Error;
      }
      if retry {
        return Callback;
      }
      state := SelectCertificate;
      return Ok;
    }

    method DoSelectCertificate(retry: bool) returns (wait: Wait)
      requires state == SelectCertificate
      modifies this
      ensures SteppedTo(OnSelectCertificate(cfg, old(Hs()), Head(old(inbox)), retry),
                        old(Hs()), old(inbox), old(outbox), retry, wait)
    {
      hide Transcript.Update, Blocked;
      ServerBlocked(Hs(), OnSelectCertificate(cfg, Hs(), Head(inbox), retry));
      if inbox == [] {
        return ReadMessage;
      }
      if retry {
        return Callback;
      }
      state := SelectParameters;
      return Ok;
    }

    /** The hash is started and the first message hashed; the buffer is kept for a CertificateVerify. */
    method HashFirst(keepBuffer: bool)
      requires inbox != []
      modifies this`transcript, this`inbox
      ensures inbox == old(inbox)[1..]
      ensures var t := old(transcript).InitHash().Update(old(inbox)[0]);
              transcript == if keepBuffer then t else t.FreeBuffer()
    {
      transcript := transcript.InitHash();
      TakeMessage();
      if !keepBuffer {
        transcript := transcript.FreeBuffer();
      }
    }

    method DoSelectParameters(retry: bool) returns (wait: Wait)
      requires state == SelectParameters
      modifies this
      ensures SteppedTo(OnSelectParameters(cfg, old(Hs()), Head(old(inbox)), retry),
                        old(Hs()), old(inbox), old(outbox), retry, wait)
    {
      hide Transcript.Update, Transcript.InitHash, Transcript.FreeBuffer, Blocked;
      ServerBlocked(Hs(), OnSelectParameters(cfg, Hs(), Head(inbox), retry));
      hide SelectsParameters;
      if inbox == [] {
        return ReadMessage;
      }
      if retry {
        return Callback;
      }
      wait := TakeClientHello();
    }

    method TakeClientHello() returns (wait: Wait)
      requires state == SelectParameters && inbox != []
      modifies this
      ensures Made(SelectsParameters(cfg, old(Hs()), old(inbox)[0]), old(inbox), old(outbox))
      ensures state != old(state) && wait == if state == SFailed then Error else Ok
    {
      hide FindsSession, AsksForCert, Transcript.Update, Transcript.InitHash, Transcript.FreeBuffer;
      if !inbox[0].content.Offer? {
        state := SFailed;
        return Error;
      }
      var resumed := FindsSession(cfg, inbox[0]);
      Select(resumed);
      HashFirst(certRequest);
      state := SendServerHello;
      return Ok;
    }

    method Select(resumed: bool)
      modifies this`params, this`certRequest, this`secret
      ensures params == old(params).(resumed := resumed, channelId := cfg.channelId)
      ensures certRequest == AsksForCert(cfg, resumed) && secret == if resumed then Some(Old) else None
    {
      params := params.(resumed := resumed, channelId := cfg.channelId);
      certRequest := AsksForCert(cfg, resumed);
      secret := if resumed then Some(Old) else None;
    }

    method DoSendServerHello(retry: bool) returns (wait: Wait)
      requires state == SendServerHello
      modifies this
      ensures SteppedTo(OnSendServerHello(cfg, old(Hs()), Head(old(inbox)), retry),
                        old(Hs()), old(inbox), old(outbox), retry, wait)
    {
      hide SendsServerHello, Blocked;
      ServerBlocked(Hs(), OnSendServerHello(cfg, Hs(), Head(inbox), retry));
      AddServerHello();
      return Ok;
    }

    method AddServerHello()
      requires state == SendServerHello
      modifies this
      ensures Made(SendsServerHello(cfg, old(Hs())), old(inbox), old(outbox))
      ensures state != old(state) && state != SFailed
    {
      hide Negotiated, Transcript.Update;
      params := Negotiated(cfg, params);
      AddMessage(Msg(ServerHello, Choice(params)));
      state := if params.resumed then SendServerFinished else SendServerCertificate;
    }

    method DoSendServerCertificate(retry: bool) returns (wait: Wait)
      requires state == SendServerCertificate
      modifies this
      ensures SteppedTo(OnSendServerCertificate(cfg, old(Hs()), Head(old(inbox)), retry),
                        old(Hs()), old(inbox), old(outbox), retry, wait)
    {
      hide SendsServerCertificate, Blocked;
      ServerBlocked(Hs(), OnSendServerCertificate(cfg, Hs(), Head(inbox), retry));
      AddCertificates();
      return Ok;
    }

    method AddCertificates()
      requires state == SendServerCertificate
      modifies this
      ensures Made(SendsServerCertificate(cfg, old(Hs())), old(inbox), old(outbox))
      ensures state == SendServerKeyExchange
    {
      hide SendsSke, Transcript.Update;
      if params.certAuth {
        AddMessage(Msg(Certificate, Chain(true)));
        if params.status {
          AddMessage(Msg(CertificateStatus, Plain(0)));
        }
      }
      sendsSke := SendsSke(cfg);
      state := SendServerKeyExchange;
    }

    method DoSendServerKeyExchange(retry: bool) returns (wait: Wait)
      requires state == SendServerKeyExchange
      modifies this
      ensures SteppedTo(OnSendServerKeyExchange(cfg, old(Hs()), Head(old(inbox)), retry),
                        old(Hs()), old(inbox), old(outbox), retry, wait)
    {
      hide Transcript.Update, Blocked;
      ServerBlocked(Hs(), OnSendServerKeyExchange(cfg, Hs(), Head(inbox), retry));
      if sendsSke {
        if params.certAuth && retry {
          return Callback;
        }
        AddMessage(Msg(ServerKeyExchange, Plain(0)));
      }
      state := SendServerHelloDone;
      return Ok;
    }

    method DoSendServerHelloDone(retry: bool) returns (wait: Wait)
      requires state == SendServerHelloDone
      modifies this
      ensures SteppedTo(OnSendServerHelloDone(cfg, old(Hs()), Head(old(inbox)), retry),
                        old(Hs()), old(inbox), old(outbox), retry, wait)
    {
      hide Transcript.Update, Blocked;
      ServerBlocked(Hs(), OnSendServerHelloDone(cfg, Hs(), Head(inbox), retry));
      if certRequest {
        AddMessage(Msg(CertificateRequest, Plain(0)));
      }
      AddMessage(Msg(ServerHelloDone, Plain(0)));
      state := ReadClientCertificate;
      return Ok;
    }

    method DoReadClientCertificate(retry: bool) returns (wait: Wait)
      requires state == ReadClientCertificate
      modifies this
      ensures SteppedTo(OnReadClientCertificate(cfg, old(Hs()), Head(old(inbox)), retry),
                        old(Hs()), old(inbox), old(outbox), retry, wait)
    {
      hide Transcript.Update, Transcript.FreeBuffer, Blocked;
      ServerBlocked(Hs(), OnReadClientCertificate(cfg, Hs(), Head(inbox), retry));
      hide ReadsClientCertificate;
      if !certRequest {
        state := VerifyClientCertificate;
        return Ok;
      }
      if inbox == [] {
        return ReadMessage;
      }
      if inbox[0].kind == ChangeCipherSpec {
        state := SFailed;
        return Error;
      }
      wait := TakeClientCertificate();
    }

    method TakeClientCertificate() returns (wait: Wait)
      requires state == ReadClientCertificate && inbox != []
      modifies this
      ensures Made(ReadsClientCertificate(cfg, old(Hs()), old(inbox)[0]), old(inbox), old(outbox))
      ensures state != old(state) && wait == if state == SFailed then Error else Ok
    {
      hide Transcript.Update, Transcript.FreeBuffer;
      if inbox[0].kind != Certificate || !inbox[0].content.Chain? ||
         (!inbox[0].content.present && cfg.failWithoutCert)
      {
        state := SFailed;
        return Error;
      }
      peerCert := inbox[0].content.present;
      TakeMessage();
      if !peerCert {
        transcript := transcript.FreeBuffer();
      }
      state := VerifyClientCertificate;
      return Ok;
    }

    method DoVerifyClientCertificate(retry: bool) returns (wait: Wait)
      requires state == VerifyClientCertificate
      modifies this
      ensures SteppedTo(OnVerifyClientCertificate(cfg, old(Hs()), Head(old(inbox)), retry),
                        old(Hs()), old(inbox), old(outbox), retry, wait)
    {
      hide Transcript.Update, Blocked;
      ServerBlocked(Hs(), OnVerifyClientCertificate(cfg, Hs(), Head(inbox), retry));
      if peerCert && retry {
        return Callback;
      }
      state := ReadClientKeyExchange;
      return Ok;
    }

    method DoReadClientKeyExchange(retry: bool) returns (wait: Wait)
      requires state == ReadClientKeyExchange
      modifies this
      ensures SteppedTo(OnReadClientKeyExchange(cfg, old(Hs()), Head(old(inbox)), retry),
                        old(Hs()), old(inbox), old(outbox), retry, wait)
    {
      hide Transcript.Update, Transcript.Hashed, Blocked;
      ServerBlocked(Hs(), OnReadClientKeyExchange(cfg, Hs(), Head(inbox), retry));
      hide ReadsKeyExchange;
      if inbox == [] {
        return ReadMessage;
      }
      if inbox[0].kind == ChangeCipherSpec {
        state := SFailed;
        return Error;
      }
      if cfg.rsa && retry {
        return Callback;
      }
      wait := TakeClientKeyExchange();
    }

    method TakeClientKeyExchange() returns (wait: Wait)
      requires state == ReadClientKeyExchange && inbox != []
      modifies this
      ensures Made(ReadsKeyExchange(old(Hs()), old(inbox)[0]), old(inbox), old(outbox))
      ensures state != old(state) && wait == if state == SFailed then Error else Ok
    {
      hide Transcript.Update, Transcript.Hashed;
      if inbox[0].kind != ClientKeyExchange || !inbox[0].content.Plain? {
        state := SFailed;
        return Error;
      }
      var key := inbox[0].content.id;
      TakeMessage();
      secret := Some(Derive(params.ems, key, transcript.Hashed()));
      state := ReadClientCertificateVerify;
      return Ok;
    }

    method DoReadClientCertificateVerify(retry: bool) returns (wait: Wait)
      requires state == ReadClientCertificateVerify
      modifies this
      ensures SteppedTo(OnReadClientCertificateVerify(cfg, old(Hs()), Head(old(inbox)), retry),
                        old(Hs()), old(inbox), old(outbox), retry, wait)
    {
      hide Transcript.Update, Transcript.FreeBuffer, Blocked;
      ServerBlocked(Hs(), OnReadClientCertificateVerify(cfg, Hs(), Head(inbox), retry));
      hide ReadsCertificateVerify;
      if !peerCert {
        transcript := transcript.FreeBuffer();
      } else {
        if inbox == [] {
          return ReadMessage;
        }
        wait := TakeCertificateVerify();
        return;
      }
      state := ReadChangeCipherSpec;
      return Ok;
    }

    method TakeCertificateVerify() returns (wait: Wait)
      requires state == ReadClientCertificateVerify && inbox != []
      modifies this
      ensures Made(ReadsCertificateVerify(old(Hs()), old(inbox)[0]), old(inbox), old(outbox))
      ensures state != old(state) && wait == if state == SFailed then Error else Ok
    {
      hide Transcript.Update, Transcript.FreeBuffer;
      if inbox[0].kind != CertificateVerify || transcript.buffer.None? ||
         inbox[0].content != Signed(transcript.buffer.value)
      {
        state := SFailed;
        return Error;
      }
      transcript := transcript.FreeBuffer();
      TakeMessage();
      state := ReadChangeCipherSpec;
      return Ok;
    }

    method DoReadChangeCipherSpec(retry: bool) returns (wait: Wait)
      requires state == ReadChangeCipherSpec
      modifies this
      ensures SteppedTo(OnReadChangeCipherSpec(cfg, old(Hs()), Head(old(inbox)), retry),
                        old(Hs()), old(inbox), old(outbox), retry, wait)
    {
      hide Transcript.Update, Blocked;
      ServerBlocked(Hs(), OnReadChangeCipherSpec(cfg, Hs(), Head(inbox), retry));
      wantCcs := true;
      state := SProcessChangeCipherSpec;
      return Ok;
    }

    method DoProcessChangeCipherSpec(retry: bool) returns (wait: Wait)
      requires state == SProcessChangeCipherSpec
      modifies this
      ensures SteppedTo(OnSProcessChangeCipherSpec(cfg, old(Hs()), Head(old(inbox)), retry),
                        old(Hs()), old(inbox), old(outbox), retry, wait)
    {
      hide Transcript.Update, Blocked;
      ServerBlocked(Hs(), OnSProcessChangeCipherSpec(cfg, Hs(), Head(inbox), retry));
      if wantCcs {
        if inbox == [] {
          return ReadMessage;
        }
        if inbox[0].kind != ChangeCipherSpec {
          state := SFailed;
          return Error;
        }
        wantCcs, inbox := false, inbox[1..];
        return Ok;
      }
      state := ReadNextProto;
      return Ok;
    }

    method DoReadNextProto(retry: bool) returns (wait: Wait)
      requires state == ReadNextProto
      modifies this
      ensures SteppedTo(OnReadNextProto(cfg, old(Hs()), Head(old(inbox)), retry),
                        old(Hs()), old(inbox), old(outbox), retry, wait)
    {
      hide Transcript.Update, Blocked;
      ServerBlocked(Hs(), OnReadNextProto(cfg, Hs(), Head(inbox), retry));
      if params.npn {
        if inbox == [] {
          return ReadMessage;
        }
        wait := TakeNextProto();
        return;
      }
      state := ReadChannelId;
      return Ok;
    }

    method TakeNextProto() returns (wait: Wait)
      requires state == ReadNextProto && inbox != []
      modifies this
      ensures Made(if old(inbox)[0].kind != NextProto then FailS(old(Hs()))
                   else TakeS(old(Hs()), old(inbox)[0], ReadChannelId), old(inbox), old(outbox))
      ensures wait == (if old(inbox)[0].kind != NextProto then Error else Ok) && (wait == Error <==> state == SFailed)
    {
      hide Transcript.Update;
      if inbox[0].kind != NextProto {
        state := SFailed;
        return Error;
      }
      TakeMessage();
      state := ReadChannelId;
      return Ok;
    }

    method DoReadChannelId(retry: bool) returns (wait: Wait)
      requires state == ReadChannelId
      modifies this
      ensures SteppedTo(OnReadChannelId(cfg, old(Hs()), Head(old(inbox)), retry),
                        old(Hs()), old(inbox), old(outbox), retry, wait)
    {
      hide Transcript.Update, Transcript.Hashed, Blocked;
      ServerBlocked(Hs(), OnReadChannelId(cfg, Hs(), Head(inbox), retry));
      hide ReadsChannelId;
      if !params.channelId {
        state := ReadClientFinished;
        return Ok;
      }
      if inbox == [] {
        return ReadMessage;
      }
      if inbox[0].kind == ChangeCipherSpec {
        state := SFailed;
        return Error;
      }
      wait := TakeChannelId();
    }

    method TakeChannelId() returns (wait: Wait)
      requires state == ReadChannelId && inbox != []
      modifies this
      ensures Made(ReadsChannelId(old(Hs()), old(inbox)[0]), old(inbox), old(outbox))
      ensures state != old(state) && wait == if state == SFailed then Error else Ok
    {
      hide Transcript.Update, Transcript.Hashed;
      if inbox[0].kind != ChannelId || inbox[0].content != Signed(transcript.Hashed()) {
        state := SFailed;
        return Error;
      }
      TakeMessage();
      state := ReadClientFinished;
      return Ok;
    }

    method DoReadClientFinished(retry: bool) returns (wait: Wait)
      requires state == ReadClientFinished
      modifies this
      ensures SteppedTo(OnReadClientFinished(cfg, old(Hs()), Head(old(inbox)), retry),
                        old(Hs()), old(inbox), old(outbox), retry, wait)
    {
      hide Transcript.Update, Transcript.Hashed, Blocked;
      ServerBlocked(Hs(), OnReadClientFinished(cfg, Hs(), Head(inbox), retry));
      hide ReadsClientFinished;
      if inbox == [] {
        return ReadMessage;
      }
      if inbox[0].kind == ChangeCipherSpec {
        state := SFailed;
        return Error;
      }
      wait := TakeClientFinished();
    }

    method TakeClientFinished() returns (wait: Wait)
      requires state == ReadClientFinished && inbox != []
      modifies this
      ensures Made(ReadsClientFinished(old(Hs()), old(inbox)[0]), old(inbox), old(outbox))
      ensures state != old(state) && wait == if state == SFailed then Error else Ok
    {
      hide Transcript.Update, Transcript.Hashed;
      if inbox[0].kind != Finished || inbox[0].content != Mac(false, secret, transcript.Hashed()) {
        state := SFailed;
        return Error;
      }
      TakeMessage();
      if !params.resumed && params.channelId {
        recorded := Some(transcript.Hashed());
      }
      state := if params.resumed then FinishServerHandshake else SendServerFinished;
      return Ok;
    }

    method DoSendServerFinished(retry: bool) returns (wait: Wait)
      requires state == SendServerFinished
      modifies this
      ensures SteppedTo(OnSendServerFinished(cfg, old(Hs()), Head(old(inbox)), retry),
                        old(Hs()), old(inbox), old(outbox), retry, wait)
    {
      hide Transcript.Update, Transcript.Hashed, Blocked;
      ServerBlocked(Hs(), OnSendServerFinished(cfg, Hs(), Head(inbox), retry));
      hide SendsServerFinished;
      AddFinishedFlight();
      return Ok;
    }

    method AddFinishedFlight()
      requires state == SendServerFinished
      modifies this
      ensures Made(SendsServerFinished(old(Hs())), old(inbox), old(outbox))
      ensures state != old(state) && state != SFailed
    {
      hide Transcript.Update, Transcript.Hashed;
      if params.ticket {
        AddMessage(Msg(NewSessionTicket, Plain(0)));
      }
      outbox := outbox + [Ccs()];
      AddMessage(Msg(Finished, Mac(true, secret, transcript.Hashed())));
      state := if params.resumed then ReadChangeCipherSpec else FinishServerHandshake;
    }

    method DoFinishServerHandshake(retry: bool) returns (wait: Wait)
      requires state == FinishServerHandshake
      modifies this
      ensures SteppedTo(OnFinishServerHandshake(cfg, old(Hs()), Head(old(inbox)), retry),
                        old(Hs()), old(inbox), old(outbox), retry, wait)
    {
      hide Transcript.Update, Blocked;
      ServerBlocked(Hs(), OnFinishServerHandshake(cfg, Hs(), Head(inbox), retry));
      state := SDone;
      return Ok;
    }

    /** One pass of the loop: the method of the current state. */
    method Advance(retry: bool) returns (wait: Wait)
      requires state != SDone && state != SFailed
      modifies this
      ensures Stepped(old(Hs()), old(inbox), old(outbox), retry, wait)
    {
      hide SteppedTo, ServerStep;
      ServerStepIs(cfg, Hs(), Head(inbox), retry);
      match state
      case StartAccept => wait := DoStartAccept(retry);
      case ReadClientHello => wait := DoReadClientHello(retry);
      case SelectCertificate => wait := DoSelectCertificate(retry);
      case SelectParameters => wait := DoSelectParameters(retry);
      case SendServerHello => wait := DoSendServerHello(retry);
      case SendServerCertificate => wait := DoSendServerCertificate(retry);
      case SendServerKeyExchange => wait := DoSendServerKeyExchange(retry);
      case SendServerHelloDone => wait := DoSendServerHelloDone(retry);
      case ReadClientCertificate => wait := DoReadClientCertificate(retry);
      case VerifyClientCertificate => wait := DoVerifyClientCertificate(retry);
      case ReadClientKeyExchange => wait := DoReadClientKeyExchange(retry);
      case ReadClientCertificateVerify => wait := DoReadClientCertificateVerify(retry);
      case ReadChangeCipherSpec => wait := DoReadChangeCipherSpec(retry);
      case SProcessChangeCipherSpec => wait := DoProcessChangeCipherSpec(retry);
      case ReadNextProto => wait := DoReadNextProto(retry);
      case ReadChannelId => wait := DoReadChannelId(retry);
      case ReadClientFinished => wait := DoReadClientFinished(retry);
      case SendServerFinished => wait := DoSendServerFinished(retry);
      case FinishServerHandshake => wait := DoFinishServerHandshake(retry);
    }

    /** This side and its peer, with this side's buffers as the two channels. */
    ghost function Joint(client: Client): World
      reads this
    {
      World(client, Hs(), inbox, outbox)
    }

    /** One pass of the loop is one move of the two machines together. */
    method Pass(retry: bool, ghost client: Client) returns (wait: Wait)
      requires GoesServer(Joint(client))
      modifies this
      ensures Joint(client) == Step(cfg, old(Joint(client)), ServerMoves(retry))
      ensures wait == Error <==> state == SFailed
      ensures (wait == ReadMessage || wait == Callback) <==> HeldServer(cfg, old(Joint(client)), retry)
      ensures wait == ReadMessage ==> inbox == [] && GoesServer(Joint(client))
      ensures wait == Callback ==> retry && GoesServer(Joint(client))
    {
      hide ServerStep;
      wait := Advance(retry);
    }

    /**
     * The source's loop: passes are made until one waits, or the handshake is done or has failed; callbacks
     * says which passes find a callback not ready, and bounds how many there are.
     */
    method Run(callbacks: seq<bool>, ghost client: Client) returns (wait: Wait, ghost moves: seq<Move>)
      modifies this
      ensures Joint(client) == RunFrom(cfg, old(Joint(client)), moves)
      ensures ServerPath(cfg, old(Joint(client)), callbacks, moves)
      ensures match wait
              case Error => state == SFailed
              case Ok => state == SDone || (|moves| == |callbacks| && state != SFailed)
              case ReadMessage => inbox == [] && GoesServer(Joint(client))
              case Callback => moves != [] && callbacks[|moves| - 1] && GoesServer(Joint(client))
      ensures (wait == ReadMessage || wait == Callback) <==> ServerWaits(cfg, old(Joint(client)), callbacks, moves)
    {
      hide Step, RunFrom, ServerPath, ServerWaits, HeldServer;
      moves, wait := [], if state == SFailed then Error else Ok;
      var i := 0;
      ghost var start := Joint(client);
      ServerPathBegins(cfg, start, callbacks);
      while i < |callbacks| && state != SDone && state != SFailed
        invariant |moves| == i <= |callbacks| && (wait == Error <==> state == SFailed) && (wait == Ok || wait == Error)
        invariant Joint(client) == RunFrom(cfg, start, moves)
        invariant ServerPath(cfg, start, callbacks, moves) && !ServerWaits(cfg, start, callbacks, moves)
      {
        ServerPathGrows(cfg, start, callbacks, moves);
        moves := moves + [ServerMoves(callbacks[i])];
        wait := Pass(callbacks[i], client);
        if wait == ReadMessage || wait == Callback {
          return;
        }
        i := i + 1;
      }
    }
  }
}
