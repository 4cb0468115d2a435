/** A server that insists on a client certificate against a client that has none: the one handshake that fails. */
module HandshakeRefusal {
  import opened Wire
  import opened HandshakeMachines
  import opened HandshakeAgreement
  import opened HandshakeProgress

  /** The same two sides, with a server that only asks. */
  function Lenient(cfg: Config): Config {
    cfg.(failWithoutCert := false)
  }

  /** The server has not yet seen the client's certificate. */
  predicate BeforeVerdict(st: SState) {
    || st.StartAccept? || st.ReadClientHello? || st.SelectCertificate? || st.SelectParameters? || st.SendServerHello?
    || st.SendServerCertificate? || st.SendServerKeyExchange? || st.SendServerHelloDone? || st.ReadClientCertificate?
  }

  // Nothing else depends on it.

  lemma ReadsLenient(cfg: Config, c: Client, head: Option<Msg>, retry: bool)
    ensures c.state.StartConnect? ==>
              OnStartConnect(cfg, c, head, retry) == OnStartConnect(Lenient(cfg), c, head, retry)
    ensures c.state.EnterEarlyData? ==>
              OnEnterEarlyData(cfg, c, head, retry) == OnEnterEarlyData(Lenient(cfg), c, head, retry)
    ensures c.state.ReadServerHello? ==>
              OnReadServerHello(cfg, c, head, retry) == OnReadServerHello(Lenient(cfg), c, head, retry)
    ensures c.state.ReadServerCertificate? ==>
              OnReadServerCertificate(cfg, c, head, retry) == OnReadServerCertificate(Lenient(cfg), c, head, retry)
    ensures c.state.ReadCertificateStatus? ==>
              OnReadCertificateStatus(cfg, c, head, retry) == OnReadCertificateStatus(Lenient(cfg), c, head, retry)
    ensures c.state.VerifyServerCertificate? ==>
              OnVerifyServerCertificate(cfg, c, head, retry) == OnVerifyServerCertificate(Lenient(cfg), c, head, retry)
    ensures c.state.ReadServerKeyExchange? ==>
              OnReadServerKeyExchange(cfg, c, head, retry) == OnReadServerKeyExchange(Lenient(cfg), c, head, retry)
    ensures c.state.ReadCertificateRequest? ==>
              OnReadCertificateRequest(cfg, c, head, retry) == OnReadCertificateRequest(Lenient(cfg), c, head, retry)
    ensures c.state.ReadServerHelloDone? ==>
              OnReadServerHelloDone(cfg, c, head, retry) == OnReadServerHelloDone(Lenient(cfg), c, head, retry)
  {
    hide Transcript.Update, Transcript.InitHash, Transcript.FreeBuffer;
  }

  lemma SendsLenient(cfg: Config, c: Client, head: Option<Msg>, retry: bool)
    ensures c.state.SendClientCertificate? ==>
              OnSendClientCertificate(cfg, c, head, retry) == OnSendClientCertificate(Lenient(cfg), c, head, retry)
    ensures c.state.SendClientKeyExchange? ==>
              OnSendClientKeyExchange(cfg, c, head, retry) == OnSendClientKeyExchange(Lenient(cfg), c, head, retry)
    ensures c.state.SendClientCertificateVerify? ==>
              OnSendClientCertificateVerify(cfg, c, head, retry)
              == OnSendClientCertificateVerify(Lenient(cfg), c, head, retry)
    ensures c.state.SendClientFinished? ==>
              OnSendClientFinished(cfg, c, head, retry) == OnSendClientFinished(Lenient(cfg), c, head, retry)
    ensures c.state.FinishFlight? ==>
              OnFinishFlight(cfg, c, head, retry) == OnFinishFlight(Lenient(cfg), c, head, retry)
    ensures c.state.ReadSessionTicket? ==>
              OnReadSessionTicket(cfg, c, head, retry) == OnReadSessionTicket(Lenient(cfg), c, head, retry)
    ensures c.state.CProcessChangeCipherSpec? ==>
              OnCProcessChangeCipherSpec(cfg, c, head, retry)
              == OnCProcessChangeCipherSpec(Lenient(cfg), c, head, retry)
    ensures c.state.ReadServerFinished? ==>
              OnReadServerFinished(cfg, c, head, retry) == OnReadServerFinished(Lenient(cfg), c, head, retry)
    ensures c.state.FinishClientHandshake? ==>
              OnFinishClientHandshake(cfg, c, head, retry) == OnFinishClientHandshake(Lenient(cfg), c, head, retry)
  {
    hide Transcript.Update, Transcript.FreeBuffer, Transcript.Hashed, Derive;
  }

  lemma ClientLenient(cfg: Config, c: Client, head: Option<Msg>, retry: bool)
    ensures ClientStep(cfg, c, head, retry) == ClientStep(Lenient(cfg), c, head, retry)
  {
    hide *;
    ClientStepIs(cfg, c, head, retry);
    ClientStepIs(Lenient(cfg), c, head, retry);
    ReadsLenient(cfg, c, head, retry);
    SendsLenient(cfg, c, head, retry);
  }

  lemma SelectsLenient(cfg: Config, s: Server, head: Option<Msg>, retry: bool)
    ensures s.state.StartAccept? ==>
              OnStartAccept(cfg, s, head, retry) == OnStartAccept(Lenient(cfg), s, head, retry)
    ensures s.state.ReadClientHello? ==>
              OnReadClientHello(cfg, s, head, retry) == OnReadClientHello(Lenient(cfg), s, head, retry)
    ensures s.state.SelectCertificate? ==>
              OnSelectCertificate(cfg, s, head, retry) == OnSelectCertificate(Lenient(cfg), s, head, retry)
    ensures s.state.SelectParameters? ==>
              OnSelectParameters(cfg, s, head, retry) == OnSelectParameters(Lenient(cfg), s, head, retry)
  {
    hide Transcript.Update, Transcript.InitHash, Transcript.FreeBuffer;
  }

  lemma FlightLenient(cfg: Config, s: Server, head: Option<Msg>, retry: bool)
    ensures s.state.SendServerHello? ==>
              OnSendServerHello(cfg, s, head, retry) == OnSendServerHello(Lenient(cfg), s, head, retry)
    ensures s.state.SendServerCertificate? ==>
              OnSendServerCertificate(cfg, s, head, retry) == OnSendServerCertificate(Lenient(cfg), s, head, retry)
    ensures s.state.SendServerKeyExchange? ==>
              OnSendServerKeyExchange(cfg, s, head, retry) == OnSendServerKeyExchange(Lenient(cfg), s, head, retry)
    ensures s.state.SendServerHelloDone? ==>
              OnSendServerHelloDone(cfg, s, head, retry) == OnSendServerHelloDone(Lenient(cfg), s, head, retry)
  {
    hide Transcript.Update;
  }

  lemma ServerLenient(cfg: Config, s: Server, head: Option<Msg>, retry: bool)
    requires BeforeVerdict(s.state) && !s.state.ReadClientCertificate?
    ensures ServerStep(cfg, s, head, retry) == ServerStep(Lenient(cfg), s, head, retry)
  {
    hide ServerStep, Lenient;
    ServerStepIs(cfg, s, head, retry);
    ServerStepIs(Lenient(cfg), s, head, retry);
    SelectsLenient(cfg, s, head, retry);
    FlightLenient(cfg, s, head, retry);
  }

  lemma NotResumed(cfg: Config, s: Server)
    requires ServerOk(cfg, s) && !Resumed(cfg)
    ensures s.state.SendServerHello? ==> !s.params.resumed
  {
    hide Resumed, WantsCert, ParamsOf, SendsSke, Transcript.Valid;
  }

  /** Until the verdict a server that does not resume comes no further than to it. */
  lemma ServerStaysBefore(cfg: Config, s: Server, head: Option<Msg>, retry: bool)
    requires ServerOk(cfg, s) && !Resumed(cfg) && BeforeVerdict(s.state) && !s.state.ReadClientCertificate?
    ensures var st := ServerStep(cfg, s, head, retry).side.state; st.SFailed? || BeforeVerdict(st)
  {
    hide ServerStep, ServerOk, Resumed;
    NotResumed(cfg, s);
    ServerStepIs(cfg, s, head, retry);
  }

  /** Then it gets the empty Certificate, and fails. */
  lemma Verdict(cfg: Config, s: Server, head: Option<Msg>, retry: bool)
    requires !ConfigOk(cfg) && ServerOk(Lenient(cfg), s) && s.state.ReadClientCertificate?
    requires head.Some? ==> head.value.kind == Certificate && head.value.content == Chain(false)
    ensures ServerStep(cfg, s, head, retry) == if head.None? then Stay(s) else FailS(s)
    ensures head.None? ==> ServerStep(Lenient(cfg), s, head, retry) == Stay(s)
  {
    assert WantsCert(Lenient(cfg)) == WantsCert(cfg);
    assert s.certRequest;
    hide ServerOk, WantsCert;
  }

  // ----- the two together

  lemma SameResumed(cfg: Config)
    requires !ConfigOk(cfg)
    ensures ConfigOk(Lenient(cfg)) && !Resumed(Lenient(cfg)) && WantsCert(Lenient(cfg)) && !cfg.clientHasCert
  {
  }

  /** What the server reads before the verdict. */
  lemma HeadBeforeVerdict(cfg: Config, w: World)
    requires !ConfigOk(cfg) && Inv(Lenient(cfg), w) && BeforeVerdict(w.server.state) && w.toServer != []
    ensures w.server.state.ReadClientCertificate? ==>
              w.toServer[0].kind == Certificate && w.toServer[0].content == Chain(false)
  {
    var c := Lenient(cfg);
    SameResumed(cfg);
    var a, b := ClientEnd(c, w.client, w.toServer), ServerEnd(c, w.server, w.toClient);
    LinkSymmetric(c, a, b);
    HeadExpected(c, b, a);
    hide ContentsOk, Kinds, Hs, ClientOk, ServerOk, ClientRest, Ahead, Transcript.Hashed, Link;
  }

  lemma NeverFails(cfg: Config, w: World, retry: bool)
    requires ConfigOk(cfg) && Inv(cfg, w)
    ensures !ServerStep(cfg, w.server, Head(w.toServer), retry).side.state.SFailed?
  {
    ServerKeepsInv(cfg, w, retry);
    hide ClientOk, Link, ServerStep;
  }

  /** The server's next step is the lenient one, or is the verdict. */
  lemma StepBeforeVerdict(cfg: Config, w: World, retry: bool)
    requires !ConfigOk(cfg) && Inv(Lenient(cfg), w) && BeforeVerdict(w.server.state)
    ensures var r := ServerStep(cfg, w.server, Head(w.toServer), retry);
            if r.side.state.SFailed? then r == Stay(r.side)
            else r == ServerStep(Lenient(cfg), w.server, Head(w.toServer), retry) && BeforeVerdict(r.side.state)
  {
    SameResumed(cfg);
    var s, head := w.server, Head(w.toServer);
    assert ServerOk(Lenient(cfg), s);
    if s.state.ReadClientCertificate? {
      if w.toServer != [] {
        HeadBeforeVerdict(cfg, w);
      }
      hide Inv, ServerOk, ServerStep;
      Verdict(cfg, s, head, retry);
    } else {
      ServerLenient(cfg, s, head, retry);
      NeverFails(Lenient(cfg), w, retry);
      hide ConfigOk, Resumed;
      ServerStaysBefore(Lenient(cfg), s, head, retry);
    }
  }

  /** A step of the server that differs in nothing makes the same move. */
  lemma ServerMoveSame(cfg: Config, w: World, retry: bool)
    requires ServerStep(cfg, w.server, Head(w.toServer), retry)
             == ServerStep(Lenient(cfg), w.server, Head(w.toServer), retry)
    ensures Step(cfg, w, ServerMoves(retry)) == Step(Lenient(cfg), w, ServerMoves(retry))
  {
    hide ServerStep, Lenient;
  }

  lemma ServerMoveMakes(cfg: Config, w: World, retry: bool)
    ensures var r, w' := ServerStep(cfg, w.server, Head(w.toServer), retry), Step(cfg, w, ServerMoves(retry));
            w'.server == r.side && w'.client == w.client && w'.toClient == w.toClient + r.sent
  {
    hide ServerStep;
  }

  lemma ClientMoveSame(cfg: Config, w: World, retry: bool)
    ensures Step(cfg, w, ClientMoves(retry)) == Step(Lenient(cfg), w, ClientMoves(retry))
    ensures Step(cfg, w, ClientMoves(retry)).server == w.server
  {
    hide ClientStep, Lenient;
    ClientLenient(cfg, w.client, Head(w.toClient), retry);
  }

  /** One move keeps the two handshakes together, or is the verdict. */
  lemma MoveBeforeVerdict(cfg: Config, w: World, move: Move)
    requires !ConfigOk(cfg) && Inv(Lenient(cfg), w) && BeforeVerdict(w.server.state)
    ensures var w' := Step(cfg, w, move);
            w'.server.state.SFailed? ==> move.ServerMoves? && w'.client == w.client && w'.toClient == w.toClient
    ensures var w' := Step(cfg, w, move);
            !w'.server.state.SFailed? ==> w' == Step(Lenient(cfg), w, move) && BeforeVerdict(w'.server.state)
  {
    hide Step, ServerStep, Inv, ConfigOk, Lenient;
    match move
    case ClientMoves(retry) =>
      ClientMoveSame(cfg, w, retry);
    case ServerMoves(retry) =>
      StepBeforeVerdict(cfg, w, retry);
      ServerMoveMakes(cfg, w, retry);
      if ServerStep(cfg, w.server, Head(w.toServer), retry).side.state.SFailed? {
        assert w.toClient + [] == w.toClient;
      } else {
        ServerMoveSame(cfg, w, retry);
      }
  }

  // ----- whole runs

  /** The client of w is where that of l is, and the server of l has not come to the verdict. */
  ghost predicate Shadows(w: World, l: World) {
    w.client == l.client && w.toClient == l.toClient && BeforeVerdict(l.server.state)
  }

  /** A server that has failed does nothing more. */
  lemma FailedServer(cfg: Config, w: World, retry: bool)
    requires w.server.state.SFailed?
    ensures Step(cfg, w, ServerMoves(retry)) == w
  {
    assert ServerStep(cfg, w.server, Head(w.toServer), retry) == Stay(w.server);
    hide ServerStep;
    assert w.toClient + [] == w.toClient;
  }

  /** The client's moves are those of the lenient handshake. */
  lemma ClientAlone(cfg: Config, w: World, l: World, retry: bool)
    requires Shadows(w, l)
    ensures var w', l' := Step(cfg, w, ClientMoves(retry)), Step(Lenient(cfg), l, ClientMoves(retry));
            Shadows(w', l') && w'.server == w.server
  {
    ClientLenient(cfg, w.client, Head(w.toClient), retry);
    hide ClientStep, BeforeVerdict;
  }

  lemma ShadowsAtStart(cfg: Config)
    ensures Run(cfg, []) == Run(Lenient(cfg), []) && Shadows(Run(cfg, []), Run(Lenient(cfg), []))
  {
  }

  /**
   * Until the verdict a run is one of the lenient handshake, and after it the client goes on as in one in
   * which the server has not come so far.
   */
  lemma {:induction false} RunShadows(cfg: Config, moves: seq<Move>) returns (others: seq<Move>)
    requires !ConfigOk(cfg)
    ensures Shadows(Run(cfg, moves), Run(Lenient(cfg), others))
    ensures !Run(cfg, moves).server.state.SFailed? ==> others == moves && Run(cfg, moves) == Run(Lenient(cfg), moves)
  {
    hide Run, RunFrom, Step, BeforeVerdict;
    if moves == [] {
      others := [];
      ShadowsAtStart(cfg);
    } else {
      var before, move := moves[..|moves| - 1], moves[|moves| - 1];
      others := RunShadows(cfg, before);
      var w := Run(cfg, before);
      assert moves == before + [move];
      RunExtends(cfg, before, move);
      RunExtends(Lenient(cfg), others, move);
      if !w.server.state.SFailed? {
        SameResumed(cfg);
        RunsAgree(Lenient(cfg), others);
        hide Inv, ConfigOk;
        MoveBeforeVerdict(cfg, w, move);
        others := if Step(cfg, w, move).server.state.SFailed? then others else moves;
      } else if move.ClientMoves? {
        ClientAlone(cfg, w, Run(Lenient(cfg), others), move.retry);
        others := others + [move];
      } else {
        FailedServer(cfg, w, move.retry);
      }
    }
  }

  ghost predicate EndsWithServer(es: seq<Expect>) {
    es != [] && es[|es| - 1].fromServer
  }

  lemma EndsAfter(es: seq<Expect>, rest: seq<Expect>)
    requires EndsWithServer(rest)
    ensures EndsWithServer(es + rest)
  {
  }

  /** The last thing a handshake that does not resume owes is the server's Finished. */
  lemma FinalFlightsEnd(cfg: Config)
    requires !Resumed(cfg)
    ensures EndsWithServer(FromClientFinished(cfg))
  {
    var e := EndOfServer(cfg);
    assert e == [S(Finished)] + [] && e[0].fromServer && EndsWithServer(e);
    hide EndsWithServer, If, EndOfServer, Resumed, ParamsOf;
    EndsAfter([S(ChangeCipherSpec)], e);
    EndsAfter(If(cfg.tickets, S(NewSessionTicket)), FromServerCcs(cfg));
    EndsAfter([C(Finished)], FromServerFinished(cfg));
    EndsAfter(If(ParamsOf(cfg).channelId, C(ChannelId)), EndOfClient(cfg));
    EndsAfter(If(cfg.npn, C(NextProto)), FromChannelId(cfg));
    EndsAfter([C(ChangeCipherSpec)], FromNextProto(cfg));
  }

  lemma CertificatesEnd(cfg: Config)
    requires !Resumed(cfg)
    ensures EndsWithServer(FromClientCertificate(cfg)) && EndsWithServer(FromCertificateRequest(cfg))
  {
    hide EndsWithServer, If, Resumed, ParamsOf, WantsCert, FromClientFinished;
    FinalFlightsEnd(cfg);
    EndsAfter(If(WantsCert(cfg) && cfg.clientHasCert, C(CertificateVerify)), FromClientFinished(cfg));
    EndsAfter([C(ClientKeyExchange)], FromCertificateVerify(cfg));
    EndsAfter(If(WantsCert(cfg), C(Certificate)), FromKeyExchange(cfg));
    EndsAfter([S(ServerHelloDone)], FromClientCertificate(cfg));
    EndsAfter(If(WantsCert(cfg), S(CertificateRequest)), FromServerHelloDone(cfg));
  }

  lemma ServerFlightEnds(cfg: Config)
    requires !Resumed(cfg)
    ensures EndsWithServer(FromServerKeyExchange(cfg)) && EndsWithServer(FromServerCertificate(cfg))
    ensures EndsWithServer(FromServerHello(cfg)) && EndsWithServer(Script(cfg))
  {
    hide EndsWithServer, If, ParamsOf, WantsCert, FromCertificateRequest;
    CertificatesEnd(cfg);
    EndsAfter(If(SendsSke(cfg), S(ServerKeyExchange)), FromCertificateRequest(cfg));
    EndsAfter(If(ParamsOf(cfg).status, S(CertificateStatus)), FromServerKeyExchange(cfg));
    EndsAfter(If(cfg.certAuth, S(Certificate)), FromStatus(cfg));
    EndsAfter([S(ServerHello)], FromServerCertificate(cfg));
    EndsAfter([C(ClientHello)], FromServerHello(cfg));
  }

  lemma RestEndsWithServer(cfg: Config, st: SState, wantCcs: bool)
    requires !Resumed(cfg) && BeforeVerdict(st)
    ensures EndsWithServer(ServerRest(cfg, st, wantCcs))
  {
    hide EndsWithServer, Resumed, Script, FromServerHello, FromServerCertificate, FromServerKeyExchange;
    hide FromCertificateRequest, FromClientCertificate, FromKeyExchange, FromCertificateVerify, FromClientFinished;
    hide FromNextProto, FromChannelId, EndOfClient, FromServerFinished;
    CertificatesEnd(cfg);
    ServerFlightEnds(cfg);
  }

  lemma NotAllFromClient(wire: seq<Msg>)
    ensures !EndsWithServer(Kinds(false, wire))
  {
  }

  /** A client that has nothing more to do has a server that is past the verdict. */
  lemma NothingOwed(cfg: Config, a: End, b: End)
    requires Link(cfg, a, b) && !a.isServer && a.rest == []
    ensures !EndsWithServer(b.rest)
  {
    hide ContentsOk, EndsWithServer, Hs;
    if Ahead(a, b) {
      assert |a.rest| == |b.sent| + |b.rest|;
      assert b.rest == [] == Kinds(false, []);
      NotAllFromClient([]);
    } else {
      assert Kinds(false, a.sent) + [] == Kinds(false, a.sent);
      NotAllFromClient(a.sent);
    }
  }

  lemma DoneOwesNothing(cfg: Config, w: World)
    requires w.client.state.CDone?
    ensures ClientEnd(cfg, w.client, w.toServer).rest == []
  {
  }

  /** So no client has come to its end before the verdict. */
  lemma ClientNotDone(cfg: Config, w: World)
    requires !Resumed(cfg) && Inv(cfg, w) && BeforeVerdict(w.server.state)
    ensures !w.client.state.CDone?
  {
    hide ClientOk, ServerOk, ServerRest, ClientRest, Transcript.Hashed, Resumed, Link, EndsWithServer, BeforeVerdict;
    if w.client.state.CDone? {
      RestEndsWithServer(cfg, w.server.state, w.server.wantCcs);
      DoneOwesNothing(cfg, w);
      NothingOwed(cfg, ClientEnd(cfg, w.client, w.toServer), ServerEnd(cfg, w.server, w.toClient));
    }
  }

  /** No run against such a server is ever done on either side, and the client never fails. */
  lemma RefusedNeverDone(cfg: Config, moves: seq<Move>)
    requires !ConfigOk(cfg)
    ensures var w := Run(cfg, moves);
            && w.server.state != SDone && w.client.state != CDone && w.client.state != CFailed
            && (!w.server.state.SFailed? ==> BeforeVerdict(w.server.state))
  {
    var others := RunShadows(cfg, moves);
    SameResumed(cfg);
    RunsAgree(Lenient(cfg), others);
    hide Run;
    ClientNotDone(Lenient(cfg), Run(Lenient(cfg), others));
  }

  /** And from every point of every run, with callbacks ready, the server comes to its verdict. */
  lemma RefusalReached(cfg: Config, moves: seq<Move>) returns (more: seq<Move>)
    requires !ConfigOk(cfg)
    ensures forall i :: 0 <= i < |more| ==> !more[i].retry
    ensures Run(cfg, moves + more).server.state.SFailed?
  {
    SameResumed(cfg);
    more := AlwaysFinishes(Lenient(cfg), moves);
    var others := RunShadows(cfg, moves + more);
    hide Run;
  }

  /** A handshake of honest sides can fail if and only if the server insists on what the client does not have. */
  lemma FailsIffRefused(cfg: Config)
    ensures (exists moves :: Run(cfg, moves).server.state.SFailed? || Run(cfg, moves).client.state.CFailed?)
            <==> (WantsCert(cfg) && cfg.failWithoutCert && !cfg.clientHasCert)
  {
    if ConfigOk(cfg) {
      forall moves
        ensures !Run(cfg, moves).server.state.SFailed? && !Run(cfg, moves).client.state.CFailed?
      {
        RunsAgree(cfg, moves);
      }
    } else {
      var moves := RefusalReached(cfg, []);
      assert [] + moves == moves;
    }
  }
}
