/** Every honest handshake ends, and both sides derive the master secret over the same messages. */
module HandshakeProgress {
  import opened Wire
  import opened HandshakeMachines
  import opened HandshakeAgreement

  // ----- how far a side has to go

  function ClientRank(cfg: Config, c: Client): nat {
    match c.state
    case StartConnect => 40
    case EnterEarlyData => 39
    case ReadServerHello => 38
    case ReadServerCertificate => 37
    case ReadCertificateStatus => 36
    case VerifyServerCertificate => 35
    case ReadServerKeyExchange => 34
    case ReadCertificateRequest => 33
    case ReadServerHelloDone => 32
    case SendClientCertificate => 31
    case SendClientKeyExchange => 30
    case SendClientCertificateVerify => 29
    case SendClientFinished => if Resumed(cfg) then 3 else 28
    case FinishFlight => if Resumed(cfg) then 2 else 27
    case ReadSessionTicket => 20
    case CProcessChangeCipherSpec => if c.wantCcs then 19 else 18
    case ReadServerFinished => 10
    case FinishClientHandshake => 1
    case CDone => 0
    case CFailed => 0
  }

  function ServerRank(cfg: Config, s: Server): nat {
    match s.state
    case StartAccept => 40
    case ReadClientHello => 39
    case SelectCertificate => 38
    case SelectParameters => 37
    case SendServerHello => 36
    case SendServerCertificate => 35
    case SendServerKeyExchange => 34
    case SendServerHelloDone => 33
    case ReadClientCertificate => 32
    case VerifyClientCertificate => 31
    case ReadClientKeyExchange => 30
    case ReadClientCertificateVerify => 29
    case ReadChangeCipherSpec => 28
    case SProcessChangeCipherSpec => if s.wantCcs then 27 else 26
    case ReadNextProto => 25
    case ReadChannelId => 24
    case ReadClientFinished => 23
    case SendServerFinished => if Resumed(cfg) then 29 else 10
    case FinishServerHandshake => 1
    case SDone => 0
    case SFailed => 0
  }

  lemma ClientRankAt(cfg: Config, c: Client)
    ensures c.state.StartConnect? ==> ClientRank(cfg, c) == 40
    ensures c.state.EnterEarlyData? ==> ClientRank(cfg, c) == 39
    ensures c.state.ReadServerHello? ==> ClientRank(cfg, c) == 38
    ensures c.state.ReadServerCertificate? ==> ClientRank(cfg, c) == 37
    ensures c.state.ReadCertificateStatus? ==> ClientRank(cfg, c) == 36
    ensures c.state.VerifyServerCertificate? ==> ClientRank(cfg, c) == 35
    ensures c.state.ReadServerKeyExchange? ==> ClientRank(cfg, c) == 34
    ensures c.state.ReadCertificateRequest? ==> ClientRank(cfg, c) == 33
    ensures c.state.ReadServerHelloDone? ==> ClientRank(cfg, c) == 32
    ensures c.state.SendClientCertificate? ==> ClientRank(cfg, c) == 31
    ensures c.state.SendClientKeyExchange? ==> ClientRank(cfg, c) == 30
    ensures c.state.SendClientCertificateVerify? ==> ClientRank(cfg, c) == 29
    ensures c.state.SendClientFinished? ==> ClientRank(cfg, c) == if Resumed(cfg) then 3 else 28
    ensures c.state.FinishFlight? ==> ClientRank(cfg, c) == if Resumed(cfg) then 2 else 27
    ensures c.state.ReadSessionTicket? ==> ClientRank(cfg, c) == 20
    ensures c.state.CProcessChangeCipherSpec? ==> ClientRank(cfg, c) == if c.wantCcs then 19 else 18
    ensures c.state.ReadServerFinished? ==> ClientRank(cfg, c) == 10
    ensures c.state.FinishClientHandshake? ==> ClientRank(cfg, c) == 1
    ensures c.state.CDone? ==> ClientRank(cfg, c) == 0
    ensures c.state.CFailed? ==> ClientRank(cfg, c) == 0
  {
    hide Resumed;
  }

  lemma ServerRankAt(cfg: Config, s: Server)
    ensures s.state.StartAccept? ==> ServerRank(cfg, s) == 40
    ensures s.state.ReadClientHello? ==> ServerRank(cfg, s) == 39
    ensures s.state.SelectCertificate? ==> ServerRank(cfg, s) == 38
    ensures s.state.SelectParameters? ==> ServerRank(cfg, s) == 37
    ensures s.state.SendServerHello? ==> ServerRank(cfg, s) == 36
    ensures s.state.SendServerCertificate? ==> ServerRank(cfg, s) == 35
    ensures s.state.SendServerKeyExchange? ==> ServerRank(cfg, s) == 34
    ensures s.state.SendServerHelloDone? ==> ServerRank(cfg, s) == 33
    ensures s.state.ReadClientCertificate? ==> ServerRank(cfg, s) == 32
    ensures s.state.VerifyClientCertificate? ==> ServerRank(cfg, s) == 31
    ensures s.state.ReadClientKeyExchange? ==> ServerRank(cfg, s) == 30
    ensures s.state.ReadClientCertificateVerify? ==> ServerRank(cfg, s) == 29
    ensures s.state.ReadChangeCipherSpec? ==> ServerRank(cfg, s) == 28
    ensures s.state.SProcessChangeCipherSpec? ==> ServerRank(cfg, s) == if s.wantCcs then 27 else 26
    ensures s.state.ReadNextProto? ==> ServerRank(cfg, s) == 25
    ensures s.state.ReadChannelId? ==> ServerRank(cfg, s) == 24
    ensures s.state.ReadClientFinished? ==> ServerRank(cfg, s) == 23
    ensures s.state.SendServerFinished? ==> ServerRank(cfg, s) == if Resumed(cfg) then 29 else 10
    ensures s.state.FinishServerHandshake? ==> ServerRank(cfg, s) == 1
    ensures s.state.SDone? ==> ServerRank(cfg, s) == 0
    ensures s.state.SFailed? ==> ServerRank(cfg, s) == 0
  {
    hide Resumed;
  }

  lemma ClientParams(cfg: Config, c: Client)
    requires ClientOk(cfg, c)
    ensures c.state.FinishFlight? || c.state.ReadServerFinished? ==> c.params.resumed == Resumed(cfg)
    ensures c.state.SendClientCertificateVerify? ==> !Resumed(cfg)
  {
    hide WantsCert, Resumed, Transcript.Valid;
  }

  lemma ServerParams(cfg: Config, s: Server)
    requires ServerOk(cfg, s)
    ensures s.state.ReadClientFinished? || s.state.SendServerFinished? ==> s.params.resumed == Resumed(cfg)
  {
    hide WantsCert, Resumed, Transcript.Valid, SendsSke;
  }

  /** A step does nothing at all, or brings the client nearer to its end. */
  lemma ClientRankFalls(cfg: Config, c: Client, head: Option<Msg>, retry: bool)
    requires ClientOk(cfg, c)
    ensures var r := ClientStep(cfg, c, head, retry); r == Stay(c) || ClientRank(cfg, r.side) < ClientRank(cfg, c)
  {
    hide *;
    ClientStepIs(cfg, c, head, retry);
    ClientParams(cfg, c);
    ClientRankAt(cfg, c);
    ClientRankAt(cfg, ClientStep(cfg, c, head, retry).side);
  }

  /** And the server. */
  lemma ServerRankFalls(cfg: Config, s: Server, head: Option<Msg>, retry: bool)
    requires ServerOk(cfg, s)
    ensures var r := ServerStep(cfg, s, head, retry); r == Stay(s) || ServerRank(cfg, r.side) < ServerRank(cfg, s)
  {
    hide *;
    ServerStepIs(cfg, s, head, retry);
    ServerParams(cfg, s);
    ServerRankAt(cfg, s);
    ServerRankAt(cfg, ServerStep(cfg, s, head, retry).side);
  }

  // ----- the two together

  function Rank(cfg: Config, w: World): nat {
    ClientRank(cfg, w.client) + ServerRank(cfg, w.server)
  }

  /** A move changes nothing, or brings the two nearer to their end. */
  lemma MoveFalls(cfg: Config, w: World, move: Move)
    requires Inv(cfg, w)
    ensures Step(cfg, w, move) == w || Rank(cfg, Step(cfg, w, move)) < Rank(cfg, w)
  {
    hide ClientStep, ServerStep, ClientRank, ServerRank, Link, ClientOk, ServerOk;
    match move
    case ClientMoves(retry) =>
      ClientRankFalls(cfg, w.client, Head(w.toClient), retry);
      assert w.toServer + [] == w.toServer;
    case ServerMoves(retry) =>
      ServerRankFalls(cfg, w.server, Head(w.toServer), retry);
      assert w.toClient + [] == w.toClient;
  }

  /** The moves of a run that changed something. */
  function Effective(cfg: Config, moves: seq<Move>): nat {
    if moves == [] then 0
    else
      var before := moves[..|moves| - 1];
      Effective(cfg, before) + if Run(cfg, moves) == Run(cfg, before) then 0 else 1
  }

  /** No run, however it is scheduled and whatever callbacks ask to be retried, does more than 80 things. */
  lemma {:induction false} EffortBounded(cfg: Config, moves: seq<Move>)
    requires ConfigOk(cfg)
    ensures Effective(cfg, moves) + Rank(cfg, Run(cfg, moves)) <= 80
  {
    if moves != [] {
      var before, move := moves[..|moves| - 1], moves[|moves| - 1];
      EffortBounded(cfg, before);
      RunsAgree(cfg, before);
      hide Inv, Rank, Step;
      MoveFalls(cfg, Run(cfg, before), move);
    }
  }

  lemma RunExtends(cfg: Config, moves: seq<Move>, move: Move)
    ensures Run(cfg, moves + [move]) == Step(cfg, Run(cfg, moves), move)
  {
    hide Step;
    assert (moves + [move])[..|moves|] == moves;
  }

  /** Until both are done, some move with ready callbacks brings them nearer. */
  lemma SomeMoveFalls(cfg: Config, moves: seq<Move>) returns (move: Move)
    requires ConfigOk(cfg)
    requires var w := Run(cfg, moves); w.client.state != CDone || w.server.state != SDone
    ensures !move.retry && Rank(cfg, Run(cfg, moves + [move])) < Rank(cfg, Run(cfg, moves))
  {
    hide *;
    NeverDeadlocked(cfg, moves);
    RunsAgree(cfg, moves);
    var w := Run(cfg, moves);
    move := if Step(cfg, w, ClientMoves(false)) != w then ClientMoves(false) else ServerMoves(false);
    MoveFalls(cfg, w, move);
    RunExtends(cfg, moves, move);
  }

  /** From any point of any run, as long as callbacks are ready, the two can run on until both are done. */
  lemma AlwaysFinishes(cfg: Config, moves: seq<Move>) returns (more: seq<Move>)
    requires ConfigOk(cfg)
    ensures forall i :: 0 <= i < |more| ==> !more[i].retry
    ensures var w := Run(cfg, moves + more); w.client.state == CDone && w.server.state == SDone
    decreases Rank(cfg, Run(cfg, moves))
  {
    hide Run, Rank;
    var w := Run(cfg, moves);
    more := [];
    assert moves + [] == moves;
    if w.client.state != CDone || w.server.state != SDone {
      var move := SomeMoveFalls(cfg, moves);
      var others := AlwaysFinishes(cfg, moves + [move]);
      more := [move] + others;
      assert moves + [move] + others == moves + more;
    }
  }

  /** If neither side can make a move that changes anything, both are done. */
  lemma StoppedMeansDone(cfg: Config, moves: seq<Move>)
    requires ConfigOk(cfg)
    requires var w := Run(cfg, moves); Step(cfg, w, ClientMoves(false)) == w && Step(cfg, w, ServerMoves(false)) == w
    ensures var w := Run(cfg, moves);
            && w.client.state == CDone && w.server.state == SDone
            && w.client.t.Hashed() == w.server.t.Hashed() && w.client.secret == w.server.secret
  {
    NeverDeadlocked(cfg, moves);
    DoneAgrees(cfg, moves);
  }

  // ----- what the master secret is derived over

  /** The client's transcript at the moment it derived the master secret. */
  ghost function ClientDerivedOver(cfg: Config, moves: seq<Move>): Option<seq<Msg>> {
    if moves == [] then None
    else
      var before, move := moves[..|moves| - 1], moves[|moves| - 1];
      if move.ClientMoves? && Run(cfg, before).client.state.SendClientKeyExchange?
      then Some(Run(cfg, moves).client.t.Hashed())
      else ClientDerivedOver(cfg, before)
  }

  /** The server's, when it has read the key exchange. */
  ghost function ServerDerivedOver(cfg: Config, moves: seq<Move>): Option<seq<Msg>> {
    if moves == [] then None
    else
      var before, move := moves[..|moves| - 1], moves[|moves| - 1];
      if move.ServerMoves? && Run(cfg, before).server.state.ReadClientKeyExchange?
         && Run(cfg, moves).server.state.ReadClientCertificateVerify?
      then Some(Run(cfg, moves).server.t.Hashed())
      else ServerDerivedOver(cfg, before)
  }

  /** This is everything up to the client's key exchange. */
  ghost predicate UpToKeyExchange(cfg: Config, over: Option<seq<Msg>>, transcript: seq<Msg>) {
    over.Some? ==>
      && over.value <= transcript
      && KindsOf(over.value) + HsKinds(FromCertificateVerify(cfg)) == HsKinds(Script(cfg))
  }

  /** What the client derives there is derived over just that transcript. */
  lemma ClientDerives(cfg: Config, c: Client, head: Option<Msg>, retry: bool)
    requires c.state.SendClientKeyExchange?
    ensures var c' := OnSendClientKeyExchange(cfg, c, head, retry).side;
            && c'.secret == Some(Derive(c.params.ems, cfg.key, c'.t.Hashed()))
            && ClientRest(cfg, c'.state, c'.wantCcs) == FromCertificateVerify(cfg)
  {
    hide Transcript.Update, Transcript.Hashed, FromCertificateVerify, Derive;
  }

  /** And the server, from the key it read. */
  lemma ServerDerives(cfg: Config, s: Server, head: Option<Msg>, retry: bool)
    requires s.state.ReadClientKeyExchange?
    requires OnReadClientKeyExchange(cfg, s, head, retry).side.state.ReadClientCertificateVerify?
    ensures var s' := OnReadClientKeyExchange(cfg, s, head, retry).side;
            && head.Some? && head.value.content.Plain?
            && s'.secret == Some(Derive(s.params.ems, head.value.content.id, s'.t.Hashed()))
            && ServerRest(cfg, s'.state, s'.wantCcs) == FromCertificateVerify(cfg)
  {
    hide Transcript.Update, Transcript.Hashed, FromCertificateVerify, Derive;
  }

  lemma StepExtends(cfg: Config, a: End, a': End, head: Option<Msg>, sent: seq<Msg>, took: bool)
    requires StepOk(cfg, a, a', head, sent, took)
    ensures a.transcript <= a'.transcript
  {
    hide ContentsOk, Kinds, Hs;
  }

  lemma ClientExtends(cfg: Config, w: World, retry: bool)
    requires ConfigOk(cfg) && Inv(cfg, w)
    ensures w.client.t.Hashed() <= ClientStep(cfg, w.client, Head(w.toClient), retry).side.t.Hashed()
  {
    hide ClientOk, ServerOk, Hs, ClientStep, Link, StepOk, ClientRest, ServerRest, Kinds, ContentsOk;
    var a, b := ClientEnd(cfg, w.client, w.toServer), ServerEnd(cfg, w.server, w.toClient);
    HeadExpected(cfg, a, b);
    HeadOfEnd(cfg, a, Head(w.toClient), b.secret);
    ClientRuns(cfg, w.client, Head(w.toClient), retry, w.server.secret);
    var r := ClientStep(cfg, w.client, Head(w.toClient), retry);
    StepExtends(cfg, ClientEnd(cfg, w.client, []), ClientEnd(cfg, r.side, []), Head(w.toClient), r.sent, r.took);
  }

  lemma ServerExtends(cfg: Config, w: World, retry: bool)
    requires ConfigOk(cfg) && Inv(cfg, w)
    ensures w.server.t.Hashed() <= ServerStep(cfg, w.server, Head(w.toServer), retry).side.t.Hashed()
  {
    hide ClientOk, ServerOk, Hs, ServerStep, Link, StepOk, ClientRest, ServerRest, Kinds, ContentsOk;
    var a, b := ClientEnd(cfg, w.client, w.toServer), ServerEnd(cfg, w.server, w.toClient);
    LinkSymmetric(cfg, a, b);
    HeadExpected(cfg, b, a);
    HeadOfEnd(cfg, b, Head(w.toServer), a.secret);
    ServerRuns(cfg, w.server, Head(w.toServer), retry, w.client.secret);
    var r := ServerStep(cfg, w.server, Head(w.toServer), retry);
    StepExtends(cfg, ServerEnd(cfg, w.server, []), ServerEnd(cfg, r.side, []), Head(w.toServer), r.sent, r.took);
  }

  /** A transcript only grows. */
  lemma TranscriptsGrow(cfg: Config, before: seq<Move>, move: Move)
    requires ConfigOk(cfg)
    ensures var w, w' := Run(cfg, before), Step(cfg, Run(cfg, before), move);
            w.client.t.Hashed() <= w'.client.t.Hashed() && w.server.t.Hashed() <= w'.server.t.Hashed()
  {
    RunsAgree(cfg, before);
    hide Run, Inv, ClientStep, ServerStep, Transcript.Hashed;
    match move
    case ClientMoves(retry) => ClientExtends(cfg, Run(cfg, before), retry);
    case ServerMoves(retry) => ServerExtends(cfg, Run(cfg, before), retry);
  }

  lemma {:induction false} DerivationsKnown(cfg: Config, moves: seq<Move>)
    requires ConfigOk(cfg)
    ensures var w := Run(cfg, moves);
            && UpToKeyExchange(cfg, ClientDerivedOver(cfg, moves), w.client.t.Hashed())
            && UpToKeyExchange(cfg, ServerDerivedOver(cfg, moves), w.server.t.Hashed())
  {
    hide ClientStep, ServerStep, Script, FromCertificateVerify, KindsOf, HsKinds, ClientRest, ServerRest, RecordOk;
    if moves != [] {
      var before, move := moves[..|moves| - 1], moves[|moves| - 1];
      var w, w' := Run(cfg, before), Run(cfg, moves);
      DerivationsKnown(cfg, before);
      TranscriptsGrow(cfg, before, move);
      RunsAccount(cfg, moves);
      if move.ClientMoves? && w.client.state.SendClientKeyExchange? {
        ClientStepIs(cfg, w.client, Head(w.toClient), move.retry);
        ClientDerives(cfg, w.client, Head(w.toClient), move.retry);
      }
      if move.ServerMoves? && w.server.state.ReadClientKeyExchange? && w'.server.state.ReadClientCertificateVerify? {
        ServerStepIs(cfg, w.server, Head(w.toServer), move.retry);
        ServerDerives(cfg, w.server, Head(w.toServer), move.retry);
      }
    }
  }

  /** With or without extended master secret, both sides derive it over the same messages. */
  lemma DerivationsAgree(cfg: Config, moves: seq<Move>)
    requires ConfigOk(cfg)
    requires ClientDerivedOver(cfg, moves).Some? && ServerDerivedOver(cfg, moves).Some?
    ensures ClientDerivedOver(cfg, moves) == ServerDerivedOver(cfg, moves)
  {
    DerivationsKnown(cfg, moves);
    RunsAgree(cfg, moves);
    var w := Run(cfg, moves);
    hide Run, Script, Transcript.Hashed, HsKinds, FromCertificateVerify, ClientRest, ServerRest, ClientOk;
    hide ServerOk, ContentsOk, Kinds, Hs, ClientDerivedOver, ServerDerivedOver;
    var x, y := ClientDerivedOver(cfg, moves).value, ServerDerivedOver(cfg, moves).value;
    assert |KindsOf(x)| == |KindsOf(y)|;
    var tc, ts := w.client.t.Hashed(), w.server.t.Hashed();
    assert tc <= ts || ts <= tc;
    PrefixesAgree(x, y, tc, ts);
  }
}
