/** Both sides of every honest handshake hash the same messages, each once, and agree on every secret. */
module HandshakeAgreement {
  import opened Wire
  import opened HandshakeMachines

  // ----- what is still to come

  datatype Expect = Expect(fromServer: bool, kind: Kind)

  function C(k: Kind): Expect {
    Expect(false, k)
  }

  function S(k: Kind): Expect {
    Expect(true, k)
  }

  function If(b: bool, e: Expect): seq<Expect> {
    if b then [e] else []
  }

  function EndOfServer(cfg: Config): seq<Expect> {
    [S(Finished)] + if Resumed(cfg) then FinalFlight(cfg) else []
  }

  function FromServerCcs(cfg: Config): seq<Expect> {
    [S(ChangeCipherSpec)] + EndOfServer(cfg)
  }

  function FromServerFinished(cfg: Config): seq<Expect> {
    If(cfg.tickets, S(NewSessionTicket)) + FromServerCcs(cfg)
  }

  function FinalFlight(cfg: Config): seq<Expect> {
    [C(ChangeCipherSpec)] + If(cfg.npn, C(NextProto)) + If(ParamsOf(cfg).channelId, C(ChannelId)) + [C(Finished)]
  }

  function EndOfClient(cfg: Config): seq<Expect> {
    [C(Finished)] + if Resumed(cfg) then [] else FromServerFinished(cfg)
  }

  function FromChannelId(cfg: Config): seq<Expect> {
    If(ParamsOf(cfg).channelId, C(ChannelId)) + EndOfClient(cfg)
  }

  function FromNextProto(cfg: Config): seq<Expect> {
    If(cfg.npn, C(NextProto)) + FromChannelId(cfg)
  }

  function FromClientFinished(cfg: Config): seq<Expect> {
    [C(ChangeCipherSpec)] + FromNextProto(cfg)
  }

  function FromCertificateVerify(cfg: Config): seq<Expect> {
    If(WantsCert(cfg) && cfg.clientHasCert, C(CertificateVerify)) + FromClientFinished(cfg)
  }

  function FromKeyExchange(cfg: Config): seq<Expect> {
    [C(ClientKeyExchange)] + FromCertificateVerify(cfg)
  }

  function FromClientCertificate(cfg: Config): seq<Expect> {
    If(WantsCert(cfg), C(Certificate)) + FromKeyExchange(cfg)
  }

  function FromServerHelloDone(cfg: Config): seq<Expect> {
    [S(ServerHelloDone)] + FromClientCertificate(cfg)
  }

  function FromCertificateRequest(cfg: Config): seq<Expect> {
    If(WantsCert(cfg), S(CertificateRequest)) + FromServerHelloDone(cfg)
  }

  function FromServerKeyExchange(cfg: Config): seq<Expect> {
    If(SendsSke(cfg), S(ServerKeyExchange)) + FromCertificateRequest(cfg)
  }

  function FromStatus(cfg: Config): seq<Expect> {
    If(ParamsOf(cfg).status, S(CertificateStatus)) + FromServerKeyExchange(cfg)
  }

  function FromServerCertificate(cfg: Config): seq<Expect> {
    If(cfg.certAuth, S(Certificate)) + FromStatus(cfg)
  }

  function FromServerHello(cfg: Config): seq<Expect> {
    [S(ServerHello)] + if Resumed(cfg) then FromServerFinished(cfg) else FromServerCertificate(cfg)
  }

  /** The whole handshake. */
  function Script(cfg: Config): seq<Expect> {
    [C(ClientHello)] + FromServerHello(cfg)
  }

  function ClientRest(cfg: Config, st: CState, wantCcs: bool): seq<Expect> {
    match st
    case StartConnect => Script(cfg)
    case EnterEarlyData => FromServerHello(cfg)
    case ReadServerHello => FromServerHello(cfg)
    case ReadServerCertificate => FromServerCertificate(cfg)
    case ReadCertificateStatus => FromStatus(cfg)
    case VerifyServerCertificate => FromServerKeyExchange(cfg)
    case ReadServerKeyExchange => FromServerKeyExchange(cfg)
    case ReadCertificateRequest => FromCertificateRequest(cfg)
    case ReadServerHelloDone => FromServerHelloDone(cfg)
    case SendClientCertificate => FromClientCertificate(cfg)
    case SendClientKeyExchange => FromKeyExchange(cfg)
    case SendClientCertificateVerify => FromCertificateVerify(cfg)
    case SendClientFinished => FromClientFinished(cfg)
    case FinishFlight => if Resumed(cfg) then [] else FromServerFinished(cfg)
    case ReadSessionTicket => FromServerFinished(cfg)
    case CProcessChangeCipherSpec => if wantCcs then FromServerCcs(cfg) else EndOfServer(cfg)
    case ReadServerFinished => EndOfServer(cfg)
    case _ => []
  }

  function ServerRest(cfg: Config, st: SState, wantCcs: bool): seq<Expect> {
    match st
    case StartAccept => Script(cfg)
    case ReadClientHello => Script(cfg)
    case SelectCertificate => Script(cfg)
    case SelectParameters => Script(cfg)
    case SendServerHello => FromServerHello(cfg)
    case SendServerCertificate => FromServerCertificate(cfg)
    case SendServerKeyExchange => FromServerKeyExchange(cfg)
    case SendServerHelloDone => FromCertificateRequest(cfg)
    case ReadClientCertificate => FromClientCertificate(cfg)
    case VerifyClientCertificate => FromKeyExchange(cfg)
    case ReadClientKeyExchange => FromKeyExchange(cfg)
    case ReadClientCertificateVerify => FromCertificateVerify(cfg)
    case ReadChangeCipherSpec => FromClientFinished(cfg)
    case SProcessChangeCipherSpec => if wantCcs then FromClientFinished(cfg) else FromNextProto(cfg)
    case ReadNextProto => FromNextProto(cfg)
    case ReadChannelId => FromChannelId(cfg)
    case ReadClientFinished => EndOfClient(cfg)
    case SendServerFinished => FromServerFinished(cfg)
    case _ => []
  }

  lemma ServerRestIs(cfg: Config, w: bool)
    ensures ServerRest(cfg, SProcessChangeCipherSpec, true) == FromClientFinished(cfg)
    ensures ServerRest(cfg, SProcessChangeCipherSpec, false) == FromNextProto(cfg)
    ensures ServerRest(cfg, ReadNextProto, w) == FromNextProto(cfg)
    ensures ServerRest(cfg, ReadChannelId, w) == FromChannelId(cfg)
    ensures ServerRest(cfg, ReadClientFinished, w) == EndOfClient(cfg)
    ensures ServerRest(cfg, SendServerFinished, w) == FromServerFinished(cfg)
    ensures ServerRest(cfg, FinishServerHandshake, w) == []
    ensures ServerRest(cfg, SendServerHelloDone, w) == FromCertificateRequest(cfg)
    ensures ServerRest(cfg, ReadClientCertificate, w) == FromClientCertificate(cfg)
  {
    hide FromClientFinished, FromNextProto, FromChannelId, EndOfClient, FromServerFinished, FromCertificateRequest;
    hide FromClientCertificate;
  }

  lemma ClientRestIs(cfg: Config, w: bool)
    ensures ClientRest(cfg, ReadSessionTicket, w) == FromServerFinished(cfg)
    ensures ClientRest(cfg, CProcessChangeCipherSpec, true) == FromServerCcs(cfg)
    ensures ClientRest(cfg, CProcessChangeCipherSpec, false) == EndOfServer(cfg)
    ensures ClientRest(cfg, ReadServerFinished, w) == EndOfServer(cfg)
    ensures ClientRest(cfg, FinishClientHandshake, w) == []
    ensures ClientRest(cfg, ReadServerHello, w) == FromServerHello(cfg)
    ensures ClientRest(cfg, ReadServerCertificate, w) == FromServerCertificate(cfg)
  {
    hide FromServerFinished, FromServerCcs, EndOfServer, FromServerHello, FromServerCertificate;
  }

  // ----- one side by itself

  ghost predicate ClientOk(cfg: Config, c: Client) {
    var st := c.state;
    var early := st.StartConnect? || st.EnterEarlyData? || st.ReadServerHello?;
    var reading := st.ReadServerCertificate? || st.ReadCertificateStatus? || st.VerifyServerCertificate?
                   || st.ReadServerKeyExchange? || st.ReadCertificateRequest?;
    var answering := st.ReadServerHelloDone? || st.SendClientCertificate?;
    var verifying := st.SendClientKeyExchange? || st.SendClientCertificateVerify?;
    && !st.CFailed? && c.t.Valid() && (c.wantCcs ==> st.CProcessChangeCipherSpec?)
    && (if early then c.t.hash.None? && c.secret.None? else c.t.hash.Some? && c.params == ParamsOf(cfg))
    && (reading || answering || verifying ==> !Resumed(cfg))
    && (early || reading ==> !c.certRequest)
    && (answering || verifying ==> c.certRequest == WantsCert(cfg))
    && (reading && cfg.certAuth ==> c.t.buffer.Some?)
    && (answering && c.certRequest ==> c.t.buffer.Some?)
    && (verifying && c.certRequest && cfg.clientHasCert ==> c.t.buffer.Some?)
    && (if early || reading || answering || st.SendClientKeyExchange? then c.secret.None?
        else if Resumed(cfg) then c.secret == Some(Old) else c.secret.Some?)
  }

  ghost predicate ServerOk(cfg: Config, s: Server) {
    var st := s.state;
    var early := st.StartAccept? || st.ReadClientHello? || st.SelectCertificate? || st.SelectParameters?;
    var sending := st.SendServerCertificate? || st.SendServerKeyExchange? || st.SendServerHelloDone?;
    var reading := st.ReadClientCertificate? || st.VerifyClientCertificate? || st.ReadClientKeyExchange?;
    && !st.SFailed? && s.t.Valid() && (s.wantCcs ==> st.SProcessChangeCipherSpec?)
    && (if early then s.t.hash.None? && s.secret.None? else s.t.hash.Some? && s.certRequest == WantsCert(cfg))
    && (early ==> !s.peerCert)
    && (st.SendServerHello? ==> s.params.resumed == Resumed(cfg) && s.params.channelId == cfg.channelId && !s.peerCert)
    && (!early && !st.SendServerHello? ==> s.params == ParamsOf(cfg))
    && (sending || reading || st.ReadClientCertificateVerify? ==> !Resumed(cfg))
    && (st.SendServerKeyExchange? ==> s.sendsSke == SendsSke(cfg))
    && (sending || st.ReadClientCertificate? ==> !s.peerCert)
    && (st.VerifyClientCertificate? || st.ReadClientKeyExchange? || st.ReadClientCertificateVerify? ==>
          s.peerCert == (WantsCert(cfg) && cfg.clientHasCert))
    && ((st.SendServerHello? || sending || st.ReadClientCertificate?) && WantsCert(cfg) ==> s.t.buffer.Some?)
    && ((reading || st.ReadClientCertificateVerify?) && s.peerCert ==> s.t.buffer.Some?)
    && (if early || sending || reading then s.secret.None?
        else if Resumed(cfg) then s.secret == Some(Old)
        else st.SendServerHello? || s.secret.Some?)
    && (st.SendServerHello? && !Resumed(cfg) ==> s.secret.None?)
  }

  lemma ParamsSayResumed(cfg: Config)
    ensures ParamsOf(cfg).resumed == Resumed(cfg)
  {
  }

  /** The same, once the key exchange is behind. */
  ghost predicate ClientLate(cfg: Config, c: Client) {
    && c.t.Valid() && c.t.hash.Some? && c.params == ParamsOf(cfg)
    && if Resumed(cfg) then c.secret == Some(Old) else c.secret.Some?
  }

  lemma ClientLateOk(cfg: Config, c: Client)
    requires c.state.SendClientFinished? || c.state.FinishFlight? || c.state.ReadSessionTicket? || c.state.CDone?
             || c.state.CProcessChangeCipherSpec? || c.state.ReadServerFinished? || c.state.FinishClientHandshake?
    ensures ClientOk(cfg, c) <==> ClientLate(cfg, c) && (c.wantCcs ==> c.state.CProcessChangeCipherSpec?)
  {
    hide WantsCert, ParamsOf, Resumed, Transcript.Valid;
  }

  ghost predicate ServerLate(cfg: Config, s: Server) {
    && s.t.Valid() && s.t.hash.Some? && s.certRequest == WantsCert(cfg) && s.params == ParamsOf(cfg)
    && if Resumed(cfg) then s.secret == Some(Old) else s.secret.Some?
  }

  lemma ServerLateOk(cfg: Config, s: Server)
    requires s.state.ReadChangeCipherSpec? || s.state.SProcessChangeCipherSpec? || s.state.ReadNextProto?
             || s.state.ReadChannelId? || s.state.ReadClientFinished? || s.state.SendServerFinished?
             || s.state.FinishServerHandshake? || s.state.SDone?
    ensures ServerOk(cfg, s) <==> ServerLate(cfg, s) && (s.wantCcs ==> s.state.SProcessChangeCipherSpec?)
  {
    hide WantsCert, ParamsOf, Resumed, SendsSke, Transcript.Valid;
  }

  // ----- messages in flight

  function Hs(wire: seq<Msg>): seq<Msg> {
    if wire == [] then []
    else (if wire[0].kind == ChangeCipherSpec then [] else [wire[0]]) + Hs(wire[1..])
  }

  lemma HsNone()
    ensures Hs([]) == []
  {
  }

  lemma HsCons(m: Msg, wire: seq<Msg>)
    ensures Hs([m] + wire) == (if m.kind == ChangeCipherSpec then [] else [m]) + Hs(wire)
  {
  }

  lemma {:induction false} HsConcat(a: seq<Msg>, b: seq<Msg>)
    ensures Hs(a + b) == Hs(a) + Hs(b)
  {
    hide Hs;
    HsNone();
    if a == [] {
      assert a + b == b && Hs(a) + Hs(b) == Hs(b);
    } else {
      HsConcat(a[1..], b);
      SplitFirst(a, b);
      HsCons(a[0], a[1..]);
      HsCons(a[0], a[1..] + b);
    }
  }

  lemma SplitFirst(a: seq<Msg>, b: seq<Msg>)
    requires a != []
    ensures a == [a[0]] + a[1..] && a + b == [a[0]] + (a[1..] + b)
  {
  }

  ghost function Kinds(fromServer: bool, wire: seq<Msg>): (s: seq<Expect>)
    ensures |s| == |wire|
  {
    seq(|wire|, i requires 0 <= i < |wire| => Expect(fromServer, wire[i].kind))
  }

  /** m says what a sender with this transcript and secret says. */
  ghost predicate ContentOk(cfg: Config, fromServer: bool, m: Msg, transcript: seq<Msg>, secret: Option<Secret>) {
    match m.kind
    case ClientHello => m.content == Offer(cfg.offersSession)
    case ServerHello => m.content == Choice(ParamsOf(cfg))
    case Certificate => fromServer || m.content == Chain(cfg.clientHasCert)
    case ClientKeyExchange =>
      m.content == Plain(cfg.key) && secret == Some(Derive(cfg.ems, cfg.key, transcript + [m]))
    case CertificateVerify => m.content == Signed(transcript)
    case ChannelId => m.content == Signed(transcript)
    case Finished => secret.Some? && m.content == Mac(fromServer, secret, transcript)
    case _ => true
  }

  ghost predicate ContentsOk(cfg: Config, fromServer: bool, wire: seq<Msg>, transcript: seq<Msg>,
                             secret: Option<Secret>)
    decreases |wire|
  {
    wire != [] ==>
      && ContentOk(cfg, fromServer, wire[0], transcript, secret)
      && ContentsOk(cfg, fromServer, wire[1..], transcript + Hs(wire[..1]), secret)
  }

  lemma {:induction false} ContentsConcat(cfg: Config, fromServer: bool, a: seq<Msg>, b: seq<Msg>, transcript: seq<Msg>,
                                          secret: Option<Secret>)
    requires ContentsOk(cfg, fromServer, a, transcript, secret)
    requires ContentsOk(cfg, fromServer, b, transcript + Hs(a), secret)
    ensures ContentsOk(cfg, fromServer, a + b, transcript, secret)
    decreases |a|
  {
    if a == [] {
      assert a + b == b && transcript + [] == transcript;
    } else {
      assert (a + b)[1..] == a[1..] + b && (a + b)[..1] == a[..1] && a == a[..1] + a[1..];
      HsConcat(a[..1], a[1..]);
      assert transcript + Hs(a) == transcript + Hs(a[..1]) + Hs(a[1..]);
      ContentsConcat(cfg, fromServer, a[1..], b, transcript + Hs(a[..1]), secret);
    }
  }

  /** Before a secret is known nothing is sent that depends on it. */
  lemma {:induction false} ContentsAnySecret(cfg: Config, fromServer: bool, wire: seq<Msg>, transcript: seq<Msg>,
                                             secret: Option<Secret>)
    requires ContentsOk(cfg, fromServer, wire, transcript, None)
    ensures ContentsOk(cfg, fromServer, wire, transcript, secret)
    decreases |wire|
  {
    if wire != [] {
      ContentsAnySecret(cfg, fromServer, wire[1..], transcript + Hs(wire[..1]), secret);
    }
  }

  // ----- a side and its peer

  /** One side of the link: rest, transcript and secret, and the messages it has sent that are not yet read. */
  datatype End = End(isServer: bool, rest: seq<Expect>, transcript: seq<Msg>, secret: Option<Secret>, sent: seq<Msg>)

  /** reader has nothing outstanding, and writer is ahead of it by what it has sent. */
  ghost predicate Ahead(reader: End, writer: End) {
    && reader.sent == []
    && reader.rest == Kinds(writer.isServer, writer.sent) + writer.rest
    && writer.transcript == reader.transcript + Hs(writer.sent)
  }

  ghost predicate Link(cfg: Config, a: End, b: End) {
    && a.isServer != b.isServer
    && (Ahead(a, b) || Ahead(b, a))
    && ContentsOk(cfg, a.isServer, a.sent, b.transcript, a.secret)
    && ContentsOk(cfg, b.isServer, b.sent, a.transcript, b.secret)
    && (a.secret.Some? && b.secret.Some? ==> a.secret == b.secret)
  }

  /** Side a has read the first message its peer sent. */
  lemma LinkTakes(cfg: Config, a: End, b: End, a': End)
    requires Link(cfg, a, b) && b.sent != []
    requires a.rest != []
    requires a' == a.(rest := a.rest[1..], transcript := a.transcript + Hs(b.sent[..1]), secret := a'.secret)
    requires a'.secret.Some? && b.secret.Some? ==> a'.secret == b.secret
    ensures Link(cfg, a', b.(sent := b.sent[1..]))
  {
  }

  /** What side a may read next is what it expects, and says what it should. */
  lemma LinkExpects(cfg: Config, a: End, b: End)
    requires Link(cfg, a, b) && b.sent != []
    ensures a.rest != [] && a.rest[0] == Expect(b.isServer, b.sent[0].kind)
    ensures ContentOk(cfg, b.isServer, b.sent[0], a.transcript, b.secret)
  {
  }

  /** To send, a side must have read everything: then it is the one ahead. */
  lemma SenderIsAhead(cfg: Config, a: End, b: End, m: Msg, rest': seq<Expect>)
    requires Link(cfg, a, b) && a.rest == [Expect(a.isServer, m.kind)] + rest'
    ensures b.sent == [] && Ahead(b, a)
  {
    hide ContentsOk;
    if b.sent != [] {
      LinkExpects(cfg, a, b);
      assert false;
    }
    if Ahead(a, b) {
      assert Kinds(b.isServer, []) == [] && [] + b.rest == b.rest && Hs([]) == [];
      assert a.transcript + [] == a.transcript && b.transcript + [] == b.transcript;
      assert Kinds(a.isServer, a.sent) + a.rest == a.rest;
    }
  }

  /** Side a has sent some messages. */
  lemma AheadGrows(b: End, a: End, sent: seq<Msg>, a': End)
    requires Ahead(b, a) && a.rest == Kinds(a.isServer, sent) + a'.rest
    requires a'.isServer == a.isServer && a'.transcript == a.transcript + Hs(sent) && a'.sent == a.sent + sent
    ensures Ahead(b, a')
  {
    hide Hs, Kinds;
    HsConcat(a.sent, sent);
    KindsOfTwo(a.isServer, a.sent, sent);
  }

  lemma KindsOfTwo(fromServer: bool, x: seq<Msg>, y: seq<Msg>)
    ensures Kinds(fromServer, x + y) == Kinds(fromServer, x) + Kinds(fromServer, y)
  {
  }

  lemma LinkSends(cfg: Config, a: End, b: End, sent: seq<Msg>, a': End)
    requires Link(cfg, a, b) && sent != []
    requires a.rest == Kinds(a.isServer, sent) + a'.rest
    requires a'.isServer == a.isServer && a'.transcript == a.transcript + Hs(sent) && a'.sent == a.sent + sent
    requires ContentsOk(cfg, a.isServer, sent, a.transcript, a'.secret)
    requires a.secret.None? || a'.secret == a.secret
    requires a'.secret.Some? && b.secret.Some? ==> a'.secret == b.secret
    ensures b.sent == [] && Link(cfg, a', b)
  {
    hide ContentsOk, Kinds, Hs;
    FirstKind(a, sent, a'.rest);
    SenderIsAhead(cfg, a, b, sent[0], Kinds(a.isServer, sent)[1..] + a'.rest);
    SentContents(cfg, a, b, sent, a');
    AheadGrows(b, a, sent, a');
    NothingToCheck(cfg, b.isServer, a'.transcript, b.secret);
  }

  lemma FirstKind(a: End, sent: seq<Msg>, rest: seq<Expect>)
    requires sent != []
    ensures Kinds(a.isServer, sent) + rest ==
            [Expect(a.isServer, sent[0].kind)] + (Kinds(a.isServer, sent)[1..] + rest)
  {
  }

  lemma NothingToCheck(cfg: Config, fromServer: bool, transcript: seq<Msg>, secret: Option<Secret>)
    ensures ContentsOk(cfg, fromServer, [], transcript, secret)
  {
  }

  lemma SentContents(cfg: Config, a: End, b: End, sent: seq<Msg>, a': End)
    requires Link(cfg, a, b) && Ahead(b, a)
    requires ContentsOk(cfg, a.isServer, sent, a.transcript, a'.secret)
    requires a.secret.None? || a'.secret == a.secret
    ensures ContentsOk(cfg, a.isServer, a.sent + sent, b.transcript, a'.secret)
  {
    if a.secret.None? {
      ContentsAnySecret(cfg, a.isServer, a.sent, b.transcript, a'.secret);
    }
    ContentsConcat(cfg, a.isServer, a.sent, sent, b.transcript, a'.secret);
  }

  lemma LinkSymmetric(cfg: Config, a: End, b: End)
    requires Link(cfg, a, b)
    ensures Link(cfg, b, a)
  {
  }

  // ----- steps of one side

  /** A step that neither sends nor consumes changes nothing the peer can see. */
  ghost predicate StepOk(cfg: Config, a: End, a': End, head: Option<Msg>, sent: seq<Msg>, took: bool) {
    && a'.isServer == a.isServer
    && (a.secret.None? || a'.secret == a.secret)
    && if took then
         && head.Some? && sent == [] && a.rest != [] && a'.rest == a.rest[1..]
         && a'.transcript == a.transcript + Hs([head.value])
       else if sent == [] then a'.rest == a.rest && a'.transcript == a.transcript && a'.secret == a.secret
       else
         && a.rest == Kinds(a.isServer, sent) + a'.rest && a'.transcript == a.transcript + Hs(sent)
         && ContentsOk(cfg, a.isServer, sent, a.transcript, a'.secret)
  }

  ghost function ClientEnd(cfg: Config, c: Client, sent: seq<Msg>): End {
    End(false, ClientRest(cfg, c.state, c.wantCcs), c.t.Hashed(), c.secret, sent)
  }

  ghost function ServerEnd(cfg: Config, s: Server, sent: seq<Msg>): End {
    End(true, ServerRest(cfg, s.state, s.wantCcs), s.t.Hashed(), s.secret, sent)
  }

  lemma HsOne(m: Msg)
    ensures Hs([m]) == if m.kind == ChangeCipherSpec then [] else [m]
  {
  }

  /** The next message, if one has arrived, is the one expected. */
  ghost predicate HeadOk(cfg: Config, a: End, head: Option<Msg>, peerSecret: Option<Secret>) {
    && (a.secret.Some? && peerSecret.Some? ==> a.secret == peerSecret)
    && (head.Some? ==>
          && a.rest != [] && a.rest[0] == Expect(!a.isServer, head.value.kind)
          && ContentOk(cfg, !a.isServer, head.value, a.transcript, peerSecret))
  }

  /** A client that is as it should be, about to run. */
  ghost predicate ClientReady(cfg: Config, c: Client, head: Option<Msg>, peerSecret: Option<Secret>) {
    ConfigOk(cfg) && ClientOk(cfg, c) && HeadOk(cfg, ClientEnd(cfg, c, []), head, peerSecret)
  }

  /** Step r of c keeps it as it should be, and to the script. */
  ghost predicate ClientRanTo(cfg: Config, c: Client, head: Option<Msg>, r: Moved<Client>) {
    && ClientOk(cfg, r.side)
    && StepOk(cfg, ClientEnd(cfg, c, []), ClientEnd(cfg, r.side, []), head, r.sent, r.took)
  }

  ghost predicate ClientRan(cfg: Config, c: Client, head: Option<Msg>, retry: bool) {
    ClientRanTo(cfg, c, head, ClientStep(cfg, c, head, retry))
  }

  lemma StayedOk(cfg: Config, a: End, a': End, head: Option<Msg>)
    requires a' == a
    ensures StepOk(cfg, a, a', head, [], false)
  {
  }

  lemma TookOk(cfg: Config, a: End, a': End, head: Option<Msg>)
    requires head.Some? && a'.isServer == a.isServer && (a.secret.None? || a'.secret == a.secret)
    requires a.rest == [Expect(!a.isServer, head.value.kind)] + a'.rest
    requires a'.transcript == if head.value.kind == ChangeCipherSpec then a.transcript else a.transcript + [head.value]
    ensures StepOk(cfg, a, a', head, [], true)
  {
  }

  lemma SentOneOk(cfg: Config, a: End, a': End, head: Option<Msg>, m: Msg)
    requires a'.isServer == a.isServer && (a.secret.None? || a'.secret == a.secret)
    requires a.rest == [Expect(a.isServer, m.kind)] + a'.rest && m.kind != ChangeCipherSpec
    requires a'.transcript == a.transcript + [m] && ContentOk(cfg, a.isServer, m, a.transcript, a'.secret)
    ensures StepOk(cfg, a, a', head, [m], false)
  {
  }

  lemma ClientStartConnect(cfg: Config, c: Client, head: Option<Msg>, retry: bool, peerSecret: Option<Secret>)
    requires ClientReady(cfg, c, head, peerSecret) && c.state.StartConnect?
    ensures ClientRanTo(cfg, c, head, OnStartConnect(cfg, c, head, retry))
  {
    hide StepOk, ContentsOk, Kinds, Hs;
    hide EndOfServer, FromServerCcs, FromServerFinished, FinalFlight, EndOfClient, FromChannelId, FromNextProto;
    hide FromClientFinished, FromCertificateVerify, FromKeyExchange, FromClientCertificate, FromServerHelloDone;
    hide FromCertificateRequest, FromServerKeyExchange, FromStatus, FromServerCertificate, FromServerHello;
    var r := OnStartConnect(cfg, c, head, retry);
    var a, a' := ClientEnd(cfg, c, []), ClientEnd(cfg, r.side, []);
    SentOneOk(cfg, a, a', head, r.sent[0]);
  }

  lemma ClientEnterEarlyData(cfg: Config, c: Client, head: Option<Msg>, retry: bool, peerSecret: Option<Secret>)
    requires ClientReady(cfg, c, head, peerSecret) && c.state.EnterEarlyData?
    ensures ClientRanTo(cfg, c, head, OnEnterEarlyData(cfg, c, head, retry))
  {
    hide StepOk, ContentsOk, Kinds, Hs;
    hide EndOfServer, FromServerCcs, FromServerFinished, FinalFlight, EndOfClient, FromChannelId, FromNextProto;
    hide FromClientFinished, FromCertificateVerify, FromKeyExchange, FromClientCertificate, FromServerHelloDone;
    hide FromCertificateRequest, FromServerKeyExchange, FromStatus, FromServerCertificate, FromServerHello;
    hide Script;
    var r := OnEnterEarlyData(cfg, c, head, retry);
    var a, a' := ClientEnd(cfg, c, []), ClientEnd(cfg, r.side, []);
    StayedOk(cfg, a, a', head);
  }

  lemma ClientReadServerHello(cfg: Config, c: Client, head: Option<Msg>, retry: bool, peerSecret: Option<Secret>)
    requires ClientReady(cfg, c, head, peerSecret) && c.state.ReadServerHello?
    ensures ClientRanTo(cfg, c, head, OnReadServerHello(cfg, c, head, retry))
  {
    hide ClientRest, StepOk, ContentsOk, Kinds, Hs;
    hide EndOfServer, FromServerCcs, FromServerFinished, FinalFlight, EndOfClient, FromChannelId, FromNextProto;
    hide FromClientFinished, FromCertificateVerify, FromKeyExchange, FromClientCertificate, FromServerHelloDone;
    hide FromCertificateRequest, FromServerKeyExchange, FromStatus, FromServerCertificate, Script;
    var r := OnReadServerHello(cfg, c, head, retry);
    ClientRestIs(cfg, c.wantCcs);
    var a, a' := ClientEnd(cfg, c, []), ClientEnd(cfg, r.side, []);
    if r.took {
      TookOk(cfg, a, a', head);
    } else {
      StayedOk(cfg, a, a', head);
    }
  }

  lemma ClientReadServerCertificate(cfg: Config, c: Client, head: Option<Msg>, retry: bool, peerSecret: Option<Secret>)
    requires ClientReady(cfg, c, head, peerSecret) && c.state.ReadServerCertificate?
    ensures ClientRanTo(cfg, c, head, OnReadServerCertificate(cfg, c, head, retry))
  {
    hide StepOk, ContentsOk, Kinds, Hs;
    hide EndOfServer, FromServerCcs, FromServerFinished, FinalFlight, EndOfClient, FromChannelId, FromNextProto;
    hide FromClientFinished, FromCertificateVerify, FromKeyExchange, FromClientCertificate, FromServerHelloDone;
    hide FromCertificateRequest, FromServerKeyExchange, FromStatus, FromServerHello, Script;
    var r := OnReadServerCertificate(cfg, c, head, retry);
    var a, a' := ClientEnd(cfg, c, []), ClientEnd(cfg, r.side, []);
    if r.took {
      TookOk(cfg, a, a', head);
    } else {
      StayedOk(cfg, a, a', head);
    }
  }

  lemma ClientReadCertificateStatus(cfg: Config, c: Client, head: Option<Msg>, retry: bool, peerSecret: Option<Secret>)
    requires ClientReady(cfg, c, head, peerSecret) && c.state.ReadCertificateStatus?
    ensures ClientRanTo(cfg, c, head, OnReadCertificateStatus(cfg, c, head, retry))
  {
    hide StepOk, ContentsOk, Kinds, Hs;
    hide EndOfServer, FromServerCcs, FromServerFinished, FinalFlight, EndOfClient, FromChannelId, FromNextProto;
    hide FromClientFinished, FromCertificateVerify, FromKeyExchange, FromClientCertificate, FromServerHelloDone;
    hide FromCertificateRequest, FromServerKeyExchange, FromServerCertificate, FromServerHello, Script;
    var r := OnReadCertificateStatus(cfg, c, head, retry);
    var a, a' := ClientEnd(cfg, c, []), ClientEnd(cfg, r.side, []);
    if r.took {
      TookOk(cfg, a, a', head);
    } else {
      StayedOk(cfg, a, a', head);
    }
  }

  lemma ClientVerifyServerCertificate(cfg: Config, c: Client, head: Option<Msg>, retry: bool,
                                      peerSecret: Option<Secret>)
    requires ClientReady(cfg, c, head, peerSecret) && c.state.VerifyServerCertificate?
    ensures ClientRanTo(cfg, c, head, OnVerifyServerCertificate(cfg, c, head, retry))
  {
    hide StepOk, ContentsOk, Kinds, Hs;
    hide EndOfServer, FromServerCcs, FromServerFinished, FinalFlight, EndOfClient, FromChannelId, FromNextProto;
    hide FromClientFinished, FromCertificateVerify, FromKeyExchange, FromClientCertificate, FromServerHelloDone;
    hide FromCertificateRequest, FromServerKeyExchange, FromStatus, FromServerCertificate, FromServerHello;
    hide Script;
    var r := OnVerifyServerCertificate(cfg, c, head, retry);
    var a, a' := ClientEnd(cfg, c, []), ClientEnd(cfg, r.side, []);
    StayedOk(cfg, a, a', head);
  }

  lemma ClientReadServerKeyExchange(cfg: Config, c: Client, head: Option<Msg>, retry: bool, peerSecret: Option<Secret>)
    requires ClientReady(cfg, c, head, peerSecret) && c.state.ReadServerKeyExchange?
    ensures ClientRanTo(cfg, c, head, OnReadServerKeyExchange(cfg, c, head, retry))
  {
    hide StepOk, ContentsOk, Kinds, Hs, EndOfServer, FromServerCcs, FromServerFinished, FinalFlight, EndOfClient;
    hide FromChannelId, FromNextProto, FromClientFinished, FromCertificateVerify, FromKeyExchange;
    hide FromClientCertificate, FromStatus, FromServerCertificate, FromServerHello, Script;
    var r := OnReadServerKeyExchange(cfg, c, head, retry);
    var a, a' := ClientEnd(cfg, c, []), ClientEnd(cfg, r.side, []);
    if r.took {
      TookOk(cfg, a, a', head);
    } else {
      StayedOk(cfg, a, a', head);
    }
  }

  lemma ClientReadCertificateRequest(cfg: Config, c: Client, head: Option<Msg>, retry: bool, peerSecret: Option<Secret>)
    requires ClientReady(cfg, c, head, peerSecret) && c.state.ReadCertificateRequest?
    ensures ClientRanTo(cfg, c, head, OnReadCertificateRequest(cfg, c, head, retry))
  {
    hide StepOk, ContentsOk, Kinds, Hs;
    hide EndOfServer, FromServerCcs, FromServerFinished, FinalFlight, EndOfClient, FromChannelId, FromNextProto;
    hide FromClientFinished, FromCertificateVerify, FromKeyExchange, FromClientCertificate;
    hide FromServerKeyExchange, FromStatus, FromServerCertificate, FromServerHello, Script;
    var r := OnReadCertificateRequest(cfg, c, head, retry);
    var a, a' := ClientEnd(cfg, c, []), ClientEnd(cfg, r.side, []);
    if r.took {
      TookOk(cfg, a, a', head);
    } else {
      StayedOk(cfg, a, a', head);
    }
  }

  lemma ClientReadServerHelloDone(cfg: Config, c: Client, head: Option<Msg>, retry: bool, peerSecret: Option<Secret>)
    requires ClientReady(cfg, c, head, peerSecret) && c.state.ReadServerHelloDone?
    ensures ClientRanTo(cfg, c, head, OnReadServerHelloDone(cfg, c, head, retry))
  {
    hide StepOk, ContentsOk, Kinds, Hs;
    hide EndOfServer, FromServerCcs, FromServerFinished, FinalFlight, EndOfClient, FromChannelId, FromNextProto;
    hide FromClientFinished, FromCertificateVerify, FromKeyExchange, FromClientCertificate;
    hide FromCertificateRequest, FromServerKeyExchange, FromStatus, FromServerCertificate, FromServerHello;
    hide Script;
    var r := OnReadServerHelloDone(cfg, c, head, retry);
    var a, a' := ClientEnd(cfg, c, []), ClientEnd(cfg, r.side, []);
    if r.took {
      TookOk(cfg, a, a', head);
    } else {
      StayedOk(cfg, a, a', head);
    }
  }

  lemma ClientSendClientCertificate(cfg: Config, c: Client, head: Option<Msg>, retry: bool, peerSecret: Option<Secret>)
    requires ClientReady(cfg, c, head, peerSecret) && c.state.SendClientCertificate?
    ensures ClientRanTo(cfg, c, head, OnSendClientCertificate(cfg, c, head, retry))
  {
    hide StepOk, ContentsOk, Kinds, Hs;
    hide EndOfServer, FromServerCcs, FromServerFinished, FinalFlight, EndOfClient, FromChannelId, FromNextProto;
    hide FromClientFinished, FromCertificateVerify, FromKeyExchange, FromServerHelloDone;
    hide FromCertificateRequest, FromServerKeyExchange, FromStatus, FromServerCertificate, FromServerHello;
    hide Script;
    var r := OnSendClientCertificate(cfg, c, head, retry);
    var a, a' := ClientEnd(cfg, c, []), ClientEnd(cfg, r.side, []);
    if r.sent != [] {
      SentOneOk(cfg, a, a', head, r.sent[0]);
    } else {
      StayedOk(cfg, a, a', head);
    }
  }

  lemma ClientSendClientKeyExchange(cfg: Config, c: Client, head: Option<Msg>, retry: bool, peerSecret: Option<Secret>)
    requires ClientReady(cfg, c, head, peerSecret) && c.state.SendClientKeyExchange?
    ensures ClientRanTo(cfg, c, head, OnSendClientKeyExchange(cfg, c, head, retry))
  {
    hide StepOk, ContentsOk, Kinds, Hs;
    hide EndOfServer, FromServerCcs, FromServerFinished, FinalFlight, EndOfClient, FromChannelId, FromNextProto;
    hide FromClientFinished, FromCertificateVerify, FromClientCertificate, FromServerHelloDone;
    hide FromCertificateRequest, FromServerKeyExchange, FromStatus, FromServerCertificate, FromServerHello;
    hide Script;
    var r := OnSendClientKeyExchange(cfg, c, head, retry);
    var a, a' := ClientEnd(cfg, c, []), ClientEnd(cfg, r.side, []);
    SentOneOk(cfg, a, a', head, r.sent[0]);
  }

  lemma ClientSendClientCertificateVerify(cfg: Config, c: Client, head: Option<Msg>, retry: bool,
                                          peerSecret: Option<Secret>)
    requires ClientReady(cfg, c, head, peerSecret) && c.state.SendClientCertificateVerify?
    ensures ClientRanTo(cfg, c, head, OnSendClientCertificateVerify(cfg, c, head, retry))
  {
    hide StepOk, ContentsOk, Kinds, Hs;
    hide EndOfServer, FromServerCcs, FromServerFinished, FinalFlight, EndOfClient, FromChannelId, FromNextProto;
    hide FromClientFinished, FromKeyExchange, FromClientCertificate, FromServerHelloDone;
    hide FromCertificateRequest, FromServerKeyExchange, FromStatus, FromServerCertificate, FromServerHello;
    hide Script;
    var r := OnSendClientCertificateVerify(cfg, c, head, retry);
    var a, a' := ClientEnd(cfg, c, []), ClientEnd(cfg, r.side, []);
    if r.sent != [] {
      SentOneOk(cfg, a, a', head, r.sent[0]);
    } else {
      StayedOk(cfg, a, a', head);
    }
  }

  /** Sending these takes the transcript from t to t', and the rest on by es. */
  ghost predicate Sends(cfg: Config, fromServer: bool, sent: seq<Msg>, es: seq<Expect>, t: seq<Msg>, t': seq<Msg>,
                        secret: Option<Secret>) {
    Kinds(fromServer, sent) == es && t' == t + Hs(sent) && ContentsOk(cfg, fromServer, sent, t, secret)
  }

  lemma SendsOne(cfg: Config, fromServer: bool, m: Msg, t: seq<Msg>, secret: Option<Secret>)
    requires ContentOk(cfg, fromServer, m, t, secret)
    ensures Sends(cfg, fromServer, [m], [Expect(fromServer, m.kind)], t,
                  if m.kind == ChangeCipherSpec then t else t + [m], secret)
  {
  }

  lemma SendsThen(cfg: Config, fromServer: bool, x: seq<Msg>, ex: seq<Expect>, t: seq<Msg>, t1: seq<Msg>, y: seq<Msg>,
                  ey: seq<Expect>, t2: seq<Msg>, secret: Option<Secret>)
    requires Sends(cfg, fromServer, x, ex, t, t1, secret) && Sends(cfg, fromServer, y, ey, t1, t2, secret)
    ensures Sends(cfg, fromServer, x + y, ex + ey, t, t2, secret)
  {
    HsConcat(x, y);
    ContentsConcat(cfg, fromServer, x, y, t, secret);
  }

  /** A message that is sent only if b. */
  lemma SendsIf(cfg: Config, fromServer: bool, b: bool, m: Msg, t: seq<Msg>, secret: Option<Secret>)
    requires b ==> ContentOk(cfg, fromServer, m, t, secret) && m.kind != ChangeCipherSpec
    ensures Sends(cfg, fromServer, if b then [m] else [], If(b, Expect(fromServer, m.kind)),
                  t, if b then t + [m] else t, secret)
  {
  }

  lemma SentOk(cfg: Config, a: End, a': End, head: Option<Msg>, sent: seq<Msg>, es: seq<Expect>)
    requires a'.isServer == a.isServer && (a.secret.None? || a'.secret == a.secret) && sent != []
    requires Sends(cfg, a.isServer, sent, es, a.transcript, a'.transcript, a'.secret) && a.rest == es + a'.rest
    ensures StepOk(cfg, a, a', head, sent, false)
  {
  }

  /** ChangeCipherSpec, the optional messages and Finished, as one flight. */
  lemma FinalFlightSends(cfg: Config, npn: bool, channelId: bool, t0: seq<Msg>, secret: Option<Secret>,
                         np: Msg, cid: Msg, fin: Msg)
    requires secret.Some? && np == Msg(NextProto, Plain(0))
    requires cid == Msg(ChannelId, Signed(t0 + if npn then [np] else []))
    requires fin == Msg(Finished, Mac(false, secret, t0 + (if npn then [np] else []) + if channelId then [cid] else []))
    ensures var s1, s2 := if npn then [np] else [], if channelId then [cid] else [];
            Sends(cfg, false, [Ccs()] + s1 + s2 + [fin],
                  [C(ChangeCipherSpec)] + If(npn, C(NextProto)) + If(channelId, C(ChannelId)) + [C(Finished)],
                  t0, t0 + s1 + s2 + [fin], secret)
  {
    hide ContentsOk, Kinds, Hs, Sends;
    var s1, s2 := if npn then [np] else [], if channelId then [cid] else [];
    var t1, t2 := t0 + s1, t0 + s1 + s2;
    assert t0 + [] == t0 && t1 + [] == t1;
    var e1, e2 := If(npn, C(NextProto)), If(channelId, C(ChannelId));
    SendsOne(cfg, false, Ccs(), t0, secret);
    SendsIf(cfg, false, npn, np, t0, secret);
    SendsIf(cfg, false, channelId, cid, t1, secret);
    SendsOne(cfg, false, fin, t2, secret);
    SendsThen(cfg, false, [Ccs()], [C(ChangeCipherSpec)], t0, t0, s1, e1, t1, secret);
    SendsThen(cfg, false, [Ccs()] + s1, [C(ChangeCipherSpec)] + e1, t0, t1, s2, e2, t2, secret);
    SendsThen(cfg, false, [Ccs()] + s1 + s2, [C(ChangeCipherSpec)] + e1 + e2, t0, t2,
              [fin], [C(Finished)], t2 + [fin], secret);
  }

  lemma UpdateHashed(t: Transcript, m: Msg)
    requires t.Valid()
    ensures t.Update(m).Valid() && t.Update(m).Hashed() == t.Hashed() + [m]
    ensures t.Update(m).buffer.Some? <==> t.buffer.Some?
    ensures t.Update(m).hash.Some? <==> t.hash.Some?
  {
  }

  lemma SendClientFinishedKeepsOk(cfg: Config, c: Client, head: Option<Msg>, retry: bool, peerSecret: Option<Secret>)
    requires ClientReady(cfg, c, head, peerSecret) && c.state.SendClientFinished?
    ensures ClientOk(cfg, OnSendClientFinished(cfg, c, head, retry).side)
  {
  }

  lemma ClientSendClientFinished(cfg: Config, c: Client, head: Option<Msg>, retry: bool, peerSecret: Option<Secret>)
    requires ClientReady(cfg, c, head, peerSecret) && c.state.SendClientFinished?
    ensures ClientRanTo(cfg, c, head, OnSendClientFinished(cfg, c, head, retry))
  {
    SendClientFinishedKeepsOk(cfg, c, head, retry, peerSecret);
    hide Script, FromServerHello, FromServerCertificate, FromStatus, FromServerKeyExchange, FromCertificateRequest;
    hide FromServerHelloDone, FromClientCertificate, FromKeyExchange, FromCertificateVerify, FromNextProto;
    hide FromChannelId, FromServerCcs, EndOfServer, EndOfClient;
    var p, t0 := c.params, c.t.Hashed();
    var np := Msg(NextProto, Plain(0));
    var s1 := if p.npn then [np] else [];
    var cid := Msg(ChannelId, Signed(t0 + s1));
    var s2 := if p.channelId then [cid] else [];
    var fin := Msg(Finished, Mac(false, c.secret, t0 + s1 + s2));
    var r := OnSendClientFinished(cfg, c, head, retry);
    var a, a' := ClientEnd(cfg, c, []), ClientEnd(cfg, r.side, []);
    assert c.params == ParamsOf(cfg) && c.secret.Some? && c.t.Valid();
    hide ClientOk, StepOk, ContentsOk, Kinds, Hs, Sends, FromServerFinished, Transcript.Update, Transcript.Valid;
    hide Transcript.Hashed, HeadOk;
    if r.sent == [] {
      StayedOk(cfg, a, a', head);
    } else {
      UpdateHashed(c.t, np);
      var u := if p.npn then c.t.Update(np) else c.t;
      assert t0 + [] == t0 && u.Hashed() == t0 + s1;
      UpdateHashed(u, cid);
      var v := if p.channelId then u.Update(cid) else u;
      assert t0 + s1 + [] == t0 + s1 && v.Hashed() == t0 + s1 + s2;
      UpdateHashed(v, fin);
      FinalFlightSends(cfg, p.npn, p.channelId, t0, c.secret, np, cid, fin);
      assert r.sent == [Ccs()] + s1 + s2 + [fin] && r.side.t == v.Update(fin);
      FinalFlightRest(cfg);
      SentOk(cfg, a, a', head, r.sent, FinalFlight(cfg));
    }
  }

  lemma FinalFlightRest(cfg: Config)
    ensures FromClientFinished(cfg) == FinalFlight(cfg) + if Resumed(cfg) then [] else FromServerFinished(cfg)
  {
  }

  lemma ClientFinishFlight(cfg: Config, c: Client, head: Option<Msg>, retry: bool, peerSecret: Option<Secret>)
    requires ClientReady(cfg, c, head, peerSecret) && c.state.FinishFlight?
    ensures ClientRanTo(cfg, c, head, OnFinishFlight(cfg, c, head, retry))
  {
    hide StepOk, ContentsOk, Kinds, Hs;
    hide EndOfServer, FromServerCcs, FromServerFinished, FinalFlight, EndOfClient, FromChannelId, FromNextProto;
    hide FromClientFinished, FromCertificateVerify, FromKeyExchange, FromClientCertificate, FromServerHelloDone;
    hide FromCertificateRequest, FromServerKeyExchange, FromStatus, FromServerCertificate, FromServerHello;
    hide Script;
    var r := OnFinishFlight(cfg, c, head, retry);
    var a, a' := ClientEnd(cfg, c, []), ClientEnd(cfg, r.side, []);
    StayedOk(cfg, a, a', head);
  }

  lemma ClientReadSessionTicket(cfg: Config, c: Client, head: Option<Msg>, retry: bool, peerSecret: Option<Secret>)
    requires ClientReady(cfg, c, head, peerSecret) && c.state.ReadSessionTicket?
    ensures ClientRanTo(cfg, c, head, OnReadSessionTicket(cfg, c, head, retry))
  {
    hide ClientOk, ClientRest, SendsSke, FromServerKeyExchange, FromCertificateRequest, FromStatus, EndOfClient;
    hide FromClientCertificate, Transcript.Hashed, FromChannelId, EndOfServer, StepOk, ContentsOk, Kinds, Hs;
    hide Transcript.Update, Transcript.Valid, FromServerCcs, FinalFlight, FromNextProto, FromClientFinished;
    hide FromCertificateVerify, FromKeyExchange, FromServerHelloDone, FromServerCertificate, FromServerHello, Script;
    var r := OnReadSessionTicket(cfg, c, head, retry);
    ClientLateOk(cfg, c);
    if head.Some? {
      UpdateHashed(c.t, head.value);
    }
    ClientRestIs(cfg, c.wantCcs);
    ClientRestIs(cfg, r.side.wantCcs);
    var a, a' := ClientEnd(cfg, c, []), ClientEnd(cfg, r.side, []);
    if !r.side.state.CFailed? {
      ClientLateOk(cfg, r.side);
    }
    if r.took {
      TookOk(cfg, a, a', head);
    } else {
      StayedOk(cfg, a, a', head);
    }
  }

  lemma ClientCProcessChangeCipherSpec(cfg: Config, c: Client, head: Option<Msg>, retry: bool,
                                       peerSecret: Option<Secret>)
    requires ClientReady(cfg, c, head, peerSecret) && c.state.CProcessChangeCipherSpec?
    ensures ClientRanTo(cfg, c, head, OnCProcessChangeCipherSpec(cfg, c, head, retry))
  {
    hide ClientOk, ClientRest, SendsSke;
    hide StepOk, ContentsOk, Kinds, Hs;
    hide FromServerFinished, FinalFlight, EndOfClient, FromChannelId, FromNextProto, FromClientFinished;
    hide FromCertificateVerify, FromKeyExchange, FromClientCertificate, FromServerHelloDone;
    hide FromCertificateRequest, FromServerKeyExchange, FromStatus, FromServerCertificate, FromServerHello;
    hide Script;
    var r := OnCProcessChangeCipherSpec(cfg, c, head, retry);
    ClientLateOk(cfg, c);
    ClientRestIs(cfg, c.wantCcs);
    ClientRestIs(cfg, r.side.wantCcs);
    var a, a' := ClientEnd(cfg, c, []), ClientEnd(cfg, r.side, []);
    if !r.side.state.CFailed? {
      ClientLateOk(cfg, r.side);
    }
    if r.took {
      TookOk(cfg, a, a', head);
    } else {
      StayedOk(cfg, a, a', head);
    }
  }

  lemma ServerFinishedStep(cfg: Config, c: Client, head: Option<Msg>, retry: bool)
    requires c.state.ReadServerFinished?
    ensures OnReadServerFinished(cfg, c, head, retry) ==
            if head.None? then Stay(c) else if Unreadable(head) then FailC(c) else ReadsServerFinished(c, head.value)
  {
  }

  /** The Finished that arrives is over the client's own transcript, under its own secret. */
  lemma ReadsGoodFinished(cfg: Config, c: Client, m: Msg, peerSecret: Option<Secret>)
    requires ClientReady(cfg, c, Some(m), peerSecret) && c.state.ReadServerFinished?
    ensures m.kind == Finished && m.content == Mac(true, c.secret, c.t.Hashed())
  {
  }

  lemma ClientReadServerFinished(cfg: Config, c: Client, head: Option<Msg>, retry: bool, peerSecret: Option<Secret>)
    requires ClientReady(cfg, c, head, peerSecret) && c.state.ReadServerFinished?
    ensures ClientRanTo(cfg, c, head, OnReadServerFinished(cfg, c, head, retry))
  {
    hide StepOk, ContentsOk, Kinds, Hs, HeadOk, FinalFlight, FromNextProto;
    ServerFinishedStep(cfg, c, head, retry);
    FinalFlightRest(cfg);
    var r := OnReadServerFinished(cfg, c, head, retry);
    var a, a' := ClientEnd(cfg, c, []), ClientEnd(cfg, r.side, []);
    if head.None? {
      StayedOk(cfg, a, a', head);
    } else {
      ReadsGoodFinished(cfg, c, head.value, peerSecret);
      UpdateHashed(c.t, head.value);
      hide Transcript.Update, Transcript.Valid, Transcript.Hashed;
      assert a.rest == [S(Finished)] + a'.rest;
      TookOk(cfg, a, a', head);
    }
  }

  lemma ClientFinishClientHandshake(cfg: Config, c: Client, head: Option<Msg>, retry: bool, peerSecret: Option<Secret>)
    requires ClientReady(cfg, c, head, peerSecret) && c.state.FinishClientHandshake?
    ensures ClientRanTo(cfg, c, head, OnFinishClientHandshake(cfg, c, head, retry))
  {
    hide StepOk, ContentsOk, Kinds, Hs;
    hide EndOfServer, FromServerCcs, FromServerFinished, FinalFlight, EndOfClient, FromChannelId, FromNextProto;
    hide FromClientFinished, FromCertificateVerify, FromKeyExchange, FromClientCertificate, FromServerHelloDone;
    hide FromCertificateRequest, FromServerKeyExchange, FromStatus, FromServerCertificate, FromServerHello;
    hide Script;
    var r := OnFinishClientHandshake(cfg, c, head, retry);
    var a, a' := ClientEnd(cfg, c, []), ClientEnd(cfg, r.side, []);
    StayedOk(cfg, a, a', head);
  }

  lemma ClientCDone(cfg: Config, c: Client, head: Option<Msg>, retry: bool, peerSecret: Option<Secret>)
    requires ClientReady(cfg, c, head, peerSecret) && c.state.CDone?
    ensures ClientRan(cfg, c, head, retry)
  {
  }


  ghost predicate ServerReady(cfg: Config, s: Server, head: Option<Msg>, peerSecret: Option<Secret>) {
    ConfigOk(cfg) && ServerOk(cfg, s) && HeadOk(cfg, ServerEnd(cfg, s, []), head, peerSecret)
  }

  /** Step r of s keeps it as it should be, and to the script. */
  ghost predicate ServerRanTo(cfg: Config, s: Server, head: Option<Msg>, r: Moved<Server>) {
    && ServerOk(cfg, r.side)
    && StepOk(cfg, ServerEnd(cfg, s, []), ServerEnd(cfg, r.side, []), head, r.sent, r.took)
  }

  ghost predicate ServerRan(cfg: Config, s: Server, head: Option<Msg>, retry: bool) {
    ServerRanTo(cfg, s, head, ServerStep(cfg, s, head, retry))
  }

  lemma ServerStartAccept(cfg: Config, s: Server, head: Option<Msg>, retry: bool, peerSecret: Option<Secret>)
    requires ServerReady(cfg, s, head, peerSecret) && s.state.StartAccept?
    ensures ServerRanTo(cfg, s, head, OnStartAccept(cfg, s, head, retry))
  {
    hide StepOk, ContentsOk, Kinds, Hs;
    hide EndOfServer, FromServerCcs, FromServerFinished, FinalFlight, EndOfClient, FromChannelId, FromNextProto;
    hide FromClientFinished, FromCertificateVerify, FromKeyExchange, FromClientCertificate, FromServerHelloDone;
    hide FromCertificateRequest, FromServerKeyExchange, FromStatus, FromServerCertificate, FromServerHello;
    hide Script;
    var r := OnStartAccept(cfg, s, head, retry);
    var a, a' := ServerEnd(cfg, s, []), ServerEnd(cfg, r.side, []);
    StayedOk(cfg, a, a', head);
  }

  lemma ServerReadClientHello(cfg: Config, s: Server, head: Option<Msg>, retry: bool, peerSecret: Option<Secret>)
    requires ServerReady(cfg, s, head, peerSecret) && s.state.ReadClientHello?
    ensures ServerRanTo(cfg, s, head, OnReadClientHello(cfg, s, head, retry))
  {
    hide StepOk, ContentsOk, Kinds, Hs;
    hide EndOfServer, FromServerCcs, FromServerFinished, FinalFlight, EndOfClient, FromChannelId, FromNextProto;
    hide FromClientFinished, FromCertificateVerify, FromKeyExchange, FromClientCertificate, FromServerHelloDone;
    hide FromCertificateRequest, FromServerKeyExchange, FromStatus, FromServerCertificate, FromServerHello;
    var r := OnReadClientHello(cfg, s, head, retry);
    var a, a' := ServerEnd(cfg, s, []), ServerEnd(cfg, r.side, []);
    StayedOk(cfg, a, a', head);
  }

  lemma ServerSelectCertificate(cfg: Config, s: Server, head: Option<Msg>, retry: bool, peerSecret: Option<Secret>)
    requires ServerReady(cfg, s, head, peerSecret) && s.state.SelectCertificate?
    ensures ServerRanTo(cfg, s, head, OnSelectCertificate(cfg, s, head, retry))
  {
    hide StepOk, ContentsOk, Kinds, Hs;
    hide EndOfServer, FromServerCcs, FromServerFinished, FinalFlight, EndOfClient, FromChannelId, FromNextProto;
    hide FromClientFinished, FromCertificateVerify, FromKeyExchange, FromClientCertificate, FromServerHelloDone;
    hide FromCertificateRequest, FromServerKeyExchange, FromStatus, FromServerCertificate, FromServerHello;
    hide Script;
    var r := OnSelectCertificate(cfg, s, head, retry);
    var a, a' := ServerEnd(cfg, s, []), ServerEnd(cfg, r.side, []);
    StayedOk(cfg, a, a', head);
  }

  lemma ServerSelectParameters(cfg: Config, s: Server, head: Option<Msg>, retry: bool, peerSecret: Option<Secret>)
    requires ServerReady(cfg, s, head, peerSecret) && s.state.SelectParameters?
    ensures ServerRanTo(cfg, s, head, OnSelectParameters(cfg, s, head, retry))
  {
    hide StepOk, ContentsOk, Kinds, Hs;
    hide EndOfServer, FromServerCcs, FromServerFinished, FinalFlight, EndOfClient, FromChannelId, FromNextProto;
    hide FromClientFinished, FromCertificateVerify, FromKeyExchange, FromClientCertificate, FromServerHelloDone;
    hide FromCertificateRequest, FromServerKeyExchange, FromStatus, FromServerCertificate, FromServerHello;
    var r := OnSelectParameters(cfg, s, head, retry);
    var a, a' := ServerEnd(cfg, s, []), ServerEnd(cfg, r.side, []);
    if r.took {
      TookOk(cfg, a, a', head);
    } else {
      StayedOk(cfg, a, a', head);
    }
  }

  lemma ServerSendServerHello(cfg: Config, s: Server, head: Option<Msg>, retry: bool, peerSecret: Option<Secret>)
    requires ServerReady(cfg, s, head, peerSecret) && s.state.SendServerHello?
    ensures ServerRanTo(cfg, s, head, OnSendServerHello(cfg, s, head, retry))
  {
    hide StepOk, ContentsOk, Kinds, Hs;
    hide EndOfServer, FromServerCcs, FromServerFinished, FinalFlight, EndOfClient, FromChannelId, FromNextProto;
    hide FromClientFinished, FromCertificateVerify, FromKeyExchange, FromClientCertificate, FromServerHelloDone;
    hide FromCertificateRequest, FromServerKeyExchange, FromStatus, FromServerCertificate, Script;
    var r := OnSendServerHello(cfg, s, head, retry);
    var a, a' := ServerEnd(cfg, s, []), ServerEnd(cfg, r.side, []);
    SentOneOk(cfg, a, a', head, r.sent[0]);
  }

  lemma SendServerCertificateKeepsOk(cfg: Config, s: Server, head: Option<Msg>, retry: bool, peerSecret: Option<Secret>)
    requires ServerReady(cfg, s, head, peerSecret) && s.state.SendServerCertificate?
    ensures ServerOk(cfg, OnSendServerCertificate(cfg, s, head, retry).side)
  {
  }

  lemma CertificateStep(cfg: Config, s: Server, head: Option<Msg>, retry: bool)
    requires s.state.SendServerCertificate?
    ensures OnSendServerCertificate(cfg, s, head, retry) == SendsServerCertificate(cfg, s)
  {
  }

  lemma ServerSendServerCertificate(cfg: Config, s: Server, head: Option<Msg>, retry: bool, peerSecret: Option<Secret>)
    requires ServerReady(cfg, s, head, peerSecret) && s.state.SendServerCertificate?
    ensures ServerRanTo(cfg, s, head, OnSendServerCertificate(cfg, s, head, retry))
  {
    SendServerCertificateKeepsOk(cfg, s, head, retry, peerSecret);
    assert s.params == ParamsOf(cfg) && s.t.Valid();
    hide SendsServerCertificate, ServerOk, HeadOk, ServerReady, StepOk, ContentsOk, Kinds, Hs, Sends, ConfigOk;
    hide Transcript.Hashed, Transcript.Valid;
    CertificateStep(cfg, s, head, retry);
    CertificateSends(cfg, s);
    CertificateRest(cfg);
    var r := SendsServerCertificate(cfg, s);
    var a, a' := ServerEnd(cfg, s, []), ServerEnd(cfg, r.side, []);
    var es := If(cfg.certAuth, S(Certificate)) + If(s.params.status, S(CertificateStatus));
    if r.sent == [] {
      SendsNone(cfg, es, s.t.Hashed(), r.side.t.Hashed(), s.secret);
      assert a'.rest == a.rest;
      StayedOk(cfg, a, a', head);
    } else {
      SentOk(cfg, a, a', head, r.sent, es);
    }
  }

  lemma SendsNone(cfg: Config, es: seq<Expect>, t: seq<Msg>, t': seq<Msg>, secret: Option<Secret>)
    requires Sends(cfg, true, [], es, t, t', secret)
    ensures es == [] && t' == t
  {
  }

  lemma CertificateRest(cfg: Config)
    ensures FromServerCertificate(cfg) ==
            If(cfg.certAuth, S(Certificate)) + If(ParamsOf(cfg).status, S(CertificateStatus))
            + FromServerKeyExchange(cfg)
  {
  }

  lemma CertificateSends(cfg: Config, s: Server)
    requires s.params == ParamsOf(cfg) && s.t.Valid()
    ensures var r := SendsServerCertificate(cfg, s);
            && Sends(cfg, true, r.sent, If(cfg.certAuth, S(Certificate)) + If(s.params.status, S(CertificateStatus)),
                     s.t.Hashed(), r.side.t.Hashed(), s.secret)
            && r.side.secret == s.secret && r.side.state == SendServerKeyExchange && !r.took
            && r.side.wantCcs == s.wantCcs
  {
    var p, t0 := s.params, s.t.Hashed();
    var cert, status := Msg(Certificate, Chain(true)), Msg(CertificateStatus, Plain(0));
    var t1 := if p.certAuth then t0 + [cert] else t0;
    var t2 := if p.status then t1 + [status] else t1;
    var s1, s2 := if p.certAuth then [cert] else [], if p.status then [status] else [];
    var e1, e2 := If(cfg.certAuth, S(Certificate)), If(p.status, S(CertificateStatus));
    hide ContentsOk, Kinds, Hs, Sends, Transcript.Update, Transcript.Valid, Transcript.Hashed;
    UpdateHashed(s.t, cert);
    var u := if p.certAuth then s.t.Update(cert) else s.t;
    UpdateHashed(u, status);
    SendsIf(cfg, true, p.certAuth, cert, t0, s.secret);
    SendsIf(cfg, true, p.status, status, t1, s.secret);
    SendsThen(cfg, true, s1, e1, t0, t1, s2, e2, t2, s.secret);
  }

  lemma ServerSendServerKeyExchange(cfg: Config, s: Server, head: Option<Msg>, retry: bool, peerSecret: Option<Secret>)
    requires ServerReady(cfg, s, head, peerSecret) && s.state.SendServerKeyExchange?
    ensures ServerRanTo(cfg, s, head, OnSendServerKeyExchange(cfg, s, head, retry))
  {
    hide StepOk, ContentsOk, Kinds, Hs;
    hide EndOfServer, FromServerCcs, FromServerFinished, FinalFlight, EndOfClient, FromChannelId, FromNextProto;
    hide FromClientFinished, FromCertificateVerify, FromKeyExchange, FromClientCertificate, FromServerHelloDone;
    hide FromCertificateRequest, FromStatus, FromServerCertificate, FromServerHello, Script;
    var r := OnSendServerKeyExchange(cfg, s, head, retry);
    var a, a' := ServerEnd(cfg, s, []), ServerEnd(cfg, r.side, []);
    if r.sent != [] {
      SentOneOk(cfg, a, a', head, r.sent[0]);
    } else {
      StayedOk(cfg, a, a', head);
    }
  }

  lemma HelloDoneStep(s: Server)
    requires s.t.Valid() && s.t.hash.Some?
    ensures var r, hd := SendsServerHelloDone(s), Msg(ServerHelloDone, Plain(0));
            var s1 := if s.certRequest then [Msg(CertificateRequest, Plain(0))] else [];
            && r == Moved(s.(state := ReadClientCertificate, t := r.side.t), s1 + [hd], false)
            && r.side.t.Hashed() == s.t.Hashed() + s1 + [hd]
            && r.side.t.Valid() && r.side.t.hash.Some? && (s.t.buffer.Some? ==> r.side.t.buffer.Some?)
  {
  }

  lemma HelloDoneRest(cfg: Config)
    ensures FromCertificateRequest(cfg) ==
            If(WantsCert(cfg), S(CertificateRequest)) + [S(ServerHelloDone)] + FromClientCertificate(cfg)
  {
    hide FromClientCertificate, WantsCert;
  }

  lemma HelloDoneSends(cfg: Config, asks: bool, t0: seq<Msg>, secret: Option<Secret>)
    ensures var s1 := if asks then [Msg(CertificateRequest, Plain(0))] else [];
            var hd := Msg(ServerHelloDone, Plain(0));
            Sends(cfg, true, s1 + [hd], If(asks, S(CertificateRequest)) + [S(ServerHelloDone)],
                  t0, t0 + s1 + [hd], secret)
  {
    hide Sends;
    var request, hd := Msg(CertificateRequest, Plain(0)), Msg(ServerHelloDone, Plain(0));
    var t1, s1 := if asks then t0 + [request] else t0, if asks then [request] else [];
    SendsIf(cfg, true, asks, request, t0, secret);
    SendsOne(cfg, true, hd, t1, secret);
    SendsThen(cfg, true, s1, If(asks, S(CertificateRequest)), t0, t1, [hd], [S(ServerHelloDone)], t1 + [hd], secret);
    assert t0 + s1 == t1;
  }

  lemma ServerSendServerHelloDone(cfg: Config, s: Server, head: Option<Msg>, retry: bool, peerSecret: Option<Secret>)
    requires ServerReady(cfg, s, head, peerSecret) && s.state.SendServerHelloDone?
    ensures ServerRanTo(cfg, s, head, OnSendServerHelloDone(cfg, s, head, retry))
  {
    hide ServerRest, SendsSke, SendsServerHelloDone, StepOk, Sends, If, Transcript.Hashed, Transcript.Valid, WantsCert;
    hide FromClientCertificate, FromCertificateRequest;
    var r := OnSendServerHelloDone(cfg, s, head, retry);
    ServerRestIs(cfg, s.wantCcs);
    var a, a' := ServerEnd(cfg, s, []), ServerEnd(cfg, r.side, []);
    HelloDoneStep(s);
    HelloDoneRest(cfg);
    HelloDoneSends(cfg, s.certRequest, s.t.Hashed(), s.secret);
    SentOk(cfg, a, a', head, r.sent, If(s.certRequest, S(CertificateRequest)) + [S(ServerHelloDone)]);
  }

  lemma ServerReadClientCertificate(cfg: Config, s: Server, head: Option<Msg>, retry: bool, peerSecret: Option<Secret>)
    requires ServerReady(cfg, s, head, peerSecret) && s.state.ReadClientCertificate?
    ensures ServerRanTo(cfg, s, head, OnReadClientCertificate(cfg, s, head, retry))
  {
    hide StepOk, ContentsOk, Kinds, Hs, EndOfServer, FromServerCcs, FromServerFinished, FinalFlight, EndOfClient;
    hide FromChannelId, FromNextProto, FromClientFinished, FromCertificateVerify, FromKeyExchange;
    hide FromServerHelloDone, FromCertificateRequest, FromServerKeyExchange, FromStatus, FromServerCertificate;
    hide FromServerHello, Script;
    var r := OnReadClientCertificate(cfg, s, head, retry);
    var a, a' := ServerEnd(cfg, s, []), ServerEnd(cfg, r.side, []);
    if r.took {
      TookOk(cfg, a, a', head);
    } else {
      StayedOk(cfg, a, a', head);
    }
  }

  lemma ServerVerifyClientCertificate(cfg: Config, s: Server, head: Option<Msg>, retry: bool,
                                      peerSecret: Option<Secret>)
    requires ServerReady(cfg, s, head, peerSecret) && s.state.VerifyClientCertificate?
    ensures ServerRanTo(cfg, s, head, OnVerifyClientCertificate(cfg, s, head, retry))
  {
    hide StepOk, ContentsOk, Kinds, Hs;
    hide EndOfServer, FromServerCcs, FromServerFinished, FinalFlight, EndOfClient, FromChannelId, FromNextProto;
    hide FromClientFinished, FromCertificateVerify, FromKeyExchange, FromClientCertificate, FromServerHelloDone;
    hide FromCertificateRequest, FromServerKeyExchange, FromStatus, FromServerCertificate, FromServerHello;
    hide Script;
    var r := OnVerifyClientCertificate(cfg, s, head, retry);
    var a, a' := ServerEnd(cfg, s, []), ServerEnd(cfg, r.side, []);
    StayedOk(cfg, a, a', head);
  }

  lemma ServerReadClientKeyExchange(cfg: Config, s: Server, head: Option<Msg>, retry: bool, peerSecret: Option<Secret>)
    requires ServerReady(cfg, s, head, peerSecret) && s.state.ReadClientKeyExchange?
    ensures ServerRanTo(cfg, s, head, OnReadClientKeyExchange(cfg, s, head, retry))
  {
    hide StepOk, ContentsOk, Kinds, Hs;
    hide EndOfServer, FromServerCcs, FromServerFinished, FinalFlight, EndOfClient, FromChannelId, FromNextProto;
    hide FromClientFinished, FromCertificateVerify, FromClientCertificate, FromServerHelloDone;
    hide FromCertificateRequest, FromServerKeyExchange, FromStatus, FromServerCertificate, FromServerHello;
    hide Script;
    var r := OnReadClientKeyExchange(cfg, s, head, retry);
    var a, a' := ServerEnd(cfg, s, []), ServerEnd(cfg, r.side, []);
    if r.took {
      TookOk(cfg, a, a', head);
    } else {
      StayedOk(cfg, a, a', head);
    }
  }

  lemma ServerReadClientCertificateVerify(cfg: Config, s: Server, head: Option<Msg>, retry: bool,
                                          peerSecret: Option<Secret>)
    requires ServerReady(cfg, s, head, peerSecret) && s.state.ReadClientCertificateVerify?
    ensures ServerRanTo(cfg, s, head, OnReadClientCertificateVerify(cfg, s, head, retry))
  {
    hide StepOk, ContentsOk, Kinds, Hs;
    hide EndOfServer, FromServerCcs, FromServerFinished, FinalFlight, EndOfClient, FromChannelId, FromNextProto;
    hide FromClientFinished, FromKeyExchange, FromClientCertificate, FromServerHelloDone;
    hide FromCertificateRequest, FromServerKeyExchange, FromStatus, FromServerCertificate, FromServerHello;
    hide Script;
    var r := OnReadClientCertificateVerify(cfg, s, head, retry);
    var a, a' := ServerEnd(cfg, s, []), ServerEnd(cfg, r.side, []);
    if r.took {
      TookOk(cfg, a, a', head);
    } else {
      StayedOk(cfg, a, a', head);
    }
  }

  lemma ServerReadChangeCipherSpec(cfg: Config, s: Server, head: Option<Msg>, retry: bool, peerSecret: Option<Secret>)
    requires ServerReady(cfg, s, head, peerSecret) && s.state.ReadChangeCipherSpec?
    ensures ServerRanTo(cfg, s, head, OnReadChangeCipherSpec(cfg, s, head, retry))
  {
    hide StepOk, ContentsOk, Kinds, Hs;
    hide EndOfServer, FromServerCcs, FromServerFinished, FinalFlight, EndOfClient, FromChannelId, FromNextProto;
    hide FromClientFinished, FromCertificateVerify, FromKeyExchange, FromClientCertificate, FromServerHelloDone;
    hide FromCertificateRequest, FromServerKeyExchange, FromStatus, FromServerCertificate, FromServerHello;
    hide Script;
    var r := OnReadChangeCipherSpec(cfg, s, head, retry);
    var a, a' := ServerEnd(cfg, s, []), ServerEnd(cfg, r.side, []);
    StayedOk(cfg, a, a', head);
  }

  lemma ServerSProcessChangeCipherSpec(cfg: Config, s: Server, head: Option<Msg>, retry: bool,
                                       peerSecret: Option<Secret>)
    requires ServerReady(cfg, s, head, peerSecret) && s.state.SProcessChangeCipherSpec?
    ensures ServerRanTo(cfg, s, head, OnSProcessChangeCipherSpec(cfg, s, head, retry))
  {
    hide ServerOk, ServerRest, SendsSke;
    hide StepOk, ContentsOk, Kinds, Hs;
    hide EndOfServer, FromServerCcs, FromServerFinished, FinalFlight, EndOfClient, FromChannelId, FromNextProto;
    hide FromCertificateVerify, FromKeyExchange, FromClientCertificate, FromServerHelloDone;
    hide FromCertificateRequest, FromServerKeyExchange, FromStatus, FromServerCertificate, FromServerHello;
    hide Script;
    var r := OnSProcessChangeCipherSpec(cfg, s, head, retry);
    ServerLateOk(cfg, s);
    ServerRestIs(cfg, s.wantCcs);
    ServerRestIs(cfg, r.side.wantCcs);
    var a, a' := ServerEnd(cfg, s, []), ServerEnd(cfg, r.side, []);
    if !r.side.state.SFailed? {
      ServerLateOk(cfg, r.side);
    }
    if r.took {
      TookOk(cfg, a, a', head);
    } else {
      StayedOk(cfg, a, a', head);
    }
  }

  lemma ServerReadNextProto(cfg: Config, s: Server, head: Option<Msg>, retry: bool, peerSecret: Option<Secret>)
    requires ServerReady(cfg, s, head, peerSecret) && s.state.ReadNextProto?
    ensures ServerRanTo(cfg, s, head, OnReadNextProto(cfg, s, head, retry))
  {
    hide ServerOk, ServerRest, SendsSke, StepOk, ContentsOk, Kinds, Hs, EndOfServer, FromServerCcs;
    hide FromServerFinished, FinalFlight, EndOfClient, FromChannelId, FromClientFinished, FromCertificateVerify;
    hide FromKeyExchange, FromClientCertificate, FromServerHelloDone, FromCertificateRequest, FromServerKeyExchange;
    hide FromStatus, FromServerCertificate, FromServerHello, Script;
    var r := OnReadNextProto(cfg, s, head, retry);
    ServerLateOk(cfg, s);
    ServerRestIs(cfg, s.wantCcs);
    ServerRestIs(cfg, r.side.wantCcs);
    var a, a' := ServerEnd(cfg, s, []), ServerEnd(cfg, r.side, []);
    if !r.side.state.SFailed? {
      ServerLateOk(cfg, r.side);
    }
    if r.took {
      TookOk(cfg, a, a', head);
    } else {
      StayedOk(cfg, a, a', head);
    }
  }

  lemma ServerReadChannelId(cfg: Config, s: Server, head: Option<Msg>, retry: bool, peerSecret: Option<Secret>)
    requires ServerReady(cfg, s, head, peerSecret) && s.state.ReadChannelId?
    ensures ServerRanTo(cfg, s, head, OnReadChannelId(cfg, s, head, retry))
  {
    hide ServerOk, ServerRest, SendsSke, StepOk, ContentsOk, Kinds, Hs, EndOfServer, FromServerCcs;
    hide FromServerFinished, FinalFlight, EndOfClient, FromNextProto, FromClientFinished, FromCertificateVerify;
    hide FromKeyExchange, FromClientCertificate, FromServerHelloDone, FromCertificateRequest, FromServerKeyExchange;
    hide FromStatus, FromServerCertificate, FromServerHello, Script;
    var r := OnReadChannelId(cfg, s, head, retry);
    ServerLateOk(cfg, s);
    ServerRestIs(cfg, s.wantCcs);
    ServerRestIs(cfg, r.side.wantCcs);
    var a, a' := ServerEnd(cfg, s, []), ServerEnd(cfg, r.side, []);
    if !r.side.state.SFailed? {
      ServerLateOk(cfg, r.side);
    }
    if r.took {
      TookOk(cfg, a, a', head);
    } else {
      StayedOk(cfg, a, a', head);
    }
  }

  lemma ReadClientFinishedKeepsOk(cfg: Config, s: Server, head: Option<Msg>, retry: bool, peerSecret: Option<Secret>)
    requires ServerReady(cfg, s, head, peerSecret) && s.state.ReadClientFinished?
    ensures ServerOk(cfg, OnReadClientFinished(cfg, s, head, retry).side)
  {
    hide ServerOk, WantsCert, ParamsOf, Transcript.Update, Transcript.Hashed;
    hide FromServerFinished;
    ServerLateOk(cfg, s);
    if head.Some? {
      UpdateHashed(s.t, head.value);
      ReadsGoodClientFinished(cfg, s, head.value, peerSecret);
      ServerLateOk(cfg, OnReadClientFinished(cfg, s, head, retry).side);
    }
  }

  lemma ClientFinishedStep(cfg: Config, s: Server, head: Option<Msg>, retry: bool)
    requires s.state.ReadClientFinished?
    ensures OnReadClientFinished(cfg, s, head, retry) ==
            if head.None? then Stay(s) else if Unreadable(head) then FailS(s) else ReadsClientFinished(s, head.value)
  {
  }

  /** The Finished that arrives is over the server's own transcript, under its own secret. */
  lemma ReadsGoodClientFinished(cfg: Config, s: Server, m: Msg, peerSecret: Option<Secret>)
    requires ServerReady(cfg, s, Some(m), peerSecret) && s.state.ReadClientFinished?
    ensures m.kind == Finished && m.content == Mac(false, s.secret, s.t.Hashed())
  {
  }

  lemma ServerReadClientFinished(cfg: Config, s: Server, head: Option<Msg>, retry: bool, peerSecret: Option<Secret>)
    requires ServerReady(cfg, s, head, peerSecret) && s.state.ReadClientFinished?
    ensures ServerRanTo(cfg, s, head, OnReadClientFinished(cfg, s, head, retry))
  {
    hide ServerRest, StepOk, ContentsOk, Kinds, Hs, FromServerFinished, ServerOk, WantsCert, OnReadClientFinished;
    hide Transcript.Update, Transcript.Hashed;
    ServerLateOk(cfg, s);
    ServerRestIs(cfg, s.wantCcs);
    ParamsSayResumed(cfg);
    ReadClientFinishedKeepsOk(cfg, s, head, retry, peerSecret);
    ClientFinishedStep(cfg, s, head, retry);
    var r := OnReadClientFinished(cfg, s, head, retry);
    var a, a' := ServerEnd(cfg, s, []), ServerEnd(cfg, r.side, []);
    if head.None? {
      StayedOk(cfg, a, a', head);
    } else {
      ReadsGoodClientFinished(cfg, s, head.value, peerSecret);
      UpdateHashed(s.t, head.value);
      assert a.rest == [C(Finished)] + a'.rest;
      TookOk(cfg, a, a', head);
    }
  }

  lemma ServerFinishedSends(cfg: Config, ticket: bool, t0: seq<Msg>, secret: Option<Secret>, nst: Msg, fin: Msg)
    requires secret.Some? && nst == Msg(NewSessionTicket, Plain(0))
    requires fin == Msg(Finished, Mac(true, secret, t0 + if ticket then [nst] else []))
    ensures var s1 := if ticket then [nst] else [];
            Sends(cfg, true, s1 + [Ccs()] + [fin],
                  If(ticket, S(NewSessionTicket)) + [S(ChangeCipherSpec)] + [S(Finished)],
                  t0, t0 + s1 + [fin], secret)
  {
    hide ContentsOk, Kinds, Hs, Sends;
    var s1, e1 := if ticket then [nst] else [], If(ticket, S(NewSessionTicket));
    var t1 := t0 + s1;
    assert t0 + [] == t0;
    SendsIf(cfg, true, ticket, nst, t0, secret);
    SendsOne(cfg, true, Ccs(), t1, secret);
    SendsOne(cfg, true, fin, t1, secret);
    SendsThen(cfg, true, s1, e1, t0, t1, [Ccs()], [S(ChangeCipherSpec)], t1, secret);
    SendsThen(cfg, true, s1 + [Ccs()], e1 + [S(ChangeCipherSpec)], t0, t1, [fin], [S(Finished)], t1 + [fin], secret);
  }

  lemma ServerSendServerFinished(cfg: Config, s: Server, head: Option<Msg>, retry: bool, peerSecret: Option<Secret>)
    requires ServerReady(cfg, s, head, peerSecret) && s.state.SendServerFinished?
    ensures ServerRanTo(cfg, s, head, OnSendServerFinished(cfg, s, head, retry))
  {
    var r := OnSendServerFinished(cfg, s, head, retry);
    var a, a' := ServerEnd(cfg, s, []), ServerEnd(cfg, r.side, []);
    var t0, nst := s.t.Hashed(), Msg(NewSessionTicket, Plain(0));
    var s1 := if s.params.ticket then [nst] else [];
    var fin := Msg(Finished, Mac(true, s.secret, t0 + s1));
    hide StepOk, ContentsOk, Kinds, Hs, Sends, FromClientFinished, Transcript.Update, Transcript.Valid;
    hide Transcript.Hashed, HeadOk;
    UpdateHashed(s.t, nst);
    var u := if s.params.ticket then s.t.Update(nst) else s.t;
    assert t0 + [] == t0 && u.Hashed() == t0 + s1;
    UpdateHashed(u, fin);
    ServerFinishedSends(cfg, s.params.ticket, t0, s.secret, nst, fin);
    assert r.sent == s1 + [Ccs()] + [fin] && r.side.t == u.Update(fin);
    var es := If(cfg.tickets, S(NewSessionTicket)) + [S(ChangeCipherSpec)] + [S(Finished)];
    ServerFinishedRest(cfg);
    SentOk(cfg, a, a', head, r.sent, es);
  }

  lemma ServerFinishedRest(cfg: Config)
    ensures FromServerFinished(cfg) == If(cfg.tickets, S(NewSessionTicket)) + [S(ChangeCipherSpec)] + [S(Finished)]
                                       + if Resumed(cfg) then FromClientFinished(cfg) else []
  {
    hide If, Resumed, ParamsOf, S, FinalFlight;
    FinalFlightRest(cfg);
    assert FinalFlight(cfg) + [] == FinalFlight(cfg);
    hide FromClientFinished;
    Regroup(If(cfg.tickets, S(NewSessionTicket)), [S(ChangeCipherSpec)], [S(Finished)],
            if Resumed(cfg) then FinalFlight(cfg) else []);
  }

  lemma Regroup(a: seq<Expect>, b: seq<Expect>, c: seq<Expect>, d: seq<Expect>)
    ensures a + (b + (c + d)) == a + b + c + d
  {
  }

  lemma ServerFinishServerHandshake(cfg: Config, s: Server, head: Option<Msg>, retry: bool, peerSecret: Option<Secret>)
    requires ServerReady(cfg, s, head, peerSecret) && s.state.FinishServerHandshake?
    ensures ServerRanTo(cfg, s, head, OnFinishServerHandshake(cfg, s, head, retry))
  {
    hide StepOk, ContentsOk, Kinds, Hs;
    hide EndOfServer, FromServerCcs, FromServerFinished, FinalFlight, EndOfClient, FromChannelId, FromNextProto;
    hide FromClientFinished, FromCertificateVerify, FromKeyExchange, FromClientCertificate, FromServerHelloDone;
    hide FromCertificateRequest, FromServerKeyExchange, FromStatus, FromServerCertificate, FromServerHello;
    hide Script;
    var r := OnFinishServerHandshake(cfg, s, head, retry);
    var a, a' := ServerEnd(cfg, s, []), ServerEnd(cfg, r.side, []);
    StayedOk(cfg, a, a', head);
  }

  lemma ServerSDone(cfg: Config, s: Server, head: Option<Msg>, retry: bool, peerSecret: Option<Secret>)
    requires ServerReady(cfg, s, head, peerSecret) && s.state.SDone?
    ensures ServerRan(cfg, s, head, retry)
  {
  }
  // ----- the two together

  lemma ClientNotFailed(cfg: Config, c: Client, head: Option<Msg>, peerSecret: Option<Secret>)
    requires ClientReady(cfg, c, head, peerSecret)
    ensures !c.state.CFailed?
  {
    hide HeadOk, ContentOk;
  }

  lemma ClientRuns(cfg: Config, c: Client, head: Option<Msg>, retry: bool, peerSecret: Option<Secret>)
    requires ClientReady(cfg, c, head, peerSecret)
    ensures ClientRan(cfg, c, head, retry)
  {
    hide ClientReady, ClientRanTo, ClientStep;
    ClientStepIs(cfg, c, head, retry);
    ClientNotFailed(cfg, c, head, peerSecret);
    match c.state
    case StartConnect => ClientStartConnect(cfg, c, head, retry, peerSecret);
    case EnterEarlyData => ClientEnterEarlyData(cfg, c, head, retry, peerSecret);
    case ReadServerHello => ClientReadServerHello(cfg, c, head, retry, peerSecret);
    case ReadServerCertificate => ClientReadServerCertificate(cfg, c, head, retry, peerSecret);
    case ReadCertificateStatus => ClientReadCertificateStatus(cfg, c, head, retry, peerSecret);
    case VerifyServerCertificate => ClientVerifyServerCertificate(cfg, c, head, retry, peerSecret);
    case ReadServerKeyExchange => ClientReadServerKeyExchange(cfg, c, head, retry, peerSecret);
    case ReadCertificateRequest => ClientReadCertificateRequest(cfg, c, head, retry, peerSecret);
    case ReadServerHelloDone => ClientReadServerHelloDone(cfg, c, head, retry, peerSecret);
    case SendClientCertificate => ClientSendClientCertificate(cfg, c, head, retry, peerSecret);
    case SendClientKeyExchange => ClientSendClientKeyExchange(cfg, c, head, retry, peerSecret);
    case SendClientCertificateVerify => ClientSendClientCertificateVerify(cfg, c, head, retry, peerSecret);
    case SendClientFinished => ClientSendClientFinished(cfg, c, head, retry, peerSecret);
    case FinishFlight => ClientFinishFlight(cfg, c, head, retry, peerSecret);
    case ReadSessionTicket => ClientReadSessionTicket(cfg, c, head, retry, peerSecret);
    case CProcessChangeCipherSpec => ClientCProcessChangeCipherSpec(cfg, c, head, retry, peerSecret);
    case ReadServerFinished => ClientReadServerFinished(cfg, c, head, retry, peerSecret);
    case FinishClientHandshake => ClientFinishClientHandshake(cfg, c, head, retry, peerSecret);
    case CDone => ClientCDone(cfg, c, head, retry, peerSecret);
    case CFailed => assert false;
  }

  lemma ServerNotFailed(cfg: Config, s: Server, head: Option<Msg>, peerSecret: Option<Secret>)
    requires ServerReady(cfg, s, head, peerSecret)
    ensures !s.state.SFailed?
  {
    hide HeadOk, ContentOk;
  }

  lemma ServerRuns(cfg: Config, s: Server, head: Option<Msg>, retry: bool, peerSecret: Option<Secret>)
    requires ServerReady(cfg, s, head, peerSecret)
    ensures ServerRan(cfg, s, head, retry)
  {
    hide ServerReady, ServerRanTo, ServerStep;
    ServerStepIs(cfg, s, head, retry);
    ServerNotFailed(cfg, s, head, peerSecret);
    match s.state
    case StartAccept => ServerStartAccept(cfg, s, head, retry, peerSecret);
    case ReadClientHello => ServerReadClientHello(cfg, s, head, retry, peerSecret);
    case SelectCertificate => ServerSelectCertificate(cfg, s, head, retry, peerSecret);
    case SelectParameters => ServerSelectParameters(cfg, s, head, retry, peerSecret);
    case SendServerHello => ServerSendServerHello(cfg, s, head, retry, peerSecret);
    case SendServerCertificate => ServerSendServerCertificate(cfg, s, head, retry, peerSecret);
    case SendServerKeyExchange => ServerSendServerKeyExchange(cfg, s, head, retry, peerSecret);
    case SendServerHelloDone => ServerSendServerHelloDone(cfg, s, head, retry, peerSecret);
    case ReadClientCertificate => ServerReadClientCertificate(cfg, s, head, retry, peerSecret);
    case VerifyClientCertificate => ServerVerifyClientCertificate(cfg, s, head, retry, peerSecret);
    case ReadClientKeyExchange => ServerReadClientKeyExchange(cfg, s, head, retry, peerSecret);
    case ReadClientCertificateVerify => ServerReadClientCertificateVerify(cfg, s, head, retry, peerSecret);
    case ReadChangeCipherSpec => ServerReadChangeCipherSpec(cfg, s, head, retry, peerSecret);
    case SProcessChangeCipherSpec => ServerSProcessChangeCipherSpec(cfg, s, head, retry, peerSecret);
    case ReadNextProto => ServerReadNextProto(cfg, s, head, retry, peerSecret);
    case ReadChannelId => ServerReadChannelId(cfg, s, head, retry, peerSecret);
    case ReadClientFinished => ServerReadClientFinished(cfg, s, head, retry, peerSecret);
    case SendServerFinished => ServerSendServerFinished(cfg, s, head, retry, peerSecret);
    case FinishServerHandshake => ServerFinishServerHandshake(cfg, s, head, retry, peerSecret);
    case SDone => ServerSDone(cfg, s, head, retry, peerSecret);
    case SFailed => assert false;
  }

  ghost predicate Inv(cfg: Config, w: World) {
    && ClientOk(cfg, w.client) && ServerOk(cfg, w.server)
    && Link(cfg, ClientEnd(cfg, w.client, w.toServer), ServerEnd(cfg, w.server, w.toClient))
  }

  /** A server that has derived its secret has the key exchange behind it. */
  lemma DerivedServerRest(cfg: Config, s: Server)
    requires ServerOk(cfg, s) && !Resumed(cfg) && s.secret.Some?
    ensures |ServerRest(cfg, s.state, s.wantCcs)| < |FromKeyExchange(cfg)|
  {
  }

  /** A client's secret changes only when it resumes or derives one. */
  lemma ClientSecretStep(cfg: Config, c: Client, head: Option<Msg>, retry: bool)
    requires !c.state.SendClientKeyExchange?
    requires c.state.ReadServerHello? && head.Some? && head.value.content.Choice? ==>
               (cfg.offersSession && head.value.content.params.resumed ==> Resumed(cfg)) && c.secret.None?
    ensures var c' := ClientStep(cfg, c, head, retry).side;
            c'.secret == c.secret || (Resumed(cfg) && c'.secret == Some(Old))
  {
    hide *;
    ClientStepIs(cfg, c, head, retry);
    ClientStays(c, head);
    if c.state.ReadServerHello? {
      HelloSecret(cfg, c, head, retry);
    }
  }

  lemma HelloSecret(cfg: Config, c: Client, head: Option<Msg>, retry: bool)
    requires c.state.ReadServerHello?
    requires head.Some? && head.value.content.Choice? ==>
               (cfg.offersSession && head.value.content.params.resumed ==> Resumed(cfg)) && c.secret.None?
    ensures var c' := OnReadServerHello(cfg, c, head, retry).side;
            c'.secret == c.secret || (Resumed(cfg) && c'.secret == Some(Old))
  {
    hide Transcript.Update, Transcript.InitHash, Transcript.FreeBuffer, Resumed;
  }

  lemma ResumedSecret(cfg: Config, s: Server)
    requires ServerOk(cfg, s) && Resumed(cfg)
    ensures s.secret.Some? ==> s.secret == Some(Old)
  {
  }

  lemma ClientNoSecretYet(cfg: Config, c: Client)
    requires ClientOk(cfg, c)
    ensures c.state.ReadServerHello? ==> c.secret.None?
    ensures Resumed(cfg) && c.secret.Some? ==> c.secret == Some(Old)
  {
  }

  /** When the client is about to derive its secret the server has none. */
  lemma NotDerivedYet(cfg: Config, w: World)
    requires Inv(cfg, w) && w.client.state.SendClientKeyExchange?
    ensures w.server.secret.None?
  {
    var a, b := ClientEnd(cfg, w.client, w.toServer), ServerEnd(cfg, w.server, w.toClient);
    assert !Resumed(cfg);
    if w.server.secret.Some? {
      DerivedServerRest(cfg, w.server);
      hide ClientOk, ServerOk, ContentsOk, ServerRest, FromCertificateVerify, Hs;
      SenderIsAhead(cfg, a, b, Msg(ClientKeyExchange, Plain(cfg.key)), FromCertificateVerify(cfg));
      assert false;
    }
  }

  /** The secrets still agree after the client's step. */
  lemma ClientSecretAgrees(cfg: Config, w: World, retry: bool)
    requires ConfigOk(cfg) && Inv(cfg, w)
    ensures var c' := ClientStep(cfg, w.client, Head(w.toClient), retry).side;
            c'.secret.Some? && w.server.secret.Some? ==> c'.secret == w.server.secret
  {
    var a, b := ClientEnd(cfg, w.client, w.toServer), ServerEnd(cfg, w.server, w.toClient);
    if w.client.state.SendClientKeyExchange? {
      NotDerivedYet(cfg, w);
    } else {
      HeadExpected(cfg, a, b);
      ClientNoSecretYet(cfg, w.client);
      hide ContentsOk, Kinds, Hs, ClientOk, ServerOk, ClientStep, ClientRest, ServerRest, Ahead;
      HelloSays(cfg, w);
      ClientSecretStep(cfg, w.client, Head(w.toClient), retry);
      if Resumed(cfg) {
        ResumedSecret(cfg, w.server);
      }
    }
  }

  /** The ServerHello the client meets is the server's. */
  lemma HelloSays(cfg: Config, w: World)
    requires HeadOk(cfg, ClientEnd(cfg, w.client, w.toServer), Head(w.toClient), w.server.secret)
    ensures w.client.state.ReadServerHello? && w.toClient != [] && w.toClient[0].content.Choice? ==>
              w.toClient[0].content.params == ParamsOf(cfg)
  {
  }

  /** What reaches a side is what it expects. */
  lemma HeadExpected(cfg: Config, a: End, b: End)
    requires Link(cfg, a, b)
    ensures HeadOk(cfg, a, Head(b.sent), b.secret)
  {
  }

  /** A step of one side keeps the link. */
  lemma StepKeepsLink(cfg: Config, a: End, b: End, a': End, sent: seq<Msg>, took: bool)
    requires Link(cfg, a, b) && StepOk(cfg, a.(sent := []), a'.(sent := []), Head(b.sent), sent, took)
    requires a'.sent == a.sent + sent
    requires a'.secret.Some? && b.secret.Some? ==> a'.secret == b.secret
    ensures Link(cfg, a', b.(sent := After(b.sent, took)))
  {
    hide ContentsOk, Kinds, Hs, ContentOk;
    if took {
      assert a.sent + [] == a.sent && b.sent[..1] == [b.sent[0]];
      hide Link;
      LinkTakes(cfg, a, b, a');
    } else if sent == [] {
      assert a.sent + [] == a.sent && a' == a;
    } else {
      LinkSends(cfg, a, b, sent, a');
    }
  }

  lemma ClientKeepsInv(cfg: Config, w: World, retry: bool)
    requires ConfigOk(cfg) && Inv(cfg, w)
    ensures Inv(cfg, Step(cfg, w, ClientMoves(retry)))
  {
    var a, b := ClientEnd(cfg, w.client, w.toServer), ServerEnd(cfg, w.server, w.toClient);
    var r := ClientStep(cfg, w.client, Head(w.toClient), retry);
    var a' := ClientEnd(cfg, r.side, w.toServer + r.sent);
    ClientSecretAgrees(cfg, w, retry);
    hide ContentsOk, Kinds, Hs, ContentOk, ClientOk, ServerOk, ClientStep, Link, StepOk, ClientRest, ServerRest;
    HeadExpected(cfg, a, b);
    HeadOfEnd(cfg, a, Head(w.toClient), b.secret);
    ClientRuns(cfg, w.client, Head(w.toClient), retry, w.server.secret);
    StepKeepsLink(cfg, a, b, a', r.sent, r.took);
  }

  lemma HeadOfEnd(cfg: Config, a: End, head: Option<Msg>, secret: Option<Secret>)
    requires HeadOk(cfg, a, head, secret)
    ensures HeadOk(cfg, a.(sent := []), head, secret)
  {
  }

  lemma ServerKeepsFields(cfg: Config, s: Server, head: Option<Msg>, retry: bool)
    requires !s.state.SelectParameters? && !s.state.ReadClientKeyExchange?
    ensures ServerStep(cfg, s, head, retry).side.secret == s.secret
    ensures s.state.ReadClientFinished? || ServerStep(cfg, s, head, retry).side.recorded == s.recorded
  {
    hide *;
    ServerStepIs(cfg, s, head, retry);
    ServerStays(s, head);
  }

  lemma SelectsSecret(cfg: Config, s: Server, m: Msg)
    requires m.content.Offer? ==> m.content.session == cfg.offersSession && s.secret.None?
    ensures var s' := SelectsParameters(cfg, s, m).side;
            s'.secret == s.secret || (Resumed(cfg) && s'.secret == Some(Old))
  {
  }

  /** A server's secret changes only when it resumes or reads the key exchange. */
  lemma ReadsSecret(cfg: Config, s: Server, head: Option<Msg>, retry: bool)
    requires s.state.ReadClientKeyExchange?
    ensures OnReadClientKeyExchange(cfg, s, head, retry).side.recorded == s.recorded
    ensures var s' := OnReadClientKeyExchange(cfg, s, head, retry).side;
            || s'.secret == s.secret
            || (head.Some? && head.value.kind == ClientKeyExchange && head.value.content.Plain?
                && s'.secret == Some(Derive(s.params.ems, head.value.content.id, s.t.Update(head.value).Hashed())))
  {
  }

  lemma SelectsOrStays(cfg: Config, s: Server, head: Option<Msg>, retry: bool)
    requires s.state.SelectParameters?
    ensures OnSelectParameters(cfg, s, head, retry) ==
            if retry || head.None? then Stay(s) else SelectsParameters(cfg, s, head.value)
  {
  }

  lemma ServerSecretStep(cfg: Config, s: Server, head: Option<Msg>, retry: bool)
    requires s.state.SelectParameters? && head.Some? && head.value.content.Offer? ==>
               head.value.content.session == cfg.offersSession && s.secret.None?
    ensures var s' := ServerStep(cfg, s, head, retry).side;
            || s'.secret == s.secret
            || (Resumed(cfg) && s'.secret == Some(Old))
            || (s.state.ReadClientKeyExchange? && head.Some? && head.value.kind == ClientKeyExchange
                && head.value.content.Plain?
                && s'.secret == Some(Derive(s.params.ems, head.value.content.id, s.t.Update(head.value).Hashed())))
  {
    hide *;
    ServerStepIs(cfg, s, head, retry);
    ServerStays(s, head);
    if s.state.SelectParameters? {
      SelectsOrStays(cfg, s, head, retry);
      if head.Some? {
        SelectsSecret(cfg, s, head.value);
      }
    } else if s.state.ReadClientKeyExchange? {
      ReadsSecret(cfg, s, head, retry);
    } else {
      ServerKeepsFields(cfg, s, head, retry);
    }
  }

  lemma ServerNoSecretYet(cfg: Config, s: Server)
    requires ServerOk(cfg, s)
    ensures s.state.SelectParameters? ==> s.secret.None?
    ensures s.state.ReadClientKeyExchange? ==> s.params == ParamsOf(cfg) && s.t.Valid()
  {
  }

  /** What reaches the server at these two points is the client's. */
  lemma ClientSaid(cfg: Config, w: World)
    requires HeadOk(cfg, ServerEnd(cfg, w.server, w.toClient), Head(w.toServer), w.client.secret)
    ensures w.server.state.SelectParameters? && w.toServer != [] && w.toServer[0].content.Offer? ==>
              w.toServer[0].content.session == cfg.offersSession
    ensures w.server.state.ReadClientKeyExchange? && w.toServer != [] ==>
              && w.toServer[0].content == Plain(cfg.key)
              && w.client.secret == Some(Derive(cfg.ems, cfg.key, w.server.t.Hashed() + [w.toServer[0]]))
  {
  }

  lemma BeforeServerStep(cfg: Config, w: World)
    requires ConfigOk(cfg) && Inv(cfg, w)
    ensures HeadOk(cfg, ServerEnd(cfg, w.server, w.toClient), Head(w.toServer), w.client.secret)
    ensures w.client.secret.Some? && w.server.secret.Some? ==> w.client.secret == w.server.secret
  {
    hide ContentsOk, Kinds, Hs, ClientOk, ServerOk, ClientRest, ServerRest, Ahead, Transcript.Hashed, ContentOk;
    var a, b := ClientEnd(cfg, w.client, w.toServer), ServerEnd(cfg, w.server, w.toClient);
    LinkSymmetric(cfg, a, b);
    HeadExpected(cfg, b, a);
  }

  /** The server derives the secret that the client derived when it sent the key exchange. */
  lemma ServerSecretAgrees(cfg: Config, w: World, retry: bool)
    requires ConfigOk(cfg) && Inv(cfg, w)
    ensures var s' := ServerStep(cfg, w.server, Head(w.toServer), retry).side;
            w.client.secret.Some? && s'.secret.Some? ==> w.client.secret == s'.secret
  {
    BeforeServerStep(cfg, w);
    ServerNoSecretYet(cfg, w.server);
    ClientNoSecretYet(cfg, w.client);
    ClientSaid(cfg, w);
    hide Inv, ServerStep, HeadOk, ConfigOk, Derive, Resumed;
    ServerSecretStep(cfg, w.server, Head(w.toServer), retry);
    if w.server.state.ReadClientKeyExchange? && w.toServer != [] {
      UpdateHashed(w.server.t, w.toServer[0]);
    }
  }

  lemma ServerKeepsInv(cfg: Config, w: World, retry: bool)
    requires ConfigOk(cfg) && Inv(cfg, w)
    ensures Inv(cfg, Step(cfg, w, ServerMoves(retry)))
  {
    hide FromKeyExchange, FromServerHello, Script, FromClientFinished;
    var a, b := ClientEnd(cfg, w.client, w.toServer), ServerEnd(cfg, w.server, w.toClient);
    var r := ServerStep(cfg, w.server, Head(w.toServer), retry);
    var b' := ServerEnd(cfg, r.side, w.toClient + r.sent);
    ServerSecretAgrees(cfg, w, retry);
    LinkSymmetric(cfg, a, b);
    hide ContentsOk, Kinds, Hs, ContentOk, ClientOk, ServerOk, ServerStep, Link, StepOk, ClientRest, ServerRest;
    HeadExpected(cfg, b, a);
    HeadOfEnd(cfg, b, Head(w.toServer), a.secret);
    ServerRuns(cfg, w.server, Head(w.toServer), retry, w.client.secret);
    StepKeepsLink(cfg, b, a, b', r.sent, r.took);
    LinkSymmetric(cfg, b', a.(sent := After(w.toServer, r.took)));
  }

  lemma InvAtStart(cfg: Config)
    ensures Inv(cfg, Start)
  {
    var a, b := ClientEnd(cfg, ClientStart, []), ServerEnd(cfg, ServerStart, []);
    hide FromServerHello, FromKeyExchange;
    assert Kinds(true, []) == [] && Hs([]) == [];
    assert [] + b.rest == b.rest && a.transcript == [] == b.transcript;
    assert Ahead(a, b);
  }

  /**
   * In every honest run, full or resumed, with any flags, interleaving and retries: neither side fails
   * (no message comes out of turn, no signature or Finished is over another transcript, no transcript is
   * missing when it is to be signed), and the two sides' transcripts differ by exactly what is in flight.
   */
  lemma {:induction false} RunsAgree(cfg: Config, moves: seq<Move>)
    requires ConfigOk(cfg)
    ensures var w := Run(cfg, moves);
            && Inv(cfg, w)
            && w.client.state != CFailed && w.server.state != SFailed
            && (w.toServer == [] ==> w.server.t.Hashed() == w.client.t.Hashed() + Hs(w.toClient))
            && (w.toClient == [] ==> w.client.t.Hashed() == w.server.t.Hashed() + Hs(w.toServer))
            && (w.client.secret.Some? && w.server.secret.Some? ==> w.client.secret == w.server.secret)
  {
    if moves == [] {
      InvAtStart(cfg);
    } else {
      var before, move := moves[..|moves| - 1], moves[|moves| - 1];
      RunsAgree(cfg, before);
      hide Inv;
      match move
      case ClientMoves(retry) => ClientKeepsInv(cfg, Run(cfg, before), retry);
      case ServerMoves(retry) => ServerKeepsInv(cfg, Run(cfg, before), retry);
    }
    InvMeans(cfg, Run(cfg, moves));
  }

  lemma InvMeans(cfg: Config, w: World)
    requires Inv(cfg, w)
    ensures w.client.state != CFailed && w.server.state != SFailed
    ensures w.toServer == [] ==> w.server.t.Hashed() == w.client.t.Hashed() + Hs(w.toClient)
    ensures w.toClient == [] ==> w.client.t.Hashed() == w.server.t.Hashed() + Hs(w.toServer)
    ensures w.client.secret.Some? && w.server.secret.Some? ==> w.client.secret == w.server.secret
  {
    hide ClientRest, ServerRest, ContentsOk, Kinds, Transcript.Hashed, Transcript.Valid, WantsCert, ParamsOf, Resumed;
    assert Hs([]) == [];
    hide Hs;
    var a, b := ClientEnd(cfg, w.client, w.toServer), ServerEnd(cfg, w.server, w.toClient);
    assert Ahead(a, b) || Ahead(b, a);
  }

  /** When both are done they have hashed the same messages, hold the same secret, and nothing is in flight. */
  lemma DoneAgrees(cfg: Config, moves: seq<Move>)
    requires ConfigOk(cfg)
    ensures var w := Run(cfg, moves);
            w.client.state == CDone && w.server.state == SDone ==>
              && w.toClient == [] && w.toServer == []
              && w.client.t.Hashed() == w.server.t.Hashed()
              && w.client.secret == w.server.secret && w.client.secret.Some?
  {
    RunsAgree(cfg, moves);
    var w := Run(cfg, moves);
    hide Run;
    if w.client.state == CDone && w.server.state == SDone {
      DoneMeans(cfg, w);
    }
  }

  lemma DoneMeans(cfg: Config, w: World)
    requires Inv(cfg, w) && w.client.state == CDone && w.server.state == SDone
    ensures w.toClient == [] && w.toServer == [] && w.client.t.Hashed() == w.server.t.Hashed()
    ensures w.client.secret == w.server.secret && w.client.secret.Some?
  {
  }

  // ----- each message hashed exactly once

  function KindsOf(msgs: seq<Msg>): (s: seq<Kind>)
    ensures |s| == |msgs|
  {
    seq(|msgs|, i requires 0 <= i < |msgs| => msgs[i].kind)
  }

  /** The handshake messages among those to come. */
  function HsKinds(es: seq<Expect>): seq<Kind> {
    if es == [] then []
    else (if es[0].kind == ChangeCipherSpec then [] else [es[0].kind]) + HsKinds(es[1..])
  }

  /** What a side has hashed and what is to come are together the whole handshake. */
  ghost predicate Accounted(cfg: Config, a: End) {
    KindsOf(a.transcript) + HsKinds(a.rest) == HsKinds(Script(cfg))
  }

  lemma HsKindsFirst(e: Expect, es: seq<Expect>)
    ensures HsKinds([e] + es) == (if e.kind == ChangeCipherSpec then [] else [e.kind]) + HsKinds(es)
  {
  }

  lemma HsFirst(wire: seq<Msg>)
    requires wire != []
    ensures KindsOf(Hs(wire)) ==
            (if wire[0].kind == ChangeCipherSpec then [] else [wire[0].kind]) + KindsOf(Hs(wire[1..]))
  {
  }

  lemma {:induction false} HsKindsOfKinds(fromServer: bool, wire: seq<Msg>, rest: seq<Expect>)
    ensures HsKinds(Kinds(fromServer, wire) + rest) == KindsOf(Hs(wire)) + HsKinds(rest)
  {
    if wire == [] {
      assert Kinds(fromServer, wire) + rest == rest;
    } else {
      var ks, e := Kinds(fromServer, wire[1..]), Expect(fromServer, wire[0].kind);
      assert Kinds(fromServer, wire) + rest == [e] + (ks + rest);
      HsKindsOfKinds(fromServer, wire[1..], rest);
      hide Kinds, Hs, HsKinds, KindsOf;
      HsKindsFirst(e, ks + rest);
      HsFirst(wire);
    }
  }

  lemma TakeAccounted(cfg: Config, a: End, a': End, m: Msg)
    requires Accounted(cfg, a) && a.rest != [] && a.rest[0].kind == m.kind
    requires a'.rest == a.rest[1..] && a'.transcript == a.transcript + Hs([m])
    ensures Accounted(cfg, a')
  {
    hide Hs, Script, HsKinds;
    HsOne(m);
    KindsConcat(a.transcript, Hs([m]));
    assert a.rest == [a.rest[0]] + a.rest[1..];
    HsKindsFirst(a.rest[0], a'.rest);
  }

  lemma SendAccounted(cfg: Config, a: End, a': End, sent: seq<Msg>)
    requires Accounted(cfg, a) && a.rest == Kinds(a.isServer, sent) + a'.rest
    requires a'.transcript == a.transcript + Hs(sent)
    ensures Accounted(cfg, a')
  {
    hide Kinds, Hs, Script, HsKinds, KindsOf;
    HsKindsOfKinds(a.isServer, sent, a'.rest);
    KindsConcat(a.transcript, Hs(sent));
  }

  lemma StepAccounted(cfg: Config, a: End, a': End, head: Option<Msg>, sent: seq<Msg>, took: bool,
                      secret: Option<Secret>)
    requires Accounted(cfg, a) && StepOk(cfg, a, a', head, sent, took) && HeadOk(cfg, a, head, secret)
    ensures Accounted(cfg, a')
  {
    hide ContentsOk, ContentOk, Kinds, Hs, Script, HsKinds, KindsOf;
    if took {
      TakeAccounted(cfg, a, a', head.value);
    } else if sent != [] {
      SendAccounted(cfg, a, a', sent);
    }
  }

  lemma KindsConcat(a: seq<Msg>, b: seq<Msg>)
    ensures KindsOf(a + b) == KindsOf(a) + KindsOf(b)
  {
  }

  /** A side's record, for later ChannelID signatures, is its transcript up to the client's Finished. */
  ghost predicate RecordOk(cfg: Config, recorded: Option<seq<Msg>>, a: End) {
    recorded.Some? ==>
      && recorded.value <= a.transcript
      && KindsOf(recorded.value) + HsKinds(FromServerFinished(cfg)) == HsKinds(Script(cfg))
  }

  lemma StepKeepsRecord(cfg: Config, recorded: Option<seq<Msg>>, a: End, a': End, head: Option<Msg>, sent: seq<Msg>,
                        took: bool)
    requires RecordOk(cfg, recorded, a) && StepOk(cfg, a, a', head, sent, took)
    ensures RecordOk(cfg, recorded, a')
  {
  }

  lemma ClientKeepsRecord(cfg: Config, c: Client, head: Option<Msg>, retry: bool)
    requires !c.state.FinishFlight?
    ensures ClientStep(cfg, c, head, retry).side.recorded == c.recorded
  {
    hide *;
    ClientStepIs(cfg, c, head, retry);
    ClientStays(c, head);
  }

  lemma FlightRecords(cfg: Config, c: Client, head: Option<Msg>, retry: bool)
    requires ClientOk(cfg, c) && c.state.FinishFlight?
    ensures var c' := OnFinishFlight(cfg, c, head, retry).side;
            c'.recorded == c.recorded
            || (c'.recorded == Some(c'.t.Hashed()) && ClientRest(cfg, c'.state, c'.wantCcs) == FromServerFinished(cfg))
  {
    hide FromServerFinished, Transcript.Hashed;
  }

  lemma ClientRecords(cfg: Config, c: Client, head: Option<Msg>, retry: bool)
    requires ClientOk(cfg, c)
    ensures var c' := ClientStep(cfg, c, head, retry).side;
            c'.recorded == c.recorded
            || (c'.recorded == Some(c'.t.Hashed()) && ClientRest(cfg, c'.state, c'.wantCcs) == FromServerFinished(cfg))
  {
    hide *;
    if c.state.FinishFlight? {
      FlightRecords(cfg, c, head, retry);
      ClientStepIs(cfg, c, head, retry);
    } else {
      ClientKeepsRecord(cfg, c, head, retry);
    }
  }

  lemma FinishedRecords(cfg: Config, s: Server, head: Option<Msg>, retry: bool)
    requires ServerOk(cfg, s) && s.state.ReadClientFinished?
    ensures var s' := OnReadClientFinished(cfg, s, head, retry).side;
            s'.recorded == s.recorded
            || (s'.recorded == Some(s'.t.Hashed()) && ServerRest(cfg, s'.state, s'.wantCcs) == FromServerFinished(cfg))
  {
    hide ServerOk, ServerRest, WantsCert, ParamsOf, Transcript.Update, Transcript.Hashed, FromServerFinished;
    ServerLateOk(cfg, s);
    ServerRestIs(cfg, s.wantCcs);
    assert s.params.resumed == Resumed(cfg) by {
      ParamsSayResumed(cfg);
    }
  }

  lemma ServerRecords(cfg: Config, s: Server, head: Option<Msg>, retry: bool)
    requires ServerOk(cfg, s)
    ensures var s' := ServerStep(cfg, s, head, retry).side;
            s'.recorded == s.recorded
            || (s'.recorded == Some(s'.t.Hashed()) && ServerRest(cfg, s'.state, s'.wantCcs) == FromServerFinished(cfg))
  {
    hide *;
    if s.state.ReadClientFinished? {
      FinishedRecords(cfg, s, head, retry);
      ServerStepIs(cfg, s, head, retry);
    } else {
      ServerKeepsRecord(cfg, s, head, retry);
    }
  }

  lemma ServerKeepsRecord(cfg: Config, s: Server, head: Option<Msg>, retry: bool)
    requires !s.state.ReadClientFinished?
    ensures ServerStep(cfg, s, head, retry).side.recorded == s.recorded
  {
    hide *;
    ServerStepIs(cfg, s, head, retry);
    ServerStays(s, head);
    if s.state.SelectParameters? {
      SelectsOrStays(cfg, s, head, retry);
      if head.Some? {
        SelectsRecord(cfg, s, head.value);
      }
    } else if s.state.ReadClientKeyExchange? {
      ReadsSecret(cfg, s, head, retry);
    } else {
      ServerKeepsFields(cfg, s, head, retry);
    }
  }

  lemma SelectsRecord(cfg: Config, s: Server, m: Msg)
    ensures SelectsParameters(cfg, s, m).side.recorded == s.recorded
  {
  }

  ghost predicate AllAccounted(cfg: Config, w: World) {
    var a, b := ClientEnd(cfg, w.client, w.toServer), ServerEnd(cfg, w.server, w.toClient);
    Accounted(cfg, a) && Accounted(cfg, b) && RecordOk(cfg, w.client.recorded, a) && RecordOk(cfg, w.server.recorded, b)
  }

  lemma ClientKeepsAccount(cfg: Config, w: World, retry: bool)
    requires ConfigOk(cfg) && Inv(cfg, w) && AllAccounted(cfg, w)
    ensures AllAccounted(cfg, Step(cfg, w, ClientMoves(retry)))
  {
    hide ClientStep, ClientRest, ServerRest, ContentsOk, Kinds, Hs, ContentOk, ClientOk, ServerOk, Link, StepOk;
    hide HsKinds, KindsOf, Script, FromServerFinished, HeadOk, ConfigOk, Transcript.Hashed;
    var a, b := ClientEnd(cfg, w.client, w.toServer), ServerEnd(cfg, w.server, w.toClient);
    var c, head := w.client, Head(w.toClient);
    var r := ClientStep(cfg, c, head, retry);
    var x, x' := ClientEnd(cfg, c, []), ClientEnd(cfg, r.side, []);
    ClientRecords(cfg, c, head, retry);
    HeadExpected(cfg, a, b);
    HeadOfEnd(cfg, a, head, b.secret);
    ClientRuns(cfg, c, head, retry, w.server.secret);
    StepAccounted(cfg, x, x', head, r.sent, r.took, w.server.secret);
    StepKeepsRecord(cfg, c.recorded, x, x', head, r.sent, r.took);
  }

  lemma ServerKeepsAccount(cfg: Config, w: World, retry: bool)
    requires ConfigOk(cfg) && Inv(cfg, w) && AllAccounted(cfg, w)
    ensures AllAccounted(cfg, Step(cfg, w, ServerMoves(retry)))
  {
    hide ServerStep, ClientRest, ServerRest, ContentsOk, Kinds, Hs, ContentOk, ClientOk, ServerOk, Link, StepOk;
    hide HsKinds, KindsOf, Script, FromServerFinished, HeadOk, ConfigOk, Transcript.Hashed;
    var a, b := ClientEnd(cfg, w.client, w.toServer), ServerEnd(cfg, w.server, w.toClient);
    var s, head := w.server, Head(w.toServer);
    var r := ServerStep(cfg, s, head, retry);
    var x, x' := ServerEnd(cfg, s, []), ServerEnd(cfg, r.side, []);
    ServerRecords(cfg, s, head, retry);
    LinkSymmetric(cfg, a, b);
    HeadExpected(cfg, b, a);
    HeadOfEnd(cfg, b, head, a.secret);
    ServerRuns(cfg, s, head, retry, w.client.secret);
    StepAccounted(cfg, x, x', head, r.sent, r.took, w.client.secret);
    StepKeepsRecord(cfg, s.recorded, x, x', head, r.sent, r.took);
  }

  lemma {:induction false} RunsAccount(cfg: Config, moves: seq<Move>)
    requires ConfigOk(cfg)
    ensures AllAccounted(cfg, Run(cfg, moves))
  {
    if moves == [] {
      assert KindsOf([]) + HsKinds(Script(cfg)) == HsKinds(Script(cfg));
    } else {
      var before, move := moves[..|moves| - 1], moves[|moves| - 1];
      RunsAccount(cfg, before);
      RunsAgree(cfg, before);
      hide Inv, AllAccounted;
      match move
      case ClientMoves(retry) => ClientKeepsAccount(cfg, Run(cfg, before), retry);
      case ServerMoves(retry) => ServerKeepsAccount(cfg, Run(cfg, before), retry);
    }
  }

  /** A side that is done has hashed exactly the messages of the handshake, each once, in order. */
  lemma HashedExactlyOnce(cfg: Config, moves: seq<Move>)
    requires ConfigOk(cfg)
    ensures var w := Run(cfg, moves);
            && (w.client.state == CDone ==> KindsOf(w.client.t.Hashed()) == HsKinds(Script(cfg)))
            && (w.server.state == SDone ==> KindsOf(w.server.t.Hashed()) == HsKinds(Script(cfg)))
  {
    hide Run, Accounted, HsKinds, Script, KindsOf;
    RunsAccount(cfg, moves);
    var w := Run(cfg, moves);
    if w.client.state == CDone {
      AccountedAtEnd(cfg, ClientEnd(cfg, w.client, w.toServer));
    }
    if w.server.state == SDone {
      AccountedAtEnd(cfg, ServerEnd(cfg, w.server, w.toClient));
    }
  }

  lemma AccountedAtEnd(cfg: Config, a: End)
    requires Accounted(cfg, a) && a.rest == []
    ensures KindsOf(a.transcript) == HsKinds(Script(cfg))
  {
    hide KindsOf, Script;
    assert KindsOf(a.transcript) + [] == KindsOf(a.transcript);
  }

  /** The hashes the two sides keep for signing a ChannelID on resumption are over the same messages. */
  lemma RecordsAgree(cfg: Config, moves: seq<Move>)
    requires ConfigOk(cfg)
    ensures var w := Run(cfg, moves);
            w.client.recorded.Some? && w.server.recorded.Some? ==> w.client.recorded == w.server.recorded
  {
    RunsAccount(cfg, moves);
    RunsAgree(cfg, moves);
    var w := Run(cfg, moves);
    hide Run, Script, Transcript.Hashed, HsKinds, FromServerFinished, ClientRest, ServerRest, ClientOk;
    hide ServerOk, ContentsOk, Kinds, Hs;
    if w.client.recorded.Some? && w.server.recorded.Some? {
      var x, y := w.client.recorded.value, w.server.recorded.value;
      assert |KindsOf(x)| == |KindsOf(y)|;
      var tc, ts := w.client.t.Hashed(), w.server.t.Hashed();
      assert tc <= ts || ts <= tc;
      PrefixesAgree(x, y, tc, ts);
    }
  }

  lemma PrefixesAgree(x: seq<Msg>, y: seq<Msg>, tc: seq<Msg>, ts: seq<Msg>)
    requires x <= tc && y <= ts && |x| == |y| && (tc <= ts || ts <= tc)
    ensures x == y
  {
  }

  // ----- no deadlock

  /** A client with nothing to read, and no callback pending, is waiting for the server or done. */
  lemma ClientStuckIsReading(cfg: Config, c: Client)
    requires ClientStep(cfg, c, None, false).side == c && !c.state.CDone? && !c.state.CFailed?
    ensures c.state.ReadServerHello? || c.state.ReadServerCertificate? || c.state.ReadCertificateStatus?
            || c.state.ReadServerKeyExchange? || c.state.ReadCertificateRequest? || c.state.ReadServerHelloDone?
            || c.state.ReadSessionTicket? || c.state.CProcessChangeCipherSpec? || c.state.ReadServerFinished?
  {
    hide *;
    ClientStepIs(cfg, c, None, false);
  }

  lemma ClientStuckInFlight(cfg: Config, c: Client)
    requires ClientOk(cfg, c) && ClientStep(cfg, c, None, false).side == c
    requires c.state.ReadServerHello? || c.state.ReadServerCertificate? || c.state.ReadCertificateStatus?
             || c.state.ReadServerKeyExchange? || c.state.ReadCertificateRequest? || c.state.ReadServerHelloDone?
    ensures var rest := ClientRest(cfg, c.state, c.wantCcs); rest != [] && rest[0].fromServer
  {
    hide ClientStep, FromClientCertificate;
    ClientStepIs(cfg, c, None, false);
  }

  lemma ClientStuckAtEnd(cfg: Config, c: Client)
    requires ClientOk(cfg, c) && ClientStep(cfg, c, None, false).side == c
    requires c.state.ReadSessionTicket? || c.state.CProcessChangeCipherSpec? || c.state.ReadServerFinished?
    ensures var rest := ClientRest(cfg, c.state, c.wantCcs); rest != [] && rest[0].fromServer
  {
    hide ClientStep, FinalFlight;
    ClientStepIs(cfg, c, None, false);
  }

  lemma ClientStuckReads(cfg: Config, c: Client)
    requires ClientOk(cfg, c) && ClientStep(cfg, c, None, false).side == c && !c.state.CDone?
    ensures var rest := ClientRest(cfg, c.state, c.wantCcs); rest != [] && rest[0].fromServer
  {
    hide ClientStep, ClientRest, WantsCert, ParamsOf, Resumed, Transcript.Valid;
    ClientStuckIsReading(cfg, c);
    if c.state.ReadSessionTicket? || c.state.CProcessChangeCipherSpec? || c.state.ReadServerFinished? {
      ClientStuckAtEnd(cfg, c);
    } else {
      ClientStuckInFlight(cfg, c);
    }
  }

  lemma ServerStuckEarly(cfg: Config, s: Server)
    requires ServerOk(cfg, s) && ServerStep(cfg, s, None, false).side == s
    requires s.state.StartAccept? || s.state.ReadClientHello? || s.state.SelectCertificate? || s.state.SelectParameters?
             || s.state.SendServerHello? || s.state.SendServerCertificate? || s.state.SendServerKeyExchange?
             || s.state.SendServerHelloDone?
    ensures var rest := ServerRest(cfg, s.state, s.wantCcs); rest != [] && !rest[0].fromServer
  {
  }

  lemma ServerStuckReads(cfg: Config, s: Server)
    requires ServerOk(cfg, s) && ServerStep(cfg, s, None, false).side == s && !s.state.SDone?
    ensures var rest := ServerRest(cfg, s.state, s.wantCcs); rest != [] && !rest[0].fromServer
  {
    hide Transcript.Update, Transcript.InitHash, Transcript.FreeBuffer, Transcript.Hashed, Derive;
    hide FromServerFinished, FromServerHello, FromServerCertificate, FromStatus, FromServerKeyExchange;
    hide FromCertificateRequest;
    hide Script, SelectsParameters, SendsServerHello, SendsServerCertificate, SendsServerHelloDone;
    hide ReadsClientCertificate;
    hide ReadsKeyExchange, ReadsCertificateVerify, ReadsChannelId, ReadsClientFinished;
    if s.state.StartAccept? || s.state.ReadClientHello? || s.state.SelectCertificate? || s.state.SelectParameters?
       || s.state.SendServerHello? || s.state.SendServerCertificate? || s.state.SendServerKeyExchange?
       || s.state.SendServerHelloDone?
    {
      ServerStuckEarly(cfg, s);
    }
  }

  /** With a message to read, a side moves. */
  lemma ClientReadsOn(cfg: Config, c: Client, m: Msg)
    requires !c.state.CDone? && !c.state.CFailed?
    ensures var r := ClientStep(cfg, c, Some(m), false); r.side != c || r.took
  {
    hide *;
    ClientStepIs(cfg, c, Some(m), false);
  }

  lemma ServerReadsOn(cfg: Config, s: Server, m: Msg)
    requires !s.state.SDone? && !s.state.SFailed?
    ensures var r := ServerStep(cfg, s, Some(m), false); r.side != s || r.took
  {
    hide *;
    ServerStepIs(cfg, s, Some(m), false);
  }

  lemma ClientHasMessage(cfg: Config, w: World)
    requires Inv(cfg, w) && w.toClient != []
    ensures Step(cfg, w, ClientMoves(false)) != w
  {
    DoneReadsNothing(cfg, ClientEnd(cfg, w.client, w.toServer), ServerEnd(cfg, w.server, w.toClient));
    ClientReadsOn(cfg, w.client, w.toClient[0]);
    hide ClientStep, Link, ContentsOk, ServerOk;
    assert |After(w.toClient, true)| < |w.toClient|;
  }

  lemma ServerHasMessage(cfg: Config, w: World)
    requires Inv(cfg, w) && w.toServer != []
    ensures Step(cfg, w, ServerMoves(false)) != w
  {
    var a, b := ClientEnd(cfg, w.client, w.toServer), ServerEnd(cfg, w.server, w.toClient);
    LinkSymmetric(cfg, a, b);
    DoneReadsNothing(cfg, b, a);
    ServerReadsOn(cfg, w.server, w.toServer[0]);
    hide ServerStep, Link, ContentsOk, ClientOk;
    assert |After(w.toServer, true)| < |w.toServer|;
  }

  lemma StuckSides(cfg: Config, w: World)
    requires w.toServer == [] && w.toClient == []
    ensures Step(cfg, w, ClientMoves(false)) == w ==> ClientStep(cfg, w.client, None, false).side == w.client
    ensures Step(cfg, w, ServerMoves(false)) == w ==> ServerStep(cfg, w.server, None, false).side == w.server
  {
    hide ClientStep, ServerStep;
  }

  lemma NothingInFlight(cfg: Config, w: World)
    requires Inv(cfg, w) && w.toServer == [] && w.toClient == []
    requires w.client.state != CDone || w.server.state != SDone
    ensures Step(cfg, w, ClientMoves(false)) != w || Step(cfg, w, ServerMoves(false)) != w
  {
    var a, b := ClientEnd(cfg, w.client, w.toServer), ServerEnd(cfg, w.server, w.toClient);
    SameRest(cfg, a, b);
    DoneRest(cfg, w);
    StuckSides(cfg, w);
    hide ClientStep, ServerStep, Link, ClientRest, ServerRest, ClientOk, ServerOk, Step;
    if Step(cfg, w, ClientMoves(false)) == w && Step(cfg, w, ServerMoves(false)) == w {
      if !w.client.state.CDone? {
        ClientStuckReads(cfg, w.client);
      }
      if !w.server.state.SDone? {
        ServerStuckReads(cfg, w.server);
      }
    }
  }

  lemma DoneRest(cfg: Config, w: World)
    ensures w.client.state.CDone? ==> ClientRest(cfg, w.client.state, w.client.wantCcs) == []
    ensures w.server.state.SDone? ==> ServerRest(cfg, w.server.state, w.server.wantCcs) == []
  {
  }

  /** Until both are done, one of the two can move. */
  lemma NeverDeadlocked(cfg: Config, moves: seq<Move>)
    requires ConfigOk(cfg)
    ensures var w := Run(cfg, moves);
            (w.client.state == CDone && w.server.state == SDone)
            || Step(cfg, w, ClientMoves(false)) != w || Step(cfg, w, ServerMoves(false)) != w
  {
    RunsAgree(cfg, moves);
    var w := Run(cfg, moves);
    hide Run, Step, Inv;
    if w.toClient != [] {
      ClientHasMessage(cfg, w);
    } else if w.toServer != [] {
      ServerHasMessage(cfg, w);
    } else if w.client.state != CDone || w.server.state != SDone {
      NothingInFlight(cfg, w);
    }
  }

  lemma DoneReadsNothing(cfg: Config, a: End, b: End)
    requires Link(cfg, a, b) && b.sent != []
    ensures a.rest != []
  {
  }

  lemma SameRest(cfg: Config, a: End, b: End)
    requires Link(cfg, a, b) && a.sent == [] && b.sent == []
    ensures a.rest == b.rest
  {
  }
}
