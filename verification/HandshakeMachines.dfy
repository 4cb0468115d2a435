/**
 * The TLS 1.0 to 1.2 client and server handshake state machines, and the two run against each other over
 * ordered channels, with any interleaving and any pattern of retries (RFC 5246, section 7.3; RFC 5077;
 * RFC 7627).
 */
module HandshakeMachines {
  import opened Wire

  // ----- messages; signatures, hashes and secrets stand for what they are computed over

  datatype Kind = ClientHello | ServerHello | Certificate | CertificateStatus | ServerKeyExchange
                | CertificateRequest | ServerHelloDone | ClientKeyExchange | CertificateVerify | NextProto | ChannelId
                | NewSessionTicket | Finished | ChangeCipherSpec

  /** A master secret: a resumed session's, or derived from a key exchange, with the transcript or without. */
  datatype Secret = Old | Derived(key: nat, over: seq<Msg>)

  datatype Content = Plain(id: nat)
                   | Offer(session: bool)
                   | Choice(params: Params)
                   | Chain(present: bool)
                   | Signed(data: seq<Msg>)
                   | Mac(fromServer: bool, secret: Option<Secret>, transcript: seq<Msg>)

  datatype Msg = Msg(kind: Kind, content: Content)

  /** What the ServerHello settles. */
  datatype Params = Params(resumed: bool, certAuth: bool, needsSke: bool, ems: bool, ticket: bool, status: bool,
                           npn: bool, channelId: bool)

  /** What the two sides are configured to do. */
  datatype Config = Config(
    offersSession: bool, resumes: bool, sessionHasHashes: bool,
    certAuth: bool, ecdhe: bool, rsa: bool, hint: bool, ems: bool,
    tickets: bool, staples: bool, npn: bool, channelId: bool,
    verifyPeer: bool, onlyWithoutChannelId: bool, failWithoutCert: bool, clientHasCert: bool, key: nat)

  predicate Resumed(cfg: Config) {
    cfg.offersSession && cfg.resumes
  }

  predicate WantsCert(cfg: Config) {
    !Resumed(cfg) && cfg.verifyPeer && !(cfg.onlyWithoutChannelId && cfg.channelId) && cfg.certAuth
  }

  /** A server that insists on a certificate meets a client that has one. */
  predicate ConfigOk(cfg: Config) {
    WantsCert(cfg) && cfg.failWithoutCert ==> cfg.clientHasCert
  }

  function ParamsOf(cfg: Config): Params {
    var resumed := Resumed(cfg);
    Params(resumed, cfg.certAuth, cfg.ecdhe, cfg.ems, cfg.tickets, cfg.staples && !resumed && cfg.certAuth, cfg.npn,
           cfg.channelId && cfg.ecdhe && (resumed ==> cfg.sessionHasHashes))
  }

  /** The server has parameters to send in a ServerKeyExchange. */
  predicate SendsSke(cfg: Config) {
    cfg.ecdhe || (!cfg.certAuth && cfg.hint)
  }

  // ----- the transcript: a buffer, a running hash, or both

  datatype Transcript = Transcript(buffer: Option<seq<Msg>>, hash: Option<seq<Msg>>) {
    function Update(m: Msg): Transcript {
      Transcript(if buffer.Some? then Some(buffer.value + [m]) else None,
                 if hash.Some? then Some(hash.value + [m]) else None)
    }

    function InitHash(): Transcript {
      Transcript(buffer, Some(if buffer.Some? then buffer.value else []))
    }

    function FreeBuffer(): Transcript {
      Transcript(None, hash)
    }

    /** Everything hashed so far. */
    function Hashed(): seq<Msg> {
      if hash.Some? then hash.value else if buffer.Some? then buffer.value else []
    }

    ghost predicate Valid() {
      && (buffer.Some? || hash.Some?)
      && (buffer.Some? && hash.Some? ==> buffer.value == hash.value)
    }
  }

  const Empty := Transcript(Some([]), None)

  function Derive(ems: bool, key: nat, transcript: seq<Msg>): Secret {
    Derived(key, if ems then transcript else [])
  }

  // ----- the client

  datatype CState = StartConnect | EnterEarlyData | ReadServerHello | ReadServerCertificate | ReadCertificateStatus
                  | VerifyServerCertificate | ReadServerKeyExchange | ReadCertificateRequest | ReadServerHelloDone
                  | SendClientCertificate | SendClientKeyExchange | SendClientCertificateVerify | SendClientFinished
                  | FinishFlight | ReadSessionTicket | CProcessChangeCipherSpec | ReadServerFinished
                  | FinishClientHandshake | CDone | CFailed

  datatype Client = Client(state: CState, wantCcs: bool, t: Transcript, params: Params, certRequest: bool,
                           secret: Option<Secret>, recorded: Option<seq<Msg>>)

  /** What a step did: the new state, messages sent, and whether the next message received was consumed. */
  datatype Moved<T> = Moved(side: T, sent: seq<Msg>, took: bool)

  function Stay<T>(x: T): Moved<T> {
    Moved(x, [], false)
  }

  /** A step that sends nothing and hashes at most the message it takes. */
  ghost predicate OnlyReads(t: Transcript, head: Option<Msg>, t': Transcript, sent: seq<Msg>, took: bool) {
    && sent == [] && (took ==> head.Some?)
    && t' == if took && head.value.kind != ChangeCipherSpec then t.Update(head.value) else t
  }

  const NoParams := Params(false, false, false, false, false, false, false, false)

  const ClientStart := Client(StartConnect, false, Empty, NoParams, false, None, None)

  function FailC(c: Client): Moved<Client> {
    Stay(c.(state := CFailed))
  }

  function Go(c: Client, s: CState): Moved<Client> {
    Stay(c.(state := s))
  }

  /** The client hashes and consumes m. */
  function TakeC(c: Client, m: Msg, s: CState): Moved<Client> {
    Moved(c.(state := s, t := c.t.Update(m)), [], true)
  }

  /** The client adds one message to its flight and transcript. */
  function SendC(c: Client, m: Msg, s: CState): Moved<Client> {
    Moved(c.(state := s, t := c.t.Update(m)), [m], false)
  }

  function ReadsServerHello(cfg: Config, c: Client, m: Msg): Moved<Client> {
    if m.kind != ServerHello || !m.content.Choice? then FailC(c)
    else
      var reused := cfg.offersSession && m.content.params.resumed;
      var t := c.t.InitHash().Update(m);
      var p := m.content.params.(resumed := reused);
      Moved(c.(state := if reused then ReadSessionTicket else ReadServerCertificate,
               t := if reused || !p.certAuth then t.FreeBuffer() else t, params := p,
               secret := if reused then Some(Old) else None), [], true)
  }

  function ReadsSke(cfg: Config, c: Client, m: Msg): Moved<Client> {
    if m.kind != ServerKeyExchange then
      if c.params.needsSke then FailC(c) else Go(c, ReadCertificateRequest)
    else if !cfg.ecdhe && c.params.certAuth then FailC(c)
    else TakeC(c, m, ReadCertificateRequest)
  }

  function ReadsCertificateRequest(c: Client, m: Msg): Moved<Client> {
    if m.kind == ServerHelloDone then Stay(c.(state := ReadServerHelloDone, t := c.t.FreeBuffer()))
    else if m.kind != CertificateRequest then FailC(c)
    else TakeC(c.(certRequest := true), m, ReadServerHelloDone)
  }

  function SendsCertificate(cfg: Config, c: Client): Moved<Client> {
    var t := if cfg.clientHasCert then c.t else c.t.FreeBuffer();
    SendC(c.(t := t), Msg(Certificate, Chain(cfg.clientHasCert)), SendClientKeyExchange)
  }

  /** The secret is derived once the message is in the transcript. */
  function SendsKeyExchange(cfg: Config, c: Client): Moved<Client> {
    var r := SendC(c, Msg(ClientKeyExchange, Plain(cfg.key)), SendClientCertificateVerify);
    r.(side := r.side.(secret := Some(Derive(c.params.ems, cfg.key, r.side.t.Hashed()))))
  }

  function SendsCertificateVerify(c: Client): Moved<Client> {
    if c.t.buffer.None? then FailC(c)
    else
      var r := SendC(c, Msg(CertificateVerify, Signed(c.t.buffer.value)), SendClientFinished);
      r.(side := r.side.(t := r.side.t.FreeBuffer()))
  }

  function Ccs(): Msg {
    Msg(ChangeCipherSpec, Plain(0))
  }

  /** ChangeCipherSpec, then the messages that only the new keys protect. */
  function SendsFinished(c: Client): Moved<Client> {
    var t0 := c.t;
    var np := if c.params.npn then [Msg(NextProto, Plain(0))] else [];
    var t1 := if c.params.npn then t0.Update(np[0]) else t0;
    var id := if c.params.channelId then [Msg(ChannelId, Signed(t1.Hashed()))] else [];
    var t2 := if c.params.channelId then t1.Update(id[0]) else t1;
    var fin := Msg(Finished, Mac(false, c.secret, t2.Hashed()));
    Moved(c.(state := FinishFlight, t := t2.Update(fin)), [Ccs()] + np + id + [fin], false)
  }

  function ReadsTicket(c: Client, m: Msg): Moved<Client> {
    if m.kind != NewSessionTicket then FailC(c) else TakeC(c.(wantCcs := true), m, CProcessChangeCipherSpec)
  }

  function ReadsServerFinished(c: Client, m: Msg): Moved<Client> {
    if m.kind != Finished || m.content != Mac(true, c.secret, c.t.Hashed()) then FailC(c)
    else TakeC(c, m, if c.params.resumed then SendClientFinished else FinishClientHandshake)
  }

  /** A state that reads: None if nothing has arrived; a ChangeCipherSpec out of place is an error. */
  predicate Unreadable(head: Option<Msg>) {
    head.Some? && head.value.kind == ChangeCipherSpec
  }

  // What each state does with the next message, if there is one; retry stands for a callback that is not ready yet.

  function OnStartConnect(cfg: Config, c: Client, head: Option<Msg>, retry: bool): (r: Moved<Client>)
    requires c.state.StartConnect?
    ensures r.side.state.EnterEarlyData?
    ensures r.side.secret == c.secret && r.side.recorded == c.recorded
    ensures !retry ==> r.side.state != c.state
  {
    SendC(c, Msg(ClientHello, Offer(cfg.offersSession)), EnterEarlyData)
  }

  function OnEnterEarlyData(cfg: Config, c: Client, head: Option<Msg>, retry: bool): (r: Moved<Client>)
    requires c.state.EnterEarlyData?
    ensures r.side.state.ReadServerHello?
    ensures r.side.secret == c.secret && r.side.recorded == c.recorded
    ensures OnlyReads(c.t, head, r.side.t, r.sent, r.took) && r.side.params == c.params
    ensures !retry ==> r.side.state != c.state
  {
    Go(c, ReadServerHello)
  }

  function OnReadServerHello(cfg: Config, c: Client, head: Option<Msg>, retry: bool): (r: Moved<Client>)
    requires c.state.ReadServerHello?
    ensures r == Stay(c) || r.side.state.CFailed? || r.side.state.ReadSessionTicket? ||
            r.side.state.ReadServerCertificate?
    ensures r.side.recorded == c.recorded
    ensures head.Some? && !retry ==> r.took || r.side.state != c.state
  {
    if head.None? then Stay(c) else if Unreadable(head) then FailC(c) else ReadsServerHello(cfg, c, head.value)
  }

  function OnReadServerCertificate(cfg: Config, c: Client, head: Option<Msg>, retry: bool): (r: Moved<Client>)
    requires c.state.ReadServerCertificate?
    ensures r == Stay(c) || r.side.state.CFailed? || r.side.state.ReadCertificateStatus?
    ensures r.side.secret == c.secret && r.side.recorded == c.recorded
    ensures OnlyReads(c.t, head, r.side.t, r.sent, r.took) && r.side.params == c.params
    ensures head.Some? && !retry ==> r.took || r.side.state != c.state
  {
    if !c.params.certAuth then Go(c, ReadCertificateStatus)
    else if head.None? then Stay(c)
    else if head.value.kind != Certificate then FailC(c)
    else TakeC(c, head.value, ReadCertificateStatus)
  }

  function OnReadCertificateStatus(cfg: Config, c: Client, head: Option<Msg>, retry: bool): (r: Moved<Client>)
    requires c.state.ReadCertificateStatus?
    ensures r == Stay(c) || r.side.state.CFailed? || r.side.state.VerifyServerCertificate?
    ensures r.side.secret == c.secret && r.side.recorded == c.recorded
    ensures OnlyReads(c.t, head, r.side.t, r.sent, r.took) && r.side.params == c.params
    ensures head.Some? && !retry ==> r.took || r.side.state != c.state
  {
    if !c.params.status then Go(c, VerifyServerCertificate)
    else if head.None? then Stay(c)
    else if Unreadable(head) then FailC(c)
    else if head.value.kind != CertificateStatus then Go(c, VerifyServerCertificate)
    else TakeC(c, head.value, VerifyServerCertificate)
  }

  function OnVerifyServerCertificate(cfg: Config, c: Client, head: Option<Msg>, retry: bool): (r: Moved<Client>)
    requires c.state.VerifyServerCertificate?
    ensures r == Stay(c) || r.side.state.ReadServerKeyExchange?
    ensures r.side.secret == c.secret && r.side.recorded == c.recorded
    ensures OnlyReads(c.t, head, r.side.t, r.sent, r.took) && r.side.params == c.params
    ensures !retry ==> r.side.state != c.state
  {
    if c.params.certAuth && retry then Stay(c) else Go(c, ReadServerKeyExchange)
  }

  function OnReadServerKeyExchange(cfg: Config, c: Client, head: Option<Msg>, retry: bool): (r: Moved<Client>)
    requires c.state.ReadServerKeyExchange?
    ensures r == Stay(c) || r.side.state.CFailed? || r.side.state.ReadCertificateRequest?
    ensures r.side.secret == c.secret && r.side.recorded == c.recorded
    ensures OnlyReads(c.t, head, r.side.t, r.sent, r.took) && r.side.params == c.params
    ensures head.Some? && !retry ==> r.took || r.side.state != c.state
  {
    if head.None? then Stay(c) else if Unreadable(head) then FailC(c) else ReadsSke(cfg, c, head.value)
  }

  function OnReadCertificateRequest(cfg: Config, c: Client, head: Option<Msg>, retry: bool): (r: Moved<Client>)
    requires c.state.ReadCertificateRequest?
    ensures r == Stay(c) || r.side.state.CFailed? || r.side.state.ReadServerHelloDone?
    ensures r.side.secret == c.secret && r.side.recorded == c.recorded
    ensures head.Some? && !retry ==> r.took || r.side.state != c.state
  {
    if !c.params.certAuth then Go(c, ReadServerHelloDone)
    else if head.None? then Stay(c) else if Unreadable(head) then FailC(c) else ReadsCertificateRequest(c, head.value)
  }

  function OnReadServerHelloDone(cfg: Config, c: Client, head: Option<Msg>, retry: bool): (r: Moved<Client>)
    requires c.state.ReadServerHelloDone?
    ensures r == Stay(c) || r.side.state.CFailed? || r.side.state.SendClientCertificate?
    ensures r.side.secret == c.secret && r.side.recorded == c.recorded
    ensures OnlyReads(c.t, head, r.side.t, r.sent, r.took) && r.side.params == c.params
    ensures head.Some? && !retry ==> r.took || r.side.state != c.state
  {
    if head.None? then Stay(c)
    else if head.value.kind != ServerHelloDone then FailC(c)
    else TakeC(c, head.value, SendClientCertificate)
  }

  function OnSendClientCertificate(cfg: Config, c: Client, head: Option<Msg>, retry: bool): (r: Moved<Client>)
    requires c.state.SendClientCertificate?
    ensures r == Stay(c) || r.side.state.SendClientKeyExchange?
    ensures r.side.secret == c.secret && r.side.recorded == c.recorded
    ensures !retry ==> r.side.state != c.state
  {
    if !c.certRequest then Go(c, SendClientKeyExchange) else if retry then Stay(c) else SendsCertificate(cfg, c)
  }

  function OnSendClientKeyExchange(cfg: Config, c: Client, head: Option<Msg>, retry: bool): (r: Moved<Client>)
    requires c.state.SendClientKeyExchange?
    ensures r.side.state.SendClientCertificateVerify?
    ensures r.side.recorded == c.recorded
    ensures !retry ==> r.side.state != c.state
  {
    SendsKeyExchange(cfg, c)
  }

  function OnSendClientCertificateVerify(cfg: Config, c: Client, head: Option<Msg>, retry: bool): (r: Moved<Client>)
    requires c.state.SendClientCertificateVerify?
    ensures r == Stay(c) || r.side.state.CFailed? || r.side.state.SendClientFinished?
    ensures r.side.secret == c.secret && r.side.recorded == c.recorded
    ensures !retry ==> r.side.state != c.state
  {
    if !c.certRequest || !cfg.clientHasCert then Go(c, SendClientFinished)
    else if retry then Stay(c) else SendsCertificateVerify(c)
  }

  function OnSendClientFinished(cfg: Config, c: Client, head: Option<Msg>, retry: bool): (r: Moved<Client>)
    requires c.state.SendClientFinished?
    ensures r == Stay(c) || r.side.state.FinishFlight?
    ensures r.side.secret == c.secret && r.side.recorded == c.recorded
    ensures !retry ==> r.side.state != c.state
  {
    if c.params.channelId && retry then Stay(c) else SendsFinished(c)
  }

  function OnFinishFlight(cfg: Config, c: Client, head: Option<Msg>, retry: bool): (r: Moved<Client>)
    requires c.state.FinishFlight?
    ensures r.side.state == if c.params.resumed then FinishClientHandshake else ReadSessionTicket
    ensures r.side.secret == c.secret
    ensures OnlyReads(c.t, head, r.side.t, r.sent, r.took) && r.side.params == c.params
    ensures !retry ==> r.side.state != c.state
  {
    if c.params.resumed then Go(c, FinishClientHandshake)
    else Stay(c.(state := ReadSessionTicket, recorded := Some(c.t.Hashed())))
  }

  function OnReadSessionTicket(cfg: Config, c: Client, head: Option<Msg>, retry: bool): (r: Moved<Client>)
    requires c.state.ReadSessionTicket?
    ensures r == Stay(c) || r.side.state.CFailed? || (r.side.state.CProcessChangeCipherSpec? && r.side.wantCcs)
    ensures r.side.secret == c.secret && r.side.recorded == c.recorded
    ensures OnlyReads(c.t, head, r.side.t, r.sent, r.took) && r.side.params == c.params
    ensures head.Some? && !retry ==> r.took || r.side.state != c.state
  {
    if !c.params.ticket then Stay(c.(state := CProcessChangeCipherSpec, wantCcs := true))
    else if head.None? then Stay(c) else if Unreadable(head) then FailC(c) else ReadsTicket(c, head.value)
  }

  function OnCProcessChangeCipherSpec(cfg: Config, c: Client, head: Option<Msg>, retry: bool): (r: Moved<Client>)
    requires c.state.CProcessChangeCipherSpec?
    ensures r == Stay(c) || r.side.state.CFailed? ||
            (if c.wantCcs then r.side.state.CProcessChangeCipherSpec? && !r.side.wantCcs
             else r.side.state.ReadServerFinished?)
    ensures r.side.secret == c.secret && r.side.recorded == c.recorded
    ensures OnlyReads(c.t, head, r.side.t, r.sent, r.took) && r.side.params == c.params
    ensures head.Some? && !retry ==> r.took || r.side.state != c.state
  {
    if !c.wantCcs then Go(c, ReadServerFinished)
    else if head.None? then Stay(c)
    else if !Unreadable(head) then FailC(c)
    else Moved(c.(wantCcs := false), [], true)
  }

  function OnReadServerFinished(cfg: Config, c: Client, head: Option<Msg>, retry: bool): (r: Moved<Client>)
    requires c.state.ReadServerFinished?
    ensures r == Stay(c) || r.side.state.CFailed? ||
            (r.side.state == if c.params.resumed then SendClientFinished else FinishClientHandshake)
    ensures r.side.secret == c.secret && r.side.recorded == c.recorded
    ensures OnlyReads(c.t, head, r.side.t, r.sent, r.took) && r.side.params == c.params
    ensures head.Some? && !retry ==> r.took || r.side.state != c.state
  {
    if head.None? then Stay(c) else if Unreadable(head) then FailC(c) else ReadsServerFinished(c, head.value)
  }

  function OnFinishClientHandshake(cfg: Config, c: Client, head: Option<Msg>, retry: bool): (r: Moved<Client>)
    requires c.state.FinishClientHandshake?
    ensures r.side.state.CDone?
    ensures r.side.secret == c.secret && r.side.recorded == c.recorded
    ensures OnlyReads(c.t, head, r.side.t, r.sent, r.took) && r.side.params == c.params
    ensures !retry ==> r.side.state != c.state
  {
    Go(c, CDone)
  }

  /** One pass of the client's loop. */
  function ClientStep(cfg: Config, c: Client, head: Option<Msg>, retry: bool): Moved<Client> {
    match c.state
    case StartConnect => OnStartConnect(cfg, c, head, retry)
    case EnterEarlyData => OnEnterEarlyData(cfg, c, head, retry)
    case ReadServerHello => OnReadServerHello(cfg, c, head, retry)
    case ReadServerCertificate => OnReadServerCertificate(cfg, c, head, retry)
    case ReadCertificateStatus => OnReadCertificateStatus(cfg, c, head, retry)
    case VerifyServerCertificate => OnVerifyServerCertificate(cfg, c, head, retry)
    case ReadServerKeyExchange => OnReadServerKeyExchange(cfg, c, head, retry)
    case ReadCertificateRequest => OnReadCertificateRequest(cfg, c, head, retry)
    case ReadServerHelloDone => OnReadServerHelloDone(cfg, c, head, retry)
    case SendClientCertificate => OnSendClientCertificate(cfg, c, head, retry)
    case SendClientKeyExchange => OnSendClientKeyExchange(cfg, c, head, retry)
    case SendClientCertificateVerify => OnSendClientCertificateVerify(cfg, c, head, retry)
    case SendClientFinished => OnSendClientFinished(cfg, c, head, retry)
    case FinishFlight => OnFinishFlight(cfg, c, head, retry)
    case ReadSessionTicket => OnReadSessionTicket(cfg, c, head, retry)
    case CProcessChangeCipherSpec => OnCProcessChangeCipherSpec(cfg, c, head, retry)
    case ReadServerFinished => OnReadServerFinished(cfg, c, head, retry)
    case FinishClientHandshake => OnFinishClientHandshake(cfg, c, head, retry)
    case CDone => Stay(c)
    case CFailed => Stay(c)
  }

  /** A pass is the transition of the state it is in. */
  lemma ClientStepIs(cfg: Config, c: Client, head: Option<Msg>, retry: bool)
    ensures c.state.StartConnect? ==> ClientStep(cfg, c, head, retry) == OnStartConnect(cfg, c, head, retry)
    ensures c.state.EnterEarlyData? ==> ClientStep(cfg, c, head, retry) == OnEnterEarlyData(cfg, c, head, retry)
    ensures c.state.ReadServerHello? ==> ClientStep(cfg, c, head, retry) == OnReadServerHello(cfg, c, head, retry)
    ensures c.state.ReadServerCertificate? ==>
              ClientStep(cfg, c, head, retry) == OnReadServerCertificate(cfg, c, head, retry)
    ensures c.state.ReadCertificateStatus? ==>
              ClientStep(cfg, c, head, retry) == OnReadCertificateStatus(cfg, c, head, retry)
    ensures c.state.VerifyServerCertificate? ==>
              ClientStep(cfg, c, head, retry) == OnVerifyServerCertificate(cfg, c, head, retry)
    ensures c.state.ReadServerKeyExchange? ==>
              ClientStep(cfg, c, head, retry) == OnReadServerKeyExchange(cfg, c, head, retry)
    ensures c.state.ReadCertificateRequest? ==>
              ClientStep(cfg, c, head, retry) == OnReadCertificateRequest(cfg, c, head, retry)
    ensures c.state.ReadServerHelloDone? ==>
              ClientStep(cfg, c, head, retry) == OnReadServerHelloDone(cfg, c, head, retry)
    ensures c.state.SendClientCertificate? ==>
              ClientStep(cfg, c, head, retry) == OnSendClientCertificate(cfg, c, head, retry)
    ensures c.state.SendClientKeyExchange? ==>
              ClientStep(cfg, c, head, retry) == OnSendClientKeyExchange(cfg, c, head, retry)
    ensures c.state.SendClientCertificateVerify? ==>
              ClientStep(cfg, c, head, retry) == OnSendClientCertificateVerify(cfg, c, head, retry)
    ensures c.state.SendClientFinished? ==> ClientStep(cfg, c, head, retry) == OnSendClientFinished(cfg, c, head, retry)
    ensures c.state.FinishFlight? ==> ClientStep(cfg, c, head, retry) == OnFinishFlight(cfg, c, head, retry)
    ensures c.state.ReadSessionTicket? ==> ClientStep(cfg, c, head, retry) == OnReadSessionTicket(cfg, c, head, retry)
    ensures c.state.CProcessChangeCipherSpec? ==>
              ClientStep(cfg, c, head, retry) == OnCProcessChangeCipherSpec(cfg, c, head, retry)
    ensures c.state.ReadServerFinished? ==> ClientStep(cfg, c, head, retry) == OnReadServerFinished(cfg, c, head, retry)
    ensures c.state.FinishClientHandshake? ==>
              ClientStep(cfg, c, head, retry) == OnFinishClientHandshake(cfg, c, head, retry)
    ensures c.state.CDone? || c.state.CFailed? ==> ClientStep(cfg, c, head, retry) == Stay(c)
  {
    hide OnStartConnect, OnEnterEarlyData, OnReadServerHello, OnReadServerCertificate, OnReadCertificateStatus;
    hide OnVerifyServerCertificate, OnReadServerKeyExchange, OnReadCertificateRequest, OnReadServerHelloDone;
    hide OnSendClientCertificate, OnSendClientKeyExchange, OnSendClientCertificateVerify, OnSendClientFinished;
    hide OnFinishFlight, OnReadSessionTicket, OnCProcessChangeCipherSpec, OnReadServerFinished;
    hide OnFinishClientHandshake;
  }

  lemma ClientStays(c: Client, head: Option<Msg>)
    ensures Stay(c).side == c && OnlyReads(c.t, head, Stay(c).side.t, Stay(c).sent, Stay(c).took)
  {
  }

  lemma ReadsExtend(t: Transcript, head: Option<Msg>, t': Transcript, sent: seq<Msg>, took: bool)
    requires OnlyReads(t, head, t', sent, took) && t.Valid()
    ensures t'.Valid() && t.Hashed() <= t'.Hashed()
    ensures (t.hash.Some? <==> t'.hash.Some?) && (t.buffer.Some? <==> t'.buffer.Some?)
  {
  }

  // ----- the server

  datatype SState = StartAccept | ReadClientHello | SelectCertificate | SelectParameters | SendServerHello
                  | SendServerCertificate | SendServerKeyExchange | SendServerHelloDone | ReadClientCertificate
                  | VerifyClientCertificate | ReadClientKeyExchange | ReadClientCertificateVerify | ReadChangeCipherSpec
                  | SProcessChangeCipherSpec | ReadNextProto | ReadChannelId | ReadClientFinished | SendServerFinished
                  | FinishServerHandshake | SDone | SFailed

  datatype Server = Server(state: SState, wantCcs: bool, t: Transcript, params: Params, certRequest: bool,
                           sendsSke: bool, peerCert: bool, secret: Option<Secret>, recorded: Option<seq<Msg>>)

  const ServerStart := Server(StartAccept, false, Empty, NoParams, false, false, false, None, None)

  function FailS(s: Server): Moved<Server> {
    Stay(s.(state := SFailed))
  }

  function GoS(s: Server, st: SState): Moved<Server> {
    Stay(s.(state := st))
  }

  function TakeS(s: Server, m: Msg, st: SState): Moved<Server> {
    Moved(s.(state := st, t := s.t.Update(m)), [], true)
  }

  function SendS(s: Server, m: Msg, st: SState): Moved<Server> {
    Moved(s.(state := st, t := s.t.Update(m)), [m], false)
  }

  predicate FindsSession(cfg: Config, m: Msg)
    requires m.content.Offer?
  {
    m.content.session && cfg.resumes
  }

  predicate AsksForCert(cfg: Config, resumed: bool) {
    !resumed && cfg.verifyPeer && !(cfg.onlyWithoutChannelId && cfg.channelId) && cfg.certAuth
  }

  /** What the ServerHello will say, once the session is settled. */
  function Negotiated(cfg: Config, p: Params): Params {
    var channelId := p.channelId && cfg.ecdhe && !(p.resumed && !cfg.sessionHasHashes);
    Params(p.resumed, cfg.certAuth, cfg.ecdhe, cfg.ems, cfg.tickets, cfg.staples && !p.resumed && cfg.certAuth,
           cfg.npn, channelId)
  }

  /** Whether to resume, and what to ask for, is settled before the ClientHello is hashed. */
  function SelectsParameters(cfg: Config, s: Server, m: Msg): Moved<Server> {
    if !m.content.Offer? then FailS(s)
    else
      var resumed := FindsSession(cfg, m);
      var certRequest := AsksForCert(cfg, resumed);
      var t := s.t.InitHash().Update(m);
      Moved(s.(state := SendServerHello, t := if certRequest then t else t.FreeBuffer(), certRequest := certRequest,
               params := s.params.(resumed := resumed, channelId := cfg.channelId),
               secret := if resumed then Some(Old) else None), [], true)
  }

  function SendsServerHello(cfg: Config, s: Server): Moved<Server> {
    var p := Negotiated(cfg, s.params);
    SendS(s.(params := p), Msg(ServerHello, Choice(p)), if p.resumed then SendServerFinished else SendServerCertificate)
  }

  function SendsServerCertificate(cfg: Config, s: Server): Moved<Server> {
    var cert := if s.params.certAuth then [Msg(Certificate, Chain(true))] else [];
    var t1 := if s.params.certAuth then s.t.Update(cert[0]) else s.t;
    var stapled := s.params.certAuth && s.params.status;
    var status := if stapled then [Msg(CertificateStatus, Plain(0))] else [];
    var t2 := if stapled then t1.Update(status[0]) else t1;
    Moved(s.(state := SendServerKeyExchange, t := t2, sendsSke := SendsSke(cfg)),
          cert + status, false)
  }

  function SendsServerHelloDone(s: Server): Moved<Server> {
    var request := if s.certRequest then [Msg(CertificateRequest, Plain(0))] else [];
    var t1 := if s.certRequest then s.t.Update(request[0]) else s.t;
    var hd := Msg(ServerHelloDone, Plain(0));
    Moved(s.(state := ReadClientCertificate, t := t1.Update(hd)), request + [hd], false)
  }

  function ReadsClientCertificate(cfg: Config, s: Server, m: Msg): Moved<Server> {
    if m.kind != Certificate || !m.content.Chain? then FailS(s)
    else if !m.content.present && cfg.failWithoutCert then FailS(s)
    else
      var t := s.t.Update(m);
      Moved(s.(state := VerifyClientCertificate, t := if m.content.present then t else t.FreeBuffer(),
               peerCert := m.content.present), [], true)
  }

  function ReadsKeyExchange(s: Server, m: Msg): Moved<Server> {
    if m.kind != ClientKeyExchange || !m.content.Plain? then FailS(s)
    else
      var r := TakeS(s, m, ReadClientCertificateVerify);
      r.(side := r.side.(secret := Some(Derive(s.params.ems, m.content.id, r.side.t.Hashed()))))
  }

  function ReadsCertificateVerify(s: Server, m: Msg): Moved<Server> {
    if m.kind != CertificateVerify || s.t.buffer.None? || m.content != Signed(s.t.buffer.value) then FailS(s)
    else TakeS(s.(t := s.t.FreeBuffer()), m, ReadChangeCipherSpec)
  }

  function ReadsChannelId(s: Server, m: Msg): Moved<Server> {
    if m.kind != ChannelId || m.content != Signed(s.t.Hashed()) then FailS(s) else TakeS(s, m, ReadClientFinished)
  }

  function ReadsClientFinished(s: Server, m: Msg): Moved<Server> {
    if m.kind != Finished || m.content != Mac(false, s.secret, s.t.Hashed()) then FailS(s)
    else
      var r := TakeS(s, m, if s.params.resumed then FinishServerHandshake else SendServerFinished);
      if s.params.resumed || !s.params.channelId then r
      else r.(side := r.side.(recorded := Some(r.side.t.Hashed())))
  }

  function SendsServerFinished(s: Server): Moved<Server> {
    var ticket := if s.params.ticket then [Msg(NewSessionTicket, Plain(0))] else [];
    var t1 := if s.params.ticket then s.t.Update(ticket[0]) else s.t;
    var fin := Msg(Finished, Mac(true, s.secret, t1.Hashed()));
    Moved(s.(state := if s.params.resumed then ReadChangeCipherSpec else FinishServerHandshake, t := t1.Update(fin)),
          ticket + [Ccs()] + [fin], false)
  }

  // And each state of the server.

  function OnStartAccept(cfg: Config, s: Server, head: Option<Msg>, retry: bool): (r: Moved<Server>)
    requires s.state.StartAccept?
    ensures r.side.state.ReadClientHello?
    ensures r.side.secret == s.secret && r.side.recorded == s.recorded
    ensures OnlyReads(s.t, head, r.side.t, r.sent, r.took) && r.side.params == s.params && r.side.peerCert == s.peerCert
    ensures !retry ==> r.side.state != s.state
  {
    GoS(s, ReadClientHello)
  }

  function OnReadClientHello(cfg: Config, s: Server, head: Option<Msg>, retry: bool): (r: Moved<Server>)
    requires s.state.ReadClientHello?
    ensures r == Stay(s) || r.side.state.SFailed? || r.side.state.SelectCertificate?
    ensures r.side.secret == s.secret && r.side.recorded == s.recorded
    ensures OnlyReads(s.t, head, r.side.t, r.sent, r.took) && r.side.params == s.params && r.side.peerCert == s.peerCert
    ensures head.Some? && !retry ==> r.took || r.side.state != s.state
  {
    if head.None? then Stay(s)
    else if head.value.kind != ClientHello then FailS(s)
    else if retry then Stay(s) else GoS(s, SelectCertificate)
  }

  function OnSelectCertificate(cfg: Config, s: Server, head: Option<Msg>, retry: bool): (r: Moved<Server>)
    requires s.state.SelectCertificate?
    ensures r == Stay(s) || r.side.state.SelectParameters?
    ensures r.side.secret == s.secret && r.side.recorded == s.recorded
    ensures OnlyReads(s.t, head, r.side.t, r.sent, r.took) && r.side.params == s.params && r.side.peerCert == s.peerCert
    ensures head.Some? && !retry ==> r.took || r.side.state != s.state
  {
    if retry || head.None? then Stay(s) else GoS(s, SelectParameters)
  }

  function OnSelectParameters(cfg: Config, s: Server, head: Option<Msg>, retry: bool): (r: Moved<Server>)
    requires s.state.SelectParameters?
    ensures r == Stay(s) || r.side.state.SFailed? || r.side.state.SendServerHello?
    ensures r.side.recorded == s.recorded
    ensures head.Some? && !retry ==> r.took || r.side.state != s.state
  {
    if retry || head.None? then Stay(s) else SelectsParameters(cfg, s, head.value)
  }

  function OnSendServerHello(cfg: Config, s: Server, head: Option<Msg>, retry: bool): (r: Moved<Server>)
    requires s.state.SendServerHello?
    ensures r.side.state == if s.params.resumed then SendServerFinished else SendServerCertificate
    ensures r.side.secret == s.secret && r.side.recorded == s.recorded
    ensures !retry ==> r.side.state != s.state
  {
    SendsServerHello(cfg, s)
  }

  function OnSendServerCertificate(cfg: Config, s: Server, head: Option<Msg>, retry: bool): (r: Moved<Server>)
    requires s.state.SendServerCertificate?
    ensures r.side.state.SendServerKeyExchange?
    ensures r.side.secret == s.secret && r.side.recorded == s.recorded
    ensures !retry ==> r.side.state != s.state
  {
    SendsServerCertificate(cfg, s)
  }

  function OnSendServerKeyExchange(cfg: Config, s: Server, head: Option<Msg>, retry: bool): (r: Moved<Server>)
    requires s.state.SendServerKeyExchange?
    ensures r == Stay(s) || r.side.state.SendServerHelloDone?
    ensures r.side.secret == s.secret && r.side.recorded == s.recorded
    ensures !retry ==> r.side.state != s.state
  {
    if !s.sendsSke then GoS(s, SendServerHelloDone)
    else if s.params.certAuth && retry then Stay(s)
    else SendS(s, Msg(ServerKeyExchange, Plain(0)), SendServerHelloDone)
  }

  function OnSendServerHelloDone(cfg: Config, s: Server, head: Option<Msg>, retry: bool): (r: Moved<Server>)
    requires s.state.SendServerHelloDone?
    ensures r.side.state.ReadClientCertificate?
    ensures r.side.secret == s.secret && r.side.recorded == s.recorded
    ensures !retry ==> r.side.state != s.state
  {
    SendsServerHelloDone(s)
  }

  function OnReadClientCertificate(cfg: Config, s: Server, head: Option<Msg>, retry: bool): (r: Moved<Server>)
    requires s.state.ReadClientCertificate?
    ensures r == Stay(s) || r.side.state.SFailed? || r.side.state.VerifyClientCertificate?
    ensures r.side.secret == s.secret && r.side.recorded == s.recorded
    ensures head.Some? && !retry ==> r.took || r.side.state != s.state
  {
    if !s.certRequest then GoS(s, VerifyClientCertificate)
    else if head.None? then Stay(s)
    else if Unreadable(head) then FailS(s)
    else ReadsClientCertificate(cfg, s, head.value)
  }

  function OnVerifyClientCertificate(cfg: Config, s: Server, head: Option<Msg>, retry: bool): (r: Moved<Server>)
    requires s.state.VerifyClientCertificate?
    ensures r == Stay(s) || r.side.state.ReadClientKeyExchange?
    ensures r.side.secret == s.secret && r.side.recorded == s.recorded
    ensures OnlyReads(s.t, head, r.side.t, r.sent, r.took) && r.side.params == s.params && r.side.peerCert == s.peerCert
    ensures !retry ==> r.side.state != s.state
  {
    if s.peerCert && retry then Stay(s) else GoS(s, ReadClientKeyExchange)
  }

  function OnReadClientKeyExchange(cfg: Config, s: Server, head: Option<Msg>, retry: bool): (r: Moved<Server>)
    requires s.state.ReadClientKeyExchange?
    ensures r == Stay(s) || r.side.state.SFailed? || r.side.state.ReadClientCertificateVerify?
    ensures r.side.recorded == s.recorded
    ensures OnlyReads(s.t, head, r.side.t, r.sent, r.took) && r.side.params == s.params && r.side.peerCert == s.peerCert
    ensures head.Some? && !retry ==> r.took || r.side.state != s.state
  {
    if head.None? then Stay(s)
    else if Unreadable(head) then FailS(s)
    else if cfg.rsa && retry then Stay(s) else ReadsKeyExchange(s, head.value)
  }

  function OnReadClientCertificateVerify(cfg: Config, s: Server, head: Option<Msg>, retry: bool): (r: Moved<Server>)
    requires s.state.ReadClientCertificateVerify?
    ensures r == Stay(s) || r.side.state.SFailed? || r.side.state.ReadChangeCipherSpec?
    ensures r.side.secret == s.secret && r.side.recorded == s.recorded
    ensures head.Some? && !retry ==> r.took || r.side.state != s.state
  {
    if !s.peerCert then Stay(s.(state := ReadChangeCipherSpec, t := s.t.FreeBuffer()))
    else if head.None? then Stay(s) else if Unreadable(head) then FailS(s) else ReadsCertificateVerify(s, head.value)
  }

  function OnReadChangeCipherSpec(cfg: Config, s: Server, head: Option<Msg>, retry: bool): (r: Moved<Server>)
    requires s.state.ReadChangeCipherSpec?
    ensures r.side.state.SProcessChangeCipherSpec? && r.side.wantCcs
    ensures r.side.secret == s.secret && r.side.recorded == s.recorded
    ensures OnlyReads(s.t, head, r.side.t, r.sent, r.took) && r.side.params == s.params && r.side.peerCert == s.peerCert
    ensures !retry ==> r.side.state != s.state
  {
    Stay(s.(state := SProcessChangeCipherSpec, wantCcs := true))
  }

  function OnSProcessChangeCipherSpec(cfg: Config, s: Server, head: Option<Msg>, retry: bool): (r: Moved<Server>)
    requires s.state.SProcessChangeCipherSpec?
    ensures r == Stay(s) || r.side.state.SFailed? ||
            (if s.wantCcs then r.side.state.SProcessChangeCipherSpec? && !r.side.wantCcs
             else r.side.state.ReadNextProto?)
    ensures r.side.secret == s.secret && r.side.recorded == s.recorded
    ensures OnlyReads(s.t, head, r.side.t, r.sent, r.took) && r.side.params == s.params && r.side.peerCert == s.peerCert
    ensures head.Some? && !retry ==> r.took || r.side.state != s.state
  {
    if !s.wantCcs then GoS(s, ReadNextProto)
    else if head.None? then Stay(s)
    else if !Unreadable(head) then FailS(s)
    else Moved(s.(wantCcs := false), [], true)
  }

  function OnReadNextProto(cfg: Config, s: Server, head: Option<Msg>, retry: bool): (r: Moved<Server>)
    requires s.state.ReadNextProto?
    ensures r == Stay(s) || r.side.state.SFailed? || r.side.state.ReadChannelId?
    ensures r.side.secret == s.secret && r.side.recorded == s.recorded
    ensures OnlyReads(s.t, head, r.side.t, r.sent, r.took) && r.side.params == s.params && r.side.peerCert == s.peerCert
    ensures head.Some? && !retry ==> r.took || r.side.state != s.state
  {
    if !s.params.npn then GoS(s, ReadChannelId)
    else if head.None? then Stay(s)
    else if head.value.kind != NextProto then FailS(s)
    else TakeS(s, head.value, ReadChannelId)
  }

  function OnReadChannelId(cfg: Config, s: Server, head: Option<Msg>, retry: bool): (r: Moved<Server>)
    requires s.state.ReadChannelId?
    ensures r == Stay(s) || r.side.state.SFailed? || r.side.state.ReadClientFinished?
    ensures r.side.secret == s.secret && r.side.recorded == s.recorded
    ensures OnlyReads(s.t, head, r.side.t, r.sent, r.took) && r.side.params == s.params && r.side.peerCert == s.peerCert
    ensures head.Some? && !retry ==> r.took || r.side.state != s.state
  {
    if !s.params.channelId then GoS(s, ReadClientFinished)
    else if head.None? then Stay(s) else if Unreadable(head) then FailS(s) else ReadsChannelId(s, head.value)
  }

  function OnReadClientFinished(cfg: Config, s: Server, head: Option<Msg>, retry: bool): (r: Moved<Server>)
    requires s.state.ReadClientFinished?
    ensures r == Stay(s) || r.side.state.SFailed? ||
            (r.side.state == if s.params.resumed then FinishServerHandshake else SendServerFinished)
    ensures r.side.secret == s.secret
    ensures OnlyReads(s.t, head, r.side.t, r.sent, r.took) && r.side.params == s.params && r.side.peerCert == s.peerCert
    ensures head.Some? && !retry ==> r.took || r.side.state != s.state
  {
    if head.None? then Stay(s) else if Unreadable(head) then FailS(s) else ReadsClientFinished(s, head.value)
  }

  function OnSendServerFinished(cfg: Config, s: Server, head: Option<Msg>, retry: bool): (r: Moved<Server>)
    requires s.state.SendServerFinished?
    ensures r.side.state == if s.params.resumed then ReadChangeCipherSpec else FinishServerHandshake
    ensures r.side.secret == s.secret && r.side.recorded == s.recorded
    ensures !retry ==> r.side.state != s.state
  {
    SendsServerFinished(s)
  }

  function OnFinishServerHandshake(cfg: Config, s: Server, head: Option<Msg>, retry: bool): (r: Moved<Server>)
    requires s.state.FinishServerHandshake?
    ensures r.side.state.SDone?
    ensures r.side.secret == s.secret && r.side.recorded == s.recorded
    ensures OnlyReads(s.t, head, r.side.t, r.sent, r.took) && r.side.params == s.params && r.side.peerCert == s.peerCert
    ensures !retry ==> r.side.state != s.state
  {
    GoS(s, SDone)
  }

  function ServerStep(cfg: Config, s: Server, head: Option<Msg>, retry: bool): Moved<Server> {
    match s.state
    case StartAccept => OnStartAccept(cfg, s, head, retry)
    case ReadClientHello => OnReadClientHello(cfg, s, head, retry)
    case SelectCertificate => OnSelectCertificate(cfg, s, head, retry)
    case SelectParameters => OnSelectParameters(cfg, s, head, retry)
    case SendServerHello => OnSendServerHello(cfg, s, head, retry)
    case SendServerCertificate => OnSendServerCertificate(cfg, s, head, retry)
    case SendServerKeyExchange => OnSendServerKeyExchange(cfg, s, head, retry)
    case SendServerHelloDone => OnSendServerHelloDone(cfg, s, head, retry)
    case ReadClientCertificate => OnReadClientCertificate(cfg, s, head, retry)
    case VerifyClientCertificate => OnVerifyClientCertificate(cfg, s, head, retry)
    case ReadClientKeyExchange => OnReadClientKeyExchange(cfg, s, head, retry)
    case ReadClientCertificateVerify => OnReadClientCertificateVerify(cfg, s, head, retry)
    case ReadChangeCipherSpec => OnReadChangeCipherSpec(cfg, s, head, retry)
    case SProcessChangeCipherSpec => OnSProcessChangeCipherSpec(cfg, s, head, retry)
    case ReadNextProto => OnReadNextProto(cfg, s, head, retry)
    case ReadChannelId => OnReadChannelId(cfg, s, head, retry)
    case ReadClientFinished => OnReadClientFinished(cfg, s, head, retry)
    case SendServerFinished => OnSendServerFinished(cfg, s, head, retry)
    case FinishServerHandshake => OnFinishServerHandshake(cfg, s, head, retry)
    case SDone => Stay(s)
    case SFailed => Stay(s)
  }

  /** A pass is the transition of the state it is in. */
  lemma ServerStepIs(cfg: Config, s: Server, head: Option<Msg>, retry: bool)
    ensures s.state.StartAccept? ==> ServerStep(cfg, s, head, retry) == OnStartAccept(cfg, s, head, retry)
    ensures s.state.ReadClientHello? ==> ServerStep(cfg, s, head, retry) == OnReadClientHello(cfg, s, head, retry)
    ensures s.state.SelectCertificate? ==> ServerStep(cfg, s, head, retry) == OnSelectCertificate(cfg, s, head, retry)
    ensures s.state.SelectParameters? ==> ServerStep(cfg, s, head, retry) == OnSelectParameters(cfg, s, head, retry)
    ensures s.state.SendServerHello? ==> ServerStep(cfg, s, head, retry) == OnSendServerHello(cfg, s, head, retry)
    ensures s.state.SendServerCertificate? ==>
              ServerStep(cfg, s, head, retry) == OnSendServerCertificate(cfg, s, head, retry)
    ensures s.state.SendServerKeyExchange? ==>
              ServerStep(cfg, s, head, retry) == OnSendServerKeyExchange(cfg, s, head, retry)
    ensures s.state.SendServerHelloDone? ==>
              ServerStep(cfg, s, head, retry) == OnSendServerHelloDone(cfg, s, head, retry)
    ensures s.state.ReadClientCertificate? ==>
              ServerStep(cfg, s, head, retry) == OnReadClientCertificate(cfg, s, head, retry)
    ensures s.state.VerifyClientCertificate? ==>
              ServerStep(cfg, s, head, retry) == OnVerifyClientCertificate(cfg, s, head, retry)
    ensures s.state.ReadClientKeyExchange? ==>
              ServerStep(cfg, s, head, retry) == OnReadClientKeyExchange(cfg, s, head, retry)
    ensures s.state.ReadClientCertificateVerify? ==>
              ServerStep(cfg, s, head, retry) == OnReadClientCertificateVerify(cfg, s, head, retry)
    ensures s.state.ReadChangeCipherSpec? ==>
              ServerStep(cfg, s, head, retry) == OnReadChangeCipherSpec(cfg, s, head, retry)
    ensures s.state.SProcessChangeCipherSpec? ==>
              ServerStep(cfg, s, head, retry) == OnSProcessChangeCipherSpec(cfg, s, head, retry)
    ensures s.state.ReadNextProto? ==> ServerStep(cfg, s, head, retry) == OnReadNextProto(cfg, s, head, retry)
    ensures s.state.ReadChannelId? ==> ServerStep(cfg, s, head, retry) == OnReadChannelId(cfg, s, head, retry)
    ensures s.state.ReadClientFinished? ==> ServerStep(cfg, s, head, retry) == OnReadClientFinished(cfg, s, head, retry)
    ensures s.state.SendServerFinished? ==> ServerStep(cfg, s, head, retry) == OnSendServerFinished(cfg, s, head, retry)
    ensures s.state.FinishServerHandshake? ==>
              ServerStep(cfg, s, head, retry) == OnFinishServerHandshake(cfg, s, head, retry)
    ensures s.state.SDone? || s.state.SFailed? ==> ServerStep(cfg, s, head, retry) == Stay(s)
  {
    hide OnStartAccept, OnReadClientHello, OnSelectCertificate, OnSelectParameters, OnSendServerHello;
    hide OnSendServerCertificate, OnSendServerKeyExchange, OnSendServerHelloDone, OnReadClientCertificate;
    hide OnVerifyClientCertificate, OnReadClientKeyExchange, OnReadClientCertificateVerify, OnReadChangeCipherSpec;
    hide OnSProcessChangeCipherSpec, OnReadNextProto, OnReadChannelId, OnReadClientFinished, OnSendServerFinished;
    hide OnFinishServerHandshake;
  }

  lemma ServerStays(s: Server, head: Option<Msg>)
    ensures Stay(s).side == s && OnlyReads(s.t, head, Stay(s).side.t, Stay(s).sent, Stay(s).took)
  {
  }

  // ----- the two together

  datatype World = World(client: Client, server: Server, toServer: seq<Msg>, toClient: seq<Msg>)

  datatype Move = ClientMoves(retry: bool) | ServerMoves(retry: bool)

  function Head(wire: seq<Msg>): Option<Msg> {
    if wire == [] then None else Some(wire[0])
  }

  function After(wire: seq<Msg>, took: bool): seq<Msg> {
    if took && wire != [] then wire[1..] else wire
  }

  function Step(cfg: Config, w: World, move: Move): World {
    match move
    case ClientMoves(retry) =>
      var r := ClientStep(cfg, w.client, Head(w.toClient), retry);
      World(r.side, w.server, w.toServer + r.sent, After(w.toClient, r.took))
    case ServerMoves(retry) =>
      var r := ServerStep(cfg, w.server, Head(w.toServer), retry);
      World(w.client, r.side, After(w.toServer, r.took), w.toClient + r.sent)
  }

  const Start := World(ClientStart, ServerStart, [], [])

  /** The moves in turn, from any state of the two. */
  function RunFrom(cfg: Config, w: World, moves: seq<Move>): World {
    if moves == [] then w else Step(cfg, RunFrom(cfg, w, moves[..|moves| - 1]), moves[|moves| - 1])
  }

  function Run(cfg: Config, moves: seq<Move>): World {
    RunFrom(cfg, Start, moves)
  }
}
