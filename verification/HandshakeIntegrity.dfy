/**
 * Each side against an arbitrary network: what a side that is done has checked, and what follows when
 * nobody else can make a Finished under its secret (RFC 5246, section 7.4.9).
 */
module HandshakeIntegrity {
  import opened Wire
  import opened HandshakeMachines

  /** What the network and the callbacks do at one pass: any message at all, or none. */
  datatype Input = Input(head: Option<Msg>, retry: bool)

  function ClientAfter(cfg: Config, inputs: seq<Input>): Client {
    if inputs == [] then ClientStart
    else
      var i := inputs[|inputs| - 1];
      ClientStep(cfg, ClientAfter(cfg, inputs[..|inputs| - 1]), i.head, i.retry).side
  }

  function ClientSent(cfg: Config, inputs: seq<Input>): seq<Msg> {
    if inputs == [] then []
    else
      var before, i := inputs[..|inputs| - 1], inputs[|inputs| - 1];
      ClientSent(cfg, before) + ClientStep(cfg, ClientAfter(cfg, before), i.head, i.retry).sent
  }

  function ServerAfter(cfg: Config, inputs: seq<Input>): Server {
    if inputs == [] then ServerStart
    else
      var i := inputs[|inputs| - 1];
      ServerStep(cfg, ServerAfter(cfg, inputs[..|inputs| - 1]), i.head, i.retry).side
  }

  function ServerSent(cfg: Config, inputs: seq<Input>): seq<Msg> {
    if inputs == [] then []
    else
      var before, i := inputs[..|inputs| - 1], inputs[|inputs| - 1];
      ServerSent(cfg, before) + ServerStep(cfg, ServerAfter(cfg, before), i.head, i.retry).sent
  }

  /** Message k of the transcript is a Finished over everything before it. */
  ghost predicate FinishedAt(fromServer: bool, secret: Option<Secret>, transcript: seq<Msg>, k: nat) {
    k < |transcript| && transcript[k] == Msg(Finished, Mac(fromServer, secret, transcript[..k]))
  }

  ghost predicate HasFinished(fromServer: bool, secret: Option<Secret>, transcript: seq<Msg>) {
    exists k: nat :: FinishedAt(fromServer, secret, transcript, k)
  }

  ghost predicate HasVerify(transcript: seq<Msg>) {
    exists k: nat :: SignedAt(transcript, k)
  }

  ghost predicate SignedAt(transcript: seq<Msg>, k: nat) {
    k < |transcript| && transcript[k] == Msg(CertificateVerify, Signed(transcript[..k]))
  }

  predicate HasKind(sent: seq<Msg>, kind: Kind) {
    exists m :: m in sent && m.kind == kind
  }

  /** Every Finished that was sent is in the transcript, over what was before it. */
  ghost predicate SentHashed(fromServer: bool, sent: seq<Msg>, secret: Option<Secret>, transcript: seq<Msg>) {
    forall m :: m in sent && m.kind == Finished ==>
      exists k: nat :: FinishedAt(fromServer, secret, transcript, k) && transcript[k] == m
  }

  /** Every CertificateVerify that was sent is in the transcript, signing what was before it. */
  ghost predicate SentSigned(sent: seq<Msg>, transcript: seq<Msg>) {
    forall m :: m in sent && m.kind == CertificateVerify ==>
      exists k: nat :: SignedAt(transcript, k) && transcript[k] == m
  }

  lemma SignedKept(sent: seq<Msg>, t: seq<Msg>, t': seq<Msg>)
    requires SentSigned(sent, t) && t <= t'
    ensures SentSigned(sent, t')
  {
    forall m | m in sent && m.kind == CertificateVerify
      ensures exists k: nat :: SignedAt(t', k) && t'[k] == m
    {
      var k: nat :| SignedAt(t, k) && t[k] == m;
      assert t'[..k] == t[..k];
      assert SignedAt(t', k);
    }
  }

  lemma FinishedKept(fromServer: bool, secret: Option<Secret>, t: seq<Msg>, t': seq<Msg>, k: nat)
    requires FinishedAt(fromServer, secret, t, k) && t <= t'
    ensures FinishedAt(fromServer, secret, t', k) && t'[k] == t[k]
  {
    assert t'[..k] == t[..k];
  }

  lemma HasKept(fromServer: bool, secret: Option<Secret>, t: seq<Msg>, t': seq<Msg>)
    requires HasFinished(fromServer, secret, t) && t <= t'
    ensures HasFinished(fromServer, secret, t')
  {
    var k: nat :| FinishedAt(fromServer, secret, t, k);
    FinishedKept(fromServer, secret, t, t', k);
  }

  lemma VerifyKept(t: seq<Msg>, t': seq<Msg>)
    requires HasVerify(t) && t <= t'
    ensures HasVerify(t')
  {
    var k: nat :| SignedAt(t, k);
    assert t'[..k] == t[..k];
    assert SignedAt(t', k);
  }

  lemma SentKept(fromServer: bool, sent: seq<Msg>, secret: Option<Secret>, t: seq<Msg>, t': seq<Msg>)
    requires SentHashed(fromServer, sent, secret, t) && t <= t'
    ensures SentHashed(fromServer, sent, secret, t')
  {
    forall m | m in sent && m.kind == Finished
      ensures exists k: nat :: FinishedAt(fromServer, secret, t', k) && t'[k] == m
    {
      var k: nat :| FinishedAt(fromServer, secret, t, k) && t[k] == m;
      FinishedKept(fromServer, secret, t, t', k);
    }
  }

  lemma JustSigned(t: seq<Msg>, m: Msg)
    requires m == Msg(CertificateVerify, Signed(t))
    ensures SignedAt(t + [m], |t|)
  {
  }

  lemma JustHashed(fromServer: bool, secret: Option<Secret>, t: seq<Msg>, m: Msg)
    requires m == Msg(Finished, Mac(fromServer, secret, t))
    ensures FinishedAt(fromServer, secret, t + [m], |t|)
  {
  }

  // ----- the client

  /** The hash function is not known yet. */
  predicate ClientUnhashed(st: CState) {
    st.StartConnect? || st.EnterEarlyData? || st.ReadServerHello?
  }

  /** States of a full handshake before the client's Finished. */
  predicate ClientFull(st: CState) {
    || st.ReadServerCertificate? || st.ReadCertificateStatus? || st.VerifyServerCertificate?
    || st.ReadServerKeyExchange? || st.ReadCertificateRequest? || st.ReadServerHelloDone?
    || st.SendClientCertificate? || st.SendClientKeyExchange? || st.SendClientCertificateVerify?
  }

  /** States from which the secret no longer changes. */
  predicate ClientSettled(st: CState) {
    !ClientUnhashed(st) && (ClientFull(st) ==> st.SendClientCertificateVerify?)
  }

  /** States that are reached only past the check of the server's Finished. */
  predicate ClientChecked(c: Client) {
    || c.state.FinishClientHandshake? || c.state.CDone?
    || (c.params.resumed && (c.state.SendClientFinished? || c.state.FinishFlight?))
  }

  /** Before the hash function is known there is a buffer, and from then on a hash. */
  ghost predicate ClientHashes(c: Client) {
    && c.t.Valid()
    && (ClientUnhashed(c.state) ==> c.t.buffer.Some?)
    && (!ClientUnhashed(c.state) && !c.state.CFailed? ==> c.t.hash.Some?)
  }

  ghost predicate ClientInv(c: Client, sent: seq<Msg>) {
    && ClientHashes(c)
    && (ClientFull(c.state) ==> !c.params.resumed)
    && (ClientChecked(c) ==> HasFinished(true, c.secret, c.t.Hashed()))
    && SentHashed(false, sent, c.secret, c.t.Hashed()) && SentSigned(sent, c.t.Hashed())
    && (HasKind(sent, Finished) ==> ClientSettled(c.state))
  }

  ghost predicate ClientKeeps(sent: seq<Msg>, r: Moved<Client>) {
    ClientInv(r.side, sent + r.sent)
  }

  /** A step that neither checks nor sends a Finished keeps the invariant if it keeps what was hashed. */
  lemma ClientMovesOn(c: Client, sent: seq<Msg>, r: Moved<Client>)
    requires ClientInv(c, sent) && ClientHashes(r.side) && c.t.Hashed() <= r.side.t.Hashed()
    requires !HasKind(r.sent, Finished) && SentSigned(r.sent, r.side.t.Hashed())
    requires ClientFull(r.side.state) ==> !r.side.params.resumed
    requires ClientChecked(r.side) ==> ClientChecked(c)
    requires ClientSettled(c.state) ==> ClientSettled(r.side.state) && r.side.secret == c.secret
    ensures ClientKeeps(sent, r)
  {
    var c' := r.side;
    forall m | m in sent + r.sent && m.kind == Finished
      ensures m in sent
    {
    }
    SignedKept(sent, c.t.Hashed(), c'.t.Hashed());
    if ClientChecked(c') {
      HasKept(true, c.secret, c.t.Hashed(), c'.t.Hashed());
    }
    if HasKind(sent, Finished) {
      SentKept(false, sent, c.secret, c.t.Hashed(), c'.t.Hashed());
    }
  }

  lemma ClientReadsHello(cfg: Config, c: Client, sent: seq<Msg>, m: Msg)
    requires ClientInv(c, sent) && c.state.ReadServerHello?
    ensures ClientKeeps(sent, ReadsServerHello(cfg, c, m))
  {
    hide SentHashed, HasFinished;
    ClientMovesOn(c, sent, ReadsServerHello(cfg, c, m));
  }

  lemma ClientReadsRequest(c: Client, sent: seq<Msg>, m: Msg)
    requires ClientInv(c, sent) && c.state.ReadCertificateRequest?
    ensures ClientKeeps(sent, ReadsCertificateRequest(c, m))
  {
    hide SentHashed, HasFinished;
    ClientMovesOn(c, sent, ReadsCertificateRequest(c, m));
  }

  lemma ClientChecksFinished(c: Client, sent: seq<Msg>, m: Msg)
    requires ClientInv(c, sent) && c.state.ReadServerFinished?
    ensures ClientKeeps(sent, ReadsServerFinished(c, m))
    ensures ReadsServerFinished(c, m).side.state.CFailed? <==> m != Msg(Finished, Mac(true, c.secret, c.t.Hashed()))
  {
    var r := ReadsServerFinished(c, m);
    if r.side.state.CFailed? {
      ClientMovesOn(c, sent, r);
    } else {
      JustHashed(true, c.secret, c.t.Hashed(), m);
      SentKept(false, sent, c.secret, c.t.Hashed(), r.side.t.Hashed());
      SignedKept(sent, c.t.Hashed(), r.side.t.Hashed());
      assert sent + [] == sent;
    }
  }

  lemma ClientSendsCertificate(cfg: Config, c: Client, sent: seq<Msg>)
    requires ClientInv(c, sent) && c.state.SendClientCertificate?
    ensures ClientKeeps(sent, SendsCertificate(cfg, c))
  {
    hide SentHashed, HasFinished;
    ClientMovesOn(c, sent, SendsCertificate(cfg, c));
  }

  lemma ClientSendsKeyExchange(cfg: Config, c: Client, sent: seq<Msg>)
    requires ClientInv(c, sent) && c.state.SendClientKeyExchange?
    ensures ClientKeeps(sent, SendsKeyExchange(cfg, c))
  {
    hide SentHashed, HasFinished;
    ClientMovesOn(c, sent, SendsKeyExchange(cfg, c));
  }

  lemma ClientSendsVerify(c: Client, sent: seq<Msg>)
    requires ClientInv(c, sent) && c.state.SendClientCertificateVerify?
    ensures ClientKeeps(sent, SendsCertificateVerify(c))
  {
    hide SentHashed, HasFinished;
    var r := SendsCertificateVerify(c);
    if c.t.buffer.Some? {
      JustSigned(c.t.Hashed(), r.sent[0]);
    }
    ClientMovesOn(c, sent, r);
  }

  /** The last flight ends with a Finished over everything before it, and has no other. */
  lemma FlightShape(c: Client) returns (before: seq<Msg>, fin: Msg)
    requires c.t.Valid() && c.t.hash.Some?
    ensures var r := SendsFinished(c);
            && r.side == c.(state := FinishFlight, t := r.side.t) && r.side.t.Valid() && r.side.t.hash.Some?
            && r.side.t.Hashed() == before + [fin] && c.t.Hashed() <= before
            && fin == Msg(Finished, Mac(false, c.secret, before))
            && forall m :: m in r.sent ==> m.kind != CertificateVerify && (m.kind == Finished ==> m == fin)
  {
    var r := SendsFinished(c);
    var t := r.side.t.Hashed();
    fin := r.sent[|r.sent| - 1];
    before := t[..|t| - 1];
  }

  lemma ClientSendsFinished(c: Client, sent: seq<Msg>)
    requires ClientInv(c, sent) && c.state.SendClientFinished?
    ensures ClientKeeps(sent, SendsFinished(c))
  {
    hide SendsFinished;
    var before, fin := FlightShape(c);
    var r := SendsFinished(c);
    var t := r.side.t.Hashed();
    JustHashed(false, c.secret, before, fin);
    if ClientChecked(c) {
      HasKept(true, c.secret, c.t.Hashed(), t);
    }
    SentKept(false, sent, c.secret, c.t.Hashed(), t);
    SignedKept(sent, c.t.Hashed(), t);
  }

  // ----- the client's steps, state by state

  lemma ClientStaysKeeps(c: Client, sent: seq<Msg>)
    requires ClientInv(c, sent)
    ensures ClientKeeps(sent, Stay(c)) && ClientKeeps(sent, FailC(c))
  {
    hide SentHashed, HasFinished, SentSigned;
    assert sent + [] == sent;
  }

  lemma ClientGoes(c: Client, sent: seq<Msg>, st: CState)
    requires ClientInv(c, sent)
    requires (c.state.ReadCertificateRequest? && st.ReadServerHelloDone?)
             || (c.state.SendClientCertificate? && st.SendClientKeyExchange?)
             || (c.state.SendClientCertificateVerify? && st.SendClientFinished?)
    ensures ClientKeeps(sent, Go(c, st))
  {
    hide SentHashed, HasFinished, SentSigned;
    assert sent + [] == sent;
  }

  lemma ClientStartsConnect(cfg: Config, c: Client, sent: seq<Msg>, head: Option<Msg>, retry: bool)
    requires ClientInv(c, sent) && c.state.StartConnect?
    ensures ClientKeeps(sent, OnStartConnect(cfg, c, head, retry))
  {
    hide SentHashed, HasFinished, ClientKeeps;
    ClientMovesOn(c, sent, OnStartConnect(cfg, c, head, retry));
  }

  lemma ClientOnHello(cfg: Config, c: Client, sent: seq<Msg>, head: Option<Msg>, retry: bool)
    requires ClientInv(c, sent) && c.state.ReadServerHello?
    ensures ClientKeeps(sent, OnReadServerHello(cfg, c, head, retry))
  {
    hide ClientInv, ClientKeeps, ReadsServerHello;
    ClientStaysKeeps(c, sent);
    if head.Some? {
      ClientReadsHello(cfg, c, sent, head.value);
    }
  }

  lemma ClientOnRequest(cfg: Config, c: Client, sent: seq<Msg>, head: Option<Msg>, retry: bool)
    requires ClientInv(c, sent) && c.state.ReadCertificateRequest?
    ensures ClientKeeps(sent, OnReadCertificateRequest(cfg, c, head, retry))
  {
    hide ClientInv, ClientKeeps, ReadsCertificateRequest;
    ClientStaysKeeps(c, sent);
    ClientGoes(c, sent, ReadServerHelloDone);
    if head.Some? {
      ClientReadsRequest(c, sent, head.value);
    }
  }

  lemma ClientOnFinished(cfg: Config, c: Client, sent: seq<Msg>, head: Option<Msg>, retry: bool)
    requires ClientInv(c, sent) && c.state.ReadServerFinished?
    ensures ClientKeeps(sent, OnReadServerFinished(cfg, c, head, retry))
  {
    hide ClientInv, ClientKeeps, ReadsServerFinished;
    ClientStaysKeeps(c, sent);
    if head.Some? {
      ClientChecksFinished(c, sent, head.value);
    }
  }

  lemma ClientOnCertificate(cfg: Config, c: Client, sent: seq<Msg>, head: Option<Msg>, retry: bool)
    requires ClientInv(c, sent) && c.state.SendClientCertificate?
    ensures ClientKeeps(sent, OnSendClientCertificate(cfg, c, head, retry))
  {
    hide ClientInv, ClientKeeps, SendsCertificate;
    ClientStaysKeeps(c, sent);
    ClientGoes(c, sent, SendClientKeyExchange);
    ClientSendsCertificate(cfg, c, sent);
  }

  lemma ClientOnKeyExchange(cfg: Config, c: Client, sent: seq<Msg>, head: Option<Msg>, retry: bool)
    requires ClientInv(c, sent) && c.state.SendClientKeyExchange?
    ensures ClientKeeps(sent, OnSendClientKeyExchange(cfg, c, head, retry))
  {
    hide ClientInv, ClientKeeps, SendsKeyExchange;
    ClientStaysKeeps(c, sent);
    ClientSendsKeyExchange(cfg, c, sent);
  }

  lemma ClientOnVerify(cfg: Config, c: Client, sent: seq<Msg>, head: Option<Msg>, retry: bool)
    requires ClientInv(c, sent) && c.state.SendClientCertificateVerify?
    ensures ClientKeeps(sent, OnSendClientCertificateVerify(cfg, c, head, retry))
  {
    hide ClientInv, ClientKeeps, SendsCertificateVerify;
    ClientStaysKeeps(c, sent);
    ClientGoes(c, sent, SendClientFinished);
    ClientSendsVerify(c, sent);
  }

  lemma ClientOnFlight(cfg: Config, c: Client, sent: seq<Msg>, head: Option<Msg>, retry: bool)
    requires ClientInv(c, sent) && c.state.SendClientFinished?
    ensures ClientKeeps(sent, OnSendClientFinished(cfg, c, head, retry))
  {
    hide ClientInv, ClientKeeps, SendsFinished;
    ClientStaysKeeps(c, sent);
    ClientSendsFinished(c, sent);
  }

  /** States of a full handshake that only read. */
  predicate ClientReads(st: CState) {
    || st.ReadServerCertificate? || st.ReadCertificateStatus? || st.VerifyServerCertificate?
    || st.ReadServerKeyExchange? || st.ReadServerHelloDone?
  }

  lemma ClientReadsStep(cfg: Config, c: Client, head: Option<Msg>, retry: bool)
    requires c.state.ReadServerCertificate? || c.state.ReadCertificateStatus? || c.state.VerifyServerCertificate?
             || c.state.ReadServerKeyExchange? || c.state.ReadServerHelloDone?
    ensures var r := ClientStep(cfg, c, head, retry);
            var st := r.side.state;
            && OnlyReads(c.t, head, r.side.t, r.sent, r.took) && r.side.params == c.params
            && (|| st == c.state || st.CFailed? || st.ReadCertificateStatus? || st.VerifyServerCertificate?
                || st.ReadServerKeyExchange? || st.ReadCertificateRequest? || st.SendClientCertificate?)
  {
    hide *;
    ClientStays(c, head);
    ClientStepIs(cfg, c, head, retry);
  }

  lemma ClientReadsKeep(cfg: Config, c: Client, sent: seq<Msg>, head: Option<Msg>, retry: bool)
    requires ClientInv(c, sent) && ClientReads(c.state)
    ensures ClientKeeps(sent, ClientStep(cfg, c, head, retry))
  {
    hide ClientStep, SentHashed, HasFinished, ClientKeeps, Transcript.Update, Transcript.Hashed, Transcript.Valid;
    ClientReadsStep(cfg, c, head, retry);
    var r := ClientStep(cfg, c, head, retry);
    ReadsExtend(c.t, head, r.side.t, r.sent, r.took);
    ClientMovesOn(c, sent, r);
  }

  /** The other states that only read, and those at the end. */
  predicate ClientEnds(st: CState) {
    || st.EnterEarlyData? || st.FinishFlight? || st.ReadSessionTicket? || st.CProcessChangeCipherSpec?
    || st.FinishClientHandshake? || st.CDone? || st.CFailed?
  }

  lemma ClientEndsStep(cfg: Config, c: Client, head: Option<Msg>, retry: bool)
    requires c.state.EnterEarlyData? || c.state.FinishFlight? || c.state.ReadSessionTicket? || c.state.CDone?
             || c.state.CProcessChangeCipherSpec? || c.state.FinishClientHandshake? || c.state.CFailed?
    ensures var r := ClientStep(cfg, c, head, retry);
            && OnlyReads(c.t, head, r.side.t, r.sent, r.took)
            && r.side.params == c.params && r.side.secret == c.secret
            && match c.state
               case EnterEarlyData => r.side.state.ReadServerHello?
               case FinishFlight =>
                 r.side.state == if c.params.resumed then FinishClientHandshake else ReadSessionTicket
               case ReadSessionTicket =>
                 r.side.state.ReadSessionTicket? || r.side.state.CFailed? || r.side.state.CProcessChangeCipherSpec?
               case CProcessChangeCipherSpec =>
                 r.side.state.CProcessChangeCipherSpec? || r.side.state.CFailed? || r.side.state.ReadServerFinished?
               case FinishClientHandshake => r.side.state.CDone?
               case _ => r.side.state == c.state
  {
    hide *;
    ClientStays(c, head);
    ClientStepIs(cfg, c, head, retry);
  }

  lemma ClientEndsKeep(cfg: Config, c: Client, sent: seq<Msg>, head: Option<Msg>, retry: bool)
    requires ClientInv(c, sent) && ClientEnds(c.state)
    ensures ClientKeeps(sent, ClientStep(cfg, c, head, retry))
  {
    hide ClientStep, SentHashed, HasFinished, ClientKeeps, Transcript.Update, Transcript.Hashed, Transcript.Valid;
    ClientEndsStep(cfg, c, head, retry);
    var r := ClientStep(cfg, c, head, retry);
    ReadsExtend(c.t, head, r.side.t, r.sent, r.took);
    ClientMovesOn(c, sent, r);
  }

  lemma ClientStepKeeps(cfg: Config, c: Client, sent: seq<Msg>, head: Option<Msg>, retry: bool)
    requires ClientInv(c, sent)
    ensures ClientKeeps(sent, ClientStep(cfg, c, head, retry))
  {
    hide ClientInv, ClientKeeps, ClientStep;
    ClientStepIs(cfg, c, head, retry);
    match c.state
    case StartConnect => ClientStartsConnect(cfg, c, sent, head, retry);
    case ReadServerHello => ClientOnHello(cfg, c, sent, head, retry);
    case ReadCertificateRequest => ClientOnRequest(cfg, c, sent, head, retry);
    case ReadServerFinished => ClientOnFinished(cfg, c, sent, head, retry);
    case SendClientCertificate => ClientOnCertificate(cfg, c, sent, head, retry);
    case SendClientKeyExchange => ClientOnKeyExchange(cfg, c, sent, head, retry);
    case SendClientCertificateVerify => ClientOnVerify(cfg, c, sent, head, retry);
    case SendClientFinished => ClientOnFlight(cfg, c, sent, head, retry);
    case _ =>
      if ClientReads(c.state) {
        ClientReadsKeep(cfg, c, sent, head, retry);
      } else {
        ClientEndsKeep(cfg, c, sent, head, retry);
      }
  }

  lemma ClientAtStart()
    ensures ClientInv(ClientStart, [])
  {
  }

  /** Against any network: what a client has checked and sent, at every point of every run. */
  lemma {:induction false} ClientRunKeeps(cfg: Config, inputs: seq<Input>)
    ensures ClientInv(ClientAfter(cfg, inputs), ClientSent(cfg, inputs))
  {
    hide ClientStep, ClientInv;
    ClientAtStart();
    if inputs != [] {
      var before, i := inputs[..|inputs| - 1], inputs[|inputs| - 1];
      var c, sent := ClientAfter(cfg, before), ClientSent(cfg, before);
      ClientRunKeeps(cfg, before);
      ClientStepKeeps(cfg, c, sent, i.head, i.retry);
    }
  }

  // ----- the server

  /** The hash function is not known yet. */
  predicate ServerUnhashed(st: SState) {
    st.StartAccept? || st.ReadClientHello? || st.SelectCertificate? || st.SelectParameters?
  }

  /** States of a full handshake before the client's flight is verified. */
  predicate ServerFull(st: SState) {
    || st.SendServerCertificate? || st.SendServerKeyExchange? || st.SendServerHelloDone? || st.ReadClientCertificate?
    || st.VerifyClientCertificate? || st.ReadClientKeyExchange? || st.ReadClientCertificateVerify?
  }

  /** States from which the secret no longer changes. */
  predicate ServerSettled(st: SState) {
    !ServerUnhashed(st) && !st.SendServerHello? && (ServerFull(st) ==> st.ReadClientCertificateVerify?)
  }

  /** States that are reached only past the check of the client's Finished. */
  predicate ServerChecked(s: Server) {
    s.state.FinishServerHandshake? || s.state.SDone? || (s.state.SendServerFinished? && !s.params.resumed)
  }

  /** The client has a certificate, and the check of its CertificateVerify is past. */
  predicate ServerVerified(s: Server) {
    s.peerCert && ServerSettled(s.state) && !s.state.ReadClientCertificateVerify? && !s.state.SFailed?
  }

  /** No client certificate has been read yet. */
  predicate BeforeClientCert(st: SState) {
    || ServerUnhashed(st) || st.SendServerHello? || st.SendServerCertificate? || st.SendServerKeyExchange?
    || st.SendServerHelloDone? || st.ReadClientCertificate?
  }

  ghost predicate ServerHashes(s: Server) {
    && s.t.Valid()
    && (ServerUnhashed(s.state) ==> s.t.buffer.Some?)
    && (!ServerUnhashed(s.state) && !s.state.SFailed? ==> s.t.hash.Some?)
  }

  ghost predicate ServerInv(s: Server, sent: seq<Msg>) {
    && ServerHashes(s)
    && (ServerFull(s.state) ==> !s.params.resumed)
    && (BeforeClientCert(s.state) ==> !s.peerCert)
    && (ServerChecked(s) ==> HasFinished(false, s.secret, s.t.Hashed()))
    && (ServerVerified(s) ==> HasVerify(s.t.Hashed()))
    && SentHashed(true, sent, s.secret, s.t.Hashed())
    && (HasKind(sent, Finished) ==> ServerSettled(s.state))
  }

  ghost predicate ServerKeeps(sent: seq<Msg>, r: Moved<Server>) {
    ServerInv(r.side, sent + r.sent)
  }

  /** A step that neither checks a message nor sends a Finished keeps the invariant if it keeps what was hashed. */
  lemma ServerMovesOn(s: Server, sent: seq<Msg>, r: Moved<Server>)
    requires ServerInv(s, sent) && ServerHashes(r.side) && s.t.Hashed() <= r.side.t.Hashed()
    requires !HasKind(r.sent, Finished)
    requires ServerFull(r.side.state) ==> !r.side.params.resumed
    requires BeforeClientCert(r.side.state) ==> !r.side.peerCert
    requires ServerChecked(r.side) ==> ServerChecked(s)
    requires ServerVerified(r.side) ==> ServerVerified(s)
    requires ServerSettled(s.state) ==> ServerSettled(r.side.state) && r.side.secret == s.secret
    ensures ServerKeeps(sent, r)
  {
    var s' := r.side;
    forall m | m in sent + r.sent && m.kind == Finished
      ensures m in sent
    {
    }
    if ServerChecked(s') {
      HasKept(false, s.secret, s.t.Hashed(), s'.t.Hashed());
    }
    if ServerVerified(s') {
      VerifyKept(s.t.Hashed(), s'.t.Hashed());
    }
    if HasKind(sent, Finished) {
      SentKept(true, sent, s.secret, s.t.Hashed(), s'.t.Hashed());
    }
  }

  lemma ServerSelects(cfg: Config, s: Server, sent: seq<Msg>, m: Msg)
    requires ServerInv(s, sent) && s.state.SelectParameters?
    ensures ServerKeeps(sent, SelectsParameters(cfg, s, m))
  {
    hide SentHashed, HasFinished, HasVerify;
    ServerMovesOn(s, sent, SelectsParameters(cfg, s, m));
  }

  lemma ServerSendsHello(cfg: Config, s: Server, sent: seq<Msg>)
    requires ServerInv(s, sent) && s.state.SendServerHello?
    ensures ServerKeeps(sent, SendsServerHello(cfg, s))
  {
  }

  lemma ServerSendsCertificate(cfg: Config, s: Server, sent: seq<Msg>)
    requires ServerInv(s, sent) && s.state.SendServerCertificate?
    ensures ServerKeeps(sent, SendsServerCertificate(cfg, s))
  {
    hide SentHashed, HasFinished, HasVerify;
    ServerMovesOn(s, sent, SendsServerCertificate(cfg, s));
  }

  lemma ServerSendsDone(s: Server, sent: seq<Msg>)
    requires ServerInv(s, sent) && s.state.SendServerHelloDone?
    ensures ServerKeeps(sent, SendsServerHelloDone(s))
  {
    hide SentHashed, HasFinished, HasVerify;
    ServerMovesOn(s, sent, SendsServerHelloDone(s));
  }

  lemma ServerReadsCertificate(cfg: Config, s: Server, sent: seq<Msg>, m: Msg)
    requires ServerInv(s, sent) && s.state.ReadClientCertificate?
    ensures ServerKeeps(sent, ReadsClientCertificate(cfg, s, m))
  {
    hide SentHashed, HasFinished, HasVerify, ServerKeeps, ReadsClientCertificate, Transcript.Hashed;
    CertificateShape(cfg, s, m);
    ServerMovesOn(s, sent, ReadsClientCertificate(cfg, s, m));
  }

  lemma CertificateShape(cfg: Config, s: Server, m: Msg)
    requires s.t.Valid() && s.t.hash.Some?
    ensures var r := ReadsClientCertificate(cfg, s, m);
            && r.sent == [] && r.side.t.Valid() && r.side.t.hash.Some? && s.t.Hashed() <= r.side.t.Hashed()
            && (|| r.side == s.(state := SFailed)
                || r.side == s.(state := VerifyClientCertificate, peerCert := r.side.peerCert, t := r.side.t))
  {
  }

  lemma ServerReadsKeyExchange(s: Server, sent: seq<Msg>, m: Msg)
    requires ServerInv(s, sent) && s.state.ReadClientKeyExchange?
    ensures ServerKeeps(sent, ReadsKeyExchange(s, m))
  {
    hide SentHashed, HasFinished, HasVerify;
    ServerMovesOn(s, sent, ReadsKeyExchange(s, m));
  }

  lemma ServerChecksVerify(s: Server, sent: seq<Msg>, m: Msg)
    requires ServerInv(s, sent) && s.state.ReadClientCertificateVerify?
    ensures ServerKeeps(sent, ReadsCertificateVerify(s, m))
    ensures ReadsCertificateVerify(s, m).side.state.SFailed? <==>
            s.t.buffer.None? || m != Msg(CertificateVerify, Signed(s.t.Hashed()))
  {
    var r := ReadsCertificateVerify(s, m);
    if r.side.state.SFailed? {
      ServerMovesOn(s, sent, r);
    } else {
      JustSigned(s.t.Hashed(), m);
      SentKept(true, sent, s.secret, s.t.Hashed(), r.side.t.Hashed());
      assert sent + [] == sent;
    }
  }

  lemma ServerFinishedShape(s: Server, m: Msg)
    ensures var r := ReadsClientFinished(s, m);
            || (m != Msg(Finished, Mac(false, s.secret, s.t.Hashed())) && r == Moved(s.(state := SFailed), [], false))
            || (&& m == Msg(Finished, Mac(false, s.secret, s.t.Hashed())) && r.sent == []
                && r.side == s.(state := if s.params.resumed then FinishServerHandshake else SendServerFinished,
                                t := s.t.Update(m), recorded := r.side.recorded))
  {
  }

  lemma ServerChecksFinished(s: Server, sent: seq<Msg>, m: Msg)
    requires ServerInv(s, sent) && s.state.ReadClientFinished?
    ensures ServerKeeps(sent, ReadsClientFinished(s, m))
    ensures ReadsClientFinished(s, m).side.state.SFailed? <==> m != Msg(Finished, Mac(false, s.secret, s.t.Hashed()))
  {
    ServerFinishedShape(s, m);
    hide ReadsClientFinished, SentHashed, HasVerify, FinishedAt;
    var r := ReadsClientFinished(s, m);
    if r.side.state.SFailed? {
      ServerMovesOn(s, sent, r);
    } else {
      JustHashed(false, s.secret, s.t.Hashed(), m);
      SentKept(true, sent, s.secret, s.t.Hashed(), r.side.t.Hashed());
      if s.peerCert {
        VerifyKept(s.t.Hashed(), r.side.t.Hashed());
      }
      assert sent + [] == sent;
    }
  }

  lemma ServerFlightShape(s: Server) returns (before: seq<Msg>, fin: Msg)
    requires s.t.Valid() && s.t.hash.Some?
    ensures var r := SendsServerFinished(s);
            && r.side == s.(state := if s.params.resumed then ReadChangeCipherSpec else FinishServerHandshake,
                            t := r.side.t)
            && r.side.t.Valid() && r.side.t.hash.Some?
            && r.side.t.Hashed() == before + [fin] && s.t.Hashed() <= before
            && fin == Msg(Finished, Mac(true, s.secret, before))
            && forall m :: m in r.sent ==> m.kind == Finished ==> m == fin
  {
    var r := SendsServerFinished(s);
    var t := r.side.t.Hashed();
    fin := r.sent[|r.sent| - 1];
    before := t[..|t| - 1];
  }

  lemma ServerSendsFinished(s: Server, sent: seq<Msg>)
    requires ServerInv(s, sent) && s.state.SendServerFinished?
    ensures ServerKeeps(sent, SendsServerFinished(s))
  {
    hide SendsServerFinished;
    var before, fin := ServerFlightShape(s);
    var r := SendsServerFinished(s);
    var t := r.side.t.Hashed();
    JustHashed(true, s.secret, before, fin);
    if ServerChecked(s) {
      HasKept(false, s.secret, s.t.Hashed(), t);
    }
    if s.peerCert {
      VerifyKept(s.t.Hashed(), t);
    }
    SentKept(true, sent, s.secret, s.t.Hashed(), t);
  }

  // ----- the server's steps, state by state

  lemma ServerStaysKeeps(s: Server, sent: seq<Msg>)
    requires ServerInv(s, sent)
    ensures ServerKeeps(sent, Stay(s)) && ServerKeeps(sent, FailS(s))
  {
    hide SentHashed, HasFinished, HasVerify;
    assert sent + [] == sent;
  }

  lemma ServerOnParameters(cfg: Config, s: Server, sent: seq<Msg>, head: Option<Msg>, retry: bool)
    requires ServerInv(s, sent) && s.state.SelectParameters?
    ensures ServerKeeps(sent, OnSelectParameters(cfg, s, head, retry))
  {
    hide ServerInv, ServerKeeps, SelectsParameters;
    ServerStaysKeeps(s, sent);
    if head.Some? {
      ServerSelects(cfg, s, sent, head.value);
    }
  }

  lemma ServerOnHello(cfg: Config, s: Server, sent: seq<Msg>, head: Option<Msg>, retry: bool)
    requires ServerInv(s, sent) && s.state.SendServerHello?
    ensures ServerKeeps(sent, OnSendServerHello(cfg, s, head, retry))
  {
    hide ServerInv, ServerKeeps, SendsServerHello;
    ServerStaysKeeps(s, sent);
    ServerSendsHello(cfg, s, sent);
  }

  lemma ServerOnCertificate(cfg: Config, s: Server, sent: seq<Msg>, head: Option<Msg>, retry: bool)
    requires ServerInv(s, sent) && s.state.SendServerCertificate?
    ensures ServerKeeps(sent, OnSendServerCertificate(cfg, s, head, retry))
  {
    hide ServerInv, ServerKeeps, SendsServerCertificate;
    ServerStaysKeeps(s, sent);
    ServerSendsCertificate(cfg, s, sent);
  }

  lemma ServerOnKeys(cfg: Config, s: Server, sent: seq<Msg>, head: Option<Msg>, retry: bool)
    requires ServerInv(s, sent) && s.state.SendServerKeyExchange?
    ensures ServerKeeps(sent, OnSendServerKeyExchange(cfg, s, head, retry))
  {
    hide SentHashed, HasFinished, HasVerify, ServerKeeps;
    ServerMovesOn(s, sent, OnSendServerKeyExchange(cfg, s, head, retry));
  }

  lemma ServerOnHelloDone(cfg: Config, s: Server, sent: seq<Msg>, head: Option<Msg>, retry: bool)
    requires ServerInv(s, sent) && s.state.SendServerHelloDone?
    ensures ServerKeeps(sent, OnSendServerHelloDone(cfg, s, head, retry))
  {
    hide ServerInv, ServerKeeps, SendsServerHelloDone;
    ServerStaysKeeps(s, sent);
    ServerSendsDone(s, sent);
  }

  lemma ServerGoesOn(s: Server, sent: seq<Msg>)
    requires ServerInv(s, sent)
    ensures s.state.ReadClientCertificate? ==> ServerKeeps(sent, GoS(s, VerifyClientCertificate))
    ensures s.state.ReadClientCertificateVerify? && !s.peerCert ==>
              ServerKeeps(sent, Stay(s.(state := ReadChangeCipherSpec, t := s.t.FreeBuffer())))
  {
    hide SentHashed, HasFinished, HasVerify;
    assert sent + [] == sent;
  }

  lemma ServerOnClientCertificate(cfg: Config, s: Server, sent: seq<Msg>, head: Option<Msg>, retry: bool)
    requires ServerInv(s, sent) && s.state.ReadClientCertificate?
    ensures ServerKeeps(sent, OnReadClientCertificate(cfg, s, head, retry))
  {
    hide ServerInv, ServerKeeps, ReadsClientCertificate;
    ServerStaysKeeps(s, sent);
    ServerGoesOn(s, sent);
    if head.Some? {
      ServerReadsCertificate(cfg, s, sent, head.value);
    }
  }

  lemma ServerOnKeyExchange(cfg: Config, s: Server, sent: seq<Msg>, head: Option<Msg>, retry: bool)
    requires ServerInv(s, sent) && s.state.ReadClientKeyExchange?
    ensures ServerKeeps(sent, OnReadClientKeyExchange(cfg, s, head, retry))
  {
    hide ServerInv, ServerKeeps, ReadsKeyExchange;
    ServerStaysKeeps(s, sent);
    if head.Some? {
      ServerReadsKeyExchange(s, sent, head.value);
    }
  }

  lemma ServerOnVerify(cfg: Config, s: Server, sent: seq<Msg>, head: Option<Msg>, retry: bool)
    requires ServerInv(s, sent) && s.state.ReadClientCertificateVerify?
    ensures ServerKeeps(sent, OnReadClientCertificateVerify(cfg, s, head, retry))
  {
    hide ServerInv, ServerKeeps, ReadsCertificateVerify;
    ServerStaysKeeps(s, sent);
    ServerGoesOn(s, sent);
    if head.Some? {
      ServerChecksVerify(s, sent, head.value);
    }
  }

  lemma ServerOnFinished(cfg: Config, s: Server, sent: seq<Msg>, head: Option<Msg>, retry: bool)
    requires ServerInv(s, sent) && s.state.ReadClientFinished?
    ensures ServerKeeps(sent, OnReadClientFinished(cfg, s, head, retry))
  {
    hide ServerInv, ServerKeeps, ReadsClientFinished;
    ServerStaysKeeps(s, sent);
    if head.Some? {
      ServerChecksFinished(s, sent, head.value);
    }
  }

  lemma ServerOnFlight(cfg: Config, s: Server, sent: seq<Msg>, head: Option<Msg>, retry: bool)
    requires ServerInv(s, sent) && s.state.SendServerFinished?
    ensures ServerKeeps(sent, OnSendServerFinished(cfg, s, head, retry))
  {
    hide ServerInv, ServerKeeps, SendsServerFinished;
    ServerStaysKeeps(s, sent);
    ServerSendsFinished(s, sent);
  }

  /** States that only read. */
  predicate ServerReads(st: SState) {
    || st.StartAccept? || st.ReadClientHello? || st.SelectCertificate? || st.VerifyClientCertificate?
    || st.ReadChangeCipherSpec? || st.SProcessChangeCipherSpec? || st.ReadNextProto? || st.ReadChannelId?
    || st.FinishServerHandshake? || st.SDone? || st.SFailed?
  }

  lemma ServerReadsStep(cfg: Config, s: Server, head: Option<Msg>, retry: bool)
    requires s.state.StartAccept? || s.state.ReadClientHello? || s.state.SelectCertificate? || s.state.SDone?
             || s.state.VerifyClientCertificate? || s.state.ReadChangeCipherSpec? || s.state.SProcessChangeCipherSpec?
             || s.state.ReadNextProto? || s.state.ReadChannelId? || s.state.FinishServerHandshake? || s.state.SFailed?
    ensures var r := ServerStep(cfg, s, head, retry);
            && OnlyReads(s.t, head, r.side.t, r.sent, r.took)
            && r.side.params == s.params && r.side.secret == s.secret && r.side.peerCert == s.peerCert
            && (|| r.side.state == s.state || (r.side.state.SFailed? && !s.state.SDone?)
                || match s.state
                   case StartAccept => r.side.state.ReadClientHello?
                   case ReadClientHello => r.side.state.SelectCertificate?
                   case SelectCertificate => r.side.state.SelectParameters?
                   case VerifyClientCertificate => r.side.state.ReadClientKeyExchange?
                   case ReadChangeCipherSpec => r.side.state.SProcessChangeCipherSpec?
                   case SProcessChangeCipherSpec => r.side.state.ReadNextProto?
                   case ReadNextProto => r.side.state.ReadChannelId?
                   case ReadChannelId => r.side.state.ReadClientFinished?
                   case FinishServerHandshake => r.side.state.SDone?
                   case _ => false)
  {
    hide *;
    ServerStays(s, head);
    ServerStepIs(cfg, s, head, retry);
  }

  lemma ServerReadsKeep(cfg: Config, s: Server, sent: seq<Msg>, head: Option<Msg>, retry: bool)
    requires ServerInv(s, sent) && ServerReads(s.state)
    ensures ServerKeeps(sent, ServerStep(cfg, s, head, retry))
  {
    hide ServerStep, SentHashed, HasFinished, HasVerify, ServerKeeps;
    hide Transcript.Update, Transcript.Hashed, Transcript.Valid;
    ServerReadsStep(cfg, s, head, retry);
    var r := ServerStep(cfg, s, head, retry);
    ReadsExtend(s.t, head, r.side.t, r.sent, r.took);
    ServerMovesOn(s, sent, r);
  }

  lemma ServerStepKeeps(cfg: Config, s: Server, sent: seq<Msg>, head: Option<Msg>, retry: bool)
    requires ServerInv(s, sent)
    ensures ServerKeeps(sent, ServerStep(cfg, s, head, retry))
  {
    hide ServerInv, ServerKeeps, ServerStep;
    ServerStepIs(cfg, s, head, retry);
    match s.state
    case SelectParameters => ServerOnParameters(cfg, s, sent, head, retry);
    case SendServerHello => ServerOnHello(cfg, s, sent, head, retry);
    case SendServerCertificate => ServerOnCertificate(cfg, s, sent, head, retry);
    case SendServerKeyExchange => ServerOnKeys(cfg, s, sent, head, retry);
    case SendServerHelloDone => ServerOnHelloDone(cfg, s, sent, head, retry);
    case ReadClientCertificate => ServerOnClientCertificate(cfg, s, sent, head, retry);
    case ReadClientKeyExchange => ServerOnKeyExchange(cfg, s, sent, head, retry);
    case ReadClientCertificateVerify => ServerOnVerify(cfg, s, sent, head, retry);
    case ReadClientFinished => ServerOnFinished(cfg, s, sent, head, retry);
    case SendServerFinished => ServerOnFlight(cfg, s, sent, head, retry);
    case _ => ServerReadsKeep(cfg, s, sent, head, retry);
  }

  lemma ServerAtStart()
    ensures ServerInv(ServerStart, [])
  {
  }

  /** Against any network: what a server has checked and sent, at every point of every run. */
  lemma {:induction false} ServerRunKeeps(cfg: Config, inputs: seq<Input>)
    ensures ServerInv(ServerAfter(cfg, inputs), ServerSent(cfg, inputs))
  {
    hide ServerStep, ServerInv;
    ServerAtStart();
    if inputs != [] {
      var before, i := inputs[..|inputs| - 1], inputs[|inputs| - 1];
      var s, sent := ServerAfter(cfg, before), ServerSent(cfg, before);
      ServerRunKeeps(cfg, before);
      ServerStepKeeps(cfg, s, sent, i.head, i.retry);
    }
  }

  // ----- what the checks are worth

  predicate IsMacBy(fromServer: bool, secret: Option<Secret>, m: Msg) {
    m.kind == Finished && m.content.Mac? && m.content.fromServer == fromServer && m.content.secret == secret
  }

  /** Nobody but the peer made a Finished under this secret. */
  ghost predicate MacsGenuine(fromServer: bool, secret: Option<Secret>, transcript: seq<Msg>, peerSent: seq<Msg>) {
    forall m :: m in transcript && IsMacBy(fromServer, secret, m) ==> m in peerSent
  }

  /** The two transcripts agree up to and including a message of this kind. */
  ghost predicate AgreeUpTo(kind: Kind, a: seq<Msg>, b: seq<Msg>) {
    exists k: nat :: AgreeAt(kind, a, b, k)
  }

  ghost predicate AgreeAt(kind: Kind, a: seq<Msg>, b: seq<Msg>, k: nat) {
    k < |a| && k < |b| && a[..k + 1] == b[..k + 1] && a[k].kind == kind
  }

  /**
   * A client that is done, whatever the network did, shares its secret with the server whose Finished it
   * accepted, and has hashed exactly what that server has, up to that Finished. The two sides may be
   * configured in any way.
   */
  lemma ClientDoneAgrees(cfg: Config, inputs: seq<Input>, peer: Config, peerInputs: seq<Input>)
    requires var c := ClientAfter(cfg, inputs);
             c.state == CDone && MacsGenuine(true, c.secret, c.t.Hashed(), ServerSent(peer, peerInputs))
    ensures var c, s := ClientAfter(cfg, inputs), ServerAfter(peer, peerInputs);
            c.secret == s.secret && AgreeUpTo(Finished, c.t.Hashed(), s.t.Hashed())
  {
    hide ClientAfter, ServerAfter, ServerSent;
    var c, s := ClientAfter(cfg, inputs), ServerAfter(peer, peerInputs);
    ClientRunKeeps(cfg, inputs);
    ServerRunKeeps(peer, peerInputs);
    SameFinished(true, c.secret, c.t.Hashed(), s.secret, s.t.Hashed(), ServerSent(peer, peerInputs));
  }

  /** And the other way round. */
  lemma ServerDoneAgrees(cfg: Config, inputs: seq<Input>, peer: Config, peerInputs: seq<Input>)
    requires var s := ServerAfter(cfg, inputs);
             s.state == SDone && MacsGenuine(false, s.secret, s.t.Hashed(), ClientSent(peer, peerInputs))
    ensures var s, c := ServerAfter(cfg, inputs), ClientAfter(peer, peerInputs);
            s.secret == c.secret && AgreeUpTo(Finished, s.t.Hashed(), c.t.Hashed())
  {
    hide ClientAfter, ServerAfter, ClientSent;
    var s, c := ServerAfter(cfg, inputs), ClientAfter(peer, peerInputs);
    ServerRunKeeps(cfg, inputs);
    ClientRunKeeps(peer, peerInputs);
    SameFinished(false, s.secret, s.t.Hashed(), c.secret, c.t.Hashed(), ClientSent(peer, peerInputs));
  }

  lemma SameFinished(fromServer: bool, secret: Option<Secret>, t: seq<Msg>, secret': Option<Secret>, t': seq<Msg>,
                     sent: seq<Msg>)
    requires HasFinished(fromServer, secret, t) && MacsGenuine(fromServer, secret, t, sent)
    requires SentHashed(fromServer, sent, secret', t')
    ensures secret == secret' && AgreeUpTo(Finished, t, t')
  {
    var k: nat :| FinishedAt(fromServer, secret, t, k);
    assert t[k] in t;
    var j: nat :| FinishedAt(fromServer, secret', t', j) && t'[j] == t[k];
    assert |t[..k]| == |t'[..j]|;
    UpToNext(t, k);
    UpToNext(t', k);
    assert AgreeAt(Finished, t, t', k);
  }

  lemma UpToNext(t: seq<Msg>, k: nat)
    requires k < |t|
    ensures t[..k + 1] == t[..k] + [t[k]]
  {
  }

  /**
   * A server that is done with a client certificate, and whose CertificateVerify that client made, has
   * hashed exactly what the client has, up to that CertificateVerify.
   */
  lemma VerifiedClientAgrees(cfg: Config, inputs: seq<Input>, peer: Config, peerInputs: seq<Input>)
    requires var s := ServerAfter(cfg, inputs);
             && s.state == SDone && s.peerCert
             && forall m :: m in s.t.Hashed() && m.kind == CertificateVerify ==> m in ClientSent(peer, peerInputs)
    ensures AgreeUpTo(CertificateVerify, ServerAfter(cfg, inputs).t.Hashed(), ClientAfter(peer, peerInputs).t.Hashed())
  {
    hide ClientAfter, ServerAfter, ClientSent;
    ServerRunKeeps(cfg, inputs);
    ClientRunKeeps(peer, peerInputs);
    var s, c := ServerAfter(cfg, inputs), ClientAfter(peer, peerInputs);
    SameVerify(s.t.Hashed(), c.t.Hashed(), ClientSent(peer, peerInputs));
  }

  lemma SameVerify(t: seq<Msg>, t': seq<Msg>, sent: seq<Msg>)
    requires HasVerify(t) && SentSigned(sent, t')
    requires forall m :: m in t && m.kind == CertificateVerify ==> m in sent
    ensures AgreeUpTo(CertificateVerify, t, t')
  {
    var k: nat :| SignedAt(t, k);
    assert t[k] in t;
    var j: nat :| SignedAt(t', j) && t'[j] == t[k];
    assert |t[..k]| == |t'[..j]|;
    UpToNext(t, k);
    UpToNext(t', k);
    assert AgreeAt(CertificateVerify, t, t', k);
  }
}
