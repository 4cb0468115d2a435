/** The DER form of a TLS session: what is written, what is read back, and when the two agree. */
module SessionDer {
  import opened Wire
  import opened Der

  type u16 = x: int | 0 <= x < 0x1_0000
  type u32 = x: int | 0 <= x < 0x1_0000_0000
  type long = x: int | -0x8000_0000_0000_0000 <= x < 0x8000_0000_0000_0000

  const VERSION: u64 := 1
  const UINT32_MAX: nat := 0xffff_ffff
  const LONG_MAX: nat := 0x7fff_ffff_ffff_ffff
  const MAX_SESSION_ID: nat := 32
  const MAX_MASTER_KEY: nat := 48
  const MAX_SID_CTX: nat := 32
  const SHA256_LENGTH: nat := 32
  const MAX_MD_SIZE: nat := 64
  const V_OK: long := 0
  const V_ERR_INVALID_CALL: long := 65
  const DEFAULT_TIMEOUT: u32 := 7200

  /** The serialized fields of a session. None stands for a null pointer. */
  datatype Session = Session(
    sslVersion: u16, cipher: Option<u16>, sessionId: seq<byte>, masterKey: seq<byte>,
    time: u64, timeout: u32, certs: Option<seq<seq<byte>>>, sidCtx: seq<byte>, verifyResult: long,
    pskIdentity: Option<seq<byte>>, lifetimeHint: u32, ticket: Option<seq<byte>>,
    peerSha256Valid: bool, peerSha256: seq<byte>, originalHash: seq<byte>,
    sctList: Option<seq<byte>>, ocspResponse: Option<seq<byte>>,
    extendedMasterSecret: bool, groupId: u16, ageAddValid: bool, ageAdd: u32, isServer: bool,
    peerSignatureAlgorithm: u16, maxEarlyData: u32, authTimeout: u32, earlyAlpn: Option<seq<byte>>)

  /** What the C types of the fields already guarantee: array sizes, and a psk_identity that is a C string. */
  predicate InBounds(s: Session) {
    && |s.sessionId| <= MAX_SESSION_ID && |s.masterKey| <= MAX_MASTER_KEY && |s.sidCtx| <= MAX_SID_CTX
    && |s.peerSha256| == SHA256_LENGTH && |s.originalHash| <= MAX_MD_SIZE
    && (s.pskIdentity.Some? ==> 0 !in s.pskIdentity.value)
  }

  /** The cipher table, and whether the X.509 layer can cache objects for a certificate chain. */
  datatype Config = Config(ciphers: set<u16>, cacheable: Option<seq<seq<byte>>> -> bool)

  predicate KnownVersion(v: int) {
    v in {0x0300, 0x0301, 0x0302, 0x0303, 0x7f17, 0xfeff, 0xfefd}
  }

  /** A session as it is allocated, before anything is parsed into it. */
  function NewSession(now: u64): Session {
    Session(0, None, [], [], now, DEFAULT_TIMEOUT, None, [], V_ERR_INVALID_CALL, None, 0, None, false,
            Zeros(SHA256_LENGTH), [], None, None, false, 0, false, 0, false, 0, 0, DEFAULT_TIMEOUT, None)
  }

  // ----- the tagged fields, in the order both sides visit them

  const SLOTS: nat := 22
  const TIME: nat := 0
  const TIMEOUT: nat := 1
  const PEER: nat := 2
  const SESSION_ID_CONTEXT: nat := 3
  const VERIFY_RESULT: nat := 4
  const HOST_NAME: nat := 5
  const PSK_IDENTITY: nat := 6
  const LIFETIME_HINT: nat := 7
  const TICKET: nat := 8
  const PEER_SHA256: nat := 9
  const ORIGINAL_HASH: nat := 10
  const SCT_LIST: nat := 11
  const OCSP_RESPONSE: nat := 12
  const EXTENDED_MASTER_SECRET: nat := 13
  const GROUP_ID: nat := 14
  const CERT_CHAIN: nat := 15
  const AGE_ADD: nat := 16
  const IS_SERVER: nat := 17
  const PEER_SIGNATURE_ALGORITHM: nat := 18
  const MAX_EARLY_DATA: nat := 19
  const AUTH_TIMEOUT: nat := 20
  const EARLY_ALPN: nat := 21

  /** The identifier of a slot: context-specific and constructed; numbers 7, 11, 12 and 20 are no longer used. */
  function Tag(k: nat): byte
    requires k < SLOTS
  {
    0xa0 + if k <= HOST_NAME then k + 1 else if k <= TICKET then k + 2 else if k <= CERT_CHAIN then k + 4 else k + 5
  }

  type Fields = seq<Option<seq<byte>>>

  function FieldBytes(f: Fields, k: nat): seq<byte>
    requires k < SLOTS == |f|
  {
    if f[k].Some? then Element(Tag(k), f[k].value) else []
  }

  /** The fields from slot k on, as written. */
  function JoinFrom(f: Fields, k: nat): seq<byte>
    requires k <= SLOTS == |f|
    decreases SLOTS - k
  {
    if k == SLOTS then [] else FieldBytes(f, k) + JoinFrom(f, k + 1)
  }

  /** The fields from slot k on, as the parser finds them, and what it leaves. */
  function SplitFrom(s: seq<byte>, k: nat): (r: Option<(Fields, seq<byte>)>)
    requires k <= SLOTS
    ensures r.Some? ==> |r.value.0| == SLOTS - k
    decreases SLOTS - k
  {
    if k == SLOTS then Some(([], s))
    else
      var first := GetOptional(s, Tag(k));
      if first.None? then None
      else
        var others := SplitFrom(first.value.1, k + 1);
        if others.None? then None else Some(([first.value.0] + others.value.0, others.value.1))
  }

  predicate AllFit(f: Fields) {
    forall k :: 0 <= k < |f| && f[k].Some? ==> |f[k].value| < LONG_LENGTH
  }

  lemma {:induction false} JoinedStartsAbove(f: Fields, k: nat)
    requires k <= SLOTS == |f|
    ensures JoinFrom(f, k) != [] ==> k < SLOTS && JoinFrom(f, k)[0] >= Tag(k)
    decreases SLOTS - k
  {
    if k < SLOTS && f[k].None? {
      JoinedStartsAbove(f, k + 1);
      assert [] + JoinFrom(f, k + 1) == JoinFrom(f, k + 1);
    }
  }

  lemma FindsAbsent(rest: seq<byte>, k: nat)
    requires k < SLOTS && (rest != [] ==> k + 1 < SLOTS && rest[0] >= Tag(k + 1))
    ensures GetOptional(rest, Tag(k)) == Some((None, rest))
  {
  }

  lemma SplitFound(s: seq<byte>, k: nat, v: Option<seq<byte>>, rest: seq<byte>)
    requires k < SLOTS && GetOptional(s, Tag(k)) == Some((v, rest)) && SplitFrom(rest, k + 1).Some?
    ensures SplitFrom(s, k) == Some(([v] + SplitFrom(rest, k + 1).value.0, SplitFrom(rest, k + 1).value.1))
  {
  }

  lemma FindsField(f: Fields, k: nat)
    requires k < SLOTS == |f| && AllFit(f)
    ensures GetOptional(JoinFrom(f, k), Tag(k)) == Some((f[k], JoinFrom(f, k + 1)))
  {
    hide GetOptional, Element;
    var rest := JoinFrom(f, k + 1);
    if f[k].Some? {
      GetElement(Tag(k), f[k].value, rest);
    } else {
      JoinedStartsAbove(f, k + 1);
      FindsAbsent(rest, k);
      assert [] + rest == rest;
    }
  }

  lemma SplitNothing(f: Fields)
    requires |f| == SLOTS
    ensures SplitFrom(JoinFrom(f, SLOTS), SLOTS) == Some((f[SLOTS..], []))
  {
    assert f[SLOTS..] == [];
  }

  /** Because the tags increase strictly, the parser finds every field, and finds absent ones absent. */
  lemma {:induction false} SplitJoined(f: Fields, k: nat)
    requires k <= SLOTS == |f| && AllFit(f)
    ensures SplitFrom(JoinFrom(f, k), k) == Some((f[k..], []))
    decreases SLOTS - k
  {
    hide GetOptional, SplitFrom, JoinFrom, Tag;
    if k == SLOTS {
      SplitNothing(f);
    } else {
      SplitJoined(f, k + 1);
      FindsField(f, k);
      SplitFound(JoinFrom(f, k), k, f[k], JoinFrom(f, k + 1));
      assert f[k..] == [f[k]] + f[k + 1..];
    }
  }

  lemma {:induction false} JoinedCovers(f: Fields, i: nat, k: nat)
    requires k <= i < SLOTS == |f| && f[i].Some?
    ensures |JoinFrom(f, k)| > |f[i].value|
    decreases i - k
  {
    hide Element, Tag, JoinFrom;
    JoinedStep(f, k);
    if k < i {
      JoinedCovers(f, i, k + 1);
    }
  }

  lemma JoinedStep(f: Fields, k: nat)
    requires k < SLOTS == |f|
    ensures |JoinFrom(f, k)| >= |JoinFrom(f, k + 1)| && (f[k].Some? ==> |JoinFrom(f, k)| > |f[k].value|)
  {
  }

  // ----- certificate chains

  function Concat(certs: seq<seq<byte>>): seq<byte> {
    if certs == [] then [] else certs[0] + Concat(certs[1..])
  }

  predicate IsElement(c: seq<byte>) {
    ParseHeader(c).Some? && ParseHeader(c).value.end == |c|
  }

  /** Split the contents of the chain into its elements. */
  function TakeCerts(s: seq<byte>): Option<seq<seq<byte>>>
    decreases |s|
  {
    if s == [] then Some([])
    else if ParseHeader(s).None? then None
    else
      var end := ParseHeader(s).value.end;
      var others := TakeCerts(s[end..]);
      if others.None? then None else Some([s[..end]] + others.value)
  }

  /** A chain comes back exactly when each certificate is a single element. */
  lemma {:induction false} ChainComesBackIff(certs: seq<seq<byte>>)
    ensures TakeCerts(Concat(certs)) == Some(certs) <==> forall i :: 0 <= i < |certs| ==> IsElement(certs[i])
  {
    hide TakeCerts, Concat, IsElement;
    if certs == [] {
      NoCerts();
    } else {
      ChainStep(certs);
      ChainComesBackIff(certs[1..]);
      assert certs == [certs[0]] + certs[1..];
    }
  }

  lemma NoCerts()
    ensures TakeCerts(Concat([])) == Some([])
  {
  }

  lemma ChainStep(certs: seq<seq<byte>>)
    requires certs != []
    ensures TakeCerts(Concat(certs)) == Some(certs) <==>
            IsElement(certs[0]) && TakeCerts(Concat(certs[1..])) == Some(certs[1..])
  {
    hide ParseHeader;
    var s := Concat(certs);
    assert s[..|certs[0]|] == certs[0] && s[|certs[0]|..] == Concat(certs[1..]);
    assert [certs[0]] + certs[1..] == certs;
    if IsElement(certs[0]) {
      HeaderStable(certs[0], s);
    }
    if TakeCerts(s) == Some(certs) {
      FirstCert(s, certs);
      HeaderStable(s, certs[0]);
    }
  }

  lemma FirstCert(s: seq<byte>, certs: seq<seq<byte>>)
    requires certs != [] && TakeCerts(s) == Some(certs)
    ensures ParseHeader(s).Some? && s[..ParseHeader(s).value.end] == certs[0]
    ensures TakeCerts(s[ParseHeader(s).value.end..]) == Some(certs[1..])
  {
  }

  // ----- what is written

  function Octets(x: seq<byte>): seq<byte> {
    Element(OCTET_STRING, x)
  }

  function Number(v: u64): seq<byte> {
    Element(INTEGER, Uint(v))
  }

  function Flag(b: bool): seq<byte> {
    Element(BOOLEAN, [if b then 0xff else 0])
  }

  function When(c: bool, x: seq<byte>): Option<seq<byte>> {
    if c then Some(x) else None
  }

  function OctetsOf(v: Option<seq<byte>>): Option<seq<byte>> {
    if v.None? then None else Some(Octets(v.value))
  }

  function CertCount(s: Session): nat {
    if s.certs.None? then 0 else |s.certs.value|
  }

  /** A long converted to an unsigned 64-bit integer. */
  function Unsigned(v: long): u64 {
    if v < 0 then v + 0x1_0000_0000_0000_0000 else v
  }

  /** The contents written for a slot, if it is written at all. */
  function Field(s: Session, forTicket: bool, k: nat): Option<seq<byte>> {
    if k == TIME then Some(Number(s.time))
    else if k == TIMEOUT then Some(Number(s.timeout))
    else if k == PEER then
      if CertCount(s) > 0 && !s.peerSha256Valid then Some(s.certs.value[0]) else None
    else if k == SESSION_ID_CONTEXT then Some(Octets(s.sidCtx))
    else if k == VERIFY_RESULT then When(s.verifyResult != V_OK, Number(Unsigned(s.verifyResult)))
    else if k == PSK_IDENTITY then OctetsOf(s.pskIdentity)
    else if k == LIFETIME_HINT then When(s.lifetimeHint > 0, Number(s.lifetimeHint))
    else if k == TICKET then if forTicket then None else OctetsOf(s.ticket)
    else if k == PEER_SHA256 then When(s.peerSha256Valid, Octets(s.peerSha256))
    else if k == ORIGINAL_HASH then When(s.originalHash != [], Octets(s.originalHash))
    else if k == SCT_LIST then OctetsOf(s.sctList)
    else if k == OCSP_RESPONSE then OctetsOf(s.ocspResponse)
    else if k == EXTENDED_MASTER_SECRET then When(s.extendedMasterSecret, Flag(true))
    else if k == GROUP_ID then When(s.groupId > 0, Number(s.groupId))
    else if k == CERT_CHAIN then
      if CertCount(s) >= 2 && !s.peerSha256Valid then Some(Concat(s.certs.value[1..])) else None
    else if k == AGE_ADD then When(s.ageAddValid, Octets(ToBigEndian(s.ageAdd, 4)))
    else if k == IS_SERVER then When(!s.isServer, Flag(false))
    else if k == PEER_SIGNATURE_ALGORITHM then When(s.peerSignatureAlgorithm != 0, Number(s.peerSignatureAlgorithm))
    else if k == MAX_EARLY_DATA then When(s.maxEarlyData != 0, Number(s.maxEarlyData))
    else if k == AUTH_TIMEOUT then When(s.timeout != s.authTimeout, Number(s.authTimeout))
    else if k == EARLY_ALPN then OctetsOf(s.earlyAlpn)
    else None
  }

  function FieldsOf(s: Session, forTicket: bool): (f: Fields)
    ensures |f| == SLOTS && forall k :: 0 <= k < SLOTS ==> f[k] == Field(s, forTicket, k)
  {
    seq(SLOTS, (k: nat) => Field(s, forTicket, k))
  }

  function Head(s: Session, forTicket: bool): seq<byte>
    requires s.cipher.Some?
  {
    Number(VERSION) + (Number(s.sslVersion) + (Octets(ToBigEndian(s.cipher.value, 2)) +
    (Octets(if forTicket then [] else s.sessionId) + Octets(s.masterKey))))
  }

  function Body(s: Session, forTicket: bool): seq<byte>
    requires s.cipher.Some?
  {
    Head(s, forTicket) + JoinFrom(FieldsOf(s, forTicket), 0)
  }

  function Serialized(s: Session, forTicket: bool): seq<byte>
    requires s.cipher.Some?
  {
    Element(SEQUENCE, Body(s, forTicket))
  }

  // ----- what is read

  function OctetString(v: Option<seq<byte>>): Option<Option<seq<byte>>> {
    if v.None? then Some(None)
    else
      var r := Get(v.value, OCTET_STRING);
      if r.None? || r.value.1 != [] then None else Some(Some(r.value.0))
  }

  function NumberOr(v: Option<seq<byte>>, default: u64): Option<u64> {
    if v.None? then Some(default)
    else
      var r := GetUint(v.value);
      if r.None? || r.value.1 != [] then None else Some(r.value.0)
  }

  function FlagOr(v: Option<seq<byte>>, default: bool): Option<bool> {
    if v.None? then Some(default)
    else
      var r := Get(v.value, BOOLEAN);
      if r.None? || |r.value.0| != 1 || r.value.1 != [] || r.value.0[0] !in {0, 0xff} then None
      else Some(r.value.0[0] == 0xff)
  }

  /** CBS_stow: an empty string is stored as a null pointer. */
  function Stowed(x: Option<seq<byte>>): Option<seq<byte>> {
    if x == Some([]) then None else x
  }

  function Contents(x: Option<seq<byte>>): seq<byte> {
    if x.None? then [] else x.value
  }

  /** The fields before the tagged ones. */
  function ParseHead(cfg: Config, ret: Session, s: seq<byte>): Option<(Session, seq<byte>)> {
    var version := GetUint(s);
    if version.None? || version.value.0 != VERSION then None else
    var ssl := GetUint(version.value.1);
    if ssl.None? || ssl.value.0 > 0xffff || !KnownVersion(ssl.value.0) then None else
    var cipher := Get(ssl.value.1, OCTET_STRING);
    if cipher.None? || |cipher.value.0| != 2 then None else
    var id := BigEndian(cipher.value.0);
    if id !in cfg.ciphers then None else
    var sessionId := Get(cipher.value.1, OCTET_STRING);
    if sessionId.None? || |sessionId.value.0| > MAX_SESSION_ID then None else
    var masterKey := Get(sessionId.value.1, OCTET_STRING);
    if masterKey.None? || |masterKey.value.0| > MAX_MASTER_KEY then None else
    Some((ret.(sslVersion := ssl.value.0, cipher := Some(id), sessionId := sessionId.value.0,
               masterKey := masterKey.value.0), masterKey.value.1))
  }

  /** The two mandatory times; bytes after either number are not looked at. */
  function WithTimes(ret: Session, f: Fields): Option<Session>
    requires |f| > TIMEOUT
  {
    if f[TIME].None? || GetUint(f[TIME].value).None? then None
    else if f[TIMEOUT].None? || GetUint(f[TIMEOUT].value).None? then None
    else if GetUint(f[TIMEOUT].value).value.0 > UINT32_MAX then None
    else Some(ret.(time := GetUint(f[TIME].value).value.0, timeout := GetUint(f[TIMEOUT].value).value.0))
  }

  function WithPeerState(ret: Session, f: Fields): Option<Session>
    requires |f| > HOST_NAME
  {
    var sidCtx := OctetString(f[SESSION_ID_CONTEXT]);
    var verify := NumberOr(f[VERIFY_RESULT], V_OK);
    if f[PEER] == Some([]) || sidCtx.None? || |Contents(sidCtx.value)| > MAX_SID_CTX then None
    else if verify.None? || verify.value > LONG_MAX then None
    else Some(ret.(sidCtx := Contents(sidCtx.value), verifyResult := verify.value))
  }

  function WithTicket(ret: Session, f: Fields): Option<Session>
    requires |f| > TICKET
  {
    var psk := OctetString(f[PSK_IDENTITY]);
    var hint := NumberOr(f[LIFETIME_HINT], 0);
    var ticket := OctetString(f[TICKET]);
    if psk.None? || 0 in Contents(psk.value) then None
    else if hint.None? || hint.value > UINT32_MAX || ticket.None? then None
    else Some(ret.(pskIdentity := psk.value, lifetimeHint := hint.value, ticket := Stowed(ticket.value)))
  }

  function WithHashes(ret: Session, f: Fields): Option<Session>
    requires |f| > OCSP_RESPONSE
  {
    var sha := OctetString(f[PEER_SHA256]);
    var hash := OctetString(f[ORIGINAL_HASH]);
    var sct := OctetString(f[SCT_LIST]);
    var ocsp := OctetString(f[OCSP_RESPONSE]);
    if sha.None? || (sha.value.Some? && |sha.value.value| != SHA256_LENGTH) then None
    else if hash.None? || |Contents(hash.value)| > MAX_MD_SIZE || sct.None? || ocsp.None? then None
    else Some(ret.(peerSha256Valid := sha.value.Some?,
                   peerSha256 := if sha.value.Some? then sha.value.value else ret.peerSha256,
                   originalHash := Contents(hash.value), sctList := sct.value, ocspResponse := ocsp.value))
  }

  function Chain(f: Fields): Option<seq<seq<byte>>>
    requires |f| > CERT_CHAIN
  {
    if f[CERT_CHAIN].None? then Some([])
    else if f[CERT_CHAIN].value == [] || f[PEER].None? then None
    else TakeCerts(f[CERT_CHAIN].value)
  }

  /** The certificates that WithChain collects. */
  function Collected(f: Fields): Option<seq<seq<byte>>>
    requires |f| > CERT_CHAIN && Chain(f).Some?
  {
    if f[PEER].None? then None else Some([f[PEER].value] + Chain(f).value)
  }

  function WithChain(cfg: Config, ret: Session, f: Fields): Option<Session>
    requires |f| > CERT_CHAIN
  {
    var ems := FlagOr(f[EXTENDED_MASTER_SECRET], false);
    var group := NumberOr(f[GROUP_ID], 0);
    if ems.None? || group.None? || group.value > 0xffff || Chain(f).None? then None
    else
      var certs := if f[PEER].None? then ret.certs else Collected(f);
      if !cfg.cacheable(certs) then None
      else Some(ret.(extendedMasterSecret := ems.value, groupId := group.value, certs := certs))
  }

  function WithAge(ret: Session, f: Fields): Option<Session>
    requires |f| > IS_SERVER
  {
    var age := OctetString(f[AGE_ADD]);
    var isServer := FlagOr(f[IS_SERVER], true);
    if age.None? || (age.value.Some? && |age.value.value| != 4) || isServer.None? then None
    else Some(ret.(ageAddValid := age.value.Some?,
                   ageAdd := if age.value.Some? then AgeOf(age.value.value) else ret.ageAdd,
                   isServer := isServer.value))
  }

  function AgeOf(x: seq<byte>): u32
    requires |x| == 4
  {
    assert Pow256(4) == 0x1_0000_0000;
    BigEndian(x)
  }

  function WithLimits(ret: Session, f: Fields): Option<Session>
    requires |f| == SLOTS
  {
    var alg := NumberOr(f[PEER_SIGNATURE_ALGORITHM], 0);
    var early := NumberOr(f[MAX_EARLY_DATA], 0);
    var auth := NumberOr(f[AUTH_TIMEOUT], ret.timeout);
    var alpn := OctetString(f[EARLY_ALPN]);
    if alg.None? || alg.value > 0xffff || early.None? || early.value > UINT32_MAX then None
    else if auth.None? || auth.value > UINT32_MAX || alpn.None? then None
    else Some(ret.(peerSignatureAlgorithm := alg.value, maxEarlyData := early.value, authTimeout := auth.value,
                   earlyAlpn := Stowed(alpn.value)))
  }

  function Earlier(ret: Session, f: Fields): Option<Session>
    requires |f| > OCSP_RESPONSE
  {
    var s1 := WithTimes(ret, f);
    if s1.None? then None else
    var s2 := WithPeerState(s1.value, f);
    if s2.None? then None else
    var s3 := WithTicket(s2.value, f);
    if s3.None? then None else
    WithHashes(s3.value, f)
  }

  /** What the tagged fields make of a session whose head has been read. */
  function Interpret(cfg: Config, ret: Session, f: Fields): Option<Session>
    requires |f| == SLOTS
  {
    var s4 := Earlier(ret, f);
    if s4.None? then None else
    var s5 := WithChain(cfg, s4.value, f);
    if s5.None? then None else
    var s6 := WithAge(s5.value, f);
    if s6.None? then None else
    WithLimits(s6.value, f)
  }

  /** What the contents of the SEQUENCE make of a session that was just allocated. */
  function ParseBody(cfg: Config, ret: Session, body: seq<byte>): Option<Session> {
    var head := ParseHead(cfg, ret, body);
    if head.None? then None
    else
      var f := SplitFrom(head.value.1, 0);
      if f.None? || f.value.1 != [] then None else Interpret(cfg, head.value.0, f.value.0)
  }

  /** The session at the front of s, and what follows it. */
  function ParseSession(cfg: Config, now: u64, s: seq<byte>): Option<(Session, seq<byte>)> {
    var r := Get(s, SEQUENCE);
    if r.None? || ParseBody(cfg, NewSession(now), r.value.0).None? then None
    else Some((ParseBody(cfg, NewSession(now), r.value.0).value, r.value.1))
  }

  /** SSL_SESSION_from_bytes: nothing may follow the session. */
  function FromBytesSpec(cfg: Config, now: u64, s: seq<byte>): Option<Session> {
    var r := ParseSession(cfg, now, s);
    if r.None? || r.value.1 != [] then None else Some(r.value.0)
  }

  // ----- the round trip

  /** What a session loses by being written: fields that are not, and the difference between null and empty. */
  function Normal(s: Session, forTicket: bool): Session {
    s.(sessionId := if forTicket then [] else s.sessionId,
       certs := if s.peerSha256Valid || CertCount(s) == 0 then None else s.certs,
       ticket := if forTicket then None else Stowed(s.ticket),
       peerSha256 := if s.peerSha256Valid then s.peerSha256 else Zeros(SHA256_LENGTH),
       ageAdd := if s.ageAddValid then s.ageAdd else 0,
       earlyAlpn := Stowed(s.earlyAlpn))
  }

  /** The leaf is not empty and every other certificate is a single element, if certificates are written. */
  predicate CertsRestorable(s: Session) {
    CertCount(s) > 0 && !s.peerSha256Valid ==>
      s.certs.value[0] != [] && forall i :: 1 <= i < CertCount(s) ==> IsElement(s.certs.value[i])
  }

  predicate Restorable(cfg: Config, s: Session, forTicket: bool) {
    && KnownVersion(s.sslVersion) && s.cipher.Some? && s.cipher.value in cfg.ciphers
    && s.verifyResult >= 0 && CertsRestorable(s) && cfg.cacheable(Normal(s, forTicket).certs)
  }

  lemma NumberBack(v: u64, rest: seq<byte>)
    ensures GetUint(Number(v) + rest) == Some((v, rest))
  {
    UintRoundTrip(v);
    GetElement(INTEGER, Uint(v), rest);
  }

  lemma OctetsBack(x: seq<byte>, rest: seq<byte>)
    requires |x| < LONG_LENGTH
    ensures Get(Octets(x) + rest, OCTET_STRING) == Some((x, rest))
  {
    GetElement(OCTET_STRING, x, rest);
  }

  lemma NumberOrBack(c: bool, v: u64, default: u64)
    requires !c ==> v == default
    ensures NumberOr(When(c, Number(v)), default) == Some(v)
  {
    NumberBack(v, []);
    assert Number(v) + [] == Number(v);
  }

  lemma OctetStringBack(v: Option<seq<byte>>)
    requires v.Some? ==> |v.value| < LONG_LENGTH
    ensures OctetString(OctetsOf(v)) == Some(v)
  {
    if v.Some? {
      OctetsBack(v.value, []);
      assert Octets(v.value) + [] == Octets(v.value);
    }
  }

  lemma OctetStringWhenBack(c: bool, x: seq<byte>)
    requires |x| < LONG_LENGTH
    ensures OctetString(When(c, Octets(x))) == Some(When(c, x))
  {
    OctetStringBack(When(c, x));
  }

  lemma FlagOrBack(b: bool, default: bool)
    ensures FlagOr(When(b != default, Flag(b)), default) == Some(b)
  {
  }

  lemma CipherBack(cipher: nat)
    requires cipher < 0x1_0000
    ensures BigEndian(ToBigEndian(cipher, 2)) == cipher
  {
    assert Pow256(2) == 0x1_0000;
    BigEndianRoundTrip(cipher, 2);
  }

  lemma HeadBack(cfg: Config, ret: Session, s: Session, forTicket: bool, rest: seq<byte>)
    requires s.cipher.Some? && |s.sessionId| <= MAX_SESSION_ID && |s.masterKey| <= MAX_MASTER_KEY
    ensures ParseHead(cfg, ret, Head(s, forTicket) + rest) ==
            if KnownVersion(s.sslVersion) && s.cipher.value in cfg.ciphers
            then Some((ret.(sslVersion := s.sslVersion, cipher := s.cipher,
                            sessionId := if forTicket then [] else s.sessionId, masterKey := s.masterKey), rest))
            else None
  {
    hide Get, GetUint, Number, Octets, BigEndian, ToBigEndian, KnownVersion;
    var cipher := s.cipher.value;
    var id := if forTicket then [] else s.sessionId;
    var r5 := Octets(s.masterKey) + rest;
    var r4 := Octets(id) + r5;
    var r3 := Octets(ToBigEndian(cipher, 2)) + r4;
    var r2 := Number(s.sslVersion) + r3;
    assert Head(s, forTicket) + rest == Number(VERSION) + r2;
    CipherBack(cipher);
    NumberBack(VERSION, r2);
    NumberBack(s.sslVersion, r3);
    OctetsBack(ToBigEndian(cipher, 2), r4);
    OctetsBack(id, r5);
    OctetsBack(s.masterKey, rest);
  }

  lemma TimesBack(ret: Session, s: Session, forTicket: bool)
    ensures WithTimes(ret, FieldsOf(s, forTicket)) == Some(ret.(time := s.time, timeout := s.timeout))
  {
    hide GetUint, Number, FieldsOf, Field;
    TimeFields(s, forTicket);
    NumberAlone(s.time);
    NumberAlone(s.timeout);
  }

  lemma TimeFields(s: Session, forTicket: bool)
    ensures var f := FieldsOf(s, forTicket); f[TIME] == Some(Number(s.time)) && f[TIMEOUT] == Some(Number(s.timeout))
  {
  }

  lemma NumberAlone(v: u64)
    ensures GetUint(Number(v)) == Some((v, []))
  {
    hide GetUint, Number;
    NumberBack(v, []);
    assert Number(v) + [] == Number(v);
  }

  lemma PeerStateBack(ret: Session, s: Session, forTicket: bool)
    requires |s.sidCtx| <= MAX_SID_CTX
    ensures WithPeerState(ret, FieldsOf(s, forTicket)) ==
            if s.verifyResult < 0 || Field(s, forTicket, PEER) == Some([]) then None
            else Some(ret.(sidCtx := s.sidCtx, verifyResult := s.verifyResult))
  {
    OctetStringBack(Some(s.sidCtx));
    NumberOrBack(s.verifyResult != V_OK, Unsigned(s.verifyResult), V_OK);
  }

  lemma TicketBack(ret: Session, s: Session, forTicket: bool)
    requires InBounds(s) && AllFit(FieldsOf(s, forTicket))
    ensures WithTicket(ret, FieldsOf(s, forTicket)) ==
            Some(ret.(pskIdentity := s.pskIdentity, lifetimeHint := s.lifetimeHint,
                      ticket := Normal(s, forTicket).ticket))
  {
    hide GetUint, OctetString, NumberOr;
    var f := FieldsOf(s, forTicket);
    assert f[PSK_IDENTITY] == OctetsOf(s.pskIdentity);
    OctetStringBack(s.pskIdentity);
    NumberOrBack(s.lifetimeHint > 0, s.lifetimeHint, 0);
    assert f[TICKET] == if forTicket then None else OctetsOf(s.ticket);
    OctetStringBack(if forTicket then None else s.ticket);
    hide FieldsOf, Field;
  }

  lemma WrittenFits(s: Session, forTicket: bool)
    requires AllFit(FieldsOf(s, forTicket))
    ensures s.sctList.Some? ==> |s.sctList.value| < LONG_LENGTH
    ensures s.ocspResponse.Some? ==> |s.ocspResponse.value| < LONG_LENGTH
  {
    var f := FieldsOf(s, forTicket);
    assert f[SCT_LIST] == OctetsOf(s.sctList) && f[OCSP_RESPONSE] == OctetsOf(s.ocspResponse);
  }

  lemma HashesBack(ret: Session, s: Session, forTicket: bool)
    requires InBounds(s) && AllFit(FieldsOf(s, forTicket))
    ensures WithHashes(ret, FieldsOf(s, forTicket)) ==
            Some(ret.(peerSha256Valid := s.peerSha256Valid,
                      peerSha256 := if s.peerSha256Valid then s.peerSha256 else ret.peerSha256,
                      originalHash := s.originalHash, sctList := s.sctList, ocspResponse := s.ocspResponse))
  {
    var f := FieldsOf(s, forTicket);
    assert f[PEER_SHA256] == When(s.peerSha256Valid, Octets(s.peerSha256));
    assert f[ORIGINAL_HASH] == When(s.originalHash != [], Octets(s.originalHash));
    assert f[SCT_LIST] == OctetsOf(s.sctList) && f[OCSP_RESPONSE] == OctetsOf(s.ocspResponse);
    hide Field, OctetString, FieldsOf, Octets;
    OctetStringWhenBack(s.peerSha256Valid, s.peerSha256);
    OctetStringWhenBack(s.originalHash != [], s.originalHash);
    WrittenFits(s, forTicket);
    OctetStringBack(s.sctList);
    OctetStringBack(s.ocspResponse);
  }

  /** The chain comes back, or something else does: exactly which is decided by the certificates. */
  lemma CertsBack(s: Session, forTicket: bool)
    requires Field(s, forTicket, PEER).Some? && Field(s, forTicket, PEER) != Some([])
    ensures var certs := s.certs.value;
            Chain(FieldsOf(s, forTicket)) == Some(certs[1..]) <==> CertsRestorable(s)
  {
    hide TakeCerts;
    var certs := s.certs.value;
    var f := FieldsOf(s, forTicket);
    ChainComesBackIff(certs[1..]);
    RestOf(certs);
    if |certs| == 1 {
      assert certs[1..] == [];
    } else {
      assert f[CERT_CHAIN] == Some(Concat(certs[1..]));
      if CertsRestorable(s) {
        assert IsElement(certs[1..][0]);
      }
    }
  }

  lemma NoCertsBack(s: Session, forTicket: bool)
    requires Field(s, forTicket, PEER).None?
    ensures Chain(FieldsOf(s, forTicket)) == Some([]) && Normal(s, forTicket).certs == None
  {
  }

  lemma ExtensionsBack(s: Session, forTicket: bool)
    ensures var f := FieldsOf(s, forTicket);
            FlagOr(f[EXTENDED_MASTER_SECRET], false) == Some(s.extendedMasterSecret)
            && NumberOr(f[GROUP_ID], 0) == Some(s.groupId)
  {
    var f := FieldsOf(s, forTicket);
    assert f[EXTENDED_MASTER_SECRET] == When(s.extendedMasterSecret, Flag(true));
    FlagOrBack(s.extendedMasterSecret, false);
    assert f[GROUP_ID] == When(s.groupId > 0, Number(s.groupId));
    NumberOrBack(s.groupId > 0, s.groupId, 0);
  }

  lemma CollectedBack(s: Session, forTicket: bool)
    requires Field(s, forTicket, PEER) != Some([])
    ensures var f := FieldsOf(s, forTicket);
            CertsRestorable(s) <==> Chain(f).Some? && Collected(f) == Normal(s, forTicket).certs
  {
    var f := FieldsOf(s, forTicket);
    assert f[PEER] == Field(s, forTicket, PEER);
    if f[PEER].Some? {
      var certs := s.certs.value;
      assert [certs[0]] + certs[1..] == certs;
      CertsBack(s, forTicket);
      if Chain(f).Some? {
        assert ([certs[0]] + Chain(f).value)[1..] == Chain(f).value;
      }
      hide Chain, CertsRestorable, FieldsOf, Concat, Der.ParseHeader, TakeCerts, IsElement;
    } else {
      NoCertsBack(s, forTicket);
    }
  }

  lemma ChainBack(cfg: Config, ret: Session, s: Session, forTicket: bool)
    requires ret.certs == None && Field(s, forTicket, PEER) != Some([])
    ensures var r := WithChain(cfg, ret, FieldsOf(s, forTicket));
            var certs := Normal(s, forTicket).certs;
            if CertsRestorable(s) then
              r == if cfg.cacheable(certs)
                   then Some(ret.(extendedMasterSecret := s.extendedMasterSecret, groupId := s.groupId, certs := certs))
                   else None
            else r.None? || r.value.certs != certs
  {
    hide Chain, NumberOr, FlagOr, FieldsOf, Field, CertsRestorable, Normal;
    ExtensionsBack(s, forTicket);
    CollectedBack(s, forTicket);
  }

  lemma RestOf(certs: seq<seq<byte>>)
    requires certs != []
    ensures (forall i :: 0 <= i < |certs| - 1 ==> IsElement(certs[1..][i])) <==>
            (forall i :: 1 <= i < |certs| ==> IsElement(certs[i]))
  {
    if forall i :: 0 <= i < |certs| - 1 ==> IsElement(certs[1..][i]) {
      forall i | 1 <= i < |certs|
        ensures IsElement(certs[i])
      {
        assert certs[1..][i - 1] == certs[i];
      }
    }
  }

  lemma AgeBack(ret: Session, s: Session, forTicket: bool)
    ensures WithAge(ret, FieldsOf(s, forTicket)) ==
            Some(ret.(ageAddValid := s.ageAddValid, ageAdd := if s.ageAddValid then s.ageAdd else ret.ageAdd,
                      isServer := s.isServer))
  {
    hide OctetString;
    var f := FieldsOf(s, forTicket);
    OctetStringWhenBack(s.ageAddValid, ToBigEndian(s.ageAdd, 4));
    assert Pow256(4) == 0x1_0000_0000;
    BigEndianRoundTrip(s.ageAdd, 4);
    assert f[IS_SERVER] == When(s.isServer != true, Flag(false));
    FlagOrBack(s.isServer, true);
  }

  lemma LimitsBack(ret: Session, s: Session, forTicket: bool)
    requires AllFit(FieldsOf(s, forTicket)) && ret.timeout == s.timeout
    ensures WithLimits(ret, FieldsOf(s, forTicket)) ==
            Some(ret.(peerSignatureAlgorithm := s.peerSignatureAlgorithm, maxEarlyData := s.maxEarlyData,
                      authTimeout := s.authTimeout, earlyAlpn := Stowed(s.earlyAlpn)))
  {
    var f := FieldsOf(s, forTicket);
    assert f[PEER_SIGNATURE_ALGORITHM] == When(s.peerSignatureAlgorithm != 0, Number(s.peerSignatureAlgorithm));
    assert f[MAX_EARLY_DATA] == When(s.maxEarlyData != 0, Number(s.maxEarlyData));
    assert f[AUTH_TIMEOUT] == When(s.timeout != s.authTimeout, Number(s.authTimeout));
    NumberOrBack(s.peerSignatureAlgorithm != 0, s.peerSignatureAlgorithm, 0);
    NumberOrBack(s.maxEarlyData != 0, s.maxEarlyData, 0);
    NumberOrBack(s.timeout != s.authTimeout, s.authTimeout, s.timeout);
    assert f[EARLY_ALPN] == OctetsOf(s.earlyAlpn);
    OctetStringBack(s.earlyAlpn);
    hide NumberOr, OctetString, FieldsOf, Field;
  }

  lemma FieldsFit(s: Session, forTicket: bool)
    requires s.cipher.Some? && |Body(s, forTicket)| <= MAX_LENGTH
    ensures AllFit(FieldsOf(s, forTicket))
  {
    var f := FieldsOf(s, forTicket);
    forall k | 0 <= k < |f| && f[k].Some?
      ensures |f[k].value| < LONG_LENGTH
    {
      JoinedCovers(f, k, 0);
    }
  }

  lemma LaterKeepCerts(ret: Session, f: Fields)
    requires |f| == SLOTS
    ensures WithAge(ret, f).Some? ==>
              var s6 := WithAge(ret, f).value;
              s6.certs == ret.certs && (WithLimits(s6, f).Some? ==> WithLimits(s6, f).value.certs == ret.certs)
  {
  }

  lemma EmptyLeaf(s: Session, forTicket: bool)
    requires Field(s, forTicket, PEER) == Some([])
    ensures !CertsRestorable(s)
  {
  }

  /** The tagged fields of a session are understood as its normal form exactly when they can be. */
  lemma InterpretBack(cfg: Config, ret: Session, s: Session, forTicket: bool)
    requires InBounds(s) && AllFit(FieldsOf(s, forTicket))
    requires ret.certs == None && ret.peerSha256 == Zeros(SHA256_LENGTH) && ret.ageAdd == 0
    requires ret.sslVersion == s.sslVersion && ret.cipher == s.cipher
    requires ret.sessionId == Normal(s, forTicket).sessionId && ret.masterKey == s.masterKey
    ensures Interpret(cfg, ret, FieldsOf(s, forTicket)) == Some(Normal(s, forTicket)) <==>
            s.verifyResult >= 0 && CertsRestorable(s) && cfg.cacheable(Normal(s, forTicket).certs)
  {
    hide WithTimes, WithPeerState, WithTicket, WithHashes, WithChain, WithAge, WithLimits;
    hide FieldsOf, AllFit, Field, CertsRestorable;
    var f := FieldsOf(s, forTicket);
    if Field(s, forTicket, PEER) == Some([]) {
      EmptyLeaf(s, forTicket);
    }
    TimesBack(ret, s, forTicket);
    var s1 := WithTimes(ret, f).value;
    PeerStateBack(s1, s, forTicket);
    if s.verifyResult >= 0 && Field(s, forTicket, PEER) != Some([]) {
      var s2 := WithPeerState(s1, f).value;
      TicketBack(s2, s, forTicket);
      var s3 := WithTicket(s2, f).value;
      HashesBack(s3, s, forTicket);
      var s4 := WithHashes(s3, f).value;
      ChainBack(cfg, s4, s, forTicket);
      if WithChain(cfg, s4, f).Some? {
        var s5 := WithChain(cfg, s4, f).value;
        AgeBack(s5, s, forTicket);
        LaterKeepCerts(s5, f);
        if CertsRestorable(s) {
          LimitsBack(WithAge(s5, f).value, s, forTicket);
        }
      }
    }
  }

  lemma BodyBack(cfg: Config, now: u64, s: Session, forTicket: bool)
    requires InBounds(s) && s.cipher.Some? && |Body(s, forTicket)| <= MAX_LENGTH
    ensures ParseBody(cfg, NewSession(now), Body(s, forTicket)) == Some(Normal(s, forTicket)) <==>
            Restorable(cfg, s, forTicket)
  {
    hide WithTimes, WithPeerState, WithTicket, WithHashes, WithChain, WithAge, WithLimits;
    hide ParseHead, Interpret, Head, AllFit, Field, CertsRestorable, JoinFrom, SplitFrom;
    var f := FieldsOf(s, forTicket);
    HeadBack(cfg, NewSession(now), s, forTicket, JoinFrom(f, 0));
    FieldsFit(s, forTicket);
    SplitJoined(f, 0);
    assert f[0..] == f;
    if KnownVersion(s.sslVersion) && s.cipher.value in cfg.ciphers {
      InterpretBack(cfg, ParseHead(cfg, NewSession(now), Body(s, forTicket)).value.0, s, forTicket);
    }
  }

  /** A session that was written is read back as its normal form, before anything, exactly when it is restorable. */
  lemma RoundTrip(cfg: Config, now: u64, s: Session, forTicket: bool, rest: seq<byte>)
    requires InBounds(s) && s.cipher.Some? && |Body(s, forTicket)| <= MAX_LENGTH
    ensures ParseSession(cfg, now, Serialized(s, forTicket) + rest) == Some((Normal(s, forTicket), rest)) <==>
            Restorable(cfg, s, forTicket)
  {
    hide InBounds;
    GetElement(SEQUENCE, Body(s, forTicket), rest);
    BodyBack(cfg, now, s, forTicket);
  }

  lemma RestoredFromBytes(cfg: Config, now: u64, s: Session, forTicket: bool)
    requires InBounds(s) && Restorable(cfg, s, forTicket) && |Body(s, forTicket)| <= MAX_LENGTH
    ensures FromBytesSpec(cfg, now, Serialized(s, forTicket)) == Some(Normal(s, forTicket))
  {
    hide ParseSession, Serialized, CertsRestorable, KnownVersion, Normal, InBounds, Body;
    RoundTrip(cfg, now, s, forTicket, []);
    assert Serialized(s, forTicket) + [] == Serialized(s, forTicket);
  }

  /** Sessions that are written alike differ in nothing that is kept. */
  lemma SameBytesSameSession(cfg: Config, s: Session, t: Session, forTicket: bool)
    requires InBounds(s) && InBounds(t) && Restorable(cfg, s, forTicket) && Restorable(cfg, t, forTicket)
    requires |Body(s, forTicket)| <= MAX_LENGTH && |Body(t, forTicket)| <= MAX_LENGTH
    requires Serialized(s, forTicket) == Serialized(t, forTicket)
    ensures Normal(s, forTicket) == Normal(t, forTicket)
  {
    RestoredFromBytes(cfg, 0, s, forTicket);
    RestoredFromBytes(cfg, 0, t, forTicket);
  }

  /** A second trip loses nothing more. */
  lemma NormalIsStable(s: Session, forTicket: bool)
    ensures Normal(Normal(s, forTicket), false) == Normal(s, forTicket)
  {
  }

  /** More bytes after a number are left over. */
  lemma UintThenMore(s: seq<byte>, more: seq<byte>)
    requires GetUint(s).Some?
    ensures GetUint(s + more) == Some((GetUint(s).value.0, GetUint(s).value.1 + more))
  {
    var h := ParseHeader(s).value;
    assert (s + more)[..h.end] == s[..h.end];
    HeaderStable(s, s + more);
    assert (s + more)[h.start..h.end] == s[h.start..h.end];
    assert (s + more)[h.end..] == s[h.end..] + more;
  }

  /** The two time fields with these contents, and then the rest of a session. */
  function WithTimeFields(head: seq<byte>, time: seq<byte>, timeout: seq<byte>, rest: seq<byte>): seq<byte> {
    head + (Element(Tag(TIME), time) + (Element(Tag(TIMEOUT), timeout) + rest))
  }

  lemma TimeFieldsSplit(time: seq<byte>, timeout: seq<byte>, rest: seq<byte>)
    requires |time| < LONG_LENGTH && |timeout| < LONG_LENGTH
    ensures var r := SplitFrom(rest, PEER);
            SplitFrom(Element(Tag(TIME), time) + (Element(Tag(TIMEOUT), timeout) + rest), TIME) ==
            if r.None? then None else Some(([Some(time), Some(timeout)] + r.value.0, r.value.1))
  {
    var s1 := Element(Tag(TIMEOUT), timeout) + rest;
    GetElement(Tag(TIMEOUT), timeout, rest);
    GetElement(Tag(TIME), time, s1);
    hide GetOptional, Element;
    var r := SplitFrom(rest, PEER);
    assert SplitFrom(s1, TIMEOUT) == if r.None? then None else Some(([Some(timeout)] + r.value.0, r.value.1));
    if r.Some? {
      assert [Some(time)] + ([Some(timeout)] + r.value.0) == [Some(time), Some(timeout)] + r.value.0;
    }
  }

  /** The fields after the times are read without regard to them. */
  lemma EarlierAside(r: Session, f: Fields, f': Fields)
    requires |f| == |f'| == SLOTS && forall k :: PEER <= k < SLOTS ==> f[k] == f'[k]
    ensures WithPeerState(r, f) == WithPeerState(r, f') && WithTicket(r, f) == WithTicket(r, f')
    ensures WithHashes(r, f) == WithHashes(r, f')
  {
    hide OctetString, NumberOr;
    assert f[PEER] == f'[PEER] && f[SESSION_ID_CONTEXT] == f'[SESSION_ID_CONTEXT];
  }

  lemma LaterAside(cfg: Config, r: Session, f: Fields, f': Fields)
    requires |f| == |f'| == SLOTS && forall k :: PEER <= k < SLOTS ==> f[k] == f'[k]
    ensures WithChain(cfg, r, f) == WithChain(cfg, r, f') && WithAge(r, f) == WithAge(r, f')
    ensures WithLimits(r, f) == WithLimits(r, f')
  {
    hide OctetString, NumberOr, FlagOr, TakeCerts;
    assert Chain(f) == Chain(f');
  }

  lemma TimesAside(cfg: Config, ret: Session, f: Fields, f': Fields)
    requires |f| == |f'| == SLOTS && f[PEER..] == f'[PEER..] && WithTimes(ret, f) == WithTimes(ret, f')
    ensures Interpret(cfg, ret, f) == Interpret(cfg, ret, f')
  {
    hide WithTimes, WithPeerState, WithTicket, WithHashes, WithChain, WithAge, WithLimits;
    forall k | PEER <= k < SLOTS
      ensures f[k] == f'[k]
    {
      assert f[PEER..][k - PEER] == f[k] && f'[PEER..][k - PEER] == f'[k];
    }
    forall r: Session
      ensures WithPeerState(r, f) == WithPeerState(r, f') && WithTicket(r, f) == WithTicket(r, f')
      ensures WithHashes(r, f) == WithHashes(r, f')
    {
      EarlierAside(r, f, f');
    }
    forall r: Session
      ensures WithChain(cfg, r, f) == WithChain(cfg, r, f') && WithAge(r, f) == WithAge(r, f')
      ensures WithLimits(r, f) == WithLimits(r, f')
    {
      LaterAside(cfg, r, f, f');
    }
  }

  /** Bytes after the number in either time field are not looked at. */
  lemma TimeTrailersIgnored(cfg: Config, now: u64, s: Session, forTicket: bool, time: seq<byte>, timeout: seq<byte>,
                            x: seq<byte>, y: seq<byte>, rest: seq<byte>)
    requires s.cipher.Some? && |s.sessionId| <= MAX_SESSION_ID && |s.masterKey| <= MAX_MASTER_KEY
    requires GetUint(time).Some? && GetUint(timeout).Some?
    requires |WithTimeFields(Head(s, forTicket), time + x, timeout + y, rest)| < LONG_LENGTH
    ensures FromBytesSpec(cfg, now, Element(SEQUENCE, WithTimeFields(Head(s, forTicket), time + x, timeout + y, rest)))
         == FromBytesSpec(cfg, now, Element(SEQUENCE, WithTimeFields(Head(s, forTicket), time, timeout, rest)))
  {
    TrailersLonger(Head(s, forTicket), time, timeout, x, y, rest);
    SameBody(cfg, now, s, forTicket, time, timeout, x, y, rest);
    hide ParseBody, WithTimeFields, Head, GetUint;
    WholeInput(cfg, now, WithTimeFields(Head(s, forTicket), time, timeout, rest));
    WholeInput(cfg, now, WithTimeFields(Head(s, forTicket), time + x, timeout + y, rest));
  }

  lemma WholeInput(cfg: Config, now: u64, body: seq<byte>)
    requires |body| < LONG_LENGTH
    ensures FromBytesSpec(cfg, now, Element(SEQUENCE, body)) == ParseBody(cfg, NewSession(now), body)
  {
    GetElement(SEQUENCE, body, []);
    assert Element(SEQUENCE, body) + [] == Element(SEQUENCE, body);
    hide ParseBody, Get, Element;
  }

  lemma TrailersLonger(head: seq<byte>, time: seq<byte>, timeout: seq<byte>, x: seq<byte>, y: seq<byte>,
                       rest: seq<byte>)
    ensures |WithTimeFields(head, time, timeout, rest)| <= |WithTimeFields(head, time + x, timeout + y, rest)|
    ensures |time| <= |time + x| < |WithTimeFields(head, time + x, timeout + y, rest)|
    ensures |timeout| <= |timeout + y| < |WithTimeFields(head, time + x, timeout + y, rest)|
  {
  }

  /** Splitting and reading the fields after the head. */
  function ReadFields(cfg: Config, ret: Session, s: seq<byte>): Option<Session> {
    var f := SplitFrom(s, 0);
    if f.None? || f.value.1 != [] then None else Interpret(cfg, ret, f.value.0)
  }

  lemma SameFields(cfg: Config, ret: Session, time: seq<byte>, timeout: seq<byte>, x: seq<byte>, y: seq<byte>,
                   rest: seq<byte>)
    requires GetUint(time).Some? && GetUint(timeout).Some?
    requires |time + x| < LONG_LENGTH && |timeout + y| < LONG_LENGTH
    ensures ReadFields(cfg, ret, Element(Tag(TIME), time + x) + (Element(Tag(TIMEOUT), timeout + y) + rest))
         == ReadFields(cfg, ret, Element(Tag(TIME), time) + (Element(Tag(TIMEOUT), timeout) + rest))
  {
    hide WithLimits, WithChain, WithAge, SplitFrom;
    UintThenMore(time, x);
    UintThenMore(timeout, y);
    TimeFieldsSplit(time, timeout, rest);
    TimeFieldsSplit(time + x, timeout + y, rest);
    hide GetUint, Element, Interpret;
    var r := SplitFrom(rest, PEER);
    if r.Some? {
      var f, f' := [Some(time), Some(timeout)] + r.value.0, [Some(time + x), Some(timeout + y)] + r.value.0;
      assert f[PEER..] == r.value.0 == f'[PEER..];
      TimesAside(cfg, ret, f, f');
    }
  }

  lemma SameBody(cfg: Config, now: u64, s: Session, forTicket: bool, time: seq<byte>, timeout: seq<byte>,
                 x: seq<byte>, y: seq<byte>, rest: seq<byte>)
    requires s.cipher.Some? && |s.sessionId| <= MAX_SESSION_ID && |s.masterKey| <= MAX_MASTER_KEY
    requires GetUint(time).Some? && GetUint(timeout).Some?
    requires |time + x| < LONG_LENGTH && |timeout + y| < LONG_LENGTH
    ensures ParseBody(cfg, NewSession(now), WithTimeFields(Head(s, forTicket), time + x, timeout + y, rest))
         == ParseBody(cfg, NewSession(now), WithTimeFields(Head(s, forTicket), time, timeout, rest))
  {
    var t := Element(Tag(TIME), time) + (Element(Tag(TIMEOUT), timeout) + rest);
    var t' := Element(Tag(TIME), time + x) + (Element(Tag(TIMEOUT), timeout + y) + rest);
    AfterHead(cfg, now, s, forTicket, t);
    AfterHead(cfg, now, s, forTicket, t');
    SameFields(cfg, HeadOf(now, s, forTicket), time, timeout, x, y, rest);
    hide ParseBody, Head, Element, ReadFields, HeadOf, GetUint;
  }

  /** A new session with the fields of the head filled in. */
  function HeadOf(now: u64, s: Session, forTicket: bool): Session {
    NewSession(now).(sslVersion := s.sslVersion, cipher := s.cipher,
                     sessionId := if forTicket then [] else s.sessionId, masterKey := s.masterKey)
  }

  lemma AfterHead(cfg: Config, now: u64, s: Session, forTicket: bool, t: seq<byte>)
    requires s.cipher.Some? && |s.sessionId| <= MAX_SESSION_ID && |s.masterKey| <= MAX_MASTER_KEY
    ensures ParseBody(cfg, NewSession(now), Head(s, forTicket) + t) ==
            if KnownVersion(s.sslVersion) && s.cipher.value in cfg.ciphers
            then ReadFields(cfg, HeadOf(now, s, forTicket), t) else None
  {
    HeadBack(cfg, NewSession(now), s, forTicket, t);
    hide ParseHead, Head, Interpret, SplitFrom;
  }

  /** "NOT RESUMABLE" */
  const PLACEHOLDER: seq<byte> := [0x4e, 0x4f, 0x54, 0x20, 0x52, 0x45, 0x53, 0x55, 0x4d, 0x41, 0x42, 0x4c, 0x45]

  lemma PlaceholderIsRejected(cfg: Config, now: u64)
    ensures FromBytesSpec(cfg, now, PLACEHOLDER) == None
  {
    hide ParseHeader;
  }
}
