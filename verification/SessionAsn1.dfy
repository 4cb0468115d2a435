/** Session objects: writing one through a builder, and filling a new one from a cursor. */
module SessionAsn1 {
  import opened Wire
  import opened Der
  import opened SessionDer

  /** A session in memory: its serialized fields, and whether it may be resumed at all. */
  class SslSession {
    var fields: Session
    var notResumable: bool

    constructor (now: u64)
      ensures fields == NewSession(now) && !notResumable
    {
      fields, notResumable := NewSession(now), false;
    }
  }

  // ----- writing

  /** The builder holds the session up to slot k, inside outer, with its last field possibly still open. */
  ghost predicate Wrote(b: Builder, outer: seq<Frame>, whole: seq<byte>, f: Fields, k: nat)
    reads b
  {
    && b.Valid() && !b.error && 1 <= |outer| < |b.frames| && k <= SLOTS == |f|
    && IsWritten(Close(b.frames, |outer|), outer, whole, f, k)
  }

  ghost predicate IsWritten(c: seq<Frame>, outer: seq<Frame>, whole: seq<byte>, f: Fields, k: nat)
    requires k <= SLOTS == |f|
  {
    && |c| == |outer| + 1 && outer != [] && c[..|outer|] == outer
    && c[|outer|].id == SEQUENCE && c[|outer|].body + JoinFrom(f, k) == whole
  }

  /** Only a level that is itself too long can hold something too long. */
  lemma {:induction false} FitsIfShort(fs: seq<Frame>, level: nat)
    requires level < |fs| && |Close(fs, level)[level].body| <= MAX_LENGTH
    ensures Fits(fs, level)
    decreases |fs| - level
  {
    if |fs| > level + 1 {
      var inner := Close(fs, level + 1);
      assert Close(fs, level) == Append(inner[..level + 1], Element(inner[level + 1].id, inner[level + 1].body));
      FitsIfShort(fs, level + 1);
    }
  }

  lemma TooLong(b: Builder, outer: seq<Frame>, whole: seq<byte>, f: Fields, k: nat)
    requires Wrote(b, outer, whole, f, k) && !Fits(b.frames, |outer|)
    ensures |whole| > MAX_LENGTH
  {
    if |Close(b.frames, |outer|)[|outer|].body| <= MAX_LENGTH {
      FitsIfShort(b.frames, |outer|);
    }
  }

  lemma Regroup(a: seq<byte>, b: seq<byte>, c: seq<byte>)
    ensures a + (b + c) == a + b + c
  {
  }

  /** Filling the child that was opened for slot k writes that slot. */
  lemma FieldWritten(c: seq<Frame>, outer: seq<Frame>, whole: seq<byte>, f: Fields, k: nat, content: seq<byte>)
    requires k < SLOTS == |f| && IsWritten(c, outer, whole, f, k) && f[k] == Some(content)
    ensures IsWritten(Close(c + [Frame(Tag(k), content)], |outer|), outer, whole, f, k + 1)
  {
    CloseChild(c, Frame(Tag(k), content));
    Regroup(c[|outer|].body, Element(Tag(k), content), JoinFrom(f, k + 1));
  }

  /** A field longer than any length makes the session so too. */
  lemma FieldTooLong(c: seq<Frame>, outer: seq<Frame>, whole: seq<byte>, f: Fields, k: nat)
    requires k < SLOTS == |f| && IsWritten(c, outer, whole, f, k) && f[k].Some? && |f[k].value| > MAX_LENGTH
    ensures |whole| > MAX_LENGTH
  {
  }

  lemma SkipField(b: Builder, outer: seq<Frame>, whole: seq<byte>, f: Fields, k: nat)
    requires Wrote(b, outer, whole, f, k) && k < SLOTS && f[k].None?
    ensures Wrote(b, outer, whole, f, k + 1)
  {
    assert [] + JoinFrom(f, k + 1) == JoinFrom(f, k + 1);
  }

  method AddTagged(session: Builder, k: nat, at: nat,
                   ghost outer: seq<Frame>, ghost whole: seq<byte>, ghost f: Fields)
    returns (ok: bool)
    requires at == |outer| && Wrote(session, outer, whole, f, k) && k < SLOTS
    modifies session
    ensures session.Valid() && ok == !session.error
    ensures ok ==> session.frames == Close(old(session.frames), at) + [Frame(Tag(k), [])]
    ensures !ok ==> |whole| > MAX_LENGTH
  {
    if !Fits(session.frames, at) {
      TooLong(session, outer, whole, f, k);
    }
    ok := session.AddAsn1(at, Tag(k));
  }

  method AddNumber(session: Builder, k: nat, v: u64, at: nat,
                   ghost outer: seq<Frame>, ghost whole: seq<byte>, ghost f: Fields)
    returns (ok: bool)
    requires at == |outer| && Wrote(session, outer, whole, f, k) && k < SLOTS && f[k] == Some(Number(v))
    modifies session
    ensures session.Valid()
    ensures if ok then Wrote(session, outer, whole, f, k + 1) else |whole| > MAX_LENGTH
  {
    ghost var c := Close(session.frames, at);
    ok := AddTagged(session, k, at, outer, whole, f);
    if ok {
      AppendToChild(c, Tag(k), Number(v));
      FieldWritten(c, outer, whole, f, k, Number(v));
      ok := session.AddUint64(at + 1, v);
    }
  }

  method AddOctets(session: Builder, k: nat, x: seq<byte>, at: nat,
                   ghost outer: seq<Frame>, ghost whole: seq<byte>, ghost f: Fields)
    returns (ok: bool)
    requires at == |outer| && Wrote(session, outer, whole, f, k) && k < SLOTS && f[k] == Some(Octets(x))
    modifies session
    ensures session.Valid()
    ensures if ok then Wrote(session, outer, whole, f, k + 1) else |whole| > MAX_LENGTH
  {
    ghost var c := Close(session.frames, at);
    ok := AddTagged(session, k, at, outer, whole, f);
    if ok {
      AppendToChild(c, Tag(k), Octets(x));
      FieldWritten(c, outer, whole, f, k, Octets(x));
      if |x| > MAX_LENGTH {
        FieldTooLong(c, outer, whole, f, k);
      }
      ok := session.AddOctetString(at + 1, x);
    }
  }

  method AddFlag(session: Builder, k: nat, v: bool, at: nat,
                 ghost outer: seq<Frame>, ghost whole: seq<byte>, ghost f: Fields)
    returns (ok: bool)
    requires at == |outer| && Wrote(session, outer, whole, f, k) && k < SLOTS && f[k] == Some(Flag(v))
    modifies session
    ensures session.Valid()
    ensures if ok then Wrote(session, outer, whole, f, k + 1) else |whole| > MAX_LENGTH
  {
    ghost var c := Close(session.frames, at);
    ok := AddTagged(session, k, at, outer, whole, f);
    if ok {
      AppendToChild(c, Tag(k), Flag(v));
      FieldWritten(c, outer, whole, f, k, Flag(v));
      ok := session.AddBool(at + 1, v);
    }
  }

  /** The octet string of a 32-bit number. */
  method AddAge(session: Builder, v: u32, at: nat, ghost outer: seq<Frame>, ghost whole: seq<byte>, ghost f: Fields)
    returns (ok: bool)
    requires at == |outer| && Wrote(session, outer, whole, f, AGE_ADD) && f[AGE_ADD] == Some(Octets(ToBigEndian(v, 4)))
    modifies session
    ensures session.Valid()
    ensures if ok then Wrote(session, outer, whole, f, AGE_ADD + 1) else |whole| > MAX_LENGTH
  {
    hide JoinFrom, Element, ToBigEndian;
    ghost var c := Close(session.frames, at);
    ok := AddTagged(session, AGE_ADD, at, outer, whole, f);
    if ok {
      ok := session.AddAsn1(at + 1, OCTET_STRING);
      ghost var d := c + [Frame(Tag(AGE_ADD), [])];
      AppendToChild(d, OCTET_STRING, ToBigEndian(v, 4));
      ok := session.AddBytes(at + 2, ToBigEndian(v, 4));
      NestedWritten(c, outer, whole, f, AGE_ADD, OCTET_STRING, ToBigEndian(v, 4));
      assert session.frames == c + [Frame(Tag(AGE_ADD), []), Frame(OCTET_STRING, ToBigEndian(v, 4))];
    }
  }

  /** An element left open in a child closes as if it had been written there whole. */
  lemma NestedChild(c: seq<Frame>, tag: byte, id: byte, body: seq<byte>)
    requires |c| >= 1
    ensures Close(c + [Frame(tag, []), Frame(id, body)], |c| - 1) == Close(c + [Frame(tag, Element(id, body))], |c| - 1)
  {
    hide Element, Append, Close;
    var e := Frame(tag, Element(id, body));
    InnerChild(c, tag, id, body);
    ClosedOnce(c + [Frame(tag, []), Frame(id, body)], c, e);
    CloseChild(c, e);
  }

  lemma ClosedOnce(fs: seq<Frame>, c: seq<Frame>, e: Frame)
    requires 1 <= |c| && |fs| > |c| && Close(fs, |c|) == c + [e]
    ensures Close(fs, |c| - 1) == Append(c, Element(e.id, e.body))
  {
    hide Element, Append;
    assert (c + [e])[..|c|] == c;
  }

  lemma InnerChild(c: seq<Frame>, tag: byte, id: byte, body: seq<byte>)
    requires |c| >= 1
    ensures Close(c + [Frame(tag, []), Frame(id, body)], |c|) == c + [Frame(tag, Element(id, body))]
  {
    hide Element, Append, Close;
    OneByOne(c, Frame(tag, []), Frame(id, body));
    CloseChild(c + [Frame(tag, [])], Frame(id, body));
    AppendToChild(c, tag, Element(id, body));
  }

  lemma OneByOne(c: seq<Frame>, a: Frame, b: Frame)
    ensures c + [a, b] == c + [a] + [b]
  {
  }

  /** So filling the child of the child opened for slot k writes that slot. */
  lemma NestedWritten(c: seq<Frame>, outer: seq<Frame>, whole: seq<byte>, f: Fields, k: nat, id: byte, body: seq<byte>)
    requires k < SLOTS == |f| && IsWritten(c, outer, whole, f, k) && f[k] == Some(Element(id, body))
    ensures IsWritten(Close(c + [Frame(Tag(k), []), Frame(id, body)], |outer|), outer, whole, f, k + 1)
  {
    hide Element, Close, JoinFrom;
    NestedChild(c, Tag(k), id, body);
    FieldWritten(c, outer, whole, f, k, Element(id, body));
  }

  method AddChain(session: Builder, certs: seq<seq<byte>>, at: nat,
                  ghost outer: seq<Frame>, ghost whole: seq<byte>, ghost f: Fields)
    returns (ok: bool)
    requires at == |outer| && Wrote(session, outer, whole, f, CERT_CHAIN)
    requires |certs| >= 2 && f[CERT_CHAIN] == Some(Concat(certs[1..]))
    modifies session
    ensures session.Valid()
    ensures if ok then Wrote(session, outer, whole, f, CERT_CHAIN + 1) else |whole| > MAX_LENGTH
  {
    hide Flat;
    hide JoinFrom, Element;
    ghost var c := Close(session.frames, at);
    ok := AddTagged(session, CERT_CHAIN, at, outer, whole, f);
    if !ok {
      return;
    }
    ghost var written := [];
    for i := 1 to |certs|
      invariant ok && session.Valid() && !session.error
      invariant session.frames == c + [Frame(Tag(CERT_CHAIN), written)]
      invariant written + Concat(certs[i..]) == Concat(certs[1..])
    {
      assert certs[i..][1..] == certs[i + 1..];
      AppendToFrame(c, Tag(CERT_CHAIN), written, certs[i]);
      ok := session.AddBytes(at + 1, certs[i]);
      assert written + certs[i] + Concat(certs[i + 1..]) == written + (certs[i] + Concat(certs[i + 1..]));
      written := written + certs[i];
    }
    assert certs[|certs|..] == [] && written + [] == written;
    FieldWritten(c, outer, whole, f, CERT_CHAIN, written);
  }

  lemma AppendToFrame(outer: seq<Frame>, id: byte, body: seq<byte>, data: seq<byte>)
    ensures Append(outer + [Frame(id, body)], data) == outer + [Frame(id, body + data)]
  {
  }

  /** The fields before the tagged ones, inside the element that holds the session. */
  method WriteHead(cbb: Builder, s: SslSession, level: nat, forTicket: bool) returns (ok: bool)
    requires s.fields.cipher.Some? && cbb.Valid() && (!cbb.error ==> level < |cbb.frames|)
    modifies cbb
    ensures cbb.Valid()
    ensures !ok ==> old(cbb.error) || !Fits(old(cbb.frames), level) || |Head(s.fields, forTicket)| > MAX_LENGTH
    ensures ok ==> !old(cbb.error) && !cbb.error && Fits(old(cbb.frames), level)
    ensures ok ==> cbb.frames == Close(old(cbb.frames), level) + [Frame(SEQUENCE, Head(s.fields, forTicket))]
  {
    ok := cbb.AddAsn1(level, SEQUENCE);
    if !ok {
      return;
    }
    ghost var outer := Close(old(cbb.frames), level);
    var id := if forTicket then [] else s.fields.sessionId;
    ghost var body := AddHeadNumber(cbb, VERSION, level + 1, outer, []);
    body := AddHeadNumber(cbb, s.fields.sslVersion, level + 1, outer, body);
    body := AddHeadCipher(cbb, s.fields.cipher.value, level + 1, outer, body);
    ok, body := AddHeadOctets(cbb, id, level + 1, outer, body);
    if ok {
      ok, body := AddHeadOctets(cbb, s.fields.masterKey, level + 1, outer, body);
    }
    HeadInOrder(s.fields, forTicket);
  }

  lemma HeadInOrder(s: Session, forTicket: bool)
    requires s.cipher.Some?
    ensures var id := if forTicket then [] else s.sessionId;
            Head(s, forTicket) == [] + Number(VERSION) + Number(s.sslVersion) +
                                  Octets(ToBigEndian(s.cipher.value, 2)) + Octets(id) + Octets(s.masterKey)
            && |Head(s, forTicket)| > |id| && |Head(s, forTicket)| > |s.masterKey|
  {
  }

  method AddHeadNumber(cbb: Builder, v: u64, at: nat, ghost outer: seq<Frame>, ghost body: seq<byte>)
    returns (ghost body': seq<byte>)
    requires 1 <= |outer| == at && cbb.Valid() && !cbb.error && cbb.frames == outer + [Frame(SEQUENCE, body)]
    modifies cbb
    ensures cbb.Valid() && !cbb.error && body' == body + Number(v)
    ensures cbb.frames == outer + [Frame(SEQUENCE, body')]
  {
    AppendToFrame(outer, SEQUENCE, body, Number(v));
    body' := body + Number(v);
    var ok := cbb.AddUint64(at, v);
  }

  method AddHeadCipher(cbb: Builder, id: u16, at: nat, ghost outer: seq<Frame>, ghost body: seq<byte>)
    returns (ghost body': seq<byte>)
    requires 1 <= |outer| == at && cbb.Valid() && !cbb.error && cbb.frames == outer + [Frame(SEQUENCE, body)]
    modifies cbb
    ensures cbb.Valid() && !cbb.error && body' == body + Octets(ToBigEndian(id, 2))
    ensures |cbb.frames| > at && Fits(cbb.frames, at) && Close(cbb.frames, at) == outer + [Frame(SEQUENCE, body')]
  {
    hide ToBigEndian, Element;
    var bytes := ToBigEndian(id, 2);
    var ok := cbb.AddAsn1(at, OCTET_STRING);
    ghost var session := outer + [Frame(SEQUENCE, body)];
    AppendToChild(session, OCTET_STRING, bytes);
    ok := cbb.AddBytes(at + 1, bytes);
    CloseChild(session, Frame(OCTET_STRING, bytes));
    AppendToFrame(outer, SEQUENCE, body, Octets(bytes));
    body' := body + Octets(bytes);
  }

  method AddHeadOctets(cbb: Builder, x: seq<byte>, at: nat, ghost outer: seq<Frame>, ghost body: seq<byte>)
    returns (ok: bool, ghost body': seq<byte>)
    requires 1 <= |outer| == at && cbb.Valid() && !cbb.error
    requires |cbb.frames| > at && Fits(cbb.frames, at) && Close(cbb.frames, at) == outer + [Frame(SEQUENCE, body)]
    modifies cbb
    ensures cbb.Valid() && (ok <==> |x| <= MAX_LENGTH)
    ensures ok ==> !cbb.error && body' == body + Octets(x)
    ensures ok ==> cbb.frames == outer + [Frame(SEQUENCE, body')]
    ensures ok ==> Fits(cbb.frames, at) && Close(cbb.frames, at) == cbb.frames
  {
    AppendToFrame(outer, SEQUENCE, body, Octets(x));
    body' := body + Octets(x);
    ok := cbb.AddOctetString(at, x);
  }

  // Fields that are written only when there is something to say.

  method AddNumberIf(session: Builder, k: nat, c: bool, v: u64,
                     at: nat, ghost outer: seq<Frame>, ghost whole: seq<byte>, ghost f: Fields) returns (ok: bool)
    requires at == |outer| && Wrote(session, outer, whole, f, k) && k < SLOTS && f[k] == When(c, Number(v))
    modifies session
    ensures session.Valid()
    ensures if ok then Wrote(session, outer, whole, f, k + 1) else |whole| > MAX_LENGTH
  {
    if c {
      ok := AddNumber(session, k, v, at, outer, whole, f);
    } else {
      SkipField(session, outer, whole, f, k);
      ok := true;
    }
  }

  method AddOctetsIf(session: Builder, k: nat, c: bool, x: seq<byte>,
                     at: nat, ghost outer: seq<Frame>, ghost whole: seq<byte>, ghost f: Fields) returns (ok: bool)
    requires at == |outer| && Wrote(session, outer, whole, f, k) && k < SLOTS && f[k] == When(c, Octets(x))
    modifies session
    ensures session.Valid()
    ensures if ok then Wrote(session, outer, whole, f, k + 1) else |whole| > MAX_LENGTH
  {
    if c {
      ok := AddOctets(session, k, x, at, outer, whole, f);
    } else {
      SkipField(session, outer, whole, f, k);
      ok := true;
    }
  }

  method AddFlagIf(session: Builder, k: nat, c: bool, v: bool,
                   at: nat, ghost outer: seq<Frame>, ghost whole: seq<byte>, ghost f: Fields) returns (ok: bool)
    requires at == |outer| && Wrote(session, outer, whole, f, k) && k < SLOTS && f[k] == When(c, Flag(v))
    modifies session
    ensures session.Valid()
    ensures if ok then Wrote(session, outer, whole, f, k + 1) else |whole| > MAX_LENGTH
  {
    if c {
      ok := AddFlag(session, k, v, at, outer, whole, f);
    } else {
      SkipField(session, outer, whole, f, k);
      ok := true;
    }
  }

  lemma IdentityFields(v: Session, forTicket: bool)
    ensures var f := FieldsOf(v, forTicket);
            && f[TIME] == Some(Number(v.time)) && f[TIMEOUT] == Some(Number(v.timeout))
            && f[PEER] == (if CertCount(v) > 0 && !v.peerSha256Valid then Some(v.certs.value[0]) else None)
            && f[SESSION_ID_CONTEXT] == Some(Octets(v.sidCtx))
            && f[VERIFY_RESULT] == When(v.verifyResult != V_OK, Number(Unsigned(v.verifyResult)))
            && f[HOST_NAME] == None
  {
  }

  method WriteIdentity(session: Builder, s: SslSession, forTicket: bool,
                       at: nat, ghost outer: seq<Frame>, ghost whole: seq<byte>, ghost f: Fields) returns (ok: bool)
    requires at == |outer| && f == FieldsOf(s.fields, forTicket) && Wrote(session, outer, whole, f, TIME)
    modifies session
    ensures session.Valid()
    ensures if ok then Wrote(session, outer, whole, f, PSK_IDENTITY) else |whole| > MAX_LENGTH
  {
    hide Wrote, FieldsOf, Number, Octets;
    IdentityFields(s.fields, forTicket);
    ok := AddNumber(session, TIME, s.fields.time, at, outer, whole, f);
    if ok {
      ok := AddNumber(session, TIMEOUT, s.fields.timeout, at, outer, whole, f);
    }
    if ok {
      if s.fields.certs.Some? && |s.fields.certs.value| > 0 && !s.fields.peerSha256Valid {
        ok := AddRaw(session, PEER, s.fields.certs.value[0], at, outer, whole, f);
      } else {
        SkipField(session, outer, whole, f, PEER);
      }
    }
    if ok {
      ok := AddOctets(session, SESSION_ID_CONTEXT, s.fields.sidCtx, at, outer, whole, f);
    }
    if ok {
      ok := AddNumberIf(session, VERIFY_RESULT, s.fields.verifyResult != V_OK, Unsigned(s.fields.verifyResult),
                        at, outer, whole, f);
    }
    if ok {
      SkipField(session, outer, whole, f, HOST_NAME);
    }
  }

  method AddRaw(session: Builder, k: nat, x: seq<byte>, at: nat,
                ghost outer: seq<Frame>, ghost whole: seq<byte>, ghost f: Fields)
    returns (ok: bool)
    requires at == |outer| && Wrote(session, outer, whole, f, k) && k < SLOTS && f[k] == Some(x)
    modifies session
    ensures session.Valid()
    ensures if ok then Wrote(session, outer, whole, f, k + 1) else |whole| > MAX_LENGTH
  {
    ghost var c := Close(session.frames, at);
    ok := AddTagged(session, k, at, outer, whole, f);
    if ok {
      AppendToChild(c, Tag(k), x);
      FieldWritten(c, outer, whole, f, k, x);
      ok := session.AddBytes(at + 1, x);
    }
  }

  method AddPointer(session: Builder, k: nat, x: Option<seq<byte>>,
                    at: nat, ghost outer: seq<Frame>, ghost whole: seq<byte>, ghost f: Fields) returns (ok: bool)
    requires at == |outer| && Wrote(session, outer, whole, f, k) && k < SLOTS && f[k] == OctetsOf(x)
    modifies session
    ensures session.Valid()
    ensures if ok then Wrote(session, outer, whole, f, k + 1) else |whole| > MAX_LENGTH
  {
    if x.Some? {
      ok := AddOctets(session, k, x.value, at, outer, whole, f);
    } else {
      SkipField(session, outer, whole, f, k);
      ok := true;
    }
  }

  lemma ProofFields(v: Session, forTicket: bool)
    ensures var f := FieldsOf(v, forTicket);
            && f[PSK_IDENTITY] == OctetsOf(v.pskIdentity)
            && f[LIFETIME_HINT] == When(v.lifetimeHint > 0, Number(v.lifetimeHint))
            && f[TICKET] == OctetsOf(if forTicket then None else v.ticket)
            && f[PEER_SHA256] == When(v.peerSha256Valid, Octets(v.peerSha256))
            && f[ORIGINAL_HASH] == When(v.originalHash != [], Octets(v.originalHash))
            && f[SCT_LIST] == OctetsOf(v.sctList) && f[OCSP_RESPONSE] == OctetsOf(v.ocspResponse)
  {
  }

  method WriteProofs(session: Builder, s: SslSession, forTicket: bool,
                     at: nat, ghost outer: seq<Frame>, ghost whole: seq<byte>, ghost f: Fields) returns (ok: bool)
    requires at == |outer| && f == FieldsOf(s.fields, forTicket) && Wrote(session, outer, whole, f, PSK_IDENTITY)
    modifies session
    ensures session.Valid()
    ensures if ok then Wrote(session, outer, whole, f, EXTENDED_MASTER_SECRET) else |whole| > MAX_LENGTH
  {
    hide Wrote, FieldsOf, Number, Octets, Flag;
    ProofFields(s.fields, forTicket);
    ok := AddPointer(session, PSK_IDENTITY, s.fields.pskIdentity, at, outer, whole, f);
    if ok {
      ok := AddNumberIf(session, LIFETIME_HINT, s.fields.lifetimeHint > 0, s.fields.lifetimeHint, at, outer, whole, f);
    }
    if ok {
      ok := AddPointer(session, TICKET, if forTicket then None else s.fields.ticket, at, outer, whole, f);
    }
    if ok {
      ok := AddOctetsIf(session, PEER_SHA256, s.fields.peerSha256Valid, s.fields.peerSha256, at, outer, whole, f);
    }
    if ok {
      ok := AddOctetsIf(session, ORIGINAL_HASH, s.fields.originalHash != [], s.fields.originalHash,
                        at, outer, whole, f);
    }
    if ok {
      ok := AddPointer(session, SCT_LIST, s.fields.sctList, at, outer, whole, f);
    }
    if ok {
      ok := AddPointer(session, OCSP_RESPONSE, s.fields.ocspResponse, at, outer, whole, f);
    }
  }

  lemma ExtensionFields(v: Session, forTicket: bool)
    ensures var f := FieldsOf(v, forTicket);
            && f[EXTENDED_MASTER_SECRET] == When(v.extendedMasterSecret, Flag(true))
            && f[GROUP_ID] == When(v.groupId > 0, Number(v.groupId))
            && f[CERT_CHAIN] == (if CertCount(v) >= 2 && !v.peerSha256Valid then Some(Concat(v.certs.value[1..]))
                                 else None)
            && f[AGE_ADD] == When(v.ageAddValid, Octets(ToBigEndian(v.ageAdd, 4)))
  {
  }

  method WriteExtensions(session: Builder, s: SslSession, forTicket: bool,
                         at: nat, ghost outer: seq<Frame>, ghost whole: seq<byte>, ghost f: Fields) returns (ok: bool)
    requires at == |outer| && f == FieldsOf(s.fields, forTicket)
    requires Wrote(session, outer, whole, f, EXTENDED_MASTER_SECRET)
    modifies session
    ensures session.Valid()
    ensures if ok then Wrote(session, outer, whole, f, IS_SERVER) else |whole| > MAX_LENGTH
  {
    hide Wrote, FieldsOf, Number, Octets, Flag;
    ExtensionFields(s.fields, forTicket);
    ok := AddFlagIf(session, EXTENDED_MASTER_SECRET, s.fields.extendedMasterSecret, true, at, outer, whole, f);
    if ok {
      ok := AddNumberIf(session, GROUP_ID, s.fields.groupId > 0, s.fields.groupId, at, outer, whole, f);
    }
    if ok {
      if s.fields.certs.Some? && !s.fields.peerSha256Valid && |s.fields.certs.value| >= 2 {
        ok := AddChain(session, s.fields.certs.value, at, outer, whole, f);
      } else {
        SkipField(session, outer, whole, f, CERT_CHAIN);
      }
    }
    if ok {
      if s.fields.ageAddValid {
        ok := AddAge(session, s.fields.ageAdd, at, outer, whole, f);
      } else {
        SkipField(session, outer, whole, f, AGE_ADD);
      }
    }
  }

  lemma LimitFields(v: Session, forTicket: bool)
    ensures var f := FieldsOf(v, forTicket);
            && f[IS_SERVER] == When(!v.isServer, Flag(false))
            && f[PEER_SIGNATURE_ALGORITHM] == When(v.peerSignatureAlgorithm != 0, Number(v.peerSignatureAlgorithm))
            && f[MAX_EARLY_DATA] == When(v.maxEarlyData != 0, Number(v.maxEarlyData))
            && f[AUTH_TIMEOUT] == When(v.timeout != v.authTimeout, Number(v.authTimeout))
            && f[EARLY_ALPN] == OctetsOf(v.earlyAlpn)
  {
  }

  method WriteLimits(session: Builder, s: SslSession, forTicket: bool,
                     at: nat, ghost outer: seq<Frame>, ghost whole: seq<byte>, ghost f: Fields) returns (ok: bool)
    requires at == |outer| && f == FieldsOf(s.fields, forTicket) && Wrote(session, outer, whole, f, IS_SERVER)
    modifies session
    ensures session.Valid()
    ensures if ok then Wrote(session, outer, whole, f, SLOTS) else |whole| > MAX_LENGTH
  {
    hide Wrote, FieldsOf, Number, Octets, Flag;
    LimitFields(s.fields, forTicket);
    ok := AddFlagIf(session, IS_SERVER, !s.fields.isServer, false, at, outer, whole, f);
    if ok {
      ok := AddNumberIf(session, PEER_SIGNATURE_ALGORITHM, s.fields.peerSignatureAlgorithm != 0,
                        s.fields.peerSignatureAlgorithm, at, outer, whole, f);
    }
    if ok {
      ok := AddNumberIf(session, MAX_EARLY_DATA, s.fields.maxEarlyData != 0, s.fields.maxEarlyData,
                        at, outer, whole, f);
    }
    if ok {
      ok := AddNumberIf(session, AUTH_TIMEOUT, s.fields.timeout != s.fields.authTimeout, s.fields.authTimeout,
                        at, outer, whole, f);
    }
    if ok {
      ok := AddPointer(session, EARLY_ALPN, s.fields.earlyAlpn, at, outer, whole, f);
    }
  }

  /** Once every slot is written, closing the session leaves its serialized form. */
  lemma SessionCloses(b: Builder, outer: seq<Frame>, whole: seq<byte>, f: Fields)
    requires Wrote(b, outer, whole, f, SLOTS)
    ensures Close(b.frames, |outer| - 1) == Append(outer, Element(SEQUENCE, whole))
    ensures Fits(b.frames, |outer| - 1) <==> |whole| <= MAX_LENGTH
  {
    var c := Close(b.frames, |outer|);
    assert c[|outer|].body + [] == c[|outer|].body;
    if |whole| <= MAX_LENGTH {
      FitsIfShort(b.frames, |outer|);
    }
  }

  /** SSL_SESSION_to_bytes_full: append the session at some level of the builder, closing what is inside it. */
  method ToBytesFull(s: SslSession?, cbb: Builder, level: nat, forTicket: bool) returns (ok: bool)
    requires cbb.Valid() && (!cbb.error ==> level < |cbb.frames|)
    modifies cbb
    ensures cbb.Valid()
    ensures ok <==> !old(cbb.error) && s != null && s.fields.cipher.Some?
                    && Fits(old(cbb.frames), level) && |Body(s.fields, forTicket)| <= MAX_LENGTH
    ensures ok ==> !cbb.error && cbb.frames == Append(Close(old(cbb.frames), level), Serialized(s.fields, forTicket))
  {
    hide Append, Flat, Length;
    if s == null || s.fields.cipher.None? {
      return false;
    }
    ghost var f := FieldsOf(s.fields, forTicket);
    ghost var whole := Body(s.fields, forTicket);
    ok := WriteHead(cbb, s, level, forTicket);
    if !ok {
      return;
    }
    ghost var outer := Close(old(cbb.frames), level);
    HeadWritten(cbb, outer, s.fields, forTicket);
    hide FieldsOf, Head, Wrote, Element;
    ok := WriteIdentity(cbb, s, forTicket, level + 1, outer, whole, f);
    if ok {
      ok := WriteProofs(cbb, s, forTicket, level + 1, outer, whole, f);
    }
    if ok {
      ok := WriteExtensions(cbb, s, forTicket, level + 1, outer, whole, f);
    }
    if ok {
      ok := WriteLimits(cbb, s, forTicket, level + 1, outer, whole, f);
    }
    if ok {
      SessionCloses(cbb, outer, whole, f);
      ok := cbb.Flush(level);
    }
  }

  lemma HeadWritten(b: Builder, outer: seq<Frame>, s: Session, forTicket: bool)
    requires s.cipher.Some? && outer != []
    requires b.Valid() && !b.error && b.frames == outer + [Frame(SEQUENCE, Head(s, forTicket))]
    ensures Wrote(b, outer, Body(s, forTicket), FieldsOf(s, forTicket), 0)
  {
  }

  /** SSL_SESSION_to_bytes: a session that must not be resumed becomes a placeholder. */
  method ToBytes(s: SslSession) returns (out: Option<seq<byte>>)
    ensures s.notResumable ==> out == Some(PLACEHOLDER)
    ensures !s.notResumable ==>
      out == if s.fields.cipher.Some? && |Body(s.fields, false)| <= MAX_LENGTH
             then Some(Serialized(s.fields, false)) else None
  {
    if s.notResumable {
      return Some(PLACEHOLDER);
    }
    var cbb := new Builder();
    var ok := ToBytesFull(s, cbb, 0, false);
    if !ok {
      return None;
    }
    assert [] + Serialized(s.fields, false) == Serialized(s.fields, false);
    out := Some(cbb.buf);
  }

  /** SSL_SESSION_to_bytes_for_ticket */
  method ToBytesForTicket(s: SslSession) returns (out: Option<seq<byte>>)
    ensures out == if s.fields.cipher.Some? && |Body(s.fields, true)| <= MAX_LENGTH
                   then Some(Serialized(s.fields, true)) else None
  {
    var cbb := new Builder();
    var ok := ToBytesFull(s, cbb, 0, true);
    if !ok {
      return None;
    }
    assert [] + Serialized(s.fields, true) == Serialized(s.fields, true);
    out := Some(cbb.buf);
  }

  // ----- reading
  // e is how far the tagged fields are looked at: with e the first slot that a method leaves unread, its contract says
  // exactly when it succeeds, and with e == SLOTS what it contributes to reading the whole body.

  /** The fields from slot k up to e, as the parser finds them, and what follows. */
  ghost function SplitTo(s: seq<byte>, k: nat, e: nat): (r: Option<(Fields, seq<byte>)>)
    requires k <= e <= SLOTS
    ensures r.Some? ==> |r.value.0| == e - k
    decreases e - k
  {
    if k == e then Some(([], s))
    else
      var first := GetOptional(s, Tag(k));
      if first.None? then None
      else
        var others := SplitTo(first.value.1, k + 1, e);
        if others.None? then None else Some(([first.value.0] + others.value.0, others.value.1))
  }

  lemma {:induction false} SplitToEnd(s: seq<byte>, k: nat)
    requires k <= SLOTS
    ensures SplitTo(s, k, SLOTS) == SplitFrom(s, k)
    decreases SLOTS - k
  {
    if k < SLOTS && GetOptional(s, Tag(k)).Some? {
      hide GetOptional;
      SplitToEnd(GetOptional(s, Tag(k)).value.1, k + 1);
    }
  }

  /** The tagged fields before slot e, if the parser can tell them apart. */
  ghost function Found(whole: seq<byte>, e: nat): (f: Option<Fields>)
    requires e <= SLOTS
    ensures f.Some? ==> |f.value| == e
  {
    if SplitTo(whole, 0, e).None? then None else Some(SplitTo(whole, 0, e).value.0)
  }

  /** The cursor has read the slots before k. */
  ghost predicate Reads(whole: seq<byte>, e: nat, k: nat, rest: seq<byte>)
    requires e <= SLOTS
  {
    && k <= e
    && var all := SplitTo(whole, 0, e);
       var others := SplitTo(rest, k, e);
       if others.None? then all.None?
       else all.Some? && all.value.0[k..] == others.value.0 && all.value.1 == others.value.1
  }

  lemma Advance(whole: seq<byte>, e: nat, k: nat, rest: seq<byte>)
    requires k < e <= SLOTS && Reads(whole, e, k, rest)
    ensures var r := GetOptional(rest, Tag(k));
            if r.None? then Found(whole, e).None?
            else Reads(whole, e, k + 1, r.value.1) && (Found(whole, e).Some? ==> Found(whole, e).value[k] == r.value.0)
  {
    hide GetOptional;
    var r := GetOptional(rest, Tag(k));
    if r.Some? && SplitTo(rest, k, e).Some? {
      var f := SplitTo(whole, 0, e).value.0;
      assert f[k..][0] == f[k] && f[k..][1..] == f[k + 1..];
      assert ([r.value.0] + SplitTo(r.value.1, k + 1, e).value.0)[1..] == SplitTo(r.value.1, k + 1, e).value.0;
    }
  }

  /** Once everything up to e has been read, it was all there. */
  lemma ReadsAll(whole: seq<byte>, e: nat, rest: seq<byte>)
    requires e <= SLOTS && Reads(whole, e, e, rest)
    ensures Found(whole, e).Some? && SplitTo(whole, 0, e).Some? && SplitTo(whole, 0, e).value.1 == rest
  {
  }

  method TakeOptional(session: Cursor, k: nat, ghost whole: seq<byte>, ghost e: nat)
    returns (ok: bool, out: Option<seq<byte>>)
    requires k < e <= SLOTS && Reads(whole, e, k, session.rest)
    modifies session
    ensures ok <==> GetOptional(old(session.rest), Tag(k)).Some?
    ensures ok ==> (out, session.rest) == GetOptional(old(session.rest), Tag(k)).value
    ensures ok ==> Reads(whole, e, k + 1, session.rest)
    ensures Found(whole, e).Some? ==> ok && out == Found(whole, e).value[k]
  {
    Advance(whole, e, k, session.rest);
    ok, out := session.GetOptionalAsn1(Tag(k));
  }

  method TakeRequired(session: Cursor, k: nat, ghost whole: seq<byte>, ghost e: nat)
    returns (ok: bool, out: seq<byte>)
    requires k < e <= SLOTS && Reads(whole, e, k, session.rest)
    modifies session
    ensures ok <==> Get(old(session.rest), Tag(k)).Some?
    ensures ok ==> (out, session.rest) == Get(old(session.rest), Tag(k)).value
    ensures ok ==> Reads(whole, e, k + 1, session.rest)
    ensures Found(whole, e).Some? ==> Found(whole, e).value[k] == if ok then Some(out) else None
  {
    Advance(whole, e, k, session.rest);
    ok, out := session.GetAsn1(Tag(k));
  }

  /** CBS_get_optional_asn1_octet_string */
  method TakeOctetString(session: Cursor, k: nat, ghost whole: seq<byte>, ghost e: nat)
    returns (ok: bool, out: Option<seq<byte>>)
    requires k < e <= SLOTS && Reads(whole, e, k, session.rest)
    modifies session
    ensures var field := GetOptional(old(session.rest), Tag(k));
            && (ok <==> field.Some? && OctetString(field.value.0).Some?)
            && (ok ==> Some(out) == OctetString(field.value.0) && session.rest == field.value.1)
    ensures ok ==> Reads(whole, e, k + 1, session.rest)
    ensures Found(whole, e).Some? ==> OctetString(Found(whole, e).value[k]) == if ok then Some(out) else None
  {
    hide Reads, GetOptional, Found;
    ok, out := TakeOptional(session, k, whole, e);
    if ok && out.Some? {
      var child := new Cursor(out.value);
      var value;
      ok, value := child.GetAsn1(OCTET_STRING);
      out := Some(value);
      if ok {
        ok := child.rest == [];
      }
    }
  }

  /** CBS_get_optional_asn1_uint64 */
  method TakeNumber(session: Cursor, k: nat, default: u64, ghost whole: seq<byte>, ghost e: nat)
    returns (ok: bool, v: u64)
    requires k < e <= SLOTS && Reads(whole, e, k, session.rest)
    modifies session
    ensures var field := GetOptional(old(session.rest), Tag(k));
            && (ok <==> field.Some? && NumberOr(field.value.0, default).Some?)
            && (ok ==> Some(v) == NumberOr(field.value.0, default) && session.rest == field.value.1)
    ensures ok ==> Reads(whole, e, k + 1, session.rest)
    ensures Found(whole, e).Some? ==> NumberOr(Found(whole, e).value[k], default) == if ok then Some(v) else None
  {
    hide Reads, GetOptional, Found;
    var out;
    v := default;
    ok, out := TakeOptional(session, k, whole, e);
    if ok && out.Some? {
      var child := new Cursor(out.value);
      ok, v := child.GetUint64();
      if ok {
        ok := child.rest == [];
      }
    }
  }

  /** CBS_get_optional_asn1_bool */
  method TakeFlag(session: Cursor, k: nat, default: bool, ghost whole: seq<byte>, ghost e: nat)
    returns (ok: bool, v: bool)
    requires k < e <= SLOTS && Reads(whole, e, k, session.rest)
    modifies session
    ensures var field := GetOptional(old(session.rest), Tag(k));
            && (ok <==> field.Some? && FlagOr(field.value.0, default).Some?)
            && (ok ==> Some(v) == FlagOr(field.value.0, default) && session.rest == field.value.1)
    ensures ok ==> Reads(whole, e, k + 1, session.rest)
    ensures Found(whole, e).Some? ==> FlagOr(Found(whole, e).value[k], default) == if ok then Some(v) else None
  {
    hide Reads, GetOptional, Found;
    var out;
    v := default;
    ok, out := TakeOptional(session, k, whole, e);
    if ok && out.Some? {
      var child := new Cursor(out.value);
      var value;
      ok, value := child.GetAsn1(BOOLEAN);
      if !ok || |value| != 1 || child.rest != [] {
        return false, v;
      }
      if value[0] == 0 {
        v := false;
      } else if value[0] == 0xff {
        v := true;
      } else {
        ok := false;
      }
    }
  }

  method FillHead(cfg: Config, session: Cursor, ret: SslSession) returns (ok: bool)
    modifies session, ret
    ensures ok <==> ParseHead(cfg, old(ret.fields), old(session.rest)).Some?
    ensures ok ==> ParseHead(cfg, old(ret.fields), old(session.rest)) == Some((ret.fields, session.rest))
    ensures ret.notResumable == old(ret.notResumable)
  {
    var version, ssl, cipher, id, masterKey;
    ok, version := session.GetUint64();
    if !ok || version != VERSION {
      return false;
    }
    ok, ssl := session.GetUint64();
    if !ok || ssl > 0xffff || !KnownVersion(ssl) {
      return false;
    }
    ret.fields := ret.fields.(sslVersion := ssl);
    ok, cipher := session.GetAsn1(OCTET_STRING);
    if !ok || |cipher| != 2 {
      return false;
    }
    assert Pow256(2) == 0x1_0000;
    if BigEndian(cipher) !in cfg.ciphers {
      return false;
    }
    ret.fields := ret.fields.(cipher := Some(BigEndian(cipher)));
    ok, id := session.GetAsn1(OCTET_STRING);
    if !ok || |id| > MAX_SESSION_ID {
      return false;
    }
    ok, masterKey := session.GetAsn1(OCTET_STRING);
    if !ok || |masterKey| > MAX_MASTER_KEY {
      return false;
    }
    ret.fields := ret.fields.(sessionId := id, masterKey := masterKey);
  }

  method FillTimes(session: Cursor, ret: SslSession, ghost whole: seq<byte>, ghost e: nat) returns (ok: bool)
    requires PEER <= e <= SLOTS && Reads(whole, e, TIME, session.rest)
    modifies session, ret
    ensures ok ==> Reads(whole, e, PEER, session.rest)
    ensures ok && e == PEER ==> Found(whole, e).Some?
    ensures Found(whole, e).Some? ==>
              WithTimes(old(ret.fields), Found(whole, e).value) == if ok then Some(ret.fields) else None
    ensures ret.notResumable == old(ret.notResumable)
  {
    hide GetOptional, Get, Reads, Found, GetUint;
    var content, v;
    ok, content := TakeRequired(session, TIME, whole, e);
    if ok {
      var child := new Cursor(content);
      ok, v := child.GetUint64();
      ret.fields := ret.fields.(time := v);
    }
    if !ok {
      return;
    }
    ok, content := TakeRequired(session, TIMEOUT, whole, e);
    if ok {
      var child := new Cursor(content);
      ok, v := child.GetUint64();
    }
    if !ok || v > UINT32_MAX {
      return false;
    }
    ret.fields := ret.fields.(timeout := v);
    if ok && e == PEER {
      ReadsAll(whole, e, session.rest);
    }
  }

  method FillPeerState(session: Cursor, ret: SslSession, ghost whole: seq<byte>, ghost e: nat)
    returns (ok: bool, peer: Option<seq<byte>>)
    requires PSK_IDENTITY <= e <= SLOTS && Reads(whole, e, PEER, session.rest)
    modifies session, ret
    ensures ok ==> Reads(whole, e, PSK_IDENTITY, session.rest)
    ensures ok && e == PSK_IDENTITY ==> Found(whole, e).Some?
    ensures Found(whole, e).Some? ==>
              WithPeerState(old(ret.fields), Found(whole, e).value) == (if ok then Some(ret.fields) else None)
              && (ok ==> peer == Found(whole, e).value[PEER])
    ensures ret.notResumable == old(ret.notResumable)
  {
    hide GetOptional, Get, Reads, Found, OctetString, NumberOr;
    var sidCtx, verify, hostName;
    ok, peer := TakeOptional(session, PEER, whole, e);
    if !ok || peer == Some([]) {
      return false, None;
    }
    ok, sidCtx := TakeOctetString(session, SESSION_ID_CONTEXT, whole, e);
    if !ok || |Contents(sidCtx)| > MAX_SID_CTX {
      return false, None;
    }
    ret.fields := ret.fields.(sidCtx := Contents(sidCtx));
    ok, verify := TakeNumber(session, VERIFY_RESULT, V_OK, whole, e);
    if !ok || verify > LONG_MAX {
      return false, None;
    }
    ret.fields := ret.fields.(verifyResult := verify);
    ok, hostName := TakeOptional(session, HOST_NAME, whole, e);
    if ok && e == PSK_IDENTITY {
      ReadsAll(whole, e, session.rest);
    }
  }

  method FillTicket(session: Cursor, ret: SslSession, ghost whole: seq<byte>, ghost e: nat) returns (ok: bool)
    requires PEER_SHA256 <= e <= SLOTS && Reads(whole, e, PSK_IDENTITY, session.rest)
    modifies session, ret
    ensures ok ==> Reads(whole, e, PEER_SHA256, session.rest)
    ensures ok && e == PEER_SHA256 ==> Found(whole, e).Some?
    ensures Found(whole, e).Some? ==>
              WithTicket(old(ret.fields), Found(whole, e).value) == if ok then Some(ret.fields) else None
    ensures ret.notResumable == old(ret.notResumable)
  {
    hide GetOptional, Get, Reads, Found, OctetString, NumberOr;
    var psk, hint, ticket;
    ok, psk := TakeOctetString(session, PSK_IDENTITY, whole, e);
    if !ok || 0 in Contents(psk) {
      return false;
    }
    ret.fields := ret.fields.(pskIdentity := psk);
    ok, hint := TakeNumber(session, LIFETIME_HINT, 0, whole, e);
    if !ok || hint > UINT32_MAX {
      return false;
    }
    ret.fields := ret.fields.(lifetimeHint := hint);
    ok, ticket := TakeOctetString(session, TICKET, whole, e);
    ret.fields := ret.fields.(ticket := Stowed(ticket));
    if ok && e == PEER_SHA256 {
      ReadsAll(whole, e, session.rest);
    }
  }

  method FillHashes(session: Cursor, ret: SslSession, ghost whole: seq<byte>, ghost e: nat) returns (ok: bool)
    requires EXTENDED_MASTER_SECRET <= e <= SLOTS && Reads(whole, e, PEER_SHA256, session.rest)
    modifies session, ret
    ensures ok ==> Reads(whole, e, EXTENDED_MASTER_SECRET, session.rest)
    ensures ok && e == EXTENDED_MASTER_SECRET ==> Found(whole, e).Some?
    ensures Found(whole, e).Some? ==>
              WithHashes(old(ret.fields), Found(whole, e).value) == if ok then Some(ret.fields) else None
    ensures ret.notResumable == old(ret.notResumable)
  {
    hide GetOptional, Get, Reads, Found, OctetString;
    var sha, hash, sct, ocsp;
    ok, sha := TakeOctetString(session, PEER_SHA256, whole, e);
    if !ok || (sha.Some? && |sha.value| != SHA256_LENGTH) {
      return false;
    }
    if sha.Some? {
      ret.fields := ret.fields.(peerSha256 := sha.value, peerSha256Valid := true);
    } else {
      ret.fields := ret.fields.(peerSha256Valid := false);
    }
    ok, hash := TakeOctetString(session, ORIGINAL_HASH, whole, e);
    if !ok || |Contents(hash)| > MAX_MD_SIZE {
      return false;
    }
    ret.fields := ret.fields.(originalHash := Contents(hash));
    ok, sct := TakeOctetString(session, SCT_LIST, whole, e);
    if !ok {
      return;
    }
    ret.fields := ret.fields.(sctList := sct);
    ok, ocsp := TakeOctetString(session, OCSP_RESPONSE, whole, e);
    ret.fields := ret.fields.(ocspResponse := ocsp);
    if ok && e == EXTENDED_MASTER_SECRET {
      ReadsAll(whole, e, session.rest);
    }
  }

  /** The certificates after the leaf, one element at a time. */
  method TakeChain(content: seq<byte>) returns (ok: bool, certs: seq<seq<byte>>)
    ensures TakeCerts(content) == if ok then Some(certs) else None
  {
    var chain := new Cursor(content);
    ok, certs := true, [];
    if TakeCerts(content).Some? {
      assert [] + TakeCerts(content).value == TakeCerts(content).value;
    }
    while chain.rest != []
      invariant ok && TakeCerts(content) == if TakeCerts(chain.rest).None? then None
                                            else Some(certs + TakeCerts(chain.rest).value)
      decreases |chain.rest|
    {
      var cert, tag, start;
      ghost var rest := chain.rest;
      ok, cert, tag, start := chain.GetAnyElement();
      if !ok {
        return;
      }
      if TakeCerts(chain.rest).Some? {
        assert certs + ([cert] + TakeCerts(chain.rest).value) == certs + [cert] + TakeCerts(chain.rest).value;
      }
      certs := certs + [cert];
    }
    assert certs + [] == certs;
  }

  method FillChain(cfg: Config, session: Cursor, ret: SslSession, peer: Option<seq<byte>>,
                   ghost whole: seq<byte>, ghost e: nat)
    returns (ok: bool)
    requires AGE_ADD <= e <= SLOTS && Reads(whole, e, EXTENDED_MASTER_SECRET, session.rest)
    requires Found(whole, e).Some? ==> ret.fields.certs == None && peer == Found(whole, e).value[PEER]
    modifies session, ret
    ensures ok ==> Reads(whole, e, AGE_ADD, session.rest)
    ensures ok && e == AGE_ADD ==> Found(whole, e).Some?
    ensures Found(whole, e).Some? ==>
              WithChain(cfg, old(ret.fields), Found(whole, e).value) == if ok then Some(ret.fields) else None
    ensures ret.notResumable == old(ret.notResumable)
  {
    hide SplitTo, Reads, TakeCerts, Get, FlagOr, GetOptional, Found, NumberOr, Tag;
    var ems, group, chain;
    ok, ems := TakeFlag(session, EXTENDED_MASTER_SECRET, false, whole, e);
    if !ok {
      return;
    }
    ret.fields := ret.fields.(extendedMasterSecret := ems);
    ok, group := TakeNumber(session, GROUP_ID, 0, whole, e);
    if !ok || group > 0xffff {
      return false;
    }
    ret.fields := ret.fields.(groupId := group);
    ok, chain := TakeOptional(session, CERT_CHAIN, whole, e);
    if !ok || chain == Some([]) || (chain.Some? && peer.None?) {
      return false;
    }
    if peer.Some? {
      var others := [];
      if chain.Some? {
        ok, others := TakeChain(chain.value);
        if !ok {
          return;
        }
      }
      ret.fields := ret.fields.(certs := Some([peer.value] + others));
    }
    ok := cfg.cacheable(ret.fields.certs);
    if ok && e == AGE_ADD {
      ReadsAll(whole, e, session.rest);
    }
  }

  method FillAge(session: Cursor, ret: SslSession, ghost whole: seq<byte>, ghost e: nat) returns (ok: bool)
    requires PEER_SIGNATURE_ALGORITHM <= e <= SLOTS && Reads(whole, e, AGE_ADD, session.rest)
    modifies session, ret
    ensures ok ==> Reads(whole, e, PEER_SIGNATURE_ALGORITHM, session.rest)
    ensures ok && e == PEER_SIGNATURE_ALGORITHM ==> Found(whole, e).Some?
    ensures Found(whole, e).Some? ==>
              WithAge(old(ret.fields), Found(whole, e).value) == if ok then Some(ret.fields) else None
    ensures ret.notResumable == old(ret.notResumable)
  {
    hide GetOptional, Get, Reads, Found, OctetString, FlagOr;
    var age, isServer;
    ok, age := TakeOctetString(session, AGE_ADD, whole, e);
    if !ok || (age.Some? && |age.value| != 4) {
      return false;
    }
    if age.Some? {
      ret.fields := ret.fields.(ageAdd := AgeOf(age.value));
    }
    ret.fields := ret.fields.(ageAddValid := age.Some?);
    ok, isServer := TakeFlag(session, IS_SERVER, true, whole, e);
    ret.fields := ret.fields.(isServer := isServer);
    if ok && e == PEER_SIGNATURE_ALGORITHM {
      ReadsAll(whole, e, session.rest);
    }
  }

  method FillLimits(session: Cursor, ret: SslSession, ghost whole: seq<byte>, ghost e: nat) returns (ok: bool)
    requires e == SLOTS && Reads(whole, e, PEER_SIGNATURE_ALGORITHM, session.rest)
    modifies session, ret
    ensures ok ==> Reads(whole, e, SLOTS, session.rest)
    ensures ok ==> Found(whole, e).Some?
    ensures Found(whole, e).Some? ==>
              WithLimits(old(ret.fields), Found(whole, e).value) == if ok then Some(ret.fields) else None
    ensures ret.notResumable == old(ret.notResumable)
  {
    hide GetOptional, Get, Reads, Found, OctetString, NumberOr;
    var alg, early, auth, alpn;
    ok, alg := TakeNumber(session, PEER_SIGNATURE_ALGORITHM, 0, whole, e);
    if !ok || alg > 0xffff {
      return false;
    }
    ret.fields := ret.fields.(peerSignatureAlgorithm := alg);
    ok, early := TakeNumber(session, MAX_EARLY_DATA, 0, whole, e);
    if !ok || early > UINT32_MAX {
      return false;
    }
    ret.fields := ret.fields.(maxEarlyData := early);
    ok, auth := TakeNumber(session, AUTH_TIMEOUT, ret.fields.timeout, whole, e);
    if !ok || auth > UINT32_MAX {
      return false;
    }
    ret.fields := ret.fields.(authTimeout := auth);
    ok, alpn := TakeOctetString(session, EARLY_ALPN, whole, e);
    ret.fields := ret.fields.(earlyAlpn := Stowed(alpn));
    if ok && e == SLOTS {
      ReadsAll(whole, e, session.rest);
    }
  }

  /** SSL_SESSION_parse: a new session filled from the front of the cursor. */
  method Parse(cfg: Config, now: u64, cbs: Cursor) returns (ret: SslSession?)
    modifies cbs
    ensures var r := ParseSession(cfg, now, old(cbs.rest));
            if r.None? then ret == null
            else ret != null && fresh(ret) && (ret.fields, cbs.rest) == r.value && !ret.notResumable
  {
    hide Get, ParseBody;
    var s := new SslSession(now);
    var ok, body := cbs.GetAsn1(SEQUENCE);
    if !ok {
      return null;
    }
    var session := new Cursor(body);
    ok := FillBody(cfg, session, s);
    ret := if ok then s else null;
  }

  lemma EarlierKeepCerts(ret: Session, f: Fields)
    requires |f| > OCSP_RESPONSE
    ensures WithTimes(ret, f).Some? ==> WithTimes(ret, f).value.certs == ret.certs
    ensures WithPeerState(ret, f).Some? ==> WithPeerState(ret, f).value.certs == ret.certs
    ensures WithTicket(ret, f).Some? ==> WithTicket(ret, f).value.certs == ret.certs
    ensures WithHashes(ret, f).Some? ==> WithHashes(ret, f).value.certs == ret.certs
  {
  }

  /** The tagged fields up to the certificate chain. */
  method FillEarlier(session: Cursor, ret: SslSession, ghost whole: seq<byte>, ghost e: nat)
    returns (ok: bool, peer: Option<seq<byte>>)
    requires EXTENDED_MASTER_SECRET <= e <= SLOTS && Reads(whole, e, TIME, session.rest)
    modifies session, ret
    ensures ok ==> Reads(whole, e, EXTENDED_MASTER_SECRET, session.rest)
    ensures ok && e == EXTENDED_MASTER_SECRET ==> Found(whole, e).Some?
    ensures Found(whole, e).Some? ==>
              Earlier(old(ret.fields), Found(whole, e).value) == (if ok then Some(ret.fields) else None)
              && (ok ==> peer == Found(whole, e).value[PEER] && ret.fields.certs == old(ret.fields.certs))
    ensures ret.notResumable == old(ret.notResumable)
  {
    hide Reads, Found, WithTimes, WithPeerState, WithTicket, WithHashes;
    ghost var known := Found(whole, e).Some?;
    peer := None;
    if known {
      EarlierKeepCerts(ret.fields, Found(whole, e).value);
    }
    ok := FillTimes(session, ret, whole, e);
    if !ok {
      return;
    }
    if known {
      EarlierKeepCerts(ret.fields, Found(whole, e).value);
    }
    ok, peer := FillPeerState(session, ret, whole, e);
    if !ok {
      return;
    }
    if known {
      EarlierKeepCerts(ret.fields, Found(whole, e).value);
    }
    ok := FillTicket(session, ret, whole, e);
    if !ok {
      return;
    }
    if known {
      EarlierKeepCerts(ret.fields, Found(whole, e).value);
    }
    ok := FillHashes(session, ret, whole, e);
    if ok && e == EXTENDED_MASTER_SECRET {
      ReadsAll(whole, e, session.rest);
    }
  }

  method FillBody(cfg: Config, session: Cursor, ret: SslSession) returns (ok: bool)
    requires ret.fields.certs == None
    modifies session, ret
    ensures ParseBody(cfg, old(ret.fields), old(session.rest)) == if ok then Some(ret.fields) else None
    ensures ret.notResumable == old(ret.notResumable)
  {
    hide Get;
    hide Reads, Found, Earlier, WithChain, WithAge, WithLimits;
    ok := FillHead(cfg, session, ret);
    if !ok {
      return;
    }
    HeadKeepsCerts(cfg, old(ret.fields), old(session.rest));
    hide ParseHead;
    ghost var whole := session.rest;
    StartsReading(whole);
    var peer;
    ok, peer := FillEarlier(session, ret, whole, SLOTS);
    if !ok {
      return;
    }
    ok := FillChain(cfg, session, ret, peer, whole, SLOTS);
    if !ok {
      return;
    }
    ok := FillAge(session, ret, whole, SLOTS);
    if !ok {
      return;
    }
    ok := FillLimits(session, ret, whole, SLOTS);
    if ok {
      EndsReading(whole, session.rest);
      ok := session.rest == [];
    }
  }

  lemma HeadKeepsCerts(cfg: Config, ret: Session, s: seq<byte>)
    ensures ParseHead(cfg, ret, s).Some? ==> ParseHead(cfg, ret, s).value.0.certs == ret.certs
  {
  }

  lemma StartsReading(whole: seq<byte>)
    ensures Reads(whole, SLOTS, 0, whole)
    ensures Found(whole, SLOTS) == if SplitFrom(whole, 0).None? then None else Some(SplitFrom(whole, 0).value.0)
  {
    SplitToEnd(whole, 0);
  }

  lemma EndsReading(whole: seq<byte>, rest: seq<byte>)
    requires Reads(whole, SLOTS, SLOTS, rest)
    ensures Found(whole, SLOTS).Some? && SplitFrom(whole, 0).Some? && SplitFrom(whole, 0).value.1 == rest
  {
    SplitToEnd(whole, 0);
  }

  /** SSL_SESSION_from_bytes */
  method FromBytes(cfg: Config, now: u64, data: seq<byte>) returns (ret: SslSession?)
    ensures var r := FromBytesSpec(cfg, now, data);
            if r.None? then ret == null
            else ret != null && fresh(ret) && ret.fields == r.value && !ret.notResumable
  {
    var cbs := new Cursor(data);
    ret := Parse(cfg, now, cbs);
    if ret != null && cbs.rest != [] {
      ret := null;
    }
  }
}
