/** Sending DTLS flights: fragmentation under an MTU, resumption after a failed write, retransmission. */
module FlightSender {
  import opened Wire
  import opened Aead
  import opened Reassembly
  import opened HandshakeReader
  import opened Delivery
  import opened Flight
  import RecordWriter

  type Writer = RecordWriter.Writer

  // ----- what goes out on the wire

  /** A sealed record together with what it carries and its bytes on the wire. */
  datatype Wired = Wired(piece: Piece, sealed: RecordWriter.Sealed, bytes: seq<byte>)

  ghost predicate Carries(w: Wired) {
    w.sealed.typ == PieceType(w.piece) && w.sealed.plaintext == PieceBytes(w.piece)
  }

  ghost function Pieces(ws: seq<Wired>): (s: seq<Piece>)
    ensures |s| == |ws|
  {
    seq(|ws|, i requires 0 <= i < |ws| => ws[i].piece)
  }

  ghost function Bytes(ws: seq<Wired>): seq<byte> {
    if ws == [] then [] else Bytes(ws[..|ws| - 1]) + ws[|ws| - 1].bytes
  }

  /** One more record has been sealed, with this type and payload. */
  ghost predicate Appends(before: seq<RecordWriter.Sealed>, after: seq<RecordWriter.Sealed>,
                          typ: byte, plaintext: seq<byte>)
  {
    && |after| == |before| + 1 && after[..|before|] == before
    && after[|before|].typ == typ && after[|before|].plaintext == plaintext
  }

  /** Each of these records carries its piece and was sealed by the writer. */
  ghost predicate Logged(wired: seq<Wired>, log: seq<RecordWriter.Sealed>) {
    forall w :: w in wired ==> Carries(w) && w.sealed in log
  }

  lemma LoggedGrows(wired: seq<Wired>, log: seq<RecordWriter.Sealed>, log': seq<RecordWriter.Sealed>)
    requires Logged(wired, log) && log <= log'
    ensures Logged(wired, log')
  {
  }

  /** The record just sealed, as a wired piece. */
  ghost function NewlyWired(log: seq<RecordWriter.Sealed>, piece: Piece, bytes: seq<byte>): Wired
    requires log != []
  {
    Wired(piece, log[|log| - 1], bytes)
  }

  lemma LoggedExtends(wired: seq<Wired>, log: seq<RecordWriter.Sealed>, log': seq<RecordWriter.Sealed>,
                      piece: Piece, bytes: seq<byte>)
    requires Logged(wired, log) && Appends(log, log', PieceType(piece), PieceBytes(piece))
    ensures log' != [] && Logged(wired + [NewlyWired(log', piece, bytes)], log')
  {
  }

  lemma NothingReached(flight: seq<Item>, a: Cursor)
    ensures Pieces([]) == [] && Reached(flight, a, []) == Some(a)
    ensures Bytes([]) == []
    ensures forall log :: Logged([], log)
  {
  }

  lemma WiredExtends(wired: seq<Wired>, w: Wired)
    ensures Pieces(wired + [w]) == Pieces(wired) + [w.piece]
    ensures Bytes(wired + [w]) == Bytes(wired) + w.bytes
  {
    assert (wired + [w])[..|wired|] == wired;
  }

  /** One more record in a packet, and then the rest of it. */
  lemma FollowsTwice(pieces: seq<Piece>, packet: seq<byte>, p: Piece, record: seq<byte>, f: Filled)
    ensures Following(pieces, packet, Following([p], record, f)) == Following(pieces + [p], packet + record, f)
    ensures Following([p], record, f.(pieces := [], packet := [])) == f.(pieces := [p], packet := record)
  {
    assert pieces + ([p] + f.pieces) == pieces + [p] + f.pieces;
    assert packet + (record + f.packet) == packet + record + f.packet;
    assert [p] + [] == [p] && record + [] == record;
  }

  lemma NothingBefore(f: Filled)
    ensures Following([], [], f) == f
  {
    assert [] + f.pieces == f.pieces && [] + f.packet == f.packet;
  }

  /** Filling a packet, by what sealing the next message does. */
  ghost function FillBy(k: Crypto, a: Attempt, out: seq<Outgoing>, c: Cursor, room: nat): Filled
    requires c.written < |out| && CursorOk(Items(out), Cursor(c.written + 1, 0)) && |a.record| <= room
  {
    match a.result
    case SealError => Filled(a.line, c, [], [], true)
    case SealNoProgress => Filled(a.line, c, [], [], false)
    case SealPartial =>
      Following([a.piece], a.record, Filled(a.line, AfterPiece(ItemOf(out[c.written]), c, a), [], [], false))
    case SealSuccess =>
      Following([a.piece], a.record, Fill(k, a.line, out, Cursor(c.written + 1, 0), room - |a.record|))
  }

  lemma FillStep(k: Crypto, l: Line, out: seq<Outgoing>, c: Cursor, room: nat)
    requires CursorOk(Items(out), c) && c.written < |out|
    ensures Fill(k, l, out, c, room) ==
            FillBy(k, SealNext(k, l, ItemOf(out[c.written]), out[c.written].epoch, c.offset, room), out, c, room)
  {
    hide SealNext, ItemOf, AfterPiece;
    var a := SealNext(k, l, ItemOf(out[c.written]), out[c.written].epoch, c.offset, room);
    assert [a.piece] + [] == [a.piece] && a.record + [] == a.record;
  }

  lemma FillEmpty(k: Crypto, l: Line, out: seq<Outgoing>, c: Cursor, room: nat)
    requires CursorOk(Items(out), c) && c.written == |out|
    ensures Fill(k, l, out, c, room) == Filled(l, c, [], [], false)
  {
  }

  lemma NothingFollows(pieces: seq<Piece>, packet: seq<byte>, line: Line, c: Cursor, failed: bool)
    ensures Following(pieces, packet, Filled(line, c, [], [], failed)) == Filled(line, c, pieces, packet, failed)
  {
    assert pieces + [] == pieces && packet + [] == packet;
  }

  ghost function Concat(packets: seq<seq<byte>>): seq<byte> {
    if packets == [] then [] else Concat(packets[..|packets| - 1]) + packets[|packets| - 1]
  }

  /** A handshake message of the flight is the one its number says was sent. */
  ghost predicate ItemWasSent(sent: seq<Sent>, m: Item) {
    m.MessageItem? ==> m.seqNo < |sent| && sent[m.seqNo] == Sent(m.typ, m.body)
  }

  ghost predicate HonestPieces(sent: seq<Sent>, pieces: seq<Piece>) {
    forall i :: 0 <= i < |pieces| && pieces[i].FragmentPiece? ==> Honest(sent, pieces[i].f)
  }

  lemma PiecesConcat(xs: seq<Wired>, ys: seq<Wired>)
    ensures Pieces(xs + ys) == Pieces(xs) + Pieces(ys)
  {
  }

  /** A packet the BIO accepted takes the pass on: to where the cursor now is, or still not so far. */
  lemma PassExtends(flight: seq<Item>, pass: seq<Wired>, a: Cursor, wired: seq<Wired>, intact: bool)
    requires CursorOk(flight, a) && Reached(flight, a, Pieces(wired)).Some? && Accounted(flight, pass, a, intact)
    ensures Accounted(flight, pass + wired, Reached(flight, a, Pieces(wired)).value, intact)
  {
    PiecesConcat(pass, wired);
    if intact {
      ReachedConcat(flight, FlightStart, Pieces(pass), Pieces(wired));
    } else {
      AllStayBehind(flight, Pieces(pass), a, Pieces(wired));
      StillNeverEnds(flight, Pieces(pass), a, Pieces(wired));
    }
  }

  /** Where the accepted pieces get to: the cursor, if no failed seal has moved it; short of it otherwise. */
  ghost predicate Accounted(flight: seq<Item>, pass: seq<Wired>, c: Cursor, intact: bool) {
    if intact then Reached(flight, FlightStart, Pieces(pass)) == Some(c)
    else Behind(flight, Pieces(pass), c) && NeverEnds(flight, Pieces(pass))
  }

  /** A failed seal that moves the cursor on leaves the pass behind. */
  lemma FailureSkips(flight: seq<Item>, pass: seq<Wired>, a: Cursor, b: Cursor, intact: bool)
    requires CursorOk(flight, b) && Accounted(flight, pass, a, intact) && (a == b || Before(a, b))
    ensures Accounted(flight, pass, b, intact && a == b)
  {
    if intact && a != b {
      ShortNeverEnds(flight, Pieces(pass));
    }
  }

  lemma AccountedOnLonger(flight: seq<Item>, pass: seq<Wired>, c: Cursor, intact: bool, m: Item)
    requires Accounted(flight, pass, c, intact)
    ensures Accounted(flight + [m], pass, c, intact)
  {
    if intact {
      ReachedOnLonger(flight, FlightStart, Pieces(pass), m);
    } else {
      NeverEndsOnLonger(flight, Pieces(pass), m);
    }
  }

  lemma MoveIsHonest(sent: seq<Sent>, flight: seq<Item>, a: Cursor, p: Piece)
    requires forall i :: 0 <= i < |flight| ==> ItemWasSent(sent, flight[i])
    requires Move(flight, a, p).Some? && p.FragmentPiece?
    ensures Honest(sent, p.f)
  {
  }

  /** Whatever a pass sends is an honest piece of what was queued. */
  lemma {:induction false} ReachedIsHonest(sent: seq<Sent>, flight: seq<Item>, a: Cursor, pieces: seq<Piece>)
    requires forall i :: 0 <= i < |flight| ==> ItemWasSent(sent, flight[i])
    requires Reached(flight, a, pieces).Some?
    ensures HonestPieces(sent, pieces)
  {
    hide Move, Honest, ItemWasSent;
    if pieces != [] {
      var front, p := pieces[..|pieces| - 1], pieces[|pieces| - 1];
      ReachedIsHonest(sent, flight, a, front);
      if p.FragmentPiece? {
        MoveIsHonest(sent, flight, Reached(flight, a, front).value, p);
      }
      assert forall i :: 0 <= i < |front| ==> pieces[i] == front[i];
    }
  }

  lemma HonestPiecesExtend(sent: seq<Sent>, xs: seq<Wired>, ys: seq<Wired>)
    requires HonestPieces(sent, Pieces(xs)) && HonestPieces(sent, Pieces(ys))
    ensures HonestPieces(sent, Pieces(xs + ys))
  {
    PiecesConcat(xs, ys);
  }

  lemma LoggedConcat(xs: seq<Wired>, ys: seq<Wired>, log: seq<RecordWriter.Sealed>)
    requires Logged(xs, log) && Logged(ys, log)
    ensures Logged(xs + ys, log)
  {
  }

  lemma NothingSent(pass: seq<Wired>, accepted: seq<seq<byte>>)
    ensures Bytes(pass[|pass|..]) == Concat(accepted[|accepted|..])
  {
  }

  lemma {:induction false} BytesConcat(xs: seq<Wired>, ys: seq<Wired>)
    ensures Bytes(xs + ys) == Bytes(xs) + Bytes(ys)
  {
    if ys == [] {
      assert xs + ys == xs;
    } else {
      var front := ys[..|ys| - 1];
      BytesConcat(xs, front);
      assert (xs + ys)[..|xs + ys| - 1] == xs + front;
    }
  }

  lemma SentExtends(pass: seq<Wired>, accepted: seq<seq<byte>>, m: nat, n: nat, wired: seq<Wired>, packet: seq<byte>)
    requires m <= |pass| && n <= |accepted| && packet == Bytes(wired)
    requires Bytes(pass[m..]) == Concat(accepted[n..])
    ensures Bytes((pass + wired)[m..]) == Concat((accepted + [packet])[n..])
  {
    assert (pass + wired)[m..] == pass[m..] + wired;
    BytesConcat(pass[m..], wired);
    var grown := (accepted + [packet])[n..];
    assert grown == accepted[n..] + [packet] && grown[..|grown| - 1] == accepted[n..];
  }

  /** data is the serialization of this message as one fragment. */
  ghost predicate QueuedForm(data: seq<byte>, typ: byte, body: seq<byte>, seqNo: nat) {
    |body| < 0x100_0000 && data == SerializeFragment(Fragment(typ, |body|, seqNo, 0, body))
  }

  lemma QueuedIsWhole(o: Outgoing, typ: byte, body: seq<byte>, seqNo: nat)
    requires !o.isCcs && seqNo < 0x10000 && QueuedForm(o.data, typ, body, seqNo)
    ensures WholeMessage(o) && ItemOf(o) == MessageItem(typ, seqNo, body)
  {
    var f := Fragment(typ, |body|, seqNo, 0, body);
    ParseSerialized(f, []);
    assert SerializeFragment(f) + [] == o.data;
  }

  lemma CcsIsWhole(o: Outgoing)
    ensures o.isCcs ==> WholeMessage(o) && ItemOf(o) == CcsItem
  {
  }

  lemma QueuedFormUnique(data: seq<byte>, typ: byte, body: seq<byte>, typ': byte, body': seq<byte>, seqNo: nat)
    requires seqNo < 0x10000 && QueuedForm(data, typ, body, seqNo) && QueuedForm(data, typ', body', seqNo)
    ensures typ == typ' && body == body'
  {
    var o := Outgoing(data, 0, false);
    QueuedIsWhole(o, typ, body, seqNo);
    QueuedIsWhole(o, typ', body', seqNo);
  }

  /** Sending one more message leaves what was sent and emitted before honest. */
  lemma SentGrows(sent: seq<Sent>, m: Sent, items: seq<Item>, pieces: seq<Piece>)
    ensures (forall i :: 0 <= i < |items| ==> ItemWasSent(sent, items[i])) ==>
              forall i :: 0 <= i < |items| ==> ItemWasSent(sent + [m], items[i])
    ensures HonestPieces(sent, pieces) ==> HonestPieces(sent + [m], pieces)
    ensures Sendable(sent + [m]) ==> Sendable(sent)
    ensures Sendable(sent) && |sent| + 1 < 0x10000 && |m.body| < 0x100_0000 ==> Sendable(sent + [m])
    ensures ItemWasSent(sent + [m], MessageItem(m.typ, |sent|, m.body))
  {
    forall i | 0 <= i < |items| && ItemWasSent(sent, items[i])
      ensures ItemWasSent(sent + [m], items[i])
    {
    }
    forall i | 0 <= i < |pieces| && pieces[i].FragmentPiece? && Honest(sent, pieces[i].f)
      ensures Honest(sent + [m], pieces[i].f)
    {
    }
    assert forall i :: 0 <= i < |sent| ==> (sent + [m])[i] == sent[i];
  }

  ghost predicate AllEmitted(emitted: seq<Piece>, frags: seq<Fragment>) {
    forall j :: 0 <= j < |frags| ==> FragmentPiece(frags[j]) in emitted
  }

  /** Every fragment that arrives in the run was emitted; any number of times, in any order, some never. */
  ghost predicate EmittedRun(emitted: seq<Piece>, run: seq<Event>) {
    forall i :: 0 <= i < |run| && run[i].Arrive? ==> AllEmitted(emitted, run[i].frags)
  }

  lemma EmittedIsHonest(sent: seq<Sent>, emitted: seq<Piece>, frags: seq<Fragment>)
    requires HonestPieces(sent, emitted) && AllEmitted(emitted, frags)
    ensures AllHonest(sent, frags)
  {
  }

  /** End to end: from whatever the sender got out, the receiver takes a prefix of what it queued. */
  lemma EmittedIsDelivered(sent: seq<Sent>, emitted: seq<Piece>, run: seq<Event>)
    requires Sendable(sent) && HonestPieces(sent, emitted) && EmittedRun(emitted, run)
    ensures DeliveredPrefix(sent, After(run))
  {
    hide AllEmitted, HonestPieces, AllHonest;
    forall i | 0 <= i < |run| && run[i].Arrive?
      ensures AllHonest(sent, run[i].frags)
    {
      EmittedIsHonest(sent, emitted, run[i].frags);
    }
    DeliversPrefixOfSent(sent, run);
  }

  /** Datagrams out: each write takes a whole packet or refuses it, as outcomes says. */
  class Bio {
    var outcomes: seq<int>
    var accepted: seq<seq<byte>>

    method Write(packet: seq<byte>) returns (ret: int)
      modifies this
      ensures ret == if old(outcomes) == [] then -1 else old(outcomes)[0]
      ensures outcomes == if old(outcomes) == [] then [] else old(outcomes)[1..]
      ensures accepted == if ret > 0 then old(accepted) + [packet] else old(accepted)
    {
      if outcomes == [] {
        return -1;
      }
      ret, outcomes := outcomes[0], outcomes[1..];
      if ret > 0 {
        accepted := accepted + [packet];
      }
    }

    method Flush() returns (ok: bool)
      modifies this
      ensures ok == (old(outcomes) != [] && old(outcomes)[0] > 0)
      ensures outcomes == if old(outcomes) == [] then [] else old(outcomes)[1..]
      ensures accepted == old(accepted)
    {
      if outcomes == [] {
        return false;
      }
      ok, outcomes := outcomes[0] > 0, outcomes[1..];
    }
  }

  /** r, after pieces and packets of the same call that were accepted before. */
  function SentBefore(pieces: seq<Piece>, packets: seq<seq<byte>>, r: Sending): Sending {
    r.(pieces := pieces + r.pieces, packets := packets + r.packets)
  }

  lemma NoneSentYet(r: Sending)
    ensures SentBefore([], [], r) == r
  {
    assert [] + r.pieces == r.pieces && [] + r.packets == r.packets;
  }

  lemma NothingAfter(pieces: seq<Piece>, packets: seq<seq<byte>>, line: Line, c: Cursor, outcomes: seq<int>, ret: int,
                     skipped: bool)
    ensures SentBefore(pieces, packets, Sending(line, c, [], [], outcomes, ret, skipped))
         == Sending(line, c, pieces, packets, outcomes, ret, skipped)
  {
    assert pieces + [] == pieces && packets + [] == packets;
  }

  /** Sending, by what becomes of the next packet. */
  lemma SendStep(k: Crypto, l: Line, out: seq<Outgoing>, c: Cursor, mtu: nat, outcomes: seq<int>)
    requires CursorOk(Items(out), c) && c.written < |out|
    ensures var f := Fill(k, l, out, c, mtu);
            && CursorOk(Items(out), f.cursor)
            && Send(k, l, out, c, mtu, outcomes) ==
               if f.failed || f.pieces == [] then Sending(f.line, f.cursor, [], [], outcomes, -1, f.cursor != c)
               else if outcomes == [] then Sending(f.line, c, [], [], [], -1, false)
               else if outcomes[0] <= 0 then Sending(f.line, c, [], [], outcomes[1..], outcomes[0], false)
               else SentBefore(f.pieces, [f.packet], Send(k, f.line, out, f.cursor, mtu, outcomes[1..]))
  {
    FillMoves(k, l, out, c, mtu);
    hide Fill, CursorOk;
  }

  lemma SendEnd(k: Crypto, l: Line, out: seq<Outgoing>, c: Cursor, mtu: nat, outcomes: seq<int>)
    requires CursorOk(Items(out), c) && c.written == |out|
    ensures Send(k, l, out, c, mtu, outcomes) ==
            if outcomes == [] then Sending(l, c, [], [], [], -1, false)
            else Sending(l, c, [], [], outcomes[1..], if outcomes[0] > 0 then 1 else -1, false)
  {
  }

  lemma SentTwice(pieces: seq<Piece>, packets: seq<seq<byte>>, f: Filled, r: Sending)
    ensures SentBefore(pieces, packets, SentBefore(f.pieces, [f.packet], r))
         == SentBefore(pieces + f.pieces, packets + [f.packet], r)
  {
    assert pieces + (f.pieces + r.pieces) == pieces + f.pieces + r.pieces;
    assert packets + ([f.packet] + r.packets) == packets + [f.packet] + r.packets;
  }

  /** A BIO that takes at least so many packets and then the flush. */
  predicate Accepting(outcomes: seq<int>, packets: nat) {
    |outcomes| > packets && forall i :: 0 <= i < |outcomes| ==> outcomes[i] > 0
  }

  class Sender {
    const writer: Writer
    const crypto: Crypto
    var outgoing: seq<Outgoing>
    var written: nat
    var offset: nat
    var complete: bool
    var handshakeWriteSeq: nat
    var drawn: nat
    /** Every handshake message queued so far, in order. */
    ghost var sent: seq<Sent>
    /** The records the BIO has accepted since the last rewind, and ever. */
    ghost var pass: seq<Wired>
    ghost var emitted: seq<Wired>
    /** No failed seal has moved the cursor since the last rewind. */
    ghost var intact: bool

    constructor (writer: Writer, crypto: Crypto)
      requires writer.Valid() && Usable(crypto)
      ensures Valid() && this.writer == writer && this.crypto == crypto
      ensures outgoing == [] && Position() == FlightStart && !complete
      ensures Consistent() && sent == [] && pass == [] && emitted == [] && intact
    {
      sent, pass, emitted, intact := [], [], [], true;
      this.writer, this.crypto := writer, crypto;
      outgoing, written, offset, complete, handshakeWriteSeq, drawn := [], 0, 0, false, 0, 0;
    }

    ghost predicate Valid()
      reads this, writer, writer.writeSequence, writer.lastWriteSequence
    {
      && writer.Valid()
      && Usable(crypto)
      && |outgoing| <= MAX_FLIGHT
      && (forall i :: 0 <= i < |outgoing| ==> WholeMessage(outgoing[i]))
      && handshakeWriteSeq < 0x10000
      && CursorOk(Items(outgoing), Position())
    }

    function Position(): Cursor
      reads this
    {
      Cursor(written, offset)
    }

    /** What sealing depends on and changes. */
    ghost function State(): Line
      requires Valid()
      reads this, writer, writer.writeSequence, writer.lastWriteSequence
    {
      Line(writer.State(), drawn)
    }

    /** Seals one record under the current or previous epoch. */
    method SealRecord(maxOut: nat, typ: byte, plaintext: seq<byte>, previous: bool)
      returns (ok: bool, record: seq<byte>)
      requires Valid() && (previous ==> writer.epoch >= 1)
      modifies this`drawn, writer`log, writer.writeSequence, writer.lastWriteSequence
      ensures Valid() && writer.epoch == old(writer.epoch)
      ensures old(writer.log) <= writer.log
      ensures (State(), if ok then Some(record) else None)
           == SealOn(crypto, old(State()), previous, maxOut, typ, plaintext)
      ensures ok ==> Appends(old(writer.log), writer.log, typ, plaintext)
      ensures !ok ==> record == []
    {
      hide BigEndian;
      hide RecordWriter.SealBody, Context.Nonce, WholeMessage, Items, RecordWriter.LengthsAgree;
      var entropy := crypto.random(drawn, writer.UsedContext(previous).variableNonceLen);
      drawn := drawn + 1;
      ok, record := writer.SealRecord(maxOut, typ, plaintext, previous, entropy, crypto.encrypt);
      if !ok {
        record := [];
      }
    }

    /** Seals as much as fits of the next message. */
    method SealNextMessage(maxOut: nat) returns (result: SealResult, ghost piece: Piece, record: seq<byte>)
      requires Valid() && written < |outgoing|
      modifies this`offset, this`drawn, writer`log, writer.writeSequence, writer.lastWriteSequence
      ensures Valid() && writer.epoch == old(writer.epoch)
      ensures old(writer.log) <= writer.log
      ensures var m, epoch := ItemOf(outgoing[written]), outgoing[written].epoch;
              var a := SealNext(crypto, old(State()), m, epoch, old(offset), maxOut);
              && result == a.result && record == a.record && State() == a.line
              && (result in {SealPartial, SealSuccess} ==> piece == a.piece)
              && Position() == if result == SealPartial then AfterPiece(m, old(Position()), a)
                               else if result == SealSuccess then Cursor(written, 0)
                               else old(Position())
      ensures result in {SealPartial, SealSuccess} ==>
                Appends(old(writer.log), writer.log, PieceType(piece), PieceBytes(piece))
    {
      hide ParseFragment, Appends, RecordWriter.LengthsAgree, SerializeFragment, SealOn, RecordWriter.Writer.Valid;
      hide SealNext, Usable;
      record, piece := [], CcsPiece;
      var msg := outgoing[written];
      assert WholeMessage(msg) && Items(outgoing)[written] == ItemOf(msg);
      ghost var m, line := ItemOf(msg), State();
      SealNextStops(crypto, line, m, msg.epoch, offset, maxOut);
      var previous := false;
      if writer.epoch >= 1 && msg.epoch == writer.epoch - 1 {
        previous := true;
      } else if msg.epoch != writer.epoch {
        return SealError, piece, record;
      }
      var ctx := writer.UsedContext(previous);
      var overhead := RecordWriter.RT_HEADER_LENGTH + ctx.MaxOverhead();
      var prefix := RecordWriter.RT_HEADER_LENGTH + ctx.ExplicitNonceLen();
      var ok;
      if msg.isCcs {
        if maxOut < 1 + overhead {
          return SealNoProgress, piece, record;
        }
        SealNextCcs(crypto, line, m, msg.epoch, offset, maxOut, previous);
        ok, record := SealRecord(maxOut, RT_CHANGE_CIPHER_SPEC, [MT_CCS], previous);
        if !ok {
          return SealError, piece, record;
        }
        return SealSuccess, piece, record;
      }
      var whole := ParseFragment(msg.data).value.0;
      if maxOut < HM_HEADER_LENGTH + 1 + overhead || maxOut < prefix {
        return SealNoProgress, piece, record;
      }
      var todo := |whole.body| - offset;
      if todo > maxOut - HM_HEADER_LENGTH - overhead {
        todo := maxOut - HM_HEADER_LENGTH - overhead;
      }
      var f := Fragment(whole.typ, whole.msgLen, whole.seqNo, offset, whole.body[offset..offset + todo]);
      piece := FragmentPiece(f);
      SealNextFragment(crypto, line, m, msg.epoch, offset, maxOut, previous, todo);
      ok, record := SealRecord(maxOut, RT_HANDSHAKE, SerializeFragment(f), previous);
      if !ok {
        return SealError, piece, record;
      }
      if todo == |whole.body| - offset {
        offset := 0;
        return SealSuccess, piece, record;
      }
      offset := offset + todo;
      return SealPartial, piece, record;
    }

    /** Packs as much of the flight as fits into one packet; wired lists its records. */
    method SealNextPacket(maxOut: nat) returns (ok: bool, packet: seq<byte>, ghost wired: seq<Wired>)
      requires Valid() && written < |outgoing|
      modifies this`written, this`offset, this`drawn, writer`log, writer.writeSequence, writer.lastWriteSequence
      ensures Valid() && writer.epoch == old(writer.epoch)
      ensures old(writer.log) <= writer.log
      ensures var f := Fill(crypto, old(State()), outgoing, old(Position()), maxOut);
              && ok == (!f.failed && f.pieces != []) && packet == f.packet && Pieces(wired) == f.pieces
              && State() == f.line && Position() == f.cursor
      ensures Logged(wired, writer.log) && packet == Bytes(wired)
    {
      hide Fill, SealNext, Move, HmFragment.Content, Appends, Reached, SlotOk, RecordWriter.LengthsAgree, AfterPiece;
      hide ItemOf, WholeMessage, Items, MessageHeader, NoStrayBits, ToBigEndian, BigEndian, Following, HasAll;
      hide Footprint, Pieces, Logged, PieceType, Bytes, Usable;
      hide RecordWriter.Writer.Valid;
      NothingReached(Items(outgoing), Position());
      packet, wired := [], [];
      var room: nat, madeProgress := maxOut, false;
      ghost var whole := Fill(crypto, State(), outgoing, Position(), maxOut);
      ghost var rest := whole;
      NothingBefore(whole);
      while written < |outgoing|
        invariant Valid() && writer.epoch == old(writer.epoch)
        invariant old(writer.log) <= writer.log
        invariant Logged(wired, writer.log)
        invariant packet == Bytes(wired) && |packet| + room == maxOut
        invariant rest == Fill(crypto, State(), outgoing, Position(), room)
        invariant whole == Following(Pieces(wired), packet, rest)
        invariant madeProgress == (wired != [])
        decreases |outgoing| - written
      {
        ghost var log, was, front := writer.log, Pieces(wired), packet;
        FillStep(crypto, State(), outgoing, Position(), room);
        var result, piece, record := SealNextMessage(room);
        if result == SealError {
          LoggedGrows(wired, log, writer.log);
          NothingFollows(was, packet, State(), Position(), true);
          return false, packet, wired;
        }
        if result == SealNoProgress {
          LoggedGrows(wired, log, writer.log);
          rest := Filled(State(), Position(), [], [], false);
          break;
        }
        LoggedExtends(wired, log, writer.log, piece, record);
        ghost var w := NewlyWired(writer.log, piece, record);
        WiredExtends(wired, w);
        packet, room, madeProgress := packet + record, room - |record|, true;
        wired := wired + [w];
        if result == SealPartial {
          rest := Filled(State(), Position(), [], [], false);
          FollowsTwice(was, front, piece, record, rest);
          break;
        }
        written := written + 1;
        rest := Fill(crypto, State(), outgoing, Position(), room);
        FollowsTwice(was, front, piece, record, rest);
      }
      if written == |outgoing| {
        FillEmpty(crypto, State(), outgoing, Position(), room);
      }
      NothingFollows(Pieces(wired), packet, State(), Position(), false);
      assert |Pieces(wired)| == |wired|;
      return madeProgress, packet, wired;
    }

    // ----- the flight and the BIO

    /** The accepted pieces get to the cursor if no failed seal has moved it, and short of it otherwise. */
    ghost predicate CursorKnown()
      reads this
    {
      Accounted(Items(outgoing), pass, Position(), intact)
    }

    /** Queued messages carry the numbers under which they were recorded as sent. */
    ghost predicate Numbered()
      reads this
    {
      && handshakeWriteSeq == |sent| % 0x10000
      && (|sent| < 0x10000 ==>
            Sendable(sent) && forall i :: 0 <= i < |outgoing| ==> ItemWasSent(sent, Items(outgoing)[i]))
    }

    ghost predicate Consistent()
      reads this, writer, writer.writeSequence, writer.lastWriteSequence
    {
      && Valid() && CursorKnown() && Numbered()
      && (|sent| < 0x10000 ==> HonestPieces(sent, Pieces(emitted)))
      && Logged(emitted, writer.log)
    }

    /** Sends one packet; a packet the BIO refuses is taken back. */
    method SendPacket(bio: Bio, mtu: nat) returns (ret: int, refused: bool, packet: seq<byte>, ghost wired: seq<Wired>)
      requires Consistent() && written < |outgoing|
      modifies this`written, this`offset, this`drawn, this`pass, this`emitted, this`intact
      modifies bio, writer`log, writer.writeSequence, writer.lastWriteSequence
      ensures Consistent()
      ensures var f := Fill(crypto, old(State()), outgoing, old(Position()), mtu);
              && State() == f.line && packet == f.packet == Bytes(wired) && Pieces(wired) == f.pieces
              && if f.failed || f.pieces == [] then
                   && ret == -1 && !refused && Position() == f.cursor
                   && bio.outcomes == old(bio.outcomes) && intact == (old(intact) && f.cursor == old(Position()))
                 else
                   && ret == (if old(bio.outcomes) == [] then -1 else old(bio.outcomes)[0]) && refused == (ret <= 0)
                   && bio.outcomes == (if old(bio.outcomes) == [] then [] else old(bio.outcomes)[1..])
                   && Position() == (if ret > 0 then f.cursor else old(Position())) && intact == old(intact)
      ensures if ret > 0 then
                && pass == old(pass) + wired && emitted == old(emitted) + wired
                && bio.accepted == old(bio.accepted) + [packet]
              else pass == old(pass) && emitted == old(emitted) && bio.accepted == old(bio.accepted)
    {
      hide WholeMessage, RecordWriter.LengthsAgree, RecordWriter.Writer.Valid, Reached, Items, Honest, Logged;
      hide Sendable, ItemWasSent, Move, Fill, Usable, Accounted, HonestPieces, CursorOk;
      ghost var flight, start, log := Items(outgoing), Position(), writer.log;
      FillMoves(crypto, State(), outgoing, Position(), mtu);
      var oldWritten, oldOffset := written, offset;
      var ok;
      ok, packet, wired := SealNextPacket(mtu);
      LoggedGrows(emitted, log, writer.log);
      if !ok {
        FailureSkips(flight, pass, start, Position(), intact);
        intact := intact && Position() == start;
        return -1, false, packet, wired;
      }
      ret := bio.Write(packet);
      if ret <= 0 {
        written, offset := oldWritten, oldOffset;
        return ret, true, packet, wired;
      }
      TakeOn(start, wired);
      return ret, false, packet, wired;
    }

    /** The BIO has accepted these records, which took the cursor on from start. */
    ghost method TakeOn(start: Cursor, wired: seq<Wired>)
      requires Valid() && Numbered() && (|sent| < 0x10000 ==> HonestPieces(sent, Pieces(emitted)))
      requires Logged(emitted, writer.log) && Logged(wired, writer.log)
      requires CursorOk(Items(outgoing), start) && Accounted(Items(outgoing), pass, start, intact)
      requires Reached(Items(outgoing), start, Pieces(wired)) == Some(Position())
      modifies this`pass, this`emitted
      ensures Consistent() && pass == old(pass) + wired && emitted == old(emitted) + wired
    {
      hide WholeMessage, RecordWriter.LengthsAgree, RecordWriter.Writer.Valid, Reached, Items, Honest, Logged;
      hide Sendable, Move, Usable, Accounted;
      PassExtends(Items(outgoing), pass, start, wired, intact);
      if |sent| < 0x10000 {
        ReachedIsHonest(sent, Items(outgoing), start, Pieces(wired));
        HonestPiecesExtend(sent, emitted, wired);
      }
      LoggedConcat(emitted, wired, writer.log);
      pass, emitted := pass + wired, emitted + wired;
    }

    /** Sends the rest of the flight, packet by packet. */
    method SendFlight(bio: Bio, mtu: nat, shutdown: bool) returns (ret: int)
      requires Consistent()
      modifies this`written, this`offset, this`drawn, this`pass, this`emitted, this`intact
      modifies bio, writer`log, writer.writeSequence, writer.lastWriteSequence
      ensures Consistent()
      ensures shutdown ==> ret == -1 && State() == old(State()) && Position() == old(Position())
                           && pass == old(pass) && intact == old(intact) && bio.accepted == old(bio.accepted)
      ensures !shutdown ==>
                var r := Send(crypto, old(State()), outgoing, old(Position()), mtu, old(bio.outcomes));
                && ret == r.ret && State() == r.line && Position() == r.cursor && bio.outcomes == r.outcomes
                && bio.accepted == old(bio.accepted) + r.packets && Pieces(pass) == old(Pieces(pass)) + r.pieces
                && intact == (old(intact) && !r.skipped)
      ensures old(pass) <= pass && old(bio.accepted) <= bio.accepted
      ensures Bytes(pass[|old(pass)|..]) == Concat(bio.accepted[|old(bio.accepted)|..])
      ensures forall i :: |old(bio.accepted)| <= i < |bio.accepted| ==> |bio.accepted[i]| <= mtu
    {
      hide Reader.Valid, RecordWriter.Writer.Valid, BigEndian;
      hide Sender.Consistent, Sender.Valid, Bytes, Concat, Items, Before, Fill, Pieces, Send, SentBefore, CursorOk;
      hide Left;
      NothingSent(pass, bio.accepted);
      CursorIsOk();
      if shutdown {
        return -1;
      }
      ghost var packets, records := bio.accepted, pass;
      ghost var whole := Send(crypto, State(), outgoing, Position(), mtu, bio.outcomes);
      ghost var done := [];
      ghost var taken: seq<seq<byte>> := [];
      NoneSentYet(whole);
      while written < |outgoing|
        invariant Consistent() && Valid() && intact == old(intact)
        invariant records <= pass && packets <= bio.accepted
        invariant Bytes(pass[|records|..]) == Concat(bio.accepted[|packets|..])
        invariant Pieces(pass) == Pieces(records) + done && bio.accepted == packets + taken
        invariant forall i :: |packets| <= i < |bio.accepted| ==> |bio.accepted[i]| <= mtu
        invariant CursorOk(Items(outgoing), Position()) && written <= |outgoing|
        invariant whole == SentBefore(done, taken, Send(crypto, State(), outgoing, Position(), mtu, bio.outcomes))
        decreases |outgoing| - written, Left(Items(outgoing), Position())
      {
        ghost var before, was, a := pass, bio.accepted, Position();
        FillMoves(crypto, State(), outgoing, Position(), mtu);
        SendStep(crypto, State(), outgoing, Position(), mtu, bio.outcomes);
        ghost var f := Fill(crypto, State(), outgoing, Position(), mtu);
        var r, refused, packet, wired := SendPacket(bio, mtu);
        CursorIsOk();
        if r <= 0 {
          NothingAfter(done, taken, State(), Position(), bio.outcomes, if refused then r else -1,
                       !refused && Position() != a);
          return if refused then r else -1;
        }
        SentExtends(before, was, |records|, |packets|, wired, packet);
        PiecesConcat(before, wired);
        SentTwice(done, taken, f, Send(crypto, State(), outgoing, Position(), mtu, bio.outcomes));
        done, taken := done + f.pieces, taken + [packet];
        LeftDecreases(Items(outgoing), a, Position());
      }
      SendEnd(crypto, State(), outgoing, Position(), mtu, bio.outcomes);
      var flushed := bio.Flush();
      NothingAfter(done, taken, State(), Position(), bio.outcomes, if flushed then 1 else -1, false);
      return if flushed then 1 else -1;
    }

    lemma CursorIsOk()
      requires Consistent()
      ensures Valid() && CursorOk(Items(outgoing), Position()) && written <= |outgoing| && handshakeWriteSeq < 0x10000
    {
    }

    /** At the end of the flight, the pass is a partition of it exactly if no failed seal has moved the cursor. */
    lemma PartitionIffIntact()
      requires Consistent() && written == |outgoing|
      ensures Reached(Items(outgoing), FlightStart, Pieces(pass)) == Some(Cursor(|outgoing|, 0)) <==> intact
    {
      hide RecordWriter.Writer.Valid, RecordWriter.LengthsAgree, WholeMessage, HonestPieces, Logged, ItemOf, Move;
    }

    /** First transmission of a flight, or the rest of it after a refused write. */
    method FlushFlight(bio: Bio, mtu: nat, shutdown: bool) returns (ret: int)
      requires Consistent()
      modifies this`written, this`offset, this`drawn, this`pass, this`emitted, this`intact, this`complete
      modifies bio, writer`log, writer.writeSequence, writer.lastWriteSequence
      ensures Consistent() && complete && (shutdown ==> ret == -1)
      ensures !shutdown ==>
                var r := Send(crypto, old(State()), outgoing, old(Position()), mtu, old(bio.outcomes));
                && ret == r.ret && State() == r.line && Position() == r.cursor && bio.outcomes == r.outcomes
                && bio.accepted == old(bio.accepted) + r.packets && Pieces(pass) == old(Pieces(pass)) + r.pieces
                && intact == (old(intact) && !r.skipped)
      ensures ret == 1 ==>
                (Reached(Items(outgoing), FlightStart, Pieces(pass)) == Some(Cursor(|outgoing|, 0)) <==> intact)
      ensures (!shutdown && Ready(crypto, old(State()), outgoing, old(Position()), mtu)
               && Accepting(old(bio.outcomes), Work(outgoing, old(Position())))) ==> ret == 1
    {
      hide Sender.Consistent, Reached, Fill, Ready, Work, Pieces;
      CursorIsOk();
      MarkComplete();
      ghost var line, c, outcomes := State(), Position(), bio.outcomes;
      ret := SendFlight(bio, mtu, shutdown);
      if !shutdown {
        SendMoves(crypto, line, outgoing, c, mtu, outcomes);
        if Ready(crypto, line, outgoing, c, mtu) && Accepting(outcomes, Work(outgoing, c)) {
          SendSucceeds(crypto, line, outgoing, c, mtu, outcomes);
        }
        if ret == 1 {
          PartitionIffIntact();
        }
      }
    }

    method MarkComplete()
      requires Consistent()
      modifies this`complete
      ensures Consistent() && complete && State() == old(State())
    {
      complete := true;
    }

    /** Sends the whole flight again from its start. */
    method RetransmitOutgoingMessages(bio: Bio, mtu: nat, shutdown: bool) returns (ret: int)
      requires Consistent()
      modifies this`written, this`offset, this`drawn, this`pass, this`emitted, this`intact
      modifies bio, writer`log, writer.writeSequence, writer.lastWriteSequence
      ensures Consistent() && (shutdown ==> ret == -1)
      ensures !shutdown ==>
                var r := Send(crypto, old(State()), outgoing, FlightStart, mtu, old(bio.outcomes));
                && ret == r.ret && State() == r.line && Position() == r.cursor && bio.outcomes == r.outcomes
                && bio.accepted == old(bio.accepted) + r.packets && Pieces(pass) == r.pieces && intact == !r.skipped
      ensures ret == 1 ==> Reached(Items(outgoing), FlightStart, Pieces(pass)) == Some(Cursor(|outgoing|, 0))
      ensures old(bio.accepted) <= bio.accepted
      ensures Bytes(pass) == Concat(bio.accepted[|old(bio.accepted)|..])
      ensures (!shutdown && Ready(crypto, old(State()), outgoing, FlightStart, mtu)
               && Accepting(old(bio.outcomes), Work(outgoing, FlightStart))) ==> ret == 1
    {
      hide Sender.Consistent, Reached, Fill, Ready, Work, Bytes, Concat;
      Rewind();
      CursorIsOk();
      ghost var line, outcomes := State(), bio.outcomes;
      ret := SendFlight(bio, mtu, shutdown);
      assert pass[0..] == pass && [] + Send(crypto, line, outgoing, FlightStart, mtu, outcomes).pieces
                                  == Send(crypto, line, outgoing, FlightStart, mtu, outcomes).pieces;
      if !shutdown {
        SendMoves(crypto, line, outgoing, FlightStart, mtu, outcomes);
        if Ready(crypto, line, outgoing, FlightStart, mtu) && Accepting(outcomes, Work(outgoing, FlightStart)) {
          SendSucceeds(crypto, line, outgoing, FlightStart, mtu, outcomes);
        }
      }
      if ret == 1 {
        PartitionIffIntact();
      }
    }

    method Rewind()
      requires Consistent()
      modifies this`written, this`offset, this`pass, this`intact
      ensures Consistent() && State() == old(State()) && Position() == FlightStart && pass == [] && intact
    {
      hide RecordWriter.Writer.Valid, RecordWriter.LengthsAgree, WholeMessage, HonestPieces, Logged, ItemOf, Move;
      hide ItemWasSent, Sendable;
      written, offset := 0, 0;
      pass, intact := [], true;
    }

    method ClearOutgoing()
      requires Consistent()
      modifies this`outgoing, this`written, this`offset, this`complete, this`pass, this`intact
      ensures Consistent() && outgoing == [] && Position() == FlightStart && !complete && pass == [] && intact
    {
      hide RecordWriter.Writer.Valid, RecordWriter.LengthsAgree, WholeMessage, HonestPieces, Logged, ItemOf, Move;
      hide ItemWasSent, Sendable;
      outgoing, written, offset, complete := [], 0, 0, false;
      pass, intact := [], true;
      assert Items([]) == [] && Pieces([]) == [];
    }

    /** Queues a message or ChangeCipherSpec; the first after a finished flight starts a new one. */
    method AddOutgoing(isCcs: bool, data: seq<byte>) returns (ok: bool)
      requires Consistent()
      requires !isCcs ==> exists typ, body: seq<byte> :: QueuedForm(data, typ, body, handshakeWriteSeq)
      modifies this
      ensures Consistent() && complete == (if old(complete) then false else complete)
      ensures var kept := if old(complete) then [] else old(outgoing);
              && ok == (|kept| < MAX_FLIGHT)
              && outgoing == if ok then kept + [Outgoing(data, writer.epoch, isCcs)] else kept
      ensures old(complete) ==> Position() == FlightStart && pass == [] && intact && !complete
      ensures !old(complete) ==> Position() == old(Position()) && pass == old(pass) && intact == old(intact)
      ensures emitted == old(emitted)
      ensures ok && !isCcs ==>
                && |sent| == |old(sent)| + 1 && sent[..|old(sent)|] == old(sent)
                && QueuedForm(data, sent[|old(sent)|].typ, sent[|old(sent)|].body, old(handshakeWriteSeq))
      ensures !ok || isCcs ==> sent == old(sent)
    {
      hide Sender.Consistent, WholeMessage, ItemOf, SerializeFragment;
      if complete {
        ClearOutgoing();
      }
      if |outgoing| >= MAX_FLIGHT {
        return false;
      }
      var o := Outgoing(data, writer.epoch, isCcs);
      CcsIsWhole(o);
      CursorIsOk();
      if isCcs {
        Append(o);
      } else {
        ghost var typ, body: seq<byte> :| QueuedForm(data, typ, body, handshakeWriteSeq);
        QueuedIsWhole(o, typ, body, handshakeWriteSeq);
        Append(o);
      }
      return true;
    }

    /** Puts o at the end of the flight; a handshake message takes the next number. */
    method Append(o: Outgoing)
      requires Consistent() && |outgoing| < MAX_FLIGHT && WholeMessage(o)
      requires if o.isCcs then ItemOf(o) == CcsItem
               else ItemOf(o).MessageItem? && ItemOf(o).seqNo == handshakeWriteSeq && |ItemOf(o).body| < 0x100_0000
      modifies this`outgoing, this`handshakeWriteSeq, this`sent
      ensures Consistent() && outgoing == old(outgoing) + [o]
      ensures sent == if o.isCcs then old(sent) else old(sent) + [Sent(ItemOf(o).typ, ItemOf(o).body)]
    {
      hide Items;
      hide RecordWriter.Writer.Valid, RecordWriter.LengthsAgree, Reached, WholeMessage, ItemOf;
      hide HonestPieces, Logged, Pieces, Sendable, CursorOk, Usable, Accounted;
      CursorOkOnLonger(Items(outgoing), Position(), ItemOf(o));
      AccountedOnLonger(Items(outgoing), pass, Position(), intact, ItemOf(o));
      ItemsExtend(outgoing, o);
      if !o.isCcs {
        ghost var m := Sent(ItemOf(o).typ, ItemOf(o).body);
        SentGrows(sent, m, Items(outgoing), Pieces(emitted));
        sent := sent + [m];
        handshakeWriteSeq := (handshakeWriteSeq + 1) % 0x10000;
      }
      outgoing := outgoing + [o];
    }

    /** Numbers, serializes and queues a handshake message; fails if it is too long or the flight is full. */
    method AddMessage(typ: byte, body: seq<byte>) returns (ok: bool)
      requires Consistent()
      modifies this
      ensures Consistent()
      ensures ok <==> |body| < 0x100_0000 && (old(complete) || |old(outgoing)| < MAX_FLIGHT)
      ensures ok ==> sent == old(sent) + [Sent(typ, body)]
      ensures !ok ==> sent == old(sent)
      ensures emitted == old(emitted)
    {
      hide Sender.Consistent, SerializeFragment;
      if |body| >= 0x100_0000 {
        return false;
      }
      CursorIsOk();
      var data := SerializeFragment(Fragment(typ, |body|, handshakeWriteSeq, 0, body));
      assert QueuedForm(data, typ, body, handshakeWriteSeq);
      ghost var number := handshakeWriteSeq;
      ok := AddOutgoing(false, data);
      if ok {
        QueuedFormUnique(data, typ, body, sent[|sent| - 1].typ, sent[|sent| - 1].body, number);
      }
    }

    method AddChangeCipherSpec() returns (ok: bool)
      requires Consistent()
      modifies this
      ensures Consistent() && sent == old(sent) && emitted == old(emitted)
      ensures ok <==> old(complete) || |old(outgoing)| < MAX_FLIGHT
      ensures ok ==> outgoing == (if old(complete) then [] else old(outgoing)) + [Outgoing([], writer.epoch, true)]
    {
      ok := AddOutgoing(true, []);
    }
  }
}