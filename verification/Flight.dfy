/**
 * DTLS flights: what a pass over a flight has to send, what sealing does at each point of it, and when a
 * pass gets through.
 */
module Flight {
  import opened Wire
  import opened Aead
  import opened RecordWriter
  import opened Reassembly
  import opened HandshakeReader

  // ----- what a pass over a flight has to send

  /** A message of a flight: a ChangeCipherSpec, or a numbered handshake message. */
  datatype Item = CcsItem | MessageItem(typ: byte, seqNo: nat, body: seq<byte>)

  /** The payload of one record of a flight. */
  datatype Piece = CcsPiece | FragmentPiece(f: Fragment)

  function PieceType(p: Piece): byte {
    match p
    case CcsPiece => RT_CHANGE_CIPHER_SPEC
    case FragmentPiece(_) => RT_HANDSHAKE
  }

  function PieceBytes(p: Piece): seq<byte> {
    match p
    case CcsPiece => [MT_CCS]
    case FragmentPiece(f) => SerializeFragment(f)
  }

  /** The fragment of m from one offset up to another. */
  function Slice(m: Item, from: nat, to: nat): Fragment
    requires m.MessageItem? && from <= to <= |m.body|
  {
    Fragment(m.typ, |m.body|, m.seqNo, from, m.body[from..to])
  }

  /** A position in a flight: messages wholly written, and bytes of the next one. */
  datatype Cursor = Cursor(written: nat, offset: nat)

  ghost predicate CursorOk(flight: seq<Item>, c: Cursor) {
    && c.written <= |flight|
    && (c.offset > 0 ==> c.written < |flight| && flight[c.written].MessageItem? && c.offset < |flight[c.written].body|)
  }

  ghost predicate Before(a: Cursor, b: Cursor) {
    a.written < b.written || (a.written == b.written && a.offset < b.offset)
  }

  /** Where sending piece p takes the cursor from a; None if p is not what the flight needs there. */
  ghost function Move(flight: seq<Item>, a: Cursor, p: Piece): (r: Option<Cursor>)
    ensures r.Some? ==> CursorOk(flight, r.value) && Before(a, r.value)
  {
    if !CursorOk(flight, a) || a.written == |flight| then None
    else
      var m := flight[a.written];
      match p
      case CcsPiece => if m.CcsItem? then Some(Cursor(a.written + 1, 0)) else None
      case FragmentPiece(f) =>
        var to := a.offset + |f.body|;
        if !m.MessageItem? || to > |m.body| || f != Slice(m, a.offset, to) || (f.body == [] && m.body != []) then None
        else if to == |m.body| then Some(Cursor(a.written + 1, 0))
        else Some(Cursor(a.written, to))
  }

  const FlightStart := Cursor(0, 0)

  /** Where sending these pieces in order takes the cursor from a. */
  ghost function Reached(flight: seq<Item>, a: Cursor, pieces: seq<Piece>): Option<Cursor> {
    if pieces == [] then Some(a)
    else
      match Reached(flight, a, pieces[..|pieces| - 1])
      case None => None
      case Some(b) => Move(flight, b, pieces[|pieces| - 1])
  }

  lemma {:induction false} ReachedConcat(flight: seq<Item>, a: Cursor, xs: seq<Piece>, ys: seq<Piece>)
    requires Reached(flight, a, xs).Some?
    ensures Reached(flight, a, xs + ys) == Reached(flight, Reached(flight, a, xs).value, ys)
  {
    if ys == [] {
      assert xs + ys == xs;
    } else {
      ReachedConcat(flight, a, xs, ys[..|ys| - 1]);
      assert (xs + ys)[..|xs + ys| - 1] == xs + ys[..|ys| - 1];
    }
  }

  // ----- a finished pass is a partition of every message

  /** Consecutive fragments of m, from the first byte up to upTo. */
  ghost predicate Consecutive(m: Item, part: seq<Piece>, upTo: nat) {
    if part == [] then upTo == 0
    else
      var p := part[|part| - 1];
      && p.FragmentPiece? && m.MessageItem?
      && p.f.offset + |p.f.body| == upTo <= |m.body|
      && p.f == Slice(m, p.f.offset, upTo)
      && (p.f.body == [] ==> m.body == [] && |part| == 1)
      && Consecutive(m, part[..|part| - 1], p.f.offset)
  }

  /** part is what one whole message is sent as. */
  ghost predicate PartitionOf(m: Item, part: seq<Piece>) {
    match m
    case CcsItem => part == [CcsPiece]
    case MessageItem(_, _, body) => part != [] && Consecutive(m, part, |body|)
  }

  /** parts splits pieces message by message, the last message up to c only. */
  ghost predicate SplitsTo(flight: seq<Item>, pieces: seq<Piece>, parts: seq<seq<Piece>>, last: seq<Piece>, c: Cursor) {
    && CursorOk(flight, c)
    && |parts| == c.written
    && pieces == Flatten(parts) + last
    && (forall j :: 0 <= j < c.written ==> PartitionOf(flight[j], parts[j]))
    && (if c.offset == 0 then last == [] else Consecutive(flight[c.written], last, c.offset))
  }

  lemma SplitExtends(flight: seq<Item>, front: seq<Piece>, a: Cursor, parts: seq<seq<Piece>>, last: seq<Piece>,
                     p: Piece)
    returns (parts': seq<seq<Piece>>, last': seq<Piece>)
    requires SplitsTo(flight, front, parts, last, a) && Move(flight, a, p).Some?
    ensures SplitsTo(flight, front + [p], parts', last', Move(flight, a, p).value)
  {
    var c := Move(flight, a, p).value;
    var grown := last + [p];
    assert grown[..|last|] == last;
    assert front + [p] == Flatten(parts) + grown;
    if c.written == a.written {
      return parts, grown;
    }
    parts', last' := parts + [grown], [];
    assert parts'[..|parts|] == parts;
    assert Flatten(parts') + [] == Flatten(parts) + grown;
    assert PartitionOf(flight[a.written], grown);
  }

  lemma {:induction false} ReachedSplits(flight: seq<Item>, pieces: seq<Piece>)
    returns (parts: seq<seq<Piece>>, last: seq<Piece>)
    requires Reached(flight, FlightStart, pieces).Some?
    ensures SplitsTo(flight, pieces, parts, last, Reached(flight, FlightStart, pieces).value)
  {
    if pieces == [] {
      parts, last := [], [];
    } else {
      var front, p := pieces[..|pieces| - 1], pieces[|pieces| - 1];
      parts, last := ReachedSplits(flight, front);
      parts, last := SplitExtends(flight, front, Reached(flight, FlightStart, front).value, parts, last, p);
      assert pieces == front + [p];
    }
  }

  /** The pieces of a finished pass are, message by message and in order, exact partitions of the bodies. */
  lemma FinishedPassPartitions(flight: seq<Item>, pieces: seq<Piece>) returns (parts: seq<seq<Piece>>)
    requires Reached(flight, FlightStart, pieces) == Some(Cursor(|flight|, 0))
    ensures |parts| == |flight| && pieces == Flatten(parts)
    ensures forall j :: 0 <= j < |flight| ==> PartitionOf(flight[j], parts[j])
  {
    var last;
    parts, last := ReachedSplits(flight, pieces);
    assert Flatten(parts) + [] == Flatten(parts);
  }

  /** The bytes carried by a run of fragments. */
  function Payload(part: seq<Piece>): seq<byte> {
    if part == [] then []
    else
      var p := part[|part| - 1];
      Payload(part[..|part| - 1]) + if p.FragmentPiece? then p.f.body else []
  }

  /** Consecutive fragments carry the body's bytes, each once, in order; an empty body has one, which is empty. */
  lemma {:induction false} PartitionCarriesBody(m: Item, part: seq<Piece>, upTo: nat)
    requires m.MessageItem? && upTo <= |m.body| && Consecutive(m, part, upTo)
    ensures Payload(part) == m.body[..upTo]
    ensures part != [] && m.body == [] ==> |part| == 1
    ensures m.body != [] ==> forall i :: 0 <= i < |part| ==> part[i].FragmentPiece? && part[i].f.body != []
  {
    if part != [] {
      var f := part[|part| - 1].f;
      PartitionCarriesBody(m, part[..|part| - 1], f.offset);
      assert m.body[..upTo] == m.body[..f.offset] + m.body[f.offset..upTo];
    }
  }

  // ----- queued messages

  /** A queued message: one serialized fragment, or nothing for a ChangeCipherSpec. */
  datatype Outgoing = Outgoing(data: seq<byte>, epoch: nat, isCcs: bool)

  function ItemOf(o: Outgoing): Item {
    if o.isCcs then CcsItem
    else
      match ParseFragment(o.data)
      case None => CcsItem
      case Some((f, _)) => MessageItem(f.typ, f.seqNo, f.body)
  }

  ghost predicate WholeMessage(o: Outgoing) {
    o.isCcs ||
    var r := ParseFragment(o.data);
    r.Some? && r.value.1 == [] && r.value.0.offset == 0 && r.value.0.msgLen == |r.value.0.body|
  }

  ghost function Items(outgoing: seq<Outgoing>): (s: seq<Item>)
    ensures |s| == |outgoing|
  {
    seq(|outgoing|, i requires 0 <= i < |outgoing| => ItemOf(outgoing[i]))
  }

  /** Bytes of the flight still to be sent after the messages wholly written. */
  ghost function Left(flight: seq<Item>, c: Cursor): nat {
    if c.written < |flight| && flight[c.written].MessageItem? && c.offset <= |flight[c.written].body|
    then |flight[c.written].body| - c.offset
    else 0
  }

  lemma LeftDecreases(flight: seq<Item>, a: Cursor, b: Cursor)
    requires CursorOk(flight, a) && CursorOk(flight, b) && Before(a, b)
    ensures a.written < b.written <= |flight| || (a.written == b.written && Left(flight, b) < Left(flight, a))
  {
  }

  lemma ItemsExtend(outgoing: seq<Outgoing>, o: Outgoing)
    ensures Items(outgoing + [o]) == Items(outgoing) + [ItemOf(o)]
  {
  }

  lemma {:induction false} ReachedOnLonger(flight: seq<Item>, a: Cursor, pieces: seq<Piece>, m: Item)
    requires Reached(flight, a, pieces).Some?
    ensures Reached(flight + [m], a, pieces) == Reached(flight, a, pieces)
  {
    if pieces != [] {
      ReachedOnLonger(flight, a, pieces[..|pieces| - 1], m);
    }
  }

  lemma CursorOkOnLonger(flight: seq<Item>, c: Cursor, m: Item)
    ensures CursorOk(flight, c) ==> CursorOk(flight + [m], c)
  {
  }

  // ----- sealing one record

  /** The cipher, and the random bytes its nonces draw: the i-th draw of n bytes. */
  datatype Crypto = Crypto(encrypt: EncryptFunction, random: (nat, nat) -> seq<byte>)

  ghost predicate Usable(k: Crypto) {
    LengthsAgree(k.encrypt) && forall i, n :: |k.random(i, n)| == n
  }

  /** What sealing changes: the writer's epochs and counters, and how often random bytes were drawn. */
  datatype Line = Line(st: WriterState, drawn: nat)

  predicate LineOk(l: Line) {
    l.st.ctx.Valid() && l.st.lastCtx.Valid()
  }

  function ContextOf(l: Line, previous: bool): Context {
    if previous then l.st.lastCtx else l.st.ctx
  }

  function CounterOf(l: Line, previous: bool): nat {
    if previous then l.st.lastNext else l.st.next
  }

  /** The step of the writer that seals this plaintext. */
  function SealStep(k: Crypto, l: Line, previous: bool, typ: byte, plaintext: seq<byte>): (step: RecordWriter.Step)
    ensures step.Seal? && step.previous == previous
  {
    Seal(previous, typ, plaintext, k.random(l.drawn, ContextOf(l, previous).variableNonceLen))
  }

  /** The record body that sealing would give; None if encryption fails. */
  function BodyOf(k: Crypto, l: Line, previous: bool, typ: byte, plaintext: seq<byte>): Option<seq<byte>> {
    var step := SealStep(k, l, previous, typ, plaintext);
    var e := Entry(l.st, step);
    SealBody(e.ctx, RecordNumber(e.epoch, e.number), step.random, typ, l.st.ctx.RecordVersion(), plaintext, k.encrypt)
  }

  /** Sealing one record: the line afterwards, and the record unless sealing fails. */
  function SealOn(k: Crypto, l: Line, previous: bool, maxOut: nat, typ: byte, plaintext: seq<byte>)
    : (r: (Line, Option<seq<byte>>))
    ensures r.1.Some? ==> RT_HEADER_LENGTH <= |r.1.value| <= maxOut
  {
    var step := SealStep(k, l, previous, typ, plaintext);
    var e := Entry(l.st, step);
    var body := BodyOf(k, l, previous, typ, plaintext);
    if body.None? || RT_HEADER_LENGTH + |body.value| > maxOut then (Line(l.st, l.drawn + 1), None)
    else
      (Line(Next(l.st, step), l.drawn + 1),
       if Wraps(l.st, step) || |body.value| >= 0x10000 then None
       else Some(RecordBytes(typ, l.st.ctx.RecordVersion(), RecordNumber(e.epoch, e.number), body.value)))
  }

  // ----- sealing as much as fits of the next message

  datatype SealResult = SealError | SealNoProgress | SealPartial | SealSuccess

  datatype Attempt = Attempt(result: SealResult, line: Line, piece: Piece, record: seq<byte>)

  /** Whether a message queued in this epoch goes out under the previous epoch or the current; None if neither. */
  function EpochUsed(l: Line, epoch: nat): Option<bool> {
    if l.st.epoch >= 1 && epoch == l.st.epoch - 1 then Some(true)
    else if epoch == l.st.epoch then Some(false)
    else None
  }

  /** The least space in which a record of m makes progress. */
  function Room(l: Line, m: Item, previous: bool): nat {
    RT_HEADER_LENGTH + ContextOf(l, previous).MaxOverhead() + 1 + if m.CcsItem? then 0 else HM_HEADER_LENGTH
  }

  function Min(a: int, b: int): int {
    if a < b then a else b
  }

  /** The most of m from offset on that fits this space. */
  function PieceAt(l: Line, m: Item, offset: nat, maxOut: nat, previous: bool): Piece
    requires (m.MessageItem? ==> offset <= |m.body|) && maxOut >= Room(l, m, previous)
  {
    match m
    case CcsItem => CcsPiece
    case MessageItem(_, _, body) =>
      FragmentPiece(Slice(m, offset, offset + Min(|body| - offset, 1 + maxOut - Room(l, m, previous))))
  }

  predicate Completes(m: Item, p: Piece) {
    m.MessageItem? && p.FragmentPiece? ==> p.f.offset + |p.f.body| == |m.body|
  }

  function SealNext(k: Crypto, l: Line, m: Item, epoch: nat, offset: nat, maxOut: nat): (a: Attempt)
    requires m.MessageItem? ==> offset <= |m.body|
    ensures |a.record| <= maxOut
  {
    var used := EpochUsed(l, epoch);
    if used.None? then Attempt(SealError, l, CcsPiece, [])
    else if maxOut < Room(l, m, used.value) then Attempt(SealNoProgress, l, CcsPiece, [])
    else
      var p := PieceAt(l, m, offset, maxOut, used.value);
      var r := SealOn(k, l, used.value, maxOut, PieceType(p), PieceBytes(p));
      if r.1.None? then Attempt(SealError, r.0, p, [])
      else Attempt(if Completes(m, p) then SealSuccess else SealPartial, r.0, p, r.1.value)
  }

  /** What sealing a ChangeCipherSpec comes to. */
  lemma SealNextCcs(k: Crypto, l: Line, m: Item, epoch: nat, offset: nat, maxOut: nat, previous: bool)
    requires m.CcsItem? && EpochUsed(l, epoch) == Some(previous)
    ensures SealNext(k, l, m, epoch, offset, maxOut) ==
            if maxOut < Room(l, m, previous) then Attempt(SealNoProgress, l, CcsPiece, [])
            else
              var r := SealOn(k, l, previous, maxOut, RT_CHANGE_CIPHER_SPEC, [MT_CCS]);
              if r.1.None? then Attempt(SealError, r.0, CcsPiece, [])
              else Attempt(SealSuccess, r.0, CcsPiece, r.1.value)
  {
    hide SealOn, Room;
  }

  /** And sealing the next todo bytes of a message, if those are what fits. */
  lemma SealNextFragment(k: Crypto, l: Line, m: Item, epoch: nat, offset: nat, maxOut: nat, previous: bool, todo: nat)
    requires m.MessageItem? && EpochUsed(l, epoch) == Some(previous) && offset <= |m.body|
    requires maxOut >= Room(l, m, previous) && todo == Min(|m.body| - offset, 1 + maxOut - Room(l, m, previous))
    ensures var p := FragmentPiece(Slice(m, offset, offset + todo));
            var r := SealOn(k, l, previous, maxOut, RT_HANDSHAKE, PieceBytes(p));
            SealNext(k, l, m, epoch, offset, maxOut) ==
            if r.1.None? then Attempt(SealError, r.0, p, [])
            else Attempt(if todo == |m.body| - offset then SealSuccess else SealPartial, r.0, p, r.1.value)
  {
    hide SealOn, Room, PieceBytes;
  }

  lemma SealNextStops(k: Crypto, l: Line, m: Item, epoch: nat, offset: nat, maxOut: nat)
    requires m.MessageItem? ==> offset <= |m.body|
    ensures var used := EpochUsed(l, epoch);
            && (used.None? ==> SealNext(k, l, m, epoch, offset, maxOut) == Attempt(SealError, l, CcsPiece, []))
            && (used.Some? && maxOut < Room(l, m, used.value) ==>
                  SealNext(k, l, m, epoch, offset, maxOut) == Attempt(SealNoProgress, l, CcsPiece, []))
  {
    hide SealOn, Room, PieceAt;
  }

  /** A record with room for the overhead fits, whatever its contents. */
  lemma SealFits(k: Crypto, l: Line, previous: bool, maxOut: nat, typ: byte, plaintext: seq<byte>)
    requires Usable(k) && LineOk(l)
    requires RT_HEADER_LENGTH + ContextOf(l, previous).MaxOverhead() + |plaintext| <= maxOut
    ensures var body := BodyOf(k, l, previous, typ, plaintext);
            body.Some? ==> RT_HEADER_LENGTH + |body.value| <= maxOut
  {
    var step := SealStep(k, l, previous, typ, plaintext);
    var e := Entry(l.st, step);
    var number := RecordNumber(e.epoch, e.number);
    SealBodyLength(e.ctx, number, step.random, typ, l.st.ctx.RecordVersion(), plaintext, k.encrypt);
  }

  /**
   * Exactly when sealing the next message fails: its epoch is gone, or there is room but the counter is at
   * its last number, encryption fails, or the body is too long for its length field. It makes no progress
   * exactly when there is no room.
   */
  lemma SealFailsIff(k: Crypto, l: Line, m: Item, epoch: nat, offset: nat, maxOut: nat)
    requires Usable(k) && LineOk(l) && (m.MessageItem? ==> offset <= |m.body|)
    ensures var a, used := SealNext(k, l, m, epoch, offset, maxOut), EpochUsed(l, epoch);
            && (a.result == SealNoProgress <==> used.Some? && maxOut < Room(l, m, used.value))
            && (a.result == SealError <==>
                  used.None? ||
                  (maxOut >= Room(l, m, used.value) &&
                   var p := PieceAt(l, m, offset, maxOut, used.value);
                   var body := BodyOf(k, l, used.value, PieceType(p), PieceBytes(p));
                   CounterOf(l, used.value) + 1 == SEQUENCE_LIMIT || body.None? || |body.value| >= 0x10000))
  {
    hide SealOn, BodyOf, Usable, LineOk, EpochUsed, PieceBytes;
    var used := EpochUsed(l, epoch);
    if used.Some? && maxOut >= Room(l, m, used.value) {
      var p := PieceAt(l, m, offset, maxOut, used.value);
      PieceFits(l, m, offset, maxOut, used.value);
      SealOnFailsIff(k, l, used.value, maxOut, PieceType(p), PieceBytes(p));
    }
  }

  lemma SealOnFailsIff(k: Crypto, l: Line, previous: bool, maxOut: nat, typ: byte, plaintext: seq<byte>)
    requires Usable(k) && LineOk(l)
    requires RT_HEADER_LENGTH + ContextOf(l, previous).MaxOverhead() + |plaintext| <= maxOut
    ensures var body := BodyOf(k, l, previous, typ, plaintext);
            SealOn(k, l, previous, maxOut, typ, plaintext).1.None? <==>
              CounterOf(l, previous) + 1 == SEQUENCE_LIMIT || body.None? || |body.value| >= 0x10000
  {
    hide BodyOf, Usable, LineOk;
    SealFits(k, l, previous, maxOut, typ, plaintext);
  }

  /** What is sealed is what the flight needs next, and as much of it as fits. */
  lemma SealMoves(k: Crypto, l: Line, flight: seq<Item>, c: Cursor, epoch: nat, maxOut: nat)
    requires CursorOk(flight, c) && c.written < |flight|
    requires SealNext(k, l, flight[c.written], epoch, c.offset, maxOut).result in {SealPartial, SealSuccess}
    ensures var a, m := SealNext(k, l, flight[c.written], epoch, c.offset, maxOut), flight[c.written];
            && Move(flight, c, a.piece) == Some(AfterPiece(m, c, a))
            && (a.result == SealPartial ==>
                  (&& a.piece.FragmentPiece? && EpochUsed(l, epoch).Some?
                   && |a.piece.f.body| == 1 + maxOut - Room(l, m, EpochUsed(l, epoch).value)))
  {
    hide SealOn;
  }

  function AfterPiece(m: Item, c: Cursor, a: Attempt): Cursor {
    if a.result == SealPartial && a.piece.FragmentPiece? then Cursor(c.written, c.offset + |a.piece.f.body|)
    else Cursor(c.written + 1, 0)
  }

  // ----- filling one packet

  /** What filling a packet did: the pieces in it, where it left the cursor, and whether a seal failed. */
  datatype Filled = Filled(line: Line, cursor: Cursor, pieces: seq<Piece>, packet: seq<byte>, failed: bool)

  /** As much of the flight from c on as fits in room. */
  ghost function Fill(k: Crypto, l: Line, out: seq<Outgoing>, c: Cursor, room: nat): Filled
    requires CursorOk(Items(out), c)
    decreases |out| - c.written
  {
    if c.written == |out| then Filled(l, c, [], [], false)
    else
      var m := ItemOf(out[c.written]);
      var a := SealNext(k, l, m, out[c.written].epoch, c.offset, room);
      match a.result
      case SealError => Filled(a.line, c, [], [], true)
      case SealNoProgress => Filled(a.line, c, [], [], false)
      case SealPartial =>
        Filled(a.line, AfterPiece(m, c, a), [a.piece], a.record, false)
      case SealSuccess =>
        Following([a.piece], a.record, Fill(k, a.line, out, Cursor(c.written + 1, 0), room - |a.record|))
  }

  /** f, after pieces and records that were already in the packet. */
  function Following(pieces: seq<Piece>, packet: seq<byte>, f: Filled): Filled {
    f.(pieces := pieces + f.pieces, packet := packet + f.packet)
  }

  lemma OnePiece(flight: seq<Item>, a: Cursor, p: Piece)
    ensures Reached(flight, a, [p]) == Move(flight, a, p)
  {
    assert Reached(flight, a, []) == Some(a);
  }

  /** The pieces of a packet take the cursor exactly to where it is left, and forward if there are any. */
  ghost predicate Follows(flight: seq<Item>, c: Cursor, room: nat, f: Filled) {
    && CursorOk(flight, f.cursor) && |f.packet| <= room
    && Reached(flight, c, f.pieces) == Some(f.cursor)
    && (if f.pieces == [] then f.cursor == c else Before(c, f.cursor))
  }

  lemma OneThen(flight: seq<Item>, c: Cursor, room: nat, p: Piece, record: seq<byte>, r: Filled)
    requires Move(flight, c, p).Some? && |record| <= room
    requires Follows(flight, Move(flight, c, p).value, room - |record|, r)
    ensures Follows(flight, c, room, Following([p], record, r))
  {
    OnePiece(flight, c, p);
    ReachedConcat(flight, c, [p], r.pieces);
    hide Move, Reached;
  }

  lemma NothingMore(flight: seq<Item>, c: Cursor, room: nat, line: Line, failed: bool)
    requires CursorOk(flight, c)
    ensures Follows(flight, c, room, Filled(line, c, [], [], failed))
  {
  }

  lemma {:induction false} FillMoves(k: Crypto, l: Line, out: seq<Outgoing>, c: Cursor, room: nat)
    requires CursorOk(Items(out), c)
    ensures Follows(Items(out), c, room, Fill(k, l, out, c, room))
    decreases |out| - c.written
  {
    hide Follows, Move, SealNext;
    NothingMore(Items(out), c, room, l, false);
    if c.written < |out| {
      var flight, m := Items(out), ItemOf(out[c.written]);
      var a := SealNext(k, l, m, out[c.written].epoch, c.offset, room);
      NothingMore(flight, c, room, a.line, a.result == SealError);
      if a.result == SealPartial || a.result == SealSuccess {
        SealMoves(k, l, flight, c, out[c.written].epoch, room);
        var b, left := AfterPiece(m, c, a), room - |a.record|;
        if a.result == SealSuccess {
          FillMoves(k, a.line, out, b, left);
          OneThen(flight, c, room, a.piece, a.record, Fill(k, a.line, out, b, left));
        } else {
          NothingMore(flight, b, left, a.line, false);
          OneThen(flight, c, room, a.piece, a.record, Filled(a.line, b, [], [], false));
          assert [a.piece] + [] == [a.piece] && a.record + [] == a.record;
        }
      }
    }
  }

  // ----- sending the rest of a flight

  /**
   * What one call did: pieces and packets the BIO accepted, the result returned, and whether a failed seal
   * left the cursor past pieces that were never handed to the BIO.
   */
  datatype Sending = Sending(line: Line, cursor: Cursor, pieces: seq<Piece>, packets: seq<seq<byte>>,
                             outcomes: seq<int>, ret: int, skipped: bool)

  /** Packet by packet from c on; outcomes says what the BIO answers to each write and to the final flush. */
  ghost function Send(k: Crypto, l: Line, out: seq<Outgoing>, c: Cursor, mtu: nat, outcomes: seq<int>): Sending
    requires CursorOk(Items(out), c)
    decreases |outcomes|
  {
    if c.written == |out| then
      if outcomes == [] then Sending(l, c, [], [], [], -1, false)
      else Sending(l, c, [], [], outcomes[1..], if outcomes[0] > 0 then 1 else -1, false)
    else
      FillMoves(k, l, out, c, mtu);
      var f := Fill(k, l, out, c, mtu);
      if f.failed || f.pieces == [] then Sending(f.line, f.cursor, [], [], outcomes, -1, f.cursor != c)
      else if outcomes == [] then Sending(f.line, c, [], [], [], -1, false)
      else if outcomes[0] <= 0 then Sending(f.line, c, [], [], outcomes[1..], outcomes[0], false)
      else
        var r := Send(k, f.line, out, f.cursor, mtu, outcomes[1..]);
        r.(pieces := f.pieces + r.pieces, packets := [f.packet] + r.packets)
  }

  /**
   * The accepted pieces of a call take the cursor to where the call leaves it if and only if no failed seal
   * moved it; otherwise they stay behind it.
   */
  lemma {:induction false} SendMoves(k: Crypto, l: Line, out: seq<Outgoing>, c: Cursor, mtu: nat, outcomes: seq<int>)
    requires CursorOk(Items(out), c)
    ensures var r := Send(k, l, out, c, mtu, outcomes);
            && CursorOk(Items(out), r.cursor) && Reached(Items(out), c, r.pieces).Some?
            && (Reached(Items(out), c, r.pieces) == Some(r.cursor) <==> !r.skipped)
            && (r.skipped ==> Before(Reached(Items(out), c, r.pieces).value, r.cursor))
            && (r.ret == 1 ==> r.cursor == Cursor(|out|, 0) && !r.skipped)
    decreases |outcomes|
  {
    var flight := Items(out);
    if c.written < |out| {
      FillMoves(k, l, out, c, mtu);
      var f := Fill(k, l, out, c, mtu);
      if !f.failed && f.pieces != [] && outcomes != [] && outcomes[0] > 0 {
        var r := Send(k, f.line, out, f.cursor, mtu, outcomes[1..]);
        SendMoves(k, f.line, out, f.cursor, mtu, outcomes[1..]);
        ReachedConcat(flight, c, f.pieces, r.pieces);
      }
    }
  }

  // ----- when a flight gets through

  /** Records that the rest of a message can take at most. */
  function Units(m: Item, offset: nat): nat {
    if m.MessageItem? && |m.body| > offset then |m.body| - offset else 1
  }

  /** Records that the rest of the flight can take at most. */
  ghost function Work(out: seq<Outgoing>, c: Cursor): nat
    decreases |out| - c.written
  {
    if c.written >= |out| then 0 else Units(ItemOf(out[c.written]), c.offset) + Work(out, Cursor(c.written + 1, 0))
  }

  /** Encryption under this context never fails. */
  ghost predicate Encrypts(k: Crypto, ctx: Context) {
    ctx.isNull || forall nonce, ad, plaintext :: k.encrypt(ctx, nonce, ad, plaintext).Some?
  }

  /** The longest payload a record of m can have. */
  function MostBytes(m: Item): nat {
    if m.CcsItem? then 1 else HM_HEADER_LENGTH + |m.body|
  }

  /** Message o can be sealed: its epoch is at hand, and its records fit their length field. */
  ghost predicate CanSeal(l: Line, o: Outgoing, mtu: nat) {
    var used, m := EpochUsed(l, o.epoch), ItemOf(o);
    && used.Some?
    && (|| mtu <= 0xffff + RT_HEADER_LENGTH
        || MostBytes(m) + ContextOf(l, used.value).MaxOverhead() <= 0xffff)
  }

  /** What can be checked before a call so that no seal fails in it. */
  ghost predicate Sealable(k: Crypto, l: Line, out: seq<Outgoing>, c: Cursor, mtu: nat) {
    && Usable(k) && LineOk(l) && Encrypts(k, l.st.ctx) && Encrypts(k, l.st.lastCtx)
    && (forall i :: c.written <= i < |out| ==> CanSeal(l, out[i], mtu))
    && l.st.next + Work(out, c) < SEQUENCE_LIMIT && l.st.lastNext + Work(out, c) < SEQUENCE_LIMIT
  }

  /** And so that a packet always has room for something. */
  ghost predicate Ready(k: Crypto, l: Line, out: seq<Outgoing>, c: Cursor, mtu: nat) {
    && Sealable(k, l, out, c, mtu)
    && (forall i :: c.written <= i < |out| ==>
          mtu >= Room(l, ItemOf(out[i]), EpochUsed(l, out[i].epoch).value))
  }

  /** The same epochs and contexts, with counters no further on than this. */
  ghost predicate Later(l: Line, l': Line, records: nat) {
    && l'.st.epoch == l.st.epoch && l'.st.ctx == l.st.ctx && l'.st.lastCtx == l.st.lastCtx
    && l'.st.next <= l.st.next + records && l'.st.lastNext <= l.st.lastNext + records
  }

  lemma WorkLeft(out: seq<Outgoing>, c: Cursor, n: nat)
    requires c.written < |out|
    ensures Work(out, c) >= 1
    ensures Work(out, Cursor(c.written + 1, 0)) + 1 <= Work(out, c)
    ensures var m := ItemOf(out[c.written]);
            m.MessageItem? && 0 < n && c.offset + n < |m.body| ==>
              Work(out, Cursor(c.written, c.offset + n)) + 1 <= Work(out, c)
  {
    assert Work(out, Cursor(c.written, c.offset + n)) ==
           Units(ItemOf(out[c.written]), c.offset + n) + Work(out, Cursor(c.written + 1, 0));
  }

  /** A payload no longer than the message allows fits its length field. */
  lemma BodyInRange(k: Crypto, l: Line, o: Outgoing, typ: byte, plaintext: seq<byte>, room: nat, mtu: nat)
    requires Usable(k) && LineOk(l) && Encrypts(k, l.st.ctx) && Encrypts(k, l.st.lastCtx) && CanSeal(l, o, mtu)
    requires room <= mtu && |plaintext| <= MostBytes(ItemOf(o))
    requires RT_HEADER_LENGTH + ContextOf(l, EpochUsed(l, o.epoch).value).MaxOverhead() + |plaintext| <= room
    ensures var body := BodyOf(k, l, EpochUsed(l, o.epoch).value, typ, plaintext);
            body.Some? && |body.value| < 0x10000
  {
    var previous := EpochUsed(l, o.epoch).value;
    SealFits(k, l, previous, room, typ, plaintext);
    BodyShort(k, l, previous, typ, plaintext);
    hide BodyOf, MostBytes;
  }

  /** One sealable message is sealed, as far as it fits, and costs its counter one number. */
  lemma SealSucceeds(k: Crypto, l: Line, o: Outgoing, offset: nat, room: nat, mtu: nat)
    requires Usable(k) && LineOk(l) && Encrypts(k, l.st.ctx) && Encrypts(k, l.st.lastCtx) && CanSeal(l, o, mtu)
    requires room <= mtu && (ItemOf(o).MessageItem? ==> offset <= |ItemOf(o).body|)
    requires l.st.next + 1 < SEQUENCE_LIMIT && l.st.lastNext + 1 < SEQUENCE_LIMIT
    ensures var a := SealNext(k, l, ItemOf(o), o.epoch, offset, room);
            && (a.result == SealNoProgress <==> room < Room(l, ItemOf(o), EpochUsed(l, o.epoch).value))
            && a.result != SealError && Later(l, a.line, 1)
            && (a.result == SealNoProgress ==> a.line == l)
  {
    var m, previous := ItemOf(o), EpochUsed(l, o.epoch).value;
    hide SealOn, BodyOf, Encrypts, Usable, LineOk;
    SealFailsIff(k, l, m, o.epoch, offset, room);
    if room >= Room(l, m, previous) {
      var p := PieceAt(l, m, offset, room, previous);
      PieceFits(l, m, offset, room, previous);
      hide PieceAt, PieceBytes, MostBytes, Room, ItemOf;
      BodyInRange(k, l, o, PieceType(p), PieceBytes(p), room, mtu);
      OneNumber(k, l, previous, room, PieceType(p), PieceBytes(p));
    }
  }

  lemma PieceFits(l: Line, m: Item, offset: nat, room: nat, previous: bool)
    requires (m.MessageItem? ==> offset <= |m.body|) && room >= Room(l, m, previous)
    ensures var p := PieceAt(l, m, offset, room, previous);
            && |PieceBytes(p)| <= MostBytes(m)
            && RT_HEADER_LENGTH + ContextOf(l, previous).MaxOverhead() + |PieceBytes(p)| <= room
  {
  }

  lemma OneNumber(k: Crypto, l: Line, previous: bool, maxOut: nat, typ: byte, plaintext: seq<byte>)
    requires l.st.next + 1 < SEQUENCE_LIMIT && l.st.lastNext + 1 < SEQUENCE_LIMIT && LineOk(l)
    ensures Later(l, SealOn(k, l, previous, maxOut, typ, plaintext).0, 1)
  {
    hide BodyOf;
  }

  lemma BodyShort(k: Crypto, l: Line, previous: bool, typ: byte, plaintext: seq<byte>)
    requires Usable(k) && LineOk(l) && Encrypts(k, ContextOf(l, previous))
    ensures var body := BodyOf(k, l, previous, typ, plaintext);
            body.Some? && |body.value| <= |plaintext| + ContextOf(l, previous).MaxOverhead()
  {
    SealFits(k, l, previous, RT_HEADER_LENGTH + ContextOf(l, previous).MaxOverhead() + |plaintext|, typ, plaintext);
  }

  lemma StillSealable(k: Crypto, l: Line, l': Line, out: seq<Outgoing>, c: Cursor, c': Cursor, mtu: nat, n: nat)
    requires Later(l, l', n) && c.written <= c'.written && Work(out, c') + n <= Work(out, c)
    ensures Sealable(k, l, out, c, mtu) ==> Sealable(k, l', out, c', mtu)
    ensures Ready(k, l, out, c, mtu) ==> Ready(k, l', out, c', mtu)
  {
  }

  /** No seal fails while a packet is filled, and each record uses up work. */
  ghost predicate GoesWell(l: Line, out: seq<Outgoing>, c: Cursor, f: Filled) {
    && !f.failed && c.written <= f.cursor.written
    && Later(l, f.line, |f.pieces|) && Work(out, f.cursor) + |f.pieces| <= Work(out, c)
  }

  /** A record more at the front of a packet. */
  lemma WellThen(l: Line, a: Line, out: seq<Outgoing>, c: Cursor, b: Cursor, p: Piece, record: seq<byte>, f: Filled)
    requires Later(l, a, 1) && c.written <= b.written && Work(out, b) + 1 <= Work(out, c) && GoesWell(a, out, b, f)
    ensures GoesWell(l, out, c, Following([p], record, f))
  {
    hide Work;
  }

  /** Sealing one message, as a packet's only record. */
  lemma WellOne(k: Crypto, l: Line, out: seq<Outgoing>, c: Cursor, room: nat, mtu: nat)
    requires CursorOk(Items(out), c) && room <= mtu && Sealable(k, l, out, c, mtu) && c.written < |out|
    ensures var o := out[c.written];
            var a := SealNext(k, l, ItemOf(o), o.epoch, c.offset, room);
            var b := if a.result == SealNoProgress then c else AfterPiece(ItemOf(o), c, a);
            && a.result != SealError && Later(l, a.line, 1)
            && (a.result == SealNoProgress ==> a.line == l && room < Room(l, ItemOf(o), EpochUsed(l, o.epoch).value))
            && CursorOk(Items(out), b) && c.written <= b.written
            && (a.result != SealNoProgress ==> Work(out, b) + 1 <= Work(out, c))
            && (a.result == SealSuccess ==> b == Cursor(c.written + 1, 0))
  {
    hide Move, Encrypts, Usable, LineOk, CanSeal, Room, SealNext, Units, EpochUsed;
    var o := out[c.written];
    WorkLeft(out, c, 0);
    SealSucceeds(k, l, o, c.offset, room, mtu);
    var a := SealNext(k, l, ItemOf(o), o.epoch, c.offset, room);
    if a.result == SealPartial || a.result == SealSuccess {
      SealMoves(k, l, Items(out), c, o.epoch, room);
      if a.result == SealPartial {
        WorkLeft(out, c, |a.piece.f.body|);
      }
    }
  }

  lemma WellNothing(l: Line, out: seq<Outgoing>, c: Cursor)
    ensures GoesWell(l, out, c, Filled(l, c, [], [], false))
  {
    hide Work;
  }

  /** When the next message does not go in whole, it is the packet's last. */
  lemma FillEnds(k: Crypto, l: Line, out: seq<Outgoing>, c: Cursor, room: nat, mtu: nat)
    requires CursorOk(Items(out), c) && room <= mtu && Sealable(k, l, out, c, mtu) && c.written < |out|
    requires SealNext(k, l, ItemOf(out[c.written]), out[c.written].epoch, c.offset, room).result != SealSuccess
    ensures GoesWell(l, out, c, Fill(k, l, out, c, room))
  {
    hide GoesWell;
    WellNothing(l, out, c);
    WellOne(k, l, out, c, room, mtu);
    hide SealNext, Sealable, Work, Room, ItemOf, Later, CursorOk;
    var m := ItemOf(out[c.written]);
    var a := SealNext(k, l, m, out[c.written].epoch, c.offset, room);
    if a.result == SealPartial {
      var b := AfterPiece(m, c, a);
      WellNothing(a.line, out, b);
      WellThen(l, a.line, out, c, b, a.piece, a.record, Filled(a.line, b, [], [], false));
      assert [a.piece] + [] == [a.piece] && a.record + [] == a.record;
    }
  }

  lemma {:induction false} FillSucceeds(k: Crypto, l: Line, out: seq<Outgoing>, c: Cursor, room: nat, mtu: nat)
    requires CursorOk(Items(out), c) && room <= mtu && Sealable(k, l, out, c, mtu)
    ensures GoesWell(l, out, c, Fill(k, l, out, c, room))
    decreases |out| - c.written
  {
    hide GoesWell, SealNext;
    if c.written == |out| {
      WellNothing(l, out, c);
    } else {
      var m := ItemOf(out[c.written]);
      var a := SealNext(k, l, m, out[c.written].epoch, c.offset, room);
      if a.result == SealSuccess {
        WellOne(k, l, out, c, room, mtu);
        var b := AfterPiece(m, c, a);
        StillSealable(k, l, a.line, out, c, b, mtu, 1);
        hide Sealable, Work, Room, ItemOf, Later;
        FillSucceeds(k, a.line, out, b, room - |a.record|, mtu);
        WellThen(l, a.line, out, c, b, a.piece, a.record, Fill(k, a.line, out, b, room - |a.record|));
      } else {
        hide Fill;
        FillEnds(k, l, out, c, room, mtu);
      }
    }
  }

  /** When the flight is ready a packet holds something. */
  lemma FillProgresses(k: Crypto, l: Line, out: seq<Outgoing>, c: Cursor, mtu: nat)
    requires CursorOk(Items(out), c) && Ready(k, l, out, c, mtu) && c.written < |out|
    ensures Fill(k, l, out, c, mtu).pieces != []
  {
    WellOne(k, l, out, c, mtu, mtu);
    hide SealNext, Sealable, Work, ItemOf, Later;
  }

  /** If the flight is ready and the BIO takes every packet, the call succeeds and the flight is sent whole. */
  lemma {:induction false} SendSucceeds(k: Crypto, l: Line, out: seq<Outgoing>, c: Cursor, mtu: nat, outcomes: seq<int>)
    requires CursorOk(Items(out), c) && Ready(k, l, out, c, mtu)
    requires |outcomes| > Work(out, c) && forall i :: 0 <= i < |outcomes| ==> outcomes[i] > 0
    ensures var r := Send(k, l, out, c, mtu, outcomes);
            r.ret == 1 && r.cursor == Cursor(|out|, 0) && Reached(Items(out), c, r.pieces) == Some(r.cursor)
    decreases |outcomes|
  {
    SendMoves(k, l, out, c, mtu, outcomes);
    hide Reached, Fill, Items;
    if c.written < |out| {
      WorkLeft(out, c, 0);
      FillSucceeds(k, l, out, c, mtu, mtu);
      FillProgresses(k, l, out, c, mtu);
      FillMoves(k, l, out, c, mtu);
      var f := Fill(k, l, out, c, mtu);
      StillSealable(k, l, f.line, out, c, f.cursor, mtu, |f.pieces|);
      hide Ready, Work, GoesWell;
      SendSucceeds(k, f.line, out, f.cursor, mtu, outcomes[1..]);
    }
  }

  /** Nor does any call skip anything, whatever the BIO answers. */
  lemma {:induction false} SendNeverSkips(k: Crypto, l: Line, out: seq<Outgoing>, c: Cursor, mtu: nat,
                                          outcomes: seq<int>)
    requires CursorOk(Items(out), c) && Sealable(k, l, out, c, mtu)
    ensures !Send(k, l, out, c, mtu, outcomes).skipped
    decreases |outcomes|
  {
    if c.written < |out| {
      FillSucceeds(k, l, out, c, mtu, mtu);
      FillMoves(k, l, out, c, mtu);
      var f := Fill(k, l, out, c, mtu);
      if f.pieces != [] && outcomes != [] && outcomes[0] > 0 {
        StillSealable(k, l, f.line, out, c, f.cursor, mtu, |f.pieces|);
        SendNeverSkips(k, f.line, out, f.cursor, mtu, outcomes[1..]);
      }
    }
  }

  // ----- pieces that were skipped stay missing

  /** These pieces, sent from the start, do not get as far as b. */
  ghost predicate Behind(flight: seq<Item>, pieces: seq<Piece>, b: Cursor) {
    var r := Reached(flight, FlightStart, pieces);
    r.None? || Before(r.value, b)
  }

  /** A piece that belongs at b does not let them catch up. */
  lemma StaysBehind(flight: seq<Item>, pieces: seq<Piece>, b: Cursor, p: Piece)
    requires Behind(flight, pieces, b) && Move(flight, b, p).Some?
    ensures Behind(flight, pieces + [p], Move(flight, b, p).value)
  {
    assert (pieces + [p])[..|pieces|] == pieces;
  }

  lemma {:induction false} AllStayBehind(flight: seq<Item>, pieces: seq<Piece>, b: Cursor, more: seq<Piece>)
    requires Behind(flight, pieces, b) && Reached(flight, b, more).Some?
    ensures Behind(flight, pieces + more, Reached(flight, b, more).value)
  {
    hide Move, Behind;
    if more == [] {
      assert pieces + more == pieces;
    } else {
      var front, p := more[..|more| - 1], more[|more| - 1];
      AllStayBehind(flight, pieces, b, front);
      StaysBehind(flight, pieces + front, Reached(flight, b, front).value, p);
      assert pieces + front + [p] == pieces + more;
    }
  }

  /** No beginning of these pieces gets to the end of the flight. */
  ghost predicate NeverEnds(flight: seq<Item>, pieces: seq<Piece>) {
    && (pieces == [] || NeverEnds(flight, pieces[..|pieces| - 1]))
    && var r := Reached(flight, FlightStart, pieces); (r.None? || r.value.written < |flight|)
  }

  lemma {:induction false} ShortNeverEnds(flight: seq<Item>, pieces: seq<Piece>)
    requires Reached(flight, FlightStart, pieces).Some?
    requires Reached(flight, FlightStart, pieces).value.written < |flight|
    ensures NeverEnds(flight, pieces)
  {
    hide Move;
    if pieces != [] {
      ShortNeverEnds(flight, pieces[..|pieces| - 1]);
    }
  }

  lemma {:induction false} StillNeverEnds(flight: seq<Item>, pieces: seq<Piece>, b: Cursor, more: seq<Piece>)
    requires NeverEnds(flight, pieces) && Behind(flight, pieces, b) && CursorOk(flight, b)
    requires Reached(flight, b, more).Some?
    ensures NeverEnds(flight, pieces + more) && CursorOk(flight, Reached(flight, b, more).value)
  {
    if more == [] {
      assert pieces + more == pieces;
    } else {
      var front := more[..|more| - 1];
      StillNeverEnds(flight, pieces, b, front);
      AllStayBehind(flight, pieces, b, more);
      assert (pieces + more)[..|pieces + more| - 1] == pieces + front;
    }
  }

  /** Queueing one more message does not let them catch up either. */
  lemma {:induction false} NeverEndsOnLonger(flight: seq<Item>, pieces: seq<Piece>, m: Item)
    requires NeverEnds(flight, pieces)
    ensures Reached(flight + [m], FlightStart, pieces) == Reached(flight, FlightStart, pieces)
    ensures NeverEnds(flight + [m], pieces)
  {
    if pieces != [] {
      NeverEndsOnLonger(flight, pieces[..|pieces| - 1], m);
    }
  }

  // ----- a flight that loses a message

  /** A message queued in epoch 0. */
  function Queued(typ: byte, seqNo: nat, body: seq<byte>): Outgoing {
    Outgoing(SerializeFragment(Fragment(typ, |body|, seqNo, 0, body)), 0, false)
  }

  /** Epoch 0, with the null cipher and enough record numbers left. */
  predicate Unencrypted(l: Line, records: nat) {
    && LineOk(l) && l.st.epoch == 0 && l.st.ctx.isNull && l.st.lastCtx == l.st.ctx
    && l.st.next + records < SEQUENCE_LIMIT && l.st.lastNext + records < SEQUENCE_LIMIT
  }

  lemma QueuedItem(typ: byte, seqNo: nat, body: seq<byte>)
    requires seqNo < 0x10000 && |body| < 0x100_0000
    ensures ItemOf(Queued(typ, seqNo, body)) == MessageItem(typ, seqNo, body)
  {
    var f := Fragment(typ, |body|, seqNo, 0, body);
    ParseSerialized(f, []);
    assert SerializeFragment(f) + [] == SerializeFragment(f);
  }

  /** A null cipher's record body is its plaintext. */
  lemma NullBody(k: Crypto, l: Line, typ: byte, plaintext: seq<byte>)
    requires l.st.ctx.isNull
    ensures BodyOf(k, l, false, typ, plaintext) == Some(plaintext)
  {
  }

  /** A piece of this message. */
  ghost predicate PieceOf(m: Item, p: Piece) {
    match p
    case CcsPiece => m.CcsItem?
    case FragmentPiece(f) => m.MessageItem? && f.typ == m.typ && f.seqNo == m.seqNo
  }

  /** Pieces sent from a on are of messages from there on. */
  lemma {:induction false} PiecesFrom(flight: seq<Item>, a: Cursor, pieces: seq<Piece>)
    requires Reached(flight, a, pieces).Some?
    ensures a.written <= Reached(flight, a, pieces).value.written
    ensures forall j :: 0 <= j < |pieces| ==>
              exists i :: a.written <= i < |flight| && PieceOf(flight[i], pieces[j])
  {
    if pieces != [] {
      var front, p := pieces[..|pieces| - 1], pieces[|pieces| - 1];
      PiecesFrom(flight, a, front);
      var b := Reached(flight, a, front).value;
      assert PieceOf(flight[b.written], p);
      forall j | 0 <= j < |pieces|
        ensures exists i :: a.written <= i < |flight| && PieceOf(flight[i], pieces[j])
      {
        if j < |front| {
          assert pieces[j] == front[j];
        }
      }
    }
  }

  lemma PiecesOfLast(flight: seq<Item>, a: Cursor, pieces: seq<Piece>)
    requires Reached(flight, a, pieces).Some? && a.written + 1 == |flight|
    ensures forall j :: 0 <= j < |pieces| ==> PieceOf(flight[a.written], pieces[j])
  {
    hide Reached, PieceOf;
    PiecesFrom(flight, a, pieces);
  }

  const LARGE_MTU: nat := 70000
  const SMALL_MTU: nat := 1400
  const LARGE_BODY: nat := 66000

  /** With the null cipher a short message is sealed whole, given room. */
  lemma SmallSealed(k: Crypto, l: Line, typ: byte, seqNo: nat, small: seq<byte>)
    requires Usable(k) && Unencrypted(l, 1) && seqNo < 0x10000 && |small| <= 1000
    ensures var a := SealNext(k, l, MessageItem(typ, seqNo, small), 0, 0, LARGE_MTU);
            && a.result == SealSuccess && Later(l, a.line, 1)
            && |a.record| == RT_HEADER_LENGTH + HM_HEADER_LENGTH + |small|
  {
    var m := MessageItem(typ, seqNo, small);
    var p := PieceAt(l, m, 0, LARGE_MTU, false);
    assert |PieceBytes(p)| == HM_HEADER_LENGTH + |small|;
    NullBody(k, l, RT_HANDSHAKE, PieceBytes(p));
  }

  /** And a long one fails, since its length does not fit its field. */
  lemma LargeFails(k: Crypto, l: Line, typ: byte, seqNo: nat, large: seq<byte>, room: nat)
    requires Usable(k) && Unencrypted(l, 1) && seqNo < 0x10000 && |large| == LARGE_BODY
    requires LARGE_BODY + RT_HEADER_LENGTH + HM_HEADER_LENGTH <= room
    ensures var a := SealNext(k, l, MessageItem(typ, seqNo, large), 0, 0, room);
            a.result == SealError && Later(l, a.line, 1)
  {
    var m := MessageItem(typ, seqNo, large);
    var p := PieceAt(l, m, 0, room, false);
    assert |PieceBytes(p)| == HM_HEADER_LENGTH + LARGE_BODY;
    NullBody(k, l, RT_HANDSHAKE, PieceBytes(p));
  }

  /** Two messages queued in epoch 0: a short one, and one longer than a record can be. */
  ghost predicate ShortThenLarge(out: seq<Outgoing>) {
    && |out| == 2 && out[0].epoch == out[1].epoch == 0
    && ItemOf(out[0]).MessageItem? && |ItemOf(out[0]).body| <= 1000
    && ItemOf(out[1]).MessageItem? && |ItemOf(out[1]).body| == LARGE_BODY
    && ItemOf(out[1]).seqNo == ItemOf(out[0]).seqNo + 1 < 0x10000
  }

  /** There are such flights. */
  lemma QueuedPair(typ: byte, seqNo: nat, small: seq<byte>, large: seq<byte>)
    requires seqNo + 1 < 0x10000 && |small| <= 1000 && |large| == LARGE_BODY
    ensures ShortThenLarge([Queued(typ, seqNo, small), Queued(typ, seqNo + 1, large)])
  {
    QueuedItem(typ, seqNo, small);
    QueuedItem(typ, seqNo + 1, large);
  }

  /** And such a connection, with a cipher that never fails. */
  lemma LargeMtuInput() returns (k: Crypto, l: Line, out: seq<Outgoing>)
    ensures Usable(k) && Encrypts(k, l.st.ctx) && Unencrypted(l, LARGE_MTU) && ShortThenLarge(out)
  {
    hide ShortThenLarge, Queued, Usable, Encrypts;
    var ctx := Context(0, true, 0, [], 0, false, false, false, false, false, false, 0, 0);
    k := NeverFailing();
    l := Line(WriterState(0, 0, 0, ctx, ctx), 0);
    out := [Queued(1, 0, [1]), Queued(1, 1, Zeros(LARGE_BODY))];
    QueuedPair(1, 0, [1], Zeros(LARGE_BODY));
  }

  lemma NeverFailing() returns (k: Crypto)
    ensures Usable(k) && forall ctx :: Encrypts(k, ctx)
  {
    k := Crypto((ctx: Context, nonce, ad, plaintext: seq<byte>) =>
                  Some(Zeros(|plaintext| + ctx.SuffixLen(|plaintext|))),
                (i, n) => Zeros(n));
  }

  /** Filling a packet with the two of them fails after the first. */
  lemma LargeFillFails(k: Crypto, l: Line, out: seq<Outgoing>)
    requires Usable(k) && Unencrypted(l, LARGE_MTU) && ShortThenLarge(out)
    ensures var f := Fill(k, l, out, FlightStart, LARGE_MTU);
            f.failed && f.cursor == Cursor(1, 0) && Later(l, f.line, 2)
  {
    var m, m' := ItemOf(out[0]), ItemOf(out[1]);
    SmallSealed(k, l, m.typ, m.seqNo, m.body);
    var a := SealNext(k, l, m, 0, 0, LARGE_MTU);
    LargeFails(k, a.line, m'.typ, m'.seqNo, m'.body, LARGE_MTU - |a.record|);
    hide SealNext, ItemOf;
    assert AfterPiece(m, FlightStart, a) == Cursor(1, 0);
    assert Fill(k, a.line, out, Cursor(1, 0), LARGE_MTU - |a.record|).cursor == Cursor(1, 0);
  }

  /** After the failure the rest of the flight is ready for a smaller MTU. */
  lemma LargeIsReady(k: Crypto, l: Line, l': Line, out: seq<Outgoing>)
    requires Usable(k) && Unencrypted(l, LARGE_MTU) && ShortThenLarge(out) && Later(l, l', 2)
    ensures Ready(k, l', out, Cursor(1, 0), SMALL_MTU) && Work(out, Cursor(1, 0)) == LARGE_BODY
  {
    hide ItemOf;
    assert Work(out, Cursor(2, 0)) == 0;
  }

  lemma FirstSendFails(k: Crypto, l: Line, out: seq<Outgoing>, outcomes: seq<int>)
    requires Usable(k) && Unencrypted(l, LARGE_MTU) && ShortThenLarge(out)
    ensures var first := Send(k, l, out, FlightStart, LARGE_MTU, outcomes);
            && first.ret == -1 && first.packets == [] && first.skipped && first.cursor == Cursor(1, 0)
            && Later(l, first.line, 2)
  {
    LargeFillFails(k, l, out);
    hide Fill, ItemOf, Unencrypted, Later;
  }

  lemma SecondSendSucceeds(k: Crypto, l: Line, out: seq<Outgoing>, outcomes: seq<int>)
    requires |out| == 2 && Ready(k, l, out, Cursor(1, 0), SMALL_MTU)
    requires |outcomes| > Work(out, Cursor(1, 0)) && forall i :: 0 <= i < |outcomes| ==> outcomes[i] > 0
    ensures var second := Send(k, l, out, Cursor(1, 0), SMALL_MTU, outcomes);
            && second.ret == 1 && second.cursor == Cursor(2, 0)
            && (forall j :: 0 <= j < |second.pieces| ==> PieceOf(ItemOf(out[1]), second.pieces[j]))
  {
    SendSucceeds(k, l, out, Cursor(1, 0), SMALL_MTU, outcomes);
    hide Send, Reached, Ready, Work, PieceOf, ItemOf;
    PiecesOfLast(Items(out), Cursor(1, 0), Send(k, l, out, Cursor(1, 0), SMALL_MTU, outcomes).pieces);
  }

  /**
   * A flight that is reported as sent and is not: with the null cipher and an MTU of 70000, a short message
   * and one of 66000 bytes. The first call fails on the second message, past the first; once the MTU has been
   * lowered the next call succeeds, and no fragment of the first message is ever handed to the BIO.
   */
  lemma LargeMtuSkips(k: Crypto, l: Line, out: seq<Outgoing>, outcomes: seq<int>, later: seq<int>)
    requires Usable(k) && Unencrypted(l, LARGE_MTU) && ShortThenLarge(out)
    requires |later| > LARGE_BODY && forall i :: 0 <= i < |later| ==> later[i] > 0
    ensures var first := Send(k, l, out, FlightStart, LARGE_MTU, outcomes);
            && first.ret == -1 && first.packets == [] && first.skipped && first.cursor == Cursor(1, 0)
            && var second := Send(k, first.line, out, Cursor(1, 0), SMALL_MTU, later);
               && second.ret == 1 && second.cursor == Cursor(2, 0)
               && (forall j :: 0 <= j < |second.pieces| ==> PieceOf(ItemOf(out[1]), second.pieces[j]))
  {
    FirstSendFails(k, l, out, outcomes);
    hide Send, Ready, Work, Unencrypted, PieceOf;
    var line := Send(k, l, out, FlightStart, LARGE_MTU, outcomes).line;
    LargeIsReady(k, l, line, out);
    SecondSendSucceeds(k, line, out, later);
  }
}
