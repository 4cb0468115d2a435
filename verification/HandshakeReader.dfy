/** Receiving DTLS handshake messages: the queue of incoming messages (RFC 6347, section 4.2.3). */
module HandshakeReader {
  import opened Wire
  import opened Reassembly

  const MAX_FLIGHT: nat := 7
  const RT_CHANGE_CIPHER_SPEC: byte := 20
  const RT_HANDSHAKE: byte := 22
  const RT_APPLICATION_DATA: byte := 23
  const MT_CCS: byte := 1

  // ----- fragments on the wire

  function SerializeFragment(f: Fragment): (s: seq<byte>)
    ensures |s| == HM_HEADER_LENGTH + |f.body|
  {
    FragmentHeader(f.typ, f.msgLen, f.seqNo, f.offset, |f.body|) + f.body
  }

  /** The first fragment in s and what follows it; None if s is too short. */
  function ParseFragment(s: seq<byte>): (r: Option<(Fragment, seq<byte>)>)
    ensures r.Some? ==> |r.value.1| < |s| && r.value.0.seqNo < 0x10000
  {
    assert Pow256(2) == 0x10000;
    if |s| < HM_HEADER_LENGTH then None
    else
      var fragLen := BigEndian(s[9..12]);
      if |s| < HM_HEADER_LENGTH + fragLen then None
      else
        Some((Fragment(s[0], BigEndian(s[1..4]), BigEndian(s[4..6]), BigEndian(s[6..9]), s[12..12 + fragLen]),
              s[12 + fragLen..]))
  }

  /** The fragment's fields fit their places in the header. */
  predicate Encodable(f: Fragment) {
    f.msgLen < 0x100_0000 && f.seqNo < 0x10000 && f.offset < 0x100_0000 && |f.body| < 0x100_0000
  }

  lemma HeaderParts(typ: byte, msgLen: nat, seqNo: nat, offset: nat, fragLen: nat)
    ensures var h := FragmentHeader(typ, msgLen, seqNo, offset, fragLen);
            && |h| == HM_HEADER_LENGTH && h[0] == typ && h[1..4] == ToBigEndian(msgLen, 3)
            && h[4..6] == ToBigEndian(seqNo, 2) && h[6..9] == ToBigEndian(offset, 3)
            && h[9..12] == ToBigEndian(fragLen, 3)
  {
    hide ToBigEndian;
  }

  lemma Slice(s: seq<byte>, t: seq<byte>, lo: nat, hi: nat)
    requires lo <= hi <= |s|
    ensures (s + t)[lo..hi] == s[lo..hi]
  {
  }

  lemma ParseSerialized(f: Fragment, rest: seq<byte>)
    requires Encodable(f)
    ensures ParseFragment(SerializeFragment(f) + rest) == Some((f, rest))
  {
    hide ToBigEndian, BigEndian;
    var h, tail := FragmentHeader(f.typ, f.msgLen, f.seqNo, f.offset, |f.body|), f.body + rest;
    var s := SerializeFragment(f) + rest;
    assert Pow256(3) == 0x100_0000 && Pow256(2) == 0x10000;
    BigEndianRoundTrip(f.msgLen, 3);
    BigEndianRoundTrip(f.seqNo, 2);
    BigEndianRoundTrip(f.offset, 3);
    BigEndianRoundTrip(|f.body|, 3);
    HeaderParts(f.typ, f.msgLen, f.seqNo, f.offset, |f.body|);
    hide FragmentHeader, Pow256;
    assert s == h + tail;
    Slice(h, tail, 1, 4);
    Slice(h, tail, 4, 6);
    Slice(h, tail, 6, 9);
    Slice(h, tail, 9, 12);
    assert s[12..12 + |f.body|] == f.body;
    assert s[12 + |f.body|..] == rest;
  }

  // ----- the queue

  /** The message readSeq is next; slot i holds a message whose number is i modulo the flight size. */
  datatype Queue = Queue(readSeq: nat, slots: seq<Option<Partial>>)

  const EmptyQueue := Queue(0, [None, None, None, None, None, None, None])

  ghost predicate SlotOk(readSeq: nat, i: nat, slot: Option<Partial>) {
    slot.Some? ==>
      && slot.value.seqNo % MAX_FLIGHT == i
      && readSeq <= slot.value.seqNo < readSeq + MAX_FLIGHT
      && slot.value.seqNo < 0x10000
  }

  ghost predicate QueueOk(q: Queue) {
    && |q.slots| == MAX_FLIGHT && q.readSeq < 0x10000
    && forall i :: 0 <= i < MAX_FLIGHT ==> SlotOk(q.readSeq, i, q.slots[i])
  }

  lemma SlotOkIs(readSeq: nat, i: nat, p: Partial, p': Partial)
    requires p'.seqNo == p.seqNo
    ensures SlotOk(readSeq, i, Some(p')) <==> SlotOk(readSeq, i, Some(p))
  {
  }

  /** What the reader is willing to buffer: longest message body, and whether epoch 1 has begun. */
  datatype Limits = Limits(maxLen: nat, encrypted: bool)

  /** The message slot for f, created if f is its first fragment; None if f does not match it. */
  function Lookup(q: Queue, f: Fragment): Option<Partial>
    requires |q.slots| == MAX_FLIGHT
  {
    match q.slots[f.seqNo % MAX_FLIGHT]
    case None => Some(Partial(f.typ, f.seqNo, Missing(f.msgLen)))
    case Some(p) => if p.typ != f.typ || |p.content| != f.msgLen then None else Some(p)
  }

  /** The queue after one fragment; None if the connection fails on it. */
  function Accept(q: Queue, f: Fragment, limits: Limits): (r: Option<Queue>)
    requires |q.slots| == MAX_FLIGHT
    ensures r.Some? ==> |r.value.slots| == MAX_FLIGHT
  {
    if f.offset > f.msgLen || f.offset + |f.body| > f.msgLen || f.msgLen > limits.maxLen then None
    else if limits.encrypted && f.seqNo != q.readSeq then None
    else if f.seqNo < q.readSeq || f.seqNo > q.readSeq + MAX_FLIGHT then Some(q)
    else if f.seqNo - q.readSeq >= MAX_FLIGHT then None
    else
      match Lookup(q, f)
      case None => None
      case Some(p) =>
        var p' := if p.Complete() then p else p.(content := Overwrite(p.content, f.offset, f.body));
        Some(q.(slots := q.slots[f.seqNo % MAX_FLIGHT := Some(p')]))
  }

  /** The queue after a handshake record; the flag is false if the connection fails part way through. */
  function Process(q: Queue, record: seq<byte>, limits: Limits): (r: (Queue, bool))
    requires |q.slots| == MAX_FLIGHT
    ensures |r.0.slots| == MAX_FLIGHT
    decreases |record|
  {
    if record == [] then (q, true)
    else
      match ParseFragment(record)
      case None => (q, false)
      case Some((f, rest)) =>
        match Accept(q, f, limits)
        case None => (q, false)
        case Some(q') => Process(q', rest, limits)
  }

  predicate CanGet(q: Queue)
    requires |q.slots| == MAX_FLIGHT
  {
    var slot := q.slots[q.readSeq % MAX_FLIGHT];
    slot.Some? && slot.value.Complete()
  }

  /** The body of a complete message. */
  function Body(p: Partial): (s: seq<byte>)
    requires p.Complete()
    ensures |s| == |p.content|
  {
    seq(|p.content|, k requires 0 <= k < |p.content| => p.content[k].value)
  }

  function Advance(q: Queue): Queue
    requires |q.slots| == MAX_FLIGHT
  {
    Queue((q.readSeq + 1) % 0x10000, q.slots[q.readSeq % MAX_FLIGHT := None])
  }

  lemma AcceptKeepsQueueOk(q: Queue, f: Fragment, limits: Limits)
    requires QueueOk(q) && f.seqNo < 0x10000 && Accept(q, f, limits).Some?
    ensures QueueOk(Accept(q, f, limits).value)
  {
  }

  /** Two numbers in one window that share a slot are the same, so the slot's number is the fragment's. */
  lemma SameSlotSameNumber(readSeq: nat, m: nat, n: nat)
    requires readSeq <= m < readSeq + MAX_FLIGHT && readSeq <= n < readSeq + MAX_FLIGHT
    requires m % MAX_FLIGHT == n % MAX_FLIGHT
    ensures m == n
  {
  }

  lemma {:induction false} ProcessKeepsQueueOk(q: Queue, record: seq<byte>, limits: Limits)
    requires QueueOk(q)
    ensures QueueOk(Process(q, record, limits).0)
    decreases |record|
  {
    if record != [] && ParseFragment(record).Some? {
      var (f, rest) := ParseFragment(record).value;
      if Accept(q, f, limits).Some? {
        AcceptKeepsQueueOk(q, f, limits);
        ProcessKeepsQueueOk(Accept(q, f, limits).value, rest, limits);
      }
    }
  }

  lemma AdvanceKeepsQueueOk(q: Queue)
    requires QueueOk(q) && CanGet(q)
    ensures QueueOk(Advance(q))
  {
  }

  // ----- the reader

  /** h and the buffers it owns. */
  ghost function Footprint(h: HmFragment): set<object>
    reads h
  {
    {h, h.data} + if h.reassembly == null then {} else {h.reassembly}
  }

  datatype OpenResult = OpenSuccess | OpenDiscard | OpenError

  datatype Message = Message(typ: byte, seqNo: nat, body: seq<byte>)

  class Reader {
    var readSeq: nat
    const incoming: array<HmFragment?>
    var hasMessage: bool
    var hasChangeCipherSpec: bool
    ghost var Repr: set<object>

    ghost predicate Valid()
      reads this, Repr
      ensures Valid() ==> this in Repr && incoming in Repr && incoming.Length == MAX_FLIGHT
    {
      && this in Repr && incoming in Repr && incoming.Length == MAX_FLIGHT
      && readSeq < 0x10000
      && (forall i :: 0 <= i < MAX_FLIGHT && incoming[i] != null ==>
            && incoming[i] in Repr && Footprint(incoming[i]) <= Repr && incoming[i].Valid()
            && SlotOk(readSeq, i, Some(incoming[i].Content())))
      && (forall i, j :: 0 <= i < j < MAX_FLIGHT && incoming[i] != null && incoming[j] != null ==>
            Footprint(incoming[i]) !! Footprint(incoming[j]))
    }

    ghost function View(): (q: Queue)
      requires Valid()
      reads this, Repr
      ensures QueueOk(q) && q.readSeq == readSeq
      ensures forall i :: 0 <= i < MAX_FLIGHT ==>
                q.slots[i] == if incoming[i] == null then None else Some(incoming[i].Content())
    {
      Queue(readSeq, seq(MAX_FLIGHT, i requires 0 <= i < MAX_FLIGHT reads this, Repr requires Valid() =>
        if incoming[i] == null then None else Some(incoming[i].Content())))
    }

    constructor ()
      ensures Valid() && fresh(Repr) && View() == EmptyQueue
      ensures !hasMessage && !hasChangeCipherSpec
    {
      readSeq, hasMessage, hasChangeCipherSpec := 0, false, false;
      incoming := new HmFragment?[MAX_FLIGHT](_ => null);
      new;
      Repr := {this, incoming};
    }

    /** The slot for fragment f, newly made if need be; null if the connection fails on f. */
    method GetIncomingMessage(f: Fragment) returns (frag: HmFragment?)
      requires Valid() && f.seqNo < 0x10000
      modifies this`Repr, incoming
      ensures Valid() && fresh(Repr - old(Repr)) && old(Repr) <= Repr
      ensures frag == null <==> !(readSeq <= f.seqNo < readSeq + MAX_FLIGHT) || Lookup(old(View()), f).None?
      ensures frag == null ==> View() == old(View())
      ensures frag != null ==>
                && incoming[f.seqNo % MAX_FLIGHT] == frag
                && Lookup(old(View()), f) == Some(frag.Content())
                && View() == old(View()).(slots := old(View()).slots[f.seqNo % MAX_FLIGHT := Some(frag.Content())])
    {
      hide HmFragment.Content, MessageHeader, NoStrayBits, HasAll, Missing;
      hide HmFragment.Valid;
      if f.seqNo < readSeq || f.seqNo - readSeq >= MAX_FLIGHT {
        return null;
      }
      var idx := f.seqNo % MAX_FLIGHT;
      frag := incoming[idx];
      if frag != null {
        SameSlotSameNumber(readSeq, frag.seqNo, f.seqNo);
        assert frag.seqNo == f.seqNo;
        if frag.typ != f.typ || frag.msgLen != f.msgLen {
          return null;
        }
        return frag;
      }
      frag := FreshSlot(f);
    }

    /** A message with none of its bytes, in the slot of fragment f. */
    method FreshSlot(f: Fragment) returns (frag: HmFragment)
      requires Valid() && readSeq <= f.seqNo < readSeq + MAX_FLIGHT && f.seqNo < 0x10000
      requires incoming[f.seqNo % MAX_FLIGHT] == null
      modifies this`Repr, incoming
      ensures Valid() && fresh(Repr - old(Repr)) && old(Repr) <= Repr
      ensures incoming[f.seqNo % MAX_FLIGHT] == frag
      ensures frag.Content() == Partial(f.typ, f.seqNo, Missing(f.msgLen))
      ensures View() == old(View()).(slots := old(View()).slots[f.seqNo % MAX_FLIGHT := Some(frag.Content())])
    {
      hide HmFragment.Content, HmFragment.Valid, Missing;
      frag := new HmFragment(f.typ, f.msgLen, f.seqNo);
      incoming[f.seqNo % MAX_FLIGHT] := frag;
      Repr := Repr + Footprint(frag);
    }

    /** One pass of the loop over a record's fragments; ok is false if the connection fails. */
    method HandleFragment(f: Fragment, limits: Limits) returns (ok: bool)
      requires Valid() && f.seqNo < 0x10000
      modifies Repr
      ensures Valid() && fresh(Repr - old(Repr)) && old(Repr) <= Repr
      ensures hasMessage == old(hasMessage) && hasChangeCipherSpec == old(hasChangeCipherSpec)
      ensures ok <==> Accept(old(View()), f, limits).Some?
      ensures View() == if ok then Accept(old(View()), f, limits).value else old(View())
    {
      hide HmFragment.Valid, HmFragment.Content, Missing, Overwrite, Reader.View;
      if f.offset > f.msgLen || f.offset + |f.body| > f.msgLen || f.msgLen > limits.maxLen {
        return false;
      }
      if limits.encrypted && f.seqNo != readSeq {
        return false;
      }
      if f.seqNo < readSeq || f.seqNo > readSeq + MAX_FLIGHT {
        return true;
      }
      var frag := GetIncomingMessage(f);
      if frag == null {
        return false;
      }
      ghost var p := frag.Content();
      frag.CompleteIffNoMask();
      if frag.reassembly != null {
        FillSlot(frag, f.seqNo % MAX_FLIGHT, f.offset, f.body);
      }
      return true;
    }

    /** Adds a body to the message in slot idx, leaving the other slots alone. */
    method FillSlot(frag: HmFragment, idx: nat, offset: nat, body: seq<byte>)
      requires Valid() && idx < MAX_FLIGHT && incoming[idx] == frag
      requires frag.reassembly != null && offset + |body| <= frag.msgLen
      modifies Footprint(frag)
      ensures Valid() && Repr == old(Repr)
      ensures |old(View()).slots| == MAX_FLIGHT
      ensures var p := old(frag.Content());
              View() == old(View()).(slots := old(View()).slots[idx :=
                          Some(p.(content := Overwrite(p.content, offset, body)))])
    {
      hide HmFragment.Valid, HmFragment.Content, Overwrite, QueueOk, SlotOk;
      ghost var q, p := View(), frag.Content();
      frag.AddBody(offset, body);
      SlotOkIs(readSeq, idx, p, frag.Content());
      assert Valid();
      assert forall i :: 0 <= i < MAX_FLIGHT && i != idx ==> View().slots[i] == q.slots[i];
      assert View().slots == q.slots[idx := Some(frag.Content())];
    }

    /** Processes a record that has just been decrypted. */
    method OpenHandshake(typ: byte, record: seq<byte>, nullCipher: bool, limits: Limits) returns (result: OpenResult)
      requires Valid()
      modifies Repr
      ensures Valid() && fresh(Repr - old(Repr)) && old(Repr) <= Repr
      ensures hasMessage == old(hasMessage)
      ensures typ == RT_APPLICATION_DATA ==> result == if nullCipher then OpenError else OpenDiscard
      ensures typ == RT_CHANGE_CIPHER_SPEC ==>
                result == if nullCipher && record == [MT_CCS] then OpenSuccess else OpenError
      ensures typ == RT_HANDSHAKE ==>
                var (q, ok) := Process(old(View()), record, limits);
                View() == q && result == if ok then OpenSuccess else OpenError
      ensures typ != RT_HANDSHAKE ==> View() == old(View())
      ensures typ !in {RT_APPLICATION_DATA, RT_CHANGE_CIPHER_SPEC, RT_HANDSHAKE} ==> result == OpenError
      ensures hasChangeCipherSpec ==
              (old(hasChangeCipherSpec) || (typ == RT_CHANGE_CIPHER_SPEC && result == OpenSuccess))
    {
      hide Lookup, MessageHeader;
      if typ == RT_APPLICATION_DATA {
        return if nullCipher then OpenError else OpenDiscard;
      }
      if typ == RT_CHANGE_CIPHER_SPEC {
        if !nullCipher || |record| != 1 || record[0] != MT_CCS {
          return OpenError;
        }
        hasChangeCipherSpec := true;
        return OpenSuccess;
      }
      if typ != RT_HANDSHAKE {
        return OpenError;
      }
      var rest := record;
      while rest != []
        invariant Valid() && fresh(Repr - old(Repr)) && old(Repr) <= Repr
        invariant hasMessage == old(hasMessage) && hasChangeCipherSpec == old(hasChangeCipherSpec)
        invariant Process(View(), rest, limits) == Process(old(View()), record, limits)
        decreases |rest|
      {
        var parsed := ParseFragment(rest);
        if parsed.None? {
          return OpenError;
        }
        var (f, tail) := parsed.value;
        var ok := HandleFragment(f, limits);
        if !ok {
          return OpenError;
        }
        rest := tail;
      }
      return OpenSuccess;
    }

    predicate IsCurrentMessageComplete()
      requires Valid()
      reads this, Repr
    {
      var frag := incoming[readSeq % MAX_FLIGHT];
      frag != null && frag.reassembly == null
    }

    /** The next message, if all of it has arrived; raw is header and body as they will be hashed. */
    method GetMessage() returns (out: Option<Message>, raw: seq<byte>)
      requires Valid()
      modifies this`hasMessage
      ensures Valid() && View() == old(View())
      ensures out.Some? <==> CanGet(View())
      ensures out.Some? ==>
                var p := View().slots[readSeq % MAX_FLIGHT].value;
                && hasMessage
                && out.value == Message(p.typ, readSeq, Body(p))
                && raw == MessageHeader(p.typ, |p.content|, readSeq) + Body(p)
      ensures out.None? ==> hasMessage == old(hasMessage)
    {
      hide MessageHeader;
      var idx := readSeq % MAX_FLIGHT;
      if incoming[idx] != null {
        incoming[idx].CompleteIffNoMask();
      }
      if !IsCurrentMessageComplete() {
        return None, [];
      }
      var frag := incoming[idx];
      SameSlotSameNumber(readSeq, frag.seqNo, readSeq);
      assert frag.data[HM_HEADER_LENGTH..] == Body(frag.Content());
      hasMessage := true;
      return Some(Message(frag.typ, readSeq, frag.data[HM_HEADER_LENGTH..])), frag.data[..];
    }

    /** Releases the current message, which must have been got. */
    method NextMessage()
      requires Valid() && hasMessage && CanGet(View())
      modifies this, incoming
      ensures Valid() && Repr == old(Repr) && View() == Advance(old(View())) && !hasMessage
      ensures hasChangeCipherSpec == old(hasChangeCipherSpec)
    {
      hide HmFragment.Valid, HmFragment.Content, Reader.View, Partial.Complete, Footprint;
      AdvanceKeepsQueueOk(View());
      ghost var q := View();
      incoming[readSeq % MAX_FLIGHT] := null;
      readSeq := (readSeq + 1) % 0x10000;
      hasMessage := false;
      assert forall i :: 0 <= i < MAX_FLIGHT ==> SlotOk(Advance(q).readSeq, i, Advance(q).slots[i]);
    }

    /** Something other than the message being processed is still buffered. */
    method HasUnprocessedHandshakeData() returns (has: bool)
      requires Valid() && (hasMessage ==> CanGet(View()))
      ensures has <==> (hasChangeCipherSpec || exists i :: 0 <= i < MAX_FLIGHT && View().slots[i].Some? &&
                                                           !(hasMessage && i == readSeq % MAX_FLIGHT))
    {
      if hasChangeCipherSpec {
        return true;
      }
      var current := readSeq % MAX_FLIGHT;
      for i := 0 to MAX_FLIGHT
        invariant forall j :: 0 <= j < i && View().slots[j].Some? ==> hasMessage && j == current
      {
        if hasMessage && i == current {
          continue;
        }
        if incoming[i] != null {
          assert View().slots[i].Some?;
          return true;
        }
      }
      return false;
    }
  }
}
