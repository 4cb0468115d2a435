/**
 * End-to-end delivery of DTLS handshake messages: whatever the network does to an honest sender's
 * fragments, the receiver gets the sender's messages, in order, each once, byte for byte.
 */
module Delivery {
  import opened Wire
  import opened Reassembly
  import opened HandshakeReader

  /** A message as sent; its position in the list of sent messages is its number. */
  datatype Sent = Sent(typ: byte, body: seq<byte>)

  /** f carries a piece of one of the sent messages. */
  ghost predicate Honest(sent: seq<Sent>, f: Fragment) {
    && f.seqNo < |sent|
    && var m := sent[f.seqNo];
       && f.typ == m.typ && f.msgLen == |m.body|
       && f.offset + |f.body| <= |m.body|
       && f.body == m.body[f.offset..f.offset + |f.body|]
  }

  ghost predicate AllHonest(sent: seq<Sent>, frags: seq<Fragment>) {
    forall i :: 0 <= i < |frags| ==> Honest(sent, frags[i])
  }

  /** Fewer than 2^16 messages, each short enough for its header. */
  ghost predicate Sendable(sent: seq<Sent>) {
    |sent| < 0x10000 && forall i :: 0 <= i < |sent| ==> |sent[i].body| < 0x100_0000
  }

  function SerializeAll(frags: seq<Fragment>): seq<byte> {
    if frags == [] then [] else SerializeFragment(frags[0]) + SerializeAll(frags[1..])
  }

  /** A handshake record arrives, or the handshake takes the next message if there is one. */
  datatype Event = Arrive(frags: seq<Fragment>, limits: Limits) | Take

  datatype Reception = Reception(q: Queue, delivered: seq<Message>, alive: bool)

  const Start := Reception(EmptyQueue, [], true)

  function Step(r: Reception, e: Event): (r': Reception)
    requires |r.q.slots| == MAX_FLIGHT
    ensures |r'.q.slots| == MAX_FLIGHT
  {
    if !r.alive then r
    else
      match e
      case Arrive(frags, limits) =>
        var (q, ok) := Process(r.q, SerializeAll(frags), limits);
        r.(q := q, alive := ok)
      case Take =>
        if !CanGet(r.q) then r
        else
          var p := r.q.slots[r.q.readSeq % MAX_FLIGHT].value;
          r.(q := Advance(r.q), delivered := r.delivered + [Message(p.typ, r.q.readSeq, Body(p))])
  }

  ghost function After(run: seq<Event>): (r: Reception)
    ensures |r.q.slots| == MAX_FLIGHT
  {
    if run == [] then Start else Step(After(run[..|run| - 1]), run[|run| - 1])
  }

  /** Any loss, duplication, reordering and re-fragmentation of what was sent. */
  ghost predicate HonestRun(sent: seq<Sent>, run: seq<Event>) {
    forall i :: 0 <= i < |run| && run[i].Arrive? ==> AllHonest(sent, run[i].frags)
  }

  // ----- one record

  function ProcessFragments(q: Queue, frags: seq<Fragment>, limits: Limits): (r: (Queue, bool))
    requires |q.slots| == MAX_FLIGHT
    ensures |r.0.slots| == MAX_FLIGHT
    decreases |frags|
  {
    if frags == [] then (q, true)
    else
      match Accept(q, frags[0], limits)
      case None => (q, false)
      case Some(q') => ProcessFragments(q', frags[1..], limits)
  }

  lemma {:induction false} ProcessSerialized(q: Queue, frags: seq<Fragment>, limits: Limits)
    requires |q.slots| == MAX_FLIGHT && forall i :: 0 <= i < |frags| ==> Encodable(frags[i])
    ensures Process(q, SerializeAll(frags), limits) == ProcessFragments(q, frags, limits)
    decreases |frags|
  {
    if frags != [] {
      ParseSerialized(frags[0], SerializeAll(frags[1..]));
      if Accept(q, frags[0], limits).Some? {
        ProcessSerialized(Accept(q, frags[0], limits).value, frags[1..], limits);
      }
    }
  }

  // ----- the receiver holds only bytes that were sent

  ghost predicate SlotHonest(sent: seq<Sent>, slot: Option<Partial>) {
    slot.Some? ==>
      && slot.value.seqNo < |sent|
      && var m := sent[slot.value.seqNo];
         && slot.value.typ == m.typ && |slot.value.content| == |m.body|
         && forall k :: 0 <= k < |m.body| && slot.value.content[k].Some? ==> slot.value.content[k].value == m.body[k]
  }

  ghost predicate QueueHonest(sent: seq<Sent>, q: Queue) {
    && QueueOk(q)
    && forall i :: 0 <= i < MAX_FLIGHT ==> SlotHonest(sent, q.slots[i])
  }

  lemma AcceptKeepsHonest(sent: seq<Sent>, q: Queue, f: Fragment, limits: Limits)
    requires Sendable(sent) && QueueHonest(sent, q) && Honest(sent, f) && Accept(q, f, limits).Some?
    ensures QueueHonest(sent, Accept(q, f, limits).value)
    ensures Accept(q, f, limits).value.readSeq == q.readSeq
  {
    AcceptKeepsQueueOk(q, f, limits);
    var idx := f.seqNo % MAX_FLIGHT;
    assert SlotHonest(sent, q.slots[idx]) && SlotOk(q.readSeq, idx, q.slots[idx]);
  }

  /**
   * A fragment of an honest sender ends the connection in exactly two cases: it lies one whole flight
   * past the read position, or the encrypted epoch has begun and it is not of the next message.
   */
  lemma HonestFragmentFailsIff(sent: seq<Sent>, q: Queue, f: Fragment, limits: Limits)
    requires Sendable(sent) && QueueHonest(sent, q) && Honest(sent, f) && f.msgLen <= limits.maxLen
    ensures Accept(q, f, limits).None? <==>
            (limits.encrypted && f.seqNo != q.readSeq) || f.seqNo == q.readSeq + MAX_FLIGHT
  {
    var idx := f.seqNo % MAX_FLIGHT;
    assert SlotHonest(sent, q.slots[idx]) && SlotOk(q.readSeq, idx, q.slots[idx]);
  }

  lemma {:induction false} RecordKeepsHonest(sent: seq<Sent>, q: Queue, frags: seq<Fragment>, limits: Limits)
    requires Sendable(sent) && QueueHonest(sent, q) && AllHonest(sent, frags)
    ensures var q' := ProcessFragments(q, frags, limits).0;
            QueueHonest(sent, q') && q'.readSeq == q.readSeq
    decreases |frags|
  {
    if frags != [] && Accept(q, frags[0], limits).Some? {
      AcceptKeepsHonest(sent, q, frags[0], limits);
      RecordKeepsHonest(sent, Accept(q, frags[0], limits).value, frags[1..], limits);
    }
  }

  lemma HonestIsEncodable(sent: seq<Sent>, frags: seq<Fragment>)
    requires Sendable(sent) && AllHonest(sent, frags)
    ensures forall i :: 0 <= i < |frags| ==> Encodable(frags[i])
  {
    forall i | 0 <= i < |frags|
      ensures Encodable(frags[i])
    {
      assert Honest(sent, frags[i]);
    }
  }

  // ----- delivery

  /** Exactly the first readSeq messages have been delivered. */
  ghost predicate DeliveredPrefix(sent: seq<Sent>, r: Reception) {
    && QueueHonest(sent, r.q)
    && r.q.readSeq == |r.delivered| <= |sent|
    && forall i :: 0 <= i < |r.delivered| ==> r.delivered[i] == Message(sent[i].typ, i, sent[i].body)
  }

  lemma TakeKeepsPrefix(sent: seq<Sent>, r: Reception)
    requires Sendable(sent) && DeliveredPrefix(sent, r)
    ensures DeliveredPrefix(sent, Step(r, Take))
  {
    if r.alive && CanGet(r.q) {
      var n := r.q.readSeq;
      var idx := n % MAX_FLIGHT;
      var p := r.q.slots[idx].value;
      assert SlotHonest(sent, r.q.slots[idx]) && SlotOk(n, idx, r.q.slots[idx]);
      SameSlotSameNumber(n, p.seqNo, n);
      assert Body(p) == sent[n].body;
      AdvanceKeepsQueueOk(r.q);
      var q' := Advance(r.q);
      forall i | 0 <= i < MAX_FLIGHT
        ensures SlotHonest(sent, q'.slots[i])
      {
        assert SlotHonest(sent, r.q.slots[i]);
      }
    }
  }

  /** The messages delivered are a prefix of those sent, in order, each exactly once. */
  lemma {:induction false} DeliversPrefixOfSent(sent: seq<Sent>, run: seq<Event>)
    requires Sendable(sent) && HonestRun(sent, run)
    ensures DeliveredPrefix(sent, After(run))
  {
    if run != [] {
      var before, e := run[..|run| - 1], run[|run| - 1];
      DeliversPrefixOfSent(sent, before);
      var r := After(before);
      match e
      case Arrive(frags, limits) =>
        if r.alive {
          HonestIsEncodable(sent, frags);
          ProcessSerialized(r.q, frags, limits);
          RecordKeepsHonest(sent, r.q, frags, limits);
        }
      case Take => TakeKeepsPrefix(sent, r);
    }
  }

  // ----- nothing that arrived in the window is lost

  predicate InWindow(readSeq: nat, s: nat) {
    readSeq <= s < readSeq + MAX_FLIGHT
  }

  predicate Covers(f: Fragment, s: nat, k: nat) {
    f.seqNo == s && f.offset <= k < f.offset + |f.body|
  }

  predicate Brings(frags: seq<Fragment>, s: nat, k: nat) {
    exists i :: 0 <= i < |frags| && Covers(frags[i], s, k)
  }

  predicate Mentions(frags: seq<Fragment>, s: nat) {
    exists i :: 0 <= i < |frags| && frags[i].seqNo == s
  }

  /** The queue has a slot for message s. */
  predicate HasSlot(q: Queue, s: nat)
    requires |q.slots| == MAX_FLIGHT
  {
    var slot := q.slots[s % MAX_FLIGHT];
    slot.Some? && slot.value.seqNo == s
  }

  /** The queue holds byte k of message s. */
  predicate HasByte(q: Queue, s: nat, k: nat)
    requires |q.slots| == MAX_FLIGHT
  {
    HasSlot(q, s) &&
    var content := q.slots[s % MAX_FLIGHT].value.content;
    k < |content| && content[k].Some?
  }

  lemma AcceptAddsCovered(sent: seq<Sent>, q: Queue, f: Fragment, limits: Limits, s: nat, k: nat)
    requires Sendable(sent) && QueueHonest(sent, q) && Honest(sent, f) && Accept(q, f, limits).Some?
    requires InWindow(q.readSeq, s)
    ensures var q' := Accept(q, f, limits).value;
            && (HasSlot(q', s) <==> HasSlot(q, s) || f.seqNo == s)
            && (HasByte(q', s, k) <==> HasByte(q, s, k) || Covers(f, s, k))
  {
    var idx := f.seqNo % MAX_FLIGHT;
    assert SlotHonest(sent, q.slots[idx]) && SlotOk(q.readSeq, idx, q.slots[idx]);
    if InWindow(q.readSeq, f.seqNo) && q.slots[idx].Some? {
      SameSlotSameNumber(q.readSeq, f.seqNo, q.slots[idx].value.seqNo);
    }
    if InWindow(q.readSeq, f.seqNo) && s % MAX_FLIGHT == idx {
      SameSlotSameNumber(q.readSeq, f.seqNo, s);
    }
  }

  lemma {:induction false} RecordAddsCovered(sent: seq<Sent>, q: Queue, frags: seq<Fragment>, limits: Limits, s: nat,
                                             k: nat)
    requires Sendable(sent) && QueueHonest(sent, q) && AllHonest(sent, frags) && InWindow(q.readSeq, s)
    requires ProcessFragments(q, frags, limits).1
    ensures var q' := ProcessFragments(q, frags, limits).0;
            && (HasSlot(q', s) <==> HasSlot(q, s) || Mentions(frags, s))
            && (HasByte(q', s, k) <==> HasByte(q, s, k) || Brings(frags, s, k))
    decreases |frags|
  {
    if frags != [] {
      var rest := frags[1..];
      AcceptAddsCovered(sent, q, frags[0], limits, s, k);
      AcceptKeepsHonest(sent, q, frags[0], limits);
      RecordAddsCovered(sent, Accept(q, frags[0], limits).value, rest, limits, s, k);
      assert Mentions(frags, s) <==> frags[0].seqNo == s || Mentions(rest, s) by {
        if Mentions(rest, s) {
          var i :| 0 <= i < |rest| && rest[i].seqNo == s;
          assert frags[i + 1].seqNo == s;
        }
      }
      assert Brings(frags, s, k) <==> Covers(frags[0], s, k) || Brings(rest, s, k) by {
        if Brings(rest, s, k) {
          var i :| 0 <= i < |rest| && Covers(rest[i], s, k);
          assert Covers(frags[i + 1], s, k);
        }
      }
    }
  }

  /** Some record that arrived while s was in the window brought byte k of message s. */
  ghost predicate Received(run: seq<Event>, s: nat, k: nat) {
    exists j :: 0 <= j < |run| && ReceivedAt(run, j, s, k)
  }

  ghost predicate ReceivedAt(run: seq<Event>, j: nat, s: nat, k: nat)
    requires j < |run|
  {
    run[j].Arrive? && InWindow(After(run[..j]).q.readSeq, s) && Brings(run[j].frags, s, k)
  }

  /** Some record that arrived while s was in the window had a fragment of message s. */
  ghost predicate Seen(run: seq<Event>, s: nat) {
    exists j :: 0 <= j < |run| && SeenAt(run, j, s)
  }

  ghost predicate SeenAt(run: seq<Event>, j: nat, s: nat)
    requires j < |run|
  {
    run[j].Arrive? && InWindow(After(run[..j]).q.readSeq, s) && Mentions(run[j].frags, s)
  }

  lemma ReceivedExtends(run: seq<Event>, s: nat, k: nat)
    requires run != []
    ensures var before := run[..|run| - 1];
            && (Received(run, s, k) <==> Received(before, s, k) || ReceivedAt(run, |run| - 1, s, k))
            && (Seen(run, s) <==> Seen(before, s) || SeenAt(run, |run| - 1, s))
  {
    var before := run[..|run| - 1];
    forall j | 0 <= j < |before|
      ensures ReceivedAt(run, j, s, k) <==> ReceivedAt(before, j, s, k)
      ensures SeenAt(run, j, s) <==> SeenAt(before, j, s)
    {
      assert before[..j] == run[..j];
    }
  }

  /** The read position only moves forward, so nothing a whole flight ahead has been received. */
  lemma {:induction false} NothingAheadOfWindow(sent: seq<Sent>, run: seq<Event>, s: nat, k: nat)
    requires Sendable(sent) && HonestRun(sent, run) && s >= After(run).q.readSeq + MAX_FLIGHT
    ensures !Received(run, s, k) && !Seen(run, s)
  {
    if run != [] {
      var before := run[..|run| - 1];
      DeliversPrefixOfSent(sent, before);
      DeliversPrefixOfSent(sent, run);
      ReceivedExtends(run, s, k);
      ReadSeqGrows(sent, run);
      NothingAheadOfWindow(sent, before, s, k);
    }
  }

  lemma ReadSeqGrows(sent: seq<Sent>, run: seq<Event>)
    requires Sendable(sent) && HonestRun(sent, run) && run != []
    ensures After(run[..|run| - 1]).q.readSeq <= After(run).q.readSeq
  {
    DeliversPrefixOfSent(sent, run);
    DeliversPrefixOfSent(sent, run[..|run| - 1]);
    assert |After(run[..|run| - 1]).delivered| <= |After(run).delivered|;
  }

  /** Taking a message empties its slot, which then stands for the number entering the window. */
  lemma TakeKeepsOthers(sent: seq<Sent>, r: Reception, s: nat, k: nat)
    requires Sendable(sent) && DeliveredPrefix(sent, r) && r.alive
    requires InWindow(Step(r, Take).q.readSeq, s)
    ensures !InWindow(r.q.readSeq, s) ==> s >= r.q.readSeq + MAX_FLIGHT
    ensures var q' := Step(r, Take).q;
            && (HasSlot(q', s) <==> InWindow(r.q.readSeq, s) && HasSlot(r.q, s))
            && (HasByte(q', s, k) <==> InWindow(r.q.readSeq, s) && HasByte(r.q, s, k))
  {
    TakeKeepsPrefix(sent, r);
    if CanGet(r.q) {
      var n := r.q.readSeq;
      assert n + 1 < 0x10000 ==> Step(r, Take).q.readSeq == n + 1;
      assert s % MAX_FLIGHT == n % MAX_FLIGHT <==> s == n + MAX_FLIGHT;
    }
  }

  /** While the connection lives, the queue holds exactly the bytes received inside the window. */
  lemma {:induction false} HoldsExactlyWhatArrived(sent: seq<Sent>, run: seq<Event>, s: nat, k: nat)
    requires Sendable(sent) && HonestRun(sent, run) && After(run).alive
    requires InWindow(After(run).q.readSeq, s)
    ensures HasSlot(After(run).q, s) <==> Seen(run, s)
    ensures HasByte(After(run).q, s, k) <==> Received(run, s, k)
  {
    if run != [] {
      var before, e := run[..|run| - 1], run[|run| - 1];
      var r := After(before);
      hide HasSlot, HasByte, InWindow, CanGet, Advance, QueueHonest, Process, ProcessFragments;
      hide AllHonest, Sendable, Received, Seen;
      DeliversPrefixOfSent(sent, before);
      ReceivedExtends(run, s, k);
      match e
      case Arrive(frags, limits) =>
        HonestIsEncodable(sent, frags);
        ProcessSerialized(r.q, frags, limits);
        RecordKeepsHonest(sent, r.q, frags, limits);
        HoldsExactlyWhatArrived(sent, before, s, k);
        RecordAddsCovered(sent, r.q, frags, limits, s, k);
      case Take =>
        TakeKeepsOthers(sent, r, s, k);
        if InWindow(r.q.readSeq, s) {
          HoldsExactlyWhatArrived(sent, before, s, k);
        } else {
          NothingAheadOfWindow(sent, before, s, k);
        }
    }
  }

  /** The next message can be taken exactly when a fragment of it and every byte of it have arrived. */
  lemma TakesOnceAllArrived(sent: seq<Sent>, run: seq<Event>)
    requires Sendable(sent) && HonestRun(sent, run) && After(run).alive && |After(run).delivered| < |sent|
    ensures var n := |After(run).delivered|;
            CanGet(After(run).q) <==>
            (Seen(run, n) && forall k: nat :: k < |sent[n].body| ==> Received(run, n, k))
  {
    DeliversPrefixOfSent(sent, run);
    var q := After(run).q;
    var n := q.readSeq;
    assert SlotHonest(sent, q.slots[n % MAX_FLIGHT]) && SlotOk(n, n % MAX_FLIGHT, q.slots[n % MAX_FLIGHT]);
    if q.slots[n % MAX_FLIGHT].Some? {
      SameSlotSameNumber(n, q.slots[n % MAX_FLIGHT].value.seqNo, n);
    }
    HoldsExactlyWhatArrived(sent, run, n, 0);
    forall k: nat | k < |sent[n].body|
      ensures HasByte(q, n, k) <==> Received(run, n, k)
    {
      HoldsExactlyWhatArrived(sent, run, n, k);
    }
    if HasSlot(q, n) {
      var p := q.slots[n % MAX_FLIGHT].value;
      forall k: nat | k < |sent[n].body|
        ensures Received(run, n, k) <==> p.content[k].Some?
      {
        assert HasByte(q, n, k) <==> Received(run, n, k);
      }
      assert p.Complete() <==> forall k: nat :: k < |sent[n].body| ==> Received(run, n, k);
    }
  }
}
