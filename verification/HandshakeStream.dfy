/** TLS handshake messages over a stream of records: splitting, reassembly, and flushing a flight. */
module HandshakeStream {
  import opened Wire
  import AppWrite

  const HEADER_LENGTH: nat := 4
  const RT_CHANGE_CIPHER_SPEC: byte := 20
  const RT_HANDSHAKE: byte := 22
  const MT_CCS: byte := 1
  const INT_MAX: nat := 0x7fff_ffff

  datatype Message = Message(typ: byte, body: seq<byte>)

  /** A message short enough for the three-byte length in its header. */
  predicate Sendable(m: Message) {
    |m.body| < 0x100_0000
  }

  function Serialize(m: Message): (s: seq<byte>)
    ensures |s| == HEADER_LENGTH + |m.body|
  {
    [m.typ] + ToBigEndian(|m.body|, 3) + m.body
  }

  function SerializeAll(ms: seq<Message>): seq<byte> {
    if ms == [] then [] else Serialize(ms[0]) + SerializeAll(ms[1..])
  }

  // ----- parsing the buffer

  /** Bytes the buffer must hold for its first message to be complete, as far as can be told. */
  function Needed(buf: seq<byte>): (n: nat)
    ensures n >= HEADER_LENGTH
  {
    if |buf| < HEADER_LENGTH then HEADER_LENGTH else HEADER_LENGTH + BigEndian(buf[1..4])
  }

  /** The first message in the buffer, once all of it is there. */
  function Parse(buf: seq<byte>): (r: Option<Message>)
    ensures r.Some? <==> |buf| >= Needed(buf)
    ensures r.Some? ==> HEADER_LENGTH + |r.value.body| == Needed(buf)
  {
    if |buf| < Needed(buf) then None else Some(Message(buf[0], buf[4..Needed(buf)]))
  }

  /** All complete messages at the front of the buffer, and what follows them. */
  function Drain(buf: seq<byte>): (r: (seq<Message>, seq<byte>))
    ensures Parse(r.1).None?
    decreases |buf|
  {
    if Parse(buf).None? then ([], buf)
    else
      var (ms, rest) := Drain(buf[Needed(buf)..]);
      ([Parse(buf).value] + ms, rest)
  }

  lemma ParseSerialized(m: Message, rest: seq<byte>)
    requires Sendable(m)
    ensures Parse(Serialize(m) + rest) == Some(m)
    ensures Needed(Serialize(m) + rest) == |Serialize(m)|
    ensures (Serialize(m) + rest)[|Serialize(m)|..] == rest
  {
    var s := Serialize(m) + rest;
    assert Pow256(3) == 0x100_0000;
    BigEndianRoundTrip(|m.body|, 3);
    assert s[1..4] == ToBigEndian(|m.body|, 3);
    assert s[4..4 + |m.body|] == m.body;
  }

  /** More bytes do not change a message that is already complete. */
  lemma ParseStable(buf: seq<byte>, more: seq<byte>)
    requires Parse(buf).Some?
    ensures Parse(buf + more) == Parse(buf) && Needed(buf + more) == Needed(buf)
    ensures (buf + more)[Needed(buf)..] == buf[Needed(buf)..] + more
  {
    assert (buf + more)[1..4] == buf[1..4];
    assert (buf + more)[4..Needed(buf)] == buf[4..Needed(buf)];
  }

  /** Draining in two steps is draining once. */
  lemma {:induction false} DrainConcat(a: seq<byte>, b: seq<byte>)
    ensures var first := Drain(a);
            var second := Drain(first.1 + b);
            Drain(a + b) == (first.0 + second.0, second.1)
    decreases |a|
  {
    if Parse(a).Some? {
      ParseStable(a, b);
      DrainConcat(a[Needed(a)..], b);
      var tail := Drain(a[Needed(a)..]);
      assert Drain(a) == ([Parse(a).value] + tail.0, tail.1);
      var second := Drain(tail.1 + b);
      assert [Parse(a).value] + (tail.0 + second.0) == [Parse(a).value] + tail.0 + second.0;
    } else {
      assert [] + Drain(a + b).0 == Drain(a + b).0;
    }
  }

  lemma {:induction false} DrainSerialized(ms: seq<Message>)
    requires forall i :: 0 <= i < |ms| ==> Sendable(ms[i])
    ensures Drain(SerializeAll(ms)) == (ms, [])
  {
    if ms != [] {
      ParseSerialized(ms[0], SerializeAll(ms[1..]));
      DrainSerialized(ms[1..]);
      assert [ms[0]] + ms[1..] == ms;
    }
  }

  // ----- the receiving loop: take every complete message, then open another record

  /** What has been received: the messages taken, the bytes buffered, and whether the connection lives. */
  datatype Reception = Reception(taken: seq<Message>, buf: seq<byte>, alive: bool)

  function Receive(records: seq<seq<byte>>, limit: nat): (r: Reception)
    ensures r.alive ==> Parse(r.buf).None?
  {
    if records == [] then Reception([], [], true)
    else
      var before := Receive(records[..|records| - 1], limit);
      if !before.alive || Needed(before.buf) > HEADER_LENGTH + limit then before.(alive := false)
      else
        var (ms, rest) := Drain(before.buf + records[|records| - 1]);
        Reception(before.taken + ms, rest, true)
  }

  /** While the connection lives, the result does not depend on where the records were cut. */
  lemma {:induction false} ReceiveIsDrain(records: seq<seq<byte>>, limit: nat)
    requires Receive(records, limit).alive
    ensures var r := Receive(records, limit); (r.taken, r.buf) == Drain(Flatten(records))
  {
    if records != [] {
      var before := records[..|records| - 1];
      ReceiveIsDrain(before, limit);
      DrainConcat(Flatten(before), records[|records| - 1]);
    }
  }

  lemma FlattenTake(records: seq<seq<byte>>, n: nat)
    requires n < |records|
    ensures records[..n + 1][..n] == records[..n]
    ensures Flatten(records[..n + 1]) == Flatten(records[..n]) + records[n]
  {
  }

  /** After n records, the message being gathered is not, so far as its header has arrived, over the limit. */
  predicate WithinLimit(records: seq<seq<byte>>, limit: nat, n: nat)
    requires n <= |records|
  {
    Needed(Drain(Flatten(records[..n])).1) <= HEADER_LENGTH + limit
  }

  ghost predicate AllWithinLimit(records: seq<seq<byte>>, limit: nat) {
    forall n :: 0 <= n < |records| ==> WithinLimit(records, limit, n)
  }

  lemma AllWithinLimitLast(records: seq<seq<byte>>, limit: nat)
    requires records != []
    ensures AllWithinLimit(records, limit) <==>
            AllWithinLimit(records[..|records| - 1], limit) && WithinLimit(records, limit, |records| - 1)
  {
    hide Drain, Needed, Flatten;
    var before := records[..|records| - 1];
    forall n | 0 <= n < |before|
      ensures WithinLimit(before, limit, n) <==> WithinLimit(records, limit, n)
    {
      assert before[..n] == records[..n];
    }
  }

  /**
   * The connection survives exactly when at each further record the unfinished message, so far as its
   * header has arrived, is not over the limit. A longer message that ends inside the record its header
   * came in is let through.
   */
  lemma {:induction false} AliveIff(records: seq<seq<byte>>, limit: nat)
    ensures Receive(records, limit).alive <==> AllWithinLimit(records, limit)
  {
    if records != [] {
      var before := records[..|records| - 1];
      AliveIff(before, limit);
      AllWithinLimitLast(records, limit);
      hide AllWithinLimit, Drain, Needed, Flatten;
      if Receive(before, limit).alive {
        ReceiveIsDrain(before, limit);
      }
    }
  }

  /** What is left of a beginning of the stream needs no more than the message it is part of. */
  lemma {:induction false} NeededOfPrefix(ms: seq<Message>, cut: nat, limit: nat)
    requires forall i :: 0 <= i < |ms| ==> Sendable(ms[i]) && |ms[i].body| <= limit
    requires cut <= |SerializeAll(ms)|
    ensures Needed(Drain(SerializeAll(ms)[..cut]).1) <= HEADER_LENGTH + limit
  {
    var s := SerializeAll(ms);
    if ms != [] {
      var first, rest := Serialize(ms[0]), SerializeAll(ms[1..]);
      if cut >= |first| {
        var tail := rest[..cut - |first|];
        assert s[..cut] == first + tail;
        ParseSerialized(ms[0], tail);
        NeededOfPrefix(ms[1..], cut - |first|, limit);
      } else {
        var part := s[..cut];
        ParseSerialized(ms[0], rest);
        assert |part| >= HEADER_LENGTH ==> part[1..4] == s[1..4];
        assert Drain(part) == ([], part);
      }
    }
  }

  /**
   * Record-boundary independence: however the serialized messages are cut into records, the loop takes
   * exactly those messages, in order, and nothing is left over.
   */
  lemma AnySplitArrives(ms: seq<Message>, records: seq<seq<byte>>, limit: nat)
    requires forall i :: 0 <= i < |ms| ==> Sendable(ms[i]) && |ms[i].body| <= limit
    requires Flatten(records) == SerializeAll(ms)
    ensures Receive(records, limit) == Reception(ms, [], true)
  {
    forall n | 0 <= n < |records|
      ensures WithinLimit(records, limit, n)
    {
      FlattenPrefix(records, n);
      NeededOfPrefix(ms, |Flatten(records[..n])|, limit);
    }
    AliveIff(records, limit);
    ReceiveIsDrain(records, limit);
    DrainSerialized(ms);
  }

  lemma {:induction false} FlattenPrefix(records: seq<seq<byte>>, n: nat)
    requires n <= |records|
    ensures var p := Flatten(records[..n]);
            |p| <= |Flatten(records)| && p == Flatten(records)[..|p|]
    decreases |records| - n
  {
    if n == |records| {
      assert records[..n] == records;
    } else {
      FlattenTake(records, n);
      FlattenPrefix(records, n + 1);
    }
  }

  // ----- the sender's chunks

  /** The record payloads a message is sent in; an empty one still takes a record. */
  function Chunks(msg: seq<byte>, max: nat): (r: seq<seq<byte>>)
    requires max > 0
    ensures r != []
    decreases |msg|
  {
    if |msg| <= max then [msg] else [msg[..max]] + Chunks(msg[max..], max)
  }

  lemma {:induction false} FlattenConcat(xs: seq<seq<byte>>, ys: seq<seq<byte>>)
    ensures Flatten(xs + ys) == Flatten(xs) + Flatten(ys)
  {
    if ys == [] {
      assert xs + ys == xs;
    } else {
      FlattenConcat(xs, ys[..|ys| - 1]);
      assert (xs + ys)[..|xs + ys| - 1] == xs + ys[..|ys| - 1];
    }
  }

  lemma FlattenOne(x: seq<byte>)
    ensures Flatten([x]) == x
  {
  }

  /** The chunks put together are the message; each fits a record, and only the last is not full. */
  lemma {:induction false} ChunksMakeMessage(msg: seq<byte>, max: nat)
    requires max > 0
    ensures var cs := Chunks(msg, max);
            && Flatten(cs) == msg
            && (forall i :: 0 <= i < |cs| - 1 ==> |cs[i]| == max)
            && |cs[|cs| - 1]| <= max && (cs[|cs| - 1] == [] ==> msg == [])
    decreases |msg|
  {
    if |msg| <= max {
      FlattenOne(msg);
    } else {
      var tail := Chunks(msg[max..], max);
      ChunksMakeMessage(msg[max..], max);
      FlattenOne(msg[..max]);
      FlattenConcat([msg[..max]], tail);
    }
  }

  function AllChunks(ms: seq<Message>, max: nat): seq<seq<byte>>
    requires max > 0
  {
    if ms == [] then [] else Chunks(Serialize(ms[0]), max) + AllChunks(ms[1..], max)
  }

  lemma {:induction false} AllChunksMakeStream(ms: seq<Message>, max: nat)
    requires max > 0
    ensures Flatten(AllChunks(ms, max)) == SerializeAll(ms)
  {
    if ms != [] {
      AllChunksMakeStream(ms[1..], max);
      ChunksMakeMessage(Serialize(ms[0]), max);
      FlattenConcat(Chunks(Serialize(ms[0]), max), AllChunks(ms[1..], max));
    }
  }

  /** Sender and receiver together, whatever fragment size the sender uses. */
  lemma SentMessagesArrive(ms: seq<Message>, max: nat, limit: nat)
    requires max > 0 && forall i :: 0 <= i < |ms| ==> Sendable(ms[i]) && |ms[i].body| <= limit
    ensures Receive(AllChunks(ms, max), limit) == Reception(ms, [], true)
  {
    AllChunksMakeStream(ms, max);
    AnySplitArrives(ms, AllChunks(ms, max), limit);
  }

  // ----- the receiving side of a connection

  datatype OpenResult = OpenSuccess | OpenError

  class Reader {
    var hsBuf: Option<seq<byte>>
    var hasMessage: bool
    var isServer: bool
    var nullCipher: bool
    var inInit: bool

    constructor (isServer: bool)
      ensures hsBuf == None && !hasMessage && this.isServer == isServer && nullCipher && inInit
    {
      hsBuf, hasMessage, nullCipher, inInit := None, false, true, true;
      this.isServer := isServer;
    }

    function Buffered(): seq<byte>
      reads this
    {
      if hsBuf.None? then [] else hsBuf.value
    }

    /** The first message if it is complete, else how many bytes it needs. */
    method ParseMessage() returns (msg: Option<Message>, bytesNeeded: nat)
      ensures msg == Parse(Buffered()) && (msg.None? ==> bytesNeeded == Needed(Buffered()))
    {
      if hsBuf.None? {
        return None, 4;
      }
      var buf := hsBuf.value;
      if |buf| < 4 {
        return None, 4;
      }
      var len := BigEndian(buf[1..4]);
      if |buf| - 4 < len {
        return None, 4 + len;
      }
      return Some(Message(buf[0], buf[4..4 + len])), 0;
    }

    method GetMessage() returns (msg: Option<Message>)
      modifies this`hasMessage
      ensures msg == Parse(Buffered()) && hasMessage == (old(hasMessage) || msg.Some?)
    {
      var unused;
      msg, unused := ParseMessage();
      if msg.Some? {
        hasMessage := true;
      }
    }

    /** Refuses more data while a message is waiting, or while one over the limit is being gathered. */
    method CanAcceptHandshakeData(limit: nat) returns (ok: bool)
      ensures ok <==> Parse(Buffered()).None? && Needed(Buffered()) <= HEADER_LENGTH + limit
    {
      var msg, bytesNeeded := ParseMessage();
      if msg.Some? {
        return false;
      }
      return bytesNeeded <= HEADER_LENGTH + limit;
    }

    method HasUnprocessedHandshakeData() returns (b: bool)
      ensures b <==> Buffered() != [] && !(hasMessage && Parse(Buffered()).Some? && |Buffered()| == Needed(Buffered()))
    {
      var msgLen := 0;
      if hasMessage {
        var msg, unused := ParseMessage();
        if msg.Some? {
          msgLen := 4 + |msg.value.body|;
        }
      }
      return hsBuf.Some? && |hsBuf.value| > msgLen;
    }

    /** A decrypted record arrives. */
    method OpenHandshake(typ: byte, record: seq<byte>, limit: nat) returns (result: OpenResult)
      modifies this`hsBuf
      ensures result == OpenSuccess <==>
              typ == RT_HANDSHAKE && Parse(old(Buffered())).None? && Needed(old(Buffered())) <= HEADER_LENGTH + limit
      ensures Buffered() == if result == OpenSuccess then old(Buffered()) + record else old(Buffered())
    {
      if hsBuf.None? {
        hsBuf := Some([]);
      }
      var ok := CanAcceptHandshakeData(limit);
      if !ok {
        return OpenError;
      }
      if !isServer && typ == AppWrite.RT_APPLICATION_DATA && nullCipher {
        return OpenError;
      }
      if typ != RT_HANDSHAKE {
        return OpenError;
      }
      hsBuf := Some(hsBuf.value + record);
      return OpenSuccess;
    }

    /** Drops the message that was taken. */
    method NextMessage()
      requires Parse(Buffered()).Some?
      modifies this`hsBuf, this`hasMessage
      ensures Buffered() == old(Buffered())[Needed(old(Buffered()))..] && !hasMessage
    {
      var msg := GetMessage();
      hsBuf := Some(hsBuf.value[4 + |msg.value.body|..]);
      hasMessage := false;
      if !inInit && hsBuf.value == [] {
        hsBuf := None;
      }
    }

    /** The handshake's loop: takes every complete message there is. */
    method TakeAll() returns (taken: seq<Message>)
      modifies this`hsBuf, this`hasMessage
      ensures (taken, Buffered()) == Drain(old(Buffered()))
    {
      taken := [];
      var more := true;
      ghost var start := Buffered();
      assert [] + Drain(start).0 == Drain(start).0;
      while more
        invariant Drain(start) == (taken + Drain(Buffered()).0, Drain(Buffered()).1)
        invariant !more ==> Parse(Buffered()).None?
        decreases more, |Buffered()|
      {
        var msg := GetMessage();
        if msg.None? {
          more := false;
        } else {
          ghost var tail := Drain(Buffered()[Needed(Buffered())..]).0;
          assert taken + ([msg.value] + tail) == taken + [msg.value] + tail;
          NextMessage();
          taken := taken + [msg.value];
        }
      }
      assert taken + [] == taken;
    }
  }

  // ----- the sending side: a flight of sealed records, flushed to the transport

  class FlightWriter {
    const cfg: AppWrite.Config
    const buffer: AppWrite.SslBuffer
    const bio: AppWrite.StreamBio
    var flight: Option<seq<byte>>
    var offset: nat
    var shutdown: bool
    var tries: nat
    /** The records of the flight, as sealed, with their types. */
    ghost var records: seq<AppWrite.Record>

    ghost predicate Valid()
      reads this, buffer
    {
      && cfg.Valid() && buffer.Valid()
      && (if flight.None? then offset == 0 else offset <= |flight.value|)
    }

    constructor (cfg: AppWrite.Config, outcomes: seq<int>)
      requires cfg.Valid()
      ensures Valid() && this.cfg == cfg && flight == None && records == [] && !shutdown
    {
      this.cfg := cfg;
      buffer := new AppWrite.SslBuffer();
      bio := new AppWrite.StreamBio(outcomes);
      flight, offset, shutdown, tries, records := None, 0, false, 0, [];
    }

    /** The bytes on their way: what the transport has, what is buffered, and what the flight still holds. */
    ghost function Outbound(): seq<byte>
      requires Valid()
      reads this, buffer, buffer.buf, bio
    {
      bio.wire + buffer.Contents() + if flight.None? then [] else flight.value[offset..]
    }

    method AddRecord(typ: byte, payload: seq<byte>) returns (ok: bool)
      requires Valid() && offset == 0
      modifies this`flight, this`tries, this`records
      ensures Valid() && offset == 0 && tries == old(tries) + 1
      ensures ok <==> cfg.Sealed(old(tries), typ, payload).Some?
      ensures records == if ok then old(records) + [AppWrite.Record(typ, payload)] else old(records)
      ensures Outbound() == if ok then old(Outbound()) + cfg.Sealed(old(tries), typ, payload).value else old(Outbound())
    {
      if flight.None? {
        flight := Some([]);
      }
      var sealed := cfg.Sealed(tries, typ, payload);
      tries := tries + 1;
      if sealed.None? {
        return false;
      }
      flight := Some(flight.value + sealed.value);
      records := records + [AppWrite.Record(typ, payload)];
      return true;
    }

    /** Adds a message to the flight, in as many records as it takes; fails at the first that cannot be sealed. */
    method AddMessage(msg: seq<byte>) returns (ok: bool)
      requires Valid() && offset == 0
      modifies this`flight, this`tries, this`records
      ensures Valid() && offset == 0
      ensures var chunks := Chunks(msg, cfg.maxSendFragment);
              var sealed := SealAll(cfg, old(tries), RT_HANDSHAKE, chunks);
              && (ok <==> sealed.count == |chunks|)
              && records == old(records) + Records(RT_HANDSHAKE, chunks[..sealed.count])
              && Outbound() == old(Outbound()) + sealed.bytes
              && tries == old(tries) + sealed.count + if ok then 0 else 1
    {
      hide Chunks, AppWrite.Config.Sealed, AppWrite.SslBuffer.Contents, FlightWriter.Outbound, SealAll, Records;
      var rest, max, more := msg, cfg.maxSendFragment, true;
      ghost var start, done, all := tries, [], Chunks(msg, cfg.maxSendFragment);
      SealsNone(cfg, start, RT_HANDSHAKE);
      ghost var records0, sent0 := records, Outbound();
      NothingAdded(records0, sent0, all);
      while more
        invariant Valid() && offset == 0 && tries == start + |done|
        invariant records == records0 + Records(RT_HANDSHAKE, done)
        invariant SealAll(cfg, start, RT_HANDSHAKE, done).count == |done|
        invariant Outbound() == sent0 + SealAll(cfg, start, RT_HANDSHAKE, done).bytes
        invariant all == if more then done + Chunks(rest, max) else done
        invariant more || rest == []
        decreases more, |rest|
      {
        var chunk := if |rest| < max then rest else rest[..max];
        FirstChunk(done, rest, max);
        OneOf(done, chunk, rest, max);
        SealsOneMore(cfg, start, RT_HANDSHAKE, done, chunk, all);
        ghost var sealed := cfg.Sealed(tries, RT_HANDSHAKE, chunk);
        ghost var bytes := SealAll(cfg, start, RT_HANDSHAKE, done).bytes;
        rest := rest[|chunk|..];
        var added := AddRecord(RT_HANDSHAKE, chunk);
        if !added {
          return false;
        }
        OneAdded(records0, done, chunk, sent0, bytes, sealed.value);
        done := done + [chunk];
        more := rest != [];
      }
      assert all[..|all|] == all;
      return true;
    }

    method AddChangeCipherSpec() returns (ok: bool)
      requires Valid() && offset == 0
      modifies this`flight, this`tries, this`records
      ensures Valid() && offset == 0 && tries == old(tries) + 1
      ensures var sealed := cfg.Sealed(old(tries), RT_CHANGE_CIPHER_SPEC, [MT_CCS]);
              && (ok <==> sealed.Some?)
              && records == (if ok then old(records) + [AppWrite.Record(RT_CHANGE_CIPHER_SPEC, [MT_CCS])]
                             else old(records))
              && Outbound() == if ok then old(Outbound()) + sealed.value else old(Outbound())
    {
      ok := AddRecord(RT_CHANGE_CIPHER_SPEC, [MT_CCS]);
    }

    /** What is left to send, in numbers. */
    ghost function Unsent(): Flushing
      requires Valid()
      reads this, buffer, bio
    {
      Flushing(buffer.size, if flight.None? then None else Some(|flight.value| - offset), bio.outcomes)
    }

    lemma EmptyBuffer()
      requires Valid()
      ensures buffer.size == 0 ==> buffer.Contents() == []
    {
    }

    /** Hands what is buffered and then the flight to the transport; nothing is lost, repeated or reordered. */
    method FlushFlight() returns (ret: int)
      requires Valid()
      modifies this`flight, this`offset, buffer, bio
      ensures Valid() && Outbound() == old(Outbound())
      ensures (Unsent(), ret) ==
              FlushOf(old(Unsent()), shutdown || (old(flight).Some? && |old(flight).value| > INT_MAX))
      ensures flight.Some? ==> flight == old(flight)
      ensures ret == 1 && old(flight).Some? ==> flight == None && bio.wire == old(Outbound())
      ensures old(flight).None? ==> ret == 1 && bio.wire == old(bio.wire)
    {
      hide AppWrite.SslBuffer.Contents, Offer;
      if flight.None? {
        return 1;
      }
      if shutdown || |flight.value| > INT_MAX {
        return -1;
      }
      OfferNothing(bio.outcomes);
      EmptyBuffer();
      if buffer.size > 0 {
        ret := FlushBuffer();
        if ret <= 0 {
          return ret;
        }
      }
      EmptyBuffer();
      ghost var all, first := Outbound(), Offer(bio.outcomes, |flight.value| - offset);
      while offset < |flight.value|
        invariant Valid() && flight == old(flight) && buffer.size == 0 && buffer.Contents() == [] && Outbound() == all
        invariant Offer(bio.outcomes, |flight.value| - offset) == first
        decreases |bio.outcomes|
      {
        var left := flight.value[offset..];
        ghost var was := bio.wire;
        OfferOnce(bio.outcomes, |left|);
        ret := bio.Write(left);
        if ret <= 0 {
          return ret;
        }
        offset := offset + ret;
        assert left[ret..] == flight.value[offset..];
        Regroup(was, left, ret);
      }
      OfferNothing(bio.outcomes);
      var flushed := bio.Flush();
      if !flushed {
        return -1;
      }
      flight, offset := None, 0;
      return 1;
    }

    /** Hands the write buffer to the transport until it is empty or a write fails. */
    method FlushBuffer() returns (ret: int)
      requires Valid()
      modifies buffer, bio
      ensures Valid() && bio.wire + buffer.Contents() == old(bio.wire + buffer.Contents())
      ensures Taking(ret, buffer.size, bio.outcomes) == Offer(old(bio.outcomes), old(buffer.size))
      ensures ret > 0 ==> buffer.size == 0
    {
      hide AppWrite.SslBuffer.Contents, Offer;
      ghost var all, first := bio.wire + buffer.Contents(), Offer(bio.outcomes, buffer.size);
      while buffer.size > 0
        invariant Valid() && bio.wire + buffer.Contents() == all && buffer.buf == old(buffer.buf)
        invariant Offer(bio.outcomes, buffer.size) == first
        decreases |bio.outcomes|
      {
        ghost var c, was := buffer.Contents(), bio.wire;
        OfferOnce(bio.outcomes, buffer.size);
        ret := bio.Write(buffer.Contents());
        if ret <= 0 {
          return ret;
        }
        buffer.Consume(ret);
        Regroup(was, c, ret);
      }
      OfferNothing(bio.outcomes);
      buffer.Clear();
      return 1;
    }
  }

  lemma Regroup(a: seq<byte>, s: seq<byte>, n: nat)
    requires n <= |s|
    ensures a + s[..n] + s[n..] == a + s
    ensures a + s[..n] + [] + s[n..] == a + [] + s
  {
  }

  /** The loop's next chunk is the next of Chunks. */
  lemma FirstChunk(done: seq<seq<byte>>, rest: seq<byte>, max: nat)
    requires max > 0
    ensures var chunk := if |rest| < max then rest else rest[..max];
            var left := rest[|chunk|..];
            done + Chunks(rest, max) == if left == [] then done + [chunk] else done + [chunk] + Chunks(left, max)
    ensures done < done + Chunks(rest, max)
  {
    if |rest| == max {
      assert rest[..max] == rest;
    }
  }

  /** The records of one type with these contents. */
  ghost function Records(typ: byte, payloads: seq<seq<byte>>): (s: seq<AppWrite.Record>)
    ensures |s| == |payloads|
  {
    seq(|payloads|, i requires 0 <= i < |payloads| => AppWrite.Record(typ, payloads[i]))
  }

  /** Sealing each in turn, from attempt n on: how many succeed before one fails, and what they give. */
  datatype SealedAll = SealedAll(count: nat, bytes: seq<byte>)

  ghost function SealAll(cfg: AppWrite.Config, n: nat, typ: byte, payloads: seq<seq<byte>>): (r: SealedAll)
    ensures r.count <= |payloads|
    decreases |payloads|
  {
    if payloads == [] then SealedAll(0, [])
    else
      var first := cfg.Sealed(n, typ, payloads[0]);
      if first.None? then SealedAll(0, [])
      else
        var others := SealAll(cfg, n + 1, typ, payloads[1..]);
        SealedAll(others.count + 1, first.value + others.bytes)
  }

  lemma NothingAdded(records: seq<AppWrite.Record>, sent: seq<byte>, chunks: seq<seq<byte>>)
    ensures records + Records(RT_HANDSHAKE, []) == records && sent + [] == sent && [] + chunks == chunks
  {
  }

  lemma OneAdded(records: seq<AppWrite.Record>, done: seq<seq<byte>>, chunk: seq<byte>, sent: seq<byte>,
                 bytes: seq<byte>,
                 sealed: seq<byte>)
    ensures records + Records(RT_HANDSHAKE, done + [chunk]) ==
            records + Records(RT_HANDSHAKE, done) + [AppWrite.Record(RT_HANDSHAKE, chunk)]
    ensures sent + bytes + sealed == sent + (bytes + sealed)
  {
  }

  /** The chunk about to be sealed comes right after those done. */
  lemma OneOf(done: seq<seq<byte>>, chunk: seq<byte>, rest: seq<byte>, max: nat)
    requires max > 0 && chunk == if |rest| < max then rest else rest[..max]
    ensures var all := done + Chunks(rest, max); done + [chunk] <= all && all[..|done|] == done
  {
    FirstChunk(done, rest, max);
  }

  lemma SealsNone(cfg: AppWrite.Config, n: nat, typ: byte)
    ensures SealAll(cfg, n, typ, []) == SealedAll(0, [])
  {
  }

  /** The count stops at the first that cannot be sealed. */
  lemma {:induction false} SealAllStops(cfg: AppWrite.Config, n: nat, typ: byte, payloads: seq<seq<byte>>)
    ensures var k := SealAll(cfg, n, typ, payloads).count;
            && (forall i :: 0 <= i < k ==> cfg.Sealed(n + i, typ, payloads[i]).Some?)
            && (k < |payloads| ==> cfg.Sealed(n + k, typ, payloads[k]).None?)
    decreases |payloads|
  {
    hide AppWrite.Config.Sealed;
    if payloads != [] && cfg.Sealed(n, typ, payloads[0]).Some? {
      SealAllStops(cfg, n + 1, typ, payloads[1..]);
      var k := SealAll(cfg, n, typ, payloads).count;
      forall i | 0 <= i < k ensures cfg.Sealed(n + i, typ, payloads[i]).Some? {
        if i > 0 {
          assert cfg.Sealed(n + 1 + (i - 1), typ, payloads[1..][i - 1]).Some?;
        }
      }
    }
  }

  /** After some that all succeed, the next is tried; if it fails, whatever was to follow does not matter. */
  lemma {:induction false} SealsOneMore(cfg: AppWrite.Config, n: nat, typ: byte, done: seq<seq<byte>>, next: seq<byte>,
                                        all: seq<seq<byte>>)
    requires SealAll(cfg, n, typ, done).count == |done| && done + [next] <= all
    ensures var first, sealed := SealAll(cfg, n, typ, done), cfg.Sealed(n + |done|, typ, next);
            if sealed.None? then SealAll(cfg, n, typ, all) == first
            else SealAll(cfg, n, typ, done + [next]) == SealedAll(|done| + 1, first.bytes + sealed.value)
    decreases |done|
  {
    hide AppWrite.Config.Sealed;
    if done == [] {
      assert all[0] == next && (done + [next])[1..] == [];
    } else {
      assert done[1..] + [next] <= all[1..] && all[0] == done[0];
      assert (done + [next])[1..] == done[1..] + [next];
      SealsOneMore(cfg, n + 1, typ, done[1..], next, all[1..]);
    }
  }

  // ----- how far a transport lets a flush get

  /** What a write loop returns, how much it leaves and what the transport will answer next. */
  datatype Taking = Taking(ret: int, left: nat, outcomes: seq<int>)

  /** Offering n bytes until all are taken or a write fails. */
  function Offer(outcomes: seq<int>, n: nat): Taking
    decreases |outcomes|
  {
    if n == 0 then Taking(1, 0, outcomes)
    else if outcomes == [] then Taking(-1, n, [])
    else if outcomes[0] <= 0 then Taking(outcomes[0], n, outcomes[1..])
    else Offer(outcomes[1..], if outcomes[0] < n then n - outcomes[0] else 0)
  }

  lemma OfferNothing(outcomes: seq<int>)
    ensures Offer(outcomes, 0) == Taking(1, 0, outcomes)
  {
  }

  lemma OfferOnce(outcomes: seq<int>, n: nat)
    requires n > 0
    ensures Offer(outcomes, n) ==
            if outcomes == [] then Taking(-1, n, [])
            else if outcomes[0] <= 0 then Taking(outcomes[0], n, outcomes[1..])
            else Offer(outcomes[1..], n - AppWrite.Min(outcomes[0], n))
  {
  }

  /** Bytes in the buffer, bytes of the flight if there is one, and the transport's next answers. */
  datatype Flushing = Flushing(buffered: nat, flight: Option<nat>, outcomes: seq<int>)

  function FlushOf(f: Flushing, refused: bool): (r: (Flushing, int)) {
    if f.flight.None? then (f, 1)
    else if refused then (f, -1)
    else
      var a := Offer(f.outcomes, f.buffered);
      if a.ret <= 0 then (Flushing(a.left, f.flight, a.outcomes), a.ret)
      else
        var b := Offer(a.outcomes, f.flight.value);
        if b.ret <= 0 then (Flushing(0, Some(b.left), b.outcomes), b.ret)
        else if b.outcomes == [] then (Flushing(0, Some(0), []), -1)
        else if b.outcomes[0] <= 0 then (Flushing(0, Some(0), b.outcomes[1..]), -1)
        else (Flushing(0, None, b.outcomes[1..]), 1)
  }

  lemma {:induction false} OfferTaken(outcomes: seq<int>, n: nat)
    requires |outcomes| > n && forall i :: 0 <= i < |outcomes| ==> outcomes[i] > 0
    ensures var r := Offer(outcomes, n); r.ret == 1 && r.left == 0
    ensures var r := Offer(outcomes, n); |r.outcomes| >= |outcomes| - n
    ensures var r := Offer(outcomes, n); forall i :: 0 <= i < |r.outcomes| ==> r.outcomes[i] > 0
    decreases |outcomes|
  {
    if n > 0 {
      OfferTaken(outcomes[1..], if outcomes[0] < n then n - outcomes[0] else 0);
    }
  }

  /** A transport that goes on taking at least a byte at a time gets the whole flight. */
  lemma FlushSucceeds(f: Flushing)
    requires f.flight.Some? && |f.outcomes| > f.buffered + f.flight.value
    requires forall i :: 0 <= i < |f.outcomes| ==> f.outcomes[i] > 0
    ensures var (f', ret) := FlushOf(f, false); ret == 1 && f'.buffered == 0 && f'.flight == None
  {
    OfferTaken(f.outcomes, f.buffered);
    OfferTaken(Offer(f.outcomes, f.buffered).outcomes, f.flight.value);
  }

  /** A failed flush leaves the flight waiting; what it leaves is never more than before. */
  lemma FlushFailsKeeps(f: Flushing, refused: bool)
    ensures var (f', ret) := FlushOf(f, refused);
            && ret <= 1 && (ret == 1 <==> f'.flight == None)
            && (ret <= 0 ==> f'.flight.Some? && f'.buffered + f'.flight.value <= f.buffered + f.flight.value)
  {
    if f.flight.Some? && !refused {
      OfferLeaves(f.outcomes, f.buffered);
      OfferLeaves(Offer(f.outcomes, f.buffered).outcomes, f.flight.value);
    }
  }

  lemma {:induction false} OfferLeaves(outcomes: seq<int>, n: nat)
    ensures var r := Offer(outcomes, n); r.left <= n && (r.ret <= 0 || r.ret == 1) && (r.ret == 1 <==> r.left == 0)
    decreases |outcomes|
  {
    if n > 0 && outcomes != [] && outcomes[0] > 0 {
      OfferLeaves(outcomes[1..], if outcomes[0] < n then n - outcomes[0] else 0);
    }
  }
}
