/** Writing application data over TLS: records sealed once, partial writes resumed by retrying the call. */
module AppWrite {
  import opened Wire
  import opened Buffers

  const RT_ALERT: byte := 21
  const RT_APPLICATION_DATA: byte := 23
  const MAX_PLAIN_LENGTH: nat := 16384
  const MAX_BUFFER: nat := 0xffff

  /** Seals the n-th record; None if sealing fails. */
  type SealFunction = (nat, byte, seq<byte>) -> Option<seq<byte>>

  datatype Config = Config(maxSendFragment: nat, partialWrite: bool, movingBuffer: bool, overhead: nat,
                           seal: SealFunction)
  {
    predicate Valid() {
      1 <= maxSendFragment <= MAX_PLAIN_LENGTH
    }

    /** The record sealed from data, if it fits where a record of that length is expected to fit. */
    function Sealed(n: nat, typ: byte, data: seq<byte>): (r: Option<seq<byte>>)
      ensures r.Some? ==> |r.value| <= |data| + overhead
    {
      var r := seal(n, typ, data);
      if r.Some? && |r.value| > |data| + overhead then None else r
    }
  }

  /** A record whose bytes the transport has not all taken: what a retry has to repeat. */
  datatype Pending = Pending(len: nat, typ: byte, address: int)

  datatype Record = Record(typ: byte, plaintext: seq<byte>)

  /**
   * wnum: bytes of the current write in finished records. buffer: sealed bytes not yet taken. flight:
   * handshake bytes to go out before the next record. outcomes: what the transport will answer.
   * log, queued and wire: records sealed, bytes ever buffered, bytes taken.
   */
  datatype Conn = Conn(wnum: nat, pending: Option<Pending>, buffer: seq<byte>, flight: seq<byte>, tries: nat,
                       outcomes: seq<int>, log: seq<Record>, queued: seq<byte>, wire: seq<byte>)

  function Min(a: int, b: int): int {
    if a < b then a else b
  }

  // ----- one call

  function Flush(c: Conn): (r: (Conn, int))
    decreases |c.outcomes|
  {
    if c.buffer == [] then (c, 1)
    else if c.outcomes == [] then (c, -1)
    else
      var c1, o := c.(outcomes := c.outcomes[1..]), c.outcomes[0];
      if o <= 0 then (c1, o)
      else
        var n := Min(o, |c.buffer|);
        Flush(c1.(buffer := c.buffer[n..], wire := c.wire + c.buffer[..n]))
  }

  function WritePending(cfg: Config, c: Conn, typ: byte, len: nat, address: int): (r: (Conn, int))
    requires c.pending.Some?
    ensures r.1 <= len
  {
    var p := c.pending.value;
    if p.len > len || (!cfg.movingBuffer && p.address != address) || p.typ != typ then (c, -1)
    else
      var (c', ret) := Flush(c);
      if ret <= 0 then (c', ret) else (c'.(pending := None), p.len)
  }

  /** The record is sealed behind any handshake bytes, and its arguments remembered. */
  function SealPending(cfg: Config, c: Conn, typ: byte, data: seq<byte>, address: int): Option<Conn> {
    match cfg.Sealed(c.tries, typ, data)
    case None => None
    case Some(s) =>
      Some(Behind(c).(buffer := c.flight + s, queued := c.queued + c.flight + s, log := c.log + [Record(typ, data)],
           pending := Some(Pending(|data|, typ, address))))
  }

  /** The handshake bytes have moved into the buffer and a record is about to be sealed. */
  function Behind(c: Conn): Conn {
    c.(buffer := c.flight, queued := c.queued + c.flight, flight := [], tries := c.tries + 1)
  }

  lemma SealPendingFrom(cfg: Config, c: Conn, typ: byte, data: seq<byte>, address: int)
    ensures Behind(c).tries == c.tries + 1
    ensures var b, s := Behind(c), cfg.Sealed(c.tries, typ, data);
            SealPending(cfg, c, typ, data, address) ==
            if s.None? then None
            else Some(b.(buffer := b.buffer + s.value, queued := b.queued + s.value, log := b.log + [Record(typ, data)],
                      pending := Some(Pending(|data|, typ, address))))
  {
  }

  function DoWrite(cfg: Config, c: Conn, typ: byte, data: seq<byte>, address: int): (r: (Conn, int))
    ensures r.1 <= |data|
  {
    if c.pending.Some? then WritePending(cfg, c, typ, |data|, address)
    else if |data| > MAX_PLAIN_LENGTH || c.buffer != [] then (c, -1)
    else if data == [] then (c, 0)
    else if |c.flight| + |data| + cfg.overhead > MAX_BUFFER then (c, -1)
    else
      match SealPending(cfg, c, typ, data, address)
      case None => (Behind(c), -1)
      case Some(c') => WritePending(cfg, c', typ, |data|, address)
  }

  /** The next record's worth of data from tot on. */
  function Chunk(cfg: Config, data: seq<byte>, tot: nat): (chunk: seq<byte>)
    requires tot <= |data|
    ensures |chunk| <= |data| - tot
  {
    data[tot..tot + Min(|data| - tot, cfg.maxSendFragment)]
  }

  function WriteChunk(cfg: Config, c: Conn, data: seq<byte>, address: int, tot: nat): (r: (Conn, int))
    requires tot <= |data|
    ensures r.1 <= |data| - tot
  {
    DoWrite(cfg, c, RT_APPLICATION_DATA, Chunk(cfg, data, tot), address + tot)
  }

  function WriteFrom(cfg: Config, c: Conn, data: seq<byte>, address: int, tot: nat): (r: (Conn, int))
    requires tot <= |data|
    ensures r.1 <= |data|
    decreases |data| - tot
  {
    var (c', ret) := WriteChunk(cfg, c, data, address, tot);
    if ret <= 0 then (c'.(wnum := tot), ret)
    else if ret == |data| - tot || cfg.partialWrite then (c', tot + ret)
    else WriteFrom(cfg, c', data, address, tot + ret)
  }

  /** One call; None for data stands for a negative length. */
  function WriteAppData(cfg: Config, c: Conn, data: Option<seq<byte>>, address: int, shutdown: bool): (r: (Conn, int)) {
    if shutdown then (c, -1)
    else if Trapped(c, data) then (c.(wnum := 0), -1)
    else WriteFrom(cfg, c.(wnum := 0), data.value, address, c.wnum)
  }

  /** The length is negative or less than what is already sealed. */
  predicate Trapped(c: Conn, data: Option<seq<byte>>) {
    data.None? || |data.value| < c.wnum
  }

  // ----- what one call does

  /** Everything ever buffered is what the transport took followed by what it has not. */
  ghost predicate InOrder(c: Conn) {
    c.wire + c.buffer == c.queued
  }

  /** The application bytes sealed, in the order of sealing. */
  function AppPlain(log: seq<Record>): seq<byte> {
    if log == [] then []
    else
      var r := log[|log| - 1];
      AppPlain(log[..|log| - 1]) + if r.typ == RT_APPLICATION_DATA then r.plaintext else []
  }

  lemma AppPlainExtends(log: seq<Record>, r: Record)
    ensures AppPlain(log + [r]) == AppPlain(log) + if r.typ == RT_APPLICATION_DATA then r.plaintext else []
  {
  }

  function AppPending(c: Conn): nat {
    if c.pending.Some? && c.pending.value.typ == RT_APPLICATION_DATA then c.pending.value.len else 0
  }

  lemma {:induction false} FlushFacts(c: Conn)
    ensures var (c', ret) := Flush(c);
            && c' == c.(outcomes := c'.outcomes, buffer := c'.buffer, wire := c'.wire)
            && c'.wire + c'.buffer == c.wire + c.buffer && c.wire <= c'.wire
            && (ret > 0 <==> c'.buffer == [])
    decreases |c.outcomes|
  {
    if c.buffer != [] && c.outcomes != [] && c.outcomes[0] > 0 {
      var n := Min(c.outcomes[0], |c.buffer|);
      var c1 := c.(outcomes := c.outcomes[1..], buffer := c.buffer[n..], wire := c.wire + c.buffer[..n]);
      FlushFacts(c1);
      assert c.buffer == c.buffer[..n] + c.buffer[n..];
    }
  }

  /** A record is sealed at most once; only a flushed record is reported, with the length it was sealed with. */
  ghost predicate WroteOnce(c: Conn, typ: byte, data: seq<byte>, address: int, c': Conn, ret: int) {
    && c'.wnum == c.wnum
    && (ret > 0 ==> c'.pending.None? && c'.buffer == [])
    && match c.pending
       case Some(p) =>
         && c'.log == c.log
         && (if ret > 0 then ret == p.len && p.typ == typ else c'.pending == c.pending)
       case None =>
         if ret > 0 then ret == |data| && c'.log == c.log + [Record(typ, data)]
         else
           || (c'.pending.None? && c'.log == c.log)
           || (c'.pending == Some(Pending(|data|, typ, address)) && c'.log == c.log + [Record(typ, data)])
  }

  lemma WritePendingFacts(cfg: Config, c: Conn, typ: byte, len: nat, address: int)
    requires c.pending.Some?
    ensures var (c', ret) := WritePending(cfg, c, typ, len, address);
            && c'.wnum == c.wnum && c'.log == c.log && (InOrder(c) ==> InOrder(c'))
            && (if ret > 0 then
                  ret == c.pending.value.len && c.pending.value.typ == typ && c'.pending.None? && c'.buffer == []
                else c'.pending == c.pending || c.pending.value.len == 0)
  {
    hide Flush;
    FlushFacts(c);
  }

  lemma DoWriteFacts(cfg: Config, c: Conn, typ: byte, data: seq<byte>, address: int)
    requires c.pending.Some? ==> c.pending.value.len > 0
    ensures var (c', ret) := DoWrite(cfg, c, typ, data, address);
            && WroteOnce(c, typ, data, address, c', ret)
            && (InOrder(c) ==> InOrder(c'))
            && (c'.pending.Some? ==> c'.pending.value.len > 0)
  {
    hide WritePending;
    if c.pending.Some? {
      WritePendingFacts(cfg, c, typ, |data|, address);
    } else {
      var sealed := SealPending(cfg, c, typ, data, address);
      if c.buffer == [] && InOrder(c) {
        assert c.wire == c.queued;
        assert InOrder(Behind(c));
        if sealed.Some? {
          SealKeepsOrder(cfg, c, typ, data, address);
        }
      }
      if sealed.Some? {
        WritePendingFacts(cfg, sealed.value, typ, |data|, address);
      }
    }
  }

  lemma SealKeepsOrder(cfg: Config, c: Conn, typ: byte, data: seq<byte>, address: int)
    requires SealPending(cfg, c, typ, data, address).Some? && c.wire == c.queued
    ensures InOrder(SealPending(cfg, c, typ, data, address).value)
  {
  }

  /** A state between calls: a pending record is never empty. */
  ghost predicate Settled(c: Conn) {
    c.pending.Some? ==> c.pending.value.len > 0
  }

  /** Application bytes sealed on behalf of the current write. */
  function Progress(c: Conn): nat {
    c.wnum + AppPending(c)
  }

  /** What the caller of a write may take as sent or in progress once it has returned. */
  function Accounted(c: Conn, ret: int): nat {
    if ret > 0 then ret else Progress(c)
  }

  lemma WriteFromStep(cfg: Config, c: Conn, data: seq<byte>, address: int, tot: nat)
    requires tot <= |data|
    ensures var (c', ret) := WriteChunk(cfg, c, data, address, tot);
            WriteFrom(cfg, c, data, address, tot) ==
            if ret <= 0 then (c'.(wnum := tot), ret)
            else if ret == |data| - tot || cfg.partialWrite then (c', tot + ret)
            else WriteFrom(cfg, c', data, address, tot + ret)
  {
  }

  lemma WnumApart(c: Conn, n: nat)
    ensures InOrder(c.(wnum := n)) <==> InOrder(c)
    ensures Settled(c.(wnum := n)) <==> Settled(c)
    ensures Progress(c.(wnum := n)) == n + AppPending(c)
    ensures c.(wnum := n).log == c.log
  {
  }

  lemma ChunkSealsOnce(cfg: Config, c: Conn, data: seq<byte>, address: int, tot: nat)
    requires tot <= |data| && Settled(c)
    ensures var (c', ret) := WriteChunk(cfg, c, data, address, tot);
            && Settled(c') && c'.wnum == c.wnum && (InOrder(c) ==> InOrder(c'))
            && |AppPlain(c'.log)| + AppPending(c) == |AppPlain(c.log)| + (if ret > 0 then ret else AppPending(c'))
            && (ret > 0 ==> c'.pending.None? && c'.buffer == [])
  {
    hide DoWrite, InOrder, AppPlain, Chunk;
    DoWriteFacts(cfg, c, RT_APPLICATION_DATA, Chunk(cfg, data, tot), address + tot);
    AppPlainExtends(c.log, Record(RT_APPLICATION_DATA, Chunk(cfg, data, tot)));
  }

  /** From tot bytes already sent to a return: the bytes newly sealed are those newly accounted for. */
  ghost predicate SealsOnce(cfg: Config, c: Conn, tot: nat, len: nat, c': Conn, ret: int) {
    && Settled(c') && (InOrder(c) ==> InOrder(c'))
    && |AppPlain(c'.log)| + tot + AppPending(c) == |AppPlain(c.log)| + Accounted(c', ret)
    && (ret > 0 ==> c'.pending.None? && c'.buffer == [] && c'.wnum == c.wnum && (ret == len || cfg.partialWrite))
  }

  /** One record, and then a return. */
  lemma StopSealsOnce(cfg: Config, c: Conn, data: seq<byte>, address: int, tot: nat)
    requires tot <= |data| && Settled(c)
    ensures var (c1, ret) := WriteChunk(cfg, c, data, address, tot);
            && Settled(c1) && c1.wnum == c.wnum
            && (ret <= 0 ==> SealsOnce(cfg, c, tot, |data|, c1.(wnum := tot), ret))
            && (ret > 0 && (ret == |data| - tot || cfg.partialWrite) ==> SealsOnce(cfg, c, tot, |data|, c1, tot + ret))
  {
    hide WriteChunk, InOrder, AppPlain;
    ChunkSealsOnce(cfg, c, data, address, tot);
    WnumApart(WriteChunk(cfg, c, data, address, tot).0, tot);
  }

  /** One record, and then more. */
  lemma MoreSealsOnce(cfg: Config, c: Conn, data: seq<byte>, address: int, tot: nat, c': Conn, ret': int)
    requires tot <= |data| && Settled(c)
    requires var (c1, ret) := WriteChunk(cfg, c, data, address, tot);
             ret > 0 && SealsOnce(cfg, c1, tot + ret, |data|, c', ret')
    ensures SealsOnce(cfg, c, tot, |data|, c', ret')
  {
    hide WriteChunk, InOrder, AppPlain;
    ChunkSealsOnce(cfg, c, data, address, tot);
  }

  /** From tot bytes already sent, the rest is sealed once, in order, whatever the transport does. */
  lemma {:induction false} WriteFromSealsOnce(cfg: Config, c: Conn, data: seq<byte>, address: int, tot: nat)
    requires tot <= |data| && Settled(c)
    ensures var (c', ret) := WriteFrom(cfg, c, data, address, tot);
            SealsOnce(cfg, c, tot, |data|, c', ret)
    decreases |data| - tot
  {
    hide WriteChunk, WriteFrom, SealsOnce, Settled;
    WriteFromStep(cfg, c, data, address, tot);
    StopSealsOnce(cfg, c, data, address, tot);
    var r := WriteChunk(cfg, c, data, address, tot);
    if r.1 > 0 && r.1 != |data| - tot && !cfg.partialWrite {
      WriteFromSealsOnce(cfg, r.0, data, address, tot + r.1);
      var r' := WriteFrom(cfg, r.0, data, address, tot + r.1);
      MoreSealsOnce(cfg, c, data, address, tot, r'.0, r'.1);
    }
  }

  /** The application bytes sealed are those of before, then the first n of whole. */
  ghost predicate SealedUpTo(c: Conn, before: seq<byte>, whole: seq<byte>, n: nat) {
    n <= |whole| && AppPlain(c.log) == before + whole[..n]
  }

  lemma ChunkSealsData(cfg: Config, c: Conn, data: seq<byte>, address: int, tot: nat, before: seq<byte>,
                       whole: seq<byte>)
    requires tot <= |data| && Settled(c) && data <= whole
    requires SealedUpTo(c, before, whole, tot + AppPending(c))
    ensures var (c', ret) := WriteChunk(cfg, c, data, address, tot);
            SealedUpTo(c', before, whole, tot + if ret > 0 then ret else AppPending(c'))
  {
    hide DoWrite, AppPlain, Chunk;
    var chunk := Chunk(cfg, data, tot);
    DoWriteFacts(cfg, c, RT_APPLICATION_DATA, chunk, address + tot);
    AppPlainExtends(c.log, Record(RT_APPLICATION_DATA, chunk));
    assert chunk == whole[tot..tot + |chunk|] by {
      ChunkIsData(cfg, data, tot, whole);
    }
    assert before + whole[..tot] + chunk == before + whole[..tot + |chunk|];
  }

  lemma ChunkIsData(cfg: Config, data: seq<byte>, tot: nat, whole: seq<byte>)
    requires tot <= |data| && data <= whole
    ensures Chunk(cfg, data, tot) == whole[tot..tot + |Chunk(cfg, data, tot)|]
  {
  }

  /** And the bytes sealed are the caller's own. */
  lemma {:induction false} WriteFromSealsData(cfg: Config, c: Conn, data: seq<byte>, address: int, tot: nat,
                                              before: seq<byte>, whole: seq<byte>)
    requires tot <= |data| && Settled(c) && c.wnum == 0 && data <= whole
    requires SealedUpTo(c, before, whole, tot + AppPending(c))
    ensures var (c', ret) := WriteFrom(cfg, c, data, address, tot);
            SealedUpTo(c', before, whole, Accounted(c', ret))
    decreases |data| - tot
  {
    hide WriteChunk, WriteFrom, SealedUpTo, InOrder, AppPlain;
    WriteFromStep(cfg, c, data, address, tot);
    ChunkSealsOnce(cfg, c, data, address, tot);
    ChunkSealsData(cfg, c, data, address, tot, before, whole);
    var r := WriteChunk(cfg, c, data, address, tot);
    WnumApart(r.0, tot);
    LogDecides(r.0, r.0.(wnum := tot), before, whole, tot + AppPending(r.0));
    if r.1 > 0 && r.1 != |data| - tot && !cfg.partialWrite {
      WriteFromSealsData(cfg, r.0, data, address, tot + r.1, before, whole);
    }
  }

  lemma LogDecides(c: Conn, d: Conn, before: seq<byte>, whole: seq<byte>, n: nat)
    requires c.log == d.log
    ensures SealedUpTo(c, before, whole, n) <==> SealedUpTo(d, before, whole, n)
  {
  }

  // ----- runs: a write is retried until it succeeds, other traffic in between

  datatype Event = App(data: Option<seq<byte>>, address: int, shutdown: bool)
                 | Alert(alert: seq<byte>, place: int)
                 | Cork(handshake: seq<byte>)

  function Perform(cfg: Config, c: Conn, e: Event): (Conn, int) {
    match e
    case App(data, address, shutdown) => WriteAppData(cfg, c, data, address, shutdown)
    case Alert(alert, place) => DoWrite(cfg, c, RT_ALERT, alert, place)
    case Cork(handshake) => (c.(flight := c.flight + handshake), 0)
  }

  function After(cfg: Config, start: Conn, run: seq<Event>): Conn {
    if run == [] then start else Perform(cfg, After(cfg, start, run[..|run| - 1]), run[|run| - 1]).0
  }

  /** No write is under way. */
  ghost predicate Fresh(c: Conn) {
    Settled(c) && Progress(c) == 0
  }

  /** Calls of the run write beginnings of one buffer, and none has succeeded. */
  ghost predicate Unfinished(cfg: Config, start: Conn, run: seq<Event>, whole: seq<byte>) {
    run != [] ==>
      var before, e := run[..|run| - 1], run[|run| - 1];
      && Unfinished(cfg, start, before, whole)
      && (e.App? ==> IsBeginning(e.data, whole) && Perform(cfg, After(cfg, start, before), e).1 <= 0)
  }

  ghost predicate IsBeginning(data: Option<seq<byte>>, whole: seq<byte>) {
    data.Some? ==> data.value <= whole
  }

  /** Sealed bytes the connection forgot by clearing wnum before rejecting a length. */
  function LostBy(c: Conn, e: Event): nat {
    if e.App? && !e.shutdown && Trapped(c, e.data) then c.wnum else 0
  }

  function Lost(cfg: Config, start: Conn, run: seq<Event>): nat {
    if run == [] then 0
    else
      var before := run[..|run| - 1];
      Lost(cfg, start, before) + LostBy(After(cfg, start, before), run[|run| - 1])
  }

  /** The application bytes sealed since start. */
  function SealedSince(start: Conn, c: Conn): seq<byte> {
    if |AppPlain(start.log)| <= |AppPlain(c.log)| then AppPlain(c.log)[|AppPlain(start.log)|..] else []
  }

  /** c has sealed, after what start had sealed, so many bytes; and the right ones unless some were lost. */
  ghost predicate Tracks(start: Conn, c: Conn, whole: seq<byte>, done: nat, lost: nat) {
    && |AppPlain(c.log)| == |AppPlain(start.log)| + done + lost
    && (lost == 0 ==> SealedUpTo(c, AppPlain(start.log), whole, done))
  }

  lemma CallTracks(cfg: Config, start: Conn, c: Conn, e: Event, whole: seq<byte>, lost: nat)
    requires e.App? && IsBeginning(e.data, whole) && Settled(c) && Tracks(start, c, whole, Progress(c), lost)
    ensures var (c', ret) := Perform(cfg, c, e);
            && Settled(c') && (InOrder(c) ==> InOrder(c'))
            && Tracks(start, c', whole, Accounted(c', ret), lost + LostBy(c, e))
            && (ret > 0 ==> Fresh(c') && c'.buffer == [] && e.data.Some? && (ret == |e.data.value| || cfg.partialWrite))
  {
    hide WriteFrom, AppPlain;
    if !e.shutdown && !Trapped(c, e.data) {
      var c0, data := c.(wnum := 0), e.data.value;
      assert InOrder(c) ==> InOrder(c0);
      WriteFromSealsOnce(cfg, c0, data, e.address, c.wnum);
      if lost == 0 {
        WriteFromSealsData(cfg, c0, data, e.address, c.wnum, AppPlain(start.log), whole);
      }
    }
  }

  lemma OtherTracks(cfg: Config, start: Conn, c: Conn, e: Event, whole: seq<byte>, lost: nat)
    requires !e.App? && Settled(c) && Tracks(start, c, whole, Progress(c), lost)
    ensures var c' := Perform(cfg, c, e).0;
            && Settled(c') && (InOrder(c) ==> InOrder(c'))
            && Tracks(start, c', whole, Progress(c'), lost)
  {
    hide DoWrite, AppPlain;
    if e.Alert? {
      DoWriteFacts(cfg, c, RT_ALERT, e.alert, e.place);
      AppPlainExtends(c.log, Record(RT_ALERT, e.alert));
    }
  }

  /** While a write is being retried, what has been sealed is its beginning, plus whatever was forgotten. */
  lemma {:induction false} RunTracks(cfg: Config, start: Conn, run: seq<Event>, whole: seq<byte>)
    requires Fresh(start) && Unfinished(cfg, start, run, whole)
    ensures var c := After(cfg, start, run);
            && Settled(c) && (InOrder(start) ==> InOrder(c))
            && Tracks(start, c, whole, Progress(c), Lost(cfg, start, run))
  {
    if run == [] {
      assert AppPlain(start.log) == AppPlain(start.log) + whole[..0];
    } else {
      var before, e := run[..|run| - 1], run[|run| - 1];
      RunTracks(cfg, start, before, whole);
      hide Perform, Settled, InOrder, Tracks, LostBy;
      var c := After(cfg, start, before);
      if e.App? {
        CallTracks(cfg, start, c, e, whole, Lost(cfg, start, before));
      } else {
        OtherTracks(cfg, start, c, e, whole, Lost(cfg, start, before));
      }
    }
  }

  /**
   * When a retried write at last returns r > 0, exactly the first r bytes of the caller's buffer have been
   * sealed, once and in order, if and only if no call was refused for its length while a record of the
   * write was already finished; and everything sealed has reached the transport in order.
   */
  lemma ExactlyOnce(cfg: Config, start: Conn, run: seq<Event>, whole: seq<byte>, last: Event)
    requires Fresh(start) && InOrder(start) && Unfinished(cfg, start, run, whole)
    requires last.App? && IsBeginning(last.data, whole)
    requires Perform(cfg, After(cfg, start, run), last).1 > 0
    ensures var (c, r) := Perform(cfg, After(cfg, start, run), last);
            && r <= |whole| && (cfg.partialWrite || r == |last.data.value|)
            && (SealedSince(start, c) == whole[..r] <==> Lost(cfg, start, run) == 0)
            && Fresh(c) && c.buffer == [] && c.wire == c.queued
  {
    hide AppPlain, WriteFrom, Unfinished, Lost;
    RunTracks(cfg, start, run, whole);
    var before := After(cfg, start, run);
    CallTracks(cfg, start, before, last, whole, Lost(cfg, start, run));
    var (c, r) := Perform(cfg, before, last);
    assert LostBy(before, last) == 0;
    assert r <= |whole| by {
      assert last.data.value <= whole;
      assert before.wnum <= |last.data.value|;
    }
    assert c.wire + [] == c.wire;
  }

  /** Every call is at least as long as the one before it. */
  ghost predicate NeverShrinks(run: seq<Event>) {
    && (forall i :: 0 <= i < |run| && run[i].App? ==> run[i].data.Some?)
    && forall i, j :: 0 <= i < j < |run| && run[i].App? && run[j].App? ==> |run[i].data.value| <= |run[j].data.value|
  }

  /** wnum is at most the length of every later call. */
  ghost predicate WnumWithin(c: Conn, run: seq<Event>, n: nat)
    requires n <= |run|
  {
    c.wnum == 0 || exists i :: 0 <= i < n && run[i].App? && run[i].data.Some? && c.wnum <= |run[i].data.value|
  }

  lemma {:induction false} WriteFromWithin(cfg: Config, c: Conn, data: seq<byte>, address: int, tot: nat)
    requires tot <= |data| && c.wnum == 0
    ensures WriteFrom(cfg, c, data, address, tot).0.wnum <= |data|
    decreases |data| - tot
  {
    hide DoWrite, Chunk, WriteFrom;
    DoWriteKeepsWnum(cfg, c, RT_APPLICATION_DATA, Chunk(cfg, data, tot), address + tot);
    WriteFromStep(cfg, c, data, address, tot);
    var r := WriteChunk(cfg, c, data, address, tot);
    if r.1 > 0 && r.1 != |data| - tot && !cfg.partialWrite {
      WriteFromWithin(cfg, r.0, data, address, tot + r.1);
    }
  }

  lemma DoWriteKeepsWnum(cfg: Config, c: Conn, typ: byte, data: seq<byte>, address: int)
    ensures DoWrite(cfg, c, typ, data, address).0.wnum == c.wnum
  {
    hide Flush;
    FlushFacts(c);
    if c.pending.None? && SealPending(cfg, c, typ, data, address).Some? {
      FlushFacts(SealPending(cfg, c, typ, data, address).value);
    }
  }

  lemma {:induction false} ShrinkFreeWithin(cfg: Config, start: Conn, run: seq<Event>)
    requires start.wnum == 0 && NeverShrinks(run)
    ensures WnumWithin(After(cfg, start, run), run, |run|)
    ensures Lost(cfg, start, run) == 0
  {
    if run != [] {
      var before, e := run[..|run| - 1], run[|run| - 1];
      ShrinkFreeWithin(cfg, start, before);
      var c := After(cfg, start, before);
      hide DoWrite, WriteFrom;
      match e
      case App(data, address, shutdown) =>
        if c.wnum != 0 {
          var i :| 0 <= i < |before| && before[i].App? && before[i].data.Some? && c.wnum <= |before[i].data.value|;
          assert run[i] == before[i] && c.wnum <= |data.value|;
        }
        if !shutdown {
          WriteFromWithin(cfg, c.(wnum := 0), data.value, address, c.wnum);
        }
        assert After(cfg, start, run).wnum <= |run[|run| - 1].data.value|;
      case Alert(alert, place) => DoWriteKeepsWnum(cfg, c, RT_ALERT, alert, place); WithinLonger(c, before, run);
      case Cork(_) => WithinLonger(c, before, run);
    }
  }

  lemma WithinLonger(c: Conn, before: seq<Event>, run: seq<Event>)
    requires before <= run && WnumWithin(c, before, |before|)
    ensures WnumWithin(c, run, |run|)
  {
  }

  /** Retries that do not shrink never lose a byte. */
  lemma NonShrinkingRetriesSealOnce(cfg: Config, start: Conn, run: seq<Event>, whole: seq<byte>, last: Event)
    requires Fresh(start) && InOrder(start) && Unfinished(cfg, start, run, whole) && NeverShrinks(run)
    requires last.App? && IsBeginning(last.data, whole)
    requires Perform(cfg, After(cfg, start, run), last).1 > 0
    ensures var (c, r) := Perform(cfg, After(cfg, start, run), last);
            0 < r <= |whole| && SealedSince(start, c) == whole[..r] && c.buffer == [] && c.wire == c.queued
  {
    hide Perform, Unfinished, SealedSince;
    ShrinkFreeWithin(cfg, start, run);
    ExactlyOnce(cfg, start, run, whole, last);
  }

  // ----- a retry that shrinks

  /** Three calls: the whole buffer, then nothing, then the whole buffer again. */
  const SHRINKING_OUTCOMES: seq<int> := [MAX_PLAIN_LENGTH, 0, MAX_PLAIN_LENGTH, MAX_PLAIN_LENGTH]

  ghost predicate PlainSeal(cfg: Config) {
    && cfg.Valid() && cfg.movingBuffer && !cfg.partialWrite
    && forall n, typ, data :: cfg.seal(n, typ, data) == Some(data)
  }

  function Quiet(outcomes: seq<int>): Conn {
    Conn(0, None, [], [], 0, outcomes, [], [], [])
  }

  /** A record goes out whole. */
  lemma OneRecord(cfg: Config, c: Conn, data: seq<byte>, address: int)
    requires PlainSeal(cfg) && c.pending.None? && c.buffer == [] && c.flight == []
    requires 0 < |data| <= MAX_PLAIN_LENGTH && |data| + cfg.overhead <= MAX_BUFFER
    requires c.outcomes != [] && c.outcomes[0] == MAX_PLAIN_LENGTH
    ensures DoWrite(cfg, c, RT_APPLICATION_DATA, data, address) ==
            (c.(tries := c.tries + 1, outcomes := c.outcomes[1..], log := c.log + [Record(RT_APPLICATION_DATA, data)],
                queued := c.queued + data, wire := c.wire + data), |data|)
  {
    assert c.flight + data == data && c.queued + [] + data == c.queued + data;
    assert data[..|data|] == data && data[|data|..] == [];
    assert cfg.Sealed(c.tries, RT_APPLICATION_DATA, data) == Some(data);
    var c1 := SealPending(cfg, c, RT_APPLICATION_DATA, data, address).value;
    assert Flush(c1) == (c1.(buffer := [], outcomes := c.outcomes[1..], wire := c.wire + data), 1);
  }

  /** A record the transport refuses stays pending. */
  lemma OneRefused(cfg: Config, c: Conn, data: seq<byte>, address: int)
    requires PlainSeal(cfg) && c.pending.None? && c.buffer == [] && c.flight == []
    requires 0 < |data| <= MAX_PLAIN_LENGTH && |data| + cfg.overhead <= MAX_BUFFER
    requires c.outcomes != [] && c.outcomes[0] == 0
    ensures DoWrite(cfg, c, RT_APPLICATION_DATA, data, address) ==
            (c.(tries := c.tries + 1, outcomes := c.outcomes[1..], log := c.log + [Record(RT_APPLICATION_DATA, data)],
                queued := c.queued + data, buffer := data,
                pending := Some(Pending(|data|, RT_APPLICATION_DATA, address))), 0)
  {
    assert c.flight + data == data && c.queued + [] + data == c.queued + data;
    assert cfg.Sealed(c.tries, RT_APPLICATION_DATA, data) == Some(data);
  }

  /** The pending record goes out on the next call, and counts with the length it was sealed with. */
  lemma OneResumed(cfg: Config, c: Conn, data: seq<byte>, address: int)
    requires PlainSeal(cfg) && c.pending.Some? && c.pending.value.typ == RT_APPLICATION_DATA
    requires 0 < |c.buffer| <= MAX_PLAIN_LENGTH && c.pending.value.len <= |data|
    requires c.outcomes != [] && c.outcomes[0] == MAX_PLAIN_LENGTH
    ensures DoWrite(cfg, c, RT_APPLICATION_DATA, data, address) ==
            (c.(outcomes := c.outcomes[1..], buffer := [], wire := c.wire + c.buffer, pending := None),
             c.pending.value.len)
  {
    assert c.buffer[..|c.buffer|] == c.buffer && c.buffer[|c.buffer|..] == [];
    assert Flush(c) == (c.(buffer := [], outcomes := c.outcomes[1..], wire := c.wire + c.buffer), 1);
  }

  /**
   * The call in the middle is refused for its length, but has cleared wnum: the last call succeeds and
   * reports the whole buffer, of which all but the first byte has been sealed and sent twice.
   */
  lemma ShrinkingRetryRepeats(cfg: Config, whole: seq<byte>, address: int)
    requires PlainSeal(cfg) && |whole| == cfg.maxSendFragment + 1 && cfg.maxSendFragment + cfg.overhead <= MAX_BUFFER
    ensures var start := Quiet(SHRINKING_OUTCOMES);
            var run := [App(Some(whole), address, false), App(Some([]), address, false)];
            var end := Perform(cfg, After(cfg, start, run), App(Some(whole), address, false));
            && Fresh(start) && InOrder(start) && Unfinished(cfg, start, run, whole)
            && end.1 == |whole| && SealedSince(start, end.0) == whole + whole[1..]
  {
    hide Perform;
    var start := Quiet(SHRINKING_OUTCOMES);
    var e1, e2 := App(Some(whole), address, false), App(Some([]), address, false);
    var c2, c3 := HalfWay(cfg, whole, address, 1), HalfWay(cfg, whole, address, 0);
    FirstCall(cfg, whole, address);
    MiddleCall(cfg, whole, address);
    LastCall(cfg, whole, address);
    assert [e1, e2][..1] == [e1] && [e1][..0] == [];
    assert After(cfg, start, []) == start && Unfinished(cfg, start, [], whole);
    assert After(cfg, start, [e1]) == c2 && Unfinished(cfg, start, [e1], whole);
    assert After(cfg, start, [e1, e2]) == c3;
  }

  /** All but the last byte is out, and the last is sealed; marked or not as sent in wnum. */
  ghost function HalfWay(cfg: Config, whole: seq<byte>, address: int, marked: nat): Conn
    requires |whole| == cfg.maxSendFragment + 1
  {
    var m := cfg.maxSendFragment;
    Conn(marked * m, Some(Pending(1, RT_APPLICATION_DATA, address + m)), whole[m..], [], 2, SHRINKING_OUTCOMES[2..],
         [Record(RT_APPLICATION_DATA, whole[..m]), Record(RT_APPLICATION_DATA, whole[m..])], whole, whole[..m])
  }

  lemma FirstCall(cfg: Config, whole: seq<byte>, address: int)
    requires PlainSeal(cfg) && |whole| == cfg.maxSendFragment + 1 && cfg.maxSendFragment + cfg.overhead <= MAX_BUFFER
    ensures Perform(cfg, Quiet(SHRINKING_OUTCOMES), App(Some(whole), address, false)) ==
            (HalfWay(cfg, whole, address, 1), 0)
  {
    hide DoWrite, WriteFrom;
    var m, start := cfg.maxSendFragment, Quiet(SHRINKING_OUTCOMES);
    assert Chunk(cfg, whole, 0) == whole[..m] && Chunk(cfg, whole, m) == whole[m..];
    OneRecord(cfg, start, whole[..m], address);
    WriteFromStep(cfg, start, whole, address, 0);
    var c1 := WriteChunk(cfg, start, whole, address, 0).0;
    OneRefused(cfg, c1, whole[m..], address + m);
    WriteFromStep(cfg, c1, whole, address, m);
    assert whole[..m] + whole[m..] == whole && [] + whole[..m] == whole[..m];
    var x, y := Record(RT_APPLICATION_DATA, whole[..m]), Record(RT_APPLICATION_DATA, whole[m..]);
    assert [] + [x] + [y] == [x, y] && SHRINKING_OUTCOMES[1..][1..] == SHRINKING_OUTCOMES[2..];
  }

  lemma MiddleCall(cfg: Config, whole: seq<byte>, address: int)
    requires PlainSeal(cfg) && |whole| == cfg.maxSendFragment + 1
    ensures Perform(cfg, HalfWay(cfg, whole, address, 1), App(Some([]), address, false)) ==
            (HalfWay(cfg, whole, address, 0), -1)
  {
  }

  lemma LastCall(cfg: Config, whole: seq<byte>, address: int)
    requires PlainSeal(cfg) && |whole| == cfg.maxSendFragment + 1 && cfg.maxSendFragment + cfg.overhead <= MAX_BUFFER
    ensures var end := Perform(cfg, HalfWay(cfg, whole, address, 0), App(Some(whole), address, false));
            end.1 == |whole| && SealedSince(Quiet(SHRINKING_OUTCOMES), end.0) == whole + whole[1..]
  {
    hide DoWrite, WriteFrom, AppPlain;
    var m, c3 := cfg.maxSendFragment, HalfWay(cfg, whole, address, 0);
    OneResumed(cfg, c3, Chunk(cfg, whole, 0), address);
    WriteFromStep(cfg, c3, whole, address, 0);
    var c4 := WriteChunk(cfg, c3, whole, address, 0).0;
    assert Chunk(cfg, whole, 1) == whole[1..];
    OneRecord(cfg, c4, whole[1..], address + 1);
    WriteFromStep(cfg, c4, whole, address, 1);
    LogOfThree(whole[..m], whole[m..], whole[1..]);
    assert whole[..m] + whole[m..] == whole;
  }

  lemma LogOfThree(a: seq<byte>, b: seq<byte>, c: seq<byte>)
    ensures AppPlain([]) == []
    ensures AppPlain([Record(RT_APPLICATION_DATA, a), Record(RT_APPLICATION_DATA, b)]
                     + [Record(RT_APPLICATION_DATA, c)])
            == a + b + c
  {
    var x, y, z := Record(RT_APPLICATION_DATA, a), Record(RT_APPLICATION_DATA, b), Record(RT_APPLICATION_DATA, c);
    AppPlainExtends([], x);
    AppPlainExtends([x], y);
    AppPlainExtends([x, y], z);
    assert [] + [x] == [x] && [x] + [y] == [x, y];
  }

  // ----- the connection

  /** The write buffer: the contents start at offset in buf and have room to grow to cap bytes. */
  class SslBuffer {
    var buf: array<byte>
    var offset: nat
    var size: nat
    var cap: nat

    ghost predicate Valid()
      reads this
    {
      offset + cap <= buf.Length && size <= cap <= MAX_BUFFER
    }

    function Contents(): (s: seq<byte>)
      requires Valid()
      reads this, buf
      ensures |s| == size
    {
      buf[offset..offset + size]
    }

    constructor ()
      ensures Valid() && fresh(buf) && size == cap == 0
    {
      buf := new byte[0];
      offset, size, cap := 0, 0, 0;
    }

    method Clear()
      modifies this
      ensures Valid() && fresh(buf) && size == 0
    {
      buf := new byte[0];
      offset, size, cap := 0, 0, 0;
    }

    /** Makes room for newCap bytes in all; align is where the new memory falls within an alignment unit. */
    method EnsureCap(newCap: nat, align: nat) returns (ok: bool)
      requires Valid()
      modifies this
      ensures Valid() && Contents() == old(Contents()) && (buf == old(buf) || fresh(buf))
      ensures ok <==> newCap <= MAX_BUFFER
      ensures ok ==> cap >= newCap
    {
      if newCap > MAX_BUFFER {
        return false;
      }
      if cap >= newCap {
        return true;
      }
      var newBuf := new byte[newCap + align];
      ghost var was := Contents();
      CopyTo(newBuf, align, buf[offset..offset + size]);
      assert newBuf[align..align + size] == was;
      buf, offset, cap := newBuf, align, newCap;
      return true;
    }

    /** Fills the bytes after the contents; they count once DidWrite is told of them. */
    method Fill(s: seq<byte>)
      requires Valid() && |s| <= cap - size
      modifies buf
      ensures Contents() == old(Contents())
      ensures buf[offset + size..offset + size + |s|] == s
    {
      ghost var was := Contents();
      CopyTo(buf, offset + size, s);
      assert buf[..offset + size][offset..] == was;
      assert buf[offset..offset + size] == buf[..offset + size][offset..];
    }

    method DidWrite(n: nat)
      requires Valid() && n <= cap - size
      modifies this`size
      ensures Valid() && Contents() == old(Contents()) + old(buf[offset + size..offset + size + n])
    {
      size := size + n;
    }

    method Append(s: seq<byte>)
      requires Valid() && |s| <= cap - size
      modifies this`size, buf
      ensures Valid() && Contents() == old(Contents()) + s
    {
      Fill(s);
      DidWrite(|s|);
    }

    method Consume(n: nat)
      requires Valid() && n <= size
      modifies this`offset, this`size, this`cap
      ensures Valid() && Contents() == old(Contents())[n..]
    {
      offset, size, cap := offset + n, size - n, cap - n;
    }
  }

  /** A byte stream out: each write takes as many bytes as the next outcome says, or fails with it. */
  class StreamBio {
    var outcomes: seq<int>
    var wire: seq<byte>

    constructor (outcomes: seq<int>)
      ensures this.outcomes == outcomes && wire == []
    {
      this.outcomes, wire := outcomes, [];
    }

    method Write(data: seq<byte>) returns (ret: int)
      requires data != []
      modifies this
      ensures ret <= |data|
      ensures if old(outcomes) == [] then ret == -1 && outcomes == [] && wire == old(wire)
              else outcomes == old(outcomes)[1..] && ret == Min(old(outcomes)[0], |data|)
                   && wire == if ret > 0 then old(wire) + data[..ret] else old(wire)
    {
      if outcomes == [] {
        return -1;
      }
      ret, outcomes := Min(outcomes[0], |data|), outcomes[1..];
      if ret > 0 {
        wire := wire + data[..ret];
      }
    }

    method Flush() returns (ok: bool)
      modifies this
      ensures wire == old(wire)
      ensures ok <==> old(outcomes) != [] && old(outcomes)[0] > 0
      ensures outcomes == if old(outcomes) == [] then [] else old(outcomes)[1..]
    {
      if outcomes == [] {
        return false;
      }
      ok, outcomes := outcomes[0] > 0, outcomes[1..];
    }
  }

  class Connection {
    const cfg: Config
    const buffer: SslBuffer
    const bio: StreamBio
    var shutdown: bool
    var wnum: nat
    var wpendPending: bool
    var wpendTot: nat
    var wpendRet: nat
    var wpendType: byte
    var wpendBuf: int
    var flight: seq<byte>
    var tries: nat
    ghost var log: seq<Record>
    ghost var queued: seq<byte>

    constructor (cfg: Config, outcomes: seq<int>)
      requires cfg.Valid()
      ensures Valid() && this.cfg == cfg && !shutdown
      ensures State() == Conn(0, None, [], [], 0, outcomes, [], [], [])
    {
      this.cfg := cfg;
      buffer := new SslBuffer();
      bio := new StreamBio(outcomes);
      shutdown, wnum, wpendPending, wpendTot, wpendRet, wpendType, wpendBuf := false, 0, false, 0, 0, 0, 0;
      flight, tries, log, queued := [], 0, [], [];
    }

    ghost predicate Valid()
      reads this, buffer
    {
      && cfg.Valid() && buffer.Valid() && wpendTot == wpendRet
    }

    ghost function State(): Conn
      requires Valid()
      reads this, buffer, buffer.buf, bio
    {
      Conn(wnum, if wpendPending then Some(Pending(wpendTot, wpendType, wpendBuf)) else None, buffer.Contents(), flight,
           tries, bio.outcomes, log, queued, bio.wire)
    }

    /** Hands the buffer to the transport until it is empty or a write fails. */
    method FlushBuffer() returns (ret: int)
      requires Valid()
      modifies buffer, bio
      ensures Valid() && (State(), ret) == Flush(old(State()))
      ensures buffer.buf == old(buffer.buf) || fresh(buffer.buf)
    {
      ghost var start := State();
      while buffer.size > 0
        invariant Valid() && Flush(State()) == Flush(start)
        invariant buffer.buf == old(buffer.buf)
        decreases |bio.outcomes|
      {
        ghost var c := State();
        var n := bio.Write(buffer.Contents());
        if n <= 0 {
          return n;
        }
        buffer.Consume(n);
        assert Flush(c) == Flush(State());
      }
      assert State().buffer == [] && Flush(State()) == (State(), 1);
      buffer.Clear();
      return 1;
    }

    method RetryPending(typ: byte, len: nat, address: int) returns (ret: int)
      requires Valid() && wpendPending
      modifies this`wpendPending, buffer, bio
      ensures Valid() && (State(), ret) == WritePending(cfg, old(State()), typ, len, address)
      ensures buffer.buf == old(buffer.buf) || fresh(buffer.buf)
    {
      hide Flush, SslBuffer.Contents;
      FlushFacts(State());
      if wpendTot > len || (!cfg.movingBuffer && wpendBuf != address) || wpendType != typ {
        return -1;
      }
      ret := FlushBuffer();
      if ret <= 0 {
        return ret;
      }
      wpendPending := false;
      return wpendRet;
    }

    /** Seals one record behind any unsent handshake bytes and hands it to the transport. */
    method WriteRecord(typ: byte, data: seq<byte>, address: int, align: nat) returns (ret: int)
      requires Valid()
      modifies this, buffer, buffer.buf, bio
      ensures Valid() && (State(), ret) == DoWrite(cfg, old(State()), typ, data, address)
      ensures shutdown == old(shutdown) && (buffer.buf == old(buffer.buf) || fresh(buffer.buf))
    {
      hide WritePending, SealPending, Behind, SslBuffer.Contents;
      if wpendPending {
        ret := RetryPending(typ, |data|, address);
        return ret;
      }
      assert buffer.size == |buffer.Contents()|;
      if |data| > MAX_PLAIN_LENGTH || buffer.size > 0 {
        return -1;
      }
      if data == [] {
        return 0;
      }
      var sealed := SealRecord(typ, data, address, align);
      if !sealed {
        return -1;
      }
      ret := RetryPending(typ, |data|, address);
    }

    /** Puts unsent handshake bytes and a new record into the empty buffer, and notes the arguments. */
    method SealRecord(typ: byte, data: seq<byte>, address: int, align: nat) returns (ok: bool)
      requires Valid() && !wpendPending && buffer.size == 0 && data != []
      modifies this, buffer, buffer.buf
      ensures Valid() && shutdown == old(shutdown) && (buffer.buf == old(buffer.buf) || fresh(buffer.buf))
      ensures var c := old(State());
              var fits := |c.flight| + |data| + cfg.overhead <= MAX_BUFFER;
              var next := SealPending(cfg, c, typ, data, address);
              && (ok <==> fits && next.Some?) && (ok ==> wpendPending)
              && State() == if ok then next.value else if fits then Behind(c) else c
    {
      hide SslBuffer.Contents, SealPending, Behind, Config.Sealed;
      SealPendingFrom(cfg, State(), typ, data, address);
      ok := BufferFlight(|data|, align);
      if !ok {
        return false;
      }
      var sealed := cfg.Sealed(tries - 1, typ, data);
      if sealed.None? {
        return false;
      }
      AppendSealed(typ, data, sealed.value, address);
      return true;
    }

    /** Puts a sealed record behind what is buffered and remembers what a retry has to repeat. */
    method AppendSealed(typ: byte, data: seq<byte>, sealed: seq<byte>, address: int)
      requires Valid() && !wpendPending && data != [] && |sealed| <= buffer.cap - buffer.size
      modifies this, buffer, buffer.buf
      ensures Valid() && wpendPending && shutdown == old(shutdown) && buffer.buf == old(buffer.buf)
      ensures var c := old(State());
              State() == c.(buffer := c.buffer + sealed, queued := c.queued + sealed,
                            log := c.log + [Record(typ, data)], pending := Some(Pending(|data|, typ, address)))
    {
      hide SslBuffer.Contents;
      buffer.Append(sealed);
      queued, log := queued + sealed, log + [Record(typ, data)];
      wpendTot, wpendBuf, wpendType, wpendRet, wpendPending := |data|, address, typ, |data|, true;
    }

    /** Makes room for a record of len bytes and moves the unsent handshake bytes into the buffer. */
    method BufferFlight(len: nat, align: nat) returns (ok: bool)
      requires Valid() && !wpendPending && buffer.size == 0
      modifies this`flight, this`queued, this`tries, buffer, buffer.buf
      ensures Valid() && (buffer.buf == old(buffer.buf) || fresh(buffer.buf))
      ensures ok <==> |old(flight)| + len + cfg.overhead <= MAX_BUFFER
      ensures ok ==> len + cfg.overhead <= buffer.cap - buffer.size && tries > 0
      ensures State() == if ok then Behind(old(State())) else old(State())
    {
      hide SslBuffer.Contents;
      ok := buffer.EnsureCap(|flight| + len + cfg.overhead, align);
      if !ok {
        return false;
      }
      assert |buffer.Contents()| == buffer.size == 0;
      buffer.Append(flight);
      assert buffer.Contents() == flight;
      queued, flight, tries := queued + flight, [], tries + 1;
    }

    /** Writes all of data, or resumes a write of it; data is None for a negative length. */
    method Write(data: Option<seq<byte>>, address: int, align: nat) returns (ret: int)
      requires Valid()
      modifies this, buffer, buffer.buf, bio
      ensures Valid() && (State(), ret) == WriteAppData(cfg, old(State()), data, address, shutdown)
      ensures shutdown == old(shutdown)
    {
      hide DoWrite, SslBuffer.Contents, WriteFrom;
      if shutdown {
        return -1;
      }
      var tot := wnum;
      wnum := 0;
      if data.None? || |data.value| < tot {
        return -1;
      }
      ret := WriteRest(data.value, address, tot, align);
    }

    /** The loop: what is left of the data, a record at a time. */
    method WriteRest(d: seq<byte>, address: int, start: nat, align: nat) returns (ret: int)
      requires Valid() && start <= |d|
      modifies this, buffer, buffer.buf, bio
      ensures Valid() && (State(), ret) == WriteFrom(cfg, old(State()), d, address, start)
      ensures shutdown == old(shutdown)
    {
      hide DoWrite, SslBuffer.Contents;
      var tot, n := start, |d| - start;
      ghost var from := State();
      while true
        invariant Valid() && n >= 0 && tot + n == |d| && shutdown == old(shutdown)
        invariant WriteFrom(cfg, State(), d, address, tot) == WriteFrom(cfg, from, d, address, start)
        invariant buffer.buf == old(buffer.buf) || fresh(buffer.buf)
        decreases n
      {
        var nw := Min(n, cfg.maxSendFragment);
        assert d[tot..tot + nw] == Chunk(cfg, d, tot);
        ret := WriteRecord(RT_APPLICATION_DATA, d[tot..tot + nw], address + tot, align);
        if ret <= 0 {
          wnum := tot;
          return ret;
        }
        if ret == n || cfg.partialWrite {
          return tot + ret;
        }
        n, tot := n - ret, tot + ret;
      }
    }
  }
}
