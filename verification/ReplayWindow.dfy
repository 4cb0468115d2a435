/** The DTLS anti-replay window (RFC 6347, section 4.1.2.6) and the reading half of the record layer. */
module ReplayWindow {
  import opened Wire
  import opened Bits

  const MAX_PLAIN_LENGTH: nat := 16384
  const MAX_ENCRYPTED_LENGTH: nat := 256 + 64 + MAX_PLAIN_LENGTH
  const DTLS1_VERSION_MAJOR: nat := 0xfe
  const RT_ALERT: byte := 21
  const WINDOW_SIZE: nat := 64

  /** Bit i of the 64-bit word bits stands for the record number max - i. */
  datatype Window = Window(bits: nat, max: nat)

  const EmptyWindow := Window(0, 0)

  predicate ShouldDiscard(w: Window, s: nat) {
    s <= w.max && (w.max - s >= WINDOW_SIZE || Bit(w.bits, w.max - s))
  }

  function Slide(w: Window, s: nat): Window {
    if s > w.max then
      Window(if s - w.max >= WINDOW_SIZE then 0 else ShiftLeft64(w.bits, s - w.max), s)
    else w
  }

  function Mark(w: Window, s: nat): Window {
    var slid := Slide(w, s);
    if slid.max - s < WINDOW_SIZE then slid.(bits := SetBit(slid.bits, slid.max - s)) else slid
  }

  // ----- the window refines the set of recorded numbers

  /** w is what the numbers in seen leave behind. */
  ghost predicate Tracks(w: Window, seen: set<nat>) {
    && (forall s :: s in seen ==> s <= w.max)
    && (forall s: nat :: s <= w.max && w.max - s < WINDOW_SIZE ==> (Bit(w.bits, w.max - s) <==> s in seen))
    && (w.max in seen || (seen == {} && w.max == 0))
  }

  /** s is at least a whole window behind some number already seen. */
  ghost predicate Stale(seen: set<nat>, s: nat) {
    exists m :: m in seen && m >= s && m - s >= WINDOW_SIZE
  }

  lemma MarkTracks(w: Window, seen: set<nat>, s: nat)
    requires Tracks(w, seen) && !ShouldDiscard(w, s)
    ensures Tracks(Mark(w, s), seen + {s})
  {
    var m, w' := Slide(w, s), Mark(w, s);
    forall t: nat | t <= m.max && m.max - t < WINDOW_SIZE
      ensures Bit(w'.bits, m.max - t) <==> t in seen + {s}
    {
      if m.max - s < WINDOW_SIZE {
        SetBitBit(m.bits, m.max - s, m.max - t);
      }
      if s > w.max && s - w.max < WINDOW_SIZE {
        ShiftLeftBit(w.bits, s - w.max, m.max - t);
      } else if s > w.max {
        ZeroBit(m.max - t);
      }
    }
  }

  lemma DiscardIffSeenOrStale(w: Window, seen: set<nat>, s: nat)
    requires Tracks(w, seen)
    ensures ShouldDiscard(w, s) <==> s in seen || Stale(seen, s)
  {
  }

  // ----- runs over many records and epochs

  /** The epoch is the first two bytes of the eight-byte record number. */
  function EpochOf(number: seq<byte>): nat
    requires |number| == 8
  {
    BigEndian(number[..2])
  }

  datatype ReadState = ReadState(epoch: nat, window: Window)

  const Start := ReadState(0, EmptyWindow)

  /** A record with this number arrives (opens says whether it authenticates), or the cipher changes. */
  datatype Step = Arrive(number: seq<byte>, opens: bool) | ChangeEpoch

  predicate Accepts(st: ReadState, number: seq<byte>, opens: bool)
    requires |number| == 8
  {
    EpochOf(number) == st.epoch && !ShouldDiscard(st.window, BigEndian(number)) && opens
  }

  function Next(st: ReadState, step: Step): ReadState
    requires step.Arrive? ==> |step.number| == 8
  {
    match step
    case Arrive(number, opens) =>
      if Accepts(st, number, opens) then st.(window := Mark(st.window, BigEndian(number))) else st
    case ChangeEpoch =>
      ReadState((st.epoch + 1) % 0x10000, EmptyWindow)
  }

  ghost predicate WellFormed(run: seq<Step>) {
    forall i :: 0 <= i < |run| && run[i].Arrive? ==> |run[i].number| == 8
  }

  ghost function After(run: seq<Step>): ReadState
    requires WellFormed(run)
  {
    if run == [] then Start else Next(After(run[..|run| - 1]), run[|run| - 1])
  }

  /** The record numbers opened successfully in the run, in order. */
  ghost function Accepted(run: seq<Step>): seq<seq<byte>>
    requires WellFormed(run)
  {
    if run == [] then []
    else
      var before, step := run[..|run| - 1], run[|run| - 1];
      if step.Arrive? && Accepts(After(before), step.number, step.opens)
      then Accepted(before) + [step.number] else Accepted(before)
  }

  ghost function EpochChanges(run: seq<Step>): nat {
    if run == [] then 0
    else EpochChanges(run[..|run| - 1]) + if run[|run| - 1].ChangeEpoch? then 1 else 0
  }

  /** The numbers in log that carry this epoch. */
  ghost function InEpoch(log: seq<seq<byte>>, epoch: nat): set<nat>
    requires forall n :: n in log ==> |n| == 8
  {
    set n | n in log && EpochOf(n) == epoch :: BigEndian(n)
  }

  ghost predicate RunInvariant(st: ReadState, log: seq<seq<byte>>) {
    && (forall n :: n in log ==> |n| == 8 && EpochOf(n) <= st.epoch)
    && Tracks(st.window, InEpoch(log, st.epoch))
    && Distinct(log)
  }

  lemma AcceptKeepsInvariant(st: ReadState, log: seq<seq<byte>>, number: seq<byte>)
    requires RunInvariant(st, log) && |number| == 8 && Accepts(st, number, true)
    ensures RunInvariant(Next(st, Arrive(number, true)), log + [number])
  {
    var s, seen := BigEndian(number), InEpoch(log, st.epoch);
    MarkTracks(st.window, seen, s);
    assert InEpoch(log + [number], st.epoch) == seen + {s};
    DiscardIffSeenOrStale(st.window, seen, s);
    assert number !in log;
  }

  lemma StartInvariant()
    ensures RunInvariant(Start, [])
  {
  }

  lemma EpochKeepsInvariant(st: ReadState, log: seq<seq<byte>>)
    requires RunInvariant(st, log) && st.epoch + 1 < 0x10000
    ensures RunInvariant(Next(st, ChangeEpoch), log)
  {
  }

  lemma {:induction false} RunKeepsInvariant(run: seq<Step>)
    requires WellFormed(run) && EpochChanges(run) < 0x10000
    ensures After(run).epoch == EpochChanges(run)
    ensures RunInvariant(After(run), Accepted(run))
  {
    hide RunInvariant;
    hide Tracks, Distinct, InEpoch, Mark, ShouldDiscard;
    if run == [] {
      StartInvariant();
    } else {
      var before, step := run[..|run| - 1], run[|run| - 1];
      RunKeepsInvariant(before);
      var st, log := After(before), Accepted(before);
      if step.Arrive? && Accepts(st, step.number, step.opens) {
        AcceptKeepsInvariant(st, log, step.number);
      } else if step.ChangeEpoch? {
        EpochKeepsInvariant(st, log);
      }
    }
  }

  /** Over all epochs, no record number is opened successfully twice. */
  lemma NoRecordOpenedTwice(run: seq<Step>)
    requires WellFormed(run) && EpochChanges(run) < 0x10000
    ensures Distinct(Accepted(run))
  {
    RunKeepsInvariant(run);
  }

  /**
   * A record of the current epoch that authenticates is dropped exactly when its number was plain
   * before in this epoch or lies a whole window behind one that was.
   */
  lemma DroppedIffReplayedOrStale(run: seq<Step>, number: seq<byte>)
    requires WellFormed(run) && EpochChanges(run) < 0x10000
    requires |number| == 8 && EpochOf(number) == After(run).epoch
    ensures forall n :: n in Accepted(run) ==> |n| == 8
    ensures var seen := InEpoch(Accepted(run), After(run).epoch);
            !Accepts(After(run), number, true) <==> BigEndian(number) in seen || Stale(seen, BigEndian(number))
  {
    RunKeepsInvariant(run);
    DiscardIffSeenOrStale(After(run).window, InEpoch(Accepted(run), After(run).epoch), BigEndian(number));
  }

  // ----- the record reader

  datatype OpenResult = OpenSuccess | OpenDiscard | OpenPartial | OpenCloseNotify | OpenError

  datatype Record = Record(typ: byte, version: nat, number: seq<byte>, body: seq<byte>)

  /** Parses one record header and its body; None if incomplete or over-long. */
  function ParseRecord(s: seq<byte>): (r: Option<Record>)
    ensures r.Some? ==> |r.value.number| == 8 && 13 + |r.value.body| <= |s|
  {
    if |s| < 13 then None
    else
      var len := BigEndian(s[11..13]);
      if |s| < 13 + len || len > MAX_ENCRYPTED_LENGTH then None
      else Some(Record(s[0], BigEndian(s[1..3]), s[3..11], s[13..13 + len]))
  }

  /** The cipher's Open: type, version, record number and ciphertext to plaintext. */
  type OpenFunction = (byte, nat, seq<byte>, seq<byte>) -> Option<seq<byte>>

  class RecordReader {
    var epoch: nat
    var bits: nat
    var maxSeqNum: nat
    var nullCipher: bool
    var recordVersion: nat
    var receivedCloseNotify: bool

    ghost function State(): ReadState
      reads this
    {
      ReadState(epoch, Window(bits, maxSeqNum))
    }

    predicate VersionOk(version: nat)
      reads this
    {
      if nullCipher then version / 256 == DTLS1_VERSION_MAJOR else version == recordVersion
    }

    method ReadU64(number: seq<byte>) returns (ret: nat)
      requires |number| == 8
      ensures ret == BigEndian(number)
    {
      ret := 0;
      for i := 0 to 8
        invariant ret == BigEndian(number[..i])
      {
        assert number[..i + 1][..i] == number[..i];
        ret := ret * 256 + number[i];
      }
      assert number[..8] == number;
    }

    method BitmapShouldDiscard(number: seq<byte>) returns (discard: bool)
      requires |number| == 8
      ensures discard == ShouldDiscard(Window(bits, maxSeqNum), BigEndian(number))
    {
      var s := ReadU64(number);
      if s > maxSeqNum {
        return false;
      }
      var idx := maxSeqNum - s;
      discard := idx >= WINDOW_SIZE || Bit(bits, idx);
    }

    method BitmapRecord(number: seq<byte>)
      requires |number| == 8
      modifies this`bits, this`maxSeqNum
      ensures Window(bits, maxSeqNum) == Mark(old(Window(bits, maxSeqNum)), BigEndian(number))
    {
      var s := ReadU64(number);
      if s > maxSeqNum {
        var shift := s - maxSeqNum;
        if shift >= WINDOW_SIZE {
          bits := 0;
        } else {
          bits := ShiftLeft64(bits, shift);
        }
        maxSeqNum := s;
      }
      var idx := maxSeqNum - s;
      if idx < WINDOW_SIZE {
        bits := SetBit(bits, idx);
      }
    }

    /** Opens the first record in input; a record that is dropped or fails leaves the window alone. */
    method OpenRecord(input: seq<byte>, open: OpenFunction, processAlert: seq<byte> -> OpenResult)
      returns (result: OpenResult, typ: byte, plaintext: seq<byte>, consumed: nat)
      modifies this`bits, this`maxSeqNum
      ensures receivedCloseNotify ==> result == OpenCloseNotify && consumed == 0 && State() == old(State())
      ensures !receivedCloseNotify && input == [] ==> result == OpenPartial && consumed == 0 && State() == old(State())
      ensures !receivedCloseNotify && input != [] ==>
                var record := ParseRecord(input);
                if record.None? || !VersionOk(record.value.version) then
                  result == OpenDiscard && consumed == |input| && State() == old(State())
                else
                  var r := record.value;
                  var plain := open(r.typ, r.version, r.number, r.body);
                  var fits := plain.Some? && |plain.value| <= MAX_PLAIN_LENGTH;
                  && consumed == 13 + |r.body|
                  && State() == Next(old(State()), Arrive(r.number, fits))
                  && (!Accepts(old(State()), r.number, plain.Some?) ==> result == OpenDiscard)
                  && (Accepts(old(State()), r.number, plain.Some?) ==>
                        result == if !fits then OpenError
                                  else if r.typ == RT_ALERT then processAlert(plain.value) else OpenSuccess)
                  && (Accepts(old(State()), r.number, fits) && r.typ != RT_ALERT ==>
                         typ == r.typ && plaintext == plain.value)
    {
      typ, plaintext, consumed := 0, [], 0;
      if receivedCloseNotify {
        return OpenCloseNotify, typ, plaintext, consumed;
      }
      if input == [] {
        return OpenPartial, typ, plaintext, consumed;
      }
      var record := ParseRecord(input);
      if record.None? || !VersionOk(record.value.version) {
        return OpenDiscard, typ, plaintext, |input|;
      }
      var r := record.value;
      consumed := 13 + |r.body|;
      var discard := BitmapShouldDiscard(r.number);
      if EpochOf(r.number) != epoch || discard {
        return OpenDiscard, typ, plaintext, consumed;
      }
      var plain := open(r.typ, r.version, r.number, r.body);
      if plain.None? {
        return OpenDiscard, typ, plaintext, consumed;
      }
      if |plain.value| > MAX_PLAIN_LENGTH {
        return OpenError, typ, plaintext, consumed;
      }
      BitmapRecord(r.number);
      if r.typ == RT_ALERT {
        return processAlert(plain.value), typ, plaintext, consumed;
      }
      return OpenSuccess, r.typ, plain.value, consumed;
    }

    /** A new read cipher: next epoch, empty window. Refused while handshake data is buffered. */
    method SetReadState(hasUnprocessedData: bool, newRecordVersion: nat) returns (ok: bool)
      modifies this
      ensures ok == !hasUnprocessedData
      ensures State() == if ok then Next(old(State()), ChangeEpoch) else old(State())
      ensures receivedCloseNotify == old(receivedCloseNotify)
      ensures ok ==> !nullCipher && recordVersion == newRecordVersion
      ensures !ok ==> nullCipher == old(nullCipher) && recordVersion == old(recordVersion)
    {
      if hasUnprocessedData {
        return false;
      }
      epoch := (epoch + 1) % 0x10000;
      bits, maxSeqNum := 0, 0;
      nullCipher, recordVersion := false, newRecordVersion;
      ok := true;
    }
  }
}
