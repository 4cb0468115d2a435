/** AEAD contexts: how a record's nonce and additional data are put together. */
module Aead {
  import opened Wire
  import opened Bits
  import opened Buffers

  const DTLS1_VERSION: nat := 0xfeff

  /**
   * An AEAD context; id stands for the key it holds. Stateful CBC ciphers draw a random nonce, AES-GCM
   * prefixes the record number with a fixed part and sends it, ChaCha20-Poly1305 XORs the two.
   */
  datatype Context = Context(
    id: nat,
    isNull: bool,
    version: nat,
    fixedNonce: seq<byte>,
    variableNonceLen: nat,
    nonceInRecord: bool,
    randomNonce: bool,
    xorFixedNonce: bool,
    omitAd: bool,
    omitVersion: bool,
    omitLength: bool,
    tagLen: nat,
    blockLen: nat)
  {
    /** What Create establishes. */
    predicate Valid() {
      && (!isNull && !randomNonce ==> variableNonceLen == 8)
      && (xorFixedNonce ==> !randomNonce && !nonceInRecord && |fixedNonce| >= variableNonceLen)
      && (randomNonce ==> nonceInRecord)
      && (isNull ==> !nonceInRecord && tagLen == 0 && blockLen == 0)
    }

    /** The version written in record headers; the null cipher has none of its own at first. */
    function RecordVersion(): nat {
      if version == 0 then DTLS1_VERSION else version
    }

    function ExplicitNonceLen(): nat {
      if nonceInRecord then variableNonceLen else 0
    }

    function SuffixLen(inLen: nat): nat {
      if blockLen == 0 then tagLen else tagLen + blockLen - (inLen + tagLen) % blockLen
    }

    function MaxOverhead(): (n: nat)
      ensures forall inLen: nat :: ExplicitNonceLen() + SuffixLen(inLen) <= n
    {
      ExplicitNonceLen() + tagLen + blockLen
    }

    function VariableNonce(number: seq<byte>, random: seq<byte>): seq<byte> {
      if randomNonce then random else number
    }

    /** The nonce for a record number (random is used only by contexts that ask for it). */
    function Nonce(number: seq<byte>, random: seq<byte>): seq<byte> {
      var variable := VariableNonce(number, random);
      if xorFixedNonce && |fixedNonce| >= variableNonceLen then
        XorBytes(Zeros(|fixedNonce| - variableNonceLen) + variable, fixedNonce)
      else fixedNonce + variable
    }

    function AdditionalData(typ: byte, recordVersion: nat, number: seq<byte>, plaintextLen: nat): seq<byte> {
      if omitAd then []
      else
        number + [typ]
        + (if omitVersion then [] else ToBigEndian(recordVersion, 2))
        + (if omitLength then [] else ToBigEndian(plaintextLen, 2))
    }
  }

  function XorBytes(s: seq<byte>, t: seq<byte>): (r: seq<byte>)
    ensures |s| == |t| ==> |r| == |s|
  {
    if s == [] || t == [] then [] else XorBytes(s[..|s| - 1], t[..|t| - 1]) + [Xor8(s[|s| - 1], t[|t| - 1])]
  }

  function Xor8(a: byte, b: byte): byte {
    assert Pow2(8) == 256;
    Xor(a, b, 8)
  }

  lemma {:induction false} XorBytesInjective(s: seq<byte>, s': seq<byte>, t: seq<byte>)
    requires |s| == |s'| == |t| && XorBytes(s, t) == XorBytes(s', t)
    ensures s == s'
  {
    if s != [] {
      var n := |s| - 1;
      var r, r' := XorBytes(s[..n], t[..n]), XorBytes(s'[..n], t[..n]);
      assert XorBytes(s, t) == r + [Xor8(s[n], t[n])];
      assert XorBytes(s', t) == r' + [Xor8(s'[n], t[n])];
      assert r == XorBytes(s, t)[..n] == r';
      assert Xor8(s[n], t[n]) == XorBytes(s, t)[n] == Xor8(s'[n], t[n]);
      XorBytesInjective(s[..n], s'[..n], t[..n]);
      assert Pow2(8) == 256;
      XorInjective(s[n], s'[n], t[n], 8);
      assert s == s[..n] + [s[n]];
      assert s' == s'[..n] + [s'[n]];
    }
  }

  /** Under one context that numbers its nonces, different record numbers get different nonces. */
  lemma NonceInjective(ctx: Context, m: seq<byte>, n: seq<byte>, r: seq<byte>, r': seq<byte>)
    requires ctx.Valid() && !ctx.isNull && !ctx.randomNonce && |m| == |n| == 8
    requires ctx.Nonce(m, r) == ctx.Nonce(n, r')
    ensures m == n
  {
    if ctx.xorFixedNonce {
      var pad := Zeros(|ctx.fixedNonce| - 8);
      XorBytesInjective(pad + m, pad + n, ctx.fixedNonce);
      assert m == (pad + m)[|pad|..] == (pad + n)[|pad|..] == n;
    } else {
      var fixed := ctx.fixedNonce;
      assert m == (fixed + m)[|fixed|..] == (fixed + n)[|fixed|..] == n;
    }
  }

  method XorInPlace(a: array<byte>, s: seq<byte>)
    requires |s| == a.Length
    modifies a
    ensures a[..] == XorBytes(old(a[..]), s)
  {
    ghost var was := a[..];
    for i := 0 to a.Length
      invariant a[..i] == XorBytes(was[..i], s[..i])
      invariant a[i..] == was[i..]
    {
      assert was[..i + 1][..i] == was[..i] && s[..i + 1][..i] == s[..i];
      a[i] := Xor8(a[i], s[i]);
      assert a[..i + 1] == a[..i] + [a[i]];
    }
    assert was[..a.Length] == was && s[..a.Length] == s && a[..a.Length] == a[..];
  }

  lemma NonceIs(ctx: Context, number: seq<byte>, random: seq<byte>)
    requires ctx.Valid()
    ensures var variable := ctx.VariableNonce(number, random);
            ctx.Nonce(number, random) ==
            if ctx.xorFixedNonce
            then XorBytes(Zeros(|ctx.fixedNonce| - ctx.variableNonceLen) + variable, ctx.fixedNonce)
            else ctx.fixedNonce + variable
  {
  }

  /** Fills a nonce buffer step by step: fixed part or zeros, variable part, then XOR in place. */
  method AssembleNonce(ctx: Context, number: seq<byte>, random: seq<byte>) returns (nonce: array<byte>)
    requires ctx.Valid() && !ctx.isNull && |number| == 8 && (ctx.randomNonce ==> |random| == ctx.variableNonceLen)
    ensures fresh(nonce)
    ensures nonce[..] == ctx.Nonce(number, random)
  {
    hide XorBytes, Context.Nonce;
    var variable := ctx.VariableNonce(number, random);
    NonceIs(ctx, number, random);
    if ctx.xorFixedNonce {
      var pad := |ctx.fixedNonce| - ctx.variableNonceLen;
      nonce := new byte[|ctx.fixedNonce|](_ => 0);
      CopyTo(nonce, pad, variable);
      assert nonce[..] == Zeros(pad) + variable;
      XorInPlace(nonce, ctx.fixedNonce);
    } else {
      nonce := new byte[|ctx.fixedNonce| + ctx.variableNonceLen](_ => 0);
      CopyTo(nonce, 0, ctx.fixedNonce);
      CopyTo(nonce, |ctx.fixedNonce|, variable);
    }
  }
}

/** Record numbers of the DTLS writer: per-epoch sequence numbers, the previous epoch kept for retransmits. */
module RecordWriter {
  import opened Wire
  import opened Aead
  import opened Buffers

  const RT_HEADER_LENGTH: nat := 13
  const SEQUENCE_LIMIT: nat := 0x1_0000_0000_0000

  /** One successful encryption; number is the six-byte sequence number within the epoch. */
  datatype Sealed = Sealed(epoch: nat, number: nat, ctx: Context, nonce: seq<byte>, typ: byte, plaintext: seq<byte>)

  datatype WriterState = WriterState(epoch: nat, next: nat, lastNext: nat, ctx: Context, lastCtx: Context)

  /** A record is encrypted under the current or previous epoch, or a new write cipher is installed. */
  datatype Step =
    | Seal(previous: bool, typ: byte, plaintext: seq<byte>, random: seq<byte>)
    | Install(newCtx: Context)

  /** The eight bytes that number a record: epoch, then sequence number. */
  function RecordNumber(epoch: nat, number: nat): (s: seq<byte>)
    ensures |s| == 8
  {
    ToBigEndian(epoch, 2) + ToBigEndian(number, 6)
  }

  function Entry(st: WriterState, step: Step): Sealed
    requires step.Seal?
  {
    var epoch := if step.previous then st.epoch - 1 else st.epoch;
    var number := if step.previous then st.lastNext else st.next;
    var ctx := if step.previous then st.lastCtx else st.ctx;
    var e := if epoch < 0 then 0 else epoch;
    Sealed(e, number, ctx, ctx.Nonce(RecordNumber(e, number), step.random), step.typ, step.plaintext)
  }

  function Next(st: WriterState, step: Step): WriterState {
    match step
    case Seal(previous, _, _, _) =>
      if previous then st.(lastNext := (st.lastNext + 1) % SEQUENCE_LIMIT)
      else st.(next := (st.next + 1) % SEQUENCE_LIMIT)
    case Install(ctx) =>
      WriterState((st.epoch + 1) % 0x10000, 0, st.next, ctx, st.ctx)
  }

  /** Sealing takes the last sequence number of its epoch, and the counter wraps. */
  predicate Wraps(st: WriterState, step: Step) {
    step.Seal? && (if step.previous then st.lastNext else st.next) + 1 == SEQUENCE_LIMIT
  }

  // ----- runs

  ghost function Start(ctx: Context): WriterState {
    WriterState(0, 0, 0, ctx, ctx)
  }

  ghost function After(first: Context, run: seq<Step>): WriterState {
    if run == [] then Start(first) else Next(After(first, run[..|run| - 1]), run[|run| - 1])
  }

  ghost function Log(first: Context, run: seq<Step>): seq<Sealed> {
    if run == [] then []
    else
      var before, step := run[..|run| - 1], run[|run| - 1];
      if step.Seal? then Log(first, before) + [Entry(After(first, before), step)] else Log(first, before)
  }

  /** Every context in use so far, the first included. */
  ghost function Installed(first: Context, run: seq<Step>): set<nat> {
    if run == [] then {first.id}
    else
      Installed(first, run[..|run| - 1]) + if run[|run| - 1].Install? then {run[|run| - 1].newCtx.id} else {}
  }

  /** Each installed context is new, and the previous epoch is used only once there is one. */
  ghost predicate Legal(first: Context, run: seq<Step>) {
    run == [] ||
    var before, step := run[..|run| - 1], run[|run| - 1];
    && Legal(first, before)
    && (step.Install? ==> step.newCtx.id !in Installed(first, before))
    && (step.Seal? && step.previous ==> After(first, before).epoch >= 1)
  }

  /** The sixteen bits of the epoch suffice. */
  ghost predicate EpochsFit(first: Context, run: seq<Step>) {
    run == [] ||
    var before, step := run[..|run| - 1], run[|run| - 1];
    EpochsFit(first, before) && (step.Install? ==> After(first, before).epoch + 1 < 0x10000)
  }

  /** The epochs whose counter has wrapped in the run. */
  ghost function Wrapped(first: Context, run: seq<Step>): set<nat> {
    if run == [] then {}
    else
      var before, step := run[..|run| - 1], run[|run| - 1];
      var st := After(first, before);
      Wrapped(first, before) + if Wraps(st, step) then {Entry(st, step).epoch} else {}
  }

  /** No record is sealed in an epoch whose counter has wrapped before. */
  ghost predicate StopsAtWrap(first: Context, run: seq<Step>) {
    run == [] ||
    var before, step := run[..|run| - 1], run[|run| - 1];
    && StopsAtWrap(first, before)
    && (step.Seal? ==> Entry(After(first, before), step).epoch !in Wrapped(first, before))
  }

  // ----- the invariant

  ghost predicate SameRecordNumber(a: Sealed, b: Sealed) {
    a.epoch == b.epoch && a.number == b.number
  }

  ghost predicate NumbersDistinct(log: seq<Sealed>) {
    forall i, j :: 0 <= i < j < |log| ==> !SameRecordNumber(log[i], log[j])
  }

  /** e belongs to an epoch there has been, and to that epoch's context. */
  ghost predicate InPlace(st: WriterState, e: Sealed) {
    && e.epoch <= st.epoch < 0x10000 && e.number < SEQUENCE_LIMIT
    && (e.epoch == st.epoch ==> e.ctx == st.ctx)
    && (e.epoch + 1 == st.epoch ==> e.ctx == st.lastCtx)
  }

  ghost predicate HasNumber(log: seq<Sealed>, epoch: nat, n: nat) {
    exists i :: 0 <= i < |log| && log[i].epoch == epoch && log[i].number == n
  }

  /** Every number below bound was sealed in this epoch. */
  ghost predicate Contiguous(log: seq<Sealed>, epoch: nat, bound: nat) {
    forall n: nat :: n < bound ==> HasNumber(log, epoch, n)
  }

  /** Entries under one key belong to one epoch. */
  ghost predicate OneEpochPerKey(log: seq<Sealed>) {
    forall i, j :: 0 <= i < |log| && 0 <= j < |log| && log[i].ctx.id == log[j].ctx.id ==> log[i].epoch == log[j].epoch
  }

  /** The numbers used in an epoch: those its counter has passed, or all of them once it has wrapped. */
  ghost predicate Counted(log: seq<Sealed>, epoch: nat, counter: nat, wrapped: bool) {
    if wrapped then Contiguous(log, epoch, SEQUENCE_LIMIT)
    else
      && Contiguous(log, epoch, counter)
      && forall i :: 0 <= i < |log| && log[i].epoch == epoch ==> log[i].number < counter
  }

  ghost predicate Invariant(st: WriterState, log: seq<Sealed>, installed: set<nat>, wrapped: set<nat>) {
    && st.next < SEQUENCE_LIMIT && st.lastNext < SEQUENCE_LIMIT && st.epoch < 0x10000
    && (forall i :: 0 <= i < |log| ==> InPlace(st, log[i]) && log[i].ctx.id in installed)
    && (forall i :: 0 <= i < |log| && log[i].ctx.id == st.ctx.id ==> log[i].epoch == st.epoch)
    && (forall i :: 0 <= i < |log| && log[i].ctx.id == st.lastCtx.id && st.epoch >= 1 ==> log[i].epoch + 1 == st.epoch)
    && st.ctx.id in installed
    && (st.epoch >= 1 ==> st.lastCtx.id in installed && st.lastCtx.id != st.ctx.id)
    && OneEpochPerKey(log)
    && (forall e :: e in wrapped ==> e <= st.epoch)
    && Counted(log, st.epoch, st.next, st.epoch in wrapped)
    && (st.epoch >= 1 ==> Counted(log, st.epoch - 1, st.lastNext, st.epoch - 1 in wrapped))
  }

  lemma ContiguousGrows(log: seq<Sealed>, e: Sealed, epoch: nat, bound: nat)
    requires Contiguous(log, epoch, bound)
    ensures Contiguous(log + [e], epoch, bound)
    ensures e.epoch == epoch && e.number == bound ==> Contiguous(log + [e], epoch, bound + 1)
  {
    var log' := log + [e];
    assert log'[|log|] == e;
    if e.epoch == epoch && e.number == bound {
      assert HasNumber(log', epoch, bound);
    }
    forall n: nat | n < bound
      ensures HasNumber(log', epoch, n)
    {
      assert HasNumber(log, epoch, n);
      var i :| 0 <= i < |log| && log[i].epoch == epoch && log[i].number == n;
      assert log'[i] == log[i];
    }
  }

  lemma CountedGrows(log: seq<Sealed>, e: Sealed, epoch: nat, counter: nat, wrapped: bool)
    requires Counted(log, epoch, counter, wrapped)
    ensures e.epoch != epoch || wrapped ==> Counted(log + [e], epoch, counter, wrapped)
    ensures e.epoch == epoch && e.number == counter && !wrapped ==>
              Counted(log + [e], epoch, counter + 1, false)
              && (counter + 1 == SEQUENCE_LIMIT ==> Counted(log + [e], epoch, 0, true))
  {
    ContiguousGrows(log, e, epoch, if wrapped then SEQUENCE_LIMIT else counter);
  }

  /** A seal repeats a record number exactly when the counter of its epoch has wrapped before. */
  lemma RepeatsIffWrapped(st: WriterState, log: seq<Sealed>, installed: set<nat>, wrapped: set<nat>, step: Step)
    requires Invariant(st, log, installed, wrapped) && step.Seal? && (step.previous ==> st.epoch >= 1)
    ensures var e := Entry(st, step); HasNumber(log, e.epoch, e.number) <==> e.epoch in wrapped
  {
    hide Context.Nonce, RecordNumber, OneEpochPerKey, InPlace;
  }

  lemma SealKeepsInvariant(st: WriterState, log: seq<Sealed>, installed: set<nat>, wrapped: set<nat>, step: Step)
    requires Invariant(st, log, installed, wrapped) && step.Seal? && (step.previous ==> st.epoch >= 1)
    ensures var e := Entry(st, step);
            Invariant(Next(st, step), log + [e], installed, wrapped + if Wraps(st, step) then {e.epoch} else {})
  {
    hide Counted, Context.Nonce, RecordNumber;
    var e, st' := Entry(st, step), Next(st, step);
    CountedGrows(log, e, st.epoch, st.next, st.epoch in wrapped);
    if st.epoch >= 1 {
      CountedGrows(log, e, st.epoch - 1, st.lastNext, st.epoch - 1 in wrapped);
    }
    forall i | 0 <= i < |log + [e]|
      ensures InPlace(st', (log + [e])[i])
      ensures (log + [e])[i].ctx.id == e.ctx.id ==> (log + [e])[i].epoch == e.epoch
    {
      if i < |log| {
        assert InPlace(st, log[i]);
      }
    }
    CountedAny(log + [e], st.epoch, st.next, st'.next);
    if st.epoch >= 1 {
      CountedAny(log + [e], st.epoch - 1, st.lastNext, st'.lastNext);
    }
  }

  /** Once a counter has wrapped it does not matter where it stands. */
  lemma CountedAny(log: seq<Sealed>, epoch: nat, counter: nat, counter': nat)
    ensures Counted(log, epoch, counter, true) ==> Counted(log, epoch, counter', true)
  {
  }

  lemma InstallKeepsInvariant(st: WriterState, log: seq<Sealed>, installed: set<nat>, wrapped: set<nat>, ctx: Context)
    requires Invariant(st, log, installed, wrapped) && ctx.id !in installed && st.epoch + 1 < 0x10000
    ensures Invariant(Next(st, Install(ctx)), log, installed + {ctx.id}, wrapped)
  {
    hide OneEpochPerKey;
    var st' := Next(st, Install(ctx));
    forall i | 0 <= i < |log|
      ensures InPlace(st', log[i])
      ensures log[i].ctx.id == st'.lastCtx.id ==> log[i].epoch + 1 == st'.epoch
    {
      assert InPlace(st, log[i]);
    }
  }

  lemma StartInvariant(first: Context)
    ensures Invariant(Start(first), [], {first.id}, {})
  {
  }

  lemma {:induction false} RunKeepsInvariant(first: Context, run: seq<Step>)
    requires Legal(first, run) && EpochsFit(first, run)
    ensures Invariant(After(first, run), Log(first, run), Installed(first, run), Wrapped(first, run))
  {
    hide Invariant, Next, Entry, Wraps;
    if run == [] {
      StartInvariant(first);
    } else {
      var before, step := run[..|run| - 1], run[|run| - 1];
      RunKeepsInvariant(first, before);
      var st, log, installed := After(first, before), Log(first, before), Installed(first, before);
      var wrapped := Wrapped(first, before);
      match step
      case Seal(_, _, _, _) =>
        SealKeepsInvariant(st, log, installed, wrapped, step);
        assert Installed(first, run) == installed;
      case Install(ctx) =>
        InstallKeepsInvariant(st, log, installed, wrapped, ctx);
        InstallDoesNotWrap(st, ctx);
        assert Wrapped(first, run) == wrapped;
    }
  }

  lemma InstallDoesNotWrap(st: WriterState, ctx: Context)
    ensures !Wraps(st, Install(ctx))
  {
  }

  /**
   * A run seals no (epoch, number) pair twice if and only if it seals nothing in an epoch whose counter
   * has wrapped before.
   */
  lemma {:induction false} RecordNumbersUniqueIff(first: Context, run: seq<Step>)
    requires Legal(first, run) && EpochsFit(first, run)
    ensures NumbersDistinct(Log(first, run)) <==> StopsAtWrap(first, run)
  {
    hide Invariant, NumbersDistinct, Entry, Next;
    if run == [] {
      NothingRepeats();
    } else {
      var before, step := run[..|run| - 1], run[|run| - 1];
      RecordNumbersUniqueIff(first, before);
      if step.Seal? {
        var st, log := After(first, before), Log(first, before);
        RunKeepsInvariant(first, before);
        RepeatsIffWrapped(st, log, Installed(first, before), Wrapped(first, before), step);
        DistinctGrows(log, Entry(st, step));
      }
    }
  }

  lemma NothingRepeats()
    ensures NumbersDistinct([]) && NoncesDistinct([])
  {
  }

  lemma DistinctGrows(log: seq<Sealed>, e: Sealed)
    ensures NumbersDistinct(log + [e]) <==> NumbersDistinct(log) && !HasNumber(log, e.epoch, e.number)
  {
    var log' := log + [e];
    assert log'[|log|] == e && forall i :: 0 <= i < |log| ==> log'[i] == log[i];
    if NumbersDistinct(log') {
      forall i, j | 0 <= i < j < |log|
        ensures !SameRecordNumber(log[i], log[j])
      {
        assert !SameRecordNumber(log'[i], log'[j]);
      }
      forall i | 0 <= i < |log|
        ensures !SameRecordNumber(log[i], e)
      {
        assert !SameRecordNumber(log'[i], log'[|log|]);
      }
    }
  }

  /** No context is used in two epochs. */
  lemma KeysServeOneEpoch(first: Context, run: seq<Step>)
    requires Legal(first, run) && EpochsFit(first, run)
    ensures OneEpochPerKey(Log(first, run))
  {
    RunKeepsInvariant(first, run);
  }

  // ----- nonces

  /** A context that derives its nonces from record numbers. */
  predicate NumbersNonces(ctx: Context) {
    ctx.Valid() && !ctx.isNull && !ctx.randomNonce
  }

  ghost predicate SameNonce(a: Sealed, b: Sealed) {
    a.ctx == b.ctx && NumbersNonces(a.ctx) && a.nonce == b.nonce
  }

  /** No such context has used a nonce twice. */
  ghost predicate NoncesDistinct(log: seq<Sealed>) {
    forall i, j :: 0 <= i < j < |log| ==> !SameNonce(log[i], log[j])
  }

  ghost predicate HasNonce(log: seq<Sealed>, e: Sealed) {
    exists i :: 0 <= i < |log| && SameNonce(log[i], e)
  }

  /** No such context is used in an epoch whose counter has wrapped before. */
  ghost predicate NoncesStopAtWrap(first: Context, run: seq<Step>) {
    run == [] ||
    var before, step := run[..|run| - 1], run[|run| - 1];
    && NoncesStopAtWrap(first, before)
    && (step.Seal? ==>
          var e := Entry(After(first, before), step); NumbersNonces(e.ctx) ==> e.epoch !in Wrapped(first, before))
  }

  /** e's nonce is its context's nonce for e's record number. */
  ghost predicate Numbered(e: Sealed) {
    && e.epoch < 0x10000 && e.number < SEQUENCE_LIMIT
    && exists r :: e.nonce == e.ctx.Nonce(RecordNumber(e.epoch, e.number), r)
  }

  lemma RecordNumberInjective(epoch: nat, number: nat, epoch': nat, number': nat)
    requires epoch < 0x10000 && epoch' < 0x10000 && number < SEQUENCE_LIMIT && number' < SEQUENCE_LIMIT
    requires RecordNumber(epoch, number) == RecordNumber(epoch', number')
    ensures epoch == epoch' && number == number'
  {
    var s, s' := RecordNumber(epoch, number), RecordNumber(epoch', number');
    assert ToBigEndian(epoch, 2) == s[..2] == s'[..2] == ToBigEndian(epoch', 2);
    assert ToBigEndian(number, 6) == s[2..] == s'[2..] == ToBigEndian(number', 6);
    assert Pow256(2) == 0x10000 && Pow256(6) == SEQUENCE_LIMIT;
    BigEndianRoundTrip(epoch, 2);
    BigEndianRoundTrip(epoch', 2);
    BigEndianRoundTrip(number, 6);
    BigEndianRoundTrip(number', 6);
  }

  lemma {:induction false} LogIsNumbered(first: Context, run: seq<Step>)
    requires Legal(first, run) && EpochsFit(first, run)
    ensures forall i :: 0 <= i < |Log(first, run)| ==> Numbered(Log(first, run)[i])
  {
    hide Context.Nonce, RecordNumber, Numbered, Entry, Invariant, Next;
    if run != [] {
      var before, step := run[..|run| - 1], run[|run| - 1];
      LogIsNumbered(first, before);
      if step.Seal? {
        RunKeepsInvariant(first, before);
        var st, log := After(first, before), Log(first, before);
        EntryIsNumbered(st, log, Installed(first, before), Wrapped(first, before), step);
      }
    }
  }

  lemma EntryIsNumbered(st: WriterState, log: seq<Sealed>, installed: set<nat>, wrapped: set<nat>, step: Step)
    requires Invariant(st, log, installed, wrapped) && step.Seal?
    ensures Numbered(Entry(st, step))
  {
    hide Context.Nonce, RecordNumber, Counted, OneEpochPerKey, InPlace;
  }

  /** Under one context that numbers its nonces, a nonce tells the record number. */
  lemma NonceIsNumber(a: Sealed, b: Sealed)
    requires Numbered(a) && Numbered(b) && a.ctx == b.ctx && NumbersNonces(a.ctx)
    ensures a.nonce == b.nonce <==> SameRecordNumber(a, b)
  {
    hide RecordNumber;
    var r :| a.nonce == a.ctx.Nonce(RecordNumber(a.epoch, a.number), r);
    var r' :| b.nonce == b.ctx.Nonce(RecordNumber(b.epoch, b.number), r');
    if a.nonce == b.nonce {
      NonceInjective(a.ctx, RecordNumber(a.epoch, a.number), RecordNumber(b.epoch, b.number), r, r');
      RecordNumberInjective(a.epoch, a.number, b.epoch, b.number);
    }
  }

  /** A seal under such a context repeats a nonce exactly when it repeats a record number. */
  lemma NonceRepeatsIff(st: WriterState, log: seq<Sealed>, installed: set<nat>, wrapped: set<nat>, step: Step)
    requires Invariant(st, log, installed, wrapped) && step.Seal? && (step.previous ==> st.epoch >= 1)
    requires forall i :: 0 <= i < |log| ==> Numbered(log[i])
    ensures var e := Entry(st, step);
            HasNonce(log, e) <==> NumbersNonces(e.ctx) && HasNumber(log, e.epoch, e.number)
  {
    hide Context.Nonce, RecordNumber, Counted, Numbered, NumbersNonces;
    var e := Entry(st, step);
    EntryIsNumbered(st, log, installed, wrapped, step);
    if NumbersNonces(e.ctx) {
      forall i | 0 <= i < |log|
        ensures SameNonce(log[i], e) <==> SameRecordNumber(log[i], e)
      {
        assert InPlace(st, log[i]);
        if log[i].ctx == e.ctx {
          NonceIsNumber(log[i], e);
        }
      }
    }
  }

  lemma NoncesGrow(log: seq<Sealed>, e: Sealed)
    ensures NoncesDistinct(log + [e]) <==> NoncesDistinct(log) && !HasNonce(log, e)
  {
    hide NumbersNonces;
    var log' := log + [e];
    assert log'[|log|] == e && forall i :: 0 <= i < |log| ==> log'[i] == log[i];
    if NoncesDistinct(log') {
      forall i, j | 0 <= i < j < |log|
        ensures !SameNonce(log[i], log[j])
      {
        assert !SameNonce(log'[i], log'[j]);
      }
      forall i | 0 <= i < |log|
        ensures !SameNonce(log[i], e)
      {
        assert !SameNonce(log'[i], log'[|log|]);
      }
    }
  }

  /**
   * No context that numbers its nonces uses one twice if and only if none is used in an epoch whose counter
   * has wrapped before.
   */
  lemma {:induction false} NoncesUniqueIff(first: Context, run: seq<Step>)
    requires Legal(first, run) && EpochsFit(first, run)
    ensures NoncesDistinct(Log(first, run)) <==> NoncesStopAtWrap(first, run)
  {
    hide Invariant, NoncesDistinct, Entry, Next, Numbered, NumbersNonces;
    if run == [] {
      NothingRepeats();
    } else {
      var before, step := run[..|run| - 1], run[|run| - 1];
      NoncesUniqueIff(first, before);
      if step.Seal? {
        var st, log, installed, wrapped :=
          After(first, before), Log(first, before), Installed(first, before), Wrapped(first, before);
        RunKeepsInvariant(first, before);
        LogIsNumbered(first, before);
        RepeatsIffWrapped(st, log, installed, wrapped, step);
        NonceRepeatsIff(st, log, installed, wrapped, step);
        NoncesGrow(log, Entry(st, step));
      }
    }
  }

  // ----- the writer

  /** AEAD encryption: context, nonce, additional data and plaintext to ciphertext and tag. */
  type EncryptFunction = (Context, seq<byte>, seq<byte>, seq<byte>) -> Option<seq<byte>>

  /** Ciphertexts are as long as the context says. */
  ghost predicate LengthsAgree(encrypt: EncryptFunction) {
    forall ctx, nonce, ad, plaintext ::
      var c := encrypt(ctx, nonce, ad, plaintext);
      c.Some? ==> |c.value| == |plaintext| + ctx.SuffixLen(|plaintext|)
  }

  /** The body of a record: explicit nonce, if any, then ciphertext. */
  function SealBody(ctx: Context, number: seq<byte>, random: seq<byte>, typ: byte, recordVersion: nat,
                    plaintext: seq<byte>, encrypt: EncryptFunction): Option<seq<byte>> {
    if ctx.isNull then Some(plaintext)
    else
      var ad := ctx.AdditionalData(typ, recordVersion, number, |plaintext|);
      match encrypt(ctx, ctx.Nonce(number, random), ad, plaintext)
      case None => None
      case Some(c) => Some((if ctx.nonceInRecord then ctx.VariableNonce(number, random) else []) + c)
  }

  function RecordBytes(typ: byte, recordVersion: nat, number: seq<byte>, body: seq<byte>): seq<byte> {
    [typ] + ToBigEndian(recordVersion, 2) + number + ToBigEndian(|body|, 2) + body
  }

  /** Big-endian increment; the flag is false on wrap-around. */
  function Increment(s: seq<byte>): (r: (seq<byte>, bool))
    ensures |r.0| == |s|
  {
    if s == [] then ([], false)
    else if s[|s| - 1] == 255 then
      var (front, ok) := Increment(s[..|s| - 1]);
      (front + [0], ok)
    else (s[..|s| - 1] + [s[|s| - 1] + 1], true)
  }

  lemma IncrementStep(front: seq<byte>, x: byte)
    ensures Increment(front + [x]) ==
            if x == 255 then (Increment(front).0 + [0], Increment(front).1) else (front + [x + 1], true)
  {
    assert (front + [x])[..|front|] == front;
  }

  lemma {:induction false} IncrementValue(s: seq<byte>)
    ensures var (t, ok) := Increment(s);
            if ok then BigEndian(t) == BigEndian(s) + 1
            else BigEndian(t) == 0 && BigEndian(s) + 1 == Pow256(|s|)
  {
    if s != [] {
      var front, last := s[..|s| - 1], s[|s| - 1];
      IncrementValue(front);
      var (t, ok) := Increment(s);
      assert t[..|t| - 1] == if last == 255 then Increment(front).0 else front;
    }
  }

  lemma SealBodyLength(ctx: Context, number: seq<byte>, random: seq<byte>, typ: byte, recordVersion: nat,
                       plaintext: seq<byte>, encrypt: EncryptFunction)
    requires ctx.Valid() && LengthsAgree(encrypt) && |number| == 8
    requires ctx.randomNonce ==> |random| == ctx.variableNonceLen
    ensures var body := SealBody(ctx, number, random, typ, recordVersion, plaintext, encrypt);
            body.Some? ==> |body.value| == ctx.ExplicitNonceLen() + |plaintext| + ctx.SuffixLen(|plaintext|)
  {
    var ad, nonce := ctx.AdditionalData(typ, recordVersion, number, |plaintext|), ctx.Nonce(number, random);
    assert var c := encrypt(ctx, nonce, ad, plaintext);
           c.Some? ==> |c.value| == |plaintext| + ctx.SuffixLen(|plaintext|);
  }

  lemma {:induction false} ZerosValue(n: nat)
    ensures BigEndian(Zeros(n)) == 0
  {
    if n > 0 {
      ZerosValue(n - 1);
      assert Zeros(n)[..n - 1] == Zeros(n - 1);
    }
  }

  class Writer {
    var epoch: nat
    const writeSequence: array<byte>
    const lastWriteSequence: array<byte>
    var ctx: Context
    var lastCtx: Context
    ghost var log: seq<Sealed>

    ghost predicate Valid()
      reads this, writeSequence, lastWriteSequence
    {
      && writeSequence.Length == lastWriteSequence.Length == 8 && writeSequence != lastWriteSequence
      && epoch < 0x10000
      && ctx.Valid() && lastCtx.Valid()
    }

    ghost function State(): WriterState
      requires Valid()
      reads this, writeSequence, lastWriteSequence
    {
      WriterState(epoch, BigEndian(writeSequence[2..]), BigEndian(lastWriteSequence[2..]), ctx, lastCtx)
    }

    constructor (first: Context)
      requires first.Valid()
      ensures Valid() && State() == Start(first) && log == []
      ensures fresh(writeSequence) && fresh(lastWriteSequence)
    {
      epoch, ctx, lastCtx, log := 0, first, first, [];
      writeSequence := new byte[8](_ => 0);
      lastWriteSequence := new byte[8](_ => 0);
      new;
      ZerosValue(6);
      assert writeSequence[2..] == lastWriteSequence[2..] == Zeros(6);
    }

    /** The carry loop over a[2..]. */
    method SequenceUpdate(a: array<byte>) returns (ok: bool)
      requires a.Length == 8
      modifies a
      ensures a[..2] == old(a[..2])
      ensures (a[2..], ok) == Increment(old(a[2..]))
    {
      ghost var was := a[2..];
      var i := 7;
      assert a[2..8] == was && Increment(was).0 + a[8..] == Increment(was).0;
      while i >= 2
        invariant 1 <= i <= 7
        invariant a[..i + 1] == old(a[..i + 1])
        invariant Increment(was) == (Increment(a[2..i + 1]).0 + a[i + 1..], Increment(a[2..i + 1]).1)
      {
        var x := a[i];
        ghost var front, back := a[2..i], a[i + 1..];
        assert a[2..i + 1] == front + [x];
        IncrementStep(front, x);
        a[i] := if x == 255 then 0 else x + 1;
        assert a[2..i] == front && a[i + 1..] == back && a[i..] == [a[i]] + back;
        if a[i] != 0 {
          assert a[2..] == front + [a[i]] + back;
          return true;
        }
        assert Increment(front).0 + [0] + back == Increment(front).0 + a[i..];
        i := i - 1;
      }
      assert a[2..2] == [] && [] + a[2..] == a[2..];
      return false;
    }

    function UsedContext(previous: bool): Context
      reads this
    {
      if previous then lastCtx else ctx
    }

    /** One step of a six-byte counter. */
    method Advance(a: array<byte>) returns (ok: bool)
      requires a.Length == 8
      modifies a
      ensures BigEndian(a[2..]) == (BigEndian(old(a[2..])) + 1) % SEQUENCE_LIMIT
      ensures ok <==> BigEndian(old(a[2..])) + 1 != SEQUENCE_LIMIT
    {
      IncrementValue(a[2..]);
      assert Pow256(6) == SEQUENCE_LIMIT;
      ok := SequenceUpdate(a);
    }

    /** The cipher's Seal: refuses what does not fit, else explicit nonce and ciphertext. */
    static method EncryptBody(used: Context, number: seq<byte>, random: seq<byte>, typ: byte, version: nat,
                              plaintext: seq<byte>, maxLen: nat, encrypt: EncryptFunction)
      returns (body: Option<seq<byte>>)
      requires used.Valid() && |number| == 8 && LengthsAgree(encrypt)
      requires used.randomNonce ==> |random| == used.variableNonceLen
      ensures var b := SealBody(used, number, random, typ, version, plaintext, encrypt);
              body == if b.None? || |b.value| > maxLen then None else b
    {
      SealBodyLength(used, number, random, typ, version, plaintext, encrypt);
      if used.ExplicitNonceLen() + |plaintext| + used.SuffixLen(|plaintext|) > maxLen {
        return None;
      }
      if used.isNull {
        return Some(plaintext);
      }
      var nonce := AssembleNonce(used, number, random);
      var c := encrypt(used, nonce[..], used.AdditionalData(typ, version, number, |plaintext|), plaintext);
      if c.None? {
        return None;
      }
      return Some((if used.nonceInRecord then used.VariableNonce(number, random) else []) + c.value);
    }

    /** Encrypts one record under the next number of the current or previous epoch. */
    method SealRecord(maxOut: nat, typ: byte, plaintext: seq<byte>, previous: bool, random: seq<byte>,
                      encrypt: EncryptFunction)
      returns (ok: bool, record: seq<byte>)
      requires Valid() && (previous ==> epoch >= 1) && LengthsAgree(encrypt)
      requires UsedContext(previous).randomNonce ==> |random| == UsedContext(previous).variableNonceLen
      modifies this`log, writeSequence, lastWriteSequence
      ensures Valid()
      ensures var st, step := old(State()), Seal(previous, typ, plaintext, random);
              var e := Entry(st, step);
              var version, number := st.ctx.RecordVersion(), RecordNumber(e.epoch, e.number);
              var body := SealBody(e.ctx, number, random, typ, version, plaintext, encrypt);
              if body.None? || RT_HEADER_LENGTH + |body.value| > maxOut then
                !ok && State() == st && log == old(log)
              else
                && State() == Next(st, step) && log == old(log) + [e]
                && (ok <==> !Wraps(st, step) && |body.value| < 0x10000)
                && (ok ==> record == RecordBytes(typ, version, number, body.value))
    {
      hide SealBody, Context.Nonce, BigEndian, ToBigEndian, RecordBytes;
      record := [];
      ghost var st, step := State(), Seal(previous, typ, plaintext, random);
      ghost var e := Entry(st, step);
      var usedEpoch, used, seqBytes := epoch, ctx, writeSequence;
      if previous {
        usedEpoch, used, seqBytes := epoch - 1, lastCtx, lastWriteSequence;
      }
      var number := ToBigEndian(usedEpoch, 2) + seqBytes[2..];
      ToBigEndianRoundTrip(seqBytes[2..]);
      assert number == RecordNumber(e.epoch, e.number);
      var version := ctx.RecordVersion();
      if maxOut < RT_HEADER_LENGTH {
        return false, record;
      }
      var body := EncryptBody(used, number, random, typ, version, plaintext, maxOut - RT_HEADER_LENGTH, encrypt);
      if body.None? {
        return false, record;
      }
      log := log + [e];
      ok := Advance(seqBytes);
      if !ok || |body.value| >= 0x10000 {
        return false, record;
      }
      record := RecordBytes(typ, version, number, body.value);
    }

    /** A new write cipher: the old one and its counter are kept for retransmitting the last flight. */
    method SetWriteState(newCtx: Context)
      requires Valid() && newCtx.Valid()
      modifies this`epoch, this`ctx, this`lastCtx, writeSequence, lastWriteSequence
      ensures Valid() && State() == Next(old(State()), Install(newCtx))
    {
      epoch := (epoch + 1) % 0x10000;
      CopyTo(lastWriteSequence, 0, writeSequence[..]);
      CopyTo(writeSequence, 0, Zeros(8));
      ZerosValue(6);
      assert writeSequence[..] == Zeros(8) && writeSequence[2..] == Zeros(6);
      assert lastWriteSequence[..] == old(writeSequence[..]) && lastWriteSequence[2..] == old(writeSequence[2..]);
      lastCtx := ctx;
      ctx := newCtx;
    }
  }
}
