/** Decoding what was encoded gives the message back; unknown fields are skipped without a trace. */
module PbRoundTrip {
  import opened Wire
  import opened PbVarint
  import opened PbIterator
  import opened PbMessage

  // ----- well-formed descriptors, conforming messages, and when two messages say the same

  ghost predicate WellFormed(d: Descriptor)
    decreases d
  {
    && TagsDistinct(d.fields)
    && forall i :: 0 <= i < |d.fields| ==> ValidField(d.fields[i])
  }

  ghost predicate ValidField(f: Field)
    decreases f
  {
    && f.dataSize < TWO32
    && (f.htype.Repeated? || f.htype.Oneof? ==> f.sizeOffset != 0)
    && match f.ltype
       case Varint => SizeOk(f.dataSize)
       case Uvarint => SizeOk(f.dataSize)
       case Svarint => SizeOk(f.dataSize)
       case Extension => false
       case Submessage(sub) => WellFormed(sub)
       case _ => true
  }

  /** Field k is the member of the union at h that tag names. */
  predicate IsMember(fields: seq<Field>, h: nat, tag: nat, k: nat) {
    k < |fields| && fields[k].htype.Oneof? && Home(fields, k) == h && fields[k].tag == tag
  }

  /** Field k is the member that its union in m holds. */
  predicate Chosen(fields: seq<Field>, m: seq<Cell>, k: nat)
    requires k < |fields| == |m|
  {
    fields[k].htype.Oneof? && WhichIn(m[Home(fields, k)]) == fields[k].tag
  }

  ghost predicate Conforms(d: Descriptor, m: seq<Cell>)
    decreases d
  {
    && |m| == |d.fields|
    && (forall i :: 0 <= i < |d.fields| && !d.fields[i].htype.Oneof? ==> CellConforms(d.fields[i], m[i]))
    && (forall h :: 0 <= h < |d.fields| && d.fields[h].htype.Oneof? && !JoinsPrevious(d.fields, h) ==>
          m[h].Union? && (m[h].which == 0 || exists k :: IsMember(d.fields, h, m[h].which, k)))
    && (forall k :: 0 <= k < |d.fields| && Chosen(d.fields, m, k) ==>
          ValueConforms(d.fields[k], ValueIn(m[Home(d.fields, k)])))
  }

  /** Memory of the field's type, within its bounds wherever it will be read. */
  ghost predicate CellConforms(f: Field, c: Cell)
    decreases f, 1
  {
    match f.htype
    case Required => c.Bare? && ValueConforms(f, c.value)
    case Optional => if f.sizeOffset != 0 then c.Flagged? && (c.has ==> ValueConforms(f, c.value))
                     else c.Bare? && ValueConforms(f, c.value)
    case Repeated =>
      && c.Counted? && |c.items| <= f.arraySize
      && (forall i :: 0 <= i < |c.items| ==> ValueConforms(f, c.items[i]))
      && (Packable(f.ltype) && EncItems(f, c.items).Some? ==> |EncItems(f, c.items).value| < TWO32)
    case Oneof => true
  }

  /** Strings end within their memory, and every length fits 32 bits. */
  ghost predicate ValueConforms(f: Field, v: Value)
    decreases f, 0
  {
    match f.ltype
    case Bytes(offset) => v.Text? && |v.s| + offset <= f.dataSize
    case String => v.Text? && |CString(v.s, f.dataSize)| < f.dataSize
    case FixedLengthBytes => v.Text? && |v.s| == f.dataSize
    case Submessage(sub) =>
      && v.Struct? && Conforms(sub, v.cells)
      && (EncMessage(sub, v.cells).Some? ==> |EncMessage(sub, v.cells).value| < TWO32)
    case Extension => false
    case _ => v.Number? && Fits(f, v.n)
  }

  /** Equal but for the values of absent fields, and what follows the end of a string. */
  ghost predicate SameMessage(d: Descriptor, a: seq<Cell>, b: seq<Cell>)
    decreases d
  {
    && |a| == |b| == |d.fields|
    && (forall i :: 0 <= i < |d.fields| && !d.fields[i].htype.Oneof? ==> SameCell(d.fields[i], a[i], b[i]))
    && (forall h :: 0 <= h < |d.fields| && d.fields[h].htype.Oneof? && !JoinsPrevious(d.fields, h) ==>
          a[h].Union? && b[h].Union? && a[h].which == b[h].which)
    && (forall k :: 0 <= k < |d.fields| && Chosen(d.fields, b, k) ==>
          SameValue(d.fields[k], ValueIn(a[Home(d.fields, k)]), ValueIn(b[Home(d.fields, k)])))
  }

  ghost predicate SameCell(f: Field, a: Cell, b: Cell)
    decreases f, 1
  {
    match f.htype
    case Required => a.Bare? && b.Bare? && SameValue(f, a.value, b.value)
    case Optional =>
      if f.sizeOffset != 0
      then a.Flagged? && b.Flagged? && a.has == b.has && (a.has ==> SameValue(f, a.value, b.value))
      else a.Bare? && b.Bare? && SameValue(f, a.value, b.value)
    case Repeated =>
      && a.Counted? && b.Counted? && |a.items| == |b.items|
      && forall i :: 0 <= i < |a.items| ==> SameValue(f, a.items[i], b.items[i])
    case Oneof => true
  }

  ghost predicate SameValue(f: Field, a: Value, b: Value)
    decreases f, 0
  {
    match f.ltype
    case String => a.Text? && b.Text? && CString(a.s, f.dataSize) == CString(b.s, f.dataSize)
    case Submessage(sub) => a.Struct? && b.Struct? && SameMessage(sub, a.cells, b.cells)
    case _ => a == b
  }

  // ----- what comes back of a message

  /** A field that is left out when it is zero. */
  predicate Unflagged(f: Field) {
    f.htype.Optional? && f.sizeOffset == 0
  }

  /** The value a field has in a message that nothing has been decoded into. */
  ghost predicate IsFresh(f: Field, v: Value) {
    exists was :: v == DefaultValue(f, was)
  }

  /** a is what comes back of b: the same, but fields left out for being zero come back as their defaults. */
  ghost predicate BackMessage(d: Descriptor, a: seq<Cell>, b: seq<Cell>)
    decreases d
  {
    && |a| == |b| == |d.fields|
    && (forall i :: 0 <= i < |d.fields| && !d.fields[i].htype.Oneof? ==> BackCell(d.fields[i], a[i], b[i]))
    && (forall h :: 0 <= h < |d.fields| && d.fields[h].htype.Oneof? && !JoinsPrevious(d.fields, h) ==>
          a[h].Union? && b[h].Union? && a[h].which == b[h].which)
    && (forall k :: 0 <= k < |d.fields| && Chosen(d.fields, b, k) ==>
          BackValue(d.fields[k], ValueIn(a[Home(d.fields, k)]), ValueIn(b[Home(d.fields, k)])))
  }

  ghost predicate BackCell(f: Field, a: Cell, b: Cell)
    decreases f, 1
  {
    match f.htype
    case Required => a.Bare? && b.Bare? && BackValue(f, a.value, b.value)
    case Optional =>
      if f.sizeOffset != 0
      then a.Flagged? && b.Flagged? && a.has == b.has && (a.has ==> BackValue(f, a.value, b.value))
      else a.Bare? && b.Bare? && if IsDefault(f, b) then IsFresh(f, a.value) else BackValue(f, a.value, b.value)
    case Repeated =>
      && a.Counted? && b.Counted? && |a.items| == |b.items|
      && forall i :: 0 <= i < |a.items| ==> BackValue(f, a.items[i], b.items[i])
    case Oneof => true
  }

  ghost predicate BackValue(f: Field, a: Value, b: Value)
    decreases f, 0
  {
    match f.ltype
    case String => a.Text? && b.Text? && CString(a.s, f.dataSize) == CString(b.s, f.dataSize)
    case Submessage(sub) => a.Struct? && b.Struct? && BackMessage(sub, a.cells, b.cells)
    case _ => a == b
  }

  // ----- decoding is not disturbed by what follows

  lemma DecTagStable(s: seq<byte>, more: seq<byte>)
    requires DecTag(s).TagOk?
    ensures var t := DecTag(s); DecTag(s + more) == TagOk(t.wireType, t.tag, t.rest + more)
  {
    DecVarint32Stable(s, more);
  }

  lemma SkipStable(s: seq<byte>, n: nat, more: seq<byte>)
    requires n <= |s|
    ensures (s + more)[..n] == s[..n] && (s + more)[n..] == s[n..] + more
  {
  }

  lemma DecPrefixedStable(s: seq<byte>, more: seq<byte>)
    requires DecPrefixed(s).Some?
    ensures DecPrefixed(s + more) == Some((DecPrefixed(s).value.0, DecPrefixed(s).value.1 + more))
  {
    hide DecVarint32;
    DecVarint32Stable(s, more);
    var (size, rest) := DecVarint32(s).value;
    SkipStable(rest, size, more);
  }

  lemma SkipFieldStable(wireType: nat, s: seq<byte>, more: seq<byte>)
    requires SkipField(wireType, s).Some?
    ensures SkipField(wireType, s + more) == Some(SkipField(wireType, s).value + more)
  {
    hide DecPrefixed, VarintLength;
    match wireType
    case 0 => VarintLengthStable(s, more); SkipStable(s, VarintLength(s).value, more);
    case 1 => SkipStable(s, 8, more);
    case 2 => DecPrefixedStable(s, more);
    case 5 => SkipStable(s, 4, more);
    case _ =>
  }

  lemma DecNumberStable(f: Field, s: seq<byte>, more: seq<byte>)
    requires DecNumber(f, s).Some?
    ensures DecNumber(f, s + more) == Some((DecNumber(f, s).value.0, DecNumber(f, s).value.1 + more))
  {
    hide DecVarint, LittleEndian, FromVarint;
    match f.ltype
    case Fixed32 => SkipStable(s, 4, more);
    case Fixed64 => SkipStable(s, 8, more);
    case _ => DecVarintStable(s, more);
  }

  lemma DecValueStable(f: Field, s: seq<byte>, was: Value, more: seq<byte>)
    requires DecValue(f, s, was).Some?
    ensures DecValue(f, s + more, was) == Some((DecValue(f, s, was).value.0, DecValue(f, s, was).value.1 + more))
  {
    hide DecNumber, DecPrefixed, DecMessage;
    if Packable(f.ltype) {
      DecNumberStable(f, s, more);
    } else {
      DecPrefixedStable(s, more);
    }
  }

  lemma DecFieldStable(f: Field, wireType: nat, s: seq<byte>, c: Cell, more: seq<byte>)
    requires DecField(f, wireType, s, c).Some?
    ensures var r := DecField(f, wireType, s, c).value; DecField(f, wireType, s + more, c) == Some((r.0, r.1 + more))
  {
    hide DecValue, DecPrefixed, DecPacked;
    match f.htype
    case Required => DecValueStable(f, s, ValueIn(c), more);
    case Optional => DecValueStable(f, s, ValueIn(c), more);
    case Repeated =>
      if wireType == WT_STRING && Packable(f.ltype) {
        DecPrefixedStable(s, more);
      } else {
        DecValueStable(f, s, ZeroValue(f), more);
      }
    case Oneof =>
      DecValueStable(f, s, if f.ltype.Submessage? then Struct(Defaults(f.ltype.sub, [])) else ValueIn(c), more);
  }

  lemma DecStepStable(d: Descriptor, t: TagResult, m: Decoded, more: seq<byte>)
    requires t.TagOk? && DecStep(d, t, m).Some?
    ensures var r := DecStep(d, t, m).value; DecStep(d, t.(rest := t.rest + more), m) == Some((r.0, r.1 + more))
  {
    hide DecField, SkipField;
    var i := FindTag(d.fields, t.tag);
    if i == |d.fields| {
      SkipFieldStable(t.wireType, t.rest, more);
    } else {
      DecFieldStable(d.fields[i], t.wireType, t.rest, CellAt(m.cells, Home(d.fields, i)), more);
    }
  }

  /** Where s takes the decoder if it is a run of whole fields. */
  ghost function Through(d: Descriptor, s: seq<byte>, m: Decoded): Option<Decoded>
    decreases |s|
  {
    if s == [] then Some(m)
    else
      var t := DecTag(s);
      if !t.TagOk? || DecStep(d, t, m).None? then None
      else Through(d, DecStep(d, t, m).value.1, DecStep(d, t, m).value.0)
  }

  lemma {:induction false} RunThrough(d: Descriptor, s: seq<byte>, m: Decoded, more: seq<byte>)
    requires Through(d, s, m).Some?
    ensures Run(d, s + more, m) == Run(d, more, Through(d, s, m).value)
    decreases |s|
  {
    if s == [] {
      assert s + more == more;
    } else {
      hide DecTag, DecStep;
      DecTagStable(s, more);
      DecStepStable(d, DecTag(s), m, more);
      var r := DecStep(d, DecTag(s), m).value;
      RunThrough(d, r.1, r.0, more);
    }
  }

  lemma {:induction false} ThroughConcat(d: Descriptor, a: seq<byte>, b: seq<byte>, m: Decoded)
    requires Through(d, a, m).Some?
    ensures Through(d, a + b, m) == Through(d, b, Through(d, a, m).value)
    decreases |a|
  {
    if a == [] {
      assert a + b == b;
    } else {
      hide DecTag, DecStep;
      DecTagStable(a, b);
      DecStepStable(d, DecTag(a), m, b);
      var r := DecStep(d, DecTag(a), m).value;
      ThroughConcat(d, r.1, b, r.0);
    }
  }

  // ----- unknown fields

  /** s is one whole field of the input with this tag. */
  ghost predicate IsFieldOf(s: seq<byte>, tag: nat) {
    s != [] && DecTag(s).TagOk? && DecTag(s).tag == tag && SkipField(DecTag(s).wireType, DecTag(s).rest) == Some([])
  }

  /** A field whose tag is not declared can be put between any two fields without changing the result. */
  lemma UnknownFieldTransparent(d: Descriptor, before: seq<byte>, unknown: seq<byte>, tag: nat, after: seq<byte>,
                                start: seq<Cell>)
    requires Through(d, before, Decoded(start, {})).Some?
    requires tag != 0 && IsFieldOf(unknown, tag) && FindTag(d.fields, tag) == |d.fields|
    ensures DecMessage(d, before + unknown + after, start) == DecMessage(d, before + after, start)
  {
    var m0 := Decoded(start, {});
    var m := Through(d, before, m0).value;
    hide DecTag, SkipField, Run;
    RunThrough(d, before, m0, after);
    assert Through(d, unknown, m) == Some(m);
    ThroughConcat(d, before, unknown, m0);
    RunThrough(d, before + unknown, m0, after);
    assert before + unknown + after == (before + unknown) + after;
  }

  /**
   * A field of number zero, with a nonzero wire type so that it does not end the message, is skipped like any
   * unknown field in a message that has fields; one without fields takes it for its terminator and is rejected.
   */
  lemma FieldNumberZero(d: Descriptor, before: seq<byte>, zero: seq<byte>, after: seq<byte>, start: seq<Cell>)
    requires TagsDistinct(d.fields) && Through(d, before, Decoded(start, {})).Some? && IsFieldOf(zero, 0)
    ensures d.fields != [] ==>
              DecMessage(d, before + zero + after, start) == DecMessage(d, before + after, start)
    ensures d.fields == [] ==> DecMessage(d, before + zero + after, start) == None
  {
    var m0 := Decoded(start, {});
    var m := Through(d, before, m0).value;
    hide DecTag, SkipField, Run;
    assert FindTag(d.fields, 0) == |d.fields|;
    RunThrough(d, before, m0, zero + after);
    assert before + zero + after == before + (zero + after);
    if d.fields != [] {
      RunThrough(d, before, m0, after);
      assert Through(d, zero, m) == Some(m);
      RunThrough(d, zero, m, after);
    } else {
      ZeroEndsNothing(d, zero, after, m);
    }
  }

  lemma ZeroEndsNothing(d: Descriptor, zero: seq<byte>, after: seq<byte>, m: Decoded)
    requires d.fields == [] && IsFieldOf(zero, 0)
    ensures Run(d, zero + after, m) == None
  {
    DecTagStable(zero, after);
    hide DecTag;
  }

  // ----- required fields

  /** The tags of the fields read. */
  ghost function TagsRead(d: Descriptor, s: seq<byte>, m: Decoded): set<nat>
    decreases |s|
  {
    if s == [] || !DecTag(s).TagOk? || DecStep(d, DecTag(s), m).None? then {}
    else
      var r := DecStep(d, DecTag(s), m).value;
      {DecTag(s).tag} + TagsRead(d, r.1, r.0)
  }

  /** Two required fields have different numbers. */
  lemma RequiredIndexUnique(fields: seq<Field>, i: nat, j: nat)
    requires i < |fields| && j < |fields| && fields[i].htype.Required? && fields[j].htype.Required?
    requires RequiredBefore(fields, i) == RequiredBefore(fields, j)
    ensures i == j
  {
    if i < j {
      RequiredBeforeGrows(fields, i, j);
    } else if j < i {
      RequiredBeforeGrows(fields, j, i);
    }
  }

  lemma {:induction false} SeenWasRead(d: Descriptor, s: seq<byte>, m: Decoded, i: nat)
    requires Run(d, s, m).Some? && i < |d.fields| && d.fields[i].htype.Required?
    requires RequiredBefore(d.fields, i) in Run(d, s, m).value.seen && RequiredBefore(d.fields, i) !in m.seen
    ensures d.fields[i].tag in TagsRead(d, s, m)
    decreases |s|
  {
    hide DecTag, DecField, RequiredBefore;
    assert s != [] && DecTag(s).TagOk?;
    var t := DecTag(s);
    var r := DecStep(d, t, m).value;
    if RequiredBefore(d.fields, i) in r.0.seen {
      var j := FindTag(d.fields, t.tag);
      RequiredIndexUnique(d.fields, i, j);
    } else {
      SeenWasRead(d, r.1, r.0, i);
    }
  }

  /** A message is accepted only if every required field, of the first 64, was in it. */
  lemma AcceptedHasRequired(d: Descriptor, s: seq<byte>, start: seq<Cell>, i: nat)
    requires DecMessage(d, s, start).Some?
    requires i < |d.fields| && d.fields[i].htype.Required? && RequiredBefore(d.fields, i) < MAX_REQUIRED_FIELDS
    ensures d.fields[i].tag in TagsRead(d, s, Decoded(start, {}))
  {
    RequiredBeforeGrows(d.fields, i, |d.fields|);
    SeenWasRead(d, s, Decoded(start, {}), i);
  }

  // ----- round trip of values

  lemma {:induction false} CStringIdempotent(s: seq<byte>, max: nat)
    ensures CString(CString(s, max), max) == CString(s, max)
  {
    var t := CString(s, max);
    if t != [] {
      assert t[1..] == CString(s[1..], max - 1);
      CStringIdempotent(s[1..], max - 1);
    }
  }

  lemma PrefixedRoundTrip(s: seq<byte>, rest: seq<byte>)
    requires |s| < TWO32
    ensures DecPrefixed(Prefixed(s) + rest) == Some((s, rest))
  {
    hide DecVarint32, EncVarint;
    Varint32RoundTrip(|s|, s + rest);
    assert Prefixed(s) + rest == EncVarint(|s|) + (s + rest);
    assert (s + rest)[..|s|] == s && (s + rest)[|s|..] == rest;
  }

  lemma Signed32OfWord(n: int)
    requires -0x8000_0000 <= n < 0x8000_0000
    ensures Signed32(Word64(n) % 0x1_0000_0000) == n
  {
  }

  lemma NumberRoundTrip(f: Field, n: int, rest: seq<byte>)
    requires Packable(f.ltype) && Fits(f, n)
    ensures DecNumber(f, EncNumber(f, n) + rest) == Some((n, rest))
  {
    hide DecVarint, EncVarint, LittleEndian, ToLittleEndian;
    var e := EncNumber(f, n);
    assert (e + rest)[..|e|] == e && (e + rest)[|e|..] == rest;
    match f.ltype
    case Fixed32 => Pow256Values(); FixedRoundTrip(n, 4);
    case Fixed64 => Pow256Values(); FixedRoundTrip(n, 8);
    case Svarint => ZigZagRoundTrip(n); VarintRoundTrip(ZigZag(n), rest);
    case Uvarint => VarintRoundTrip(n, rest);
    case Varint =>
      VarintRoundTrip(Word64(n), rest);
      if f.dataSize != 8 {
        Signed32OfWord(n);
      }
  }

  /** was is memory that value v of field f can be decoded into. */
  ghost predicate Ready(f: Field, was: Value) {
    f.ltype.Submessage? && !f.htype.Repeated? ==>
      exists junk :: was == Struct(Defaults(f.ltype.sub, junk))
  }

  lemma ValueRoundTrip(f: Field, v: Value, rest: seq<byte>, was: Value) returns (v': Value)
    requires ValidField(f) && ValueConforms(f, v) && Ready(f, was)
    ensures EncValue(f, v).Some?
    ensures DecValue(f, EncValue(f, v).value + rest, was) == Some((v', rest)) && BackValue(f, v', v)
    decreases f, 0
  {
    hide DecPrefixed, DecMessage, EncMessage, DecNumber, EncNumber, Prefixed, CString, Defaults, BackMessage;
    hide Conforms;
    match f.ltype
    case Bytes(offset) =>
      PrefixedRoundTrip(v.s, rest);
      v' := v;
    case String =>
      PrefixedRoundTrip(CString(v.s, f.dataSize), rest);
      CStringIdempotent(v.s, f.dataSize);
      v' := Text(CString(v.s, f.dataSize));
    case FixedLengthBytes =>
      PrefixedRoundTrip(v.s, rest);
      assert v.s == [] ==> v.s == Zeros(f.dataSize);
      v' := v;
    case Submessage(sub) =>
      var junk: seq<Cell> := if f.htype.Repeated? then CellsIn(was) else
        (var j :| was == Struct(Defaults(sub, j)); j);
      var cells := MessageComesBack(sub, v.cells, junk);
      PrefixedRoundTrip(EncMessage(sub, v.cells).value, rest);
      v' := Struct(cells);
    case Extension => assert false;
    case _ =>
      NumberRoundTrip(f, v.n, rest);
      v' := v;
  }

  /** A string field comes back exactly when its terminator is inside its memory. */
  lemma StringComesBackIff(f: Field, v: Value, rest: seq<byte>, was: Value)
    requires f.ltype.String? && f.dataSize < TWO32
    ensures EncValue(f, v).Some?
    ensures DecValue(f, EncValue(f, v).value + rest, was).Some? <==> |CString(TextIn(v), f.dataSize)| < f.dataSize
  {
    hide DecPrefixed, Prefixed, CString;
    PrefixedRoundTrip(CString(TextIn(v), f.dataSize), rest);
  }

  // ----- round trip of fields

  lemma TagRoundTrip(wireType: nat, tag: nat, rest: seq<byte>)
    requires wireType < 8 && 0 < tag < 0x2000_0000
    ensures DecTag(EncTag(wireType, tag) + rest) == TagOk(wireType, tag, rest)
  {
    hide DecVarint32, EncVarint;
    Varint32RoundTrip(tag * 8 + wireType, rest);
  }

  lemma FindsDeclared(fields: seq<Field>, i: nat)
    requires TagsDistinct(fields) && i < |fields| && !fields[i].ltype.Extension?
    ensures FindTag(fields, fields[i].tag) == i
  {
  }

  /** The decoder after field i of its input has been read. */
  ghost function Stored(d: Descriptor, x: Decoded, i: nat, c: Cell): Decoded
    requires i < |d.fields| == |x.cells|
  {
    Decoded(x.cells[Home(d.fields, i) := c], Mark(d.fields, i, x.seen))
  }

  /** The decoder meets a declared field. */
  lemma RunTag(d: Descriptor, wireType: nat, i: nat, body: seq<byte>, x: Decoded)
    requires WellFormed(d) && wireType < 8 && i < |d.fields| == |x.cells|
    ensures var f := d.fields[i];
            Run(d, EncTag(wireType, f.tag) + body, x) ==
            match DecField(f, wireType, body, x.cells[Home(d.fields, i)])
            case None => None
            case Some((c, rest)) => Run(d, rest, Stored(d, x, i, c))
  {
    hide DecTag, DecField, EncTag, FindTag;
    var f := d.fields[i];
    TagRoundTrip(wireType, f.tag, body);
    FindsDeclared(d.fields, i);
    assert ValidField(f);
    assert EncTag(wireType, f.tag) + body != [] by {
      assert |EncTag(wireType, f.tag)| > 0;
    }
  }

  /** The memory of field f after v has been stored in it. */
  ghost function CellOf(f: Field, v: Value): Cell {
    match f.htype
    case Required => Bare(v)
    case Optional => if f.sizeOffset != 0 then Flagged(true, v) else Bare(v)
    case Oneof => Union(f.tag, v)
    case Repeated => Counted([v])
  }

  /** What a single value is decoded over. */
  ghost function MemoryOf(f: Field, c: Cell): Value {
    if f.htype.Oneof? && f.ltype.Submessage? then Struct(Defaults(f.ltype.sub, [])) else ValueIn(c)
  }

  lemma TaggedStep(d: Descriptor, i: nat, v: Value, x: Decoded, rest: seq<byte>) returns (v': Value)
    requires WellFormed(d) && i < |d.fields| == |x.cells|
    requires var f := d.fields[i];
             && !f.htype.Repeated? && ValueConforms(f, v)
             && Ready(f, MemoryOf(f, x.cells[Home(d.fields, i)]))
    ensures var f := d.fields[i];
            && EncTagged(f, v).Some? && BackValue(f, v', v)
            && Run(d, EncTagged(f, v).value + rest, x) == Run(d, rest, Stored(d, x, i, CellOf(f, v')))
    decreases d.fields[i], 1
  {
    hide EncTag, DecValue, EncValue, ValueConforms, BackValue, Run, Defaults;
    var f := d.fields[i];
    assert ValidField(f);
    var was := MemoryOf(f, x.cells[Home(d.fields, i)]);
    v' := ValueRoundTrip(f, v, rest, was);
    var e := EncValue(f, v).value;
    RunTag(d, WireType(f.ltype), i, e + rest, x);
    assert EncTagged(f, v).value + rest == EncTag(WireType(f.ltype), f.tag) + (e + rest);
  }

  /** Items before k have been read. */
  lemma {:induction false} PackedRoundTrip(f: Field, items: seq<Value>, k: nat)
    requires ValidField(f) && Packable(f.ltype) && k <= |items| <= f.arraySize
    requires forall j :: 0 <= j < |items| ==> ValueConforms(f, items[j])
    ensures EncItems(f, items[k..]).Some?
    ensures DecPacked(f, EncItems(f, items[k..]).value, items[..k]) == Some(items)
    decreases |items| - k
  {
    if k == |items| {
      assert items[..k] == items;
    } else {
      hide DecValue, EncValue;
      PackedRoundTrip(f, items, k + 1);
      var v, tail := items[k], EncItems(f, items[k + 1..]).value;
      PackedItem(f, v, tail);
      assert items[k..][1..] == items[k + 1..] && items[..k] + [v] == items[..k + 1];
    }
  }

  lemma PackedItem(f: Field, v: Value, tail: seq<byte>)
    requires ValidField(f) && Packable(f.ltype) && ValueConforms(f, v)
    ensures EncValue(f, v).Some? && DecValue(f, EncValue(f, v).value + tail, ZeroValue(f)) == Some((v, tail))
    ensures EncValue(f, v).value + tail != []
  {
    hide DecNumber, EncNumber;
    NumberRoundTrip(f, v.n, tail);
    assert |EncNumber(f, v.n) + tail| > |tail|;
  }

  lemma UnpackedEncodes(f: Field, items: seq<Value>)
    requires ValidField(f) && f.htype.Repeated? && forall j :: 0 <= j < |items| ==> ValueConforms(f, items[j])
    ensures EncUnpacked(f, items).Some?
    decreases f, 1, |items|
  {
    if items != [] {
      hide DecValue, EncValue, BackValue;
      var unused := ValueRoundTrip(f, items[0], [], ZeroValue(f));
      UnpackedEncodes(f, items[1..]);
    }
  }

  lemma UnpackedItem(d: Descriptor, i: nat, v: Value, done: seq<Value>, x: Decoded, after: seq<byte>)
    returns (v': Value)
    requires WellFormed(d) && i < |d.fields| == |x.cells| && x.cells[Home(d.fields, i)] == Counted(done)
    requires var f := d.fields[i];
             f.htype.Repeated? && !Packable(f.ltype) && |done| < f.arraySize && ValueConforms(f, v)
    ensures var f := d.fields[i];
            && EncTagged(f, v).Some? && BackValue(f, v', v)
            && Run(d, EncTagged(f, v).value + after, x) == Run(d, after, Stored(d, x, i, Counted(done + [v'])))
    decreases d.fields[i], 1
  {
    hide EncTag, DecValue, EncValue, ValueConforms, BackValue, Run, Defaults;
    var f := d.fields[i];
    assert ValidField(f);
    v' := ValueRoundTrip(f, v, after, ZeroValue(f));
    var e := EncValue(f, v).value;
    RunTag(d, WireType(f.ltype), i, e + after, x);
    assert EncTagged(f, v).value + after == EncTag(WireType(f.ltype), f.tag) + (e + after);
  }

  ghost predicate BackItems(f: Field, a: seq<Value>, b: seq<Value>) {
    |a| == |b| && forall j :: 0 <= j < |a| ==> BackValue(f, a[j], b[j])
  }

  /** Item by item, each in its own field. */
  lemma UnpackedSteps(d: Descriptor, i: nat, items: seq<Value>, done: seq<Value>, x: Decoded, rest: seq<byte>)
    returns (items': seq<Value>)
    requires WellFormed(d) && i < |d.fields| == |x.cells| && x.cells[Home(d.fields, i)] == Counted(done)
    requires var f := d.fields[i];
             && f.htype.Repeated? && !Packable(f.ltype) && |done| + |items| <= f.arraySize
             && forall j :: 0 <= j < |items| ==> ValueConforms(f, items[j])
    ensures var f := d.fields[i];
            && EncUnpacked(f, items).Some? && BackItems(f, items', items)
            && Run(d, EncUnpacked(f, items).value + rest, x) ==
               Run(d, rest, if items == [] then x else Stored(d, x, i, Counted(done + items')))
    decreases d.fields[i], 2, |items|
  {
    hide EncTag, DecValue, EncValue, ValueConforms, BackValue, Run, Defaults, EncTagged;
    var f := d.fields[i];
    assert ValidField(f);
    UnpackedEncodes(f, items);
    if items == [] {
      items' := [];
      assert [] + rest == rest;
    } else {
      var tail := items[1..];
      var after := EncUnpacked(f, tail).value + rest;
      var v' := UnpackedItem(d, i, items[0], done, x, after);
      var x1 := Stored(d, x, i, Counted(done + [v']));
      var tail' := UnpackedSteps(d, i, tail, done + [v'], x1, rest);
      items' := [v'] + tail';
      assert EncUnpacked(f, items).value + rest == EncTagged(f, items[0]).value + after;
      assert done + [v'] + tail' == done + items';
      StoredTwice(d, x, i, Counted(done + [v']), Counted(done + items'));
      assert tail' == [] ==> items' == [v'];
    }
  }

  lemma StoredTwice(d: Descriptor, x: Decoded, i: nat, c: Cell, c': Cell)
    requires i < |d.fields| == |x.cells|
    ensures Stored(d, Stored(d, x, i, c), i, c') == Stored(d, x, i, c')
  {
  }

  // ----- what is left out is what decoding supplies

  lemma {:induction false} AllDefaultEach(d: Descriptor, cells: seq<Cell>, i: nat, k: nat)
    requires AllDefault(d, cells, i) && i <= k < |d.fields|
    ensures IsDefault(d.fields[k], CellAt(cells, Home(d.fields, k)))
    decreases |d.fields| - i
  {
    if i < k {
      AllDefaultEach(d, cells, i + 1, k);
    }
  }

  lemma HomeOf(fields: seq<Field>, k: nat)
    requires k < |fields|
    ensures !JoinsPrevious(fields, Home(fields, k))
    ensures fields[Home(fields, k)].htype.Oneof? <==> fields[k].htype.Oneof?
    ensures !fields[k].htype.Oneof? ==> Home(fields, k) == k
  {
  }

  /** What is left out comes back as what decoding starts from. */
  lemma DefaultComesBack(f: Field, c: Cell, junk: Cell)
    requires CellConforms(f, c) && IsDefault(f, c) && !f.htype.Oneof?
    ensures BackCell(f, DefaultCell(f, junk), c)
  {
    hide Defaults, ValueConforms, BackValue;
    if Unflagged(f) {
      assert IsFresh(f, DefaultValue(f, ValueIn(junk)));
    }
  }

  // ----- round trip of messages

  /** The member that tag names, in the union at h, is among the first i fields. */
  ghost predicate MemberBefore(fields: seq<Field>, h: nat, tag: nat, i: nat) {
    exists k :: 0 <= k < i && IsMember(fields, h, tag, k)
  }

  ghost predicate UnionProgress(fields: seq<Field>, c: Cell, mc: Cell, h: nat, i: nat) {
    && c.Union? && c.which == (if MemberBefore(fields, h, WhichIn(mc), i) then WhichIn(mc) else 0)
    && forall k :: 0 <= k < i && IsMember(fields, h, WhichIn(mc), k) ==> BackValue(fields[k], c.value, ValueIn(mc))
  }

  /** After the first i fields of m: memory h is done, or still as decoding began. */
  ghost predicate CellProgress(d: Descriptor, m: seq<Cell>, junk: seq<Cell>, cells: seq<Cell>, h: nat, i: nat)
    requires |cells| == |m| == |d.fields| && h < |m|
  {
    if d.fields[h].htype.Oneof? then UnionProgress(d.fields, cells[h], m[h], h, i)
    else if h < i then BackCell(d.fields[h], cells[h], m[h])
    else cells[h] == DefaultCell(d.fields[h], CellAt(junk, h))
  }

  ghost predicate Progress(d: Descriptor, m: seq<Cell>, junk: seq<Cell>, x: Decoded, i: nat)
    requires |m| == |d.fields| && i <= |d.fields|
  {
    && |x.cells| == |d.fields|
    && (forall h :: 0 <= h < |d.fields| && !JoinsPrevious(d.fields, h) ==> CellProgress(d, m, junk, x.cells, h, i))
    && SeenUpTo(d.fields, x.seen, i)
  }

  ghost predicate SeenUpTo(fields: seq<Field>, seen: set<nat>, i: nat)
    requires i <= |fields|
  {
    forall k :: 0 <= k < RequiredBefore(fields, i) && k < MAX_REQUIRED_FIELDS ==> k in seen
  }

  lemma UnionOther(fields: seq<Field>, c: Cell, mc: Cell, h: nat, i: nat)
    requires UnionProgress(fields, c, mc, h, i) && !IsMember(fields, h, WhichIn(mc), i)
    ensures UnionProgress(fields, c, mc, h, i + 1)
  {
  }

  lemma UnionStored(fields: seq<Field>, c: Cell, mc: Cell, h: nat, i: nat)
    requires TagsDistinct(fields) && i < |fields| && IsMember(fields, h, WhichIn(mc), i)
    requires c.Union? && c.which == fields[i].tag && BackValue(fields[i], c.value, ValueIn(mc))
    ensures UnionProgress(fields, c, mc, h, i + 1)
  {
  }

  lemma SeenMarked(fields: seq<Field>, seen: set<nat>, i: nat)
    requires i < |fields| && SeenUpTo(fields, seen, i)
    ensures SeenUpTo(fields, Mark(fields, i, seen), i + 1)
    ensures !fields[i].htype.Required? ==> SeenUpTo(fields, seen, i + 1)
  {
  }

  /** Field i is left out: the decoder goes on as it is. */
  lemma ProgressUntouched(d: Descriptor, m: seq<Cell>, junk: seq<Cell>, x: Decoded, i: nat)
    requires |m| == |d.fields| && i < |d.fields| && TagsDistinct(d.fields) && Progress(d, m, junk, x, i)
    requires var f := d.fields[i];
             if f.htype.Oneof? then WhichIn(m[Home(d.fields, i)]) != f.tag
             else !f.htype.Required? && BackCell(f, DefaultCell(f, CellAt(junk, i)), m[i])
    ensures Progress(d, m, junk, x, i + 1)
  {
  }

  /** Field i has been decoded into its memory. */
  lemma ProgressStored(d: Descriptor, m: seq<Cell>, junk: seq<Cell>, x: Decoded, i: nat, c: Cell)
    requires |m| == |d.fields| && i < |d.fields| && TagsDistinct(d.fields) && Progress(d, m, junk, x, i)
    requires var f := d.fields[i];
             if f.htype.Oneof? then
               && WhichIn(m[Home(d.fields, i)]) == f.tag && c.Union? && c.which == f.tag
               && BackValue(f, c.value, ValueIn(m[Home(d.fields, i)]))
             else BackCell(f, c, m[i])
    ensures Progress(d, m, junk, Stored(d, x, i, c), i + 1)
  {
    HomeOf(d.fields, i);
    hide BackCell, DefaultCell, BackValue, Home, UnionProgress, SeenUpTo, Mark;
    var x', hi := Stored(d, x, i, c), Home(d.fields, i);
    SeenMarked(d.fields, x.seen, i);
    forall h | 0 <= h < |d.fields| && !JoinsPrevious(d.fields, h)
      ensures CellProgress(d, m, junk, x'.cells, h, i + 1)
    {
      assert CellProgress(d, m, junk, x.cells, h, i);
      if h == hi && d.fields[h].htype.Oneof? {
        UnionStored(d.fields, c, m[h], h, i);
      } else if d.fields[h].htype.Oneof? {
        UnionOther(d.fields, x.cells[h], m[h], h, i);
      }
    }
  }

  lemma ProgressDone(d: Descriptor, m: seq<Cell>, junk: seq<Cell>, x: Decoded)
    requires TagsDistinct(d.fields) && Conforms(d, m) && Progress(d, m, junk, x, |d.fields|)
    ensures BackMessage(d, x.cells, m) && RequiredSeen(d.fields, x.seen)
  {
    hide BackCell, DefaultCell, BackValue, ValueConforms, CellConforms, DefaultCell;
    forall k | 0 <= k < |d.fields|
      ensures CellProgress(d, m, junk, x.cells, Home(d.fields, k), |d.fields|)
      ensures !d.fields[k].htype.Oneof? ==> Home(d.fields, k) == k
    {
      HomeOf(d.fields, k);
    }
    forall h | 0 <= h < |d.fields| && d.fields[h].htype.Oneof? && !JoinsPrevious(d.fields, h)
      ensures x.cells[h].Union? && m[h].Union? && x.cells[h].which == m[h].which
    {
      assert CellProgress(d, m, junk, x.cells, h, |d.fields|);
      assert !IsMember(d.fields, h, 0, 0) && forall k :: !IsMember(d.fields, h, 0, k);
      if m[h].which != 0 {
        var k :| IsMember(d.fields, h, m[h].which, k);
        assert MemberBefore(d.fields, h, m[h].which, |d.fields|);
      }
    }
    forall k | 0 <= k < |d.fields| && d.fields[k].htype.Oneof? && WhichIn(m[Home(d.fields, k)]) == d.fields[k].tag
      ensures BackValue(d.fields[k], ValueIn(x.cells[Home(d.fields, k)]), ValueIn(m[Home(d.fields, k)]))
    {
      HomeOf(d.fields, k);
      assert CellProgress(d, m, junk, x.cells, Home(d.fields, k), |d.fields|);
      assert IsMember(d.fields, Home(d.fields, k), WhichIn(m[Home(d.fields, k)]), k);
    }
  }

  lemma ProgressBegins(d: Descriptor, m: seq<Cell>, junk: seq<Cell>)
    requires |m| == |d.fields|
    ensures Progress(d, m, junk, Decoded(Defaults(d, junk), {}), 0)
  {
  }

  /** Field i of m is encoded, and decoding that brings memory on by one field. */
  lemma FieldStep(d: Descriptor, m: seq<Cell>, junk: seq<Cell>, x: Decoded, i: nat, rest: seq<byte>)
    returns (x': Decoded)
    requires WellFormed(d) && Conforms(d, m) && i < |d.fields| && Progress(d, m, junk, x, i)
    ensures var e := EncField(d.fields[i], CellAt(m, Home(d.fields, i)));
            && e.Some? && Run(d, e.value + rest, x) == Run(d, rest, x') && Progress(d, m, junk, x', i + 1)
    decreases d, 0, |d.fields| - i
  {
    var f, h := d.fields[i], Home(d.fields, i);
    HomeOf(d.fields, i);
    assert ValidField(f) && CellAt(m, h) == m[h];
    assert !f.htype.Oneof? ==> CellConforms(f, m[i]);
    assert [] + rest == rest;
    hide Run, Progress, EncTagged, EncArray, IsDefault, BackCell, DefaultCell, BackValue, ValueConforms;
    hide Defaults, Home;
    match f.htype
    case Required => x' := SingleStep(d, m, junk, x, i, rest);
    case Optional =>
      if (if f.sizeOffset != 0 then !HasIn(m[i]) else IsDefault(f, m[i])) {
        DefaultComesBack(f, m[i], CellAt(junk, i));
        ProgressUntouched(d, m, junk, x, i);
        x' := x;
      } else {
        x' := SingleStep(d, m, junk, x, i, rest);
      }
    case Repeated => x' := ArrayStep(d, m, junk, x, i, rest);
    case Oneof =>
      if WhichIn(m[h]) == f.tag {
        x' := UnionStep(d, m, junk, x, i, rest);
      } else {
        ProgressUntouched(d, m, junk, x, i);
        x' := x;
      }
  }

  lemma DefaultIsReady(f: Field, junk: Cell)
    requires !f.htype.Oneof?
    ensures Ready(f, ValueIn(DefaultCell(f, junk)))
  {
    hide Defaults;
    if f.ltype.Submessage? && !f.htype.Repeated? {
      assert ValueIn(DefaultCell(f, junk)) == DefaultValue(f, ValueIn(junk));
      assert DefaultValue(f, ValueIn(junk)) == Struct(Defaults(f.ltype.sub, CellsIn(ValueIn(junk))));
    }
  }

  lemma SingleStep(d: Descriptor, m: seq<Cell>, junk: seq<Cell>, x: Decoded, i: nat, rest: seq<byte>)
    returns (x': Decoded)
    requires WellFormed(d) && Conforms(d, m) && i < |d.fields| && Progress(d, m, junk, x, i)
    requires var f := d.fields[i];
             (f.htype.Required? || f.htype.Optional?) && ValueConforms(f, ValueIn(m[i]))
             && (f.htype.Optional? ==> if f.sizeOffset != 0 then HasIn(m[i]) else !IsDefault(f, m[i]))
    ensures var e := EncTagged(d.fields[i], ValueIn(m[i]));
            && e.Some? && Run(d, e.value + rest, x) == Run(d, rest, x') && Progress(d, m, junk, x', i + 1)
    decreases d, 0, 0
  {
    var f := d.fields[i];
    HomeOf(d.fields, i);
    assert CellConforms(f, m[i]) && CellProgress(d, m, junk, x.cells, i, i);
    hide Run, EncTagged, BackValue, ValueConforms, Progress, Defaults, Ready;
    DefaultIsReady(f, CellAt(junk, i));
    var v' := TaggedStep(d, i, ValueIn(m[i]), x, rest);
    ProgressStored(d, m, junk, x, i, CellOf(f, v'));
    x' := Stored(d, x, i, CellOf(f, v'));
  }

  lemma UnionStep(d: Descriptor, m: seq<Cell>, junk: seq<Cell>, x: Decoded, i: nat, rest: seq<byte>)
    returns (x': Decoded)
    requires WellFormed(d) && Conforms(d, m) && i < |d.fields| && Progress(d, m, junk, x, i)
    requires d.fields[i].htype.Oneof? && WhichIn(m[Home(d.fields, i)]) == d.fields[i].tag
    ensures var e := EncTagged(d.fields[i], ValueIn(m[Home(d.fields, i)]));
            && e.Some? && Run(d, e.value + rest, x) == Run(d, rest, x') && Progress(d, m, junk, x', i + 1)
    decreases d, 0, 0
  {
    var f, h := d.fields[i], Home(d.fields, i);
    hide Run, EncTagged, BackValue, ValueConforms, Progress, Defaults, Home;
    assert Ready(f, MemoryOf(f, x.cells[h]));
    var v' := TaggedStep(d, i, ValueIn(m[h]), x, rest);
    ProgressStored(d, m, junk, x, i, CellOf(f, v'));
    x' := Stored(d, x, i, CellOf(f, v'));
  }

  lemma ArrayStep(d: Descriptor, m: seq<Cell>, junk: seq<Cell>, x: Decoded, i: nat, rest: seq<byte>)
    returns (x': Decoded)
    requires WellFormed(d) && Conforms(d, m) && i < |d.fields| && Progress(d, m, junk, x, i)
    requires d.fields[i].htype.Repeated?
    ensures var e := EncArray(d.fields[i], ItemsIn(m[i]));
            && e.Some? && Run(d, e.value + rest, x) == Run(d, rest, x') && Progress(d, m, junk, x', i + 1)
    decreases d, 0, 0
  {
    var f, items := d.fields[i], ItemsIn(m[i]);
    HomeOf(d.fields, i);
    assert ValidField(f) && CellConforms(f, m[i]) && CellProgress(d, m, junk, x.cells, i, i);
    assert x.cells[i] == Counted([]);
    hide Run, BackValue, ValueConforms, Progress, EncUnpacked, EncItems;
    if items == [] {
      assert [] + rest == rest;
      ProgressUntouched(d, m, junk, x, i);
      x' := x;
    } else if Packable(f.ltype) {
      PackedStep(d, i, items, x, rest);
      SameItemsPacked(f, items);
      ProgressStored(d, m, junk, x, i, Counted(items));
      x' := Stored(d, x, i, Counted(items));
    } else {
      x' := UnpackedArrayStep(d, m, junk, x, i, items, rest);
    }
  }

  lemma UnpackedArrayStep(d: Descriptor, m: seq<Cell>, junk: seq<Cell>, x: Decoded, i: nat,
                          items: seq<Value>, rest: seq<byte>)
    returns (x': Decoded)
    requires WellFormed(d) && Conforms(d, m) && i < |d.fields| && Progress(d, m, junk, x, i)
    requires var f := d.fields[i];
             f.htype.Repeated? && !Packable(f.ltype) && items == ItemsIn(m[i]) && items != []
    ensures var e := EncArray(d.fields[i], items);
            && e.Some? && Run(d, e.value + rest, x) == Run(d, rest, x') && Progress(d, m, junk, x', i + 1)
    decreases d.fields[i], 3
  {
    var f := d.fields[i];
    HomeOf(d.fields, i);
    assert ValidField(f) && CellConforms(f, m[i]) && CellProgress(d, m, junk, x.cells, i, i);
    assert x.cells[i] == Counted([]);
    hide Run, BackValue, ValueConforms, Progress, EncUnpacked, EncItems;
    var items' := UnpackedSteps(d, i, items, [], x, rest);
    assert [] + items' == items';
    ProgressStored(d, m, junk, x, i, Counted(items'));
    x' := Stored(d, x, i, Counted(items'));
  }

  lemma SameItemsPacked(f: Field, items: seq<Value>)
    requires Packable(f.ltype)
    ensures BackItems(f, items, items)
  {
  }

  lemma PackedStep(d: Descriptor, i: nat, items: seq<Value>, x: Decoded, rest: seq<byte>)
    requires WellFormed(d) && i < |d.fields| == |x.cells| && x.cells[Home(d.fields, i)] == Counted([])
    requires var f := d.fields[i];
             && f.htype.Repeated? && Packable(f.ltype) && 0 < |items| <= f.arraySize
             && (forall j :: 0 <= j < |items| ==> ValueConforms(f, items[j]))
             && (EncItems(f, items).Some? ==> |EncItems(f, items).value| < TWO32)
    ensures var e := EncArray(d.fields[i], items);
            e.Some? && Run(d, e.value + rest, x) == Run(d, rest, Stored(d, x, i, Counted(items)))
  {
    hide Run, ValueConforms, EncItems, DecPrefixed, DecPacked, EncTag, Prefixed;
    var f := d.fields[i];
    assert ValidField(f);
    PackedRoundTrip(f, items, 0);
    assert items[0..] == items && items[..0] == [];
    var b := EncItems(f, items).value;
    PrefixedRoundTrip(b, rest);
    RunTag(d, WT_STRING, i, Prefixed(b) + rest, x);
    assert EncArray(f, items).value + rest == EncTag(WT_STRING, f.tag) + (Prefixed(b) + rest);
  }

  /** From field i on, to the end of the message. */
  lemma {:induction false} RunFrom(d: Descriptor, m: seq<Cell>, junk: seq<Cell>, x: Decoded, i: nat)
    returns (x': Decoded)
    requires WellFormed(d) && Conforms(d, m) && i <= |d.fields| && Progress(d, m, junk, x, i)
    ensures EncFrom(d, m, i).Some? && Run(d, EncFrom(d, m, i).value, x) == Some(x')
    ensures Progress(d, m, junk, x', |d.fields|)
    decreases d, 0, |d.fields| - i + 1
  {
    hide Progress, EncField, Conforms;
    if i == |d.fields| {
      x' := x;
    } else {
      assert ValidField(d.fields[i]);
      var e := EncField(d.fields[i], CellAt(m, Home(d.fields, i)));
      // the encoding of the rest does not depend on the memory it is decoded into
      var x1 := FieldStep(d, m, junk, x, i, []);
      var unused := RunFrom(d, m, junk, x1, i + 1);
      hide Run;
      var x2 := FieldStep(d, m, junk, x, i, EncFrom(d, m, i + 1).value);
      x' := RunFrom(d, m, junk, x2, i + 1);
    }
  }

  /** Whatever the memory held before: the encoding of a conforming message is decoded, to what comes back of it. */
  lemma MessageComesBack(d: Descriptor, m: seq<Cell>, junk: seq<Cell>) returns (m': seq<Cell>)
    requires WellFormed(d) && Conforms(d, m)
    ensures EncMessage(d, m).Some?
    ensures DecMessage(d, EncMessage(d, m).value, Defaults(d, junk)) == Some(m') && BackMessage(d, m', m)
    decreases d, 1, 0
  {
    var start := Decoded(Defaults(d, junk), {});
    ProgressBegins(d, m, junk);
    hide Run, EncFrom, Progress, Defaults, BackMessage, RequiredSeen;
    var x := RunFrom(d, m, junk, start, 0);
    ProgressDone(d, m, junk, x);
    m' := x.cells;
  }

  // ----- when a message comes back the same

  /** A zero in this field, left out, comes back as zero. */
  ghost predicate ZeroByDefault(f: Field)
    decreases f
  {
    match f.ltype
    case Submessage(sub) => UnflaggedZero(sub)
    case String => f.dflt.Some? ==> f.dflt.value.Text? && CString(f.dflt.value.s, f.dataSize) == []
    case _ => f.dflt.Some? ==> f.dflt.value == ZeroValue(f)
  }

  ghost predicate UnflaggedZero(d: Descriptor)
    decreases d
  {
    forall i :: 0 <= i < |d.fields| && Unflagged(d.fields[i]) ==> ZeroByDefault(d.fields[i])
  }

  /** No field of m, at any depth, holds a zero that is left out and has another default. */
  ghost predicate NothingLost(d: Descriptor, m: seq<Cell>)
    decreases d
  {
    && |m| == |d.fields|
    && (forall i :: 0 <= i < |d.fields| && !d.fields[i].htype.Oneof? ==> CellKept(d.fields[i], m[i]))
    && (forall k :: 0 <= k < |d.fields| && Chosen(d.fields, m, k) ==>
          ValueKept(d.fields[k], ValueIn(m[Home(d.fields, k)])))
  }

  ghost predicate CellKept(f: Field, c: Cell)
    decreases f, 1
  {
    match f.htype
    case Required => ValueKept(f, ValueIn(c))
    case Optional =>
      if f.sizeOffset != 0 then HasIn(c) ==> ValueKept(f, ValueIn(c))
      else if IsDefault(f, c) then ZeroByDefault(f)
      else ValueKept(f, ValueIn(c))
    case Repeated => forall i :: 0 <= i < |ItemsIn(c)| ==> ValueKept(f, ItemsIn(c)[i])
    case Oneof => true
  }

  ghost predicate ValueKept(f: Field, v: Value)
    decreases f, 0
  {
    f.ltype.Submessage? ==> NothingLost(f.ltype.sub, CellsIn(v))
  }

  lemma DefaultUnion(f: Field, c: Cell)
    requires f.htype.Oneof? && IsDefault(f, c)
    ensures WhichIn(c) == 0
  {
  }

  lemma DefaultOfUnion(f: Field, junk: Cell)
    requires f.htype.Oneof?
    ensures DefaultCell(f, junk) == Union(0, ValueIn(junk))
  {
  }

  lemma FreshSameIff(f: Field, v: Value, was: Value)
    requires ValidField(f) && Unflagged(f) && ValueConforms(f, v) && IsDefault(f, Bare(v))
    ensures SameValue(f, DefaultValue(f, was), v) <==> ZeroByDefault(f)
    decreases f, 0
  {
    match f.ltype
    case Submessage(sub) => FreshMessageSameIff(sub, v.cells, CellsIn(was));
    case String => assert CString([], f.dataSize) == [] == CString(v.s, f.dataSize);
    case FixedLengthBytes => assert v.s == Zeros(f.dataSize);
    case Bytes(_) =>
    case Extension => assert false;
    case _ =>
  }

  lemma FreshCellSameIff(f: Field, c: Cell, was: Cell)
    requires ValidField(f) && CellConforms(f, c) && IsDefault(f, c) && !f.htype.Oneof?
    ensures SameCell(f, DefaultCell(f, was), c) <==> (Unflagged(f) ==> ZeroByDefault(f))
    decreases f, 1
  {
    hide Defaults, ValueConforms, SameValue, ZeroByDefault, ValidField;
    if Unflagged(f) {
      FreshSameIff(f, c.value, ValueIn(was));
    }
  }

  /** A message that is all zero is the one decoding starts from, if all that it leaves out is zero by default. */
  lemma FreshMessageSameIff(d: Descriptor, m: seq<Cell>, junk: seq<Cell>)
    requires WellFormed(d) && Conforms(d, m) && AllDefault(d, m, 0)
    ensures SameMessage(d, Defaults(d, junk), m) <==> UnflaggedZero(d)
    decreases d
  {
    hide AllDefault;
    hide ValidField, IsDefault, DefaultCell, SameCell, CellConforms, ValueConforms, SameValue, ZeroByDefault;
    var start := Defaults(d, junk);
    forall i | 0 <= i < |d.fields| && !d.fields[i].htype.Oneof?
      ensures SameCell(d.fields[i], start[i], m[i]) <==> (Unflagged(d.fields[i]) ==> ZeroByDefault(d.fields[i]))
    {
      HomeOf(d.fields, i);
      AllDefaultEach(d, m, 0, i);
      FreshCellSameIff(d.fields[i], m[i], CellAt(junk, i));
    }
    forall k | 0 <= k < |d.fields| && d.fields[k].htype.Oneof?
      ensures WhichIn(m[Home(d.fields, k)]) == 0 && start[Home(d.fields, k)].Union?
      ensures WhichIn(start[Home(d.fields, k)]) == 0
    {
      HomeOf(d.fields, k);
      AllDefaultEach(d, m, 0, k);
      DefaultUnion(d.fields[k], m[Home(d.fields, k)]);
      DefaultOfUnion(d.fields[Home(d.fields, k)], CellAt(junk, Home(d.fields, k)));
    }
    assert forall h :: 0 <= h < |d.fields| && !JoinsPrevious(d.fields, h) ==> Home(d.fields, h) == h;
  }

  lemma BackValueSameIff(f: Field, a: Value, b: Value)
    requires ValidField(f) && ValueConforms(f, b) && BackValue(f, a, b)
    ensures SameValue(f, a, b) <==> ValueKept(f, b)
    decreases f, 0
  {
    hide NothingLost, SameMessage, BackMessage, Conforms;
    if f.ltype.Submessage? {
      BackSameIff(f.ltype.sub, a.cells, b.cells);
    }
  }

  lemma BackItemsSameIff(f: Field, a: seq<Value>, b: seq<Value>)
    requires ValidField(f) && |a| == |b|
    requires forall i :: 0 <= i < |a| ==> ValueConforms(f, b[i]) && BackValue(f, a[i], b[i])
    ensures forall i :: 0 <= i < |a| ==> (SameValue(f, a[i], b[i]) <==> ValueKept(f, b[i]))
    decreases f, 1
  {
    hide ValidField, ValueConforms, BackValue, SameValue, ValueKept;
    forall i | 0 <= i < |a|
      ensures SameValue(f, a[i], b[i]) <==> ValueKept(f, b[i])
    {
      BackValueSameIff(f, a[i], b[i]);
    }
  }

  lemma BackCellSameIff(f: Field, a: Cell, b: Cell)
    requires ValidField(f) && !f.htype.Oneof? && CellConforms(f, b) && BackCell(f, a, b)
    ensures SameCell(f, a, b) <==> CellKept(f, b)
    decreases f, 2
  {
    hide ValidField, ValueConforms, BackValue, SameValue, ValueKept, ZeroByDefault, DefaultValue, EncItems;
    match f.htype
    case Required => BackValueSameIff(f, a.value, b.value);
    case Repeated =>
      BackItemsSameIff(f, a.items, b.items);
      assert forall i :: 0 <= i < |b.items| ==> ItemsIn(b)[i] == b.items[i];
      assert SameCell(f, a, b) <==> forall i :: 0 <= i < |a.items| ==> SameValue(f, a.items[i], b.items[i]);
      assert CellKept(f, b) <==> forall i :: 0 <= i < |b.items| ==> ValueKept(f, b.items[i]);
    case Optional =>
      if Unflagged(f) && IsDefault(f, b) {
        var was :| a.value == DefaultValue(f, was);
        FreshSameIff(f, b.value, was);
      } else if Unflagged(f) || b.has {
        BackValueSameIff(f, a.value, b.value);
      }
  }

  /** What comes back is the message itself exactly when it holds no zero that is left out and has another default. */
  lemma BackSameIff(d: Descriptor, a: seq<Cell>, b: seq<Cell>)
    requires WellFormed(d) && Conforms(d, b) && BackMessage(d, a, b)
    ensures SameMessage(d, a, b) <==> NothingLost(d, b)
    decreases d
  {
    hide ValidField, CellConforms, ValueConforms, BackCell, BackValue, SameCell, SameValue, CellKept, ValueKept, Home;
    forall i | 0 <= i < |d.fields| && !d.fields[i].htype.Oneof?
      ensures SameCell(d.fields[i], a[i], b[i]) <==> CellKept(d.fields[i], b[i])
    {
      BackCellSameIff(d.fields[i], a[i], b[i]);
    }
    forall k | 0 <= k < |d.fields| && Chosen(d.fields, b, k)
      ensures SameValue(d.fields[k], ValueIn(a[Home(d.fields, k)]), ValueIn(b[Home(d.fields, k)])) <==>
              ValueKept(d.fields[k], ValueIn(b[Home(d.fields, k)]))
    {
      BackValueSameIff(d.fields[k], ValueIn(a[Home(d.fields, k)]), ValueIn(b[Home(d.fields, k)]));
    }
  }

  /**
   * Whatever the memory held before: decoding the encoding of a conforming message succeeds, and gives a message
   * that says the same if and only if no zero was left out of it that has another default.
   */
  lemma MessageRoundTrip(d: Descriptor, m: seq<Cell>, junk: seq<Cell>) returns (m': seq<Cell>)
    requires WellFormed(d) && Conforms(d, m)
    ensures EncMessage(d, m).Some?
    ensures DecMessage(d, EncMessage(d, m).value, Defaults(d, junk)) == Some(m')
    ensures SameMessage(d, m', m) <==> NothingLost(d, m)
  {
    hide WellFormed, Conforms, EncMessage, DecMessage, Defaults, SameMessage, NothingLost, BackMessage;
    m' := MessageComesBack(d, m, junk);
    BackSameIff(d, m', m);
  }

  // ----- a message that does not

  const ZERO: Cell := Bare(Number(0))
  const FIVE: Cell := Bare(Number(5))
  const FIVE_BY_DEFAULT := Field(1, Uvarint, Optional, After(0), 0, 4, 0, Some(Number(5)))

  lemma NothingEncoded()
    ensures EncMessage(Descriptor([FIVE_BY_DEFAULT]), [ZERO]) == Some([])
  {
    var d := Descriptor([FIVE_BY_DEFAULT]);
    assert Home(d.fields, 0) == 0 && EncField(FIVE_BY_DEFAULT, ZERO) == Some([]);
    var nothing: seq<byte> := [];
    assert nothing + nothing == nothing && EncFrom(d, [ZERO], 1) == Some(nothing);
  }

  lemma FiveDecoded(junk: seq<Cell>)
    ensures var d := Descriptor([FIVE_BY_DEFAULT]); DecMessage(d, [], Defaults(d, junk)) == Some([FIVE])
  {
    var d := Descriptor([FIVE_BY_DEFAULT]);
    assert RequiredBefore(d.fields, 0) == 0 == RequiredBefore(d.fields, 1);
    assert DefaultCell(FIVE_BY_DEFAULT, CellAt(junk, 0)) == FIVE;
    assert Defaults(d, junk) == [FIVE];
  }

  /** An input that is not the same afterwards: zero in a field whose default is five. */
  lemma ZeroComesBackAsFive(junk: seq<Cell>)
    ensures var d := Descriptor([FIVE_BY_DEFAULT]);
            && WellFormed(d) && Conforms(d, [ZERO])
            && EncMessage(d, [ZERO]) == Some([]) && DecMessage(d, [], Defaults(d, junk)) == Some([FIVE])
  {
    hide EncMessage, DecMessage, Defaults;
    NothingEncoded();
    FiveDecoded(junk);
    assert CellConforms(FIVE_BY_DEFAULT, ZERO);
  }
}
