/** The encoder, writing to a buffer or only counting. */
module PbEncode {
  import opened Wire
  import opened Buffers
  import opened PbVarint
  import opened PbIterator
  import opened PbMessage

  // ----- what an operation on an output stream may do

  /** sizing: bytes are counted and dropped. Otherwise they go to buf from at on, while written stays in maxSize. */
  datatype Output = Output(sizing: bool, maxSize: nat, at: nat, written: nat, buf: seq<byte>)

  ghost predicate HasRoom(o: Output) {
    !o.sizing ==> o.written <= o.maxSize && o.at + o.maxSize - o.written <= |o.buf|
  }

  /** Only the part of the buffer that was still free has changed. */
  ghost predicate Confined(o: Output, o': Output) {
    && o.written <= o'.written <= o.maxSize && o'.at - o.at == o'.written - o.written
    && |o'.buf| == |o.buf| && o.at + o.maxSize - o.written <= |o.buf|
    && o'.buf[..o.at] == o.buf[..o.at]
    && o'.buf[o.at + o.maxSize - o.written..] == o.buf[o.at + o.maxSize - o.written..]
  }

  /** An attempt to emit b: it succeeds exactly when there is a b and it fits, and then writes just b. */
  ghost predicate Emits(o: Output, b: Option<seq<byte>>, ok: bool, o': Output) {
    && o'.sizing == o.sizing && o'.maxSize == o.maxSize
    && if o.sizing then
         && o'.buf == o.buf && o'.at == o.at && (ok <==> b.Some?)
         && (ok ==> o'.written == o.written + |b.value|)
       else
         && Confined(o, o')
         && (ok <==> b.Some? && o.written + |b.value| <= o.maxSize)
         && (ok ==> o'.written == o.written + |b.value|
                    && o'.buf == o.buf[..o.at] + b.value + o.buf[o.at + |b.value|..])
  }

  lemma EmitsNothing(o: Output)
    requires HasRoom(o)
    ensures Emits(o, Some([]), true, o)
  {
  }

  /** Emitting a and then b is emitting both. */
  lemma EmitsThen(o: Output, a: seq<byte>, o1: Output, b: Option<seq<byte>>, ok: bool, o2: Output)
    requires HasRoom(o) && Emits(o, Some(a), true, o1) && Emits(o1, b, ok, o2)
    ensures Emits(o, Join(Some(a), b), ok, o2)
  {
  }

  /** A failure before the end is a failure of the whole. */
  lemma EmitsStops(o: Output, a: Option<seq<byte>>, o': Output, b: Option<seq<byte>>)
    requires Emits(o, a, false, o')
    ensures Emits(o, Join(a, b), false, o')
  {
  }

  /** One more piece of what is emitted in a loop: done so far, e now, r to come. */
  lemma EmitsNext(o: Output, done: seq<byte>, o1: Output, e: Option<seq<byte>>, ok: bool, o2: Output,
                  r: Option<seq<byte>>)
    requires HasRoom(o) && Emits(o, Some(done), true, o1) && Emits(o1, e, ok, o2)
    ensures ok ==> e.Some? && Emits(o, Some(done + e.value), true, o2)
                   && Join(Some(done), Join(e, r)) == Join(Some(done + e.value), r)
    ensures !ok ==> Emits(o, Join(Some(done), Join(e, r)), false, o2)
  {
    EmitsThen(o, done, o1, e, ok, o2);
    if ok {
      assert r.Some? ==> done + (e.value + r.value) == done + e.value + r.value;
    } else {
      EmitsStops(o, Join(Some(done), e), o2, r);
      assert e.Some? && r.Some? ==> done + (e.value + r.value) == done + e.value + r.value;
    }
  }

  /** What is left of a string from character n on. */
  lemma CStringFrom(s: seq<byte>, max: nat, n: nat)
    requires n <= |s| && n <= max
    ensures s[0..] == s
    ensures |CString(s[n..], max - n)| ==
            if n < |s| && n < max && s[n] != 0 then 1 + |CString(s[n + 1..], max - (n + 1))| else 0
  {
  }

  // ----- lengths that fit a size_t

  ghost predicate ValueSized(f: Field, v: Value)
    decreases f, 0
  {
    && f.dataSize < TWO64 && |TextIn(v)| < TWO64
    && (f.ltype.Submessage? ==>
          MessageSized(f.ltype.sub, CellsIn(v)) && Short(EncMessage(f.ltype.sub, CellsIn(v))))
  }

  ghost predicate Short(b: Option<seq<byte>>) {
    b.Some? ==> |b.value| < TWO64
  }

  ghost predicate CellSized(f: Field, c: Cell)
    decreases f, 2
  {
    match f.htype
    case Required => ValueSized(f, ValueIn(c))
    case Optional => f.sizeOffset == 0 || HasIn(c) ==> ValueSized(f, ValueIn(c))
    case Repeated => ItemsSized(f, ItemsIn(c))
    case Oneof => WhichIn(c) == f.tag ==> ValueSized(f, ValueIn(c))
  }

  ghost predicate ItemsSized(f: Field, items: seq<Value>)
    decreases f, 1
  {
    (forall i :: 0 <= i < |items| ==> ValueSized(f, items[i])) && Short(EncItems(f, items))
  }

  ghost predicate MessageSized(d: Descriptor, cells: seq<Cell>)
    decreases d
  {
    forall i :: 0 <= i < |d.fields| ==> CellSized(d.fields[i], CellAt(cells, Home(d.fields, i)))
  }

  lemma JoinUnit(b: Option<seq<byte>>)
    ensures Join(Some([]), b) == b && Join(b, Some([])) == b
  {
    assert b.Some? ==> [] + b.value == b.value && b.value + [] == b.value;
  }

  lemma ItemsFrom(f: Field, items: seq<Value>, i: nat)
    requires i < |items|
    ensures EncItems(f, items[i..]) == Join(EncValue(f, items[i]), EncItems(f, items[i + 1..]))
    ensures EncUnpacked(f, items[i..]) == Join(EncTagged(f, items[i]), EncUnpacked(f, items[i + 1..]))
  {
  }

  /** Fixed-width items take their width each. */
  lemma {:induction false} FixedItemsLength(f: Field, items: seq<Value>)
    requires f.ltype.Fixed32? || f.ltype.Fixed64?
    ensures EncItems(f, items).Some?
    ensures |EncItems(f, items).value| == |items| * if f.ltype.Fixed32? then 4 else 8
  {
    if items != [] {
      FixedItemsLength(f, items[1..]);
    }
  }

  datatype EncodeError = StreamFull | ArrayMaxSizeExceeded | BytesSizeExceeded | SubmsgSizeChanged | InvalidDataSize
                       | InvalidFieldType

  /** The last byte is marked as continued. */
  ghost predicate Continued(done: seq<byte>) {
    done != [] && done[|done| - 1] >= 128
  }

  /** With the last byte's mark removed. */
  ghost function Finished(done: seq<byte>): seq<byte>
    requires Continued(done)
  {
    done[..|done| - 1] + [done[|done| - 1] - 128]
  }

  function Group(value: nat): byte {
    value % 128 + 128
  }

  lemma LastGroup(done: seq<byte>, value: nat)
    requires 0 < value < 128
    ensures |EncVarint(value)| == 1 && Continued(done + [Group(value)])
    ensures done + EncVarint(value) == Finished(done + [Group(value)])
  {
  }

  lemma MoreGroups(done: seq<byte>, value: nat)
    requires value >= 128
    ensures |EncVarint(value)| == 1 + |EncVarint(value / 128)|
    ensures done + EncVarint(value) == done + [Group(value)] + EncVarint(value / 128)
  {
    var tail := EncVarint(value / 128);
    assert EncVarint(value) == [Group(value)] + tail;
    hide EncVarint, Group;
  }

  class OStream {
    const sizing: bool
    const buf: array<byte>
    const maxSize: nat
    var state: nat
    var bytesWritten: nat
    var errmsg: Option<EncodeError>

    ghost function Out(): Output
      reads this, buf
    {
      Output(sizing, maxSize, state, bytesWritten, buf[..])
    }

    /** In particular, no submessage has been found to change its size between sizing and writing. */
    ghost predicate Valid()
      reads this, buf
    {
      HasRoom(Out()) && errmsg != Some(SubmsgSizeChanged)
    }

    constructor FromBuffer(buf: array<byte>, start: nat, maxSize: nat)
      requires start + maxSize <= buf.Length
      ensures Valid() && !sizing && this.buf == buf && Out() == Output(false, maxSize, start, 0, buf[..])
    {
      this.buf, this.maxSize, sizing := buf, maxSize, false;
      state, bytesWritten, errmsg := start, 0, None;
    }

    constructor Sizing()
      ensures Valid() && sizing && fresh(buf) && bytesWritten == 0
    {
      buf := new byte[0];
      maxSize, sizing, state, bytesWritten, errmsg := 0, true, 0, 0, None;
    }

    method Write(b: seq<byte>) returns (ok: bool)
      requires Valid()
      modifies this, buf
      ensures Valid() && Emits(old(Out()), Some(b), ok, Out())
    {
      if !sizing {
        if bytesWritten + |b| > maxSize {
          errmsg := Some(StreamFull);
          return false;
        }
        CopyTo(buf, state, b);
        state := state + |b|;
      }
      bytesWritten := bytesWritten + |b|;
      return true;
    }

    /** Counts size bytes without having them. */
    method Count(size: nat, ghost b: seq<byte>)
      requires Valid() && sizing && |b| == size
      modifies this
      ensures Valid() && Emits(old(Out()), Some(b), true, Out())
    {
      bytesWritten := bytesWritten + size;
    }

    /** Seven bits to a byte, least significant first, all but the last marked as continued. */
    static method FillVarint(v: nat) returns (buffer: array<byte>, i: nat)
      requires 0x7F < v < TWO64
      ensures fresh(buffer) && i <= buffer.Length && buffer[..i] == EncVarint(v)
    {
      hide EncVarint;
      VarintRoundTrip(v, []);
      buffer, i := new byte[10], 0;
      var value: nat := v;
      ghost var done: seq<byte> := [];
      while value > 0
        invariant i <= 10 == buffer.Length && fresh(buffer) && buffer[..i] == done
        invariant value > 0 ==> i + |EncVarint(value)| <= 10 && EncVarint(v) == done + EncVarint(value)
        invariant value == 0 ==> Continued(done) && EncVarint(v) == Finished(done)
      {
        if value < 128 {
          LastGroup(done, value);
        } else {
          MoreGroups(done, value);
        }
        buffer[i] := Group(value);
        done := done + [Group(value)];
        value := value / 128;
        i := i + 1;
      }
      assert buffer[i - 1] == done[i - 1];
      buffer[i - 1] := buffer[i - 1] - 128;
    }

    method EncodeVarint(v: nat) returns (ok: bool)
      requires Valid() && v < TWO64
      modifies this, buf
      ensures Valid() && Emits(old(Out()), Some(EncVarint(v)), ok, Out())
    {
      hide Emits, HasRoom;
      if v <= 0x7F {
        ok := Write([v]);
        return ok;
      }
      var buffer, i := FillVarint(v);
      ok := Write(buffer[..i]);
    }

    method EncodeTag(wireType: nat, tag: nat) returns (ok: bool)
      requires Valid() && wireType < 8 && tag < 0x1_0000_0000
      modifies this, buf
      ensures Valid() && Emits(old(Out()), Some(EncTag(wireType, tag)), ok, Out())
    {
      hide Emits, HasRoom;
      ok := EncodeVarint(tag * 8 + wireType);
    }

    /** The length, then the bytes. */
    method EncodeString(s: seq<byte>) returns (ok: bool)
      requires Valid() && |s| < TWO64
      modifies this, buf
      ensures Valid() && Emits(old(Out()), Some(Prefixed(s)), ok, Out())
    {
      hide Emits, HasRoom, EncVarint;
      ghost var o := Out();
      ok := EncodeVarint(|s|);
      if !ok {
        EmitsStops(o, Some(EncVarint(|s|)), Out(), Some(s));
        return false;
      }
      ghost var o1 := Out();
      ok := Write(s);
      EmitsThen(o, EncVarint(|s|), o1, Some(s), ok, Out());
    }

    // ----- values

    method EncodeNumber(f: Field, n: int) returns (ok: bool)
      requires Valid() && Packable(f.ltype) && (n == 0 || Fits(f, n))
      modifies this, buf
      ensures Valid() && Emits(old(Out()), Some(EncNumber(f, n)), ok, Out())
    {
      hide Emits, HasRoom, EncVarint, ToLittleEndian;
      if f.ltype.Svarint? {
        ZigZagRoundTrip(n);
        ok := EncodeVarint(ZigZag(n));
      } else if f.ltype.Fixed32? {
        ok := Write(ToLittleEndian(n, 4));
      } else if f.ltype.Fixed64? {
        ok := Write(ToLittleEndian(n, 8));
      } else {
        ok := EncodeVarint(Word64(n));
      }
    }

    /** The characters up to the terminator, or to the end of the memory. */
    static method StringSize(s: seq<byte>, maxSize: nat) returns (size: nat)
      ensures size <= |s| && s[..size] == CString(s, maxSize)
    {
      hide CString;
      size := 0;
      CStringFrom(s, maxSize, 0);
      while size < maxSize && size < |s| && s[size] != 0
        invariant size <= maxSize && size <= |s|
        invariant |CString(s, maxSize)| == size + |CString(s[size..], maxSize - size)|
      {
        CStringFrom(s, maxSize, size);
        size := size + 1;
      }
      CStringFrom(s, maxSize, size);
    }

    /** The value of one field, by its type. */
    method EncodeValue(f: Field, v: Value) returns (ok: bool)
      requires Valid() && ProperField(f) && ValueSized(f, v)
      modifies this, buf
      ensures Valid() && Emits(old(Out()), EncValue(f, v), ok, Out())
      decreases f, 0
    {
      hide EncMessage, EncNumber, Prefixed, CString, HasRoom, Confined;
      match f.ltype
      case Bytes(offset) =>
        if |TextIn(v)| + offset > f.dataSize {
          errmsg := Some(BytesSizeExceeded);
          FailsWithout(Out());
          return false;
        }
        ok := EncodeString(TextIn(v));
      case String =>
        var size := StringSize(TextIn(v), f.dataSize);
        ok := EncodeString(TextIn(v)[..size]);
      case FixedLengthBytes => ok := EncodeString(FixedText(f, v));
      case Submessage(sub) => ok := EncodeSubmessage(sub, CellsIn(v));
      case Extension =>
        errmsg := Some(InvalidFieldType);
        FailsWithout(Out());
        return false;
      case Fixed32 => ok := EncodeNumber(f, NumberIn(f, v));
      case Fixed64 => ok := EncodeNumber(f, NumberIn(f, v));
      case _ =>
        if !SizeOk(f.dataSize) {
          errmsg := Some(InvalidDataSize);
          FailsWithout(Out());
          return false;
        }
        ok := EncodeNumber(f, NumberIn(f, v));
    }

    /** Sizing first, then the length, then writing into a substream of just that length. */
    method EncodeSubmessage(sub: Descriptor, cells: seq<Cell>) returns (ok: bool)
      requires Valid() && Proper(sub) && MessageSized(sub, cells) && Short(EncMessage(sub, cells))
      modifies this, buf
      ensures Valid()
      ensures var b := EncMessage(sub, cells);
              Emits(old(Out()), if b.Some? then Some(Prefixed(b.value)) else None, ok, Out())
      decreases sub, |sub.fields| + 3
    {
      hide EncMessage, EncVarint, MessageSized, Proper;
      var sizestream := new OStream.Sizing();
      ok := sizestream.Encode(sub, cells);
      if !ok {
        errmsg := sizestream.errmsg;
        FailsWithout(Out());
        return false;
      }
      ghost var o, b := Out(), EncMessage(sub, cells).value;
      var size := sizestream.bytesWritten;
      ok := EncodeVarint(size);
      if !ok {
        EmitsStops(o, Some(EncVarint(size)), Out(), Some(b));
        return false;
      }
      ghost var o1 := Out();
      if sizing {
        Count(size, b);
        EmitsThen(o, EncVarint(size), o1, Some(b), true, Out());
        return true;
      }
      ok := WriteSubmessage(sub, cells, size);
      EmitsThen(o, EncVarint(size), o1, Some(b), ok, Out());
    }

    /** The message behind its length, through a stream of exactly that size. */
    method WriteSubmessage(sub: Descriptor, cells: seq<Cell>, size: nat) returns (ok: bool)
      requires Valid() && !sizing && Proper(sub) && MessageSized(sub, cells) && Short(EncMessage(sub, cells))
      requires EncMessage(sub, cells).Some? && size == |EncMessage(sub, cells).value|
      modifies this, buf
      ensures Valid() && Emits(old(Out()), EncMessage(sub, cells), ok, Out())
      decreases sub, |sub.fields| + 2
    {
      hide EncMessage, EncVarint, MessageSized, Proper;
      ghost var o1, b := Out(), EncMessage(sub, cells).value;
      if bytesWritten + size > maxSize {
        errmsg := Some(StreamFull);
        NoRoom(o1, b);
        return false;
      }
      var substream := new OStream.FromBuffer(buf, state, size);
      var status := substream.Encode(sub, cells);
      bytesWritten := bytesWritten + substream.bytesWritten;
      state := substream.state;
      errmsg := if substream.bytesWritten != size then Some(SubmsgSizeChanged) else substream.errmsg;
      ok := status && substream.bytesWritten == size;
      SubstreamEmits(o1, b, substream.Out(), Out());
    }

    /** A tag and a value. */
    method EncodeTagged(f: Field, v: Value) returns (ok: bool)
      requires Valid() && ProperField(f) && ValueSized(f, v)
      modifies this, buf
      ensures Valid() && Emits(old(Out()), EncTagged(f, v), ok, Out())
      decreases f, 1
    {
      hide Emits, HasRoom, EncTag, EncValue, ValueSized, Proper;
      ghost var o, e := Out(), EncTag(WireType(f.ltype), f.tag);
      ok := EncodeTag(WireType(f.ltype), f.tag);
      if !ok {
        EmitsStops(o, Some(e), Out(), EncValue(f, v));
        return false;
      }
      ghost var o1 := Out();
      ok := EncodeValue(f, v);
      EmitsThen(o, e, o1, EncValue(f, v), ok, Out());
    }

    // ----- arrays

    /** The values one after another. */
    method EncodeItems(f: Field, items: seq<Value>) returns (ok: bool)
      requires Valid() && ProperField(f) && ItemsSized(f, items)
      modifies this, buf
      ensures Valid() && Emits(old(Out()), EncItems(f, items), ok, Out())
      decreases f, 1, 1
    {
      hide Emits, HasRoom, EncValue, EncItems, ValueSized, Proper, Join;
      ghost var o, done: seq<byte> := Out(), [];
      EmitsNothing(o);
      JoinUnit(EncItems(f, items));
      assert items[0..] == items;
      for i := 0 to |items|
        invariant Valid() && Emits(o, Some(done), true, Out())
        invariant EncItems(f, items) == Join(Some(done), EncItems(f, items[i..]))
      {
        ghost var o1 := Out();
        ItemsFrom(f, items, i);
        ok := EncodeValue(f, items[i]);
        EmitsNext(o, done, o1, EncValue(f, items[i]), ok, Out(), EncItems(f, items[i + 1..]));
        if !ok {
          return false;
        }
        done := done + EncValue(f, items[i]).value;
      }
      NoItems(f, items[|items|..]);
      JoinUnit(Some(done));
      return true;
    }

    method EncodeUnpacked(f: Field, items: seq<Value>) returns (ok: bool)
      requires Valid() && ProperField(f) && ItemsSized(f, items)
      modifies this, buf
      ensures Valid() && Emits(old(Out()), EncUnpacked(f, items), ok, Out())
      decreases f, 2, 1
    {
      hide Emits, HasRoom, EncTagged, EncUnpacked, ValueSized, Proper, Join;
      ghost var o, done: seq<byte> := Out(), [];
      EmitsNothing(o);
      JoinUnit(EncUnpacked(f, items));
      assert items[0..] == items;
      for i := 0 to |items|
        invariant Valid() && Emits(o, Some(done), true, Out())
        invariant EncUnpacked(f, items) == Join(Some(done), EncUnpacked(f, items[i..]))
      {
        ghost var o1 := Out();
        ItemsFrom(f, items, i);
        ok := EncodeTagged(f, items[i]);
        EmitsNext(o, done, o1, EncTagged(f, items[i]), ok, Out(), EncUnpacked(f, items[i + 1..]));
        if !ok {
          return false;
        }
        done := done + EncTagged(f, items[i]).value;
      }
      NoItems(f, items[|items|..]);
      JoinUnit(Some(done));
      return true;
    }

    /** The size of a packed array: computed for fixed widths, counted for the others. */
    static method PackedSize(f: Field, items: seq<Value>) returns (ok: bool, size: nat)
      requires ProperField(f) && ItemsSized(f, items) && Packable(f.ltype)
      ensures ok <==> EncItems(f, items).Some?
      ensures ok ==> size == |EncItems(f, items).value|
      decreases f, 2, 1
    {
      hide ValueSized, Proper, EncItems;
      if f.ltype.Fixed32? {
        FixedItemsLength(f, items);
        return true, 4 * |items|;
      } else if f.ltype.Fixed64? {
        FixedItemsLength(f, items);
        return true, 8 * |items|;
      }
      var sizestream := new OStream.Sizing();
      ok := sizestream.EncodeItems(f, items);
      size := sizestream.bytesWritten;
    }

    method EncodeArray(f: Field, items: seq<Value>) returns (ok: bool)
      requires Valid() && ProperField(f) && ItemsSized(f, items)
      modifies this, buf
      ensures Valid() && Emits(old(Out()), EncArray(f, items), ok, Out())
      decreases f, 3
    {
      hide Emits, HasRoom, EncTag, EncItems, EncUnpacked, ValueSized, Proper, EncVarint;
      ghost var o := Out();
      if |items| == 0 {
        EmitsNothing(o);
        return true;
      }
      if |items| > f.arraySize {
        errmsg := Some(ArrayMaxSizeExceeded);
        FailsWithout(o);
        return false;
      }
      if !Packable(f.ltype) {
        ok := EncodeUnpacked(f, items);
        return ok;
      }
      ghost var t, all := EncTag(WT_STRING, f.tag), EncArray(f, items);
      ghost var b := EncItems(f, items);
      ghost var tail := if b.Some? then Some(Prefixed(b.value)) else None;
      assert all == Join(Some(t), tail);
      ok := EncodeTag(WT_STRING, f.tag);
      if !ok {
        EmitsStops(o, Some(t), Out(), tail);
        return false;
      }
      ghost var o1 := Out();
      ok := EncodePacked(f, items);
      EmitsThen(o, t, o1, tail, ok, Out());
    }

    /** The length of a packed array and its items; a sizing stream only counts them. */
    method EncodePacked(f: Field, items: seq<Value>) returns (ok: bool)
      requires Valid() && ProperField(f) && ItemsSized(f, items) && Packable(f.ltype)
      modifies this, buf
      ensures Valid()
      ensures var b := EncItems(f, items);
              Emits(old(Out()), if b.Some? then Some(Prefixed(b.value)) else None, ok, Out())
      decreases f, 2, 2
    {
      hide Emits, HasRoom, EncItems, ValueSized, Proper, EncVarint;
      ghost var o := Out();
      var size;
      ok, size := PackedSize(f, items);
      if !ok {
        FailsWithout(o);
        return false;
      }
      ghost var b := EncItems(f, items).value;
      ok := EncodeVarint(size);
      if !ok {
        EmitsStops(o, Some(EncVarint(size)), Out(), Some(b));
        return false;
      }
      ghost var o1 := Out();
      if sizing {
        Count(size, b);
        ok := true;
      } else {
        ok := EncodeItems(f, items);
      }
      EmitsThen(o, EncVarint(size), o1, Some(b), ok, Out());
    }

    // ----- messages

    method EncodeField(f: Field, c: Cell) returns (ok: bool)
      requires Valid() && ProperField(f) && CellSized(f, c)
      modifies this, buf
      ensures Valid() && Emits(old(Out()), EncField(f, c), ok, Out())
      decreases f, 4
    {
      hide Emits, HasRoom, EncTagged, EncArray, ValueSized, Proper, IsDefault;
      match f.htype
      case Required => ok := EncodeTagged(f, ValueIn(c));
      case Optional =>
        var has := if f.sizeOffset != 0 then HasIn(c) else !IsDefault(f, c);
        if has {
          ok := EncodeTagged(f, ValueIn(c));
        } else {
          EmitsNothing(Out());
          ok := true;
        }
      case Repeated => ok := EncodeArray(f, ItemsIn(c));
      case Oneof =>
        if WhichIn(c) == f.tag {
          ok := EncodeTagged(f, ValueIn(c));
        } else {
          EmitsNothing(Out());
          ok := true;
        }
    }

    /** Field i, or nothing for an extension field, since no extension is registered. */
    method EncodeAt(d: Descriptor, cells: seq<Cell>, i: nat) returns (ok: bool)
      requires Valid() && Proper(d) && MessageSized(d, cells) && i < |d.fields|
      modifies this, buf
      ensures Valid() && Emits(old(Out()), Piece(d, cells, i), ok, Out())
      decreases d, |d.fields|
    {
      hide Emits, HasRoom, EncField, CellSized, Proper;
      ProperFields(d);
      if d.fields[i].ltype.Extension? {
        EmitsNothing(Out());
        return true;
      }
      ok := EncodeField(d.fields[i], CellAt(cells, Home(d.fields, i)));
    }

    /**
     * The whole message, field by field. A sizing stream counts exactly the bytes that a writing stream
     * would write, and writing succeeds exactly when they fit.
     */
    method Encode(d: Descriptor, cells: seq<Cell>) returns (ok: bool)
      requires Valid() && Proper(d) && MessageSized(d, cells)
      modifies this, buf
      ensures Valid() && Emits(old(Out()), EncMessage(d, cells), ok, Out())
      decreases d, |d.fields| + 1
    {
      hide Emits, HasRoom, EncFrom, Piece, MessageSized, Proper, Join, OStream.Out, OStream.Valid;
      ghost var o, done: seq<byte> := Out(), [];
      RoomLeft();
      EmitsNothing(o);
      ProperFields(d);
      JoinUnit(EncFrom(d, cells, 0));
      NoFields(d, cells);
      var iter := new FieldIter(d.fields, 0, 0);
      var more := iter.Begin();
      while more
        invariant Valid() && iter.Valid() && fresh(iter) && Emits(o, Some(done), true, Out())
        invariant more ==> iter.pos < |d.fields|
        invariant EncMessage(d, cells) == Join(Some(done), EncFrom(d, cells, if more then iter.pos else |d.fields|))
        decreases more, |d.fields| - iter.pos
      {
        var i := iter.pos;
        ghost var o1 := Out();
        EncFromPiece(d, cells, i);
        ok := EncodeAt(d, cells, i);
        EmitsNext(o, done, o1, Piece(d, cells, i), ok, Out(), EncFrom(d, cells, i + 1));
        if !ok {
          return false;
        }
        done := done + Piece(d, cells, i).value;
        more := iter.Next();
      }
      JoinUnit(Some(done));
      return true;
    }

    lemma RoomLeft()
      requires Valid()
      ensures HasRoom(Out())
    {
    }
  }

  /** What field i adds to the message. */
  function Piece(d: Descriptor, cells: seq<Cell>, i: nat): Option<seq<byte>>
    requires i < |d.fields|
  {
    if d.fields[i].ltype.Extension? then Some([]) else EncField(d.fields[i], CellAt(cells, Home(d.fields, i)))
  }

  lemma EncFromPiece(d: Descriptor, cells: seq<Cell>, i: nat)
    requires i < |d.fields|
    ensures EncFrom(d, cells, i) == Join(Piece(d, cells, i), EncFrom(d, cells, i + 1))
  {
  }

  lemma ProperFields(d: Descriptor)
    requires Proper(d)
    ensures forall k :: 0 <= k < |d.fields| ==> ProperField(d.fields[k]) && d.fields[k].tag != 0
  {
  }

  lemma NoFields(d: Descriptor, cells: seq<Cell>)
    ensures EncFrom(d, cells, |d.fields|) == Some([])
  {
  }

  lemma NoItems(f: Field, items: seq<Value>)
    requires items == []
    ensures EncItems(f, items) == Some([]) && EncUnpacked(f, items) == Some([])
  {
  }

  lemma FailsWithout(o: Output)
    requires HasRoom(o)
    ensures Emits(o, None, false, o)
  {
  }

  lemma NoRoom(o: Output, b: seq<byte>)
    requires HasRoom(o) && !o.sizing && o.written + |b| > o.maxSize
    ensures Emits(o, Some(b), false, o)
  {
  }

  /** What a substream of just the right length wrote, its parent has written. */
  lemma SubstreamEmits(o: Output, b: seq<byte>, s: Output, o': Output)
    requires HasRoom(o) && !o.sizing && o.written + |b| <= o.maxSize
    requires Emits(Output(false, |b|, o.at, 0, o.buf), Some(b), true, s)
    requires o' == Output(false, o.maxSize, s.at, o.written + s.written, s.buf)
    ensures Emits(o, Some(b), true, o')
  {
  }

  /** How many bytes the message takes. */
  method GetEncodedSize(d: Descriptor, cells: seq<Cell>) returns (ok: bool, size: nat)
    requires Proper(d) && MessageSized(d, cells)
    ensures ok <==> EncMessage(d, cells).Some?
    ensures ok ==> size == |EncMessage(d, cells).value|
  {
    hide EncMessage, MessageSized, Proper;
    var stream := new OStream.Sizing();
    ok := stream.Encode(d, cells);
    size := stream.bytesWritten;
  }

  /** Encoding into a buffer of capacity n: it succeeds exactly when the size is at most n, and never writes past n. */
  method EncodeToBuffer(buf: array<byte>, n: nat, d: Descriptor, cells: seq<Cell>)
    returns (ok: bool, written: nat, error: Option<EncodeError>)
    requires n <= buf.Length && Proper(d) && MessageSized(d, cells)
    modifies buf
    ensures ok <==> EncMessage(d, cells).Some? && |EncMessage(d, cells).value| <= n
    ensures ok ==> written == |EncMessage(d, cells).value| && buf[..written] == EncMessage(d, cells).value
    ensures buf[n..] == old(buf[n..])
    ensures ok ==> buf[written..] == old(buf[written..])
    ensures error != Some(SubmsgSizeChanged)
  {
    hide EncMessage, MessageSized, Proper;
    var stream := new OStream.FromBuffer(buf, 0, n);
    ghost var o := stream.Out();
    ok := stream.Encode(d, cells);
    written, error := stream.bytesWritten, stream.errmsg;
    if ok {
      assert o.buf[..0] + EncMessage(d, cells).value == EncMessage(d, cells).value;
    }
  }
}
