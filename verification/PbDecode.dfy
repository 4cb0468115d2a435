/** The decoder, reading from a buffer through streams of limited length. */
module PbDecode {
  import opened Wire
  import opened Bits
  import opened PbVarint
  import opened PbIterator
  import opened PbMessage

  // ----- varints byte by byte

  lemma {:induction false} GroupsAppend(s: seq<byte>, b: byte)
    ensures Groups(s + [b]) == Groups(s) + b % 128 * Pow2(7 * |s|)
  {
    if s == [] {
      assert [] + [b] == [b] && [b][1..] == [];
    } else {
      GroupsAppend(s[1..], b);
      assert (s + [b])[1..] == s[1..] + [b];
      Pow2Add(7, 7 * |s[1..]|);
      assert Pow2(7) == 128;
      hide Pow2, Groups;
      Spread(b % 128, Pow2(7 * |s[1..]|));
    }
  }

  lemma Spread(x: nat, p: nat)
    ensures 128 * (x * p) == x * (128 * p)
  {
  }

  lemma VarintUnfold(s: seq<byte>, n: nat)
    requires n < |s|
    ensures VarintLength(s[n..]) == if s[n] < 128 then Some(1) else Later(VarintLength(s[n + 1..]), 1)
  {
  }

  lemma LaterTwice(n: Option<nat>, j: nat, k: nat)
    ensures Later(Later(n, j), k) == Later(n, k + j)
  {
  }

  /** After n continued bytes the varint goes on with the rest. */
  lemma VarintGoesOn(s: seq<byte>, n: nat)
    requires n < |s| && VarintLength(s) == Later(VarintLength(s[n..]), n)
    ensures s[n] < 128 ==> VarintLength(s) == Some(n + 1)
    ensures s[n] >= 128 ==> VarintLength(s) == Later(VarintLength(s[n + 1..]), n + 1)
  {
    hide VarintLength;
    VarintUnfold(s, n);
    LaterTwice(VarintLength(s[n + 1..]), 1, n);
  }

  function Later(n: Option<nat>, k: nat): Option<nat> {
    match n
    case None => None
    case Some(m) => Some(m + k)
  }

  /** One more group of a 64-bit varint. */
  lemma GroupRead(s: seq<byte>, n: nat, result: nat)
    requires n < |s| && n < 10 && result == Groups(s[..n])
    ensures OrShifted(result, s[n] % 128, 7 * n, 64) == Truncate(Groups(s[..n + 1]), 64)
    ensures n < 9 ==> Truncate(Groups(s[..n + 1]), 64) == Groups(s[..n + 1])
  {
    hide Pow2, Truncate, Or, OrShifted;
    assert s[..n + 1] == s[..n] + [s[n]];
    GroupsAppend(s[..n], s[n]);
    OrShiftedAdds(result, s[n] % 128, 7 * n, 64);
    if n < 9 {
      Pow2Grows(7 * (n + 1), 64);
      TruncateSmall(Groups(s[..n + 1]), 64);
    }
  }

  lemma {:induction false} Pow2Grows(a: nat, b: nat)
    requires a <= b
    ensures Pow2(a) <= Pow2(b)
    decreases b - a
  {
    if a < b {
      Pow2Grows(a + 1, b);
    }
  }

  // ----- the required-field bits

  lemma {:induction false} SetBitBound(b: nat, j: nat, n: nat)
    requires j < n && b < Pow2(n)
    ensures SetBit(b, j) < Pow2(n)
  {
    assert Pow2(n) == 2 * Pow2(n - 1);
    if j > 0 {
      SetBitBound(b / 2, j - 1, n - 1);
    }
  }

  /** Bit k of two 32-bit words. */
  predicate InWords(w0: nat, w1: nat, k: nat) {
    if k < 32 then Bit(w0, k) else Bit(w1, k - 32)
  }

  /** The two words hold exactly the numbers seen. */
  ghost predicate Tracks(w0: nat, w1: nat, seen: set<nat>) {
    && w0 < Pow2(32) && w1 < Pow2(32)
    && forall k :: 0 <= k < 64 ==> (InWords(w0, w1, k) <==> k in seen)
  }

  lemma TracksNothing()
    ensures Tracks(0, 0, {})
  {
    forall k | 0 <= k < 64
      ensures !InWords(0, 0, k)
    {
      ZeroBit(if k < 32 then k else k - 32);
    }
  }

  lemma TracksMark(w0: nat, w1: nat, seen: set<nat>, idx: nat)
    requires Tracks(w0, w1, seen) && idx < 64
    ensures Tracks(if idx < 32 then SetBit(w0, idx) else w0, if idx < 32 then w1 else SetBit(w1, idx - 32),
                   seen + {idx})
  {
    var v0, v1 := if idx < 32 then SetBit(w0, idx) else w0, if idx < 32 then w1 else SetBit(w1, idx - 32);
    hide Bit, SetBit, Pow2;
    forall k | 0 <= k < 64
      ensures InWords(v0, v1, k) <==> k in seen + {idx}
    {
      assert InWords(w0, w1, k) <==> k in seen;
      if idx < 32 && k < 32 {
        SetBitBit(w0, idx, k);
      } else if idx >= 32 && k >= 32 {
        SetBitBit(w1, idx - 32, k - 32);
      }
    }
    if idx < 32 {
      SetBitBound(w0, idx, 32);
    } else {
      SetBitBound(w1, idx - 32, 32);
    }
  }

  ghost predicate AllSet(w: nat, n: nat) {
    forall k :: 0 <= k < n ==> Bit(w, k)
  }

  ghost predicate NoneSet(w: nat, lo: nat, hi: nat) {
    forall k :: lo <= k < hi ==> !Bit(w, k)
  }

  lemma OnesAre(n: nat)
    requires n <= 32
    ensures Pow2(n) - 1 < Pow2(32) && AllSet(Pow2(n) - 1, n) && NoneSet(Pow2(n) - 1, n, 32)
  {
    hide Bit, Pow2;
    Pow2Grows(n, 32);
    var ones: nat := Pow2(n) - 1;
    forall k | 0 <= k < 32
      ensures Bit(ones, k) <==> k < n
    {
      OnesBit(n, k);
    }
  }

  /** A word with no bit from n on is all ones below n exactly when it is 2^n - 1. */
  lemma OnesIff(w: nat, n: nat)
    requires w < Pow2(32) && n <= 32 && NoneSet(w, n, 32)
    ensures w == Pow2(n) - 1 <==> AllSet(w, n)
  {
    hide Pow2;
    OnesAre(n);
    if AllSet(w, n) {
      hide Bit;
      SameBits(w, Pow2(n) - 1, 32);
    }
  }

  // ----- the stream

  class IStream {
    const data: seq<byte>
    var state: nat
    var bytesLeft: nat

    ghost predicate Valid()
      reads this
    {
      state + bytesLeft <= |data|
    }

    ghost function Left(): seq<byte>
      requires Valid()
      reads this
    {
      data[state..state + bytesLeft]
    }

    ghost function End(): nat
      reads this
    {
      state + bytesLeft
    }

    constructor FromBuffer(data: seq<byte>)
      ensures Valid() && Left() == data && this.data == data
    {
      this.data, state, bytesLeft := data, 0, |data|;
    }

    constructor Part(data: seq<byte>, state: nat, size: nat)
      requires state + size <= |data|
      ensures Valid() && this.data == data && this.state == state && bytesLeft == size
    {
      this.data, this.state, bytesLeft := data, state, size;
    }

    method Read(count: nat) returns (ok: bool, s: seq<byte>)
      requires Valid()
      modifies this
      ensures Valid() && End() == old(End())
      ensures ok <==> |old(Left())| >= count
      ensures if ok then s == old(Left())[..count] && Left() == old(Left())[count..] else Left() == old(Left())
    {
      if bytesLeft < count {
        return false, [];
      }
      s := data[state..state + count];
      state, bytesLeft := state + count, bytesLeft - count;
      return true, s;
    }

    method ReadByte() returns (ok: bool, b: byte)
      requires Valid()
      modifies this
      ensures Valid() && End() == old(End())
      ensures ok <==> old(Left()) != []
      ensures if ok then b == old(Left())[0] && Left() == old(Left())[1..] else Left() == old(Left())
    {
      if bytesLeft == 0 {
        return false, 0;
      }
      b := data[state];
      state, bytesLeft := state + 1, bytesLeft - 1;
      return true, b;
    }

    method DecodeVarint() returns (ok: bool, value: nat)
      requires Valid()
      modifies this
      ensures Valid() && End() == old(End())
      ensures ok <==> DecVarint(old(Left())).Some?
      ensures ok ==> (value, Left()) == DecVarint(old(Left())).value
    {
      hide Groups, OrShifted, Truncate, VarintLength, Pow2;
      ghost var s := Left();
      ghost var n: nat := 0;
      var bitpos: nat, result: nat := 0, 0;
      var more := true;
      assert s[..0] == [] && Groups([]) == 0 && s[0..] == s by {
        NoGroups();
      }
      while more
        invariant Valid() && End() == old(End()) && n <= |s| && Left() == s[n..] && bitpos == 7 * n && n <= 10
        invariant more ==> VarintLength(s) == Later(VarintLength(Left()), n)
        invariant if n < 10 then result == Groups(s[..n]) else result == Truncate(Groups(s[..n]), 64)
        invariant !more ==> VarintLength(s) == Some(n) && result == Truncate(Groups(s[..n]), 64)
        decreases more, |s| - n
      {
        if bitpos >= 64 {
          LengthPositive(Left());
          return false, 0;
        }
        var b;
        ok, b := ReadByte();
        if !ok {
          LengthPositive([]);
          return false, 0;
        }
        GroupRead(s, n, result);
        VarintGoesOn(s, n);
        result := OrShifted(result, b % 128, bitpos, 64);
        bitpos, n := bitpos + 7, n + 1;
        more := b >= 128;
      }
      return true, result;
    }

    /** eof is set when there is nothing to read. */
    method DecodeVarint32Eof() returns (ok: bool, value: nat, eof: bool)
      requires Valid()
      modifies this
      ensures Valid() && End() == old(End())
      ensures ok <==> DecVarint32(old(Left())).Some?
      ensures ok ==> (value, Left()) == DecVarint32(old(Left())).value
      ensures eof <==> old(Left()) == []
    {
      hide OrShifted;
      ghost var s := Left();
      var b;
      ok, b := ReadByte();
      if !ok {
        return false, 0, bytesLeft == 0;
      }
      if b < 128 {
        return true, b, false;
      }
      var bitpos: nat, result: nat := 7, b % 128;
      var more := true;
      while more
        invariant Valid() && End() == old(End()) && bitpos < 256
        invariant more ==> DecVarint32(s) == DecVarint32From(Left(), bitpos, result)
        invariant !more ==> DecVarint32(s) == if bitpos == 35 && b / 16 % 8 != 0 then None else Some((result, Left()))
        decreases more, bytesLeft
      {
        ok, b := ReadByte();
        if !ok {
          return false, 0, false;
        }
        if bitpos >= 32 {
          var signExtension := if bitpos < 63 then 0xFF else 0x01;
          if b % 128 != 0 && (result < 0x8000_0000 || b != signExtension) {
            return false, 0, false;
          }
        } else {
          result := OrShifted(result, b % 128, bitpos, 32);
        }
        bitpos := (bitpos + 7) % 256;
        more := b >= 128;
      }
      if bitpos == 35 && b / 16 % 8 != 0 {
        return false, 0, false;
      }
      return true, result, false;
    }

    method DecodeVarint32() returns (ok: bool, value: nat)
      requires Valid()
      modifies this
      ensures Valid() && End() == old(End())
      ensures ok <==> DecVarint32(old(Left())).Some?
      ensures ok ==> (value, Left()) == DecVarint32(old(Left())).value
    {
      var eof;
      ok, value, eof := DecodeVarint32Eof();
    }

    /** eof is set at the end of the input and at a zero tag. */
    method DecodeTag() returns (ok: bool, wireType: nat, tag: nat, eof: bool)
      requires Valid()
      modifies this
      ensures Valid() && End() == old(End())
      ensures match DecTag(old(Left()))
              case TagOk(w, t, rest) => ok && wireType == w && tag == t && Left() == rest
              case TagEnd => !ok && eof
              case TagError => !ok && (eof <==> old(Left()) == [])
    {
      hide DecVarint32;
      eof, wireType, tag := false, 0, 0;
      var temp;
      ok, temp, eof := DecodeVarint32Eof();
      if !ok {
        return false, 0, 0, eof;
      }
      if temp == 0 {
        return false, 0, 0, true;
      }
      return true, temp % 8, temp / 8, false;
    }

    method SkipVarint() returns (ok: bool)
      requires Valid()
      modifies this
      ensures Valid() && End() == old(End())
      ensures ok <==> VarintLength(old(Left())).Some?
      ensures ok ==> Left() == old(Left())[VarintLength(old(Left())).value..]
    {
      hide VarintLength;
      ghost var s := Left();
      ghost var n: nat := 0;
      var more := true;
      assert s[0..] == s;
      while more
        invariant Valid() && End() == old(End()) && n <= |s| && Left() == s[n..]
        invariant VarintLength(s) == if more then Later(VarintLength(Left()), n) else Some(n)
        decreases more, |s| - n
      {
        var b;
        ok, b := Read(1);
        if !ok {
          LengthPositive(Left());
          return false;
        }
        VarintGoesOn(s, n);
        n := n + 1;
        more := b[0] >= 128;
      }
      return true;
    }

    method SkipString() returns (ok: bool)
      requires Valid()
      modifies this
      ensures Valid() && End() == old(End())
      ensures ok <==> DecPrefixed(old(Left())).Some?
      ensures ok ==> Left() == DecPrefixed(old(Left())).value.1
    {
      hide DecVarint32;
      var length;
      ok, length := DecodeVarint32();
      if !ok {
        return false;
      }
      var s;
      ok, s := Read(length);
    }

    method SkipField(wireType: nat) returns (ok: bool)
      requires Valid()
      modifies this
      ensures Valid() && End() == old(End())
      ensures ok <==> PbMessage.SkipField(wireType, old(Left())).Some?
      ensures ok ==> Left() == PbMessage.SkipField(wireType, old(Left())).value
    {
      hide VarintLength, DecPrefixed;
      var s;
      match wireType
      case 0 => ok := SkipVarint();
      case 1 => ok, s := Read(8);
      case 2 => ok := SkipString();
      case 5 => ok, s := Read(4);
      case _ => ok := false;
    }

    // ----- substreams

    /** A stream over a length-delimited part, to be closed before this one is used again. */
    method MakeStringSubstream() returns (ok: bool, sub: IStream)
      requires Valid()
      modifies this
      ensures Valid() && fresh(sub) && sub.Valid()
      ensures ok <==> DecPrefixed(old(Left())).Some?
      ensures !ok ==> End() == old(End())
      ensures ok ==>
                var (body, rest) := DecPrefixed(old(Left())).value;
                && sub.data == data && sub.Left() == body && sub.End() + bytesLeft == old(End()) && bytesLeft == |rest|
                && sub.End() + bytesLeft <= |data| && data[sub.End()..sub.End() + bytesLeft] == rest
    {
      hide DecVarint32;
      var size;
      ok, size := DecodeVarint32();
      if !ok || bytesLeft < size {
        sub := new IStream.Part([], 0, 0);
        return false, sub;
      }
      sub := new IStream.Part(data, state, size);
      bytesLeft := bytesLeft - size;
    }

    /** Skips what was left of the part, and goes on after it. */
    method CloseStringSubstream(sub: IStream) returns (ok: bool)
      requires sub != this && sub.Valid() && sub.data == data && sub.End() + bytesLeft <= |data|
      modifies this, sub
      ensures Valid() && ok
      ensures End() == old(sub.End() + bytesLeft)
      ensures Left() == old(data[sub.End()..sub.End() + bytesLeft])
    {
      if sub.bytesLeft > 0 {
        var s;
        ok, s := sub.Read(sub.bytesLeft);
        assert ok;
      }
      state := sub.state;
      return true;
    }

    // ----- values

    method DecodeNumber(f: Field) returns (ok: bool, n: int)
      requires Valid() && Packable(f.ltype)
      modifies this
      ensures Valid() && End() == old(End())
      ensures ok <==> DecNumber(f, old(Left())).Some?
      ensures ok ==> (n, Left()) == DecNumber(f, old(Left())).value
    {
      hide DecVarint, LittleEndian;
      var s;
      if f.ltype.Fixed32? {
        ok, s := Read(4);
        return ok, LittleEndian(s);
      }
      if f.ltype.Fixed64? {
        ok, s := Read(8);
        return ok, LittleEndian(s);
      }
      ghost var left := Left();
      var w;
      ok, w := DecodeVarint();
      if !ok {
        return false, 0;
      }
      DecVarintWord(left);
      n := FromVarint(f, w);
      return Fits(f, n), n;
    }

    /** The value of field f; was is what its memory held. */
    method DecodeValue(f: Field, was: Value) returns (ok: bool, v: Value)
      requires Valid() && ProperField(f)
      modifies this
      ensures Valid() && End() == old(End())
      ensures ok <==> DecValue(f, old(Left()), was).Some?
      ensures ok ==> (v, Left()) == DecValue(f, old(Left()), was).value
      decreases f, 0
    {
      hide DecNumber, DecMessage, DecVarint32, Proper, DecPrefixed;
      v := was;
      if Packable(f.ltype) {
        var n;
        ok, n := DecodeNumber(f);
        return ok, Number(n);
      }
      if f.ltype.Submessage? {
        ok, v := DecodeSubmessage(f, f.ltype.sub, was);
      } else if f.ltype.Extension? {
        ok := false;
      } else {
        ok, v := DecodeText(f);
      }
    }

    method DecodeSubmessage(f: Field, sub: Descriptor, was: Value) returns (ok: bool, v: Value)
      requires Valid() && ProperField(f) && f.ltype == Submessage(sub)
      modifies this
      ensures Valid() && End() == old(End())
      ensures ok <==> DecValue(f, old(Left()), was).Some?
      ensures ok ==> (v, Left()) == DecValue(f, old(Left()), was).value
      decreases sub, 3
    {
      hide DecMessage, DecPrefixed, Proper, Defaults;
      v := was;
      var substream;
      ok, substream := MakeStringSubstream();
      if !ok {
        return false, v;
      }
      var status, cells;
      if f.htype.Repeated? {
        status, cells := substream.Decode(sub, CellsIn(was));
      } else {
        status, cells := substream.DecodeNoInit(sub, CellsIn(was));
      }
      ok := CloseStringSubstream(substream);
      return status, Struct(cells);
    }

    /** Bytes and strings: the length must suit the memory, with room for a string's terminator. */
    method DecodeText(f: Field) returns (ok: bool, v: Value)
      requires Valid() && f.dataSize < TWO32 && (f.ltype.Bytes? || f.ltype.String? || f.ltype.FixedLengthBytes?)
      modifies this
      ensures Valid() && End() == old(End())
      ensures ok <==> DecValue(f, old(Left()), Number(0)).Some?
      ensures ok ==> (v, Left()) == DecValue(f, old(Left()), Number(0)).value
      ensures forall was :: DecValue(f, old(Left()), was) == DecValue(f, old(Left()), Number(0))
    {
      hide DecVarint32;
      v := Number(0);
      var size, s;
      ok, size := DecodeVarint32();
      if !ok {
        return false, v;
      }
      match f.ltype
      case Bytes(offset) =>
        if size + offset > f.dataSize {
          return false, v;
        }
        ok, s := Read(size);
        return ok, Text(s);
      case String =>
        var allocSize := (size + 1) % 0x1_0000_0000;
        if allocSize < size || allocSize > f.dataSize {
          return false, v;
        }
        ok, s := Read(size);
        return ok, Text(s);
      case FixedLengthBytes =>
        if size == 0 {
          return true, Text(Zeros(f.dataSize));
        }
        if size != f.dataSize {
          return false, v;
        }
        ok, s := Read(f.dataSize);
        return ok, Text(s);
    }

    // ----- fields

    /** The items of a packed array, to the end of this stream. */
    method DecodePacked(f: Field, start: seq<Value>) returns (ok: bool, items: seq<Value>)
      requires Valid() && ProperField(f)
      modifies this
      ensures Valid() && End() == old(End())
      ensures ok <==> DecPacked(f, old(Left()), start).Some?
      ensures ok ==> items == DecPacked(f, old(Left()), start).value
      decreases f, 1, 0
    {
      hide DecValue, Proper;
      items := start;
      var status := true;
      while bytesLeft > 0 && |items| < f.arraySize
        invariant Valid() && End() == old(End())
        invariant DecPacked(f, old(Left()), start) == DecPacked(f, Left(), items)
        decreases bytesLeft
      {
        var v;
        status, v := DecodeValue(f, ZeroValue(f));
        if !status {
          return false, items;
        }
        items := items + [v];
      }
      return bytesLeft == 0, items;
    }

    method DecodeField(f: Field, wireType: nat, c: Cell) returns (ok: bool, c': Cell)
      requires Valid() && ProperField(f)
      modifies this
      ensures Valid() && End() == old(End())
      ensures ok <==> DecField(f, wireType, old(Left()), c).Some?
      ensures ok ==> (c', Left()) == DecField(f, wireType, old(Left()), c).value
      decreases f, 2
    {
      hide DecValue, DecPacked, DecPrefixed, Proper, Defaults;
      var v;
      match f.htype
      case Required =>
        ok, v := DecodeValue(f, ValueIn(c));
        c' := Bare(v);
      case Optional =>
        ok, v := DecodeValue(f, ValueIn(c));
        c' := if f.sizeOffset != 0 then Flagged(true, v) else Bare(v);
      case Repeated => ok, c' := DecodeRepeated(f, wireType, ItemsIn(c));
      case Oneof =>
        var was := if f.ltype.Submessage? then Struct(Defaults(f.ltype.sub, [])) else ValueIn(c);
        ok, v := DecodeValue(f, was);
        c' := Union(f.tag, v);
    }

    method DecodeRepeated(f: Field, wireType: nat, start: seq<Value>) returns (ok: bool, c': Cell)
      requires Valid() && ProperField(f) && f.htype.Repeated?
      modifies this
      ensures Valid() && End() == old(End())
      ensures ok <==> DecField(f, wireType, old(Left()), Counted(start)).Some?
      ensures ok ==> (c', Left()) == DecField(f, wireType, old(Left()), Counted(start)).value
      decreases f, 1, 1
    {
      hide DecValue, DecPacked, DecPrefixed, Proper;
      c' := Counted(start);
      if wireType == WT_STRING && Packable(f.ltype) {
        var substream, items;
        ok, substream := MakeStringSubstream();
        if !ok {
          return false, c';
        }
        var status;
        status, items := substream.DecodePacked(f, start);
        ok := CloseStringSubstream(substream);
        return status, Counted(items);
      }
      if |start| >= f.arraySize {
        return false, c';
      }
      var v;
      ok, v := DecodeValue(f, ZeroValue(f));
      return ok, Counted(start + [v]);
    }

    // ----- messages

    /** One field of the input, whose tag has just been read. */
    method DecodeStep(d: Descriptor, iter: FieldIter, fieldsSeen: array<nat>, wireType: nat, tag: nat, cells: seq<Cell>,
                      ghost seen: set<nat>)
      returns (ok: bool, cells': seq<Cell>)
      requires Valid() && Proper(d) && iter.fields == d.fields && iter.Valid()
      requires fieldsSeen.Length == 2 && Tracks(fieldsSeen[0], fieldsSeen[1], seen)
      modifies this, iter, fieldsSeen
      ensures Valid() && End() == old(End()) && iter.Valid()
      ensures var r := DecStep(d, TagOk(wireType, tag, old(Left())), Decoded(cells, seen));
              && (ok <==> r.Some?)
              && (ok ==> cells' == r.value.0.cells && Left() == r.value.1
                         && Tracks(fieldsSeen[0], fieldsSeen[1], r.value.0.seen))
      decreases d, 0
    {
      hide DecField, PbMessage.SkipField, Proper, FieldIter.Valid, Home, Tracks, RequiredBefore;
      cells' := cells;
      ProperTags(d);
      var found := iter.Find(tag);
      FindsSame(d.fields, iter.pos, tag, found);
      iter.Facts();
      if !found {
        ok := SkipField(wireType);
        return ok, cells;
      }
      if d.fields == [] {
        return false, cells;
      }
      var i := iter.pos;
      var f, h := d.fields[i], Home(d.fields, i);
      if f.htype.Required? && iter.requiredFieldIndex < MAX_REQUIRED_FIELDS {
        var idx := iter.requiredFieldIndex;
        TracksMark(fieldsSeen[0], fieldsSeen[1], seen, idx);
        fieldsSeen[idx / 32] := SetBit(fieldsSeen[idx / 32], idx % 32);
      }
      var c;
      ok, c := DecodeField(f, wireType, CellAt(cells, h));
      return ok, if h < |cells| then cells[h := c] else cells;
    }

    /** Fields in any order until the input or a zero tag ends the message; then the required ones are checked. */
    method DecodeNoInit(d: Descriptor, start: seq<Cell>) returns (ok: bool, cells: seq<Cell>)
      requires Valid() && Proper(d)
      modifies this
      ensures Valid() && End() == old(End())
      ensures ok <==> DecMessage(d, old(Left()), start).Some?
      ensures ok ==> cells == DecMessage(d, old(Left()), start).value
      decreases d, 1
    {
      hide DecTag, DecStep, Tracks, Proper, RequiredSeen, FieldIter.Valid, MarksOnly;
      var fieldsSeen := new nat[2](_ => 0);
      ghost var seen: set<nat> := {};
      TracksNothing();
      NoMarks(d.fields);
      cells := start;
      var iter := new FieldIter(d.fields, 0, 0);
      var eof := false;
      while bytesLeft > 0 && !eof
        invariant Valid() && End() == old(End()) && iter.Valid()
        invariant fresh(iter) && fresh(fieldsSeen) && fieldsSeen.Length == 2
        invariant Tracks(fieldsSeen[0], fieldsSeen[1], seen) && MarksOnly(d.fields, seen)
        invariant Run(d, old(Left()), Decoded(start, {})) ==
                  if eof then Some(Decoded(cells, seen)) else Run(d, Left(), Decoded(cells, seen))
        decreases !eof, bytesLeft
      {
        ghost var left, was := Left(), cells;
        var wireType, tag;
        ok, wireType, tag, eof := DecodeTag();
        if !ok && !eof {
          return false, cells;
        }
        if ok {
          eof := false;
          ok, cells := DecodeStep(d, iter, fieldsSeen, wireType, tag, cells, seen);
          if !ok {
            return false, cells;
          }
          StepMarks(d, DecTag(left), Decoded(was, seen));
          seen := DecStep(d, DecTag(left), Decoded(was, seen)).value.0.seen;
        }
      }
      ok := CheckRequired(d, iter, fieldsSeen, seen);
    }

    /** Whether the bits of all required fields, of those that are tracked, are set. */
    static method CheckRequired(d: Descriptor, iter: FieldIter, fieldsSeen: array<nat>, ghost seen: set<nat>)
      returns (ok: bool)
      requires Proper(d) && iter.fields == d.fields && iter.Valid() && fieldsSeen.Length == 2
      requires Tracks(fieldsSeen[0], fieldsSeen[1], seen) && MarksOnly(d.fields, seen)
      modifies iter
      ensures ok <==> RequiredSeen(d.fields, seen)
    {
      hide Tracks, MarksOnly, RequiredSeen, Proper, RequiredBefore;
      ProperTags(d);
      var count, lastType, more := 0, Required, true;
      while more
        invariant iter.Valid()
        invariant !more ==> iter.pos == 0
        invariant !more ==> if d.fields == [] then count == 0
                            else count == RequiredBefore(d.fields, |d.fields| - 1)
                                 && lastType == d.fields[|d.fields| - 1].htype
        decreases more, |d.fields| - iter.pos
      {
        iter.Facts();
        count, lastType := iter.requiredFieldIndex, FieldAt(d.fields, iter.pos).htype;
        more := iter.Next();
      }
      iter.Facts();
      if lastType.Required? && FieldAt(d.fields, iter.pos).tag != 0 {
        count := count + 1;
      }
      CountsRequired(d.fields, count);
      if count > MAX_REQUIRED_FIELDS {
        count := MAX_REQUIRED_FIELDS;
      }
      WordsDecide(d.fields, fieldsSeen[0], fieldsSeen[1], seen, count);
      for i := 0 to count / 32
        invariant forall k :: 0 <= k < i ==> fieldsSeen[k] == ALL_BITS
      {
        if fieldsSeen[i] != ALL_BITS {
          return false;
        }
      }
      if count % 32 != 0 {
        if fieldsSeen[count / 32] != Pow2(count % 32) - 1 {
          return false;
        }
      }
      return true;
    }

    /** Defaults first, then what the input says. */
    method Decode(d: Descriptor, memory: seq<Cell>) returns (ok: bool, cells: seq<Cell>)
      requires Valid() && Proper(d)
      modifies this
      ensures Valid() && End() == old(End())
      ensures ok <==> DecMessage(d, old(Left()), Defaults(d, memory)).Some?
      ensures ok ==> cells == DecMessage(d, old(Left()), Defaults(d, memory)).value
      decreases d, 2
    {
      ok, cells := DecodeNoInit(d, Defaults(d, memory));
    }
  }

  lemma NoGroups()
    ensures Groups([]) == 0
  {
  }

  lemma LengthPositive(s: seq<byte>)
    ensures VarintLength([]) == None
    ensures VarintLength(s).Some? ==> VarintLength(s).value > 0
  {
  }

  lemma ProperTags(d: Descriptor)
    requires Proper(d)
    ensures TagsDistinct(d.fields)
    ensures forall k :: 0 <= k < |d.fields| ==> ProperField(d.fields[k]) && d.fields[k].tag != 0
  {
  }

  /** Looking round from anywhere finds the one field with the tag. */
  lemma FindsSame(fields: seq<Field>, pos: nat, tag: nat, found: bool)
    requires TagsDistinct(fields)
    requires found ==> Matches(fields, tag, pos) && (pos < |fields| || fields == [])
    requires !found ==> forall k :: 0 <= k < |fields| ==> !Matches(fields, tag, k)
    ensures found && fields != [] ==> FindTag(fields, tag) == pos
    ensures !found ==> FindTag(fields, tag) == |fields|
    ensures found && fields == [] ==> tag == 0
  {
    var i := FindTag(fields, tag);
    if !found && i < |fields| {
      assert Matches(fields, tag, i);
      assert false;
    }
  }

  /** Only numbers of required fields are marked, and only those tracked. */
  ghost predicate MarksOnly(fields: seq<Field>, seen: set<nat>) {
    forall k :: k in seen ==> k < RequiredBefore(fields, |fields|) && k < MAX_REQUIRED_FIELDS
  }

  lemma NoMarks(fields: seq<Field>)
    ensures MarksOnly(fields, {})
  {
  }

  lemma StepMarks(d: Descriptor, t: TagResult, m: Decoded)
    requires t.TagOk? && DecStep(d, t, m).Some? && MarksOnly(d.fields, m.seen)
    ensures MarksOnly(d.fields, DecStep(d, t, m).value.0.seen)
  {
    hide DecField, SkipField, Home, RequiredBefore;
    var i := FindTag(d.fields, t.tag);
    if i < |d.fields| {
      RequiredBeforeGrows(d.fields, i, |d.fields|);
    }
  }

  const ALL_BITS: nat := 0xFFFF_FFFF

  lemma CountsRequired(fields: seq<Field>, count: nat)
    requires fields != [] ==>
               count == RequiredBefore(fields, |fields| - 1) + if fields[|fields| - 1].htype.Required? then 1 else 0
    requires fields == [] ==> count == 0
    ensures count == RequiredBefore(fields, |fields|)
  {
  }

  /** The checks of whole words and of the bits left over are together the check of every required field. */
  lemma WordsDecide(fields: seq<Field>, w0: nat, w1: nat, seen: set<nat>, count: nat)
    requires Tracks(w0, w1, seen) && MarksOnly(fields, seen)
    requires count == if RequiredBefore(fields, |fields|) > 64 then 64 else RequiredBefore(fields, |fields|)
    ensures RequiredSeen(fields, seen) <==>
            && (count >= 32 ==> w0 == ALL_BITS) && (count >= 64 ==> w1 == ALL_BITS)
            && (0 < count < 32 ==> w0 == Pow2(count) - 1) && (32 < count < 64 ==> w1 == Pow2(count - 32) - 1)
  {
    hide Bit, Pow2, RequiredBefore;
    Pow2Values();
    var n0 := if count < 32 then count else 32;
    var n1 := if count < 32 then 0 else count - 32;
    forall k | 0 <= k < 32
      ensures Bit(w0, k) <==> k in seen
    {
      assert InWords(w0, w1, k) <==> k in seen;
    }
    HighWord(w0, w1, seen);
    forall k | n1 <= k < 32
      ensures !Bit(w1, k)
    {
      assert Bit(w1, k) <==> Shifted(seen, k);
    }
    OnesIff(w0, n0);
    OnesIff(w1, n1);
    assert AllSet(w0, n0) <==> Covers(seen, 0, n0);
    CoversShifted(seen, n1);
    assert AllSet(w1, n1) <==> Covers(seen, 32, 32 + n1);
    CoversJoin(fields, seen, count, n0, n1);
  }

  lemma CoversJoin(fields: seq<Field>, seen: set<nat>, count: nat, n0: nat, n1: nat)
    requires count == if RequiredBefore(fields, |fields|) > 64 then 64 else RequiredBefore(fields, |fields|)
    requires n0 == (if count < 32 then count else 32) && n1 == if count < 32 then 0 else count - 32
    ensures RequiredSeen(fields, seen) <==> Covers(seen, 0, n0) && Covers(seen, 32, 32 + n1)
  {
  }

  /** Every number from lo up to hi has been seen. */
  ghost predicate Covers(seen: set<nat>, lo: nat, hi: nat) {
    forall k :: lo <= k < hi ==> k in seen
  }

  predicate Shifted(seen: set<nat>, k: nat) {
    k + 32 in seen
  }

  lemma HighWord(w0: nat, w1: nat, seen: set<nat>)
    requires Tracks(w0, w1, seen)
    ensures forall k :: 0 <= k < 32 ==> (Bit(w1, k) <==> Shifted(seen, k))
  {
  }

  lemma CoversShifted(seen: set<nat>, n: nat)
    ensures Covers(seen, 32, 32 + n) <==> forall k :: 0 <= k < n ==> Shifted(seen, k)
  {
    if forall k :: 0 <= k < n ==> Shifted(seen, k) {
      forall k | 32 <= k < 32 + n
        ensures k in seen
      {
        assert Shifted(seen, k - 32);
      }
    }
  }
}
