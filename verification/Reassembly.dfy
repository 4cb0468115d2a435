/** One incoming DTLS handshake message while its fragments arrive. */
module Reassembly {
  import opened Wire
  import opened Bits
  import opened Buffers

  const HM_HEADER_LENGTH: nat := 12

  /** A handshake fragment; its length field is |body|. */
  datatype Fragment = Fragment(typ: byte, msgLen: nat, seqNo: nat, offset: nat, body: seq<byte>)

  /** A partly received message: content[k] is None until a fragment has brought byte k. */
  datatype Partial = Partial(typ: byte, seqNo: nat, content: seq<Option<byte>>) {
    predicate Complete() {
      forall k :: 0 <= k < |content| ==> content[k].Some?
    }
  }

  function Missing(n: nat): (s: seq<Option<byte>>)
    ensures |s| == n
  {
    seq(n, _ => None)
  }

  /** content with body written at offset. */
  function Overwrite(content: seq<Option<byte>>, offset: nat, body: seq<byte>): (s: seq<Option<byte>>)
    requires offset + |body| <= |content|
    ensures |s| == |content|
    ensures forall k :: 0 <= k < |s| ==>
              s[k] == if offset <= k < offset + |body| then Some(body[k - offset]) else content[k]
  {
    seq(|content|, k requires 0 <= k < |content| =>
      if offset <= k < offset + |body| then Some(body[k - offset]) else content[k])
  }

  // ----- the reassembly bitmask

  /** The byte with bits start, inclusive, to end, exclusive, set. */
  function BitRange(start: nat, end: nat): byte
    requires start < 8 && end <= 8
  {
    PowersOfTwo(start);
    PowersOfTwo(end);
    assert Pow2(8) == 256;
    And(255 - (Pow2(start) - 1), Pow2(end) - 1, 8)
  }

  lemma PowersOfTwo(n: nat)
    requires n <= 8
    ensures Pow2(n) <= 256 && (n < 8 ==> Pow2(n) <= 128)
    decreases 8 - n
  {
    if n < 8 {
      PowersOfTwo(n + 1);
    }
  }

  lemma BitRangeBit(start: nat, end: nat, i: nat)
    requires start < 8 && end <= 8 && i < 8
    ensures Bit(BitRange(start, end), i) <==> start <= i < end
  {
    PowersOfTwo(start);
    PowersOfTwo(end);
    assert Pow2(8) == 256;
    OrAndBit(255 - (Pow2(start) - 1), Pow2(end) - 1, 8, i);
    ComplementBit(Pow2(start) - 1, 8, i);
    OnesBit(start, i);
    OnesBit(end, i);
  }

  function Or8(a: byte, b: byte): byte {
    assert Pow2(8) == 256;
    Or(a, b, 8)
  }

  /** Bit i of mask byte j. */
  predicate MaskBit(mask: seq<byte>, j: nat, i: nat)
    requires j < |mask|
  {
    Bit(mask[j], i)
  }

  /** after is before with the bits for bytes start to end of the message added. */
  ghost predicate Marked(before: seq<byte>, after: seq<byte>, start: nat, end: nat) {
    && |after| == |before|
    && forall j, i :: 0 <= j < |before| && 0 <= i < 8 ==>
         (MaskBit(after, j, i) <==> MaskBit(before, j, i) || start <= 8 * j + i < end)
  }

  lemma OrRange(x: byte, start: nat, end: nat, i: nat)
    requires start < 8 && end <= 8 && i < 8
    ensures Bit(Or8(x, BitRange(start, end)), i) <==> Bit(x, i) || start <= i < end
  {
    OrAndBit(x, BitRange(start, end), 8, i);
    BitRangeBit(start, end, i);
  }

  lemma FullRange()
    ensures BitRange(0, 8) == 255
  {
  }

  /** The first n bits of x are set. */
  ghost predicate AllSet(x: nat, n: nat) {
    forall i :: 0 <= i < n ==> Bit(x, i)
  }

  /** Comparing a mask byte with no bits past n against the full range tests its first n bits. */
  lemma ComparesFull(x: byte, n: nat)
    requires n <= 8 && forall i :: n <= i < 8 ==> !Bit(x, i)
    ensures x == BitRange(0, n) <==> AllSet(x, n)
  {
    assert Pow2(8) == 256;
    var full := BitRange(0, n);
    forall i | 0 <= i < 8
      ensures Bit(full, i) <==> i < n
    {
      BitRangeBit(0, n, i);
    }
    assert AllSet(full, n);
    if AllSet(x, n) {
      SameBits(x, full, 8);
    }
  }

  /** Adding bits a to b of byte j extends a marking that reached up to bit a of it. */
  lemma MarkByte(before: seq<byte>, mask: seq<byte>, after: seq<byte>, start: nat, j: nat, a: nat, b: nat)
    requires j < |mask| && a < 8 && a <= b <= 8 && start <= 8 * j + a
    requires Marked(before, mask, start, 8 * j + a)
    requires after == mask[j := Or8(mask[j], BitRange(a, b))]
    ensures Marked(before, after, start, 8 * j + b)
  {
    forall j', i | 0 <= j' < |before| && 0 <= i < 8
      ensures MaskBit(after, j', i) <==> MaskBit(before, j', i) || start <= 8 * j' + i < 8 * j + b
    {
      assert MaskBit(mask, j', i) <==> MaskBit(before, j', i) || start <= 8 * j' + i < 8 * j + a;
      if j' == j {
        OrRange(mask[j], a, b, i);
      }
    }
  }

  lemma MarkWholeByte(before: seq<byte>, mask: seq<byte>, start: nat, j: nat)
    requires j < |mask| && start <= 8 * j
    requires Marked(before, mask, start, 8 * j)
    ensures Marked(before, mask[j := 255], start, 8 * (j + 1))
  {
    assert Pow2(8) == 256;
    forall j', i | 0 <= j' < |before| && 0 <= i < 8
      ensures MaskBit(mask[j := 255], j', i) <==> MaskBit(before, j', i) || start <= 8 * j' + i < 8 * (j + 1)
    {
      assert MaskBit(mask, j', i) <==> MaskBit(before, j', i) || start <= 8 * j' + i < 8 * j;
      OnesBit(8, i);
    }
  }

  method SetBits(mask: array<byte>, start: nat, end: nat)
    requires start < end <= 8 * mask.Length
    modifies mask
    ensures Marked(old(mask[..]), mask[..], start, end)
  {
    hide BitRange, Or8, Marked;
    ghost var before := mask[..];
    NothingMarked(before, start);
    var first, last := start / 8, end / 8;
    if first == last {
      MarkByte(before, before, before[first := Or8(before[first], BitRange(start % 8, end % 8))],
               start, first, start % 8, end % 8);
      mask[first] := Or8(mask[first], BitRange(start % 8, end % 8));
      assert mask[..] == before[first := Or8(before[first], BitRange(start % 8, end % 8))];
    } else {
      MarkByte(before, before, before[first := Or8(before[first], BitRange(start % 8, 8))], start, first, start % 8, 8);
      mask[first] := Or8(mask[first], BitRange(start % 8, 8));
      assert mask[..] == before[first := Or8(before[first], BitRange(start % 8, 8))];
      for i := first + 1 to last
        invariant Marked(before, mask[..], start, 8 * i)
      {
        ghost var m := mask[..];
        MarkWholeByte(before, m, start, i);
        mask[i] := 255;
        assert mask[..] == m[i := 255];
      }
      if end % 8 != 0 {
        ghost var m := mask[..];
        MarkByte(before, m, m[last := Or8(m[last], BitRange(0, end % 8))], start, last, 0, end % 8);
        mask[last] := Or8(mask[last], BitRange(0, end % 8));
        assert mask[..] == m[last := Or8(m[last], BitRange(0, end % 8))];
      }
    }
  }

  lemma NothingMarked(mask: seq<byte>, start: nat)
    ensures Marked(mask, mask, start, start)
  {
  }

  /** Byte k of the message is marked. */
  predicate Has(mask: seq<byte>, k: nat)
    requires k < 8 * |mask|
  {
    MaskBit(mask, k / 8, k % 8)
  }

  /** No bit past the message length is set. */
  ghost predicate NoStrayBits(mask: seq<byte>, msgLen: nat) {
    forall j, i :: 0 <= j < |mask| && 0 <= i < 8 && 8 * j + i >= msgLen ==> !MaskBit(mask, j, i)
  }

  ghost predicate HasAll(mask: seq<byte>, msgLen: nat)
    requires msgLen <= 8 * |mask|
  {
    forall k :: 0 <= k < msgLen ==> Has(mask, k)
  }

  lemma MarkedHas(before: seq<byte>, after: seq<byte>, start: nat, end: nat, k: nat)
    requires Marked(before, after, start, end) && k < 8 * |before|
    ensures Has(after, k) <==> Has(before, k) || start <= k < end
  {
  }

  /** Bytes 8j to 8j+n are all marked when the low n bits of mask byte j are set. */
  lemma ByteHas(mask: seq<byte>, j: nat, n: nat)
    requires j < |mask| && n <= 8
    ensures AllSet(mask[j], n) <==> forall k :: 8 * j <= k < 8 * j + n ==> Has(mask, k)
  {
    if AllSet(mask[j], n) {
      forall k | 8 * j <= k < 8 * j + n
        ensures Has(mask, k)
      {
        assert k / 8 == j && k % 8 < n;
      }
    }
    if forall k :: 8 * j <= k < 8 * j + n ==> Has(mask, k) {
      forall i | 0 <= i < n
        ensures Bit(mask[j], i)
      {
        assert Has(mask, 8 * j + i);
      }
    }
  }

  method IsComplete(mask: array<byte>, msgLen: nat) returns (complete: bool)
    requires msgLen <= 8 * mask.Length && mask.Length == (msgLen + 7) / 8
    requires NoStrayBits(mask[..], msgLen)
    ensures complete <==> HasAll(mask[..], msgLen)
  {
    FullRange();
    for i := 0 to msgLen / 8
      invariant forall k :: 0 <= k < 8 * i ==> Has(mask[..], k)
    {
      ComparesFull(mask[i], 8);
      ByteHas(mask[..], i, 8);
      if mask[i] != 255 {
        return false;
      }
    }
    if msgLen % 8 != 0 {
      var last := msgLen / 8;
      forall i | msgLen % 8 <= i < 8
        ensures !Bit(mask[last], i)
      {
        assert !MaskBit(mask[..], last, i);
      }
      ComparesFull(mask[last], msgLen % 8);
      ByteHas(mask[..], last, msgLen % 8);
      if mask[last] != BitRange(0, msgLen % 8) {
        return false;
      }
    }
    return true;
  }

  // ----- messages under reassembly

  /** A message's header: one fragment spanning the whole message. */
  function MessageHeader(typ: byte, msgLen: nat, seqNo: nat): (s: seq<byte>)
    ensures |s| == HM_HEADER_LENGTH
  {
    FragmentHeader(typ, msgLen, seqNo, 0, msgLen)
  }

  function FragmentHeader(typ: byte, msgLen: nat, seqNo: nat, offset: nat, fragLen: nat): (s: seq<byte>)
    ensures |s| == HM_HEADER_LENGTH
  {
    [typ] + ToBigEndian(msgLen, 3) + ToBigEndian(seqNo, 2) + ToBigEndian(offset, 3) + ToBigEndian(fragLen, 3)
  }

  class HmFragment {
    const typ: byte
    const seqNo: nat
    const msgLen: nat
    const data: array<byte>
    var reassembly: array?<byte>

    ghost predicate Valid()
      reads this, reassembly, data
    {
      && data.Length == HM_HEADER_LENGTH + msgLen
      && data[..HM_HEADER_LENGTH] == MessageHeader(typ, msgLen, seqNo)
      && reassembly != data
      && (reassembly != null ==>
            && reassembly.Length == (msgLen + 7) / 8
            && NoStrayBits(reassembly[..], msgLen)
            && !HasAll(reassembly[..], msgLen))
    }

    ghost predicate Got(k: nat)
      requires Valid() && k < msgLen
      reads this, reassembly, data
    {
      reassembly == null || Has(reassembly[..], k)
    }

    /** What has been received; NULL reassembly means everything. */
    ghost function Content(): (c: Partial)
      requires Valid()
      reads this, reassembly, data
      ensures c.typ == typ && c.seqNo == seqNo && |c.content| == msgLen
      ensures forall k :: 0 <= k < msgLen ==>
                c.content[k] == if Got(k) then Some(data[HM_HEADER_LENGTH + k]) else None
    {
      Partial(typ, seqNo,
              seq(msgLen, k requires 0 <= k < msgLen reads this, reassembly, data requires Valid() =>
                if Got(k) then Some(data[HM_HEADER_LENGTH + k]) else None))
    }

    lemma CompleteIffNoMask()
      requires Valid()
      ensures Content().Complete() <==> reassembly == null
    {
      if reassembly != null {
        var k :| 0 <= k < msgLen && !Has(reassembly[..], k);
        assert Content().content[k] == None;
      }
    }

    constructor (typ: byte, msgLen: nat, seqNo: nat)
      ensures Valid() && fresh(data) && (reassembly != null ==> fresh(reassembly))
      ensures Content() == Partial(typ, seqNo, Missing(msgLen))
      ensures this.typ == typ && this.seqNo == seqNo && this.msgLen == msgLen
    {
      this.typ, this.msgLen, this.seqNo := typ, msgLen, seqNo;
      var d := new byte[HM_HEADER_LENGTH + msgLen];
      CopyTo(d, 0, MessageHeader(typ, msgLen, seqNo));
      data := d;
      reassembly := null;
      new;
      if msgLen > 0 {
        reassembly := new byte[(msgLen + 7) / 8](_ => 0);
        NoBits(reassembly[..]);
        assert !Has(reassembly[..], 0);
      }
    }

    /** Marks bytes start to end; drops the mask once every byte is marked. */
    method Mark(start: nat, end: nat)
      requires Valid() && reassembly != null && start <= end <= msgLen
      modifies this`reassembly, reassembly
      ensures Valid() && (reassembly == null || reassembly == old(reassembly))
      ensures forall k :: 0 <= k < msgLen ==> (Got(k) <==> old(Got(k)) || start <= k < end)
    {
      if start == end {
        return;
      }
      ghost var before := reassembly[..];
      SetBits(reassembly, start, end);
      ghost var after := reassembly[..];
      StillNoStrayBits(before, after, start, end, msgLen);
      forall k | 0 <= k < msgLen
        ensures Has(after, k) <==> Has(before, k) || start <= k < end
      {
        MarkedHas(before, after, start, end, k);
      }
      var complete := IsComplete(reassembly, msgLen);
      if complete {
        reassembly := null;
      }
    }

    /** Copies a fragment's body into place and marks it. */
    method AddBody(offset: nat, body: seq<byte>)
      requires Valid() && reassembly != null && offset + |body| <= msgLen
      modifies this`reassembly, reassembly, data
      ensures Valid() && (reassembly == null || reassembly == old(reassembly))
      ensures Content() == Partial(typ, seqNo, Overwrite(old(Content()).content, offset, body))
    {
      hide MessageHeader, HasAll, NoStrayBits, Has;
      ghost var was := data[..];
      CopyTo(data, HM_HEADER_LENGTH + offset, body);
      assert data[..HM_HEADER_LENGTH] == was[..HM_HEADER_LENGTH];
      Mark(offset, offset + |body|);
    }
  }

  lemma NoBits(mask: seq<byte>)
    requires forall j :: 0 <= j < |mask| ==> mask[j] == 0
    ensures forall j, i :: 0 <= j < |mask| && 0 <= i < 8 ==> !MaskBit(mask, j, i)
  {
    forall j, i | 0 <= j < |mask| && 0 <= i < 8
      ensures !MaskBit(mask, j, i)
    {
      ZeroBit(i);
    }
  }

  lemma StillNoStrayBits(before: seq<byte>, after: seq<byte>, start: nat, end: nat, msgLen: nat)
    requires Marked(before, after, start, end) && NoStrayBits(before, msgLen) && end <= msgLen
    ensures NoStrayBits(after, msgLen)
  {
  }
}
