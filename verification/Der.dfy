/** DER elements: the byte cursor that reads them and the builder that writes them. */
module Der {
  import opened Wire

  const BOOLEAN: byte := 0x01
  const INTEGER: byte := 0x02
  const OCTET_STRING: byte := 0x04
  const SEQUENCE: byte := 0x30
  /** The longest contents the builder can give a length to. */
  const MAX_LENGTH: nat := 0xffff_fffe
  const LONG_LENGTH: nat := 0x1_0000_0000
  /** The class and constructed bits stand above a 29-bit tag number. */
  const TAG_NUMBERS: nat := 0x2000_0000

  type u64 = x: int | 0 <= x < 0x1_0000_0000_0000_0000

  // ----- what is written

  function LengthBytes(n: nat): (k: nat)
    ensures k <= 4
  {
    if n <= 0x7f then 0 else if n <= 0xff then 1 else if n <= 0xffff then 2 else if n <= 0xff_ffff then 3 else 4
  }

  function Length(n: nat): (s: seq<byte>)
    ensures |s| == 1 + LengthBytes(n)
  {
    if n <= 0x7f then [n] else [0x80 + LengthBytes(n)] + ToBigEndian(n, LengthBytes(n))
  }

  function Element(id: byte, body: seq<byte>): (s: seq<byte>)
    ensures |s| == 2 + LengthBytes(|body|) + |body|
  {
    [id] + Length(|body|) + body
  }

  /** The bytes of v without leading zeros; zero is one byte. */
  function Digits(v: nat): (s: seq<byte>)
    ensures |s| >= 1
    ensures v > 0 ==> s[0] > 0
  {
    if v < 256 then [v] else Digits(v / 256) + [v % 256]
  }

  /** The contents of a non-negative INTEGER. */
  function Uint(v: nat): (s: seq<byte>)
    ensures |s| >= 1
  {
    if Digits(v)[0] >= 0x80 then [0] + Digits(v) else Digits(v)
  }

  // ----- what is read

  /** A base-128 number after the high bits v, and the bytes it takes. */
  function Base128(s: seq<byte>, v: nat): (r: Option<(nat, nat)>)
    ensures r.Some? ==> 1 <= r.value.1 <= |s|
    decreases |s|
  {
    if s == [] || v >= 0x0200_0000_0000_0000 || (v == 0 && s[0] == 0x80) then None
    else
      var v' := 128 * v + s[0] % 128;
      if s[0] < 0x80 then Some((v', 1))
      else
        var r := Base128(s[1..], v');
        if r.None? then None else Some((r.value.0, 1 + r.value.1))
  }

  /** The tag at the front of s, and the bytes it takes. */
  function Identifier(s: seq<byte>): (r: Option<(nat, nat)>)
    ensures r.Some? ==> 1 <= r.value.1 <= |s|
  {
    if s == [] then None
    else if s[0] % 32 != 31 then Some((TagOf(s[0]), 1))
    else
      var r := Base128(s[1..], 0);
      if r.None? || r.value.0 >= TAG_NUMBERS || r.value.0 < 31 then None
      else Some((s[0] / 32 * TAG_NUMBERS + r.value.0, 1 + r.value.1))
  }

  /** The tag that a one-byte identifier stands for. */
  function TagOf(id: byte): nat {
    id / 32 * TAG_NUMBERS + id % 32
  }

  /** The tag of an element, where its contents start and where it ends. */
  datatype Header = Header(tag: nat, start: nat, end: nat)

  function ParseHeader(s: seq<byte>): (r: Option<Header>)
    ensures r.Some? ==> 2 <= r.value.start <= r.value.end <= |s|
  {
    var id := Identifier(s);
    if id.None? || |s| == id.value.1 then None
    else
      var h := 1 + id.value.1;
      var b := s[id.value.1];
      if b < 0x80 then
        if |s| < h + b then None else Some(Header(id.value.0, h, h + b))
      else
        var n := b % 128;
        if n == 0 || n > 4 || |s| < h + n then None
        else
          var len := BigEndian(s[h..h + n]);
          if len < 128 || len < Pow256(n - 1) || |s| < h + n + len then None
          else Some(Header(id.value.0, h + n, h + n + len))
  }

  /** The contents of the element with identifier id at the front of s, and what follows it. */
  function Get(s: seq<byte>, id: byte): (r: Option<(seq<byte>, seq<byte>)>)
    ensures r.Some? ==> |r.value.0| + |r.value.1| <= |s| - 2
  {
    var h := ParseHeader(s);
    if h.None? || h.value.tag != TagOf(id) then None
    else Some((s[h.value.start..h.value.end], s[h.value.end..]))
  }

  predicate Peek(s: seq<byte>, id: byte) {
    Identifier(s).Some? && Identifier(s).value.0 == TagOf(id)
  }

  function GetOptional(s: seq<byte>, id: byte): Option<(Option<seq<byte>>, seq<byte>)> {
    if !Peek(s, id) then Some((None, s))
    else if Get(s, id).None? then None
    else Some((Some(Get(s, id).value.0), Get(s, id).value.1))
  }

  /** The number whose INTEGER contents are s: at least one byte, not negative, no spare zeros, at most 64 bits. */
  function UintValue(s: seq<byte>): (r: Option<u64>) {
    if s == [] || s[0] >= 0x80 || (s[0] == 0 && |s| > 1 && s[1] < 0x80) then None
    else if BigEndian(s) >= 0x1_0000_0000_0000_0000 then None
    else Some(BigEndian(s))
  }

  function GetUint(s: seq<byte>): Option<(u64, seq<byte>)> {
    var r := Get(s, INTEGER);
    if r.None? || UintValue(r.value.0).None? then None else Some((UintValue(r.value.0).value, r.value.1))
  }

  // ----- reading what was written

  /** A one-byte identifier is recognised by its byte. */
  lemma PeekIff(s: seq<byte>, id: byte)
    requires id % 32 != 31
    ensures Peek(s, id) <==> s != [] && s[0] == id
  {
  }

  lemma LengthIsShortest(n: nat)
    requires 0x7f < n < LONG_LENGTH
    ensures 1 <= LengthBytes(n) <= 4
    ensures Pow256(LengthBytes(n) - 1) <= n < Pow256(LengthBytes(n))
  {
    assert Pow256(0) == 1 && Pow256(1) == 0x100 && Pow256(2) == 0x1_0000;
    assert Pow256(3) == 0x100_0000 && Pow256(4) == 0x1_0000_0000;
  }

  /** Where the three parts of an element lie. */
  lemma ElementParts(id: byte, body: seq<byte>, rest: seq<byte>)
    ensures var s := Element(id, body) + rest; var n := LengthBytes(|body|);
            && s[0] == id && s[1] == Length(|body|)[0]
            && (|body| > 0x7f ==> s[2..2 + n] == ToBigEndian(|body|, n))
            && s[2 + n..|Element(id, body)|] == body && s[|Element(id, body)|..] == rest
  {
  }

  lemma ShortHeader(s: seq<byte>, len: nat)
    requires |s| >= 2 + len && s[0] % 32 != 31 && s[1] == len <= 0x7f
    ensures ParseHeader(s) == Some(Header(TagOf(s[0]), 2, 2 + len))
  {
  }

  lemma LongHeader(s: seq<byte>, n: nat, len: nat)
    requires 1 <= n <= 4 && |s| >= 2 + n + len && s[0] % 32 != 31 && s[1] == 0x80 + n
    requires BigEndian(s[2..2 + n]) == len && len >= 128 && len >= Pow256(n - 1)
    ensures ParseHeader(s) == Some(Header(TagOf(s[0]), 2 + n, 2 + n + len))
  {
    hide BigEndian;
  }

  lemma HeaderOfElement(id: byte, body: seq<byte>, rest: seq<byte>)
    requires id % 32 != 31 && |body| < LONG_LENGTH
    ensures ParseHeader(Element(id, body) + rest)
         == Some(Header(TagOf(id), 2 + LengthBytes(|body|), |Element(id, body)|))
  {
    var s := Element(id, body) + rest;
    var n := LengthBytes(|body|);
    ElementParts(id, body, rest);
    hide ParseHeader;
    if |body| > 0x7f {
      LengthIsShortest(|body|);
      BigEndianRoundTrip(|body|, n);
      LongHeader(s, n, |body|);
    } else {
      ShortHeader(s, |body|);
    }
  }

  /** An element is read back, and nothing after it is touched. */
  lemma GetElement(id: byte, body: seq<byte>, rest: seq<byte>)
    requires id % 32 != 31 && |body| < LONG_LENGTH
    ensures Get(Element(id, body) + rest, id) == Some((body, rest))
    ensures GetOptional(Element(id, body) + rest, id) == Some((Some(body), rest))
  {
    HeaderOfElement(id, body, rest);
    PeekIff(Element(id, body) + rest, id);
    ElementParts(id, body, rest);
  }

  lemma {:induction false} DigitsValue(v: nat)
    ensures BigEndian(Digits(v)) == v
  {
    if v < 256 {
      assert Digits(v)[..0] == [];
    } else {
      DigitsValue(v / 256);
      assert Digits(v)[..|Digits(v)| - 1] == Digits(v / 256);
    }
  }

  lemma {:induction false} LeadingZero(s: seq<byte>)
    ensures BigEndian([0] + s) == BigEndian(s)
  {
    if s == [] {
      assert ([0] + s)[..0] == [];
    } else {
      LeadingZero(s[..|s| - 1]);
      assert ([0] + s)[..|s|] == [0] + s[..|s| - 1];
    }
  }

  lemma {:induction false} DigitsShort(v: nat, n: nat)
    requires n >= 1 && v < Pow256(n)
    ensures |Digits(v)| <= n
  {
    if v >= 256 {
      assert Pow256(1) == 256;
      DigitsShort(v / 256, n - 1);
    }
  }

  /** Every unsigned 64-bit number is read back from the contents written for it. */
  lemma UintRoundTrip(v: u64)
    ensures UintValue(Uint(v)) == Some(v) && |Uint(v)| <= 9
  {
    DigitsValue(v);
    LeadingZero(Digits(v));
    assert Pow256(4) == 0x1_0000_0000;
    assert Pow256(8) == 256 * (256 * (256 * (256 * Pow256(4))));
    DigitsShort(v, 8);
    if v == 0 {
      assert Digits(v) == [0];
    } else {
      assert Digits(v)[0] > 0;
    }
  }

  // ----- elements do not depend on what follows them

  lemma {:induction false} Base128Stable(s: seq<byte>, t: seq<byte>, v: nat)
    requires Base128(s, v).Some?
    requires |t| >= Base128(s, v).value.1 && t[..Base128(s, v).value.1] == s[..Base128(s, v).value.1]
    ensures Base128(t, v) == Base128(s, v)
    decreases |s|
  {
    var n := Base128(s, v).value.1;
    assert t[..n][0] == s[..n][0];
    if s[0] >= 0x80 {
      assert t[1..][..n - 1] == t[..n][1..] == s[..n][1..] == s[1..][..n - 1];
      Base128Stable(s[1..], t[1..], 128 * v + s[0] % 128);
    }
  }

  lemma IdentifierStable(s: seq<byte>, t: seq<byte>)
    requires Identifier(s).Some?
    requires |t| >= Identifier(s).value.1 && t[..Identifier(s).value.1] == s[..Identifier(s).value.1]
    ensures Identifier(t) == Identifier(s)
  {
    var n := Identifier(s).value.1;
    assert t[..n][0] == s[..n][0];
    if s[0] % 32 == 31 {
      assert t[1..][..n - 1] == t[..n][1..] == s[..n][1..] == s[1..][..n - 1];
      Base128Stable(s[1..], t[1..], 0);
    }
  }

  lemma SamePart(s: seq<byte>, t: seq<byte>, end: nat, i: nat, j: nat)
    requires i <= j <= end <= |s| && end <= |t| && s[..end] == t[..end]
    ensures s[i..j] == t[i..j]
  {
    assert s[i..j] == s[..end][i..j] && t[i..j] == t[..end][i..j];
  }

  /** No element is a proper prefix of another. */
  lemma HeaderStable(s: seq<byte>, t: seq<byte>)
    requires ParseHeader(s).Some?
    requires |t| >= ParseHeader(s).value.end && t[..ParseHeader(s).value.end] == s[..ParseHeader(s).value.end]
    ensures ParseHeader(t) == ParseHeader(s)
  {
    var h := ParseHeader(s).value;
    var n := Identifier(s).value.1;
    SamePart(s, t, h.end, 0, n);
    IdentifierStable(s, t);
    SamePart(s, t, h.end, n, n + 1);
    assert t[n..n + 1][0] == s[n..n + 1][0];
    SamePart(s, t, h.end, n + 1, h.start);
  }

  // ----- the cursor

  /** Bytes still to be read; every read moves past what it took. */
  class Cursor {
    var rest: seq<byte>

    constructor (data: seq<byte>)
      ensures rest == data
    {
      rest := data;
    }

    method GetU8() returns (ok: bool, b: byte)
      modifies this
      ensures ok <==> old(rest) != []
      ensures ok ==> b == old(rest)[0] && rest == old(rest)[1..]
      ensures !ok ==> rest == old(rest)
    {
      ok, b := rest != [], 0;
      if ok {
        b, rest := rest[0], rest[1..];
      }
    }

    method GetUnsigned(len: nat) returns (ok: bool, n: nat)
      modifies this
      ensures ok <==> len <= |old(rest)|
      ensures ok ==> n == BigEndian(old(rest)[..len]) && rest == old(rest)[len..]
      ensures !ok ==> rest == old(rest)
    {
      ok, n := len <= |rest|, 0;
      if ok {
        for i := 0 to len
          invariant n == BigEndian(rest[..i])
        {
          assert rest[..i + 1][..i] == rest[..i];
          n := 256 * n + rest[i];
        }
        rest := rest[len..];
      }
    }

    method ParseBase128() returns (ok: bool, v: nat)
      modifies this
      ensures ok <==> Base128(old(rest), 0).Some?
      ensures ok ==> v == Base128(old(rest), 0).value.0 && rest == old(rest)[Base128(old(rest), 0).value.1..]
    {
      v := 0;
      ghost var used := 0;
      var more := true;
      while more
        invariant used <= |old(rest)| && rest == old(rest)[used..]
        invariant more ==> (Base128(old(rest), 0) ==
                            if Base128(rest, v).None? then None
                            else Some((Base128(rest, v).value.0, used + Base128(rest, v).value.1)))
        invariant !more ==> Base128(old(rest), 0) == Some((v, used))
        decreases |rest|, more
      {
        var got, b := GetU8();
        if !got || v >= 0x0200_0000_0000_0000 || (v == 0 && b == 0x80) {
          return false, 0;
        }
        v := 128 * v + b % 128;
        used := used + 1;
        more := b >= 0x80;
      }
      ok := true;
    }

    method ParseTag() returns (ok: bool, tag: nat)
      modifies this
      ensures ok <==> Identifier(old(rest)).Some?
      ensures ok ==> tag == Identifier(old(rest)).value.0 && rest == old(rest)[Identifier(old(rest)).value.1..]
    {
      var got, b := GetU8();
      if !got {
        return false, 0;
      }
      var number: nat := b % 32;
      if number == 31 {
        ok, number := ParseBase128();
        if !ok || number >= TAG_NUMBERS || number < 31 {
          return false, 0;
        }
      }
      return true, b / 32 * TAG_NUMBERS + number;
    }

    method GetBytes(len: nat) returns (ok: bool, out: seq<byte>)
      modifies this
      ensures ok <==> len <= |old(rest)|
      ensures ok ==> out == old(rest)[..len] && rest == old(rest)[len..]
      ensures !ok ==> rest == old(rest)
    {
      ok, out := len <= |rest|, [];
      if ok {
        out, rest := rest[..len], rest[len..];
      }
    }

    /** Take the next element whole, whatever its tag. */
    method GetAnyElement() returns (ok: bool, out: seq<byte>, tag: nat, start: nat)
      modifies this
      ensures ok <==> ParseHeader(old(rest)).Some?
      ensures ok ==> tag == ParseHeader(old(rest)).value.tag && start == ParseHeader(old(rest)).value.start
      ensures ok ==> out == old(rest)[..ParseHeader(old(rest)).value.end]
      ensures ok ==> rest == old(rest)[ParseHeader(old(rest)).value.end..]
      ensures !ok ==> rest == old(rest)
    {
      hide Identifier, BigEndian, Pow256;
      var header := new Cursor(rest);
      var got;
      got, tag := header.ParseTag();
      if !got {
        return false, [], 0, 0;
      }
      var b;
      got, b := header.GetU8();
      if !got {
        return false, [], 0, 0;
      }
      start := |rest| - |header.rest|;
      var len;
      if b < 0x80 {
        len := b;
      } else {
        var n := b % 128;
        if n == 0 || n > 4 {
          return false, [], 0, 0;
        }
        assert header.rest == rest[start..];
        got, len := header.GetUnsigned(n);
        if !got {
          return false, [], 0, 0;
        }
        assert rest[start..][..n] == rest[start..start + n];
        if len < 128 || len < Pow256(n - 1) {
          return false, [], 0, 0;
        }
        start := start + n;
      }
      ok, out := GetBytes(start + len);
    }

    method GetAsn1(id: byte) returns (ok: bool, out: seq<byte>)
      modifies this
      ensures ok <==> Get(old(rest), id).Some?
      ensures ok ==> (out, rest) == Get(old(rest), id).value
    {
      var tag, start;
      ok, out, tag, start := GetAnyElement();
      if !ok || tag != TagOf(id) {
        return false, [];
      }
      out := out[start..];
    }

    method PeekTag(id: byte) returns (yes: bool)
      ensures yes == Peek(rest, id)
    {
      var copy := new Cursor(rest);
      var ok, tag := copy.ParseTag();
      yes := ok && tag == TagOf(id);
    }

    method GetUint64() returns (ok: bool, v: u64)
      modifies this
      ensures ok <==> GetUint(old(rest)).Some?
      ensures ok ==> (v, rest) == GetUint(old(rest)).value
    {
      var bytes;
      v := 0;
      ok, bytes := GetAsn1(INTEGER);
      if !ok || bytes == [] || bytes[0] >= 0x80 || (bytes[0] == 0 && |bytes| > 1 && bytes[1] < 0x80) {
        return false, 0;
      }
      for i := 0 to |bytes|
        invariant v == BigEndian(bytes[..i])
      {
        assert bytes[..i + 1][..i] == bytes[..i];
        if v >= 0x0100_0000_0000_0000 {
          PrefixIsLess(bytes, i + 1);
          return false, 0;
        }
        v := 256 * v + bytes[i];
      }
      assert bytes[..|bytes|] == bytes;
    }

    method GetOptionalAsn1(id: byte) returns (ok: bool, out: Option<seq<byte>>)
      modifies this
      ensures ok <==> GetOptional(old(rest), id).Some?
      ensures ok ==> (out, rest) == GetOptional(old(rest), id).value
    {
      var present := PeekTag(id);
      out := None;
      ok := true;
      if present {
        var content;
        ok, content := GetAsn1(id);
        out := Some(content);
      }
    }
  }

  lemma {:induction false} PrefixIsLess(s: seq<byte>, i: nat)
    requires i <= |s|
    ensures BigEndian(s[..i]) <= BigEndian(s)
  {
    if i == |s| {
      assert s[..i] == s;
    } else {
      PrefixIsLess(s[..|s| - 1], i);
      assert s[..|s| - 1][..i] == s[..i];
    }
  }

  // ----- the builder

  /** An element being written: what is inside it so far. */
  datatype Frame = Frame(id: byte, body: seq<byte>)

  /** The buffer while frames are open: each has its identifier and one byte held for its length. */
  function Flat(fs: seq<Frame>): seq<byte>
    requires |fs| >= 1
  {
    var last := fs[|fs| - 1];
    if |fs| == 1 then last.body else Flat(fs[..|fs| - 1]) + [last.id, 0] + last.body
  }

  function Append(fs: seq<Frame>, data: seq<byte>): (r: seq<Frame>)
    requires |fs| >= 1
    ensures |r| == |fs|
  {
    fs[..|fs| - 1] + [Frame(fs[|fs| - 1].id, fs[|fs| - 1].body + data)]
  }

  /** Close every frame inside the one at this level, innermost first. */
  function Close(fs: seq<Frame>, level: nat): (r: seq<Frame>)
    requires level < |fs|
    ensures |r| == level + 1
    decreases |fs| - level
  {
    if |fs| == level + 1 then fs
    else
      var inner := Close(fs, level + 1);
      Append(inner[..level + 1], Element(inner[level + 1].id, inner[level + 1].body))
  }

  /** What is outside the level stays as it is. */
  lemma {:induction false} CloseKeepsOuter(fs: seq<Frame>, level: nat)
    requires level < |fs|
    ensures Close(fs, level)[..level] == fs[..level]
    decreases |fs| - level
  {
    hide Element;
    if |fs| > level + 1 {
      CloseKeepsOuter(fs, level + 1);
      var inner := Close(fs, level + 1);
      assert inner[..level] == inner[..level + 1][..level] == fs[..level + 1][..level] == fs[..level];
      assert Close(fs, level)[..level] == inner[..level];
    }
  }

  /** Each frame that is closed is short enough to have a length. */
  predicate Fits(fs: seq<Frame>, level: nat)
    requires level < |fs|
    decreases |fs| - level
  {
    |fs| == level + 1 || (Fits(fs, level + 1) && |Close(fs, level + 1)[level + 1].body| <= MAX_LENGTH)
  }

  lemma FlatAppend(fs: seq<Frame>, data: seq<byte>)
    requires |fs| >= 1
    ensures Flat(Append(fs, data)) == Flat(fs) + data
  {
    hide Flat, Append;
    FlatUnfold(fs);
    FlatUnfold(Append(fs, data));
    AppendParts(fs, data);
    if |fs| > 1 {
      var last := fs[|fs| - 1];
      Regroup(Flat(fs[..|fs| - 1]), [last.id, 0], last.body, data);
    }
  }

  lemma AppendParts(fs: seq<Frame>, data: seq<byte>)
    requires |fs| >= 1
    ensures var r, last := Append(fs, data), |fs| - 1;
            r[..last] == fs[..last] && r[last] == Frame(fs[last].id, fs[last].body + data)
  {
  }

  lemma Regroup(a: seq<byte>, b: seq<byte>, c: seq<byte>, d: seq<byte>)
    ensures a + b + (c + d) == a + b + c + d
  {
  }

  lemma FlatUnfold(fs: seq<Frame>)
    requires |fs| >= 1
    ensures var last := fs[|fs| - 1];
            Flat(fs) == if |fs| == 1 then last.body else Flat(fs[..|fs| - 1]) + [last.id, 0] + last.body
  {
  }

  /** A child that was just opened and filled closes into its element. */
  lemma CloseChild(fs: seq<Frame>, child: Frame)
    requires |fs| >= 1
    ensures Close(fs + [child], |fs| - 1) == Append(fs, Element(child.id, child.body))
    ensures Fits(fs + [child], |fs| - 1) <==> |child.body| <= MAX_LENGTH
  {
    hide Append, Element;
    var all := fs + [child];
    assert Close(all, |fs|) == all && all[..|fs|] == fs;
  }

  lemma Repack(front: seq<byte>, id: byte, length: seq<byte>, body: seq<byte>)
    ensures var s := front + [id, 0] + body;
            s[..|front| + 1] + length + s[|front| + 2..] == front + ([id] + length + body)
            && |s| - (|front| + 2) == |body|
  {
  }

  /** The bytes that give a length: one when that is enough, otherwise a count and the length itself. */
  method LengthPrefix(contents: nat) returns (s: seq<byte>)
    requires contents <= MAX_LENGTH
    ensures s == Length(contents)
  {
    var len: nat := contents;
    var lenLen: nat, first: byte := 1, 0;
    if len > 0xff_ffff {
      lenLen, first := 5, 0x84;
    } else if len > 0xffff {
      lenLen, first := 4, 0x83;
    } else if len > 0xff {
      lenLen, first := 3, 0x82;
    } else if len > 0x7f {
      lenLen, first := 2, 0x81;
    } else {
      first, len := len, 0;
    }
    ghost var n: nat, total: nat := len, lenLen - 1;
    var i: nat := lenLen - 1;
    s := [];
    while i > 0
      invariant |s| + i == total
      invariant ToBigEndian(len, i) + s == ToBigEndian(n, total)
    {
      i := i - 1;
      assert ToBigEndian(len, i + 1) + s == ToBigEndian(len / 256, i) + ([len % 256] + s);
      s := [len % 256] + s;
      len := len / 256;
    }
    assert s == ToBigEndian(n, total);
    s := [first] + s;
  }

  class Builder {
    var buf: seq<byte>
    /** Where the length byte of each open child is, outermost first. */
    var pending: seq<nat>
    var error: bool
    ghost var frames: seq<Frame>

    ghost predicate Valid()
      reads this
    {
      !error ==>
        |frames| == |pending| + 1 && buf == Flat(frames) &&
        forall i :: 0 <= i < |pending| ==> pending[i] == |Flat(frames[..i + 1])| + 1
    }

    constructor ()
      ensures Valid() && !error && frames == [Frame(0, [])]
    {
      buf, pending, error, frames := [], [], false, [Frame(0, [])];
    }

    /** The length byte of the innermost child becomes its length, moving the contents along. */
    method PatchLength()
      requires Valid() && !error && |pending| >= 1 && |frames[|frames| - 1].body| <= MAX_LENGTH
      modifies this
      ensures Valid() && !error
      ensures frames == Close(old(frames), |old(frames)| - 2)
    {
      ghost var child := frames[|frames| - 1];
      ghost var outer := frames[..|frames| - 1];
      assert frames == outer + [child];
      CloseChild(outer, child);
      FlatAppend(outer, Element(child.id, child.body));
      var offset := pending[|pending| - 1];
      assert frames[..|pending|] == outer;
      var length := LengthPrefix(|buf| - (offset + 1));
      Repack(Flat(outer), child.id, length, child.body);
      buf := buf[..offset] + length + buf[offset + 1..];
      pending := pending[..|pending| - 1];
      frames := Append(outer, Element(child.id, child.body));
      forall i | 0 <= i < |pending|
        ensures pending[i] == |Flat(frames[..i + 1])| + 1
      {
        assert frames[..i + 1] == outer[..i + 1] == old(frames)[..i + 1];
      }
    }

    /** Close everything opened inside the given level. */
    method Flush(level: nat) returns (ok: bool)
      requires Valid() && (!error ==> level < |frames|)
      modifies this
      ensures Valid() && ok == !error
      ensures ok <==> !old(error) && Fits(old(frames), level)
      ensures ok ==> frames == Close(old(frames), level)
      decreases if error then 0 else |pending| - level
    {
      if error {
        return false;
      }
      if level == |pending| {
        return true;
      }
      ok := Flush(level + 1);
      if ok {
        var len := |buf| - (pending[level] + 1);
        assert frames == frames[..level + 1] + [frames[level + 1]];
        if len > MAX_LENGTH {
          error := true;
          return false;
        }
        CloseChild(frames[..level + 1], frames[level + 1]);
        PatchLength();
      }
    }

    method AddBytes(level: nat, data: seq<byte>) returns (ok: bool)
      requires Valid() && (!error ==> level < |frames|)
      modifies this
      ensures Valid() && ok == !error
      ensures ok <==> !old(error) && Fits(old(frames), level)
      ensures ok ==> frames == Append(Close(old(frames), level), data)
    {
      ok := Flush(level);
      if ok {
        FlatAppend(frames, data);
        buf := buf + data;
        ghost var before := frames;
        frames := Append(frames, data);
        forall i | 0 <= i < |pending|
          ensures pending[i] == |Flat(frames[..i + 1])| + 1
        {
          assert frames[..i + 1] == before[..i + 1];
        }
      }
    }

    /** Open a child inside the given level. */
    method AddAsn1(level: nat, id: byte) returns (ok: bool)
      requires Valid() && (!error ==> level < |frames|)
      modifies this
      ensures Valid() && ok == !error
      ensures ok <==> !old(error) && Fits(old(frames), level)
      ensures ok ==> frames == Close(old(frames), level) + [Frame(id, [])]
    {
      ok := Flush(level);
      if ok {
        ghost var before := frames;
        buf := buf + [id];
        pending := pending + [|buf|];
        buf := buf + [0];
        frames := frames + [Frame(id, [])];
        assert frames[..|before|] == before;
        forall i | 0 <= i < |pending|
          ensures pending[i] == |Flat(frames[..i + 1])| + 1
        {
          assert frames[..i + 1] == before[..i + 1];
        }
      }
    }

    method AddUint64(level: nat, value: u64) returns (ok: bool)
      requires Valid() && (!error ==> level < |frames|)
      modifies this
      ensures Valid() && ok == !error
      ensures ok <==> !old(error) && Fits(old(frames), level)
      ensures ok ==> frames == Append(Close(old(frames), level), Element(INTEGER, Uint(value)))
    {
      ok := AddAsn1(level, INTEGER);
      if !ok {
        return;
      }
      ghost var outer := Close(old(frames), level);
      var started := false;
      NothingLeft(value);
      assert frames == outer + [Frame(INTEGER, UintSoFar(value, 8))];
      for i: nat := 0 to 8
        invariant Valid() && !error
        invariant started <==> ShiftBytes(value, 8 - i) > 0
        invariant frames == outer + [Frame(INTEGER, UintSoFar(value, 8 - i))]
      {
        started := AddDigit(level + 1, value, 7 - i, started, outer);
      }
      if !started {
        AddToLast(level + 1, 0, outer, Frame(INTEGER, []));
        assert [] + [0] == Uint(0);
      }
      UintRoundTrip(value);
      CloseChild(outer, Frame(INTEGER, Uint(value)));
      ok := Flush(level);
    }

    /** The byte of value above left others, unless it is a leading zero. */
    method AddDigit(level: nat, value: u64, left: nat, started: bool, ghost outer: seq<Frame>) returns (started': bool)
      requires Valid() && !error && level == |outer|
      requires started <==> ShiftBytes(value, left + 1) > 0
      requires frames == outer + [Frame(INTEGER, UintSoFar(value, left + 1))]
      modifies this
      ensures Valid() && !error
      ensures started' <==> ShiftBytes(value, left) > 0
      ensures frames == outer + [Frame(INTEGER, UintSoFar(value, left))]
    {
      var b := ShiftBytes(value, left) % 256;
      started' := started;
      ghost var digits := UintSoFar(value, left + 1);
      UintGrows(ShiftBytes(value, left + 1), b);
      if !started {
        if b == 0 {
          return;
        }
        if b >= 0x80 {
          AddToLast(level, 0, outer, Frame(INTEGER, digits));
          digits := digits + [0];
        }
        started' := true;
      }
      assert digits + [b] == UintSoFar(value, left);
      AddToLast(level, b, outer, Frame(INTEGER, digits));
    }

    /** CBB_add_u8 on the innermost child. */
    method AddToLast(level: nat, b: byte, ghost outer: seq<Frame>, ghost child: Frame)
      requires Valid() && !error && level == |outer| && frames == outer + [child]
      modifies this
      ensures Valid() && !error
      ensures frames == outer + [Frame(child.id, child.body + [b])]
    {
      var ok := AddBytes(level, [b]);
    }

    method AddOctetString(level: nat, data: seq<byte>) returns (ok: bool)
      requires Valid() && (!error ==> level < |frames|)
      modifies this
      ensures Valid() && ok == !error
      ensures ok <==> !old(error) && Fits(old(frames), level) && |data| <= MAX_LENGTH
      ensures ok ==> frames == Append(Close(old(frames), level), Element(OCTET_STRING, data))
    {
      ok := AddAsn1(level, OCTET_STRING);
      if ok {
        ghost var outer := Close(old(frames), level);
        AppendToChild(outer, OCTET_STRING, data);
        ok := AddBytes(level + 1, data);
        CloseChild(outer, Frame(OCTET_STRING, data));
        ok := Flush(level);
      }
    }

    method AddBool(level: nat, value: bool) returns (ok: bool)
      requires Valid() && (!error ==> level < |frames|)
      modifies this
      ensures Valid() && ok == !error
      ensures ok <==> !old(error) && Fits(old(frames), level)
      ensures ok ==> frames == Append(Close(old(frames), level), Element(BOOLEAN, [if value then 0xff else 0]))
    {
      ok := AddAsn1(level, BOOLEAN);
      if ok {
        ghost var outer := Close(old(frames), level);
        var b: byte := if value then 0xff else 0;
        AppendToChild(outer, BOOLEAN, [b]);
        ok := AddBytes(level + 1, [b]);
        CloseChild(outer, Frame(BOOLEAN, [b]));
        ok := Flush(level);
      }
    }
  }

  lemma AppendToChild(outer: seq<Frame>, id: byte, data: seq<byte>)
    ensures Append(outer + [Frame(id, [])], data) == outer + [Frame(id, data)]
  {
    assert (outer + [Frame(id, [])])[..|outer|] == outer;
    assert [] + data == data;
  }

  /** v >> 8 * n */
  function ShiftBytes(v: nat, n: nat): nat {
    if n == 0 then v else ShiftBytes(v, n - 1) / 256
  }

  /** The INTEGER contents once all but the last left bytes of value are written. */
  function UintSoFar(value: nat, left: nat): seq<byte> {
    if ShiftBytes(value, left) > 0 then Uint(ShiftBytes(value, left)) else []
  }

  lemma {:induction false} ShiftBound(v: nat, n: nat, m: nat)
    requires v < Pow256(n + m)
    ensures ShiftBytes(v, n) < Pow256(m)
  {
    if n > 0 {
      ShiftBound(v, n - 1, m + 1);
    }
  }

  lemma NothingLeft(value: u64)
    ensures ShiftBytes(value, 8) == 0
  {
    assert Pow256(4) == 0x1_0000_0000;
    assert Pow256(8) == 256 * (256 * (256 * (256 * Pow256(4))));
    ShiftBound(value, 8, 0);
  }

  /** One more digit on the right. */
  lemma UintGrows(v: nat, b: byte)
    ensures v > 0 ==> Uint(256 * v + b) == Uint(v) + [b]
    ensures b > 0 ==> Uint(b) == (if b >= 0x80 then [0, b] else [b])
  {
  }
}
