/** Base-128 varints, zig-zag and fixed-width integers of the Protocol Buffers wire format. */
module PbVarint {
  import opened Wire
  import opened Bits

  const TWO32: int := 0x1_0000_0000
  const TWO63: int := 0x8000_0000_0000_0000
  const TWO64: int := 0x1_0000_0000_0000_0000

  // ----- word arithmetic

  lemma {:induction false} Pow2Add(a: nat, b: nat)
    ensures Pow2(a + b) == Pow2(a) * Pow2(b)
  {
    if a > 0 {
      Pow2Add(a - 1, b);
    }
  }

  lemma Pow2Values()
    ensures Pow2(7) == 128 && Pow2(28) == 0x1000_0000 && Pow2(31) == 0x8000_0000
    ensures Pow2(32) == TWO32 && Pow2(64) == TWO64
  {
    hide Pow2;
    SmallPowers();
    Pow2Add(7, 7);
    Pow2Add(14, 14);
    Pow2Add(28, 3);
    Pow2Add(31, 1);
    Pow2Add(32, 32);
  }

  lemma SmallPowers()
    ensures Pow2(1) == 2 && Pow2(3) == 8 && Pow2(7) == 128
  {
  }

  lemma {:induction false} TruncateSmall(b: nat, w: nat)
    requires b < Pow2(w)
    ensures Truncate(b, w) == b
  {
    if w > 0 {
      TruncateSmall(b / 2, w - 1);
    }
  }

  lemma {:induction false} TruncateBound(b: nat, w: nat)
    ensures Truncate(b, w) < Pow2(w) && Truncate(b, w) <= b
  {
    if w > 0 {
      TruncateBound(b / 2, w - 1);
    }
  }

  /** Truncate drops multiples of the word size. */
  lemma {:induction false} TruncateIsModulo(b: nat, w: nat) returns (q: nat)
    ensures b == Truncate(b, w) + q * Pow2(w)
  {
    if w == 0 {
      q := b;
    } else {
      q := TruncateIsModulo(b / 2, w - 1);
      assert 2 * (q * Pow2(w - 1)) == q * Pow2(w);
    }
  }

  lemma HalfOfSum(r: nat, m: nat)
    ensures (r + 2 * m) / 2 == r / 2 + m && (r + 2 * m) % 2 == r % 2
  {
  }

  lemma {:induction false} TruncateUnique(r: nat, q: nat, w: nat)
    requires r < Pow2(w)
    ensures Truncate(r + q * Pow2(w), w) == r
  {
    if w > 0 {
      assert q * Pow2(w) == 2 * (q * Pow2(w - 1));
      HalfOfSum(r, q * Pow2(w - 1));
      TruncateUnique(r / 2, q, w - 1);
    }
  }

  /** result | (x << k) on words of w bits. */
  function OrShifted(result: nat, x: nat, k: nat, w: nat): nat {
    Or(result, Truncate(x * Pow2(k), w), w)
  }

  lemma {:induction false} OrZero(b: nat, w: nat)
    ensures Or(0, Truncate(b, w), w) == Truncate(b, w)
  {
    if w > 0 {
      OrZero(b / 2, w - 1);
    }
  }

  /** The lowest bit comes from result, the others from above it. */
  lemma LowestBit(result: nat, y: nat, w: nat)
    requires w > 0
    ensures Or(result, Truncate(2 * y, w), w) == result % 2 + 2 * Or(result / 2, Truncate(y, w - 1), w - 1)
    ensures Truncate(result + 2 * y, w) == result % 2 + 2 * Truncate(result / 2 + y, w - 1)
  {
    assert Truncate(2 * y, w) == 2 * Truncate(y, w - 1);
    assert (result + 2 * y) / 2 == result / 2 + y;
  }

  lemma HalfShift(result: nat, x: nat, k: nat)
    requires k > 0 && result < Pow2(k)
    ensures x * Pow2(k) == 2 * (x * Pow2(k - 1)) && result / 2 < Pow2(k - 1)
  {
  }

  /** Bits put above those already there add up. */
  lemma OrUnshifted(result: nat, x: nat, k: nat, w: nat)
    requires result < Pow2(k) && (w == 0 || k == 0)
    ensures OrShifted(result, x, k, w) == Truncate(result + x * Pow2(k), w)
  {
    if w > 0 {
      OrZero(x, w);
    }
  }

  lemma {:induction false} OrShiftedAdds(result: nat, x: nat, k: nat, w: nat)
    requires result < Pow2(k)
    ensures OrShifted(result, x, k, w) == Truncate(result + x * Pow2(k), w)
  {
    hide Or, Truncate, Pow2;
    if w == 0 || k == 0 {
      OrUnshifted(result, x, k, w);
    } else {
      HalfShift(result, x, k);
      LowestBit(result, x * Pow2(k - 1), w);
      OrShiftedAdds(result / 2, x, k - 1, w - 1);
    }
  }

  // ----- varints

  function EncVarint(v: nat): (s: seq<byte>)
    ensures |s| > 0
  {
    if v < 128 then [v] else [v % 128 + 128] + EncVarint(v / 128)
  }

  /** The number of bytes up to and including the first without a continuation bit; None if there is none. */
  function VarintLength(s: seq<byte>): (n: Option<nat>)
    ensures n.Some? ==> 1 <= n.value <= |s|
  {
    if s == [] then None
    else if s[0] < 128 then Some(1)
    else
      match VarintLength(s[1..])
      case None => None
      case Some(n) => Some(n + 1)
  }

  /** The number whose seven-bit groups, least significant first, are the low bits of s. */
  function Groups(s: seq<byte>): (v: nat)
    ensures v < Pow2(7 * |s|)
  {
    if s == [] then 0
    else
      Pow2Add(7, 7 * (|s| - 1));
      assert Pow2(7) == 128;
      s[0] % 128 + 128 * Groups(s[1..])
  }

  /** A varint of up to ten bytes, as a 64-bit word, and what follows it. */
  function DecVarint(s: seq<byte>): (r: Option<(nat, seq<byte>)>)
    ensures r.Some? ==> |r.value.1| < |s|
  {
    match VarintLength(s)
    case None => None
    case Some(n) => if n > 10 then None else Some((Truncate(Groups(s[..n]), 64), s[n..]))
  }

  lemma {:induction false} EncVarintInverts(v: nat, rest: seq<byte>)
    ensures VarintLength(EncVarint(v) + rest) == Some(|EncVarint(v)|)
    ensures Groups(EncVarint(v)) == v
  {
    var s := EncVarint(v) + rest;
    if v < 128 {
      assert EncVarint(v)[1..] == [];
    } else {
      EncVarintInverts(v / 128, rest);
      assert s[1..] == EncVarint(v / 128) + rest;
      assert EncVarint(v)[1..] == EncVarint(v / 128);
    }
  }

  lemma {:induction false} EncVarintLength(v: nat, n: nat)
    requires 1 <= n && v < Pow2(7 * n)
    ensures |EncVarint(v)| <= n
  {
    assert Pow2(7) == 128;
    if v >= 128 {
      assert n > 1;
      Pow2Add(7, 7 * (n - 1));
      EncVarintLength(v / 128, n - 1);
    }
  }

  /** Every 64-bit word takes 1 to 10 bytes, and the decoder returns it from in front of anything. */
  lemma VarintRoundTrip(v: nat, rest: seq<byte>)
    requires v < TWO64
    ensures 1 <= |EncVarint(v)| <= 10
    ensures DecVarint(EncVarint(v) + rest) == Some((v, rest))
  {
    Pow2Values();
    Pow2Add(64, 6);
    EncVarintInverts(v, rest);
    EncVarintLength(v, 10);
    TruncateSmall(v, 64);
    var e := EncVarint(v);
    assert (e + rest)[..|e|] == e && (e + rest)[|e|..] == rest;
  }

  lemma {:induction false} VarintLengthStable(s: seq<byte>, more: seq<byte>)
    requires VarintLength(s).Some?
    ensures VarintLength(s + more) == VarintLength(s)
  {
    if s[0] >= 128 {
      VarintLengthStable(s[1..], more);
      assert (s + more)[1..] == s[1..] + more;
    }
  }

  lemma DecVarintStable(s: seq<byte>, more: seq<byte>)
    requires DecVarint(s).Some?
    ensures DecVarint(s + more) == Some((DecVarint(s).value.0, DecVarint(s).value.1 + more))
  {
    VarintLengthStable(s, more);
    var n := VarintLength(s).value;
    assert (s + more)[..n] == s[..n] && (s + more)[n..] == s[n..] + more;
  }

  // ----- varints read as 32-bit words

  /**
   * The rest of a varint from bit position bitpos on. Past 32 bits a group must be zero, or continue the
   * sign of a negative number; the bit position is an 8-bit counter.
   */
  function DecVarint32From(s: seq<byte>, bitpos: nat, result: nat): (r: Option<(nat, seq<byte>)>)
    ensures r.Some? ==> |r.value.1| < |s|
    decreases |s|
  {
    if s == [] then None
    else
      var b := s[0];
      var signExtension := if bitpos < 63 then 0xFF else 0x01;
      if bitpos >= 32 && b % 128 != 0 && (result < 0x8000_0000 || b != signExtension) then None
      else
        var result' := if bitpos >= 32 then result else OrShifted(result, b % 128, bitpos, 32);
        var bitpos' := (bitpos + 7) % 256;
        if b >= 128 then DecVarint32From(s[1..], bitpos', result')
        else if bitpos' == 35 && b / 16 % 8 != 0 then None
        else Some((result', s[1..]))
  }

  function DecVarint32(s: seq<byte>): (r: Option<(nat, seq<byte>)>)
    ensures r.Some? ==> |r.value.1| < |s|
  {
    if s == [] then None
    else if s[0] < 128 then Some((s[0], s[1..]))
    else DecVarint32From(s[1..], 7, s[0] % 128)
  }

  lemma {:induction false} DecVarint32FromStable(s: seq<byte>, bitpos: nat, result: nat, more: seq<byte>)
    requires DecVarint32From(s, bitpos, result).Some?
    ensures var r := DecVarint32From(s, bitpos, result).value;
            DecVarint32From(s + more, bitpos, result) == Some((r.0, r.1 + more))
    decreases |s|
  {
    assert (s + more)[1..] == s[1..] + more;
    if s[0] >= 128 {
      var result' := if bitpos >= 32 then result else OrShifted(result, s[0] % 128, bitpos, 32);
      DecVarint32FromStable(s[1..], (bitpos + 7) % 256, result', more);
    }
  }

  lemma DecVarint32Stable(s: seq<byte>, more: seq<byte>)
    requires DecVarint32(s).Some?
    ensures DecVarint32(s + more) == Some((DecVarint32(s).value.0, DecVarint32(s).value.1 + more))
  {
    assert (s + more)[1..] == s[1..] + more;
    if s[0] >= 128 {
      DecVarint32FromStable(s[1..], 7, s[0] % 128, more);
    }
  }

  /** The bytes of a number of more than one byte. */
  lemma EncVarintUnfold(v: nat, rest: seq<byte>)
    ensures var s := EncVarint(v) + rest;
            && s != [] && s[0] % 128 == v % 128
            && (v < 128 ==> s[0] == v && s[1..] == rest)
            && (v >= 128 ==> s[0] == v % 128 + 128 && s[1..] == EncVarint(v / 128) + rest)
  {
    if v >= 128 {
      var first, tail := v % 128 + 128, EncVarint(v / 128);
      assert EncVarint(v) == [first] + tail && first % 128 == v % 128;
      hide EncVarint;
      assert [first] + tail + rest == [first] + (tail + rest);
    }
  }

  /** Putting a group above what has been read, if it fits the word. */
  lemma PutGroup(low: nat, x: nat, k: nat)
    requires low < Pow2(7 * k) && low + x * Pow2(7 * k) < TWO32
    ensures OrShifted(low, x, 7 * k, 32) == low + x * Pow2(7 * k)
  {
    hide Or, OrShifted, Truncate;
    Pow2Values();
    OrShiftedAdds(low, x, 7 * k, 32);
    TruncateSmall(low + x * Pow2(7 * k), 32);
  }

  /** One continued group of the first four is read. */
  lemma ReadsGroup(v: nat, k: nat, low: nat, rest: seq<byte>)
    requires 1 <= k <= 3 && low < Pow2(7 * k) && v >= 128
    ensures low + v % 128 * Pow2(7 * k) < Pow2(7 * (k + 1)) == 128 * Pow2(7 * k)
    ensures DecVarint32From(EncVarint(v) + rest, 7 * k, low) ==
            DecVarint32From(EncVarint(v / 128) + rest, 7 * (k + 1), low + v % 128 * Pow2(7 * k))
  {
    hide Or, OrShifted, Truncate, EncVarint, Pow2;
    EncVarintUnfold(v, rest);
    GroupPowers(k);
    var p := Pow2(7 * k);
    GroupBound(low, v % 128, p);
    PutGroup(low, v % 128, k);
    var s := EncVarint(v) + rest;
    assert DecVarint32From(s, 7 * k, low) == DecVarint32From(s[1..], 7 * k + 7, OrShifted(low, s[0] % 128, 7 * k, 32));
  }

  lemma GroupValues()
    ensures Pow2(7) == 0x80 && Pow2(14) == 0x4000 && Pow2(21) == 0x20_0000 && Pow2(28) == 0x1000_0000
  {
  }

  lemma GroupPowers(k: nat)
    requires 1 <= k <= 3
    ensures Pow2(7 * (k + 1)) == 128 * Pow2(7 * k) <= 0x1000_0000
  {
    hide Pow2;
    GroupValues();
  }

  lemma MulMonotone(a: nat, b: nat, p: nat)
    requires a <= b
    ensures a * p <= b * p
  {
  }

  lemma GroupBound(low: nat, x: nat, p: nat)
    requires low < p && x < 128
    ensures low + x * p < 128 * p
  {
  }

  lemma SplitGroup(v: nat, p: nat)
    ensures v * p == v % 128 * p + v / 128 * (128 * p)
  {
  }

  /** The last group is read, if the number it completes fits 32 bits. */
  lemma ReadsLast(v: nat, k: nat, low: nat, rest: seq<byte>)
    requires 1 <= k <= 4 && low < Pow2(7 * k) && low + v * Pow2(7 * k) < TWO32 && v < 128
    ensures DecVarint32From(EncVarint(v) + rest, 7 * k, low) == Some((low + v * Pow2(7 * k), rest))
  {
    hide Or, OrShifted, Truncate, Pow2, EncVarint;
    EncVarintUnfold(v, rest);
    PutGroup(low, v, k);
    if k == 4 && v >= 16 {
      GroupValues();
      MulMonotone(16, v, Pow2(28));
      assert false;
    }
  }

  /** A number below 2^32, of which low has been read, is read to its end. */
  lemma {:induction false} ReadsRest(v: nat, k: nat, low: nat, rest: seq<byte>)
    requires 1 <= k <= 4 && low < Pow2(7 * k) && low + v * Pow2(7 * k) < TWO32
    ensures DecVarint32From(EncVarint(v) + rest, 7 * k, low) == Some((low + v * Pow2(7 * k), rest))
    decreases 5 - k
  {
    hide Or, OrShifted, Truncate, Pow2, EncVarint, DecVarint32From;
    var p := Pow2(7 * k);
    if v < 128 {
      ReadsLast(v, k, low, rest);
    } else if k == 4 {
      GroupValues();
      MulMonotone(128, v, p);
      assert false;
    } else {
      ReadsGroup(v, k, low, rest);
      SplitGroup(v, p);
      ReadsRest(v / 128, k + 1, low + v % 128 * p, rest);
    }
  }

  /** The 32-bit reader returns every word below 2^32. */
  lemma Varint32RoundTrip(v: nat, rest: seq<byte>)
    requires v < TWO32
    ensures DecVarint32(EncVarint(v) + rest) == Some((v, rest))
  {
    hide Or, OrShifted, Truncate, Pow2, EncVarint, DecVarint32From;
    EncVarintUnfold(v, rest);
    if v >= 128 {
      Pow2Values();
      ReadsRest(v / 128, 1, v % 128, rest);
    }
  }

  /** The last five bytes of a sign-extended negative number change nothing. */
  lemma SignBytes(rest: seq<byte>, result: nat)
    requires 0x8000_0000 <= result < TWO32
    ensures DecVarint32From([0xFF, 0xFF, 0xFF, 0xFF, 0x01] + rest, 35, result) == Some((result, rest))
  {
    hide OrShifted;
    var s := [0xFF, 0xFF, 0xFF, 0xFF, 0x01] + rest;
    assert s[1..][1..] == s[2..] && s[2..][1..] == s[3..] && s[3..][1..] == s[4..] && s[4..][1..] == rest;
    assert DecVarint32From(s[4..], 63, result) == Some((result, rest));
    assert DecVarint32From(s[3..], 56, result) == Some((result, rest));
    assert DecVarint32From(s[2..], 49, result) == Some((result, rest));
    assert DecVarint32From(s[1..], 42, result) == Some((result, rest));
  }

  lemma SignBytesEncoded()
    ensures EncVarint(0x1FFF_FFFF) == [0xFF, 0xFF, 0xFF, 0xFF, 0x01]
  {
    assert EncVarint(0x3FFF) == [0xFF, 0x7F];
    assert EncVarint(1) == [1] && EncVarint(0xFF) == [0xFF] + EncVarint(1);
    assert EncVarint(0x7FFF) == [0xFF] + EncVarint(0xFF);
    assert EncVarint(0x3F_FFFF) == [0xFF] + EncVarint(0x7FFF);
    assert EncVarint(0x1FFF_FFFF) == [0xFF] + EncVarint(0x3F_FFFF);
  }

  /** The fifth group of a sign-extended number completes the low word. */
  lemma ReadsSign(low: nat, top: nat, rest: seq<byte>)
    requires low < Pow2(28) && 8 <= top < 16
    ensures DecVarint32From(EncVarint(top + 16 * 0xFFFF_FFFF) + rest, 28, low) == Some((low + top * 0x1000_0000, rest))
  {
    hide Or, Truncate, Pow2, EncVarint;
    var v := top + 16 * 0xFFFF_FFFF;
    Pow2Values();
    assert v % 128 == top + 112 && v / 128 == 0x1FFF_FFFF;
    EncVarintUnfold(v, rest);
    OrShiftedAdds(low, top + 112, 28, 32);
    TruncateUnique(low + top * 0x1000_0000, 7, 32);
    SignBytesEncoded();
    SignBytes(rest, low + top * 0x1000_0000);
  }

  /** Splitting off seven bits after fourteen, and so on. */
  lemma SecondDigit(v: nat)
    ensures v % 0x4000 == v % 0x80 + v / 0x80 % 0x80 * 0x80 && v / 0x80 / 0x80 == v / 0x4000
  {
  }

  lemma ThirdDigit(v: nat)
    ensures v % 0x20_0000 == v % 0x4000 + v / 0x4000 % 0x80 * 0x4000 && v / 0x4000 / 0x80 == v / 0x20_0000
  {
  }

  lemma FourthDigit(v: nat)
    ensures v % 0x1000_0000 == v % 0x20_0000 + v / 0x20_0000 % 0x80 * 0x20_0000
    ensures v / 0x20_0000 / 0x80 == v / 0x1000_0000
  {
  }

  /** The first four groups of a longer number are its low 28 bits. */
  lemma ReadsFour(v: nat, rest: seq<byte>)
    requires v >= 0x1000_0000
    ensures DecVarint32(EncVarint(v) + rest) ==
            DecVarint32From(EncVarint(v / 0x1000_0000) + rest, 28, v % 0x1000_0000)
  {
    hide Or, OrShifted, Truncate, Pow2, EncVarint, DecVarint32From;
    GroupValues();
    SecondDigit(v);
    ThirdDigit(v);
    FourthDigit(v);
    EncVarintUnfold(v, rest);
    ReadsGroup(v / 0x80, 1, v % 0x80, rest);
    ReadsGroup(v / 0x4000, 2, v % 0x4000, rest);
    ReadsGroup(v / 0x20_0000, 3, v % 0x20_0000, rest);
  }

  /** A negative 32-bit number, sign-extended to 64 bits as it is written, is read as its low word. */
  lemma Varint32SignExtended(n: int, rest: seq<byte>)
    requires -0x8000_0000 <= n < 0
    ensures DecVarint32(EncVarint(TWO64 + n) + rest) == Some((TWO32 + n, rest))
  {
    hide Or, OrShifted, Truncate, Pow2, EncVarint, DecVarint32, DecVarint32From;
    GroupValues();
    var u, v := TWO32 + n, TWO64 + n;
    ReadsFour(v, rest);
    assert v == u + 0x1000_0000 * (16 * 0xFFFF_FFFF);
    assert v % 0x1000_0000 == u % 0x1000_0000 && v / 0x1000_0000 == u / 0x1000_0000 + 16 * 0xFFFF_FFFF;
    ReadsSign(u % 0x1000_0000, u / 0x1000_0000, rest);
  }

  // ----- zig-zag

  /** A 64-bit word read as a signed number, and a signed number as a word. */
  function Signed64(w: nat): int {
    if w < TWO63 then w else w - TWO64
  }

  function Word64(n: int): nat
    requires -TWO63 <= n < TWO64
  {
    if n < 0 then n + TWO64 else n
  }

  /** (n << 1), complemented if n is negative. */
  function ZigZag(n: int): nat
    requires -TWO63 <= n < TWO63
  {
    var shifted := 2 * Word64(n) % 0x1_0000_0000_0000_0000;
    if n < 0 then TWO64 - 1 - shifted else shifted
  }

  function UnZigZag(z: nat): int
    requires z < TWO64
  {
    if z % 2 == 1 then Signed64(TWO64 - 1 - z / 2) else Signed64(z / 2)
  }

  /** Every 64-bit signed number survives, and numbers near zero, of either sign, give small words. */
  lemma ZigZagRoundTrip(n: int)
    requires -TWO63 <= n < TWO63
    ensures ZigZag(n) == if n < 0 then -2 * n - 1 else 2 * n
    ensures ZigZag(n) < TWO64 && UnZigZag(ZigZag(n)) == n
  {
  }

  // ----- fixed-width integers

  function ToLittleEndian(n: nat, len: nat): (s: seq<byte>)
    ensures |s| == len
  {
    if len == 0 then [] else [n % 256] + ToLittleEndian(n / 256, len - 1)
  }

  function LittleEndian(s: seq<byte>): (n: nat)
    ensures n < Pow256(|s|)
  {
    if s == [] then 0 else s[0] + 256 * LittleEndian(s[1..])
  }

  lemma {:induction false} FixedRoundTrip(n: nat, len: nat)
    requires n < Pow256(len)
    ensures LittleEndian(ToLittleEndian(n, len)) == n
  {
    if len > 0 {
      FixedRoundTrip(n / 256, len - 1);
      assert ToLittleEndian(n, len)[1..] == ToLittleEndian(n / 256, len - 1);
    }
  }
}
