/** Bytes, options and big-endian integers shared by the models. */
module Wire {

  type byte = x: int | 0 <= x < 256

  datatype Option<+T> = None | Some(value: T)

  function Pow256(n: nat): (p: nat)
    ensures p >= 1
  {
    if n == 0 then 1 else 256 * Pow256(n - 1)
  }

  /** The unsigned integer whose big-endian representation is s. */
  function BigEndian(s: seq<byte>): (n: nat)
    ensures n < Pow256(|s|)
  {
    if s == [] then 0 else 256 * BigEndian(s[..|s| - 1]) + s[|s| - 1]
  }

  /** The low len bytes of n, most significant first. */
  function ToBigEndian(n: nat, len: nat): (s: seq<byte>)
    ensures |s| == len
  {
    if len == 0 then [] else ToBigEndian(n / 256, len - 1) + [n % 256]
  }

  lemma {:induction false} BigEndianRoundTrip(n: nat, len: nat)
    requires n < Pow256(len)
    ensures BigEndian(ToBigEndian(n, len)) == n
  {
    if len > 0 {
      BigEndianRoundTrip(n / 256, len - 1);
      var s := ToBigEndian(n, len);
      assert s[..|s| - 1] == ToBigEndian(n / 256, len - 1);
    }
  }

  lemma {:induction false} ToBigEndianRoundTrip(s: seq<byte>)
    ensures ToBigEndian(BigEndian(s), |s|) == s
  {
    hide BigEndian, ToBigEndian;
    if s == [] {
      assert |ToBigEndian(BigEndian(s), 0)| == 0;
    } else {
      ToBigEndianRoundTrip(s[..|s| - 1]);
      LastByte(s);
      assert s == s[..|s| - 1] + [s[|s| - 1]];
    }
  }

  lemma LastByte(s: seq<byte>)
    requires s != []
    ensures ToBigEndian(BigEndian(s), |s|) == ToBigEndian(BigEndian(s[..|s| - 1]), |s| - 1) + [s[|s| - 1]]
  {
    hide Pow256, ToBigEndian;
    LastDigit(BigEndian(s[..|s| - 1]), s[|s| - 1], |s|);
  }

  lemma LastDigit(n: nat, b: byte, len: nat)
    requires len > 0
    ensures ToBigEndian(256 * n + b, len) == ToBigEndian(n, len - 1) + [b]
  {
    assert (256 * n + b) / 256 == n && (256 * n + b) % 256 == b;
  }

  lemma {:induction false} BigEndianInjective(s: seq<byte>, t: seq<byte>)
    requires |s| == |t| && BigEndian(s) == BigEndian(t)
    ensures s == t
  {
    if s != [] {
      BigEndianInjective(s[..|s| - 1], t[..|t| - 1]);
      assert s == s[..|s| - 1] + [s[|s| - 1]];
      assert t == t[..|t| - 1] + [t[|t| - 1]];
    }
  }

  /** No element of s occurs twice. */
  ghost predicate Distinct<T>(s: seq<T>) {
    forall i, j :: 0 <= i < j < |s| ==> s[i] != s[j]
  }

  /** The concatenation of the elements of ss. */
  function Flatten<T>(ss: seq<seq<T>>): seq<T> {
    if ss == [] then [] else Flatten(ss[..|ss| - 1]) + ss[|ss| - 1]
  }

  function Zeros(n: nat): (s: seq<byte>)
    ensures |s| == n
  {
    seq(n, _ => 0)
  }
}

/** Single bits of unsigned machine words, given as natural numbers. */
module Bits {

  predicate Bit(b: nat, i: nat) {
    if i == 0 then b % 2 == 1 else Bit(b / 2, i - 1)
  }

  /** b | (1 << j) */
  function SetBit(b: nat, j: nat): nat {
    if j == 0 then b + 1 - b % 2 else b % 2 + 2 * SetBit(b / 2, j - 1)
  }

  /** The low m bits of b. */
  function Truncate(b: nat, m: nat): nat {
    if m == 0 then 0 else b % 2 + 2 * Truncate(b / 2, m - 1)
  }

  /** b << k on 64-bit words, one place at a time. */
  function ShiftLeft64(b: nat, k: nat): nat {
    if k == 0 then b else Truncate(2 * ShiftLeft64(b, k - 1), 64)
  }

  lemma {:induction false} SetBitBit(b: nat, j: nat, i: nat)
    ensures Bit(SetBit(b, j), i) <==> i == j || Bit(b, i)
  {
    if i > 0 && j > 0 {
      SetBitBit(b / 2, j - 1, i - 1);
    }
  }

  lemma {:induction false} ZeroBit(i: nat)
    ensures !Bit(0, i)
  {
    if i > 0 {
      ZeroBit(i - 1);
    }
  }

  lemma {:induction false} LowBits(b: nat, m: nat, i: nat)
    requires i < m
    ensures Bit(Truncate(b, m), i) <==> Bit(b, i)
  {
    if i > 0 {
      LowBits(b / 2, m - 1, i - 1);
    }
  }

  lemma {:induction false} ShiftLeftBit(b: nat, k: nat, i: nat)
    requires i < 64
    ensures Bit(ShiftLeft64(b, k), i) <==> i >= k && Bit(b, i - k)
  {
    if k > 0 {
      var prev := ShiftLeft64(b, k - 1);
      LowBits(2 * prev, 64, i);
      if i > 0 {
        ShiftLeftBit(b, k - 1, i - 1);
      }
    }
  }

  function Pow2(n: nat): (p: nat)
    ensures p >= 1
  {
    if n == 0 then 1 else 2 * Pow2(n - 1)
  }

  /** The low n bits of a ^ b. */
  function Xor(a: nat, b: nat, n: nat): (x: nat)
    ensures x < Pow2(n)
  {
    if n == 0 then 0 else (if a % 2 == b % 2 then 0 else 1) + 2 * Xor(a / 2, b / 2, n - 1)
  }

  lemma {:induction false} XorInjective(a: nat, a': nat, b: nat, n: nat)
    requires a < Pow2(n) && a' < Pow2(n) && Xor(a, b, n) == Xor(a', b, n)
    ensures a == a'
  {
    if n > 0 {
      assert Xor(a, b, n) % 2 == 0 <==> a % 2 == b % 2;
      assert Xor(a', b, n) % 2 == 0 <==> a' % 2 == b % 2;
      XorInjective(a / 2, a' / 2, b / 2, n - 1);
    }
  }

  /** The low n bits of a | b. */
  function Or(a: nat, b: nat, n: nat): (x: nat)
    ensures x < Pow2(n)
  {
    if n == 0 then 0 else (if a % 2 == 1 || b % 2 == 1 then 1 else 0) + 2 * Or(a / 2, b / 2, n - 1)
  }

  /** The low n bits of a & b. */
  function And(a: nat, b: nat, n: nat): (x: nat)
    ensures x < Pow2(n)
  {
    if n == 0 then 0 else (if a % 2 == 1 && b % 2 == 1 then 1 else 0) + 2 * And(a / 2, b / 2, n - 1)
  }

  lemma {:induction false} OrAndBit(a: nat, b: nat, n: nat, i: nat)
    requires i < n
    ensures Bit(Or(a, b, n), i) <==> Bit(a, i) || Bit(b, i)
    ensures Bit(And(a, b, n), i) <==> Bit(a, i) && Bit(b, i)
  {
    assert Or(a, b, n) / 2 == Or(a / 2, b / 2, n - 1);
    assert And(a, b, n) / 2 == And(a / 2, b / 2, n - 1);
    if i > 0 {
      OrAndBit(a / 2, b / 2, n - 1, i - 1);
    }
  }

  lemma {:induction false} OnesBit(n: nat, i: nat)
    ensures Bit(Pow2(n) - 1, i) <==> i < n
  {
    if n == 0 {
      ZeroBit(i);
    } else {
      assert Pow2(n) - 1 == 2 * (Pow2(n - 1) - 1) + 1;
      if i > 0 {
        OnesBit(n - 1, i - 1);
      }
    }
  }

  lemma {:induction false} ComplementBit(x: nat, n: nat, i: nat)
    requires x < Pow2(n) && i < n
    ensures Bit(Pow2(n) - 1 - x, i) <==> !Bit(x, i)
  {
    var y := Pow2(n) - 1 - x;
    assert y / 2 == Pow2(n - 1) - 1 - x / 2 && y % 2 != x % 2;
    if i > 0 {
      ComplementBit(x / 2, n - 1, i - 1);
    }
  }

  /** Two n-bit words with the same bits are equal. */
  lemma {:induction false} SameBits(x: nat, y: nat, n: nat)
    requires x < Pow2(n) && y < Pow2(n)
    requires forall i :: 0 <= i < n ==> (Bit(x, i) <==> Bit(y, i))
    ensures x == y
  {
    if n > 0 {
      assert Bit(x, 0) <==> Bit(y, 0);
      forall i | 0 <= i < n - 1
        ensures Bit(x / 2, i) <==> Bit(y / 2, i)
      {
        assert Bit(x, i + 1) <==> Bit(y, i + 1);
      }
      SameBits(x / 2, y / 2, n - 1);
    }
  }
}

/** Byte buffers written in place. */
module Buffers {
  import opened Wire

  method CopyTo(dst: array<byte>, offset: nat, src: seq<byte>)
    requires offset + |src| <= dst.Length
    modifies dst
    ensures dst[..] == old(dst[..offset]) + src + old(dst[offset + |src|..])
  {
    for i := 0 to |src|
      invariant dst[..offset] == old(dst[..offset])
      invariant dst[offset..offset + i] == src[..i]
      invariant dst[offset + |src|..] == old(dst[offset + |src|..])
    {
      dst[offset + i] := src[i];
    }
  }
}
