/** Byte strings as big-endian numbers and as strings of bits, most significant bit first. */
module Bytes {
  import opened Powers

  type Byte = x: nat | x < 256

  function BytesValue(s: seq<Byte>): nat {
    if s == [] then 0 else BytesValue(s[..|s| - 1]) * 256 + s[|s| - 1]
  }

  /** Bit `k` of the string. */
  function Bit(p: seq<Byte>, k: nat): (b: nat)
    ensures b < 2
  {
    if k < 8 * |p| then Shr(p[k / 8], 7 - k % 8) % 2 else 0
  }

  /** The lowest `n` bits of `v`. */
  function Low(v: nat, n: nat): nat {
    if n == 0 then 0 else 2 * Low(v / 2, n - 1) + v % 2
  }

  /** `v` without its lowest `n` bits. */
  function High(v: nat, n: nat): nat {
    if n == 0 then v else High(v / 2, n - 1)
  }

  lemma {:induction false} HighLow(v: nat, n: nat)
    ensures v == High(v, n) * Pow2(n) + Low(v, n) && Low(v, n) < Pow2(n)
  {
    if n > 0 {
      HighLow(v / 2, n - 1);
      Twice(High(v, n), Pow2(n - 1));
    }
  }

  lemma {:induction false} LowIsRemainder(v: nat, n: nat)
    ensures Low(v, n) == v % Pow2(n) && High(v, n) == v / Pow2(n)
  {
    HighLow(v, n);
    DivModUnique(v, Pow2(n), High(v, n), Low(v, n));
  }

  lemma {:induction false} LowLow(v: nat, n: nat, m: nat)
    requires n <= m
    ensures Low(Low(v, m), n) == Low(v, n)
  {
    if n > 0 {
      LowLow(v / 2, n - 1, m - 1);
    }
  }

  /** `v` with `n` zero bits behind it. */
  function Up(v: nat, n: nat): nat {
    if n == 0 then v else 2 * Up(v, n - 1)
  }

  lemma {:induction false} UpIsProduct(v: nat, n: nat)
    ensures Up(v, n) == v * Pow2(n)
  {
    if n > 0 {
      UpIsProduct(v, n - 1);
      Twice(v, Pow2(n - 1));
    }
  }

  /** `x >> r` and `x << r`, the latter kept to eight bits. */
  function Shr(x: Byte, r: nat): Byte {
    if r == 0 then x else Shr(x / 2, r - 1)
  }

  function Shl(x: Byte, r: nat): Byte
    decreases r
  {
    if r == 0 then x else Shl(2 * x % 256, r - 1)
  }

  lemma {:induction false} ShrIsHigh(x: Byte, r: nat)
    ensures Shr(x, r) == High(x, r)
  {
    if r > 0 {
      ShrIsHigh(x / 2, r - 1);
    }
  }

  /** What a left shift keeps. */
  lemma {:induction false} ShlIsLow(x: Byte, r: nat)
    requires r <= 8
    ensures Shl(x, r) == Low(x, 8 - r) * Pow2(r)
    decreases r
  {
    if r == 0 {
      SmallLow(x, 8);
    } else {
      ShlIsLow(2 * x % 256, r - 1);
      LowTwice(x, 8 - r);
      Doubled(Shl(x, r), Low(x, 8 - r), Low(2 * x % 256, 8 - (r - 1)), Pow2(r), Pow2(r - 1));
    }
  }

  lemma {:induction false} Doubled(s: int, lo: int, lo': int, p: int, p': int)
    requires s == lo' * p' && lo' == 2 * lo && p == 2 * p'
    ensures s == lo * p
  {
  }

  /** It leaves room for the `r` bits shifted in. */
  lemma {:induction false} ShlRoom(x: Byte, r: nat)
    requires r <= 8
    ensures Shl(x, r) <= 256 - Pow2(r)
  {
    ShlIsLow(x, r);
    LowBound(x, 8 - r);
    BytePowers(r);
    TimesBelow(Low(x, 8 - r), Pow2(8 - r), Pow2(r));
  }

  lemma {:induction false} TimesBelow(x: int, h: int, d: int)
    requires x < h && d >= 0
    ensures x * d <= h * d - d
  {
    MulAtMost(x, h - 1, d);
    Distribute(h, 1, d);
  }

  lemma {:induction false} BytePowers(r: nat)
    requires r <= 8
    ensures Pow2(8 - r) * Pow2(r) == 256
  {
    Pow2Add(8 - r, r);
    assert Pow2(8) == 256;
  }

  lemma {:induction false} LowTwice(x: Byte, n: nat)
    requires n <= 7
    ensures Low(2 * x % 256, n + 1) == 2 * Low(x, n)
  {
    assert 2 * x % 256 / 2 == x % 128;
    LowModulo(x, n, 7);
    assert Pow2(7) == 128;
  }

  lemma {:induction false} LowModulo(x: nat, n: nat, m: nat)
    requires n <= m
    ensures Low(x % Pow2(m), n) == Low(x, n)
  {
    if n > 0 {
      LowIsRemainder(x, m);
      assert x % Pow2(m) == 2 * Low(x / 2, m - 1) + x % 2;
      LowIsRemainder(x / 2, m - 1);
      LowModulo(x / 2, n - 1, m - 1);
    }
  }

  lemma {:induction false} SmallLow(v: nat, n: nat)
    requires v < Pow2(n)
    ensures Low(v, n) == v && High(v, n) == 0
  {
    if n > 0 {
      SmallLow(v / 2, n - 1);
    }
  }

  lemma {:induction false} LowBound(v: nat, n: nat)
    ensures Low(v, n) < Pow2(n)
  {
    if n > 0 {
      LowBound(v / 2, n - 1);
    }
  }

  /** The number in the `len` bits `f(b)`, `f(b + 1)` and so on. */
  function Number(f: nat -> nat, b: nat, len: nat): nat {
    if len == 0 then 0 else 2 * Number(f, b, len - 1) + f(b + len - 1)
  }

  lemma {:induction false} Twice(a: int, p: int)
    ensures 2 * (a * p) == a * (2 * p)
  {
  }

  lemma {:induction false} NumberSplit(f: nat -> nat, b: nat, m: nat, n: nat)
    ensures Number(f, b, m + n) == Number(f, b, m) * Pow2(n) + Number(f, b + m, n)
  {
    if n > 0 {
      NumberSplit(f, b, m, n - 1);
      Twice(Number(f, b, m), Pow2(n - 1));
      assert Number(f, b, m + n) == 2 * Number(f, b, m + (n - 1)) + f(b + m + n - 1);
    }
  }

  lemma {:induction false} NumberSame(f: nat -> nat, g: nat -> nat, b: nat, len: nat)
    requires forall k :: b <= k < b + len ==> f(k) == g(k)
    ensures Number(f, b, len) == Number(g, b, len)
  {
    if len > 0 {
      NumberSame(f, g, b, len - 1);
    }
  }

  lemma {:induction false} NumberDetermines(f: nat -> nat, g: nat -> nat, b: nat, len: nat)
    requires forall k :: f(k) < 2
    requires forall k :: g(k) < 2
    requires Number(f, b, len) == Number(g, b, len)
    ensures forall k :: b <= k < b + len ==> f(k) == g(k)
  {
    if len > 0 {
      var last := b + len - 1;
      assert Number(f, b, len) % 2 == f(last);
      assert Number(g, b, len) % 2 == g(last);
      NumberDetermines(f, g, b, len - 1);
    }
  }

  lemma {:induction false} NumberBound(f: nat -> nat, b: nat, len: nat)
    requires forall k :: f(k) < 2
    ensures Number(f, b, len) < Pow2(len)
  {
    if len > 0 {
      NumberBound(f, b, len - 1);
    }
  }

  function Bits(p: seq<Byte>): nat -> nat {
    k => Bit(p, k)
  }

  /** The number in the `len` bits from bit `b` on. */
  function FieldValue(p: seq<Byte>, b: nat, len: nat): nat {
    Number(Bits(p), b, len)
  }

  lemma {:induction false} FieldBound(p: seq<Byte>, b: nat, len: nat)
    ensures FieldValue(p, b, len) < Pow2(len)
  {
    NumberBound(Bits(p), b, len);
  }

  lemma {:induction false} FieldSplit(p: seq<Byte>, b: nat, m: nat, n: nat)
    ensures FieldValue(p, b, m + n) == FieldValue(p, b, m) * Pow2(n) + FieldValue(p, b + m, n)
  {
    NumberSplit(Bits(p), b, m, n);
  }

  /** A field's first bits and its last. */
  lemma {:induction false} FieldParts(p: seq<Byte>, b: nat, m: nat, n: nat)
    ensures FieldValue(p, b, m) == High(FieldValue(p, b, m + n), n)
    ensures FieldValue(p, b + m, n) == Low(FieldValue(p, b, m + n), n)
  {
    if n > 0 {
      FieldParts(p, b, m, n - 1);
      LastBit(p, b, m + n);
      LastBit(p, b + m, n);
    }
  }

  lemma {:induction false} LastBit(p: seq<Byte>, b: nat, len: nat)
    requires len > 0
    ensures FieldValue(p, b, len) / 2 == FieldValue(p, b, len - 1) && FieldValue(p, b, len) % 2 == Bit(p, b + len - 1)
    ensures FieldValue(p, b, len) == 2 * FieldValue(p, b, len - 1) + Bit(p, b + len - 1)
  {
  }

  /** A field is the number its bits make, and nothing else. */
  lemma {:induction false} SameFieldSameBits(p: seq<Byte>, q: seq<Byte>, b: nat, len: nat)
    ensures FieldValue(p, b, len) == FieldValue(q, b, len) <==> forall k :: b <= k < b + len ==> Bit(p, k) == Bit(q, k)
  {
    var f, g := Bits(p), Bits(q);
    assert forall k :: f(k) == Bit(p, k) && g(k) == Bit(q, k);
    if forall k :: b <= k < b + len ==> Bit(p, k) == Bit(q, k) {
      NumberSame(f, g, b, len);
    }
    if FieldValue(p, b, len) == FieldValue(q, b, len) {
      NumberDetermines(f, g, b, len);
      forall k | b <= k < b + len
        ensures Bit(p, k) == Bit(q, k)
      {
        assert f(k) == g(k);
      }
    }
  }

  lemma {:induction false} FieldInByte(p: seq<Byte>, i: nat, j: nat)
    requires i < |p| && j <= 8
    ensures FieldValue(p, 8 * i, j) == Shr(p[i], 8 - j)
  {
    if j == 0 {
      SmallShr(p[i], 8);
    } else {
      FieldInByte(p, i, j - 1);
      LastBit(p, 8 * i, j);
      var k := 8 * i + j - 1;
      assert k / 8 == i && k % 8 == j - 1;
      ShrOnce(p[i], 8 - j);
    }
  }

  lemma {:induction false} SmallShr(x: Byte, r: nat)
    requires x < Pow2(r)
    ensures Shr(x, r) == 0
  {
    ShrIsHigh(x, r);
    SmallLow(x, r);
  }

  lemma {:induction false} ShrOnce(x: Byte, r: nat)
    ensures Shr(x, r + 1) == Shr(x, r) / 2
  {
    if r > 0 {
      ShrOnce(x / 2, r - 1);
    }
  }

  lemma {:induction false} WholeByte(p: seq<Byte>, i: nat)
    requires i < |p|
    ensures FieldValue(p, 8 * i, 8) == p[i]
  {
    FieldInByte(p, i, 8);
  }

  /** The low bits of a byte are the last field in it. */
  lemma {:induction false} LowBits(p: seq<Byte>, i: nat, r: nat)
    requires i < |p| && r <= 8
    ensures FieldValue(p, 8 * i + 8 - r, r) == Low(p[i], r)
  {
    FieldParts(p, 8 * i, 8 - r, r);
    WholeByte(p, i);
  }

  /** Whole bytes make the same number either way. */
  lemma {:induction false} FieldOfBytes(p: seq<Byte>, i: nat, n: nat)
    requires i + n <= |p|
    ensures FieldValue(p, 8 * i, 8 * n) == BytesValue(p[i..i + n])
  {
    if n > 0 {
      var m, k := 8 * (n - 1), i + n - 1;
      FieldOfBytes(p, i, n - 1);
      FieldSplit(p, 8 * i, m, 8);
      WholeByte(p, k);
      assert 8 * i + m == 8 * k && m + 8 == 8 * n && Pow2(8) == 256;
      LastByte(p[i..i + n], p[i..k], p[k]);
    }
  }

  lemma {:induction false} LastByte(s: seq<Byte>, front: seq<Byte>, x: Byte)
    requires s == front + [x]
    ensures BytesValue(s) == BytesValue(front) * 256 + x
  {
    assert s[..|s| - 1] == front;
  }

  function Pow256(n: nat): (r: nat)
    ensures r > 0
  {
    if n == 0 then 1 else 256 * Pow256(n - 1)
  }

  lemma {:induction false} Pow256IsPow2(n: nat)
    ensures Pow256(n) == Pow2(8 * n)
  {
    if n > 0 {
      Pow256IsPow2(n - 1);
      Pow2Add(8, 8 * (n - 1));
      assert Pow2(8) == 256;
    }
  }

  lemma {:induction false} BytesBound(s: seq<Byte>)
    ensures BytesValue(s) < Pow256(|s|)
  {
    if s != [] {
      BytesBound(s[..|s| - 1]);
    }
  }

  lemma {:induction false} BytesConcat(s: seq<Byte>, t: seq<Byte>)
    ensures BytesValue(s + t) == BytesValue(s) * Pow256(|t|) + BytesValue(t)
    decreases |t|
  {
    if |t| == 0 {
      assert s + t == s;
      assert BytesValue(t) == 0;
    } else {
      var front, x := t[..|t| - 1], t[|t| - 1];
      BytesConcat(s, front);
      LastByte(s + t, s + front, x);
      MulAssoc(BytesValue(s), Pow256(|front|), 256);
    }
  }

  lemma {:induction false} BitOfSlice(p: seq<Byte>, i: nat, s: seq<Byte>, k: nat)
    requires i + |s| <= |p| && p[i..i + |s|] == s && k < 8 * |s|
    ensures Bit(p, 8 * i + k) == Bit(s, k)
  {
    var j := k / 8;
    assert (8 * i + k) / 8 == i + j && (8 * i + k) % 8 == k % 8;
    assert p[i + j] == p[i..i + |s|][j];
  }

  /** A field inside a slice. */
  lemma {:induction false} FieldOfSlice(p: seq<Byte>, i: nat, s: seq<Byte>, b: nat, len: nat)
    requires i + |s| <= |p| && p[i..i + |s|] == s && b + len <= 8 * |s|
    ensures FieldValue(p, 8 * i + b, len) == FieldValue(s, b, len)
  {
    if len > 0 {
      FieldOfSlice(p, i, s, b, len - 1);
      BitOfSlice(p, i, s, b + len - 1);
      LastBit(p, 8 * i + b, len);
      LastBit(s, b, len);
    }
  }

  /** The lowest `n` bytes of a number. */
  function ToBytes(v: nat, n: nat): (s: seq<Byte>)
    ensures |s| == n
  {
    if n == 0 then [] else ToBytes(v / 256, n - 1) + [v % 256]
  }

  lemma {:induction false} ToBytesValue(v: nat, n: nat)
    requires v < Pow256(n)
    ensures BytesValue(ToBytes(v, n)) == v
  {
    if n > 0 {
      ToBytesValue(v / 256, n - 1);
      LastByte(ToBytes(v, n), ToBytes(v / 256, n - 1), v % 256);
    }
  }

  lemma {:induction false} ZerosValue(s: seq<Byte>)
    requires forall i :: 0 <= i < |s| ==> s[i] == 0
    ensures BytesValue(s) == 0
  {
    if s != [] {
      ZerosValue(s[..|s| - 1]);
    }
  }
}
