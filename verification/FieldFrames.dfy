/** What a field write leaves alone. */
module FieldFrames {
  import opened Powers
  import opened Bytes
  import opened FieldWrite

  /** `q` has the bits of `p` outside bits `from` to `until`. */
  ghost predicate SameOutside(p: seq<Byte>, q: seq<Byte>, from: nat, until: nat) {
    |p| == |q| && forall k :: 0 <= k < from || k >= until ==> Bit(q, k) == Bit(p, k)
  }

  lemma {:induction false} SameByteSameBit(p: seq<Byte>, q: seq<Byte>, k: nat)
    requires |p| == |q| && (k / 8 < |p| ==> p[k / 8] == q[k / 8])
    ensures Bit(p, k) == Bit(q, k)
  {
  }

  ghost predicate SameWithin(p: seq<Byte>, q: seq<Byte>, from: nat, until: nat) {
    forall k :: from <= k < until ==> Bit(q, k) == Bit(p, k)
  }

  lemma {:induction false} OtherBytes(p: seq<Byte>, p': seq<Byte>, i: nat, last: nat)
    requires |p| == |p'| && forall k :: 0 <= k < |p| && (k < i || k >= last) ==> p'[k] == p[k]
    ensures SameOutside(p, p', 8 * i, 8 * last)
  {
    forall k: nat | k < 8 * i || k >= 8 * last
      ensures Bit(p', k) == Bit(p, k)
    {
      SameByteSameBit(p, p', k);
    }
  }

  lemma {:induction false} LowOfSum(a: nat, x: nat, n: nat)
    ensures Low(a + x, n) == Low(a + Low(x, n), n)
  {
    LowIsRemainder(a + x, n);
    LowIsRemainder(x, n);
    LowIsRemainder(a + Low(x, n), n);
    HighLow(x, n);
    SameRemainder(a + x, a + Low(x, n), High(x, n), Pow2(n));
  }

  lemma {:induction false} SameFront(a: nat, x: nat, n: nat)
    requires a < Pow2(n)
    ensures Low(a + x, n) == a <==> Low(x, n) == 0
  {
    var r := Low(x, n);
    LowOfSum(a, x, n);
    LowBound(x, n);
    if a + r < Pow2(n) {
      SmallLow(a + r, n);
    } else {
      LowIsRemainder(a + r, n);
      DivModUnique(a + r, Pow2(n), 1, a + r - Pow2(n));
    }
  }

  lemma {:induction false} FrontKept(p: seq<Byte>, p': seq<Byte>, b: nat, left: nat, x: nat)
    requires FieldValue(p', b, left) == Low(FieldValue(p, b, left) + x, left)
    ensures SameWithin(p, p', b, b + left) <==> Low(x, left) == 0
  {
    FieldBound(p, b, left);
    SameFront(FieldValue(p, b, left), x, left);
    SameFieldSameBits(p', p, b, left);
  }

  lemma {:induction false} BackKept(p: seq<Byte>, p': seq<Byte>, b: nat, right: nat)
    requires FieldValue(p', b, right) == FieldValue(p, b, right)
    ensures SameWithin(p, p', b, b + right)
  {
    SameFieldSameBits(p', p, b, right);
  }

  lemma {:induction false} OutsideTheField(p: seq<Byte>, p': seq<Byte>, from: nat, begin: nat, end: nat, until: nat)
    requires from <= begin <= end <= until && SameOutside(p, p', from, until) && SameWithin(p, p', end, until)
    ensures SameOutside(p, p', begin, end) <==> SameWithin(p, p', from, begin)
  {
  }

  /** Exactly the field's bits change, if and only if what of the value runs over the field leaves the bits
      before it in the same byte alone. */
  lemma {:induction false} FrameHolds(p: seq<Byte>, p': seq<Byte>, i: nat, n: nat, left: nat, len: nat, right: nat,
                                      v: nat)
    requires WrittenAt(p, p', i, left, len, right, v) && left + len + right == 8 * n
    ensures SameOutside(p, p', 8 * i + left, 8 * i + left + len) <==> Low(High(v, len), left) == 0
  {
    var begin := 8 * i + left;
    var end := begin + len;
    OtherBytes(p, p', i, i + n);
    FrontKept(p, p', 8 * i, left, High(v, len));
    assert FieldValue(p', end, right) == FieldValue(p, end, right);
    BackKept(p, p', end, right);
    OutsideTheField(p, p', 8 * i, begin, end, 8 * (i + n));
  }

  /** The same about the write of a field given by its first bit. */
  lemma {:induction false} WriteFrame(p: seq<Byte>, p': seq<Byte>, begin: nat, len: nat, v: nat)
    requires Written(p, p', begin, len, v) && len >= 1
    ensures SameOutside(p, p', begin, begin + len) <==> Low(High(v, len), begin % 8) == 0
  {
    assert 8 * (begin / 8) + begin % 8 == begin;
    FrameHolds(p, p', begin / 8, (begin + len - 1) / 8 - begin / 8 + 1, begin % 8, len, After(begin, len), v);
  }

  /** A value the field can hold changes its bits only. */
  lemma {:induction false} SmallValueFrame(p: seq<Byte>, p': seq<Byte>, begin: nat, len: nat, v: nat)
    requires Written(p, p', begin, len, v) && len >= 1 && v < Pow2(len)
    ensures SameOutside(p, p', begin, begin + len) && FieldValue(p', begin, len) == v
  {
    assert 8 * (begin / 8) + begin % 8 == begin;
    SmallLow(v, len);
    SmallLow(0, begin % 8);
    WriteFrame(p, p', begin, len, v);
  }

  lemma {:induction false} OutsideFieldKept(p: seq<Byte>, q: seq<Byte>, from: nat, until: nat, b: nat, len: nat)
    requires SameOutside(p, q, from, until) && (b + len <= from || b >= until)
    ensures FieldValue(q, b, len) == FieldValue(p, b, len)
  {
    SameFieldSameBits(q, p, b, len);
  }
}
