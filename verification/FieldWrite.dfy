/** sw-src/dataplane/executor.h, `modify_field_with_data`: writing a value into a field at any bit
    offset of the packet. */
module FieldWrite {
  import opened Powers
  import opened Bytes

  // ----- bitwise and with the masks the write uses

  /** `x & y` on the lowest `n` bits. */
  function And(x: nat, y: nat, n: nat): nat
    decreases n, x
  {
    if n == 0 then 0 else 2 * And(x / 2, y / 2, n - 1) + (x % 2) * (y % 2)
  }

  lemma {:induction false} AndAllOnes(x: nat, n: nat)
    requires x < Pow2(n)
    ensures And(x, Pow2(n) - 1, n) == x
  {
    if n > 0 {
      AndAllOnes(x / 2, n - 1);
      assert (Pow2(n) - 1) / 2 == Pow2(n - 1) - 1;
    }
  }

  /** The highest bits, all but `k` of them, and the lowest `r`. */
  function Kept(x: nat, k: nat, r: nat): int {
    High(x, k) * Pow2(k) + Low(x, r)
  }

  lemma {:induction false} KeptHalf(x: nat, k: nat, r: nat)
    requires k > 0
    ensures r > 0 ==> Kept(x, k, r) == 2 * Kept(x / 2, k - 1, r - 1) + x % 2
    ensures r == 0 ==> Kept(x, k, r) == 2 * Kept(x / 2, k - 1, 0)
  {
    Twice(High(x, k), Pow2(k - 1));
  }

  function Mask(k: nat, r: nat, n: nat): int {
    Pow2(n) - Pow2(k) + Pow2(r) - 1
  }

  lemma {:induction false} MaskHalf(k: nat, r: nat, n: nat)
    requires r <= k <= n && k > 0
    ensures Mask(k, r, n) >= 0
    ensures r > 0 ==> Mask(k, r, n) / 2 == Mask(k - 1, r - 1, n - 1) && Mask(k, r, n) % 2 == 1
    ensures r == 0 ==> Mask(k, r, n) / 2 == Mask(k - 1, 0, n - 1) && Mask(k, r, n) % 2 == 0
  {
    Pow2AtMost(k, n);
  }

  lemma {:induction false} AndKeeps(x: nat, k: nat, r: nat, n: nat)
    requires r <= k <= n && x < Pow2(n)
    ensures Mask(k, r, n) >= 0
    ensures And(x, Mask(k, r, n), n) == Kept(x, k, r)
  {
    if k == 0 {
      AndAllOnes(x, n);
    } else {
      MaskHalf(k, r, n);
      KeptHalf(x, k, r);
      AndStep(x, Mask(k, r, n), n);
      AndKeeps(x / 2, k - 1, if r > 0 then r - 1 else 0, n - 1);
    }
  }

  lemma {:induction false} AndStep(x: nat, m: nat, n: nat)
    requires n > 0
    ensures And(x, m, n) == 2 * And(x / 2, m / 2, n - 1) + if m % 2 == 1 then x % 2 else 0
  {
    assert m % 2 == 0 || m % 2 == 1;
    assert (x % 2) * 0 == 0 && (x % 2) * 1 == x % 2;
  }

  // ----- the shifted value

  lemma {:induction false} ShiftArithmetic(v: int, s: int, p: int, n: int, r: int, x: int, c: int, lo: int, h: int)
    requires v + s * p == n * r && x == c * h + lo && h * r == 256
    ensures ((s + lo * r) * p + v) + c * (256 * p) == (x * p + n) * r
  {
    Distribute(c * h, lo, r);
    MulAssoc(c, h, r);
    assert x * r == c * 256 + lo * r;
    Distribute(x * p, n, r);
    MulAssoc(x, p, r);
    MulAssoc(x, r, p);
    Commute(p, r);
    assert x * p * r == (c * 256 + lo * r) * p;
    Distribute(c * 256, lo * r, p);
    MulAssoc(c, 256, p);
    Distribute(s, lo * r, p);
  }

  lemma {:induction false} Commute(a: int, b: int)
    ensures a * b == b * a
  {
  }

  lemma {:induction false} RemainderScaled(x: nat, h: nat, p: nat)
    requires h > 0 && p > 0
    ensures h * p > 0 && x * p % (h * p) == x % h * p <= h * p - p
  {
    var c, lo := x / h, x % h;
    MulAtLeast(h, p);
    Distribute(c * h, lo, p);
    MulAssoc(c, h, p);
    TimesBelow(lo, h, p);
    DivModUnique(x * p, h * p, c, lo * p);
  }

  lemma {:induction false} ByteSplit(x: Byte, r: nat)
    requires r <= 8
    ensures x == Shr(x, 8 - r) * Pow2(8 - r) + Low(x, 8 - r) && Pow2(8 - r) * Pow2(r) == 256
    ensures Shr(x, 8 - r) < Pow2(r)
  {
    ShrIsHigh(x, 8 - r);
    HighLow(x, 8 - r);
    BytePowers(r);
    FactorBelow(Shr(x, 8 - r), Pow2(8 - r), Pow2(r));
  }

  lemma {:induction false} FactorBelow(c: int, h: int, p: int)
    requires c * h < h * p && h > 0
    ensures c < p
  {
    if c >= p {
      MulAtMost(p, c, h);
      Commute(h, p);
    }
  }

  /** After the bytes from `k` on: `span` holds them shifted, the carry waiting in byte `k - 1`. */
  ghost predicate ShiftedFrom(nd: seq<Byte>, span: seq<Byte>, k: nat, r: nat)
    requires 1 <= k <= |nd| == |span|
  {
    && BytesValue(span[k..]) + span[k - 1] * Pow256(|nd| - k) == BytesValue(nd[k..]) * Pow2(r)
    && span[k - 1] < Pow2(r)
    && (forall j :: 0 <= j < k - 1 ==> span[j] == 0)
    && (k < |nd| ==> Low(span[|nd| - 1], r) == 0)
  }

  lemma {:induction false} FirstByte(s: seq<Byte>, k: nat)
    requires k < |s|
    ensures BytesValue(s[k..]) == s[k] * Pow256(|s| - k - 1) + BytesValue(s[k + 1..])
  {
    assert s[k..] == [s[k]] + s[k + 1..];
    BytesConcat([s[k]], s[k + 1..]);
    LastByte([s[k]], [], s[k]);
  }

  /** What fits under the shifted byte is added without a carry. */
  lemma {:induction false} ShlAdds(s: nat, x: Byte, r: nat)
    requires r <= 8 && s < Pow2(r)
    ensures (s + Shl(x, r)) % 256 == s + Low(x, 8 - r) * Pow2(r)
  {
    ShlRoom(x, r);
    ShlIsLow(x, r);
    NoWrap(s, Shl(x, r), Low(x, 8 - r) * Pow2(r));
  }

  lemma {:induction false} NoWrap(s: int, x: int, y: int)
    requires 0 <= s + x < 256 && x == y
    ensures (s + x) % 256 == s + y
  {
  }

  lemma {:induction false} LowOfMultiple(q: nat, k: nat, r: nat, v: nat)
    requires r <= k && v == q * Pow2(k)
    ensures Low(v, r) == 0
  {
    if r > 0 {
      Twice(q, Pow2(k - 1));
      LowOfMultiple(q, k - 1, r - 1, v / 2);
    }
  }

  /** Byte `k - 1` shifted, its high bits put in front as the carry. */
  lemma {:induction false} ShiftByte(nd: seq<Byte>, span: seq<Byte>, k: nat, r: nat, span': seq<Byte>)
    requires 2 <= k <= |nd| == |span| == |span'| && r < 8 && ShiftedFrom(nd, span, k, r)
    requires span' == span[k - 1 := (span[k - 1] + Shl(nd[k - 1], r)) % 256][k - 2 := Shr(nd[k - 1], 8 - r)]
    ensures ShiftedFrom(nd, span', k - 1, r)
  {
    var x, s := nd[k - 1], span[k - 1];
    ByteSplit(x, r);
    ShlAdds(s, x, r);
    ShiftByteValue(nd, span, k, r, span');
    if k == |nd| {
      LowOfMultiple(Low(x, 8 - r), r, r, span'[k - 1]);
    }
  }

  lemma {:induction false} ShiftByteValue(nd: seq<Byte>, span: seq<Byte>, k: nat, r: nat, span': seq<Byte>)
    requires 2 <= k <= |nd| == |span| == |span'| && r < 8 && ShiftedFrom(nd, span, k, r)
    requires span' == span[k - 1 := (span[k - 1] + Shl(nd[k - 1], r)) % 256][k - 2 := Shr(nd[k - 1], 8 - r)]
    ensures BytesValue(span'[k - 1..]) + span'[k - 2] * Pow256(|nd| - (k - 1)) == BytesValue(nd[k - 1..]) * Pow2(r)
  {
    var n, i, x, s := |nd|, k - 1, nd[k - 1], span[k - 1];
    ByteSplit(x, r);
    ShlAdds(s, x, r);
    assert span'[k..] == span[k..];
    ShiftArithmetic(BytesValue(span[k..]), s, Pow256(n - k), BytesValue(nd[k..]), Pow2(r), x, Shr(x, 8 - r),
                    Low(x, 8 - r), Pow2(8 - r));
    FirstByte(span', i);
    FirstByte(nd, i);
    assert Pow256(n - i) == 256 * Pow256(n - k);
  }

  /** One turn of the loop, in which the byte in front is still zero. */
  lemma {:induction false} ShiftTurn(nd: seq<Byte>, span: seq<Byte>, i: nat, r: nat)
    requires 1 <= i < |nd| == |span| && r < 8 && ShiftedFrom(nd, span, i + 1, r)
    ensures var after := span[i := (span[i] + Shl(nd[i], r)) % 256];
            ShiftedFrom(nd, after[i - 1 := (after[i - 1] + Shr(nd[i], 8 - r)) % 256], i, r)
  {
    var after, top := span[i := (span[i] + Shl(nd[i], r)) % 256], Shr(nd[i], 8 - r);
    OntoZero(after[i - 1], top);
    ShiftByte(nd, span, i + 1, r, after[i - 1 := top]);
  }

  lemma {:induction false} OntoZero(x: Byte, y: Byte)
    requires x == 0
    ensures (x + y) % 256 == y
  {
  }

  lemma {:induction false} StartOfShift(nd: seq<Byte>, span: seq<Byte>, r: nat)
    requires 1 <= |nd| == |span| && forall j :: 0 <= j < |span| ==> span[j] == 0
    ensures ShiftedFrom(nd, span, |nd|, r)
  {
    assert nd[|nd|..] == [] && span[|nd|..] == [];
  }

  /** The first byte: its carry is lost. */
  lemma {:induction false} EndOfShift(nd: seq<Byte>, span: seq<Byte>, r: nat, span': seq<Byte>)
    requires 1 <= |nd| == |span| && r < 8 && ShiftedFrom(nd, span, 1, r)
    requires span' == span[0 := (span[0] + Shl(nd[0], r)) % 256]
    ensures BytesValue(span') == BytesValue(nd) * Pow2(r) % Pow256(|nd|)
  {
    var lo := Low(nd[0], 8 - r);
    ByteSplit(nd[0], r);
    FirstBytes(nd, span, r, span', lo);
    BytesBound(span');
    LostCarry(BytesValue(span[1..]), span[0], Pow256(|nd| - 1), BytesValue(nd[1..]), Pow2(r), nd[0],
              Shr(nd[0], 8 - r), lo, Pow2(8 - r), BytesValue(span'), BytesValue(nd));
  }

  lemma {:induction false} FirstBytes(nd: seq<Byte>, span: seq<Byte>, r: nat, span': seq<Byte>, lo: nat)
    requires 1 <= |nd| == |span| && r < 8 && span[0] < Pow2(r) && lo == Low(nd[0], 8 - r)
    requires span' == span[0 := (span[0] + Shl(nd[0], r)) % 256]
    ensures BytesValue(span') == (span[0] + lo * Pow2(r)) * Pow256(|nd| - 1) + BytesValue(span[1..])
    ensures BytesValue(nd) == nd[0] * Pow256(|nd| - 1) + BytesValue(nd[1..])
  {
    ShlAdds(span[0], nd[0], r);
    WholeValue(span', span'[0], span[1..]);
    WholeValue(nd, nd[0], nd[1..]);
  }

  lemma {:induction false} LostCarry(v: int, s: int, p: int, n: int, r: int, x: int, c: int, lo: int, h: int, y: int,
                                     total: int)
    requires v + s * p == n * r && x == c * h + lo && h * r == 256
    requires y == (s + lo * r) * p + v && total == x * p + n && 0 <= y < 256 * p
    ensures total * r % (256 * p) == y
  {
    ShiftArithmetic(v, s, p, n, r, x, c, lo, h);
    DivModUnique(total * r, 256 * p, c, y);
  }

  lemma {:induction false} WholeValue(s: seq<Byte>, x: Byte, tail: seq<Byte>)
    requires s == [x] + tail
    ensures BytesValue(s) == x * Pow256(|tail|) + BytesValue(tail)
  {
    BytesConcat([x], tail);
    LastByte([x], [], x);
  }

  lemma {:induction false} LowBitsEmpty(nd: seq<Byte>, span: seq<Byte>, r: nat, span': seq<Byte>)
    requires 1 <= |nd| == |span| && r < 8 && ShiftedFrom(nd, span, 1, r)
    requires span' == span[0 := (span[0] + Shl(nd[0], r)) % 256]
    ensures Low(span'[|nd| - 1], r) == 0
  {
    if |nd| == 1 {
      LostCarryOnly(span[0], nd, span, r);
      ShlAdds(span[0], nd[0], r);
      LowOfMultiple(Low(nd[0], 8 - r), r, r, span'[0]);
    }
  }

  /** Of one byte nothing is carried. */
  lemma {:induction false} LostCarryOnly(s: Byte, nd: seq<Byte>, span: seq<Byte>, r: nat)
    requires |nd| == |span| == 1 && ShiftedFrom(nd, span, 1, r) && s == span[0]
    ensures s == 0
  {
    assert span[1..] == [] && nd[1..] == [] && Pow256(0) == 1;
  }

  lemma {:induction false} RemainderOfBytes(x: nat, n: nat)
    ensures x % Pow256(n) == Low(x, 8 * n)
  {
    Pow256IsPow2(n);
    LowIsRemainder(x, 8 * n);
  }

  lemma {:induction false} ShiftedValue(span: seq<Byte>, d: nat, r: nat)
    requires BytesValue(span) == d * Pow2(r) % Pow256(|span|)
    ensures BytesValue(span) == Low(Up(d, r), 8 * |span|)
  {
    UpIsProduct(d, r);
    RemainderOfBytes(Up(d, r), |span|);
  }

  /** `span_byte`: the value shifted left by `r` bits, in as many bytes as it has. */
  method ShiftSpan(nd: seq<Byte>, r: nat) returns (span: seq<Byte>)
    requires |nd| >= 1 && r < 8
    ensures |span| == |nd| && BytesValue(span) == Low(Up(BytesValue(nd), r), 8 * |nd|)
    ensures Low(span[|nd| - 1], r) == 0
  {
    span := seq(|nd|, _ => 0);
    StartOfShift(nd, span, r);
    var i := |nd| - 1;
    while i >= 1
      invariant 0 <= i < |nd| == |span| && ShiftedFrom(nd, span, i + 1, r)
    {
      ShiftTurn(nd, span, i, r);
      span := span[i := (span[i] + Shl(nd[i], r)) % 256];
      span := span[i - 1 := (span[i - 1] + Shr(nd[i], 8 - r)) % 256];
      i := i - 1;
    }
    EndOfShift(nd, span, r, span[0 := (span[0] + Shl(nd[0], r)) % 256]);
    LowBitsEmpty(nd, span, r, span[0 := (span[0] + Shl(nd[0], r)) % 256]);
    span := span[0 := (span[0] + Shl(nd[0], r)) % 256];
    ShiftedValue(span, BytesValue(nd), r);
  }

  // ----- merging with what the packet holds

  /** How many of the low bits of byte `i` of `n` are written, and how many of them are kept again. */
  function Upper(i: nat, left: nat): nat
    requires left <= 8
  {
    if i == 0 then 8 - left else 8
  }

  function Lower(i: nat, n: nat, right: nat): nat {
    if i + 1 == n then right else 0
  }

  /** `bitmap`: ones where the packet is kept. */
  method Bitmap(n: nat, left: nat, right: nat) returns (bitmap: seq<Byte>)
    requires n >= 1 && left < 8 && right < 8 && (n == 1 ==> left + right <= 8)
    ensures |bitmap| == n && IsBitmap(bitmap, left, right)
  {
    assert Pow2(8) == 256;
    bitmap := seq(n, _ => 0);
    for i := 0 to left
      invariant |bitmap| == n && bitmap[0] == 256 - Pow2(8 - i)
      invariant forall k :: 1 <= k < n ==> bitmap[k] == 0
    {
      assert Pow2(8 - i) == 2 * Pow2(7 - i);
      bitmap := bitmap[0 := (bitmap[0] + Pow2(7 - i)) % 256];
    }
    Pow2AtMost(right, Upper(n - 1, left));
    bitmap := BitmapBehind(bitmap, right);
  }

  /** Ones behind the field. */
  method BitmapBehind(before: seq<Byte>, right: nat) returns (bitmap: seq<Byte>)
    requires before != [] && before[|before| - 1] + Pow2(right) <= 256
    ensures bitmap == before[|before| - 1 := before[|before| - 1] + Pow2(right) - 1]
  {
    bitmap := before;
    var n := |before|;
    for i := 0 to right
      invariant before[n - 1] + Pow2(i) <= 256 && bitmap == before[n - 1 := before[n - 1] + Pow2(i) - 1]
    {
      Pow2AtMost(i + 1, right);
      bitmap := bitmap[n - 1 := (bitmap[n - 1] + Pow2(i)) % 256];
    }
  }

  /** A byte of the window after the write: its masked bits plus the value's. */
  ghost predicate ByteMerged(x: Byte, m: Byte, s: Byte, y: Byte) {
    y == (And(x, m, 8) + s) % 256
  }

  /** The bytes of the window after the write: kept bits plus the shifted value. */
  ghost predicate Merged(old': seq<Byte>, bitmap: seq<Byte>, span: seq<Byte>, new': seq<Byte>) {
    && |old'| == |bitmap| == |span| == |new'|
    && forall i :: 0 <= i < |old'| ==> ByteMerged(old'[i], bitmap[i], span[i], new'[i])
  }

  lemma {:induction false} KeptMiddle(x: Byte, r: nat)
    ensures Kept(x, 8, r) == Low(x, r)
  {
    SmallLow(x, 8);
  }

  lemma {:induction false} RoomForLow(v: nat, n: nat, r: nat)
    requires r <= n && v < Pow2(n) && Low(v, r) == 0
    ensures v + Pow2(r) <= Pow2(n)
  {
    if r > 0 {
      RoomForLow(v / 2, n - 1, r - 1);
    }
  }

  lemma {:induction false} LowSum(a: nat, b: nat, r: nat)
    requires Low(a, r) == 0 && Low(b, r) == 0
    ensures Low(a + b, r) == 0
  {
    if r > 0 {
      LowSum(a / 2, b / 2, r - 1);
      assert (a + b) / 2 == a / 2 + b / 2;
    }
  }

  lemma {:induction false} LowOfByte(t: nat, r: nat)
    requires r <= 8
    ensures Low(t % 256, r) == Low(t, r)
  {
    assert Pow2(8) == 256;
    LowModulo(t, r, 8);
  }

  lemma {:induction false} SmallSum(t: nat, c: nat)
    requires t % 256 + c < 256
    ensures (t + c) % 256 == t % 256 + c
  {
  }

  /** `c` fits in the low bits, which are zero. */
  lemma {:induction false} AddLow(t: nat, c: nat, r: nat)
    requires r <= 8 && Low(t, r) == 0 && c < Pow2(r)
    ensures (t + c) % 256 == t % 256 + c
  {
    LowOfByte(t, r);
    assert Pow2(8) == 256;
    RoomForLow(t % 256, 8, r);
    SmallSum(t, c);
  }

  lemma {:induction false} MergedLast(x: Byte, s: Byte, r: nat)
    requires r < 8 && Low(s, r) == 0
    ensures (Low(x, r) + s) % 256 == Low(x, r) + s
  {
    LowBound(x, r);
    AddLow(s, Low(x, r), r);
  }

  lemma {:induction false} Product(x: nat, y: nat)
    ensures x * y >= 0
  {
  }

  /** The bits kept in front of the field, in place. */
  function Front(x: Byte, left: nat): (a: nat)
    requires left <= 8
    ensures a == Shr(x, 8 - left) * Pow2(8 - left)
  {
    Product(Shr(x, 8 - left), Pow2(8 - left));
    Shr(x, 8 - left) * Pow2(8 - left)
  }

  /** The merged window, byte by byte, in terms of what is kept in front (`front`) and behind (`c`). */
  ghost predicate Joined(span: seq<Byte>, new': seq<Byte>, front: nat, c: nat) {
    && |span| == |new'| >= 1
    && if |span| == 1 then new'[0] == (front + c + span[0]) % 256
       else
         && new'[0] == (front + span[0]) % 256
         && (forall i :: 1 <= i < |span| - 1 ==> new'[i] == span[i])
         && new'[|span| - 1] == c + span[|span| - 1]
  }

  lemma {:induction false} MiddleByteJoins(x: Byte, s: Byte, y: Byte)
    requires y == (And(x, 0, 8) + s) % 256
    ensures y == s
  {
    assert Pow2(8) == 256;
    AndKeeps(x, 8, 0, 8);
    KeptMiddle(x, 0);
  }

  lemma {:induction false} LastByteJoins(x: Byte, s: Byte, y: Byte, m: Byte, r: nat)
    requires r < 8 && Low(s, r) == 0 && m == Mask(8, r, 8)
    requires y == (And(x, m, 8) + s) % 256
    ensures y == Low(x, r) + s
  {
    assert Pow2(8) == 256;
    AndKeeps(x, 8, r, 8);
    KeptMiddle(x, r);
    MergedLast(x, s, r);
  }

  lemma {:induction false} FirstByteJoins(x: Byte, s: Byte, y: Byte, m: Byte, left: nat, r: nat)
    requires left + r <= 8 && m == Mask(8 - left, r, 8) && y == (And(x, m, 8) + s) % 256
    ensures y == (Front(x, left) + Low(x, r) + s) % 256
    ensures r == 0 ==> y == (Front(x, left) + s) % 256
  {
    KeptInByte(x, m, left, r);
  }

  lemma {:induction false} KeptInByte(x: Byte, m: Byte, left: nat, r: nat)
    requires left + r <= 8 && m == Mask(8 - left, r, 8)
    ensures And(x, m, 8) == Front(x, left) + Low(x, r)
  {
    assert Pow2(8) == 256;
    AndKeeps(x, 8 - left, r, 8);
    ShrIsHigh(x, 8 - left);
  }

  ghost predicate IsBitmap(bitmap: seq<Byte>, left: nat, right: nat)
    requires left <= 8
  {
    forall i :: 0 <= i < |bitmap| ==> bitmap[i] == Mask(Upper(i, left), Lower(i, |bitmap|, right), 8)
  }

  lemma {:induction false} MiddleJoins(old': seq<Byte>, bitmap: seq<Byte>, span: seq<Byte>, new': seq<Byte>,
                                       left: nat, right: nat)
    requires left < 8 && Merged(old', bitmap, span, new') && IsBitmap(bitmap, left, right)
    ensures forall i :: 1 <= i < |span| - 1 ==> new'[i] == span[i]
  {
    forall i | 1 <= i < |span| - 1
      ensures new'[i] == span[i]
    {
      assert bitmap[i] == Mask(8, 0, 8) == 0;
      MiddleByteJoins(old'[i], span[i], new'[i]);
    }
  }

  lemma {:induction false} FrontJoins(old': seq<Byte>, bitmap: seq<Byte>, span: seq<Byte>, new': seq<Byte>, left: nat,
                                      right: nat)
    requires left < 8 && right < 8 && |old'| > 1
    requires Merged(old', bitmap, span, new') && IsBitmap(bitmap, left, right)
    ensures new'[0] == (Front(old'[0], left) + span[0]) % 256
  {
    FirstByteJoins(old'[0], span[0], new'[0], bitmap[0], left, 0);
  }

  lemma {:induction false} EndJoins(old': seq<Byte>, bitmap: seq<Byte>, span: seq<Byte>, new': seq<Byte>, left: nat,
                                    right: nat)
    requires left < 8 && right < 8 && |old'| > 1
    requires Merged(old', bitmap, span, new') && IsBitmap(bitmap, left, right)
    requires Low(span[|span| - 1], right) == 0
    ensures new'[|span| - 1] == Low(old'[|old'| - 1], right) + span[|span| - 1]
  {
    var i := |old'| - 1;
    assert bitmap[i] == Mask(8, right, 8);
    LastByteJoins(old'[i], span[i], new'[i], bitmap[i], right);
  }

  lemma {:induction false} MergedIsJoined(old': seq<Byte>, bitmap: seq<Byte>, span: seq<Byte>, new': seq<Byte>,
                                          left: nat, right: nat)
    requires left < 8 && right < 8 && |old'| >= 1 && (|old'| == 1 ==> left + right <= 8)
    requires Merged(old', bitmap, span, new') && IsBitmap(bitmap, left, right)
    requires Low(span[|span| - 1], right) == 0
    ensures Joined(span, new', Front(old'[0], left), Low(old'[|old'| - 1], right))
  {
    if |old'| > 1 {
      FrontJoins(old', bitmap, span, new', left, right);
      EndJoins(old', bitmap, span, new', left, right);
      MiddleJoins(old', bitmap, span, new', left, right);
    } else {
      FirstByteJoins(old'[0], span[0], new'[0], bitmap[0], left, right);
    }
  }

  lemma {:induction false} SeveralBytes(span: seq<Byte>, new': seq<Byte>, c: nat)
    requires |span| == |new'| >= 2
    requires forall i :: 1 <= i < |span| - 1 ==> new'[i] == span[i]
    requires new'[|span| - 1] == c + span[|span| - 1]
    ensures BytesValue(new') == new'[0] * Pow256(|span| - 1) + (c + BytesValue(span[1..]))
    ensures BytesValue(span) == span[0] * Pow256(|span| - 1) + BytesValue(span[1..])
  {
    BytesBehindFirst(span, new', c);
    WholeValue(new', new'[0], new'[1..]);
    WholeValue(span, span[0], span[1..]);
  }

  lemma {:induction false} BytesBehindFirst(span: seq<Byte>, new': seq<Byte>, c: nat)
    requires |span| == |new'| >= 2
    requires forall i :: 1 <= i < |span| - 1 ==> new'[i] == span[i]
    requires new'[|span| - 1] == c + span[|span| - 1]
    ensures BytesValue(new'[1..]) == c + BytesValue(span[1..])
  {
    var n := |span|;
    var mid := span[1..n - 1];
    LastByte(new'[1..], mid, new'[n - 1]);
    LastByte(span[1..], mid, span[n - 1]);
  }

  /** The window as a number: the shifted value added to the bits kept in front, without what runs over
      the front, and the bits kept at the end. */
  lemma {:induction false} WindowOfSeveral(span: seq<Byte>, new': seq<Byte>, front: nat, c: nat)
    requires |span| == |new'| >= 2 && new'[0] == (front + span[0]) % 256
    requires forall i :: 1 <= i < |span| - 1 ==> new'[i] == span[i]
    requires new'[|span| - 1] == c + span[|span| - 1]
    ensures BytesValue(new') == c + (front * Pow256(|span| - 1) + BytesValue(span)) % (256 * Pow256(|span| - 1))
  {
    SeveralBytes(span, new', c);
    BytesBound(span[1..]);
    TopJoin(front, span[0], Pow256(|span| - 1), BytesValue(span[1..]), c, BytesValue(new'), BytesValue(span));
  }

  lemma {:induction false} TopJoin(a: int, s: int, q: int, v: int, c: int, total: int, span: int)
    requires 0 <= v < q && 0 <= a && 0 <= s
    requires total == (a + s) % 256 * q + (c + v) && span == s * q + v
    ensures total == c + (a * q + span) % (256 * q)
  {
    TopModulo(a, s, q, v);
  }

  lemma {:induction false} OneByte(s: seq<Byte>)
    requires |s| == 1
    ensures BytesValue(s) == s[0]
  {
    LastByte(s, [], s[0]);
  }

  lemma {:induction false} WindowOfOne(span: seq<Byte>, new': seq<Byte>, front: nat, c: nat, right: nat)
    requires |span| == |new'| == 1 && right <= 8 && c < Pow2(right)
    requires Low(front, right) == 0 && Low(span[0], right) == 0
    requires new'[0] == (front + c + span[0]) % 256
    ensures BytesValue(new') == c + (front + BytesValue(span)) % 256
  {
    OneByte(new');
    OneByte(span);
    LowSum(front, span[0], right);
    AddLow(front + span[0], c, right);
    assert front + c + span[0] == front + span[0] + c;
  }

  lemma {:induction false} FrontIsMultiple(x: Byte, left: nat, right: nat)
    requires left + right <= 8
    ensures Low(Front(x, left), right) == 0
  {
    LowOfMultiple(Shr(x, 8 - left), 8 - left, right, Front(x, left));
  }

  /** The merged window in both cases. */
  lemma {:induction false} WindowValue(span: seq<Byte>, new': seq<Byte>, front: nat, c: nat, right: nat, fq: int,
                                       total: int)
    requires Joined(span, new', front, c) && right <= 8 && c < Pow2(right)
    requires |span| == 1 ==> Low(front, right) == 0 && Low(span[0], right) == 0
    requires fq == front * Pow256(|span| - 1) && total == Pow256(|span|)
    ensures total > 0 && BytesValue(new') == c + (fq + BytesValue(span)) % total
  {
    if |span| == 1 {
      assert Pow256(0) == 1 && total == 256 && fq == front;
      WindowOfOne(span, new', front, c, right);
    } else {
      assert total == 256 * Pow256(|span| - 1);
      WindowOfSeveral(span, new', front, c);
    }
  }

  lemma {:induction false} TopModulo(a: int, s: int, q: int, v: int)
    requires 0 <= v < q && 0 <= a && 0 <= s
    ensures q > 0 && (a * q + (s * q + v)) % (256 * q) == (a + s) % 256 * q + v
  {
    var t := (a + s) % 256;
    var k := (a + s) / 256;
    assert a + s == k * 256 + t;
    Distribute(a, s, q);
    Distribute(k * 256, t, q);
    MulAssoc(k, 256, q);
    MulAtMost(t, 255, q);
    DivModUnique(a * q + (s * q + v), 256 * q, k, t * q + v);
  }

  // ----- the fields of the window

  lemma {:induction false} ModSplit(a: nat, d: nat, l: nat, m: nat)
    requires l > 0 && m > 0
    ensures l * m > 0 && (a * m + d) % (l * m) == (a + d / m) % l * m + d % m
  {
    var x, y := d / m, d % m;
    var k, t := (a + x) / l, (a + x) % l;
    MulAtLeast(l, m);
    Distribute(a, x, m);
    Distribute(k * l, t, m);
    MulAssoc(k, l, m);
    MulAtMost(t, l - 1, m);
    Distribute(l, 1, m);
    DivModUnique(a * m + d, l * m, k, t * m + y);
  }

  /** A number put together from two is split into them. */
  lemma {:induction false} SumSplits(w: nat, q: nat, n: nat, r: nat)
    requires w == q * Pow2(n) + r && r < Pow2(n)
    ensures High(w, n) == q && Low(w, n) == r
  {
    LowIsRemainder(w, n);
    DivModUnique(w, Pow2(n), q, r);
  }

  /** Bits of `d` above the window are lost, those under them reach the field and the bits before it. */
  lemma {:induction false} WindowArithmetic(w: int, c: int, fq: int, s: int, a: nat, v: nat, d: int, total: int,
                                            l: nat, m: nat, r: nat)
    requires l > 0 && m > 0 && r > 0 && total == l * m * r && fq == a * m * r
    requires total > 0 && d == v % total && s == d * r % total && w == c + (fq + s) % total
    ensures w == ((a + v / m) % l * m + v % m) * r + c
  {
    var k, k' := v / total, d * r / total;
    Distribute(k * total, d, r);
    MulAssoc(k, total, r);
    Commute(total, r);
    MulAssoc(k, r, total);
    var x := a * m + v;
    Distribute(a * m, v, r);
    SameRemainder(x * r, fq + s, k * r + k', total);
    ModSplit(a, v, l, m);
    RemainderScaled(x, l * m, r);
  }

  lemma {:induction false} SameRemainder(x: int, y: int, k: int, d: nat)
    requires d > 0 && x - y == k * d
    ensures x % d == y % d
  {
    Distribute(k, y / d, d);
    DivModUnique(x, d, k + y / d, y % d);
  }

  /** What a write of the number `v` leaves, the field lying `left` bits into byte `i` and ending `right` bits
      before the end of a byte: other bytes as before, the field's own bits the lowest of `v`, the bits after
      it as before, and to the bits before it in its first byte is added what of `v` runs over the field. */
  ghost predicate WrittenAt(p: seq<Byte>, p': seq<Byte>, i: nat, left: nat, len: nat, right: nat, v: nat) {
    && |p'| == |p|
    && (forall k :: 0 <= k < |p| && (k < i || 8 * k >= 8 * i + left + len + right) ==> p'[k] == p[k])
    && FieldValue(p', 8 * i + left, len) == Low(v, len)
    && FieldValue(p', 8 * i + left + len, right) == FieldValue(p, 8 * i + left + len, right)
    && FieldValue(p', 8 * i, left) == Low(FieldValue(p, 8 * i, left) + High(v, len), left)
  }

  /** The write of `v` into the `len` bits from bit `begin` on. */
  ghost predicate Written(p: seq<Byte>, p': seq<Byte>, begin: nat, len: nat, v: nat) {
    WrittenAt(p, p', begin / 8, begin % 8, len, After(begin, len), v)
  }

  lemma {:induction false} WrittenValue(p: seq<Byte>, p': seq<Byte>, begin: nat, len: nat, v: nat)
    requires Written(p, p', begin, len, v)
    ensures FieldValue(p', begin, len) == Low(v, len)
  {
    assert 8 * (begin / 8) + begin % 8 == begin;
  }

  /** `right_empty`: the bits after the field in its last byte. */
  function After(begin: nat, len: nat): (r: nat)
    ensures len >= 1 ==> begin % 8 + len + r == 8 * ((begin + len - 1) / 8 - begin / 8 + 1)
    ensures r < 8
  {
    if len == 0 then 0 else 7 - (begin + len - 1) % 8
  }

  lemma {:induction false} WidthsOfWindow(left: nat, len: nat, right: nat, n: nat)
    requires left + len + right == 8 * n && n >= 1 && left <= 8
    ensures Pow2(left) * Pow2(len) * Pow2(right) == Pow256(n) == 256 * Pow256(n - 1)
    ensures Pow2(8 - left) * Pow256(n - 1) == Pow2(len) * Pow2(right)
  {
    Pow2Add(left, len);
    Pow2Add(left + len, right);
    Pow256IsPow2(n);
    Pow256IsPow2(n - 1);
    Pow2Add(8 - left, 8 * (n - 1));
    Pow2Add(len, right);
  }

  lemma {:induction false} FrontInPlace(f: int, a: int, h: int, q: int, m: int, r: int)
    requires h * q == m * r && f == a * h
    ensures f * q == a * m * r
  {
    MulAssoc(a, h, q);
    MulAssoc(a, m, r);
  }

  lemma {:induction false} FrontUp(front: int, a: nat, left: nat, len: nat, right: nat, n: nat)
    requires left + len + right == 8 * n && n >= 1 && left <= 8 && front == a * Pow2(8 - left)
    ensures front * Pow256(n - 1) == Up(Up(a, len), right)
  {
    WidthsOfWindow(left, len, right, n);
    FrontInPlace(front, a, Pow2(8 - left), Pow256(n - 1), Pow2(len), Pow2(right));
    UpIsProduct(a, len);
    UpIsProduct(Up(a, len), right);
  }

  /** The number the window holds after the write. */
  lemma {:induction false} WindowNumber(x: Byte, a: nat, c: nat, left: nat, len: nat, right: nat, span: seq<Byte>,
                                        n: nat, new': seq<Byte>) returns (fq: nat)
    requires |span| == n >= 1 && left + len + right == 8 * n && left < 8 && right < 8 && len >= 1
    requires Low(span[n - 1], right) == 0 && c < Pow2(right)
    requires Joined(span, new', Front(x, left), c) && a == Shr(x, 8 - left)
    ensures fq == Up(Up(a, len), right)
    ensures BytesValue(new') == c + Low(fq + BytesValue(span), 8 * n)
  {
    if n == 1 {
      FrontIsMultiple(x, left, right);
    }
    fq := Up(Up(a, len), right);
    FrontUp(Front(x, left), a, left, len, right, n);
    WindowValue(span, new', Front(x, left), c, right, fq, Pow256(n));
    RemainderOfBytes(fq + BytesValue(span), n);
  }

  lemma {:induction false} WindowSum(w: nat, a: nat, c: nat, left: nat, len: nat, right: nat, v: nat, d: nat, n: nat,
                                     fq: nat, s: nat)
    requires left + len + right == 8 * n && n >= 1 && left < 8 && d == Low(v, 8 * n)
    requires fq == Up(Up(a, len), right) && s == Low(Up(d, right), 8 * n) && w == c + Low(fq + s, 8 * n)
    ensures w == ((a + v / Pow2(len)) % Pow2(left) * Pow2(len) + v % Pow2(len)) * Pow2(right) + c
  {
    WidthsOfWindow(left, len, right, n);
    UpIsProduct(a, len);
    UpIsProduct(Up(a, len), right);
    UpIsProduct(d, right);
    RemainderOfBytes(v, n);
    RemainderOfBytes(Up(d, right), n);
    RemainderOfBytes(fq + s, n);
    WindowArithmetic(w, c, fq, s, a, v, d, Pow256(n), Pow2(left), Pow2(len), Pow2(right));
  }

  /** The same number, as the bits before the field, the field's and those after it. */
  lemma {:induction false} WindowParts(w: nat, a: nat, c: nat, left: nat, len: nat, right: nat, v: nat, d: nat,
                                       n: nat, fq: nat, s: nat)
    requires left + len + right == 8 * n && n >= 1 && left < 8 && c < Pow2(right) && d == Low(v, 8 * n)
    requires fq == Up(Up(a, len), right) && s == Low(Up(d, right), 8 * n) && w == c + Low(fq + s, 8 * n)
    ensures Low(w, right) == c && Low(High(w, right), len) == Low(v, len)
    ensures High(High(w, right), len) == Low(a + High(v, len), left)
  {
    var front, field := Low(a + High(v, len), left), Low(v, len);
    WindowSum(w, a, c, left, len, right, v, d, n, fq, s);
    LowIsRemainder(v, len);
    LowIsRemainder(a + High(v, len), left);
    LowBound(v, len);
    SumSplits(w, front * Pow2(len) + field, right, c);
    SumSplits(front * Pow2(len) + field, front, len, field);
  }

  /** The window written back, split at the borders of the field. */
  lemma {:induction false} WindowFields(p: seq<Byte>, i: nat, n: nat, left: nat, len: nat, right: nat, w: nat)
    requires i + n <= |p| && left + len + right == 8 * n && BytesValue(p[i..i + n]) == w
    ensures FieldValue(p, 8 * i, left) == High(High(w, right), len)
    ensures FieldValue(p, 8 * i + left, len) == Low(High(w, right), len)
    ensures FieldValue(p, 8 * i + left + len, right) == Low(w, right)
  {
    FieldOfBytes(p, i, n);
    ThreeFields(p, 8 * i, left, len, right, 8 * n);
  }

  lemma {:induction false} ThreeFields(p: seq<Byte>, b: nat, left: nat, len: nat, right: nat, all: nat)
    requires left + len + right == all
    ensures FieldValue(p, b, left) == High(High(FieldValue(p, b, all), right), len)
    ensures FieldValue(p, b + left, len) == Low(High(FieldValue(p, b, all), right), len)
    ensures FieldValue(p, b + left + len, right) == Low(FieldValue(p, b, all), right)
  {
    FieldParts(p, b, left + len, right);
    FieldParts(p, b, left, len);
  }

  /** The value's bytes the write takes: its last `n`, with a zero byte in front of one byte less. */
  function NewData(val: seq<Byte>, n: nat): (nd: seq<Byte>)
    requires |val| + 1 >= n >= 1
    ensures |nd| == n
  {
    if |val| < n then [0] + val[..n - 1] else val[|val| - n..]
  }

  lemma {:induction false} ShorterData(val: seq<Byte>, n: nat)
    requires |val| + 1 == n
    ensures BytesValue([0] + val) == BytesValue(val) % Pow256(n)
  {
    WholeValue([0] + val, 0, val);
    BytesBound([0] + val);
    DivModUnique(BytesValue(val), Pow256(n), 0, BytesValue(val));
  }

  lemma {:induction false} LongerData(val: seq<Byte>, front: seq<Byte>, low: seq<Byte>)
    requires val == front + low
    ensures BytesValue(low) == BytesValue(val) % Pow256(|low|)
  {
    BytesConcat(front, low);
    BytesBound(low);
    DivModUnique(BytesValue(val), Pow256(|low|), BytesValue(front), BytesValue(low));
  }

  lemma {:induction false} NewDataValue(val: seq<Byte>, n: nat)
    requires |val| + 1 >= n >= 1
    ensures BytesValue(NewData(val, n)) == BytesValue(val) % Pow256(n)
  {
    if |val| < n {
      assert val[..n - 1] == val;
      ShorterData(val, n);
    } else {
      LongerData(val, val[..|val| - n], val[|val| - n..]);
    }
  }

  /** Putting the pieces together: the merged window, as a number in three parts. */
  lemma {:induction false} MergedParts(x: Byte, y: Byte, left: nat, len: nat, right: nat, v: nat, d: nat, n: nat,
                    old': seq<Byte>, bitmap: seq<Byte>, span: seq<Byte>, new': seq<Byte>, w: nat)
    requires len >= 1 && n >= 1 && left < 8 && right < 8 && left + len + right == 8 * n
    requires |old'| == |span| == n && old'[0] == x && old'[n - 1] == y
    requires d == Low(v, 8 * n) && BytesValue(span) == Low(Up(d, right), 8 * n)
    requires Low(span[n - 1], right) == 0 && w == BytesValue(new')
    requires IsBitmap(bitmap, left, right) && Merged(old', bitmap, span, new')
    ensures Low(w, right) == Low(y, right) && Low(High(w, right), len) == Low(v, len)
    ensures High(High(w, right), len) == Low(Shr(x, 8 - left) + High(v, len), left)
  {
    var a, c := Shr(x, 8 - left), Low(y, right);
    LowBound(y, right);
    var fq := MergedNumber(x, y, left, len, right, n, old', bitmap, span, new');
    WindowParts(w, a, c, left, len, right, v, d, n, fq, BytesValue(span));
  }

  lemma {:induction false} MergedNumber(x: Byte, y: Byte, left: nat, len: nat, right: nat, n: nat, old': seq<Byte>,
                                        bitmap: seq<Byte>, span: seq<Byte>, new': seq<Byte>) returns (fq: nat)
    requires len >= 1 && n >= 1 && left < 8 && right < 8 && left + len + right == 8 * n
    requires |old'| == |span| == n && old'[0] == x && old'[n - 1] == y && Low(span[n - 1], right) == 0
    requires IsBitmap(bitmap, left, right) && Merged(old', bitmap, span, new')
    ensures fq == Up(Up(Shr(x, 8 - left), len), right)
    ensures BytesValue(new') == Low(y, right) + Low(fq + BytesValue(span), 8 * n)
  {
    LowBound(y, right);
    MergedIsJoined(old', bitmap, span, new', left, right);
    fq := WindowNumber(x, Shr(x, 8 - left), Low(y, right), left, len, right, span, n, new');
  }

  /** The bits of the packet in front of and behind the field. */
  lemma {:induction false} PartsOfPacket(p: seq<Byte>, i: nat, last: nat, left: nat, right: nat, end: nat, over: nat)
    requires i < |p| && last < |p| && left <= 8 && right <= 8 && end == 8 * last + 8 - right
    ensures Low(Shr(p[i], 8 - left) + over, left) == Low(FieldValue(p, 8 * i, left) + over, left)
    ensures Low(p[last], right) == FieldValue(p, end, right)
  {
    FieldInByte(p, i, left);
    LowBits(p, last, right);
  }

  lemma {:induction false} PartsAreWritten(p: seq<Byte>, p': seq<Byte>, i: nat, n: nat, left: nat, len: nat,
                                           right: nat, v: nat, w: nat)
    requires |p'| == |p| && i + n <= |p| && n >= 1 && left < 8 && right < 8 && left + len + right == 8 * n
    requires w == BytesValue(p'[i..i + n])
    requires Low(w, right) == Low(p[i + n - 1], right) && Low(High(w, right), len) == Low(v, len)
    requires High(High(w, right), len) == Low(Shr(p[i], 8 - left) + High(v, len), left)
    requires forall k :: 0 <= k < |p| && (k < i || k >= i + n) ==> p'[k] == p[k]
    ensures WrittenAt(p, p', i, left, len, right, v)
  {
    WindowFields(p', i, n, left, len, right, w);
    PartsOfPacket(p, i, i + n - 1, left, right, 8 * i + left + len, High(v, len));
  }

  /** Merged window bytes are a write of the value. */
  lemma {:induction false} MergedIsWritten(p: seq<Byte>, p': seq<Byte>, i: nat, n: nat, left: nat, len: nat,
                                           right: nat, v: nat, d: nat, old': seq<Byte>, bitmap: seq<Byte>,
                                           span: seq<Byte>)
    requires len >= 1 && |p'| == |p| && i + n <= |p| && n >= 1 && left < 8 && right < 8 && left + len + right == 8 * n
    requires |span| == n && Low(span[n - 1], right) == 0
    requires d == Low(v, 8 * n) && BytesValue(span) == Low(Up(d, right), 8 * n)
    requires IsBitmap(bitmap, left, right)
    requires old' == p[i..i + n] && Merged(old', bitmap, span, p'[i..i + n])
    requires forall k :: 0 <= k < |p| && (k < i || k >= i + n) ==> p'[k] == p[k]
    ensures WrittenAt(p, p', i, left, len, right, v)
  {
    var w := BytesValue(p'[i..i + n]);
    MergedParts(p[i], p[i + n - 1], left, len, right, v, d, n, old', bitmap, span, p'[i..i + n], w);
    PartsAreWritten(p, p', i, n, left, len, right, v, w);
  }

  lemma {:induction false} WindowBounds(begin: nat, len: nat, i: nat, last: nat, right: nat)
    requires len >= 1 && i == begin / 8 && last == (begin + len - 1) / 8
    requires right == (last + 1) * 8 - (begin + len - 1) - 1
    ensures right == After(begin, len) < 8 && begin % 8 + len + right == 8 * (last - i + 1) && i <= last
  {
  }

  /** Writes the number in `val` into the `len` bits of the packet from bit `begin` on. The value must have
      all the bytes of the field's window but one, else the copy runs past its end. */
  method ModifyFieldWithData(packet: array<Byte>, begin: nat, len: nat, val: seq<Byte>)
    requires len >= 1 && (begin + len - 1) / 8 < packet.Length
    requires |val| >= (begin + len - 1) / 8 - begin / 8
    modifies packet
    ensures Written(old(packet[..]), packet[..], begin, len, BytesValue(val))
  {
    var endBit := begin + len - 1;
    var beginByte, endByte := begin / 8, endBit / 8;
    var rightEmpty := (endBit / 8 + 1) * 8 - endBit - 1;
    var leftEmpty := begin % 8;
    WindowBounds(begin, len, beginByte, endByte, rightEmpty);
    WriteWindow(packet, beginByte, endByte - beginByte + 1, leftEmpty, len, rightEmpty, val);
  }

  /** The rest of it, from the copy of the value on. */
  method WriteWindow(packet: array<Byte>, beginByte: nat, byteLen: nat, leftEmpty: nat, len: nat, rightEmpty: nat,
                     val: seq<Byte>)
    requires beginByte + byteLen <= packet.Length && |val| + 1 >= byteLen >= 1 && len >= 1
    requires leftEmpty < 8 && rightEmpty < 8 && leftEmpty + len + rightEmpty == 8 * byteLen
    modifies packet
    ensures WrittenAt(old(packet[..]), packet[..], beginByte, leftEmpty, len, rightEmpty, BytesValue(val))
  {
    var newData := NewData(val, byteLen);
    var span := ShiftSpan(newData, rightEmpty);
    var bitmap := Bitmap(byteLen, leftEmpty, rightEmpty);
    MergeBytes(packet, beginByte, bitmap, span);
    NewDataValue(val, byteLen);
    RemainderOfBytes(BytesValue(val), byteLen);
    MergedIsWritten(old(packet[..]), packet[..], beginByte, byteLen, leftEmpty, len, rightEmpty,
                    BytesValue(val), BytesValue(newData), old(packet[beginByte..beginByte + byteLen]), bitmap, span);
  }

  /** The last loop: each byte of the window keeps its masked bits and gains the shifted value's. */
  method MergeBytes(packet: array<Byte>, from: nat, bitmap: seq<Byte>, span: seq<Byte>)
    requires |bitmap| == |span| && from + |span| <= packet.Length
    modifies packet
    ensures Merged(old(packet[from..from + |span|]), bitmap, span, packet[from..from + |span|])
    ensures forall k :: 0 <= k < packet.Length && (k < from || k >= from + |span|) ==> packet[k] == old(packet[k])
  {
    var idx := 0;
    while idx < |span|
      invariant 0 <= idx <= |span|
      invariant forall k :: 0 <= k < idx ==> ByteMerged(old(packet[from + k]), bitmap[k], span[k], packet[from + k])
      invariant forall k :: 0 <= k < packet.Length && (k < from || k >= from + idx) ==> packet[k] == old(packet[k])
    {
      packet[from + idx] := (And(packet[from + idx], bitmap[idx], 8) + span[idx]) % 256;
      idx := idx + 1;
    }
  }
}
