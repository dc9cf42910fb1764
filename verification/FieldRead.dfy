/** sw-src/dataplane/executor.h, `get_op_val_any`, the FIELD case: reading a field at any bit offset. */
module FieldRead {
  import opened Powers
  import opened Bytes
  import opened FieldWrite
  import opened FieldFrames

  /** How often the loop runs, and the bytes of the result. */
  function Steps(start: nat, len: nat): (k: nat)
    ensures k == Bytes8(len) || k + 1 == Bytes8(len)
    ensures len % 8 == 0 ==> k == Bytes8(len)
    ensures 8 * k <= start + len
  {
    (start + len) / 8 - start / 8
  }

  /** Bytes that hold `len` bits. */
  function Bytes8(len: nat): nat {
    (len + 7) / 8
  }

  /** What the bytes read are worth: whole bytes up to the field's end, above them the byte the loop does not
      set (`unset`, whatever the allocation held) when it runs once too few. */
  function ReadValue(p: seq<Byte>, start: nat, len: nat, unset: Byte): nat {
    var k := Steps(start, len);
    FieldValue(p, start + len - 8 * k, 8 * k) + (if k < Bytes8(len) then unset * Pow256(k) else 0)
  }

  /** `(y >> r) + (x << (8 - r))`, kept to eight bits. */
  function Across(x: Byte, y: Byte, r: nat): Byte
    requires r <= 8
  {
    (Shr(y, r) + Shl(x, 8 - r)) % 256
  }

  /** Eight bits across the border of two bytes. */
  lemma {:induction false} ByteAcross(p: seq<Byte>, i: nat, r: nat, x: Byte, y: Byte)
    requires 1 <= i < |p| && 1 <= r <= 8 && x == p[i - 1] && y == p[i]
    ensures FieldValue(p, 8 * i - r, 8) == Across(x, y, r)
  {
    var b := 8 * i - r;
    EndAndStart(p, i, r, b);
    FieldSplit(p, b, r, 8 - r);
    ShlIsLow(x, 8 - r);
    FieldBound(p, b, 8);
    assert Pow2(8) == 256;
    Assembled(FieldValue(p, b, 8), Low(x, r), Pow2(8 - r), Shr(y, r), Shl(x, 8 - r));
  }

  lemma {:induction false} EndAndStart(p: seq<Byte>, i: nat, r: nat, b: nat)
    requires 1 <= i < |p| && 1 <= r <= 8 && b == 8 * i - r
    ensures FieldValue(p, b, r) == Low(p[i - 1], r) && FieldValue(p, b + r, 8 - r) == Shr(p[i], r)
  {
    LowBits(p, i - 1, r);
    FieldInByte(p, i, 8 - r);
    assert 8 * (i - 1) + 8 - r == b && b + r == 8 * i;
  }

  lemma {:induction false} Assembled(f: int, a: int, m: int, b: int, shl: int)
    requires f == a * m + b && shl == a * m && 0 <= f < 256
    ensures (b + shl) % 256 == f
  {
  }

  /** One byte more in front. */
  lemma {:induction false} FieldGrows(p: seq<Byte>, end: nat, k: nat, b: Byte, tail: seq<Byte>)
    requires 8 * (k + 1) <= end && |tail| == k
    requires BytesValue(tail) == FieldValue(p, end - 8 * k, 8 * k) && b == FieldValue(p, end - 8 * k - 8, 8)
    ensures BytesValue([b] + tail) == FieldValue(p, end - 8 * (k + 1), 8 * (k + 1))
  {
    FieldSplit(p, end - 8 * (k + 1), 8, 8 * k);
    Pow256IsPow2(k);
    WholeValue([b] + tail, b, tail);
  }

  lemma {:induction false} HighOfUp(v: nat, n: nat)
    ensures High(Up(v, n), n) == v
  {
    if n > 0 {
      HighOfUp(v, n - 1);
    }
  }

  /** `x >> r << r`, the last byte without its low bits: these do not matter to what is read. */
  lemma {:induction false} ClearedLowBits(x: Byte, r: nat)
    requires r <= 8
    ensures Shr(Shl(Shr(x, r), r), r) == Shr(x, r)
  {
    var y := Shr(x, r);
    ByteSplit(x, 8 - r);
    SmallLow(y, 8 - r);
    ShlIsLow(y, r);
    UpIsProduct(y, r);
    HighOfUp(y, r);
    ShrIsHigh(Shl(y, r), r);
  }

  /** Reads the `len` bits from bit `start` on into new bytes, which hold `unset` before. The byte after the
      field's last is copied too when the field ends on a byte border. */
  method ReadField(packet: array<Byte>, start: nat, len: nat, unset: Byte) returns (val: seq<Byte>)
    requires (start + len) / 8 < packet.Length
    ensures |val| == Bytes8(len) && BytesValue(val) == ReadValue(packet[..], start, len, unset)
  {
    var end := start + len;
    var byteStart, byteEnd := start / 8, end / 8;
    var byteLen := byteEnd - byteStart + 1;
    var rightShift := 8 - end % 8;
    val := seq(Bytes8(len), _ => unset);
    // the first byte is shifted left and back as an int, which keeps all its bits
    var backup: seq<Byte> := packet[byteStart..byteStart + byteLen];
    ClearedLowBits(backup[byteLen - 1], rightShift);
    backup := backup[byteLen - 1 := Shl(Shr(backup[byteLen - 1], rightShift), rightShift)];
    val := ReadBytes(packet[..], backup, end, byteEnd, val);
    AllRead(packet[..], start, len, unset, val, byteLen - 1);
  }

  /** The loop of it. */
  method ReadBytes(ghost p: seq<Byte>, backup: seq<Byte>, end: nat, ghost byteEnd: nat, val0: seq<Byte>)
      returns (val: seq<Byte>)
    requires byteEnd == end / 8 < |p| && 1 <= |backup| <= byteEnd + 1 && |backup| - 1 <= |val0|
    requires forall j :: 0 <= j < |backup| - 1 ==> backup[j] == p[byteEnd - (|backup| - 1) + j]
    requires Shr(backup[|backup| - 1], 8 - end % 8) == Shr(p[byteEnd], 8 - end % 8)
    ensures |val| == |val0| && ReadFrom(p, end, |backup| - 1, val[|val| - (|backup| - 1)..])
    ensures forall j :: 0 <= j < |val| - (|backup| - 1) ==> val[j] == val0[j]
  {
    val := val0;
    var idx := |val| - 1;
    var i := |backup| - 1;
    ghost var k := 0;
    while i > 0
      invariant 0 <= i && i + k == |backup| - 1 && |val| == |val0| && idx + 1 == |val| - k
      invariant Shr(backup[i], 8 - end % 8) == Shr(p[byteEnd - k], 8 - end % 8)
      invariant ReadFrom(p, end, k, val[|val| - k..])
      invariant forall j :: 0 <= j <= idx ==> val[j] == val0[j]
    {
      ghost var tail: seq<Byte> := val[idx + 1..];
      val := val[idx := Across(backup[i - 1], backup[i], 8 - end % 8)];
      ByteRead(p, end, byteEnd - k, k, val[idx], tail);
      assert val[idx..] == [val[idx]] + tail;
      idx := idx - 1;
      i := i - 1;
      k := k + 1;
    }
  }

  /** `tail` holds the `k` bytes up to bit `end`. */
  ghost predicate ReadFrom(p: seq<Byte>, end: nat, k: nat, tail: seq<Byte>) {
    8 * k <= end && |tail| == k && BytesValue(tail) == FieldValue(p, end - 8 * k, 8 * k)
  }

  lemma {:induction false} ByteRead(p: seq<Byte>, end: nat, i: nat, k: nat, b: Byte, tail: seq<Byte>)
    requires i + k == end / 8 < |p| && i >= 1 && ReadFrom(p, end, k, tail)
    requires b == Across(p[i - 1], p[i], 8 - end % 8)
    ensures ReadFrom(p, end, k + 1, [b] + tail)
  {
    ByteAcross(p, i, 8 - end % 8, p[i - 1], p[i]);
    assert 8 * i - (8 - end % 8) == end - 8 * k - 8;
    FieldGrows(p, end, k, b, tail);
  }

  lemma {:induction false} AllRead(p: seq<Byte>, start: nat, len: nat, unset: Byte, val: seq<Byte>, k: nat)
    requires k == Steps(start, len) && |val| == Bytes8(len) && forall j :: 0 <= j < |val| - k ==> val[j] == unset
    requires ReadFrom(p, start + len, k, val[|val| - k..])
    ensures BytesValue(val) == ReadValue(p, start, len, unset)
  {
    var tail := val[|val| - k..];
    if k < |val| {
      assert val == [unset] + tail;
      WholeValue(val, unset, tail);
    } else {
      assert val == tail;
    }
  }

  // ----- when the value read is the field's

  /** The test on the packet that decides it: with whole bytes always; else the bits before the field that come
      along must be zero, or the byte not set must happen to hold the field's first bits. */
  ghost predicate ReadsExactly(p: seq<Byte>, start: nat, len: nat, unset: Byte) {
    var k := Steps(start, len);
    if k == Bytes8(len) then 8 * k > len ==> FieldValue(p, start + len - 8 * k, 8 * k - len) == 0
    else unset == FieldValue(p, start, len - 8 * k)
  }

  lemma {:induction false} WholeBytesReadExactly(p: seq<Byte>, start: nat, len: nat, unset: Byte)
    requires len % 8 == 0
    ensures ReadsExactly(p, start, len, unset)
  {
  }

  lemma {:induction false} SumIsLow(hi: nat, lo: nat, m: nat)
    requires m > 0
    ensures hi * m + lo == lo <==> hi == 0
  {
    if hi > 0 {
      MulAtLeast(hi, m);
    }
  }

  lemma {:induction false} SameHigh(x: nat, y: nat, lo: nat, m: nat)
    requires m > 0
    ensures x * m + lo == y * m + lo <==> x == y
  {
    Distribute(x, y, m);
    if x > y {
      MulAtLeast(x - y, m);
    } else if y > x {
      Distribute(y, x, m);
      MulAtLeast(y - x, m);
    }
  }

  lemma {:induction false} ReadIsField(p: seq<Byte>, start: nat, len: nat, unset: Byte)
    ensures ReadValue(p, start, len, unset) == FieldValue(p, start, len) <==> ReadsExactly(p, start, len, unset)
  {
    var k := Steps(start, len);
    if k == Bytes8(len) {
      FieldSplit(p, start + len - 8 * k, 8 * k - len, len);
      SumIsLow(FieldValue(p, start + len - 8 * k, 8 * k - len), FieldValue(p, start, len), Pow2(len));
    } else {
      FieldSplit(p, start, len - 8 * k, 8 * k);
      Pow256IsPow2(k);
      SameHigh(unset, FieldValue(p, start, len - 8 * k), FieldValue(p, start + len - 8 * k, 8 * k), Pow256(k));
    }
  }

  // ----- a write followed by a read

  /** Reading back what was written gives the value, whatever the packet and the allocation held, for a field
      of whole bytes and a value it can hold. */
  lemma {:induction false} WriteThenRead(p: seq<Byte>, p': seq<Byte>, start: nat, len: nat, v: nat, unset: Byte)
    requires Written(p, p', start, len, v) && len % 8 == 0 && v < Pow2(len)
    ensures ReadValue(p', start, len, unset) == v
  {
    FieldIsWritten(p, p', start, len, v);
    ReadIsField(p', start, len, unset);
    WholeBytesReadExactly(p', start, len, unset);
  }

  lemma {:induction false} FieldIsWritten(p: seq<Byte>, p': seq<Byte>, start: nat, len: nat, v: nat)
    requires Written(p, p', start, len, v) && v < Pow2(len)
    ensures FieldValue(p', start, len) == v
  {
    assert 8 * (start / 8) + start % 8 == start;
    SmallLow(v, len);
  }

  ghost predicate ComesBack(p: seq<Byte>, start: nat, len: nat, v: nat, unset: Byte) {
    var k := Steps(start, len);
    if k == Bytes8(len) then 8 * k > len ==> FieldValue(p, start + len - 8 * k, 8 * k - len) == 0
    else unset == High(v, 8 * k)
  }

  lemma {:induction false} PadKept(p: seq<Byte>, p': seq<Byte>, start: nat, len: nat, v: nat, unset: Byte)
    requires SameOutside(p, p', start, start + len) && FieldValue(p', start, len) == v
    ensures ReadsExactly(p', start, len, unset) <==> ComesBack(p, start, len, v, unset)
  {
    var k := Steps(start, len);
    if k == Bytes8(len) {
      OutsideFieldKept(p, p', start, start + len, start + len - 8 * k, 8 * k - len);
    } else {
      FieldParts(p', start, len - 8 * k, 8 * k);
    }
  }

  /** At any length the value comes back exactly when the packet before the write had zeros in the bits that
      come along, or the byte not set happens to hold the value's first bits. */
  lemma {:induction false} WriteThenReadAnyLength(p: seq<Byte>, p': seq<Byte>, start: nat, len: nat, v: nat,
                                                  unset: Byte)
    requires Written(p, p', start, len, v) && v < Pow2(len) && len >= 1
    ensures ReadValue(p', start, len, unset) == v <==> ComesBack(p, start, len, v, unset)
  {
    SmallValueFrame(p, p', start, len, v);
    PadKept(p, p', start, len, v, unset);
    ReadIsField(p', start, len, unset);
  }

  /** A four-bit field behind four other bits: the byte read is the whole byte. */
  lemma {:induction false} HalfByteReadsWrong(unset: Byte)
    ensures ReadValue([240, 0], 4, 4, unset) == 240 && FieldValue([240, 0], 4, 4) == 0
  {
    var p: seq<Byte> := [240, 0];
    assert Pow256(1) == 256;
    WholeByte(p, 0);
    LowBits(p, 0, 4);
    assert Low(240, 4) == 2 * Low(120, 3) && Low(120, 3) == 2 * Low(60, 2) && Low(60, 2) == 2 * Low(30, 1);
  }
}
