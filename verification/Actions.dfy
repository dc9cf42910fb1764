/** sw-src/dataplane/executor.h, `Action::set_action_paras`: unpacking the parameters of an action from the
    value of a table entry. */
module Actions {
  import opened Bytes
  import opened FieldWrite
  import opened FieldFrames
  import opened FieldRead
  import opened ActionParams

  datatype ActionParam = ActionParam(len: nat, val: seq<Byte>)

  /** The bits of the first `n` parameters. */
  function Offset(lens: seq<nat>, n: nat): nat
    requires n <= |lens|
  {
    if n == 0 then 0 else Offset(lens, n - 1) + lens[n - 1]
  }

  /** What the action finds in an entry's value. */
  ghost predicate Unpacked(value: seq<Byte>, lens: seq<nat>, n: nat, paras: seq<ActionParam>)
    requires n <= |lens|
  {
    |paras| == n && forall i :: 0 <= i < n ==> UnpackedAt(value, lens, i, paras)
  }

  ghost predicate UnpackedAt(value: seq<Byte>, lens: seq<nat>, i: nat, paras: seq<ActionParam>) {
    i < |lens| && i < |paras| && ParamRead(value, 16 + Offset(lens, i), lens[i], paras[i])
  }

  ghost predicate ParamRead(value: seq<Byte>, b: nat, len: nat, para: ActionParam) {
    para.len == len && |para.val| == Bytes8(len) && BytesValue(para.val) == FieldValue(value, b, len)
  }

  // ----- one parameter

  /** Of the last `8 * k` bits before bit `end`, those there are. */
  function Taken(end: nat, k: nat): (t: nat)
    ensures t <= end
  {
    if 8 * k <= end then 8 * k else end
  }

  ghost predicate ReadUpTo(w: seq<Byte>, end: nat, k: nat, tail: seq<Byte>) {
    |tail| == k && BytesValue(tail) == FieldValue(w, end - Taken(end, k), Taken(end, k))
  }

  /** What the loop adds up for one byte of the parameter. */
  function ParamByte(w: seq<Byte>, idx: nat, right: nat): Byte
    requires idx < |w| && right < 8
  {
    if right == 0 then w[idx]
    else if idx > 0 then Across(w[idx - 1], w[idx], 8 - right)
    else Shr(w[idx], 8 - right)
  }

  lemma {:induction false} FullByteRead(w: seq<Byte>, end: nat, k: nat, b: Byte, tail: seq<Byte>)
    requires ReadUpTo(w, end, k, tail) && 8 * (k + 1) <= end && b == FieldValue(w, end - 8 * k - 8, 8)
    ensures ReadUpTo(w, end, k + 1, [b] + tail)
  {
    FieldGrows(w, end, k, b, tail);
  }

  lemma {:induction false} FirstByteRead(w: seq<Byte>, end: nat, k: nat, b: Byte, tail: seq<Byte>)
    requires ReadUpTo(w, end, k, tail) && 8 * k <= end < 8 * (k + 1) && b == FieldValue(w, 0, end - 8 * k)
    ensures ReadUpTo(w, end, k + 1, [b] + tail)
  {
    FieldSplit(w, 0, end - 8 * k, 8 * k);
    Pow256IsPow2(k);
    WholeValue([b] + tail, b, tail);
  }

  lemma {:induction false} ParamByteRead(w: seq<Byte>, idx: nat, right: nat, end: nat, k: nat, tail: seq<Byte>)
    requires idx < |w| && right < 8 && idx + k == |w| - 1 && end == 8 * (|w| - 1) + (if right == 0 then 8 else right)
    requires ReadUpTo(w, end, k, tail)
    ensures ReadUpTo(w, end, k + 1, [ParamByte(w, idx, right)] + tail)
  {
    var b := ParamByte(w, idx, right);
    if right == 0 {
      WholeByte(w, idx);
      FullByteRead(w, end, k, b, tail);
    } else if idx > 0 {
      ByteAcross(w, idx, 8 - right, w[idx - 1], w[idx]);
      FullByteRead(w, end, k, b, tail);
    } else {
      FieldInByte(w, 0, right);
      FirstByteRead(w, end, k, b, tail);
    }
  }

  /** The low bits of the last byte may be cleared: they are not read. */
  ghost predicate LastCleared(w: seq<Byte>, valueNew: seq<Byte>, right: nat)
    requires right < 8
  {
    && |w| == |valueNew| >= 1
    && (forall i :: 0 <= i < |w| - 1 ==> valueNew[i] == w[i])
    && Shr(valueNew[|w| - 1], 8 - right) == Shr(w[|w| - 1], 8 - right)
    && (right == 0 ==> valueNew[|w| - 1] == w[|w| - 1])
  }

  lemma {:induction false} SameParamByte(w: seq<Byte>, valueNew: seq<Byte>, idx: nat, right: nat)
    requires right < 8 && LastCleared(w, valueNew, right) && idx < |w|
    ensures ParamByte(valueNew, idx, right) == ParamByte(w, idx, right)
  {
  }

  lemma {:induction false} NothingRead(w: seq<Byte>, end: nat)
    ensures ReadUpTo(w, end, 0, [])
  {
  }

  /** The last loop. */
  method ReadParam(ghost w: seq<Byte>, valueNew: seq<Byte>, right: nat, byteLen: nat, ghost end: nat)
      returns (val: seq<Byte>)
    requires right < 8 && LastCleared(w, valueNew, right) && byteLen <= |w|
    requires end == 8 * (|w| - 1) + (if right == 0 then 8 else right)
    ensures ReadUpTo(w, end, byteLen, val)
  {
    val := seq(byteLen, _ => 0);
    var idx := |valueNew| - 1;
    var j := byteLen;
    NothingRead(w, end);
    assert val[j..] == [];
    while j > 0
      invariant 0 <= j <= byteLen == |val| && idx == |w| - 1 - (byteLen - j)
      invariant ReadUpTo(w, end, byteLen - j, val[j..])
    {
      ghost var tail: seq<Byte> := val[j..];
      ghost var k := byteLen - j;
      j := j - 1;
      SameParamByte(w, valueNew, idx, right);
      ParamByteRead(w, idx, right, end, k, tail);
      val := val[j := ParamByte(valueNew, idx, right)];
      assert val[j..] == [val[j]] + tail;
      idx := idx - 1;
    }
    assert val[j..] == val;
  }

  // ----- the bits in front of the parameter are cleared

  lemma {:induction false} ClearedTop(x: Byte, left: nat)
    requires left < 8
    ensures Shr(Shl(x, left), left) == Low(x, 8 - left)
  {
    ShlIsLow(x, left);
    UpIsProduct(Low(x, 8 - left), left);
    HighOfUp(Low(x, 8 - left), left);
    ShrIsHigh(Shl(x, left), left);
  }

  /** Clearing the first `left` bits of the first byte makes them zero and keeps the others. */
  lemma {:induction false} TopBitsCleared(s: seq<Byte>, w: seq<Byte>, left: nat)
    requires |s| >= 1 && left < 8 && w == s[0 := Shr(Shl(s[0], left), left)]
    ensures FieldValue(w, 0, left) == 0 && FieldValue(w, left, 8 - left) == FieldValue(s, left, 8 - left)
  {
    ClearedTop(s[0], left);
    FieldInByte(w, 0, left);
    LowBound(s[0], 8 - left);
    SmallShr(w[0], 8 - left);
    LowBits(w, 0, 8 - left);
    LowBits(s, 0, 8 - left);
    LowLow(s[0], 8 - left, 8 - left);
  }

  lemma {:induction false} FieldBehindCleared(s: seq<Byte>, w: seq<Byte>, left: nat, len: nat)
    requires |s| >= 1 && left < 8 && w == s[0 := Shr(Shl(s[0], left), left)]
    ensures FieldValue(w, left, len) == FieldValue(s, left, len)
  {
    TopBitsCleared(s, w, left);
    SameFieldSameBits(w, s, left, 8 - left);
    forall k: nat | left <= k < left + len
      ensures Bit(w, k) == Bit(s, k)
    {
      if k >= 8 {
        SameByteSameBit(w, s, k);
      }
    }
    SameFieldSameBits(w, s, left, len);
  }

  /** However many of the cleared bits are read with it, the value is the field's. */
  lemma {:induction false} ZerosInFront(w: seq<Byte>, from: nat, left: nat, len: nat)
    requires from <= left && FieldValue(w, 0, left) == 0
    ensures FieldValue(w, from, left - from + len) == FieldValue(w, left, len)
  {
    FieldParts(w, 0, from, left - from);
    LowOfZero(left - from);
    FieldSplit(w, from, left - from, len);
  }

  lemma {:induction false} LowOfZero(n: nat)
    ensures Low(0, n) == 0
  {
    SmallLow(0, n);
  }

  lemma {:induction false} ParamValue(value: seq<Byte>, byteStart: nat, s: seq<Byte>, w: seq<Byte>, left: nat,
                                      len: nat, end: nat, val: seq<Byte>)
    requires byteStart + |s| <= |value| && value[byteStart..byteStart + |s|] == s && |s| >= 1 && left < 8
    requires w == s[0 := Shr(Shl(s[0], left), left)] && end == left + len && end <= 8 * |s|
    requires ReadUpTo(w, end, Bytes8(len), val)
    ensures BytesValue(val) == FieldValue(value, 8 * byteStart + left, len)
  {
    TopBitsCleared(s, w, left);
    ZerosInFront(w, end - Taken(end, Bytes8(len)), left, len);
    FieldBehindCleared(s, w, left, len);
    FieldOfSlice(value, byteStart, s, left, len);
  }

  /** One turn of the outer loop. */
  method UnpackParam(value: seq<Byte>, paraStart: nat, len: nat) returns (para: ActionParam)
    requires len >= 1 && paraStart + len <= 8 * |value|
    ensures ParamRead(value, paraStart, len, para)
  {
    var paraEnd := paraStart + len;
    var leftOffset, rightOffset := paraStart % 8, paraEnd % 8;
    var byteStart := paraStart / 8;
    var byteEnd := paraEnd / 8 - (if rightOffset == 0 then 1 else 0);
    var newLen := byteEnd - byteStart + 1;
    var valueNew: seq<Byte> := value[byteStart..byteStart + newLen];
    ghost var s: seq<Byte> := valueNew;
    valueNew := valueNew[0 := Shr(Shl(valueNew[0], leftOffset), leftOffset)];
    ghost var w: seq<Byte> := valueNew;
    if rightOffset != 0 {
      ClearedLowBits(valueNew[newLen - 1], 8 - rightOffset);
      valueNew := valueNew[newLen - 1 := Shl(Shr(valueNew[newLen - 1], 8 - rightOffset), 8 - rightOffset)];
    }
    ghost var end := 8 * (newLen - 1) + (if rightOffset == 0 then 8 else rightOffset);
    var val := ReadParam(w, valueNew, rightOffset, Bytes8(len), end);
    assert end == leftOffset + len;
    ParamValue(value, byteStart, s, w, leftOffset, len, end, val);
    para := ActionParam(len, val);
  }

  // ----- all of them

  class Action {
    var actionParaLens: seq<nat>
    var actionParas: seq<ActionParam>

    constructor (lens: seq<nat>)
      ensures actionParaLens == lens && actionParas == []
    {
      actionParaLens, actionParas := lens, [];
    }

    /** The value begins with two bytes of action id. */
    method SetActionParas(value: seq<Byte>)
      requires forall i :: 0 <= i < |actionParaLens| ==> actionParaLens[i] >= 1
      requires 16 + Offset(actionParaLens, |actionParaLens|) <= 8 * |value|
      modifies this
      ensures actionParaLens == old(actionParaLens)
      ensures Unpacked(value, actionParaLens, |actionParaLens|, actionParas)
    {
      actionParas := [];
      var curOffset := 16;
      var lens := actionParaLens;
      for i := 0 to |lens|
        invariant actionParaLens == lens && curOffset == 16 + Offset(lens, i)
        invariant Unpacked(value, lens, i, actionParas)
      {
        OffsetsGrow(lens, i + 1, |lens|);
        var para := UnpackParam(value, curOffset, lens[i]);
        OneMoreUnpacked(value, lens, i, actionParas, para);
        actionParas := actionParas + [para];
        curOffset := curOffset + lens[i];
      }
    }
  }

  lemma {:induction false} OneMoreUnpacked(value: seq<Byte>, lens: seq<nat>, n: nat, paras: seq<ActionParam>,
                                           para: ActionParam)
    requires n < |lens| && Unpacked(value, lens, n, paras) && ParamRead(value, 16 + Offset(lens, n), lens[n], para)
    ensures Unpacked(value, lens, n + 1, paras + [para])
  {
    var paras' := paras + [para];
    forall i | 0 <= i < n + 1
      ensures UnpackedAt(value, lens, i, paras')
    {
      if i < n {
        assert UnpackedAt(value, lens, i, paras);
      }
    }
  }

  lemma {:induction false} OffsetsGrow(lens: seq<nat>, m: nat, n: nat)
    requires m <= n <= |lens|
    ensures Offset(lens, m) <= Offset(lens, n)
  {
    if m < n {
      OffsetsGrow(lens, m, n - 1);
    }
  }

  // ----- packed and unpacked

  lemma {:induction false} SameBytes(s: seq<Byte>, t: seq<Byte>)
    requires |s| == |t| && BytesValue(s) == BytesValue(t)
    ensures s == t
  {
    if s != [] {
      SameBytes(s[..|s| - 1], t[..|t| - 1]);
      assert s == s[..|s| - 1] + [s[|s| - 1]] && t == t[..|t| - 1] + [t[|t| - 1]];
    }
  }

  lemma {:induction false} OffsetIsBefore(ps: seq<Param>, lens: seq<nat>, n: nat)
    requires HasWidths(ps, lens) && n <= |ps|
    ensures Offset(lens, n) == Before(ps, n)
  {
    if n > 0 {
      OffsetIsBefore(ps, lens, n - 1);
      BeforeNext(ps, n - 1);
    }
  }

  /** An action that knows the widths gets exactly the bytes of the parameters that were packed. */
  lemma {:induction false} UnpackedAreThePacked(ps: seq<Param>, lens: seq<nat>, actionId: nat,
                                                paras: seq<ActionParam>, i: nat)
    requires HasWidths(ps, lens) && RoundTrips(ps, actionId) && i < |lens|
    requires Unpacked(Prefixed(actionId, Encoded(ps).cursor.key), lens, |lens|, paras)
    ensures paras[i] == ActionParam(ps[i].width, ps[i].val)
  {
    var value := Prefixed(actionId, Encoded(ps).cursor.key);
    OffsetIsBefore(ps, lens, i);
    assert HoldsNth(value, 2, ps, i) && UnpackedAt(value, lens, i, paras);
    SameBytes(paras[i].val, ps[i].val);
  }

  // ----- from the controller to the data plane

  /** The action an entry's value names: the first byte is the high one. */
  method ActionIdOf(value: seq<Byte>) returns (actionId: nat)
    requires |value| >= 2
    ensures actionId == FieldValue(value, 0, 16) < 0x1_0000
  {
    var low: nat, high: nat := value[1], value[0];
    actionId := low + high * 256;
    TwoBytes(value);
  }

  lemma {:induction false} RoomForAll(ps: seq<Param>, lens: seq<nat>, value: seq<Byte>)
    requires HasWidths(ps, lens) && Encoded(ps).Filled? && |value| == 2 + |Encoded(ps).cursor.key|
    ensures 16 + Offset(lens, |lens|) <= 8 * |value|
  {
    EncodedKey(ps);
    OffsetIsBefore(ps, lens, |lens|);
  }

  lemma {:induction false} IsPacked(ps: seq<Param>)
    requires WholeBytesButLast(ps) && forall n :: 0 <= n < |ps| ==> InRange(ps[n])
    ensures RoundTrips(ps, 0) && Encoded(ps).Filled?
  {
    EncodedKey(ps);
    WholeBytesAreHeld(Cursor(Zeros(Bytes8(Before(ps, |ps|))), 0, 8), ps);
    BehindPrefix(Encoded(ps).cursor.key, 0, ps);
  }

  lemma {:induction false} IsPackedBehind(ps: seq<Param>, actionId: nat)
    requires RoundTrips(ps, 0)
    ensures RoundTrips(ps, actionId)
  {
    EncodedKey(ps);
    BehindPrefix(Encoded(ps).cursor.key, 0, ps);
    BehindPrefix(Encoded(ps).cursor.key, actionId, ps);
  }

  /** Parameters of whole bytes, but for the last, packed by the controller behind an action id of sixteen bits: the
      data plane finds the action and gives it the parameters. */
  method PackAndUnpack(ps: seq<Param>, actionId: nat, action: Action) returns (found: nat)
    requires actionId < 0x1_0000 && HasWidths(ps, action.actionParaLens) && WholeBytesButLast(ps)
    requires forall n :: 0 <= n < |ps| ==> InRange(ps[n])
    modifies action
    ensures found == actionId && |action.actionParas| == |ps|
    ensures forall n :: 0 <= n < |ps| ==> action.actionParas[n] == ActionParam(ps[n].width, ps[n].val)
  {
    IsPacked(ps);
    IsPackedBehind(ps, actionId);
    var packed, width := ExtractActionPara(ps);
    var value := [actionId / 256 % 256, actionId % 256] + packed.cursor.key;
    assert value == Prefixed(actionId, packed.cursor.key);
    ActionIdComesBack(actionId, packed.cursor.key);
    found := ActionIdOf(value);
    ghost var lens := action.actionParaLens;
    RoomForAll(ps, lens, value);
    action.SetActionParas(value);
    forall n | 0 <= n < |ps|
      ensures action.actionParas[n] == ActionParam(ps[n].width, ps[n].val)
    {
      UnpackedAreThePacked(ps, lens, actionId, action.actionParas, n);
    }
  }
}
