/** sw-src/controller/ctrl_mod_table.h and sw-src/dataplane/executor.h: packing the parameters of an action
    into the value of a table entry, and unpacking them. */
module ActionParams {
  import opened Powers
  import opened Bytes
  import opened FieldRead

  /** A parameter's bytes, moved to the left, the bits of its last byte that are empty. */
  datatype KeyInfo = KeyInfo(tailOffset: nat, field: seq<Byte>)

  // ----- extract_action_para: moving a parameter's bytes to the left

  function AlignedByte(val: seq<Byte>, empty: nat, i: nat): Byte
    requires i < |val| && empty < 8
  {
    if i + 1 < |val| then Across(val[i], val[i + 1], 8 - empty) else Shl(val[i], empty)
  }

  function Aligned(val: seq<Byte>, empty: nat): (a: seq<Byte>)
    requires empty < 8
    ensures |a| == |val|
  {
    seq(|val|, i requires 0 <= i < |val| => AlignedByte(val, empty, i))
  }

  method AlignLeft(val: seq<Byte>, empty: nat) returns (para: seq<Byte>)
    requires |val| >= 1 && empty < 8
    ensures para == Aligned(val, empty)
  {
    para := val;
    for i := 0 to |val| - 1
      invariant |para| == |val| && forall j :: 0 <= j < i ==> para[j] == AlignedByte(val, empty, j)
      invariant forall j :: i <= j < |val| ==> para[j] == val[j]
    {
      para := para[i := Across(para[i], para[i + 1], 8 - empty)];
    }
    para := para[|val| - 1 := Shl(para[|val| - 1], empty)];
  }

  lemma {:induction false} AlignedByteValue(val: seq<Byte>, empty: nat, i: nat)
    requires i < |val| && empty < 8
    ensures FieldValue(val, 8 * i + empty, 8) == AlignedByte(val, empty, i)
  {
    if i + 1 < |val| {
      ByteAcross(val, i + 1, 8 - empty, val[i], val[i + 1]);
    } else {
      FieldSplit(val, 8 * i + empty, 8 - empty, empty);
      LowBits(val, i, 8 - empty);
      PastTheEnd(val, 8 * |val|, empty);
      ShlIsLow(val[i], empty);
    }
  }

  lemma {:induction false} PastTheEnd(p: seq<Byte>, b: nat, len: nat)
    requires b >= 8 * |p|
    ensures FieldValue(p, b, len) == 0
  {
    if len > 0 {
      PastTheEnd(p, b, len - 1);
      LastBit(p, b, len);
    }
  }

  /** The moved bytes, byte by byte. */
  lemma {:induction false} AlignedField(val: seq<Byte>, empty: nat, a: seq<Byte>, n: nat)
    requires n <= |val| == |a| && empty < 8 && forall i :: 0 <= i < n ==> a[i] == AlignedByte(val, empty, i)
    ensures FieldValue(a, 0, 8 * n) == FieldValue(val, empty, 8 * n)
  {
    if n > 0 {
      AlignedField(val, empty, a, n - 1);
      AlignedByteValue(val, empty, n - 1);
      WholeByte(a, n - 1);
      assert FieldValue(a, 8 * (n - 1), 8) == FieldValue(val, 8 * (n - 1) + empty, 8);
      ByteOn(a, 0, val, empty, 8 * (n - 1), 8 * n);
    }
  }

  lemma {:induction false} ByteOn(p: seq<Byte>, b: nat, q: seq<Byte>, c: nat, m: nat, n: nat)
    requires FieldValue(p, b, m) == FieldValue(q, c, m) && FieldValue(p, b + m, 8) == FieldValue(q, m + c, 8)
    requires n == m + 8
    ensures FieldValue(p, b, n) == FieldValue(q, c, n)
  {
    FieldSplit(p, b, m, 8);
    FieldSplit(q, c, m, 8);
  }

  lemma {:induction false} FirstBits(p: seq<Byte>, b: nat, q: seq<Byte>, c: nat, m: nat, n: nat)
    requires FieldValue(p, b, m + n) == FieldValue(q, c, m + n)
    ensures FieldValue(p, b, m) == FieldValue(q, c, m)
  {
    FieldParts(p, b, m, n);
    FieldParts(q, c, m, n);
  }

  /** The last bits of some bytes are their value, if it is small enough. */
  lemma {:induction false} SmallValue(val: seq<Byte>, empty: nat, width: nat)
    requires width + empty == 8 * |val| && BytesValue(val) < Pow2(width)
    ensures FieldValue(val, empty, width) == BytesValue(val)
  {
    FieldOfBytes(val, 0, |val|);
    assert val[0..0 + |val|] == val;
    FieldParts(val, 0, empty, width);
    SmallLow(BytesValue(val), width);
  }

  /** The first bits of the moved bytes are the parameter's value. */
  lemma {:induction false} AlignedValue(val: seq<Byte>, empty: nat, width: nat)
    requires empty < 8 && width + empty == 8 * |val| && BytesValue(val) < Pow2(width)
    ensures FieldValue(Aligned(val, empty), 0, width) == BytesValue(val)
  {
    AlignedField(val, empty, Aligned(val, empty), |val|);
    FirstBits(Aligned(val, empty), 0, val, empty, width, empty);
    SmallValue(val, empty, width);
  }

  // ----- combine_to_single_key

  /** The bytes being filled, the byte the loop is at, and how many of its bits are left. */
  datatype Cursor = Cursor(key: seq<Byte>, idx: nat, left: nat)

  /** Either that, or the loop has touched a byte past the end. */
  datatype Combined = Overrun | Filled(cursor: Cursor)

  function AddTop(c: Cursor, x: Byte): Cursor
    requires c.idx < |c.key| && c.left <= 8
  {
    c.(key := c.key[c.idx := (c.key[c.idx] + Shr(x, 8 - c.left)) % 256])
  }

  /** A byte that is not the parameter's last. */
  function PutInner(c: Cursor, x: Byte): Combined
    requires c.left <= 8
  {
    if c.idx >= |c.key| then Overrun
    else if c.left == 8 then Filled(AddTop(c, x).(idx := c.idx + 1))
    else if c.idx + 1 >= |c.key| then Overrun
    else Filled(Cursor(AddTop(c, x).key[c.idx + 1 := Shl(x, c.left)], c.idx + 1, c.left))
  }

  /** The parameter's last byte, `tail` bits of which are empty. */
  function PutLast(c: Cursor, x: Byte, tail: nat): (r: Combined)
    requires c.left <= 8 && tail <= 8
    ensures r.Filled? ==> r.cursor.left <= 8
  {
    if c.idx >= |c.key| then Overrun
    else if c.left > tail then Filled(AddTop(c, x).(idx := c.idx + 1, left := c.left - tail))
    else if c.left == tail then Filled(AddTop(c, x).(idx := c.idx + 1, left := 8))
    else if c.idx + 1 >= |c.key| then Overrun
    else Filled(Cursor(AddTop(c, x).key[c.idx + 1 := Shl(x, c.left)], c.idx + 1, 8 - tail + c.left))
  }

  function PutField(c: Cursor, fd: seq<Byte>, tail: nat): (r: Combined)
    requires c.left <= 8 && tail <= 8
    ensures r.Filled? ==> r.cursor.left <= 8
    decreases |fd|
  {
    if fd == [] then Filled(c)
    else if |fd| == 1 then PutLast(c, fd[0], tail)
    else match PutInner(c, fd[0])
      case Overrun => Overrun
      case Filled(c') => PutField(c', fd[1..], tail)
  }

  function PutAll(c: Cursor, infos: seq<KeyInfo>): Combined
    requires c.left <= 8 && forall k :: 0 <= k < |infos| ==> infos[k].tailOffset <= 8
    decreases |infos|
  {
    if infos == [] then Filled(c)
    else match PutField(c, infos[0].field, infos[0].tailOffset)
      case Overrun => Overrun
      case Filled(c') => PutAll(c', infos[1..])
  }

  function Zeros(n: nat): (z: seq<Byte>)
    ensures |z| == n && forall k :: 0 <= k < n ==> z[k] == 0
  {
    seq(n, _ => 0)
  }

  method CombineToSingleKey(infos: seq<KeyInfo>, lenSum: nat) returns (r: Combined)
    requires forall k :: 0 <= k < |infos| ==> infos[k].tailOffset <= 8
    ensures r == PutAll(Cursor(Zeros(Bytes8(lenSum)), 0, 8), infos)
  {
    var c := Cursor(Zeros(Bytes8(lenSum)), 0, 8);
    ghost var start := c;
    var k := 0;
    while k < |infos|
      invariant 0 <= k <= |infos| && c.left <= 8
      invariant PutAll(start, infos) == PutAll(c, infos[k..])
    {
      r := CombineField(c, infos[k].field, infos[k].tailOffset);
      if r.Overrun? {
        return;
      }
      c := r.cursor;
      assert infos[k..][1..] == infos[k + 1..];
      k := k + 1;
    }
    r := Filled(c);
  }

  method CombineField(c0: Cursor, fd: seq<Byte>, tail: nat) returns (r: Combined)
    requires c0.left <= 8 && tail <= 8
    ensures r == PutField(c0, fd, tail)
  {
    var c := c0;
    var i := 0;
    while i < |fd|
      invariant 0 <= i <= |fd| && c.left <= 8
      invariant PutField(c0, fd, tail) == PutField(c, fd[i..], tail)
    {
      r := if i < |fd| - 1 then PutInner(c, fd[i]) else PutLast(c, fd[i], tail);
      if r.Overrun? {
        return;
      }
      c := r.cursor;
      assert fd[i..][1..] == fd[i + 1..];
      i := i + 1;
    }
    r := Filled(c);
  }

  // ----- extract_action_para

  datatype Param = Param(width: nat, val: seq<Byte>)

  /** As many bytes as the width needs; the entry's file has that many. */
  predicate WellFormed(p: Param) {
    p.width >= 1 && |p.val| == Bytes8(p.width)
  }

  function Empty(width: nat): (e: nat)
    ensures e < 8 && width + e == 8 * Bytes8(width) && (e == 0 <==> width % 8 == 0)
  {
    8 * Bytes8(width) - width
  }

  function Info(p: Param): KeyInfo {
    KeyInfo(Empty(p.width), Aligned(p.val, Empty(p.width)))
  }

  function Infos(ps: seq<Param>): (r: seq<KeyInfo>)
    ensures |r| == |ps| && forall k :: 0 <= k < |r| ==> r[k].tailOffset <= 8
  {
    if ps == [] then [] else [Info(ps[0])] + Infos(ps[1..])
  }

  /** The bits of the first `n` parameters. */
  function Before(ps: seq<Param>, n: nat): nat
    requires n <= |ps|
  {
    if n == 0 then 0 else ps[0].width + Before(ps[1..], n - 1)
  }

  function Encoded(ps: seq<Param>): Combined {
    PutAll(Cursor(Zeros(Bytes8(Before(ps, |ps|))), 0, 8), Infos(ps))
  }

  lemma {:induction false} BeforeNext(ps: seq<Param>, n: nat)
    requires n < |ps|
    ensures Before(ps, n + 1) == Before(ps, n) + ps[n].width
  {
    if n > 0 {
      BeforeNext(ps[1..], n - 1);
    }
  }

  lemma {:induction false} InfosAt(ps: seq<Param>, n: nat)
    requires n < |ps|
    ensures Infos(ps)[n] == Info(ps[n])
  {
    if n > 0 {
      InfosAt(ps[1..], n - 1);
    }
  }

  method ExtractActionPara(ps: seq<Param>) returns (r: Combined, valueWidth: nat)
    requires forall k :: 0 <= k < |ps| ==> WellFormed(ps[k])
    ensures r == Encoded(ps) && valueWidth == Bytes8(Before(ps, |ps|))
    ensures r.Filled? ==> |r.cursor.key| == valueWidth
  {
    var widthSum := 0;
    var keyInfos: seq<KeyInfo> := [];
    for k := 0 to |ps|
      invariant widthSum == Before(ps, k) && keyInfos == Infos(ps)[..k]
    {
      BeforeNext(ps, k);
      InfosAt(ps, k);
      widthSum := widthSum + ps[k].width;
      var emptyLen := Bytes8(ps[k].width) * 8 - ps[k].width;
      var para := AlignLeft(ps[k].val, emptyLen);
      keyInfos := keyInfos + [KeyInfo(emptyLen, para)];
    }
    valueWidth := Bytes8(widthSum);
    assert keyInfos == Infos(ps);
    r := CombineToSingleKey(keyInfos, widthSum);
    BytesDoneKept(Cursor(Zeros(Bytes8(widthSum)), 0, 8), keyInfos);
  }

  /** The entry's value: two bytes of action id, then the parameters. */
  function Prefixed(actionId: nat, value: seq<Byte>): seq<Byte> {
    [actionId / 256 % 256, actionId % 256] + value
  }

  // ----- what the loop has passed it does not touch again

  ghost predicate Extends(c: Cursor, c': Cursor) {
    && |c'.key| == |c.key| && c.idx <= c'.idx
    && forall j :: 0 <= j < c.idx && j < |c.key| ==> c'.key[j] == c.key[j]
  }

  lemma {:induction false} FieldBytesKept(c: Cursor, fd: seq<Byte>, tail: nat)
    requires c.left <= 8 && tail <= 8 && PutField(c, fd, tail).Filled?
    ensures Extends(c, PutField(c, fd, tail).cursor)
    decreases |fd|
  {
    if |fd| > 1 {
      FieldBytesKept(PutInner(c, fd[0]).cursor, fd[1..], tail);
    }
  }

  lemma {:induction false} BytesDoneKept(c: Cursor, infos: seq<KeyInfo>)
    requires c.left <= 8 && forall k :: 0 <= k < |infos| ==> infos[k].tailOffset <= 8
    ensures PutAll(c, infos).Filled? ==> Extends(c, PutAll(c, infos).cursor)
    decreases |infos|
  {
    if infos != [] && PutField(c, infos[0].field, infos[0].tailOffset).Filled? {
      FieldBytesKept(c, infos[0].field, infos[0].tailOffset);
      BytesDoneKept(PutField(c, infos[0].field, infos[0].tailOffset).cursor, infos[1..]);
    }
  }

  // ----- parameters that begin on a byte

  /** A parameter put at the beginning of empty bytes is copied there. */
  lemma {:induction false} PutWhole(c: Cursor, fd: seq<Byte>, tail: nat)
    requires c.left == 8 && tail < 8 && |fd| >= 1 && c.idx + |fd| <= |c.key|
    requires forall j :: c.idx <= j < |c.key| ==> c.key[j] == 0
    ensures PutField(c, fd, tail).Filled?
    ensures var c' := PutField(c, fd, tail).cursor; Copied(c, fd, c') && c'.left == 8 - tail
    decreases |fd|
  {
    var c1 := AddTop(c, fd[0]).(idx := c.idx + 1);
    if |fd| > 1 {
      assert PutInner(c, fd[0]) == Filled(c1);
      PutWhole(c1, fd[1..], tail);
      CopiedOn(c, fd, c1, PutField(c1, fd[1..], tail).cursor);
    }
  }

  ghost predicate Copied(c: Cursor, fd: seq<Byte>, c': Cursor) {
    && |c'.key| == |c.key| && c'.idx == c.idx + |fd| <= |c.key|
    && (forall j :: 0 <= j < c.idx ==> c'.key[j] == c.key[j])
    && c'.key[c.idx..c'.idx] == fd
    && forall j :: c'.idx <= j < |c.key| ==> c'.key[j] == 0
  }

  lemma {:induction false} CopiedOn(c: Cursor, fd: seq<Byte>, c1: Cursor, c2: Cursor)
    requires |fd| > 1 && c.left == 8 && c.idx + |fd| <= |c.key| && c.key[c.idx] == 0
    requires c1 == AddTop(c, fd[0]).(idx := c.idx + 1) && Copied(c1, fd[1..], c2)
    ensures Copied(c, fd, c2)
  {
    assert c2.key[c.idx..c2.idx] == [c2.key[c.idx]] + c2.key[c1.idx..c2.idx];
    assert c2.key[c.idx] == fd[0];
  }

  /** The parameters, found in the filled bytes, from bit `8 * i` on. */
  ghost predicate Holds(key: seq<Byte>, i: nat, ps: seq<Param>) {
    forall n :: 0 <= n < |ps| ==> HoldsNth(key, i, ps, n)
  }

  ghost predicate HoldsNth(key: seq<Byte>, i: nat, ps: seq<Param>, n: nat) {
    n < |ps| && HoldsAt(key, 8 * i + Before(ps, n), ps[n])
  }

  ghost predicate HoldsAt(key: seq<Byte>, b: nat, p: Param) {
    FieldValue(key, b, p.width) == BytesValue(p.val)
  }

  ghost predicate InRange(p: Param) {
    WellFormed(p) && BytesValue(p.val) < Pow2(p.width)
  }

  /** Every parameter but the last fills whole bytes. */
  ghost predicate WholeBytesButLast(ps: seq<Param>) {
    forall n :: 0 <= n < |ps| - 1 ==> ps[n].width % 8 == 0
  }

  lemma {:induction false} RestWhole(ps: seq<Param>)
    requires |ps| > 1 && WholeBytesButLast(ps)
    ensures ps[0].width % 8 == 0 && WholeBytesButLast(ps[1..])
  {
    forall n | 0 <= n < |ps[1..]| - 1
      ensures ps[1..][n].width % 8 == 0
    {
      assert ps[1..][n] == ps[n + 1];
    }
  }

  /** Empty bytes, with room for the parameters. */
  ghost predicate Ready(c: Cursor, ps: seq<Param>) {
    && c.left == 8 && c.idx <= |c.key| && 8 * (|c.key| - c.idx) >= Before(ps, |ps|)
    && forall j :: c.idx <= j < |c.key| ==> c.key[j] == 0
  }

  lemma {:induction false} PutFirst(c: Cursor, ps: seq<Param>)
    requires ps != [] && InRange(ps[0]) && Ready(c, ps)
    ensures var r := PutField(c, Info(ps[0]).field, Info(ps[0]).tailOffset);
            && r.Filled? && Copied(c, Info(ps[0]).field, r.cursor)
            && (ps[0].width % 8 == 0 ==> Ready(r.cursor, ps[1..]))
  {
    assert Before(ps, |ps|) == ps[0].width + Before(ps[1..], |ps| - 1);
    PutWhole(c, Info(ps[0]).field, Info(ps[0]).tailOffset);
  }

  lemma {:induction false} WholeBytesAreHeld(c: Cursor, ps: seq<Param>)
    requires Ready(c, ps) && WholeBytesButLast(ps) && forall n :: 0 <= n < |ps| ==> InRange(ps[n])
    ensures PutAll(c, Infos(ps)).Filled? && Holds(PutAll(c, Infos(ps)).cursor.key, c.idx, ps)
    decreases |ps|
  {
    if ps != [] {
      var c1 := FirstPut(c, ps);
      if |ps| == 1 {
        FirstIsHeld(c, ps, c1, c1);
      } else {
        RestWhole(ps);
        WholeBytesAreHeld(c1, ps[1..]);
        FirstIsHeld(c, ps, c1, PutAll(c, Infos(ps)).cursor);
      }
    }
  }

  lemma {:induction false} CopyIsHeld(key: seq<Byte>, i: nat, p: Param)
    requires InRange(p) && i + |p.val| <= |key| && key[i..i + |p.val|] == Info(p).field
    ensures HoldsAt(key, 8 * i, p)
  {
    AlignedValue(p.val, Empty(p.width), p.width);
    FieldOfSlice(key, i, Info(p).field, 0, p.width);
  }

  lemma {:induction false} CopyIsKept(c: Cursor, fd: seq<Byte>, c1: Cursor, c2: Cursor)
    requires Copied(c, fd, c1) && Extends(c1, c2)
    ensures c.idx + |fd| <= |c2.key| && c2.key[c.idx..c.idx + |fd|] == fd
  {
    assert c2.key[c.idx..c.idx + |fd|] == c1.key[c.idx..c1.idx];
  }

  lemma {:induction false} RestIsHeld(key: seq<Byte>, i: nat, i1: nat, ps: seq<Param>, n: nat)
    requires 0 < n < |ps| && 8 * i1 == 8 * i + ps[0].width && Holds(key, i1, ps[1..])
    ensures HoldsNth(key, i, ps, n)
  {
    assert HoldsNth(key, i1, ps[1..], n - 1);
  }

  lemma {:induction false} AllHeld(key: seq<Byte>, i: nat, i1: nat, ps: seq<Param>)
    requires |ps| >= 1 && HoldsAt(key, 8 * i, ps[0])
    requires |ps| > 1 ==> 8 * i1 == 8 * i + ps[0].width && Holds(key, i1, ps[1..])
    ensures Holds(key, i, ps)
  {
    forall n | 0 <= n < |ps|
      ensures HoldsNth(key, i, ps, n)
    {
      if n > 0 {
        RestIsHeld(key, i, i1, ps, n);
      }
    }
  }

  lemma {:induction false} FirstIsHeld(c: Cursor, ps: seq<Param>, c1: Cursor, c2: Cursor)
    requires |ps| >= 1 && InRange(ps[0]) && Copied(c, Info(ps[0]).field, c1) && Extends(c1, c2)
    requires |ps| > 1 ==> ps[0].width % 8 == 0 && Holds(c2.key, c1.idx, ps[1..])
    ensures Holds(c2.key, c.idx, ps)
  {
    CopyIsKept(c, Info(ps[0]).field, c1, c2);
    CopyIsHeld(c2.key, c.idx, ps[0]);
    AllHeld(c2.key, c.idx, c1.idx, ps);
  }

  // ----- parameters that do not

  function Zero(width: nat): Param {
    Param(width, Zeros(Bytes8(width)))
  }

  /** The parameter with only its first bit set. */
  function Top(width: nat): Param
    requires width >= 1
  {
    Param(width, ToBytes(Pow2(width - 1), Bytes8(width)))
  }

  lemma {:induction false} ZeroInRange(width: nat)
    requires width >= 1
    ensures InRange(Zero(width)) && BytesValue(Zero(width).val) == 0
  {
    ZerosValue(Zero(width).val);
  }

  lemma {:induction false} TopInRange(width: nat)
    requires width >= 1
    ensures InRange(Top(width)) && BytesValue(Top(width).val) == Pow2(width - 1)
  {
    Pow256IsPow2(Bytes8(width));
    Pow2AtMost(width, 8 * Bytes8(width));
    ToBytesValue(Pow2(width - 1), Bytes8(width));
  }

  ghost predicate HasWidths(ps: seq<Param>, widths: seq<nat>) {
    |ps| == |widths| && forall n :: 0 <= n < |ps| ==> ps[n].width == widths[n] && InRange(ps[n])
  }

  function AllZero(widths: seq<nat>): seq<Param> {
    if widths == [] then [] else [Zero(widths[0])] + AllZero(widths[1..])
  }

  lemma {:induction false} AllZeroHas(widths: seq<nat>)
    requires forall n :: 0 <= n < |widths| ==> widths[n] >= 1
    ensures HasWidths(AllZero(widths), widths)
  {
    if widths != [] {
      ZeroInRange(widths[0]);
      AllZeroHas(widths[1..]);
      OneMore(Zero(widths[0]), AllZero(widths[1..]), widths);
    }
  }

  lemma {:induction false} OneMore(p: Param, ps: seq<Param>, widths: seq<nat>)
    requires widths != [] && InRange(p) && p.width == widths[0] && HasWidths(ps, widths[1..])
    ensures HasWidths([p] + ps, widths)
  {
    forall n | 0 <= n < |widths|
      ensures ([p] + ps)[n].width == widths[n] && InRange(([p] + ps)[n])
    {
      if n > 0 {
        assert ([p] + ps)[n] == ps[n - 1] && widths[n] == widths[1..][n - 1];
      }
    }
  }

  /** Values that get lost: the parameter after the first one that does not fill its bytes has its first bit
      set. */
  function Lost(widths: seq<nat>): seq<Param>
    requires forall n :: 0 <= n < |widths| ==> widths[n] >= 1
  {
    if |widths| < 2 then AllZero(widths)
    else if widths[0] % 8 != 0 then [Zero(widths[0])] + ([Top(widths[1])] + AllZero(widths[2..]))
    else [Zero(widths[0])] + Lost(widths[1..])
  }

  lemma {:induction false} LostHas(widths: seq<nat>)
    requires forall n :: 0 <= n < |widths| ==> widths[n] >= 1
    ensures HasWidths(Lost(widths), widths)
  {
    if |widths| < 2 {
      AllZeroHas(widths);
    } else {
      ZeroInRange(widths[0]);
      if widths[0] % 8 != 0 {
        TopInRange(widths[1]);
        assert widths[1..][1..] == widths[2..];
        AllZeroHas(widths[2..]);
        OneMore(Top(widths[1]), AllZero(widths[2..]), widths[1..]);
        OneMore(Zero(widths[0]), [Top(widths[1])] + AllZero(widths[2..]), widths);
      } else {
        LostHas(widths[1..]);
        OneMore(Zero(widths[0]), Lost(widths[1..]), widths);
      }
    }
  }

  lemma {:induction false} ShlZero(r: nat)
    ensures Shl(0, r) == 0 && Shr(0, r) == 0
  {
    if r > 0 {
      ShlZero(r - 1);
    }
  }

  lemma {:induction false} AlignedByteZero(val: seq<Byte>, empty: nat, i: nat)
    requires i < |val| && empty < 8 && forall j :: 0 <= j < |val| ==> val[j] == 0
    ensures AlignedByte(val, empty, i) == 0
  {
    ShlZero(empty);
    ShlZero(8 - empty);
  }

  lemma {:induction false} AlignedZero(width: nat, i: nat)
    requires i < Bytes8(width)
    ensures Info(Zero(width)).field[i] == 0
  {
    AlignedByteZero(Zero(width).val, Empty(width), i);
  }

  /** A field whose first bit is zero is less than half of what it can be. */
  lemma {:induction false} FirstBitZero(p: seq<Byte>, b: nat, len: nat)
    requires len >= 1 && Bit(p, b) == 0
    ensures FieldValue(p, b, len) < Pow2(len - 1)
  {
    LastBit(p, b, 1);
    FieldSplit(p, b, 1, len - 1);
    FieldBound(p, b + 1, len - 1);
    assert FieldValue(p, b, 0) == 0;
  }

  lemma {:induction false} BitOfZero(p: seq<Byte>, b: nat)
    requires b / 8 < |p| && p[b / 8] == 0
    ensures Bit(p, b) == 0
  {
    ShlZero(7 - b % 8);
  }

  /** After a parameter with bits left over in its last byte, the next one begins in the byte after: its first
      bit is read as zero. */
  lemma {:induction false} FirstIsLost(c: Cursor, ps: seq<Param>, c1: Cursor, c2: Cursor)
    requires |ps| >= 2 && ps[0] == Zero(ps[0].width) && ps[0].width >= 1 && ps[0].width % 8 != 0 && ps[1].width >= 1
    requires Copied(c, Info(ps[0]).field, c1) && Extends(c1, c2) && BytesValue(ps[1].val) == Pow2(ps[1].width - 1)
    ensures !Holds(c2.key, c.idx, ps)
  {
    var w, last := ps[0].width, Bytes8(ps[0].width) - 1;
    var b := 8 * c.idx + w;
    CopyIsKept(c, Info(ps[0]).field, c1, c2);
    AlignedZero(w, last);
    assert c2.key[c.idx + last] == c2.key[c.idx..c.idx + (last + 1)][last];
    assert b / 8 == c.idx + last;
    BitOfZero(c2.key, b);
    FirstBitZero(c2.key, b, ps[1].width);
    assert Before(ps, 1) == w;
    assert !HoldsNth(c2.key, c.idx, ps, 1);
  }

  lemma {:induction false} MisalignedIsLost(c: Cursor, widths: seq<nat>)
    requires forall n :: 0 <= n < |widths| ==> widths[n] >= 1
    requires exists n :: 0 <= n < |widths| - 1 && widths[n] % 8 != 0
    requires Ready(c, Lost(widths))
    ensures var r := PutAll(c, Infos(Lost(widths))); r.Filled? ==> !Holds(r.cursor.key, c.idx, Lost(widths))
    decreases |widths|
  {
    var ps := Lost(widths);
    ZeroInRange(widths[0]);
    var c1 := FirstPut(c, ps);
    if widths[0] % 8 != 0 {
      TopInRange(widths[1]);
      if PutAll(c, Infos(ps)).Filled? {
        FirstIsLost(c, ps, c1, PutAll(c, Infos(ps)).cursor);
      }
    } else {
      LostTail(widths);
      MisalignedRest(widths);
      MisalignedIsLost(c1, widths[1..]);
      if PutAll(c, Infos(ps)).Filled? {
        RestIsLost(PutAll(c, Infos(ps)).cursor.key, c.idx, c1.idx, ps);
      }
    }
  }

  lemma {:induction false} LostTail(widths: seq<nat>)
    requires |widths| >= 2 && widths[0] % 8 == 0 && forall n :: 0 <= n < |widths| ==> widths[n] >= 1
    ensures Lost(widths)[0] == Zero(widths[0]) && Lost(widths)[1..] == Lost(widths[1..])
  {
  }

  lemma {:induction false} FirstPut(c: Cursor, ps: seq<Param>) returns (c1: Cursor)
    requires ps != [] && InRange(ps[0]) && Ready(c, ps)
    ensures Copied(c, Info(ps[0]).field, c1) && c1.left <= 8 && PutAll(c, Infos(ps)) == PutAll(c1, Infos(ps[1..]))
    ensures PutAll(c, Infos(ps)).Filled? ==> Extends(c1, PutAll(c, Infos(ps)).cursor)
    ensures ps[0].width % 8 == 0 ==> Ready(c1, ps[1..])
  {
    PutFirst(c, ps);
    c1 := PutField(c, Info(ps[0]).field, Info(ps[0]).tailOffset).cursor;
    BytesDoneKept(c1, Infos(ps[1..]));
  }

  lemma {:induction false} MisalignedRest(widths: seq<nat>)
    requires exists n :: 0 <= n < |widths| - 1 && widths[n] % 8 != 0
    requires widths[0] % 8 == 0
    ensures exists n :: 0 <= n < |widths[1..]| - 1 && widths[1..][n] % 8 != 0
  {
    var n :| 0 <= n < |widths| - 1 && widths[n] % 8 != 0;
    assert widths[1..][n - 1] == widths[n];
  }

  lemma {:induction false} RestIsLost(key: seq<Byte>, i: nat, i1: nat, ps: seq<Param>)
    requires |ps| >= 1 && 8 * i1 == 8 * i + ps[0].width && !Holds(key, i1, ps[1..])
    ensures !Holds(key, i, ps)
  {
    var n :| 0 <= n < |ps[1..]| && !HoldsNth(key, i1, ps[1..], n);
    assert !HoldsNth(key, i, ps, n + 1);
  }

  // ----- the round trip

  /** Packed behind the action id, the parameters can be read where the data plane looks for them. */
  ghost predicate RoundTrips(ps: seq<Param>, actionId: nat) {
    Encoded(ps).Filled? && Holds(Prefixed(actionId, Encoded(ps).cursor.key), 2, ps)
  }

  lemma {:induction false} BeforeGrows(ps: seq<Param>, n: nat, m: nat)
    requires n < m <= |ps|
    ensures Before(ps, n) + ps[n].width <= Before(ps, m)
  {
    if n > 0 {
      BeforeGrows(ps[1..], n - 1, m - 1);
    }
  }

  lemma {:induction false} OneBehindPrefix(key: seq<Byte>, actionId: nat, b: nat, p: Param)
    requires b + p.width <= 8 * |key|
    ensures HoldsAt(Prefixed(actionId, key), 8 * 2 + b, p) <==> HoldsAt(key, b, p)
  {
    assert Prefixed(actionId, key)[2..2 + |key|] == key;
    FieldOfSlice(Prefixed(actionId, key), 2, key, b, p.width);
  }

  /** The action id in front moves everything by two bytes. */
  lemma {:induction false} BehindPrefix(key: seq<Byte>, actionId: nat, ps: seq<Param>)
    requires 8 * |key| >= Before(ps, |ps|)
    ensures Holds(Prefixed(actionId, key), 2, ps) <==> Holds(key, 0, ps)
  {
    forall n | 0 <= n < |ps|
      ensures HoldsNth(Prefixed(actionId, key), 2, ps, n) <==> HoldsNth(key, 0, ps, n)
    {
      BeforeGrows(ps, n, |ps|);
      OneBehindPrefix(key, actionId, Before(ps, n), ps[n]);
    }
  }

  lemma {:induction false} EncodedKey(ps: seq<Param>)
    ensures Ready(Cursor(Zeros(Bytes8(Before(ps, |ps|))), 0, 8), ps)
    ensures Encoded(ps).Filled? ==> 8 * |Encoded(ps).cursor.key| >= Before(ps, |ps|)
  {
    BytesDoneKept(Cursor(Zeros(Bytes8(Before(ps, |ps|))), 0, 8), Infos(ps));
  }

  lemma {:induction false} Comes(ps: seq<Param>, actionId: nat)
    requires WholeBytesButLast(ps) && forall n :: 0 <= n < |ps| ==> InRange(ps[n])
    ensures RoundTrips(ps, actionId)
  {
    EncodedKey(ps);
    WholeBytesAreHeld(Cursor(Zeros(Bytes8(Before(ps, |ps|))), 0, 8), ps);
    BehindPrefix(Encoded(ps).cursor.key, actionId, ps);
  }

  ghost predicate WidthsWhole(widths: seq<nat>) {
    forall n :: 0 <= n < |widths| - 1 ==> widths[n] % 8 == 0
  }

  /** A parameter list comes back for all values in range if and only if every width but the last is a whole
      number of bytes. */
  lemma {:induction false} ActionParametersRoundTrip(widths: seq<nat>, actionId: nat)
    requires forall n :: 0 <= n < |widths| ==> widths[n] >= 1
    ensures (forall ps :: HasWidths(ps, widths) ==> RoundTrips(ps, actionId)) <==> WidthsWhole(widths)
  {
    if WidthsWhole(widths) {
      forall ps: seq<Param> | HasWidths(ps, widths)
        ensures RoundTrips(ps, actionId)
      {
        forall n | 0 <= n < |ps| - 1
          ensures ps[n].width % 8 == 0
        {
          assert ps[n].width == widths[n];
        }
        Comes(ps, actionId);
      }
    } else {
      var ps := Lost(widths);
      LostHas(widths);
      EncodedKey(ps);
      MisalignedIsLost(Cursor(Zeros(Bytes8(Before(ps, |ps|))), 0, 8), widths);
      if Encoded(ps).Filled? {
        BehindPrefix(Encoded(ps).cursor.key, actionId, ps);
      }
      assert HasWidths(ps, widths) && !RoundTrips(ps, actionId);
    }
  }

  // ----- the value that is sent

  /** `extract` puts the action id in front and then hands on the value without it. The data plane reads the
      parameters behind 16 bits all the same; `behind` is whatever follows the value in memory. */
  ghost predicate SentRoundTrips(ps: seq<Param>, behind: seq<Byte>) {
    Encoded(ps).Filled? && Holds(Encoded(ps).cursor.key + behind, 2, ps)
  }

  lemma {:induction false} EncodedLength(ps: seq<Param>)
    requires Encoded(ps).Filled?
    ensures |Encoded(ps).cursor.key| == Bytes8(Before(ps, |ps|))
  {
    BytesDoneKept(Cursor(Zeros(Bytes8(Before(ps, |ps|))), 0, 8), Infos(ps));
  }

  /** Where the last bit of the last parameter is read, counted from the end of the value. */
  function BitBehind(total: nat): (k: nat)
    ensures k == total + 15 - 8 * Bytes8(total) && 8 <= k < 16
  {
    total + 15 - 8 * Bytes8(total)
  }

  lemma {:induction false} ReadBehind(key: seq<Byte>, behind: seq<Byte>, b: nat, width: nat)
    requires width >= 1 && |key| == Bytes8(b + width) && |behind| >= 2
    ensures FieldValue(key + behind, 16 + b, width) % 2 == Bit(behind, BitBehind(b + width))
  {
    LastBit(key + behind, 16 + b, width);
    assert (key + behind)[|key|..|key| + |behind|] == behind;
    BitOfSlice(key + behind, |key|, behind, BitBehind(b + width));
  }

  /** Whatever the parameters are, the last bit of the last one is read from behind the value. */
  lemma {:induction false} LastBitIsBehind(ps: seq<Param>, behind: seq<Byte>)
    requires ps != [] && ps[|ps| - 1].width >= 1 && |behind| >= 2 && SentRoundTrips(ps, behind)
    ensures BytesValue(ps[|ps| - 1].val) % 2 == Bit(behind, BitBehind(Before(ps, |ps|)))
  {
    var n := |ps| - 1;
    EncodedLength(ps);
    BeforeNext(ps, n);
    assert HoldsNth(Encoded(ps).cursor.key + behind, 2, ps, n);
    ReadBehind(Encoded(ps).cursor.key, behind, Before(ps, n), ps[n].width);
  }

  function One(width: nat): Param {
    Param(width, ToBytes(1, Bytes8(width)))
  }

  lemma {:induction false} OneInRange(width: nat)
    requires width >= 1
    ensures InRange(One(width)) && BytesValue(One(width).val) == 1
  {
    var n := Bytes8(width);
    assert Pow256(n) == 256 * Pow256(n - 1) && Pow2(width) == 2 * Pow2(width - 1);
    ToBytesValue(1, n);
  }

  lemma {:induction false} BeforeByWidths(ps: seq<Param>, qs: seq<Param>, n: nat)
    requires n <= |ps| == |qs| && forall k :: 0 <= k < |ps| ==> ps[k].width == qs[k].width
    ensures Before(ps, n) == Before(qs, n)
  {
    if n > 0 {
      BeforeByWidths(ps[1..], qs[1..], n - 1);
    }
  }

  lemma {:induction false} OneAtEnd(widths: seq<nat>) returns (ps: seq<Param>)
    requires widths != [] && forall n :: 0 <= n < |widths| ==> widths[n] >= 1
    ensures HasWidths(ps, widths) && BytesValue(ps[|ps| - 1].val) == 1
  {
    var n := |widths| - 1;
    AllZeroHas(widths);
    OneInRange(widths[n]);
    ps := AllZero(widths)[n := One(widths[n])];
  }

  lemma {:induction false} LastIsZero(widths: seq<nat>)
    requires widths != []
    ensures |AllZero(widths)| == |widths| && BytesValue(AllZero(widths)[|widths| - 1].val) == 0
  {
    if |widths| == 1 {
      ZerosValue(Zero(widths[0]).val);
    } else {
      LastIsZero(widths[1..]);
    }
  }

  /** Behind the value that is sent, parameters come back for all values in range exactly if there are none. */
  lemma {:induction false} SentParametersRoundTrip(widths: seq<nat>, behind: seq<Byte>)
    requires |behind| >= 2 && forall n :: 0 <= n < |widths| ==> widths[n] >= 1
    ensures (forall ps :: HasWidths(ps, widths) ==> SentRoundTrips(ps, behind)) <==> widths == []
  {
    if widths != [] {
      var ps := OneAtEnd(widths);
      var qs := AllZero(widths);
      AllZeroHas(widths);
      LastIsZero(widths);
      BeforeByWidths(ps, qs, |ps|);
      if SentRoundTrips(ps, behind) && SentRoundTrips(qs, behind) {
        LastBitIsBehind(ps, behind);
        LastBitIsBehind(qs, behind);
      }
    }
  }

  /** A parameter of one byte is not read at all: what is read in its place is the second byte behind the value. */
  lemma {:induction false} SentByteIsNotRead(x: Byte, behind: seq<Byte>)
    requires |behind| >= 2
    ensures Encoded([Param(8, [x])]).Filled? && Encoded([Param(8, [x])]).cursor.key == [x]
    ensures FieldValue([x] + behind, 16, 8) == behind[1]
  {
    var ps := [Param(8, [x])];
    ByteInRange(x);
    EncodedKey(ps);
    WholeBytesAreHeld(Cursor(Zeros(Bytes8(Before(ps, |ps|))), 0, 8), ps);
    EncodedLength(ps);
    ByteIsHeld(Encoded(ps).cursor.key, ps, x);
    WholeByte([x] + behind, 2);
  }

  lemma {:induction false} ByteInRange(x: Byte)
    ensures InRange(Param(8, [x])) && BytesValue([x]) == x
    ensures Before([Param(8, [x])], 1) == 8
  {
    assert [x][..0] == [] && [Param(8, [x])][1..] == [];
    assert Pow2(8) == 256;
  }

  lemma {:induction false} ByteIsHeld(key: seq<Byte>, ps: seq<Param>, x: Byte)
    requires ps == [Param(8, [x])] && |key| == 1 && Holds(key, 0, ps) && BytesValue([x]) == x
    ensures key == [x]
  {
    assert HoldsNth(key, 0, ps, 0);
    WholeByte(key, 0);
  }

  // ----- the action id

  lemma {:induction false} TwoBytes(value: seq<Byte>)
    requires |value| >= 2
    ensures var high: nat, low: nat := value[0], value[1]; FieldValue(value, 0, 16) == high * 256 + low
  {
    FieldSplit(value, 0, 8, 8);
    WholeByte(value, 0);
    WholeByte(value, 1);
    assert Pow2(8) == 256;
  }

  /** The number in the first two bytes is the action id, if that has sixteen bits. */
  lemma {:induction false} ActionIdComesBack(actionId: nat, value: seq<Byte>)
    ensures FieldValue(Prefixed(actionId, value), 0, 16) == actionId % 0x1_0000
    ensures FieldValue(Prefixed(actionId, value), 0, 16) == actionId <==> actionId < 0x1_0000
  {
    TwoBytes(Prefixed(actionId, value));
    LastTwoBytes(actionId);
    ItselfIff(actionId);
  }

  lemma {:induction false} ItselfIff(x: nat)
    ensures x % 0x1_0000 == x <==> x < 0x1_0000
  {
  }

  lemma {:induction false} LastTwoBytes(x: nat)
    ensures x % 0x1_0000 == x / 256 % 256 * 256 + x % 256
  {
  }
}
