/** sw-src/dataplane/executor.h, `Primitive::run`: evaluating a tree and writing its value into a field. */
module Primitives {
  import opened Powers
  import opened Bytes
  import opened FieldWrite
  import opened FieldFrames
  import opened FieldRead
  import opened Actions
  import opened Expressions

  /** The field the value goes to, by its first bit in the packet. */
  datatype LValue = LValue(begin: nat, len: nat)

  /** The field is inside the packet, and the value has all the bytes of its window but one. */
  ghost predicate Assignable(lvalue: LValue, e: Expr, p: seq<Byte>, params: seq<ActionParam>) {
    && Defined(e, p, params) && lvalue.len >= 1
    && (lvalue.begin + lvalue.len - 1) / 8 < |p|
    && (lvalue.begin + lvalue.len - 1) / 8 - lvalue.begin / 8 <= Bytes8(Width(e, params))
  }

  /** What is left in the packet: the value of the tree over the packet as it was, written. */
  ghost predicate Assigned(p: seq<Byte>, p': seq<Byte>, lvalue: LValue, e: Expr, params: seq<ActionParam>) {
    Value(e, p, params) >= 0 && Written(p, p', lvalue.begin, lvalue.len, Value(e, p, params))
  }

  method Run(packet: array<Byte>, lvalue: LValue, e: Expr, params: seq<ActionParam>)
    requires Assignable(lvalue, e, packet[..], params)
    modifies packet
    ensures Assigned(old(packet[..]), packet[..], lvalue, e, params)
  {
    var res := Execute(e, packet, params);
    ModifyFieldWithData(packet, lvalue.begin, lvalue.len, res.val);
  }

  /** The rest of the packet is kept if and only if what of the value runs over the field adds nothing to the
      bits in front of it in its first byte. */
  lemma {:induction false} RunFrame(p: seq<Byte>, p': seq<Byte>, lvalue: LValue, e: Expr, params: seq<ActionParam>)
    requires Assigned(p, p', lvalue, e, params) && lvalue.len >= 1
    ensures (SameOutside(p, p', lvalue.begin, lvalue.begin + lvalue.len)
             <==> Low(High(Value(e, p, params), lvalue.len), lvalue.begin % 8) == 0)
  {
    WriteFrame(p, p', lvalue.begin, lvalue.len, Value(e, p, params));
  }

  /** A field that begins on a byte can be given any value. */
  lemma {:induction false} ByteFieldFrame(p: seq<Byte>, p': seq<Byte>, lvalue: LValue, e: Expr,
                                          params: seq<ActionParam>)
    requires Assigned(p, p', lvalue, e, params) && lvalue.len >= 1 && lvalue.begin % 8 == 0
    ensures SameOutside(p, p', lvalue.begin, lvalue.begin + lvalue.len)
  {
    RunFrame(p, p', lvalue, e, params);
  }

  lemma {:induction false} WordLow(z: int, len: nat, d: nat, k: nat)
    requires len <= 32 && d == Pow2(len) && k == Pow2(32 - len)
    ensures Low(Wrap(z), len) == z % d
  {
    WordSize();
    Pow2Add(32 - len, len);
    LowIsRemainder(Wrap(z), len);
    MulAssoc(z / 0x1_0000_0000, k, d);
    SameRemainder(z, Wrap(z), z / 0x1_0000_0000 * k, d);
  }

  /** A field set to sums and differences holds the result over the integers, modulo its own width: counters of
      up to 32 bits wrap around, whatever the widths of the operands. */
  lemma {:induction false} RunSumWraps(p: seq<Byte>, p': seq<Byte>, lvalue: LValue, e: Expr, params: seq<ActionParam>)
    requires Assigned(p, p', lvalue, e, params) && 1 <= lvalue.len <= 32
    requires IsLinear(e) && e.Binary?
    ensures FieldValue(p', lvalue.begin, lvalue.len) == IntValue(e, p, params) % Pow2(lvalue.len)
  {
    var z := IntValue(e, p, params);
    SumIsWrapped(e, p, params);
    WordLow(z, lvalue.len, Pow2(lvalue.len), Pow2(32 - lvalue.len));
    WrittenValue(p, p', lvalue.begin, lvalue.len, Value(e, p, params));
  }

  lemma {:induction false} SumIsWrapped(e: Expr, p: seq<Byte>, params: seq<ActionParam>)
    requires IsLinear(e) && e.Binary?
    ensures Value(e, p, params) == Wrap(IntValue(e, p, params))
  {
    WrapsOnce(e, p, params);
    WrapIdempotent(if e.op.Add? then Value(e.left, p, params) + Value(e.right, p, params)
                   else Value(e.left, p, params) - Value(e.right, p, params));
  }

  /** The counter of the example below, and one more. */
  function OneMore(): Expr {
    Binary(Add, Constant(Data(8, [15])), Constant(Data(8, [1])))
  }

  lemma {:induction false} OneMoreValue(p: seq<Byte>)
    ensures Value(OneMore(), p, []) == 16
  {
    LastByte([15], [], 15);
    LastByte([1], [], 1);
  }

  lemma {:induction false} SixteenBits()
    ensures Low(16, 4) == 0 && High(16, 4) == 1 && Low(0 + 1, 4) == 1 && Shr(15, 4) == 0
  {
    assert Low(16, 4) == 2 * Low(8, 3) && Low(8, 3) == 2 * Low(4, 2);
    assert High(16, 4) == High(4, 2);
    assert Low(1, 4) == 2 * Low(0, 3) + 1 && Low(0, 3) == 2 * Low(0, 2);
    assert Shr(15, 4) == Shr(3, 2);
  }

  /** A four-bit counter behind four other bits: one more than fifteen is zero in the counter, and adds one to
      its neighbour. */
  lemma {:induction false} CarryRunsOver(p': seq<Byte>)
    requires Assigned([15], p', LValue(4, 4), OneMore(), [])
    ensures FieldValue(p', 4, 4) == 0 && FieldValue([15], 0, 4) == 0 && FieldValue(p', 0, 4) == 1
  {
    OneMoreValue([15]);
    CarryWritten([15], p');
  }

  lemma {:induction false} CarryWritten(p: seq<Byte>, p': seq<Byte>)
    requires Written(p, p', 4, 4, 16) && |p| == 1 && p[0] == 15
    ensures FieldValue(p', 4, 4) == 0 && FieldValue(p, 0, 4) == 0 && FieldValue(p', 0, 4) == 1
  {
    SixteenBits();
    FieldInByte(p, 0, 4);
  }
}
