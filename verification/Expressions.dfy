/** sw-src/dataplane/executor.h: values as byte strings, and the evaluation of a primitive's expression tree. */
module Expressions {
  import opened Powers
  import opened Bytes
  import opened FieldWrite
  import opened FieldRead
  import opened Actions

  /** A number of `len` bits in the bytes that hold them; a 32-bit word is a number below `Pow2(32)`. */
  datatype Data = Data(len: nat, val: seq<Byte>)

  predicate IsData(d: Data) {
    |d.val| == Bytes8(d.len)
  }

  predicate Fits32(d: Data) {
    IsData(d) && 1 <= d.len <= 32
  }

  // ----- get_value and get_data

  /** Of more than four bytes the first four are taken. */
  method GetValue(data: Data) returns (sum: nat)
    requires IsData(data)
    ensures sum == BytesValue(data.val[..if |data.val| >= 4 then 4 else |data.val|]) < Pow2(32)
    ensures data.len <= 32 ==> sum == BytesValue(data.val)
  {
    var byteLen := Bytes8(data.len);
    var max := if byteLen >= 4 then 4 else byteLen;
    ghost var s := data.val[..max];
    sum := 0;
    var i := max;
    assert s[max..] == [];
    while i > 0
      invariant 0 <= i <= max && sum == BytesValue(s[i..])
    {
      i := i - 1;
      FirstByte(s, i);
      UpIsProduct(data.val[i], (max - 1 - i) * 8);
      Pow256IsPow2(max - 1 - i);
      sum := sum + Up(data.val[i], (max - 1 - i) * 8);
    }
    assert s[0..] == s;
    WordBound(s);
    if data.len <= 32 {
      assert s == data.val;
    }
  }

  lemma {:induction false} WordBound(s: seq<Byte>)
    requires |s| <= 4
    ensures BytesValue(s) < Pow2(32)
  {
    BytesBound(s);
    Pow256IsPow2(|s|);
    Pow2AtMost(8 * |s|, 32);
  }

  method GetData(len: nat, d: nat) returns (data: Data)
    requires 1 <= len <= 32
    ensures Fits32(data) && data.len == len && BytesValue(data.val) == Low(d, 8 * Bytes8(len))
  {
    var byteLen := Bytes8(len);
    var val: seq<Byte> := seq(byteLen, _ => 0);
    var i := 0;
    assert val[byteLen..] == [];
    while i < byteLen
      invariant 0 <= i <= byteLen == |val| && BytesValue(val[byteLen - i..]) == Low(d, 8 * i)
    {
      ghost var tail: seq<Byte> := val[byteLen - i..];
      val := val[byteLen - 1 - i := High(d, i * 8) % 256];
      NextByte(d, i, val[byteLen - 1 - i], tail);
      assert val[byteLen - (i + 1)..] == [val[byteLen - 1 - i]] + tail;
      i := i + 1;
    }
    assert val[0..] == val;
    data := Data(len, val);
  }

  lemma {:induction false} LowPlus(d: nat, m: nat, n: nat)
    ensures Low(d, m + n) == Up(Low(High(d, m), n), m) + Low(d, m)
  {
    if m > 0 {
      LowPlus(d / 2, m - 1, n);
    }
  }

  lemma {:induction false} LowByte(x: nat)
    ensures Low(x, 8) == x % 256
  {
    assert Pow2(8) == 256;
    LowIsRemainder(x, 8);
  }

  lemma {:induction false} NextByte(d: nat, i: nat, b: Byte, tail: seq<Byte>)
    requires |tail| == i && BytesValue(tail) == Low(d, 8 * i) && b == High(d, i * 8) % 256
    ensures BytesValue([b] + tail) == Low(d, 8 * (i + 1))
  {
    LowPlus(d, 8 * i, 8);
    LowByte(High(d, 8 * i));
    UpIsProduct(b, 8 * i);
    Pow256IsPow2(i);
    WholeValue([b] + tail, b, tail);
  }

  // ----- the operators on 32-bit words

  function Or(x: nat, y: nat, n: nat): nat {
    if n == 0 then 0 else 2 * Or(x / 2, y / 2, n - 1) + (if x % 2 == 1 || y % 2 == 1 then 1 else 0)
  }

  function Xor(x: nat, y: nat, n: nat): nat {
    if n == 0 then 0 else 2 * Xor(x / 2, y / 2, n - 1) + (x + y) % 2
  }

  function Not(x: nat, n: nat): nat {
    if n == 0 then 0 else 2 * Not(x / 2, n - 1) + (1 - x % 2)
  }

  lemma {:induction false} AndIsBitAnd(x: nat, y: nat, n: nat)
    requires x < Pow2(n)
    ensures And(x, y, n) == BitAnd(x, y)
  {
    if n > 0 {
      AndIsBitAnd(x / 2, y / 2, n - 1);
    }
  }

  lemma {:induction false} OrSum(x: nat, y: nat, n: nat)
    requires x < Pow2(n) && y < Pow2(n)
    ensures Or(x, y, n) + BitAnd(x, y) == x + y
  {
    if n > 0 {
      OrSum(x / 2, y / 2, n - 1);
    }
  }

  lemma {:induction false} XorSum(x: nat, y: nat, n: nat)
    requires x < Pow2(n) && y < Pow2(n)
    ensures Xor(x, y, n) + 2 * BitAnd(x, y) == x + y
  {
    if n > 0 {
      XorSum(x / 2, y / 2, n - 1);
      LastBits(x % 2, y % 2, x / 2, y / 2);
    }
  }

  lemma {:induction false} LastBits(a: int, b: int, x: int, y: int)
    requires 0 <= a < 2 && 0 <= b < 2
    ensures (2 * x + a + (2 * y + b)) % 2 == a + b - 2 * (a * b)
  {
  }

  /** The complement in the low `m` bits. */
  lemma {:induction false} NotValue(x: nat, n: nat, m: nat)
    requires m <= n && x < Pow2(m)
    ensures Low(Not(x, n), m) == Pow2(m) - 1 - x
  {
    if m > 0 {
      NotValue(x / 2, n - 1, m - 1);
    }
  }

  lemma {:induction false} MaskedIsLow(x: nat, len: nat, n: nat)
    requires len <= n && x < Pow2(n)
    ensures And(x, Pow2(len) - 1, n) == Low(x, len)
  {
    AndKeeps(x, n, len, n);
    SmallLow(x, n);
  }

  /** `0xffffffff` less the bits above the lowest `len`. */
  method LowMask(len: nat) returns (bitmap: nat)
    requires len <= 32
    ensures bitmap == Pow2(len) - 1
  {
    bitmap := 0xffff_ffff;
    WordSize();
    for i := 0 to 32 - len
      invariant bitmap == Pow2(32 - i) - 1
    {
      assert Pow2(32 - i) == 2 * Pow2(31 - i);
      bitmap := bitmap - Pow2(31 - i);
    }
  }

  // ----- bit_compute

  datatype BitOp = ShiftLeft | ShiftRight | BitwiseAnd | BitwiseOr | BitwiseXor | BitwiseNot

  /** What the operators mean, the left operand `len` bits wide: a left shift is cut to that width, the others to
      the bytes that hold it. The complement ignores the right operand. */
  function OpValue(op: BitOp, len: nat, x: nat, y: nat): int {
    match op
    case ShiftLeft => Low(Up(x, y), len)
    case ShiftRight => High(x, y)
    case BitwiseAnd => BitAnd(x, y)
    case BitwiseOr => Low(NatSum(x, y, BitAnd(x, y)), 8 * Bytes8(len))
    case BitwiseXor => Low(NatSum(x, y, 2 * BitAnd(x, y)), 8 * Bytes8(len))
    case BitwiseNot => Pow2(8 * Bytes8(len)) - 1 - x
  }

  /** `x + y - both`, which is never below zero here. */
  function NatSum(x: nat, y: nat, both: nat): nat {
    if x + y >= both then x + y - both else 0
  }

  lemma {:induction false} DataBound(d: Data)
    requires IsData(d)
    ensures BytesValue(d.val) < Pow2(8 * Bytes8(d.len))
    ensures d.len <= 32 ==> BytesValue(d.val) < Pow2(32)
  {
    BytesBound(d.val);
    Pow256IsPow2(|d.val|);
    if d.len <= 32 {
      Pow2AtMost(8 * Bytes8(d.len), 32);
    }
  }

  lemma {:induction false} HighBound(v: nat, n: nat)
    ensures High(v, n) <= v
  {
    if n > 0 {
      HighBound(v / 2, n - 1);
    }
  }

  lemma {:induction false} AndBound(x: nat, y: nat)
    ensures BitAnd(x, y) <= x
  {
    if x > 0 {
      AndBound(x / 2, y / 2);
    }
  }

  lemma {:induction false} ShiftedValue32(x: nat, y: nat, len: nat, masked: nat)
    requires len <= 32 && masked == And(Low(Up(x, y), 32), Pow2(len) - 1, 32)
    ensures Low(masked, 8 * Bytes8(len)) == Low(Up(x, y), len)
  {
    LowBound(Up(x, y), 32);
    MaskedIsLow(Low(Up(x, y), 32), len, 32);
    LowLow(Up(x, y), len, 32);
    LowBound(Up(x, y), len);
    Pow2AtMost(len, 8 * Bytes8(len));
    SmallLow(Low(Up(x, y), len), 8 * Bytes8(len));
  }

  // ----- bit by bit

  /** Bit `k`, counted from the lowest. */
  function BitAt(v: nat, k: nat): nat {
    High(v, k) % 2
  }

  /** What an operator makes of bit `k`: shifts move bits, the others combine those of both operands. */
  ghost predicate BitLaw(op: BitOp, len: nat, x: nat, y: nat, r: nat, k: nat) {
    match op
    case ShiftLeft => BitAt(r, k) == if y <= k < len then BitAt(x, k - y) else 0
    case ShiftRight => BitAt(r, k) == BitAt(x, k + y)
    case BitwiseAnd => BitAt(r, k) == 1 <==> BitAt(x, k) == 1 && BitAt(y, k) == 1
    case BitwiseOr => k < 8 * Bytes8(len) ==> (BitAt(r, k) == 1 <==> BitAt(x, k) == 1 || BitAt(y, k) == 1)
    case BitwiseXor => k < 8 * Bytes8(len) ==> (BitAt(r, k) == 1 <==> BitAt(x, k) != BitAt(y, k))
    case BitwiseNot => k < 8 * Bytes8(len) ==> (BitAt(r, k) == 1 <==> BitAt(x, k) == 0)
  }

  lemma {:induction false} HighTwice(v: nat, m: nat, n: nat)
    ensures High(High(v, m), n) == High(v, m + n)
  {
    if m > 0 {
      HighTwice(v / 2, m - 1, n);
    }
  }

  lemma {:induction false} BitOfLow(v: nat, n: nat, k: nat)
    ensures BitAt(Low(v, n), k) == if k < n then BitAt(v, k) else 0
  {
    if n == 0 {
      BitOfNothing(k);
    } else if k > 0 {
      BitOfLow(v / 2, n - 1, k - 1);
    }
  }

  lemma {:induction false} BitOfNothing(k: nat)
    ensures BitAt(0, k) == 0
  {
    if k > 0 {
      BitOfNothing(k - 1);
    }
  }

  lemma {:induction false} BitOfUp(v: nat, n: nat, k: nat)
    ensures BitAt(Up(v, n), k) == if k < n then 0 else BitAt(v, k - n)
  {
    if n > 0 && k > 0 {
      BitOfUp(v, n - 1, k - 1);
    }
  }

  lemma {:induction false} BitOfAnd(x: nat, y: nat, k: nat)
    ensures BitAt(BitAnd(x, y), k) == 1 <==> BitAt(x, k) == 1 && BitAt(y, k) == 1
  {
    if x == 0 {
      BitOfNothing(k);
    } else if k > 0 {
      BitOfAnd(x / 2, y / 2, k - 1);
      assert BitAnd(x, y) / 2 == BitAnd(x / 2, y / 2);
    }
  }

  lemma {:induction false} OrParts(x: nat, y: nat, n: nat)
    requires n > 0
    ensures Or(x, y, n) / 2 == Or(x / 2, y / 2, n - 1)
    ensures Or(x, y, n) % 2 == 1 <==> x % 2 == 1 || y % 2 == 1
  {
  }

  lemma {:induction false} BitOfOr(x: nat, y: nat, n: nat, k: nat)
    requires k < n
    ensures BitAt(Or(x, y, n), k) == 1 <==> BitAt(x, k) == 1 || BitAt(y, k) == 1
  {
    OrParts(x, y, n);
    if k > 0 {
      BitOfOr(x / 2, y / 2, n - 1, k - 1);
      assert BitAt(x, k) == BitAt(x / 2, k - 1) && BitAt(y, k) == BitAt(y / 2, k - 1);
    }
  }

  lemma {:induction false} XorParts(x: nat, y: nat, n: nat)
    requires n > 0
    ensures Xor(x, y, n) / 2 == Xor(x / 2, y / 2, n - 1)
    ensures Xor(x, y, n) % 2 == 1 <==> x % 2 != y % 2
  {
  }

  lemma {:induction false} BitOfXor(x: nat, y: nat, n: nat, k: nat)
    requires k < n
    ensures BitAt(Xor(x, y, n), k) == 1 <==> BitAt(x, k) != BitAt(y, k)
  {
    XorParts(x, y, n);
    if k > 0 {
      BitOfXor(x / 2, y / 2, n - 1, k - 1);
      assert BitAt(x, k) == BitAt(x / 2, k - 1) && BitAt(y, k) == BitAt(y / 2, k - 1);
    }
  }

  lemma {:induction false} BitOfNot(x: nat, n: nat, k: nat)
    requires k < n
    ensures BitAt(Not(x, n), k) == 1 <==> BitAt(x, k) == 0
  {
    if k > 0 {
      BitOfNot(x / 2, n - 1, k - 1);
    }
  }

  lemma {:induction false} BytesOfWord(len: nat)
    requires 1 <= len <= 32
    ensures 8 * Bytes8(len) <= 32 && Pow2(8 * Bytes8(len)) <= Pow2(32)
  {
    Pow2AtMost(8 * Bytes8(len), 32);
  }

  lemma {:induction false} SumsAreBitwise(x: nat, y: nat)
    requires x < Pow2(32) && y < Pow2(32)
    ensures NatSum(x, y, BitAnd(x, y)) == Or(x, y, 32) && NatSum(x, y, 2 * BitAnd(x, y)) == Xor(x, y, 32)
  {
    OrSum(x, y, 32);
    XorSum(x, y, 32);
  }

  lemma {:induction false} BitOfLowOr(x: nat, y: nat, w: nat, k: nat)
    requires k < w <= 32
    ensures BitAt(Low(Or(x, y, 32), w), k) == 1 <==> BitAt(x, k) == 1 || BitAt(y, k) == 1
  {
    BitOfLow(Or(x, y, 32), w, k);
    BitOfOr(x, y, 32, k);
  }

  lemma {:induction false} BitOfLowXor(x: nat, y: nat, w: nat, k: nat)
    requires k < w <= 32
    ensures BitAt(Low(Xor(x, y, 32), w), k) == 1 <==> BitAt(x, k) != BitAt(y, k)
  {
    BitOfLow(Xor(x, y, 32), w, k);
    BitOfXor(x, y, 32, k);
  }

  lemma {:induction false} BitOfRest(x: nat, w: nat, rest: nat, k: nat)
    requires x + rest == Pow2(w) - 1 && k < w <= 32
    ensures BitAt(rest, k) == 1 <==> BitAt(x, k) == 0
  {
    NotValue(x, 32, w);
    BitOfLow(Not(x, 32), w, k);
    BitOfNot(x, 32, k);
  }

  /** The values of the operators are made bit by bit. */
  lemma {:induction false} OpBits(op: BitOp, len: nat, x: nat, y: nat, k: nat)
    requires 1 <= len <= 32 && x < Pow2(8 * Bytes8(len)) && y < Pow2(32)
    ensures OpValue(op, len, x, y) >= 0 && BitLaw(op, len, x, y, OpValue(op, len, x, y), k)
  {
    BytesOfWord(len);
    match op
    case ShiftLeft =>
      BitOfLow(Up(x, y), len, k);
      BitOfUp(x, y, k);
      assert BitAt(OpValue(op, len, x, y), k) == if y <= k < len then BitAt(x, k - y) else 0;
    case ShiftRight =>
      HighTwice(x, y, k);
    case BitwiseAnd =>
      BitOfAnd(x, y, k);
    case BitwiseNot =>
      if k < 8 * Bytes8(len) {
        BitOfRest(x, 8 * Bytes8(len), OpValue(op, len, x, y), k);
      }
    case BitwiseOr =>
      SumsAreBitwise(x, y);
      if k < 8 * Bytes8(len) {
        BitOfLowOr(x, y, 8 * Bytes8(len), k);
      }
    case BitwiseXor =>
      SumsAreBitwise(x, y);
      if k < 8 * Bytes8(len) {
        BitOfLowXor(x, y, 8 * Bytes8(len), k);
      }
  }

  /** The shift must be below 32: more is undefined for a 32-bit word. */
  method BitCompute(op: BitOp, data1: Data, data2: Data) returns (res: Data)
    requires Fits32(data1) && (!op.BitwiseNot? ==> Fits32(data2))
    requires op.ShiftLeft? || op.ShiftRight? ==> BytesValue(data2.val) < 32
    ensures Fits32(res) && res.len == data1.len
    ensures BytesValue(res.val) == OpValue(op, data1.len, BytesValue(data1.val), BytesValue(data2.val))
    ensures Fits32(data2) ==> forall k: nat ::
      BitLaw(op, data1.len, BytesValue(data1.val), BytesValue(data2.val), BytesValue(res.val), k)
  {
    res := BitComputed(op, data1, data2);
    if Fits32(data2) {
      DataBound(data1);
      DataBound(data2);
      forall k: nat
        ensures BitLaw(op, data1.len, BytesValue(data1.val), BytesValue(data2.val), BytesValue(res.val), k)
      {
        OpBits(op, data1.len, BytesValue(data1.val), BytesValue(data2.val), k);
      }
    }
  }

  method BitComputed(op: BitOp, data1: Data, data2: Data) returns (res: Data)
    requires Fits32(data1) && (!op.BitwiseNot? ==> Fits32(data2))
    requires op.ShiftLeft? || op.ShiftRight? ==> BytesValue(data2.val) < 32
    ensures Fits32(res) && res.len == data1.len
    ensures BytesValue(res.val) == OpValue(op, data1.len, BytesValue(data1.val), BytesValue(data2.val))
  {
    var left := GetValue(data1);
    var len := data1.len;
    DataBound(data1);
    match op {
      case ShiftLeft =>
        var shift := GetValue(data2);
        var bitmap := LowMask(len);
        var word := And(Low(Up(left, shift), 32), bitmap, 32);
        res := GetData(len, word);
        ShiftedValue32(left, shift, len, word);
      case ShiftRight =>
        var shift := GetValue(data2);
        res := GetData(len, High(left, shift));
        HighBound(left, shift);
        SmallLow(High(left, shift), 8 * Bytes8(len));
      case BitwiseAnd =>
        var right := GetValue(data2);
        res := GetData(len, And(left, right, 32));
        AndIsBitAnd(left, right, 32);
        AndBound(left, right);
        SmallLow(BitAnd(left, right), 8 * Bytes8(len));
      case BitwiseOr =>
        var right := GetValue(data2);
        res := GetData(len, Or(left, right, 32));
        OrSum(left, right, 32);
      case BitwiseXor =>
        var right := GetValue(data2);
        res := GetData(len, Xor(left, right, 32));
        XorSum(left, right, 32);
      case BitwiseNot =>
        res := Complement(len, left);
    }
  }

  method Complement(len: nat, left: nat) returns (res: Data)
    requires 1 <= len <= 32 && left < Pow2(8 * Bytes8(len))
    ensures Fits32(res) && res.len == len && BytesValue(res.val) == Pow2(8 * Bytes8(len)) - 1 - left
  {
    var word := Not(left, 32);
    if len <= 8 {
      word := Low(Not(left, 32), 8);
    } else if len <= 16 {
      word := Low(Not(left, 32), 16);
    }
    res := GetData(len, word);
    LowLow(Not(left, 32), 8 * Bytes8(len), if len <= 8 then 8 else if len <= 16 then 16 else 32);
    NotValue(left, 32, 8 * Bytes8(len));
  }

  // ----- the tree

  datatype Op = Add | Sub | Compute(op: BitOp)

  /** A field is given by its first bit in the packet; `unset` is what the byte its read may leave unset holds. */
  datatype Expr =
    | Constant(data: Data)
    | Field(start: nat, len: nat, unset: Byte)
    | Param(id: nat)
    | Binary(op: Op, left: Expr, right: Expr)
    | Negate(operand: Expr)

  function Width(e: Expr, params: seq<ActionParam>): nat {
    match e
    case Constant(data) => data.len
    case Field(_, len, _) => len
    case Param(id) => if id < |params| then params[id].len else 0
    case Binary(op, left, _) => if op.Compute? then Width(left, params) else 32
    case Negate(operand) => Width(operand, params)
  }

  function Wrap(x: int): nat {
    x % 0x1_0000_0000
  }

  /** The mathematical value of the tree: sums and differences in 32-bit words, the other operators in the
      width of their left operand. */
  function Value(e: Expr, p: seq<Byte>, params: seq<ActionParam>): int {
    match e
    case Constant(data) => BytesValue(data.val)
    case Field(start, len, unset) => ReadValue(p, start, len, unset)
    case Param(id) => if id < |params| then BytesValue(params[id].val) else 0
    case Binary(Add, left, right) => Wrap(Value(left, p, params) + Value(right, p, params))
    case Binary(Sub, left, right) => Wrap(Value(left, p, params) - Value(right, p, params))
    case Binary(Compute(op), left, right) =>
      OpValueOf(op, Width(left, params), Value(left, p, params), Value(right, p, params))
    case Negate(operand) => OpValueOf(BitwiseNot, Width(operand, params), Value(operand, p, params), 0)
  }

  function OpValueOf(op: BitOp, len: nat, x: int, y: int): int {
    if x >= 0 && y >= 0 then OpValue(op, len, x, y) else 0
  }

  predicate IsLeaf(e: Expr) {
    e.Constant? || e.Field? || e.Param?
  }

  /** What the code takes for granted: data of the announced length, fields inside the packet, parameters there
      are, operands of 1 to 32 bits, shifts below 32. */
  ghost predicate Defined(e: Expr, p: seq<Byte>, params: seq<ActionParam>) {
    match e
    case Constant(data) => IsData(data)
    case Field(start, len, _) => (start + len) / 8 < |p|
    case Param(id) => id < |params| && IsData(Data(params[id].len, params[id].val))
    case Binary(op, left, right) =>
      && Defined(left, p, params) && Defined(right, p, params)
      && 1 <= Width(left, params) <= 32 && 1 <= Width(right, params) <= 32
      && (op.Compute? ==> !op.op.BitwiseNot?)
      && (op.Compute? && (op.op.ShiftLeft? || op.op.ShiftRight?) ==> Value(right, p, params) < 32)
    case Negate(operand) => Defined(operand, p, params) && 1 <= Width(operand, params) <= 32
  }

  ghost predicate Evaluates(e: Expr, p: seq<Byte>, params: seq<ActionParam>, res: Data) {
    IsData(res) && res.len == Width(e, params) && BytesValue(res.val) == Value(e, p, params)
  }

  /** The operand of a leaf. */
  method GetOpValAny(e: Expr, packet: array<Byte>, params: seq<ActionParam>) returns (res: Data)
    requires IsLeaf(e) && Defined(e, packet[..], params)
    ensures Evaluates(e, packet[..], params, res)
  {
    match e {
      case Constant(data) =>
        res := data;
      case Field(start, len, unset) =>
        var val := ReadField(packet, start, len, unset);
        res := Data(len, val);
      case Param(id) =>
        res := Data(params[id].len, params[id].val);
    }
  }

  /** The tree walk. */
  method Execute(e: Expr, packet: array<Byte>, params: seq<ActionParam>) returns (res: Data)
    requires Defined(e, packet[..], params)
    ensures Evaluates(e, packet[..], params, res)
    decreases e
  {
    match e {
      case Binary(op, left, right) =>
        var data1 := Execute(left, packet, params);
        var data2 := Execute(right, packet, params);
        match op {
          case Add =>
            res := Sum(data1, data2, 1);
          case Sub =>
            res := Sum(data1, data2, -1);
          case Compute(bitOp) =>
            res := BitCompute(bitOp, data1, data2);
        }
      case Negate(operand) =>
        var data1 := Execute(operand, packet, params);
        res := BitCompute(BitwiseNot, data1, Data(0, []));
      case _ =>
        res := GetOpValAny(e, packet, params);
    }
  }

  /** `+` and `-` on 32-bit words. */
  method Sum(data1: Data, data2: Data, sign: int) returns (res: Data)
    requires Fits32(data1) && Fits32(data2) && (sign == 1 || sign == -1)
    ensures Fits32(res) && res.len == 32
    ensures sign == 1 ==> BytesValue(res.val) == Wrap(BytesValue(data1.val) + BytesValue(data2.val))
    ensures sign == -1 ==> BytesValue(res.val) == Wrap(BytesValue(data1.val) - BytesValue(data2.val))
  {
    var x: int := GetValue(data1);
    var y: int := GetValue(data2);
    var word: nat := if sign == 1 then Wrap(x + y) else Wrap(x - y);
    res := GetData(32, word);
    WordSize();
    SmallLow(word, 32);
  }

  // ----- sums and differences are exact modulo the word

  /** A tree of sums and differences over leaves. */
  predicate IsLinear(e: Expr) {
    IsLeaf(e) || (e.Binary? && !e.op.Compute? && IsLinear(e.left) && IsLinear(e.right))
  }

  /** The same tree over the unbounded integers. */
  function IntValue(e: Expr, p: seq<Byte>, params: seq<ActionParam>): int {
    match e
    case Binary(Add, left, right) => IntValue(left, p, params) + IntValue(right, p, params)
    case Binary(Sub, left, right) => IntValue(left, p, params) - IntValue(right, p, params)
    case _ => Value(e, p, params)
  }

  lemma {:induction false} WrapTwice(x: int, y: int)
    requires Wrap(x) == Wrap(y)
    ensures exists k :: x == y + Words(k)
  {
    assert x == y + Words(x / 0x1_0000_0000 - y / 0x1_0000_0000);
  }

  function Words(k: int): int {
    k * 0x1_0000_0000
  }

  lemma {:induction false} WrapWords(x: int, k: int)
    ensures Wrap(x + Words(k)) == Wrap(x)
  {
  }

  lemma {:induction false} WrapSum(a: int, b: int, x: int, y: int)
    requires Wrap(a) == Wrap(x) && Wrap(b) == Wrap(y)
    ensures Wrap(a + b) == Wrap(x + y) && Wrap(a - b) == Wrap(x - y)
  {
    WrapTwice(a, x);
    WrapTwice(b, y);
    var j :| a == x + Words(j);
    var k :| b == y + Words(k);
    WrapWords(x + y, j + k);
    WrapWords(x - y, j - k);
    assert Words(j) + Words(k) == Words(j + k) && Words(j) - Words(k) == Words(j - k);
  }

  lemma {:induction false} WrapIdempotent(x: int)
    ensures Wrap(Wrap(x)) == Wrap(x)
  {
  }

  /** Wrapping at every step is wrapping once at the end, however often intermediate results leave the word. */
  lemma {:induction false} WrapsOnce(e: Expr, p: seq<Byte>, params: seq<ActionParam>)
    requires IsLinear(e)
    ensures Wrap(Value(e, p, params)) == Wrap(IntValue(e, p, params))
  {
    if e.Binary? {
      WrapsOnce(e.left, p, params);
      WrapsOnce(e.right, p, params);
      var a, b := Value(e.left, p, params), Value(e.right, p, params);
      WrapSum(a, b, IntValue(e.left, p, params), IntValue(e.right, p, params));
      WrapIdempotent(if e.op.Add? then a + b else a - b);
    }
  }
}
