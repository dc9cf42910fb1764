/** sw-src/dataplane/parser.h, `get_field_int` and the end of `parse`: the word a packet holds in the fields its next
    transition selects on. */
module ParserKeys {
  import opened Powers
  import opened Bytes
  import opened ParserTables

  const WORDS := 0x1_0000_0000

  predicate InOneByte(begin: nat, len: nat)
    requires len > 0
  {
    begin / 8 == (begin + len - 1) / 8
  }

  /** The field, with the bits in front of it if it ends in the byte in which it begins. */
  function FieldInt(p: seq<Byte>, begin: nat, len: nat): nat
    requires len > 0
  {
    if InOneByte(begin, len) then FieldValue(p, begin - begin % 8, begin % 8 + len) else FieldValue(p, begin, len)
  }

  /** It is the field's value exactly if the field spans bytes or has zeros in front of it. */
  lemma {:induction false} FieldIntIsField(p: seq<Byte>, begin: nat, len: nat)
    requires len > 0
    ensures FieldInt(p, begin, len) == FieldValue(p, begin, len) <==>
            !InOneByte(begin, len) || FieldValue(p, begin - begin % 8, begin % 8) == 0
  {
    var left := begin % 8;
    FieldSplit(p, begin - left, left, len);
    var front := FieldValue(p, begin - left, left);
    if front > 0 {
      MulAtLeast(front, Pow2(len));
    }
  }

  lemma {:induction false} BitAndLow(x: nat, n: nat)
    ensures BitAnd(x, Pow2(n) - 1) == Low(x, n)
  {
    if n > 0 {
      if x > 0 {
        BitAndLow(x / 2, n - 1);
        assert (Pow2(n) - 1) / 2 == Pow2(n - 1) - 1 && (Pow2(n) - 1) % 2 == 1;
      } else {
        ZeroLow(n);
      }
    } else {
      NothingMasked(x);
    }
  }

  lemma {:induction false} ZeroLow(n: nat)
    ensures Low(0, n) == 0
  {
    if n > 0 {
      ZeroLow(n - 1);
    }
  }

  lemma {:induction false} ByteInFront(p: seq<Byte>, j: nat, len: nat)
    requires j < |p|
    ensures FieldValue(p, 8 * j, len + 8) == FieldValue(p, 8 * (j + 1), len) + p[j] * Pow2(len)
  {
    FieldSplit(p, 8 * j, 8, len);
    WholeByte(p, j);
  }

  lemma {:induction false} FirstBits(p: seq<Byte>, begin: nat, j: nat, left: nat)
    requires j < |p| && left < 8 && begin == 8 * j + left
    ensures FieldValue(p, begin, 8 - left) == BitAnd(p[j], Pow2(8 - left) - 1)
  {
    LowBits(p, j, 8 - left);
    BitAndLow(p[j], 8 - left);
  }

  lemma {:induction false} BitsInFront(p: seq<Byte>, begin: nat, j: nat, left: nat, len: nat)
    requires j < |p| && left < 8 && begin == 8 * j + left
    ensures FieldValue(p, begin, 8 - left + len) ==
            FieldValue(p, 8 * (j + 1), len) + BitAnd(p[j], Pow2(8 - left) - 1) * Pow2(len)
  {
    FieldSplit(p, begin, 8 - left, len);
    FirstBits(p, begin, j, left);
    assert begin + (8 - left) == 8 * (j + 1);
  }

  lemma {:induction false} BitsOfLast(p: seq<Byte>, end: nat)
    requires end / 8 < |p|
    ensures Shr(p[end / 8], 7 - end % 8) == FieldValue(p, end - end % 8, end % 8 + 1)
  {
    FieldInByte(p, end / 8, end % 8 + 1);
    assert 8 * (end / 8) == end - end % 8;
  }

  /** The bytes from the last to the first, each shifted behind those in front. */
  method GetFieldInt(p: seq<Byte>, begin: nat, len: nat) returns (res: nat)
    requires 1 <= len <= 32 && begin + len <= 8 * |p|
    ensures res == FieldInt(p, begin, len)
  {
    var end := begin + len - 1;
    var leftMask := Pow2(8 - begin % 8) - 1;
    BitsOfLast(p, end);
    res := Shr(p[end / 8], 7 - end % 8);
    if end / 8 > begin / 8 {
      res := GetBytes(p, begin, end, res);
      var beginByte := begin / 8;
      var curOff := end + 1 - 8 * (beginByte + 1);
      BitsInFront(p, begin, beginByte, begin % 8, curOff);
      res := res + BitAnd(p[beginByte], leftMask) * Pow2(curOff);
    } else {
      SameByte(begin, end);
    }
  }

  lemma {:induction false} SameByte(begin: nat, end: nat)
    requires begin / 8 == end / 8
    ensures end - end % 8 == begin - begin % 8
  {
  }

  /** The bytes between the last and the first. */
  method GetBytes(p: seq<Byte>, begin: nat, end: nat, last: nat) returns (res: nat)
    requires begin / 8 < end / 8 < |p| && last == FieldValue(p, end - end % 8, end % 8 + 1)
    ensures res == FieldValue(p, 8 * (begin / 8 + 1), end + 1 - 8 * (begin / 8 + 1))
  {
    res := last;
    var j, curOff := end / 8 - 1, end % 8 + 1;
    while j > begin / 8
      invariant begin / 8 <= j < end / 8
      invariant curOff == end + 1 - 8 * (j + 1) && res == FieldValue(p, 8 * (j + 1), curOff)
    {
      ByteInFront(p, j, curOff);
      res := res + p[j] * Pow2(curOff);
      j, curOff := j - 1, curOff + 8;
    }
  }

  // ----- several fields

  /** A value and the number of its bits. */
  datatype Part = Part(value: nat, len: nat)

  predicate InRange(parts: seq<Part>) {
    forall i :: 0 <= i < |parts| ==> parts[i].value < Pow2(parts[i].len)
  }

  /** `_trans_key += (_trans_key << len) + res` on 32-bit words. */
  function AddField(k: Word, len: nat, res: nat): Word {
    (k + k * Pow2(len) + res) % WORDS
  }

  /** The key the engine makes of them: what it has so far is shifted and added to itself. */
  function KeyOf(parts: seq<Part>): Word {
    if parts == [] then 0
    else
      AddField(KeyOf(parts[..|parts| - 1]), parts[|parts| - 1].len, parts[|parts| - 1].value)
  }

  /** The number their bits make one after the other. */
  function Joined(parts: seq<Part>): nat {
    if parts == [] then 0
    else Joined(parts[..|parts| - 1]) * Pow2(parts[|parts| - 1].len) + parts[|parts| - 1].value
  }

  function Lengths(parts: seq<Part>): (r: seq<nat>)
    ensures |r| == |parts| && forall i :: 0 <= i < |r| ==> r[i] == parts[i].len
  {
    if parts == [] then [] else Lengths(parts[..|parts| - 1]) + [parts[|parts| - 1].len]
  }

  ghost predicate AlwaysJoins(lens: seq<nat>) {
    forall parts :: Lengths(parts) == lens && InRange(parts) ==> KeyOf(parts) == Joined(parts) % WORDS
  }

  function Zeros(lens: seq<nat>): (r: seq<Part>)
    ensures |r| == |lens| && InRange(r) && forall i :: 0 <= i < |r| ==> r[i] == Part(0, lens[i])
  {
    if lens == [] then [] else Zeros(lens[..|lens| - 1]) + [Part(0, lens[|lens| - 1])]
  }

  lemma {:induction false} ZerosMakeZero(parts: seq<Part>)
    requires forall i :: 0 <= i < |parts| ==> parts[i].value == 0
    ensures KeyOf(parts) == 0 && Joined(parts) == 0
  {
    if parts != [] {
      ZerosMakeZero(parts[..|parts| - 1]);
    }
  }

  /** The last field but one is one, the others are zero. */
  function OneBeforeLast(lens: seq<nat>): (r: seq<Part>)
    requires |lens| >= 2 && forall i :: 0 <= i < |lens| ==> lens[i] > 0
    ensures |r| == |lens| && InRange(r) && Lengths(r) == lens
  {
    var n := |lens|;
    Zeros(lens[..n - 2]) + [Part(1, lens[n - 2]), Part(0, lens[n - 1])]
  }

  lemma {:induction false} OneIsCountedTwice(lens: seq<nat>)
    requires |lens| >= 2 && forall i :: 0 <= i < |lens| ==> lens[i] > 0
    ensures var parts := OneBeforeLast(lens);
            KeyOf(parts) == (Joined(parts) + 1) % WORDS
  {
    var parts, n := OneBeforeLast(lens), |lens|;
    var front, zeros := parts[..n - 1], Zeros(lens[..n - 2]);
    ZerosMakeZero(zeros);
    assert front[..n - 2] == zeros;
    assert KeyOf(front) == 1 && Joined(front) == 1;
    assert parts[..n - 1] == front;
  }

  /** Several fields make the key they stand for, for all values, exactly if there is no more than one of them. */
  lemma {:induction false} KeysJoinIff(lens: seq<nat>)
    requires forall i :: 0 <= i < |lens| ==> lens[i] > 0
    ensures AlwaysJoins(lens) <==> |lens| <= 1
  {
    if |lens| <= 1 {
      forall parts | Lengths(parts) == lens && InRange(parts)
        ensures KeyOf(parts) == Joined(parts) % WORDS
      {
        FewJoin(parts);
      }
    } else {
      var parts := OneBeforeLast(lens);
      OneIsCountedTwice(lens);
      NextDiffers(Joined(parts));
    }
  }

  lemma {:induction false} NextDiffers(x: nat)
    ensures (x + 1) % WORDS != x % WORDS
  {
  }

  lemma {:induction false} FewJoin(parts: seq<Part>)
    requires |parts| <= 1
    ensures KeyOf(parts) == Joined(parts) % WORDS
  {
    if parts != [] {
      assert parts[..0] == [];
      assert KeyOf([]) == 0 && Joined([]) == 0;
    }
  }

  // ----- the key a packet is left with

  /** The place of a field, its header lying where it lies; a header never parsed counts from the start. */
  function Place(hs: Headers, f: Field): int {
    (if f.headerId in hs then hs[f.headerId].offset else 0) + f.offset
  }

  /** The fields can be read: they are inside the packet and no wider than a word. */
  predicate Readable(p: seq<Byte>, hs: Headers, fs: seq<Field>) {
    forall i :: 0 <= i < |fs| ==>
      1 <= fs[i].length <= 32 && 0 <= Place(hs, fs[i]) && Place(hs, fs[i]) + fs[i].length <= 8 * |p|
  }

  function Parts(p: seq<Byte>, hs: Headers, fs: seq<Field>): (r: seq<Part>)
    requires Readable(p, hs, fs)
    ensures |r| == |fs|
  {
    if fs == [] then []
    else
      var f := fs[|fs| - 1];
      Parts(p, hs, fs[..|fs| - 1]) + [Part(FieldInt(p, Place(hs, f), f.length), f.length)]
  }

  lemma {:induction false} KeyOfPush(parts: seq<Part>, last: Part)
    ensures KeyOf(parts + [last]) == AddField(KeyOf(parts), last.len, last.value)
  {
    assert (parts + [last])[..|parts|] == parts;
  }

  lemma {:induction false} NextKey(p: seq<Byte>, hs: Headers, fs: seq<Field>, i: nat, k: Word)
    requires Readable(p, hs, fs) && i < |fs| && k == KeyOf(Parts(p, hs, fs[..i]))
    ensures KeyOf(Parts(p, hs, fs[..i + 1])) ==
            AddField(k, fs[i].length, FieldInt(p, Place(hs, fs[i]), fs[i].length))
  {
    NextPart(p, hs, fs, i);
    KeyOfPush(Parts(p, hs, fs[..i]), Part(FieldInt(p, Place(hs, fs[i]), fs[i].length), fs[i].length));
  }

  lemma {:induction false} NextPart(p: seq<Byte>, hs: Headers, fs: seq<Field>, i: nat)
    requires Readable(p, hs, fs) && i < |fs|
    ensures Parts(p, hs, fs[..i + 1]) ==
            Parts(p, hs, fs[..i]) + [Part(FieldInt(p, Place(hs, fs[i]), fs[i].length), fs[i].length)]
  {
    assert fs[..i + 1][..i] == fs[..i];
  }

  /** The fields of one transition, in the order in which it lists them. */
  method TransKey(p: seq<Byte>, hs: Headers, fs: seq<Field>) returns (transKey: Word)
    requires Readable(p, hs, fs)
    ensures transKey == KeyOf(Parts(p, hs, fs))
    ensures |fs| == 1 && fs[0].headerId in hs ==>
      KeyAt(p, hs[fs[0].headerId].offset, fs[0].offset, fs[0].length, transKey)
    ensures |fs| == 1 && fs[0].headerId !in hs ==> KeyAt(p, 0, fs[0].offset, fs[0].length, transKey)
  {
    if |fs| == 1 {
      assert fs == [fs[0]];
      FieldOfHeader(p, hs, fs[0], if fs[0].headerId in hs then hs[fs[0].headerId].offset else 0);
    }
    transKey := 0;
    for i := 0 to |fs|
      invariant transKey == KeyOf(Parts(p, hs, fs[..i]))
    {
      var res := GetFieldInt(p, Place(hs, fs[i]), fs[i].length);
      NextKey(p, hs, fs, i, transKey);
      transKey := AddField(transKey, fs[i].length, res);
    }
    assert fs[..|fs|] == fs;
  }

  // ----- what the program means by it

  /** The bits of the fields one after the other. */
  function Meant(p: seq<Byte>, hs: Headers, fs: seq<Field>): (r: seq<Part>)
    requires Readable(p, hs, fs)
    ensures |r| == |fs|
  {
    if fs == [] then []
    else
      var f := fs[|fs| - 1];
      Meant(p, hs, fs[..|fs| - 1]) + [Part(FieldValue(p, Place(hs, f), f.length), f.length)]
  }

  /** A transition on one field reads the key it means exactly if the field spans bytes or zeros are in front of it
      in its byte. */
  lemma {:induction false} OneFieldIsMeant(p: seq<Byte>, hs: Headers, f: Field)
    requires Readable(p, hs, [f])
    ensures var begin := Place(hs, f);
            KeyOf(Parts(p, hs, [f])) == Joined(Meant(p, hs, [f])) <==>
            !InOneByte(begin, f.length) || FieldValue(p, begin - begin % 8, begin % 8) == 0
  {
    assert [f][0] == f;
    var begin: nat := Place(hs, f);
    FieldIntIsField(p, begin, f.length);
    FieldIntFits(p, begin, f.length);
    PartsOfOne(p, hs, f);
    Alone(Part(FieldInt(p, begin, f.length), f.length));
    Alone(Part(FieldValue(p, begin, f.length), f.length));
  }

  lemma {:induction false} PartsOfOne(p: seq<Byte>, hs: Headers, f: Field)
    requires Readable(p, hs, [f]) && 0 <= Place(hs, f) && f.length > 0
    ensures Parts(p, hs, [f]) == [Part(FieldInt(p, Place(hs, f), f.length), f.length)]
    ensures Meant(p, hs, [f]) == [Part(FieldValue(p, Place(hs, f), f.length), f.length)]
  {
    assert [f][..0] == [];
  }

  lemma {:induction false} FieldIntFits(p: seq<Byte>, begin: nat, len: nat)
    requires 1 <= len <= 32
    ensures FieldInt(p, begin, len) < WORDS && FieldValue(p, begin, len) < WORDS
  {
    WordSize();
    FieldBound(p, begin, len);
    Pow2AtMost(len, 32);
    if InOneByte(begin, len) {
      FieldBound(p, begin - begin % 8, begin % 8 + len);
      Pow2AtMost(begin % 8 + len, 32);
    }
  }

  lemma {:induction false} Alone(x: Part)
    requires x.value < WORDS
    ensures KeyOf([x]) == x.value && Joined([x]) == x.value
  {
    assert [x][..0] == [];
    assert KeyOf([]) == 0 && Joined([]) == 0;
  }

  // ----- fields of headers that have been found

  /** The key is the field `offset` bits behind where its header lies, exactly if that goes beyond one byte or has zeros
      in front of it. */
  ghost predicate KeyAt(p: seq<Byte>, header: int, offset: int, len: int, key: Word) {
    && 0 <= header + offset && 0 < len
    && (key == FieldValue(p, header + offset, len) <==>
         || (header + offset) / 8 != (header + offset + len - 1) / 8
         || FieldValue(p, header + offset - (header + offset) % 8, (header + offset) % 8) == 0)
  }

  lemma {:induction false} FieldOfHeader(p: seq<Byte>, hs: Headers, f: Field, header: int)
    requires Readable(p, hs, [f]) && header == if f.headerId in hs then hs[f.headerId].offset else 0
    ensures KeyAt(p, header, f.offset, f.length, KeyOf(Parts(p, hs, [f])))
  {
    assert [f][0] == f;
    KeyOfOne(p, hs, f, header + f.offset);
    FieldIntIsField(p, header + f.offset, f.length);
  }

  lemma {:induction false} KeyOfOne(p: seq<Byte>, hs: Headers, f: Field, begin: nat)
    requires Readable(p, hs, [f]) && begin == Place(hs, f) && 1 <= f.length <= 32
    ensures KeyOf(Parts(p, hs, [f])) == FieldInt(p, begin, f.length)
  {
    FieldIntFits(p, begin, f.length);
    PartsOfOne(p, hs, f);
    Alone(Part(FieldInt(p, begin, f.length), f.length));
  }

  /** The headers the fields are in lie that many bytes further in. */
  ghost predicate Moved(before: Headers, after: Headers, fs: seq<Field>, bytes: nat) {
    forall i :: 0 <= i < |fs| ==>
      && fs[i].headerId in before && fs[i].headerId in after
      && after[fs[i].headerId].offset == before[fs[i].headerId].offset + 8 * bytes
  }

  lemma {:induction false} FieldIntMoves(front: seq<Byte>, p: seq<Byte>, begin: nat, len: nat)
    requires len > 0 && begin + len <= 8 * |p|
    ensures FieldInt(front + p, begin + 8 * |front|, len) == FieldInt(p, begin, len)
  {
    var n, left := |front|, begin % 8;
    assert (front + p)[n..n + |p|] == p;
    assert (begin + 8 * n) % 8 == left && (begin + 8 * n) / 8 == begin / 8 + n;
    assert (begin + 8 * n + len - 1) / 8 == (begin + len - 1) / 8 + n;
    FieldOfSlice(front + p, n, p, begin, len);
    FieldOfSlice(front + p, n, p, begin - left, left + len);
  }

  /** With something in front of the packet, and the headers behind it, the key is the same. */
  lemma {:induction false} KeyMoves(front: seq<Byte>, p: seq<Byte>, before: Headers, after: Headers, fs: seq<Field>)
    requires Readable(p, before, fs) && Moved(before, after, fs, |front|)
    ensures Readable(front + p, after, fs)
    ensures KeyOf(Parts(front + p, after, fs)) == KeyOf(Parts(p, before, fs))
  {
    PartsMove(front, p, before, after, fs);
  }

  lemma {:induction false} PartsMove(front: seq<Byte>, p: seq<Byte>, before: Headers, after: Headers, fs: seq<Field>)
    requires Readable(p, before, fs) && Moved(before, after, fs, |front|)
    ensures Readable(front + p, after, fs) && Parts(front + p, after, fs) == Parts(p, before, fs)
  {
    if fs != [] {
      var i := |fs| - 1;
      PlaceMoves(front, p, before, after, fs, i);
      PartsMove(front, p, before, after, fs[..i]);
      FieldIntMoves(front, p, Place(before, fs[i]), fs[i].length);
      LastPart(p, before, fs);
      LastPart(front + p, after, fs);
    }
  }

  lemma {:induction false} LastPart(p: seq<Byte>, hs: Headers, fs: seq<Field>)
    requires fs != [] && Readable(p, hs, fs)
    ensures var f := fs[|fs| - 1];
            Parts(p, hs, fs) == Parts(p, hs, fs[..|fs| - 1]) + [Part(FieldInt(p, Place(hs, f), f.length), f.length)]
  {
  }

  lemma {:induction false} PlaceMoves(front: seq<Byte>, p: seq<Byte>, before: Headers, after: Headers, fs: seq<Field>,
                                      i: nat)
    requires Readable(p, before, fs) && Moved(before, after, fs, |front|) && i < |fs|
    ensures Readable(front + p, after, fs)
    ensures Place(before, fs[i]) >= 0 && Place(after, fs[i]) == Place(before, fs[i]) + 8 * |front|
  {
  }

  /** IPv4 behind Ethernet, whose protocol is TCP. */
  const BEHIND_ETHERNET: Headers := map[2 := Header(112, 160, true)]

  /** The protocol is read behind Ethernet, not inside it. */
  method ReadProtocol(p: seq<Byte>) returns (key: Word)
    requires |p| >= 24 && p[23] == 6
    ensures key == 6
  {
    var f := Field(2, 72, 8);
    assert Readable(p, BEHIND_ETHERNET, [f]);
    key := TransKey(p, BEHIND_ETHERNET, [f]);
    ProtocolByte(p);
  }

  lemma {:induction false} ProtocolByte(p: seq<Byte>)
    requires |p| >= 24
    ensures FieldValue(p, 184, 8) == p[23] && FieldValue(p, 184, 0) == 0
  {
    WholeByte(p, 23);
  }
}
