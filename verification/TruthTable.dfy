/** rP4-compiler/p4r/p4_parameter.h, `P4Parameter::parse`: a condition tree becomes the list of rows
    that satisfy it, one column per occurrence of an atom. */
module TruthTable {
  import opened Powers
  import opened Rows

  /** A condition. Whatever is not built by "d2b", "not", "and", "or" is an atom. */
  datatype Cond = Atom(id: int) | D2b(right: Cond) | Not(right: Cond)
                | And(left: Cond, right: Cond) | Or(left: Cond, right: Cond)

  /** The occurrences of atoms, from left to right. */
  function Atoms(c: Cond): seq<Cond> {
    match c
    case Atom(_) => [c]
    case D2b(r) => Atoms(r)
    case Not(r) => Atoms(r)
    case And(l, r) => Atoms(l) + Atoms(r)
    case Or(l, r) => Atoms(l) + Atoms(r)
  }

  /** The truth of `c` when its atom occurrences are as the digits of `row` say. */
  predicate Holds(c: Cond, row: string)
    requires |row| == |Atoms(c)|
  {
    match c
    case Atom(_) => row[0] == '1'
    case D2b(r) => Holds(r, row)
    case Not(r) => !Holds(r, row)
    case And(l, r) => Holds(l, row[..|Atoms(l)|]) && Holds(r, row[|Atoms(l)|..])
    case Or(l, r) => Holds(l, row[..|Atoms(l)|]) || Holds(r, row[|Atoms(l)|..])
  }

  /** The number of satisfying rows, by inclusion and exclusion. */
  function SatCount(c: Cond): int {
    match c
    case Atom(_) => 1
    case D2b(r) => SatCount(r)
    case Not(r) => Pow2(|Atoms(r)|) - SatCount(r)
    case And(l, r) => SatCount(l) * SatCount(r)
    case Or(l, r) =>
      Pow2(|Atoms(l)|) * SatCount(r) + SatCount(l) * Pow2(|Atoms(r)|) - SatCount(l) * SatCount(r)
  }

  lemma {:induction false} ProductsBetween(a: int, b: int, m: int, n: int)
    requires 0 < a < m && 0 < b < n
    ensures 0 < a * b < m * n
    ensures 0 < m * b + a * n - a * b < m * n
  {
    Positive(a, b);
    Positive(m - a, n - b);
    Positive(m - a, b);
    Positive(a, n - b);
    Expand(a, b, m, n);
  }

  lemma {:induction false} Positive(a: int, b: int)
    requires a > 0 && b > 0
    ensures a * b > 0
  {
  }

  lemma {:induction false} Expand(a: int, b: int, m: int, n: int)
    ensures (m - a) * (n - b) == m * n - m * b - a * n + a * b
    ensures (m - a) * b == m * b - a * b
    ensures a * (n - b) == a * n - a * b
  {
    Distribute(m, a, n - b);
    Distribute(m, a, b);
  }

  /** A formula that uses every occurrence once is never constant. */
  lemma {:induction false} NeverConstant(c: Cond)
    ensures 0 < SatCount(c) < Pow2(|Atoms(c)|)
  {
    match c
    case Atom(_) =>
    case D2b(r) => NeverConstant(r);
    case Not(r) => NeverConstant(r);
    case And(l, r) =>
      NeverConstant(l);
      NeverConstant(r);
      Pow2Add(|Atoms(l)|, |Atoms(r)|);
      ProductsBetween(SatCount(l), SatCount(r), Pow2(|Atoms(l)|), Pow2(|Atoms(r)|));
    case Or(l, r) =>
      NeverConstant(l);
      NeverConstant(r);
      Pow2Add(|Atoms(l)|, |Atoms(r)|);
      ProductsBetween(SatCount(l), SatCount(r), Pow2(|Atoms(l)|), Pow2(|Atoms(r)|));
  }

  // ----- the odometer

  /** Counting modulo 2^n. */
  function Wrap(c: nat, n: nat): nat {
    if c == Pow2(n) then 0 else c
  }

  /** `inc_temp`: count up by one, wrapping around. */
  method Increment(temp: array<char>)
    requires IsRow(temp[..], temp.Length)
    modifies temp
    ensures IsRow(temp[..], temp.Length)
    ensures Value(temp[..]) == Wrap(old(Value(temp[..])) + 1, temp.Length)
  {
    var k := temp.Length - 1;
    while k >= 0
      invariant -1 <= k < temp.Length
      invariant forall i :: 0 <= i <= k ==> temp[i] == old(temp[i])
      invariant forall i :: k < i < temp.Length ==> temp[i] == '0' && old(temp[i]) == '1'
    {
      if temp[k] == '1' {
        temp[k] := '0';
      } else {
        temp[k] := '1';
        OdometerAddsOne(old(temp[..]), temp[..], k);
        ValueBound(temp[..]);
        return;
      }
      k := k - 1;
    }
    AllZeros(temp[..]);
    AllOnes(old(temp[..]));
  }

  /** `ans` holds the rows below `c` that are not in `v`, and nothing else. */
  ghost predicate ComplementBelow(ans: seq<string>, v: seq<string>, c: nat, n: nat) {
    && IsTable(ans, n)
    && (forall i :: 0 <= i < |ans| ==> Value(ans[i]) < c)
    && (forall r :: IsRow(r, n) && Value(r) < c ==> (r in ans <==> r !in v))
  }

  lemma {:induction false} ComplementAdd(ans: seq<string>, v: seq<string>, r: string, n: nat)
    requires ComplementBelow(ans, v, Value(r), n) && IsRow(r, n) && r !in v
    ensures ComplementBelow(ans + [r], v, Value(r) + 1, n)
  {
    TableAppend(ans, r, n);
    forall x | IsRow(x, n) && Value(x) < Value(r) + 1
      ensures x in ans + [r] <==> x !in v
    {
      if Value(x) == Value(r) {
        ValueInjective(x, r, n);
      }
    }
  }

  lemma {:induction false} ComplementSkip(ans: seq<string>, v: seq<string>, r: string, n: nat)
    requires ComplementBelow(ans, v, Value(r), n) && IsRow(r, n)
    ensures ComplementBelow(ans, v + [r], Value(r) + 1, n)
  {
    forall x | IsRow(x, n) && Value(x) < Value(r) + 1
      ensures x in ans <==> x !in v + [r]
    {
      if Value(x) == Value(r) {
        ValueInjective(x, r, n);
      }
    }
  }

  /** `for (inc_temp(); stop != temp; inc_temp()) ans.push_back(temp)`: from the row numbered `from` up
      to, but not including, the one numbered `upTo`, where 2^n stands for the wrap-around to zero. */
  method CollectUntil(temp: array<char>, stop: string, start: seq<string>, ghost v: seq<string>,
                      ghost from: nat, ghost upTo: nat) returns (ans: seq<string>)
    requires IsRow(temp[..], temp.Length) && IsRow(stop, temp.Length)
    requires from <= upTo <= Pow2(temp.Length) && (upTo == Pow2(temp.Length) ==> from > 0)
    requires Value(stop) == Wrap(upTo, temp.Length)
    requires Wrap(from, temp.Length) == Wrap(Value(temp[..]) + 1, temp.Length)
    requires ComplementBelow(start, v, from, temp.Length)
    requires forall i :: 0 <= i < |v| ==> Value(v[i]) < from
    modifies temp
    ensures IsRow(temp[..], temp.Length) && Value(temp[..]) == Value(stop)
    ensures ComplementBelow(ans, v, upTo, temp.Length)
    ensures |ans| - |start| == upTo - from
  {
    ans := start;
    ghost var n, c := temp.Length, from;
    Increment(temp);
    while stop != temp[..]
      invariant IsRow(temp[..], n)
      invariant from <= c <= upTo && Value(temp[..]) == Wrap(c, n)
      invariant ComplementBelow(ans, v, c, n)
      invariant |ans| - |start| == c - from
      decreases upTo - c
    {
      NotYetStopped(stop, temp[..], c, upTo, n);
      ComplementAdd(ans, v, temp[..], n);
      ans := ans + [temp[..]];
      c := c + 1;
      Increment(temp);
    }
  }

  lemma {:induction false} NotYetStopped(stop: string, temp: string, c: nat, upTo: nat, n: nat)
    requires IsRow(temp, n) && IsRow(stop, n) && stop != temp && c <= upTo
    requires Value(temp) == Wrap(c, n) && Value(stop) == Wrap(upTo, n)
    ensures c < upTo
  {
    if c == upTo {
      ValueInjective(stop, temp, n);
    }
  }

  lemma {:induction false} StartOfTable(temp: string, n: nat)
    requires temp == Repeat('1', n)
    ensures IsRow(temp, n) && Wrap(Value(temp) + 1, n) == 0
  {
    AllOnes(temp);
  }

  lemma {:induction false} RowsBefore(v: seq<string>, i: nat, n: nat)
    requires IsTable(v, n) && i <= |v|
    ensures 0 < i < |v| ==> Value(v[i - 1]) + 1 <= Value(v[i])
    ensures forall k :: 0 <= k < |v[..i]| ==> i > 0 && Value(v[..i][k]) < Value(v[i - 1]) + 1
  {
    TableOrder(v, n);
    forall k | 0 <= k < |v[..i]|
      ensures Value(v[..i][k]) < Value(v[i - 1]) + 1
    {
      assert v[..i][k] == v[k];
    }
  }

  /** The rows numbered below `c` are dealt with: `i` of them are in `v`, the others in `ans`. The
      odometer shows the row before `c`. */
  ghost predicate AtRow(t: string, v: seq<string>, i: nat, ans: seq<string>, c: nat, n: nat)
    requires i <= |v|
  {
    && IsRow(t, n)
    && c == (if i == 0 then 0 else Value(v[i - 1]) + 1) <= Pow2(n)
    && Wrap(c, n) == Wrap(Value(t) + 1, n)
    && ComplementBelow(ans, v[..i], c, n)
    && |ans| + i == c
  }

  lemma {:induction false} RowDealtWith(t: string, v: seq<string>, i: nat, ans: seq<string>, n: nat)
    requires i < |v| && IsTable(v, n) && IsRow(t, n) && Value(t) == Value(v[i])
    requires ComplementBelow(ans, v[..i], Value(v[i]), n) && |ans| + i == Value(v[i])
    ensures AtRow(t, v, i + 1, ans, Value(v[i]) + 1, n)
  {
    ComplementSkip(ans, v[..i], v[i], n);
    ValueBound(v[i]);
    assert v[..i + 1] == v[..i] + [v[i]];
  }

  /** The part of `not_apply` for one listed row. */
  method PassRow(temp: array<char>, v: seq<string>, i: nat, start: seq<string>, ghost c: nat) returns (ans: seq<string>)
    requires i < |v| && IsTable(v, temp.Length) && AtRow(temp[..], v, i, start, c, temp.Length)
    modifies temp
    ensures AtRow(temp[..], v, i + 1, ans, Value(v[i]) + 1, temp.Length)
  {
    ghost var n := temp.Length;
    ValueBound(v[i]);
    RowsBefore(v, i, n);
    ans := CollectUntil(temp, v[i], start, v[..i], c, Value(v[i]));
    RowDealtWith(temp[..], v, i, ans, n);
  }

  /** The part of `not_apply` behind the last listed row, up to the wrap-around. */
  method PassRest(temp: array<char>, zero: string, ghost v: seq<string>, start: seq<string>, ghost c: nat)
    returns (ans: seq<string>)
    requires v != [] && IsTable(v, temp.Length) && AtRow(temp[..], v, |v|, start, c, temp.Length)
    requires IsRow(zero, temp.Length) && Value(zero) == 0
    modifies temp
    ensures IsTable(ans, temp.Length)
    ensures forall r :: IsRow(r, temp.Length) ==> (r in ans <==> r !in v)
    ensures |ans| + |v| == Pow2(temp.Length)
  {
    assert v[..|v|] == v;
    RowsBefore(v, |v|, temp.Length);
    ans := CollectUntil(temp, zero, start, v, c, Pow2(temp.Length));
    forall r | IsRow(r, temp.Length)
      ensures r in ans <==> r !in v
    {
      ValueBound(r);
    }
  }

  /** `not_apply`, on a strictly increasing and non-empty table: the complement, again increasing. */
  method NotApply(v: seq<string>, ghost n: nat) returns (ans: seq<string>)
    requires v != [] && IsTable(v, n)
    ensures IsTable(ans, n)
    ensures forall r :: IsRow(r, n) ==> (r in ans <==> r !in v)
    ensures |ans| + |v| == Pow2(n)
  {
    var vs := |v[0]|;
    var temp := new char[vs](_ => '1');
    var zero := Repeat('0', vs);
    ans := [];
    assert temp[..] == Repeat('1', vs);
    StartOfTable(temp[..], n);
    AllZeros(zero);
    ghost var c: nat := 0;
    for i := 0 to |v|
      invariant temp.Length == n && AtRow(temp[..], v, i, ans, c, n)
    {
      ans := PassRow(temp, v, i, ans, c);
      c := Value(v[i]) + 1;
    }
    ans := PassRest(temp, zero, v, ans, c);
  }

  // ----- conjunction and disjunction

  lemma {:induction false} ConcatOrder(a: string, b: string, c: string, d: string)
    requires |a| == |c|
    ensures RowLess(a, c) ==> RowLess(a + b, c + d)
    ensures a == c && RowLess(b, d) ==> RowLess(a + b, c + d)
    decreases |a|
  {
    if a == [] {
      assert a + b == b && c + d == d;
    } else {
      assert (a + b)[1..] == a[1..] + b && (c + d)[1..] == c[1..] + d;
      ConcatOrder(a[1..], b, c[1..], d);
    }
  }

  /** `r` is a row of `v1` followed by a row of `v2`. */
  predicate InProduct(v1: seq<string>, v2: seq<string>, m: nat, r: string)
    requires |r| >= m
  {
    r[..m] in v1 && r[m..] in v2
  }

  /** The rows of `v2`, each with `a` in front. */
  method Prefixed(a: string, v2: seq<string>, ghost m: nat, ghost n: nat) returns (block: seq<string>)
    requires IsRow(a, m) && IsTable(v2, n)
    ensures IsTable(block, m + n) && |block| == |v2|
    ensures forall k :: 0 <= k < |block| ==> block[k] == a + v2[k]
  {
    block := [];
    for j := 0 to |v2|
      invariant |block| == j && forall k :: 0 <= k < j ==> block[k] == a + v2[k]
    {
      block := block + [a + v2[j]];
    }
    forall j, k | 0 <= j < k < |block|
      ensures RowLess(block[j], block[k])
    {
      ConcatOrder(a, v2[j], a, v2[k]);
    }
  }

  lemma {:induction false} BlockMembers(a: string, v2: seq<string>, block: seq<string>, r: string, m: nat, n: nat)
    requires |a| == m && |block| == |v2| && |r| == m + n
    requires forall k :: 0 <= k < |block| ==> block[k] == a + v2[k]
    ensures r in block <==> r[..m] == a && r[m..] in v2
  {
    if r in block {
      var k :| 0 <= k < |block| && block[k] == r;
      assert r[..m] == a && r[m..] == v2[k];
    }
    if r[..m] == a && r[m..] in v2 {
      var k :| 0 <= k < |v2| && v2[k] == r[m..];
      assert r == r[..m] + r[m..];
      assert block[k] == r;
    }
  }

  /** The blocks of the first `i` rows of `v1`. */
  ghost predicate ProductSoFar(ans: seq<string>, v1: seq<string>, i: nat, v2: seq<string>, m: nat, n: nat)
    requires i <= |v1|
  {
    && IsTable(ans, m + n)
    && (forall r :: IsRow(r, m + n) ==> (r in ans <==> InProduct(v1[..i], v2, m, r)))
  }

  lemma {:induction false} ProductGrows(ans: seq<string>, v1: seq<string>, i: nat, v2: seq<string>, m: nat, n: nat,
                                        block: seq<string>)
    requires i < |v1| && IsTable(v1, m) && ProductSoFar(ans, v1, i, v2, m, n)
    requires IsTable(block, m + n) && |block| == |v2|
    requires forall k :: 0 <= k < |block| ==> block[k] == v1[i] + v2[k]
    ensures ProductSoFar(ans + block, v1, i + 1, v2, m, n)
  {
    var all := ans + block;
    forall j, k | 0 <= j < k < |all|
      ensures RowLess(all[j], all[k])
    {
      if j < |ans| <= k {
        BlockComesLater(ans, v1, i, v2, m, n, j, v2[k - |ans|]);
      }
    }
    assert v1[..i + 1] == v1[..i] + [v1[i]];
    forall r | IsRow(r, m + n)
      ensures r in all <==> InProduct(v1[..i + 1], v2, m, r)
    {
      BlockMembers(v1[i], v2, block, r, m, n);
    }
  }

  lemma {:induction false} BlockComesLater(ans: seq<string>, v1: seq<string>, i: nat, v2: seq<string>, m: nat, n: nat,
                                           j: nat, b: string)
    requires i < |v1| && IsTable(v1, m) && ProductSoFar(ans, v1, i, v2, m, n) && j < |ans|
    ensures RowLess(ans[j], v1[i] + b)
  {
    var r := ans[j];
    assert r in ans && InProduct(v1[..i], v2, m, r);
    var k :| 0 <= k < i && v1[k] == r[..m];
    assert r == r[..m] + r[m..];
    ConcatOrder(v1[k], r[m..], v1[i], b);
  }

  /** `and_apply`: every row of the one followed by every row of the other. */
  method AndApply(v1: seq<string>, v2: seq<string>, ghost m: nat, ghost n: nat) returns (ans: seq<string>)
    requires IsTable(v1, m) && IsTable(v2, n)
    ensures IsTable(ans, m + n) && |ans| == |v1| * |v2|
    ensures forall r :: IsRow(r, m + n) ==> (r in ans <==> InProduct(v1, v2, m, r))
  {
    ans := [];
    for i := 0 to |v1|
      invariant ProductSoFar(ans, v1, i, v2, m, n)
      invariant |ans| == i * |v2|
    {
      var block := Prefixed(v1[i], v2, m, n);
      ProductGrows(ans, v1, i, v2, m, n, block);
      Distribute(i, 1, |v2|);
      ans := ans + block;
    }
    assert v1[..|v1|] == v1;
  }

  /** `std::sort` of distinct rows, one insertion at a time. */
  method InsertRow(v: seq<string>, r: string, ghost n: nat) returns (ans: seq<string>)
    requires IsTable(v, n) && IsRow(r, n) && r !in v
    ensures IsTable(ans, n) && |ans| == |v| + 1
    ensures forall x :: x in ans <==> x in v || x == r
  {
    var i := 0;
    while i < |v| && RowLess(v[i], r)
      invariant 0 <= i <= |v| && forall k :: 0 <= k < i ==> RowLess(v[k], r)
    {
      i := i + 1;
    }
    ans := v[..i] + [r] + v[i..];
    forall k | i <= k < |v|
      ensures RowLess(r, v[k])
    {
      LessThanRest(v, r, n, i, k);
    }
    InsertedIsTable(v, r, n, i, ans);
    forall x
      ensures x in ans <==> x in v || x == r
    {
      InsertedMembers(v, r, i, x);
    }
  }

  /** A row that is not behind the `i`-th of a table, nor in the table, is in front of all from there on. */
  lemma {:induction false} LessThanRest(v: seq<string>, r: string, n: nat, i: nat, k: nat)
    requires IsTable(v, n) && IsRow(r, n) && r !in v && i <= k < |v| && !RowLess(v[i], r)
    ensures RowLess(r, v[k])
  {
    TableOrder(v, n);
    assert v[i] in v;
    RowLessIsValueLess(v[i], r, n);
    if Value(v[i]) == Value(r) {
      ValueInjective(v[i], r, n);
    }
    RowLessIsValueLess(r, v[k], n);
  }

  lemma {:induction false} InsertedIsTable(v: seq<string>, r: string, n: nat, i: nat, ans: seq<string>)
    requires IsTable(v, n) && IsRow(r, n) && i <= |v| && ans == v[..i] + [r] + v[i..]
    requires forall k :: 0 <= k < i ==> RowLess(v[k], r)
    requires forall k :: i <= k < |v| ==> RowLess(r, v[k])
    ensures IsTable(ans, n) && |ans| == |v| + 1
  {
    assert forall k :: 0 <= k < |ans| ==> ans[k] == if k < i then v[k] else if k == i then r else v[k - 1];
  }

  lemma {:induction false} InsertedMembers(v: seq<string>, r: string, i: nat, x: string)
    requires i <= |v|
    ensures x in v[..i] + [r] + v[i..] <==> x in v || x == r
  {
    assert v == v[..i] + v[i..];
  }

  predicate Distinct(v: seq<string>) {
    forall i, j :: 0 <= i < j < |v| ==> v[i] != v[j]
  }

  method SortRows(v: seq<string>, ghost n: nat) returns (ans: seq<string>)
    requires RowsOf(v, n) && Distinct(v)
    ensures IsTable(ans, n) && |ans| == |v|
    ensures forall x :: x in ans <==> x in v
  {
    ans := [];
    for i := 0 to |v|
      invariant IsTable(ans, n) && |ans| == i
      invariant forall x :: x in ans <==> x in v[..i]
    {
      assert v[i] !in v[..i];
      ans := InsertRow(ans, v[i], n);
      assert v[..i + 1] == v[..i] + [v[i]];
    }
    assert v[..|v|] == v;
  }

  lemma {:induction false} TablesAreDistinct(v: seq<string>, n: nat)
    requires IsTable(v, n)
    ensures Distinct(v)
  {
    TableOrder(v, n);
  }

  lemma {:induction false} DistinctConcat(a: seq<string>, b: seq<string>)
    requires Distinct(a) && Distinct(b) && forall x :: x in a ==> x !in b
    ensures Distinct(a + b)
  {
    var c := a + b;
    forall i, j | 0 <= i < j < |c|
      ensures c[i] != c[j]
    {
      if i < |a| <= j {
        assert c[i] in a && c[j] in b;
      }
    }
  }

  lemma {:induction false} Complementary(v: seq<string>, w: seq<string>, n: nat, r: string)
    requires forall x :: IsRow(x, n) ==> (x in w <==> x !in v)
    requires IsRow(r, n)
    ensures r in w <==> r !in v
  {
  }

  /** `or_apply`: the rows in one but not the other, the other way round, and in both; sorted. */
  method OrApply(v1: seq<string>, v2: seq<string>, ghost m: nat, ghost n: nat) returns (ans: seq<string>)
    requires IsTable(v1, m) && IsTable(v2, n) && v1 != [] && v2 != []
    ensures IsTable(ans, m + n)
    ensures forall r :: IsRow(r, m + n) ==> (r in ans <==> r[..m] in v1 || r[m..] in v2)
    ensures |ans| == Pow2(m) * |v2| + |v1| * Pow2(n) - |v1| * |v2|
  {
    var not2 := NotApply(v2, n);
    var a1 := AndApply(v1, not2, m, n);
    var not1 := NotApply(v1, m);
    var a2 := AndApply(not1, v2, m, n);
    var a3 := AndApply(v1, v2, m, n);
    var all := a1 + a2 + a3;
    ghost var w := m + n;
    forall r | IsRow(r, w)
      ensures IsRow(r[..m], m) && IsRow(r[m..], n)
      ensures r in a1 <==> r[..m] in v1 && r[m..] !in v2
      ensures r in a2 <==> r[..m] !in v1 && r[m..] in v2
      ensures r in a3 <==> r[..m] in v1 && r[m..] in v2
    {
      Complementary(v2, not2, n, r[m..]);
      Complementary(v1, not1, m, r[..m]);
    }
    ThreePartsDistinct(a1, a2, a3, w);
    ans := SortRows(all, w);
    Expand(|v1|, |v2|, Pow2(m), Pow2(n));
  }

  lemma {:induction false} ThreePartsDistinct(a1: seq<string>, a2: seq<string>, a3: seq<string>, n: nat)
    requires IsTable(a1, n) && IsTable(a2, n) && IsTable(a3, n)
    requires forall r :: IsRow(r, n) && r in a1 ==> r !in a2 && r !in a3
    requires forall r :: IsRow(r, n) && r in a2 ==> r !in a3
    ensures Distinct(a1 + a2 + a3) && RowsOf(a1 + a2 + a3, n)
  {
    TablesAreDistinct(a1, n);
    TablesAreDistinct(a2, n);
    TablesAreDistinct(a3, n);
    DistinctConcat(a1, a2);
    DistinctConcat(a1 + a2, a3);
  }

  // ----- the whole conversion

  /** `rows` is the sorted list of exactly the rows under which `c` is true. */
  ghost predicate IsTruthTable(c: Cond, rows: seq<string>) {
    && IsTable(rows, |Atoms(c)|)
    && forall r :: IsRow(r, |Atoms(c)|) ==> (r in rows <==> Holds(c, r))
  }

  // ----- what atoms and rows mean together

  /** The truth of `c` when atoms have the values given: no rows and no columns. */
  predicate True(c: Cond, value: int -> bool) {
    match c
    case Atom(id) => value(id)
    case D2b(r) => True(r, value)
    case Not(r) => !True(r, value)
    case And(l, r) => True(l, value) && True(r, value)
    case Or(l, r) => True(l, value) || True(r, value)
  }

  predicate AllAtoms(atoms: seq<Cond>) {
    forall k :: 0 <= k < |atoms| ==> atoms[k].Atom?
  }

  /** The row whose digits are the values of the atoms, column by column. */
  function RowOf(atoms: seq<Cond>, value: int -> bool): (row: string)
    requires AllAtoms(atoms)
    ensures IsRow(row, |atoms|)
    ensures forall k :: 0 <= k < |atoms| ==> (row[k] == '1' <==> value(atoms[k].id))
  {
    seq(|atoms|, k requires 0 <= k < |atoms| => if value(atoms[k].id) then '1' else '0')
  }

  /** The columns are those of the atoms: under all values of the atoms the tree is true just if the row is listed. */
  ghost predicate ColumnsAre(c: Cond, atoms: seq<Cond>, rows: seq<string>) {
    && AllAtoms(atoms)
    && forall value: int -> bool :: RowOf(atoms, value) in rows <==> True(c, value)
  }

  lemma {:induction false} AtomsAreAtoms(c: Cond)
    ensures AllAtoms(Atoms(c))
  {
    match c
    case Atom(_) =>
    case D2b(r) => AtomsAreAtoms(r);
    case Not(r) => AtomsAreAtoms(r);
    case And(l, r) =>
      AtomsAreAtoms(l);
      AtomsAreAtoms(r);
    case Or(l, r) =>
      AtomsAreAtoms(l);
      AtomsAreAtoms(r);
  }

  lemma {:induction false} RowSplits(a: seq<Cond>, b: seq<Cond>, value: int -> bool)
    requires AllAtoms(a) && AllAtoms(b)
    ensures RowOf(a + b, value)[..|a|] == RowOf(a, value)
    ensures RowOf(a + b, value)[|a|..] == RowOf(b, value)
  {
  }

  /** The row of the values makes the tree true just if the values do. */
  lemma {:induction false} HoldsIsTrue(c: Cond, value: int -> bool)
    ensures AllAtoms(Atoms(c)) && (Holds(c, RowOf(Atoms(c), value)) <==> True(c, value))
  {
    AtomsAreAtoms(c);
    match c
    case Atom(_) =>
    case D2b(r) => HoldsIsTrue(r, value);
    case Not(r) => HoldsIsTrue(r, value);
    case And(l, r) =>
      HoldsIsTrue(l, value);
      HoldsIsTrue(r, value);
      RowSplits(Atoms(l), Atoms(r), value);
    case Or(l, r) =>
      HoldsIsTrue(l, value);
      HoldsIsTrue(r, value);
      RowSplits(Atoms(l), Atoms(r), value);
  }

  lemma {:induction false} TableIsTrue(c: Cond, rows: seq<string>)
    requires IsTruthTable(c, rows)
    ensures ColumnsAre(c, Atoms(c), rows)
  {
    AtomsAreAtoms(c);
    forall value: int -> bool
      ensures RowOf(Atoms(c), value) in rows <==> True(c, value)
    {
      HoldsIsTrue(c, value);
    }
  }

  /** The ids of a tree as it is written, from left to right, each time they occur. */
  function Written(c: Cond, behind: seq<int>): seq<int> {
    match c
    case Atom(id) => [id] + behind
    case D2b(r) => Written(r, behind)
    case Not(r) => Written(r, behind)
    case And(l, r) => Written(l, Written(r, behind))
    case Or(l, r) => Written(l, Written(r, behind))
  }

  function Ids(atoms: seq<Cond>): (ids: seq<int>)
    requires AllAtoms(atoms)
    ensures |ids| == |atoms| && forall k :: 0 <= k < |ids| ==> ids[k] == atoms[k].id
  {
    seq(|atoms|, k requires 0 <= k < |atoms| => atoms[k].id)
  }

  lemma {:induction false} AtomsAreWritten(c: Cond, behind: seq<int>)
    ensures AllAtoms(Atoms(c)) && Written(c, behind) == Ids(Atoms(c)) + behind
  {
    AtomsAreAtoms(c);
    match c
    case Atom(_) =>
    case D2b(r) => AtomsAreWritten(r, behind);
    case Not(r) => AtomsAreWritten(r, behind);
    case And(l, r) =>
      AtomsAreWritten(l, Written(r, behind));
      AtomsAreWritten(r, behind);
      assert Ids(Atoms(l) + Atoms(r)) == Ids(Atoms(l)) + Ids(Atoms(r));
    case Or(l, r) =>
      AtomsAreWritten(l, Written(r, behind));
      AtomsAreWritten(r, behind);
      assert Ids(Atoms(l) + Atoms(r)) == Ids(Atoms(l)) + Ids(Atoms(r));
  }

  /** `parse`: the atoms in the order they are written, and the truth table, which is neither empty nor full and as
      long as there are satisfying rows. */
  method Parse(c: Cond) returns (atoms: seq<Cond>, rows: seq<string>)
    ensures AllAtoms(atoms) && Ids(atoms) == Written(c, [])
    ensures ColumnsAre(c, atoms, rows)
    ensures atoms == Atoms(c) && IsTruthTable(c, rows)
    ensures 0 < |rows| == SatCount(c) < Pow2(|atoms|)
  {
    atoms, rows := ParseTree(c);
    TableIsTrue(c, rows);
    AtomsAreWritten(c, []);
    assert Ids(atoms) + [] == Ids(atoms);
  }

  method ParseTree(c: Cond) returns (atoms: seq<Cond>, rows: seq<string>)
    ensures atoms == Atoms(c) && IsTruthTable(c, rows)
    ensures 0 < |rows| == SatCount(c) < Pow2(|atoms|)
  {
    NeverConstant(c);
    match c
    case Atom(_) =>
      atoms, rows := [c], ["1"];
      AtomTable(c);
    case D2b(r) =>
      atoms, rows := ParseTree(r);
    case Not(r) =>
      var b;
      atoms, b := ParseTree(r);
      rows := NotApply(b, |atoms|);
    case And(l, r) =>
      var al, bl := ParseTree(l);
      var ar, br := ParseTree(r);
      atoms := al + ar;
      rows := AndApply(bl, br, |al|, |ar|);
      SplitRows(|al|, |ar|);
    case Or(l, r) =>
      var al, bl := ParseTree(l);
      var ar, br := ParseTree(r);
      atoms := al + ar;
      rows := OrApply(bl, br, |al|, |ar|);
      SplitRows(|al|, |ar|);
  }

  /** "1 and not 2" is true for the row 10 only, whose first digit is that of 1. */
  method ParseAndNot() returns (atoms: seq<Cond>, rows: seq<string>)
    ensures atoms == [Atom(1), Atom(2)] && rows == ["10"]
  {
    var c := And(Atom(1), Not(Atom(2)));
    atoms, rows := Parse(c);
    assert Written(c, []) == [1, 2];
    assert |atoms| == |Ids(atoms)| == 2 && Ids(atoms)[0] == 1 && Ids(atoms)[1] == 2;
    var value := (id: int) => id == 1;
    assert RowOf(atoms, value) == "10";
    assert True(c, value);
    assert SatCount(c) == 1 by {
      assert Pow2(1) == 2;
    }
  }

  lemma {:induction false} SplitRows(m: nat, n: nat)
    ensures forall r :: IsRow(r, m + n) ==> IsRow(r[..m], m) && IsRow(r[m..], n)
  {
  }

  lemma {:induction false} AtomTable(c: Cond)
    requires c.Atom?
    ensures IsTruthTable(c, ["1"])
  {
    forall r | IsRow(r, 1)
      ensures r in ["1"] <==> Holds(c, r)
    {
      assert r == [r[0]];
    }
  }
}
