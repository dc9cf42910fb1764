/** Rows of a truth table: strings over '0' and '1', read as binary numbers. */
module Rows {
  import opened Powers

  predicate IsRow(r: string, n: nat) {
    |r| == n && forall i :: 0 <= i < n ==> r[i] == '0' || r[i] == '1'
  }

  function Digit(c: char): nat {
    if c == '1' then 1 else 0
  }

  function Value(r: string): nat {
    if r == [] then 0 else Digit(r[0]) * Pow2(|r| - 1) + Value(r[1..])
  }

  lemma {:induction false} ValueBound(r: string)
    ensures Value(r) < Pow2(|r|)
  {
    if r != [] {
      ValueBound(r[1..]);
    }
  }

  lemma {:induction false} ValueConcat(a: string, b: string)
    ensures Value(a + b) == Value(a) * Pow2(|b|) + Value(b)
  {
    if a == [] {
      assert a + b == b;
    } else {
      assert (a + b)[1..] == a[1..] + b;
      ValueConcat(a[1..], b);
      Pow2Add(|a| - 1, |b|);
      Distribute(Digit(a[0]) * Pow2(|a| - 1), Value(a[1..]), Pow2(|b|));
      MulAssoc(Digit(a[0]), Pow2(|a| - 1), Pow2(|b|));
    }
  }

  lemma {:induction false} ValueInjective(a: string, b: string, n: nat)
    requires IsRow(a, n) && IsRow(b, n) && Value(a) == Value(b)
    ensures a == b
  {
    if n > 0 {
      ValueBound(a[1..]);
      ValueBound(b[1..]);
      ValueInjective(a[1..], b[1..], n - 1);
      assert a == [a[0]] + a[1..] && b == [b[0]] + b[1..];
    }
  }

  /** `std::string` comparison. */
  predicate RowLess(a: string, b: string) {
    b != [] && (a == [] || a[0] < b[0] || (a[0] == b[0] && RowLess(a[1..], b[1..])))
  }

  /** On rows of one width the order of strings is the order of numbers. */
  lemma {:induction false} RowLessIsValueLess(a: string, b: string, n: nat)
    requires IsRow(a, n) && IsRow(b, n)
    ensures RowLess(a, b) <==> Value(a) < Value(b)
  {
    if n > 0 {
      ValueBound(a[1..]);
      ValueBound(b[1..]);
      RowLessIsValueLess(a[1..], b[1..], n - 1);
    }
  }

  /** All rows have width `n`. */
  predicate RowsOf(v: seq<string>, n: nat) {
    forall i :: 0 <= i < |v| ==> IsRow(v[i], n)
  }

  /** Strictly increasing, as strings. */
  predicate Increasing(v: seq<string>) {
    forall i, j :: 0 <= i < j < |v| ==> RowLess(v[i], v[j])
  }

  /** Rows of width `n`, strictly increasing. */
  predicate IsTable(v: seq<string>, n: nat) {
    RowsOf(v, n) && Increasing(v)
  }

  lemma {:induction false} TableOrder(v: seq<string>, n: nat)
    requires IsTable(v, n)
    ensures forall i, j :: 0 <= i < j < |v| ==> Value(v[i]) < Value(v[j])
  {
    forall i, j | 0 <= i < j < |v|
      ensures Value(v[i]) < Value(v[j])
    {
      RowLessIsValueLess(v[i], v[j], n);
    }
  }

  lemma {:induction false} TableAppend(v: seq<string>, r: string, n: nat)
    requires IsTable(v, n) && IsRow(r, n)
    requires forall i :: 0 <= i < |v| ==> Value(v[i]) < Value(r)
    ensures IsTable(v + [r], n)
  {
    forall i | 0 <= i < |v|
      ensures RowLess(v[i], r)
    {
      RowLessIsValueLess(v[i], r, n);
    }
  }

  function Repeat(c: char, n: nat): (r: string)
    ensures |r| == n && forall i :: 0 <= i < n ==> r[i] == c
  {
    seq(n, _ => c)
  }

  lemma {:induction false} AllZeros(r: string)
    requires forall i :: 0 <= i < |r| ==> r[i] == '0'
    ensures Value(r) == 0
  {
    if r != [] {
      AllZeros(r[1..]);
    }
  }

  lemma {:induction false} AllOnes(r: string)
    requires forall i :: 0 <= i < |r| ==> r[i] == '1'
    ensures Value(r) == Pow2(|r|) - 1
  {
    if r != [] {
      AllOnes(r[1..]);
    }
  }

  lemma {:induction false} ValueSnoc(a: string, c: char)
    ensures Value(a + [c]) == 2 * Value(a) + Digit(c)
  {
    ValueConcat(a, [c]);
    assert Value([c]) == Digit(c) * Pow2(0) + Value([]);
  }

  /** Turning a zero into a one and the ones behind it into zeros adds one. */
  lemma {:induction false} CarryAddsOne(a: string, ones: string, zeros: string)
    requires |ones| == |zeros|
    requires forall i :: 0 <= i < |ones| ==> ones[i] == '1'
    requires forall i :: 0 <= i < |zeros| ==> zeros[i] == '0'
    ensures Value((a + ['1']) + zeros) == Value((a + ['0']) + ones) + 1
  {
    AllOnes(ones);
    AllZeros(zeros);
    ValueConcat(a + ['1'], zeros);
    ValueConcat(a + ['0'], ones);
    ValueSnoc(a, '1');
    ValueSnoc(a, '0');
    Distribute(2 * Value(a), 1, Pow2(|ones|));
  }

  /** What one turn of the odometer does to the digits. */
  lemma {:induction false} OdometerAddsOne(before: string, after: string, k: nat)
    requires |before| == |after| && k < |before|
    requires after[..k] == before[..k] && before[k] == '0' && after[k] == '1'
    requires forall i :: k < i < |before| ==> before[i] == '1' && after[i] == '0'
    ensures Value(after) == Value(before) + 1
  {
    CarryAddsOne(before[..k], before[k + 1..], after[k + 1..]);
    assert before == (before[..k] + ['0']) + before[k + 1..];
    assert after == (before[..k] + ['1']) + after[k + 1..];
  }
}
