/** rP4-compiler/p4r/p4_rename.h: dotted names shortened to the suffix that still tells them apart. */
module Rename {

  predicate EndsWith(name: string, text: string) {
    |name| >= |text| && name[|name| - |text|..] == text
  }

  predicate OtherAt(names: seq<string>, name: string, text: string, k: int) {
    0 <= k < |names| && names[k] != name && EndsWith(names[k], text)
  }

  /** Another registered name ends with this text. */
  predicate OtherEndsWith(names: seq<string>, name: string, text: string) {
    names != [] &&
    (OtherAt(names, name, text, |names| - 1) || OtherEndsWith(names[..|names| - 1], name, text))
  }

  lemma {:induction false} OtherExists(names: seq<string>, name: string, text: string) returns (k: nat)
    requires OtherEndsWith(names, name, text)
    ensures OtherAt(names, name, text, k)
  {
    k := |names| - 1;
    if !OtherAt(names, name, text, k) {
      k := OtherExists(names[..|names| - 1], name, text);
    }
  }

  lemma {:induction false} OtherFound(names: seq<string>, name: string, text: string, k: nat)
    requires OtherAt(names, name, text, k)
    ensures OtherEndsWith(names, name, text)
  {
    if k < |names| - 1 {
      OtherFound(names[..|names| - 1], name, text, k);
    }
  }

  /** The first dot at or after `from`, or the end. */
  function NextDot(name: string, from: nat): (n: nat)
    requires from <= |name|
    ensures from <= n <= |name|
    ensures n < |name| ==> name[n] == '.'
    decreases |name| - from
  {
    if from == |name| || name[from] == '.' then from else NextDot(name, from + 1)
  }

  lemma {:induction false} NoDotBefore(name: string, from: nat)
    requires from <= |name|
    ensures forall k :: from <= k < NextDot(name, from) ==> name[k] != '.'
    decreases |name| - from
  {
    if from < |name| && name[from] != '.' {
      NoDotBefore(name, from + 1);
    }
  }

  /** Where the suffix begins after at most `steps` more dots, having begun at `from`. */
  function SuffixFrom(names: seq<string>, name: string, from: nat, steps: nat): (p: nat)
    requires from <= |name|
    ensures from <= p <= |name|
    decreases steps, |names|
  {
    if steps == 0 || StopsAt(names, name, NextDot(name, from)) then from
    else SuffixFrom(names, name, NextDot(name, from) + 1, steps - 1)
  }

  predicate StopsAt(names: seq<string>, name: string, next: nat) {
    next >= |name| || OtherEndsWith(names, name, name[next + 1..])
  }

  lemma {:induction false} Stopped(names: seq<string>, name: string, from: nat, steps: nat)
    requires from <= |name| && (steps == 0 || StopsAt(names, name, NextDot(name, from)))
    ensures SuffixFrom(names, name, from, steps) == from
  {
  }

  lemma {:induction false} GoesOn(names: seq<string>, name: string, from: nat, steps: nat)
    requires from <= |name| && steps > 0 && !StopsAt(names, name, NextDot(name, from))
    ensures NextDot(name, from) < |name| && !OtherEndsWith(names, name, name[NextDot(name, from) + 1..])
    ensures SuffixFrom(names, name, from, steps) == SuffixFrom(names, name, NextDot(name, from) + 1, steps - 1)
  {
  }

  const MAX_STEPS: nat := 10

  /** What is kept of a name. */
  function Kept(names: seq<string>, name: string): string {
    name[SuffixFrom(names, name, 0, MAX_STEPS)..]
  }

  /** However far the search gets, what it stops at is either the whole name or ends no other name. */
  lemma {:induction false} SuffixIsOwn(names: seq<string>, name: string, from: nat, steps: nat)
    requires from <= |name| && (from == 0 || !OtherEndsWith(names, name, name[from..]))
    ensures var p := SuffixFrom(names, name, from, steps);
            p == 0 || !OtherEndsWith(names, name, name[p..])
    decreases steps
  {
    var next := NextDot(name, from);
    if steps == 0 || StopsAt(names, name, next) {
      Stopped(names, name, from, steps);
    } else {
      GoesOn(names, name, from, steps);
      SuffixIsOwn(names, name, next + 1, steps - 1);
    }
  }

  /** What is kept of two registered names differs. */
  lemma {:induction false} KeptAreDistinct(names: seq<string>, i: nat, j: nat)
    requires i < |names| && j < |names| && names[i] != names[j]
    ensures Kept(names, names[i]) != Kept(names, names[j])
  {
    if Kept(names, names[i]) == Kept(names, names[j]) {
      SuffixIsOwn(names, names[i], 0, MAX_STEPS);
      SuffixIsOwn(names, names[j], 0, MAX_STEPS);
      OwnIsOwn(names, i, j, SuffixFrom(names, names[i], 0, MAX_STEPS), SuffixFrom(names, names[j], 0, MAX_STEPS));
    }
  }

  lemma {:induction false} OwnIsOwn(names: seq<string>, i: nat, j: nat, p: nat, q: nat)
    requires i < |names| && j < |names| && names[i] != names[j] && p <= |names[i]| && q <= |names[j]|
    requires p == 0 || !OtherEndsWith(names, names[i], names[i][p..])
    requires q == 0 || !OtherEndsWith(names, names[j], names[j][q..])
    ensures names[i][p..] != names[j][q..]
  {
    assert names[i][0..] == names[i] && names[j][0..] == names[j];
    if names[i][p..] == names[j][q..] {
      if p > 0 {
        OtherFound(names, names[i], names[i][p..], j);
      } else if q > 0 {
        OtherFound(names, names[j], names[j][q..], i);
      }
    }
  }

  // ----- where the search can stop

  /** Where the text behind the first `k` dots begins, -1 if there are fewer. */
  function Behind(name: string, k: nat): (p: int)
    ensures -1 <= p <= |name|
  {
    if k == 0 then 0
    else
      var r := Behind(name, k - 1);
      if r < 0 || NextDot(name, r) == |name| then -1 else NextDot(name, r) + 1
  }

  lemma {:induction false} BehindGrows(name: string, j: nat, k: nat)
    requires j <= k && Behind(name, k) >= 0
    ensures 0 <= Behind(name, j) <= Behind(name, k)
    decreases k
  {
    if j < k {
      BehindGrows(name, j, k - 1);
    }
  }

  /** A search that has come behind the `j`-th dot stops behind some dot up to the tenth. */
  lemma {:induction false} StopsBehind(names: seq<string>, name: string, j: nat) returns (k: nat)
    requires j <= MAX_STEPS && Behind(name, j) >= 0
    ensures j <= k <= MAX_STEPS
    ensures Behind(name, k) == SuffixFrom(names, name, Behind(name, j), MAX_STEPS - j)
    ensures k == MAX_STEPS || StopsAt(names, name, NextDot(name, Behind(name, k)))
    decreases MAX_STEPS - j
  {
    var from := Behind(name, j);
    if j == MAX_STEPS || StopsAt(names, name, NextDot(name, from)) {
      Stopped(names, name, from, MAX_STEPS - j);
      k := j;
    } else {
      GoesOn(names, name, from, MAX_STEPS - j);
      assert Behind(name, j + 1) == NextDot(name, from) + 1;
      k := StopsBehind(names, name, j + 1);
    }
  }

  lemma {:induction false} EndsWithLess(n: string, name: string, p: nat, q: nat)
    requires p <= q <= |name| && EndsWith(n, name[p..])
    ensures EndsWith(n, name[q..])
  {
    var t := n[|n| - |name[p..]|..];
    assert name[p..][q - p..] == name[q..];
    assert t[q - p..] == n[|n| - |name[q..]|..];
  }

  /** The registry lets the search for `name` stop behind the `k`-th dot: nothing it passes ends another name, and
      what follows does, unless it is the last step or there is no further dot. */
  ghost predicate Halts(names: seq<string>, name: string, k: nat) {
    && k <= MAX_STEPS && Behind(name, k) >= 0
    && (k > 0 ==> !OtherEndsWith(names, name, name[Behind(name, k)..]))
    && (k == MAX_STEPS || StopsAt(names, name, NextDot(name, Behind(name, k))))
  }

  lemma {:induction false} PassesOn(names: seq<string>, name: string, j: nat, k: nat, from: nat, p: nat)
    requires j < k && from == Behind(name, j) && p == Behind(name, k) && !OtherEndsWith(names, name, name[p..])
    ensures !StopsAt(names, name, NextDot(name, from)) && Behind(name, j + 1) == NextDot(name, from) + 1
  {
    BehindGrows(name, j + 1, k);
    var start := Behind(name, j + 1);
    if OtherEndsWith(names, name, name[start..]) {
      var i := OtherExists(names, name, name[start..]);
      EndsWithLess(names[i], name, start, p);
      OtherFound(names, name, name[p..], i);
    }
  }

  /** The search goes on from behind the `j`-th dot as far as behind the `k`-th. */
  lemma {:induction false} ComesTo(names: seq<string>, name: string, j: nat, k: nat, from: nat, steps: nat, p: nat,
                                   rest: nat)
    requires j <= k && steps == rest + (k - j) && from == Behind(name, j) && p == Behind(name, k)
    requires k > 0 ==> !OtherEndsWith(names, name, name[p..])
    ensures SuffixFrom(names, name, from, steps) == SuffixFrom(names, name, p, rest)
    decreases k - j
  {
    if j < k {
      PassesOn(names, name, j, k, from, p);
      GoesOn(names, name, from, steps);
      ComesTo(names, name, j + 1, k, NextDot(name, from) + 1, steps - 1, p, rest);
    }
  }

  lemma {:induction false} KeptWhereHalts(names: seq<string>, name: string, k: nat)
    requires Halts(names, name, k)
    ensures Kept(names, name) == name[Behind(name, k)..]
  {
    ComesTo(names, name, 0, k, 0, MAX_STEPS, Behind(name, k), MAX_STEPS - k);
    Stopped(names, name, Behind(name, k), MAX_STEPS - k);
  }

  // ----- the name shown

  function Undotted(text: string): (r: string)
    ensures |r| == |text|
    ensures forall k :: 0 <= k < |r| ==> r[k] == if text[k] == '.' then '_' else text[k]
  {
    if text == "" then "" else [if text[0] == '.' then '_' else text[0]] + Undotted(text[1..])
  }

  /** What is put behind the text kept. */
  function Ending(suffix: bool, duplicated: bool, index: string): string {
    (if suffix then "_s" else "") + if duplicated then "_" + index else ""
  }

  function Shown(names: seq<string>, name: string, ending: string): string {
    Undotted(Kept(names, name)) + ending
  }

  ghost predicate Distinct(names: seq<string>) {
    forall i, j :: 0 <= i < j < |names| ==> names[i] != names[j]
  }

  /** A text that can be kept of `name` beside `other`: the whole name, or what is behind one of its first ten dots
      unless the other name ends with it. */
  predicate CanKeep(name: string, other: string, k: nat) {
    && k <= MAX_STEPS && Behind(name, k) >= 0
    && (k > 0 ==> !EndsWith(other, name[Behind(name, k)..]))
  }

  /** With their endings the two texts look the same. */
  predicate Alike(a: string, endA: string, b: string, endB: string, k: nat, l: nat) {
    && CanKeep(a, b, k) && CanKeep(b, a, l)
    && Undotted(a[Behind(a, k)..]) + endA == Undotted(b[Behind(b, l)..]) + endB
  }

  ghost predicate CanLookAlike(a: string, endA: string, b: string, endB: string) {
    exists k, l :: Alike(a, endA, b, endB, k, l)
  }

  /** A character that is neither a dot nor the given one. */
  function Other(c: char): (r: char)
    ensures r != '.' && r != c
  {
    if c == 'x' then 'y' else 'x'
  }

  function CharBefore(name: string, tail: nat): char {
    if tail < |name| then name[|name| - tail - 1] else '.'
  }

  /** A name that keeps the search for `name` from going behind the next dot, and gets in the way of neither name
      otherwise. */
  function Blocker(name: string, other: string, k: nat): string
    requires Behind(name, k) >= 0
  {
    var next := NextDot(name, Behind(name, k));
    if next == |name| then ['.']
    else
      var tail := name[next + 1..];
      [Other(CharBefore(other, |tail|))] + tail
  }

  /** If there is no further dot no name is needed; `name` itself stands for that. */
  function Block(name: string, other: string, k: nat): string
    requires Behind(name, k) >= 0
  {
    if NextDot(name, Behind(name, k)) == |name| then name else Blocker(name, other, k)
  }

  lemma {:induction false} BlockStops(names: seq<string>, name: string, other: string, k: nat)
    requires k <= MAX_STEPS && Behind(name, k) >= 0 && Block(name, other, k) in names
    ensures StopsAt(names, name, NextDot(name, Behind(name, k)))
  {
    var next := NextDot(name, Behind(name, k));
    if next < |name| {
      var n, tail := Blocker(name, other, k), name[next + 1..];
      assert n[1..] == tail && EndsWith(n, tail);
      assert n[0] != '.' && name[|name| - |n|] == '.';
      var i :| 0 <= i < |names| && names[i] == n;
      assert names[i] != name;
      OtherFound(names, name, tail, i);
    }
  }

  /** A name that ends with no text of its own kind but the tail: not with a longer one of `name`, where a dot is in
      front of the tail, nor of `other`, where another character is. */
  lemma {:induction false} BlockerEnds(n: string, tail: string, text: string)
    requires n != "" && n[1..] == tail && EndsWith(n, text)
    ensures |text| <= |tail| || (text == n && text[0] == n[0])
  {
    assert |text| > |tail| ==> n[|n| - |text|..] == n;
  }

  /** The blocker for one name ends with nothing that is kept of either name. */
  lemma {:induction false} BlockIsApart(name: string, other: string, k: nat)
    requires CanKeep(name, other, k)
    ensures k > 0 && Block(name, other, k) != name ==> !EndsWith(Block(name, other, k), name[Behind(name, k)..])
  {
    var from := Behind(name, k);
    var next := NextDot(name, from);
    if next < |name| {
      var n, tail := Blocker(name, other, k), name[next + 1..];
      assert n[1..] == tail;
      if EndsWith(n, name[from..]) {
        BlockerEnds(n, tail, name[from..]);
      }
    }
  }

  lemma {:induction false} BlockIsApartFrom(name: string, other: string, k: nat, l: nat)
    requires CanKeep(name, other, k) && CanKeep(other, name, l)
    ensures l > 0 ==> !EndsWith(Block(name, other, k), other[Behind(other, l)..])
  {
    var next := NextDot(name, Behind(name, k));
    if next < |name| {
      var n, tail, text := Blocker(name, other, k), name[next + 1..], other[Behind(other, l)..];
      assert n[1..] == tail;
      if EndsWith(n, text) {
        BlockerEnds(n, tail, text);
        CharInFront(other, Behind(other, l), |tail|);
        if |text| <= |tail| {
          SameEnd(n, name, text, tail);
        }
      }
    }
  }

  lemma {:induction false} CharInFront(name: string, p: nat, tail: nat)
    requires p <= |name|
    ensures |name[p..]| == tail + 1 ==> name[p..][0] == CharBefore(name, tail)
  {
  }

  lemma {:induction false} SameEnd(n: string, name: string, text: string, tail: string)
    requires EndsWith(n, text) && EndsWith(n, tail) && EndsWith(name, tail) && |text| <= |tail|
    ensures EndsWith(name, text)
  {
    assert n[|n| - |tail|..][|tail| - |text|..] == n[|n| - |text|..];
    assert name[|name| - |tail|..][|tail| - |text|..] == name[|name| - |text|..];
  }

  function Registry(a: string, b: string, x: string, y: string): (r: seq<string>)
    requires a != b
    ensures a in r && b in r && x in r && y in r
    ensures forall n :: n in r ==> n == a || n == b || n == x || n == y
    ensures forall i, j :: 0 <= i < j < |r| ==> r[i] != r[j]
  {
    var two := [a, b];
    var three := if x in two then two else two + [x];
    if y in three then three else three + [y]
  }

  lemma {:induction false} NoneEndsWith(names: seq<string>, name: string, other: string, b: string, n: string,
                                        text: string)
    requires forall m :: m in names ==> m == name || m == other || m == b || m == n
    requires !EndsWith(other, text) && (b == name || !EndsWith(b, text)) && (n == name || !EndsWith(n, text))
    ensures !OtherEndsWith(names, name, text)
  {
    forall i
      ensures !OtherAt(names, name, text, i)
    {
      assert 0 <= i < |names| ==> names[i] in names;
    }
    if OtherEndsWith(names, name, text) {
      var i := OtherExists(names, name, text);
    }
  }

  lemma {:induction false} KeptInRegistry(names: seq<string>, name: string, other: string, k: nat, n: string)
    requires CanKeep(name, other, k) && Block(name, other, k) in names
    requires forall m :: m in names ==> m == name || m == other || m == Block(name, other, k) || m == n
    requires k > 0 && Block(name, other, k) != name ==> !EndsWith(Block(name, other, k), name[Behind(name, k)..])
    requires k > 0 ==> !EndsWith(n, name[Behind(name, k)..]) || n == name
    ensures Kept(names, name) == name[Behind(name, k)..]
  {
    BlockStops(names, name, other, k);
    if k > 0 {
      NoneEndsWith(names, name, other, Block(name, other, k), n, name[Behind(name, k)..]);
    }
    KeptWhereHalts(names, name, k);
  }

  /** Texts that look the same are kept in some registry. */
  lemma {:induction false} AlikeIsShown(a: string, endA: string, b: string, endB: string, k: nat, l: nat)
      returns (names: seq<string>)
    requires a != b && Alike(a, endA, b, endB, k, l)
    ensures Distinct(names) && a in names && b in names && Shown(names, a, endA) == Shown(names, b, endB)
  {
    names := Registry(a, b, Block(a, b, k), Block(b, a, l));
    BlockIsApart(a, b, k);
    BlockIsApart(b, a, l);
    BlockIsApartFrom(a, b, k, l);
    BlockIsApartFrom(b, a, l, k);
    KeptInRegistry(names, a, b, k, Block(b, a, l));
    KeptInRegistry(names, b, a, l, Block(a, b, k));
  }

  lemma {:induction false} KeptCanBeKept(names: seq<string>, name: string, other: string) returns (k: nat)
    requires other in names && other != name
    ensures CanKeep(name, other, k) && Kept(names, name) == name[Behind(name, k)..]
  {
    k := StopsBehind(names, name, 0);
    SuffixIsOwn(names, name, 0, MAX_STEPS);
    if k > 0 {
      BehindIsInside(name, k);
      if EndsWith(other, name[Behind(name, k)..]) {
        var i :| 0 <= i < |names| && names[i] == other;
        OtherFound(names, name, name[Behind(name, k)..], i);
      }
    }
  }

  lemma {:induction false} BehindIsInside(name: string, k: nat)
    requires k > 0 && Behind(name, k) >= 0
    ensures Behind(name, k) > 0
  {
  }

  /** Two names are shown differently, whatever is registered besides and in whatever order, exactly if no texts that
      can be kept of them look the same with their endings. */
  lemma {:induction false} ShownApartIff(a: string, endA: string, b: string, endB: string)
    requires a != b
    ensures (forall names :: Distinct(names) && a in names && b in names ==>
               Shown(names, a, endA) != Shown(names, b, endB)) <==>
            !CanLookAlike(a, endA, b, endB)
  {
    if CanLookAlike(a, endA, b, endB) {
      var k, l :| Alike(a, endA, b, endB, k, l);
      var names := AlikeIsShown(a, endA, b, endB, k, l);
    } else {
      forall names | Distinct(names) && a in names && b in names
        ensures Shown(names, a, endA) != Shown(names, b, endB)
      {
        var k := KeptCanBeKept(names, a, b);
        var l := KeptCanBeKept(names, b, a);
        assert !Alike(a, endA, b, endB, k, l);
      }
    }
  }

  predicate NoUnderscore(text: string) {
    forall k :: 0 <= k < |text| ==> text[k] != '_'
  }

  lemma {:induction false} UndottedInjective(a: string, b: string)
    requires NoUnderscore(a) && NoUnderscore(b) && Undotted(a) == Undotted(b)
    ensures a == b
  {
    forall k | 0 <= k < |a|
      ensures a[k] == b[k]
    {
      assert Undotted(a)[k] == Undotted(b)[k];
    }
  }

  /** Names without underscores of their own and with the same ending are always shown differently. */
  lemma {:induction false} ShownAreDistinct(names: seq<string>, i: nat, j: nat, ending: string)
    requires i < |names| && j < |names| && names[i] != names[j] && NoUnderscore(names[i]) && NoUnderscore(names[j])
    ensures Shown(names, names[i], ending) != Shown(names, names[j], ending)
  {
    if Shown(names, names[i], ending) == Shown(names, names[j], ending) {
      SameTail(Undotted(Kept(names, names[i])), Undotted(Kept(names, names[j])), ending);
      UndottedInjective(Kept(names, names[i]), Kept(names, names[j]));
      KeptAreDistinct(names, i, j);
    }
  }

  lemma {:induction false} SameTail(a: string, b: string, tail: string)
    requires a + tail == b + tail
    ensures a == b
  {
    assert |a| == |b|;
    assert a == (a + tail)[..|a|] && b == (b + tail)[..|b|];
  }

  /** With an underscore they may not be. */
  lemma {:induction false} UnderscoreCollides()
    ensures CanLookAlike("a.b", "", "a_b", "")
  {
    assert "a.b"[0..] == "a.b" && "a_b"[0..] == "a_b" && Undotted("a.b") == "a_b" == Undotted("a_b");
    assert Alike("a.b", "", "a_b", "", 0, 0);
  }

  /** Nor names of which only one gets the suffix. */
  lemma {:induction false} SuffixCollides()
    ensures CanLookAlike("x", Ending(true, false, ""), "x.s", Ending(false, false, ""))
  {
    assert "_s" + "" == "_s" && "" + "" == "";
    assert "x"[0..] == "x" && "x.s"[0..] == "x.s" && Undotted("x") == "x" && Undotted("x.s") == "x_s";
    assert Alike("x", "_s", "x.s", "", 0, 0);
  }

  /** Nor a duplicated name, which gets an index, and one that ends in a number. */
  lemma {:induction false} IndexCollides()
    ensures CanLookAlike("x", Ending(false, true, "1"), "x.1", Ending(false, false, ""))
  {
    assert "" + ("_" + "1") == "_1" && "" + "" == "";
    assert "x"[0..] == "x" && "x.1"[0..] == "x.1" && Undotted("x") == "x" && Undotted("x.1") == "x_1";
    assert Alike("x", "_1", "x.1", "", 0, 0);
  }

  // ----- names registered later

  lemma {:induction false} MoreNamesStop(names: seq<string>, name: string, text: string, n: string)
    ensures OtherEndsWith(names + [n], name, text) <==>
            OtherEndsWith(names, name, text) || (n != name && EndsWith(n, text))
  {
    assert (names + [n])[..|names|] == names;
  }

  /** One more name leaves what is kept of another as it is exactly if that is the whole name or the new name does not
      end with it. */
  lemma {:induction false} KeptAfter(names: seq<string>, name: string, n: string)
    requires n != name
    ensures Kept(names + [n], name) == Kept(names, name) <==>
            Kept(names, name) == name || !EndsWith(n, Kept(names, name))
  {
    var more := names + [n];
    var k := StopsBehind(names, name, 0);
    var p := Behind(name, k);
    SuffixIsOwn(names, name, 0, MAX_STEPS);
    SuffixIsOwn(more, name, 0, MAX_STEPS);
    MoreNamesStop(names, name, name[p..], n);
    if p == 0 || !EndsWith(n, name[p..]) {
      if k > 0 {
        BehindIsInside(name, k);
      }
      StillStops(names, name, k, n);
      KeptWhereHalts(more, name, k);
    }
  }

  lemma {:induction false} ShownAfter(names: seq<string>, name: string, n: string, ending: string)
    requires n != name
    ensures Shown(names + [n], name, ending) == Shown(names, name, ending) <==>
            Kept(names, name) == name || !EndsWith(n, Kept(names, name))
  {
    KeptAfter(names, name, n);
    var before, after := Kept(names, name), Kept(names + [n], name);
    if Shown(names + [n], name, ending) == Shown(names, name, ending) {
      SameTail(Undotted(after), Undotted(before), ending);
      assert |after| == |before|;
    }
  }

  lemma {:induction false} StillStops(names: seq<string>, name: string, k: nat, n: string)
    requires k <= MAX_STEPS && Behind(name, k) >= 0
    requires k == MAX_STEPS || StopsAt(names, name, NextDot(name, Behind(name, k)))
    requires k > 0 ==> !OtherEndsWith(names + [n], name, name[Behind(name, k)..])
    ensures Halts(names + [n], name, k)
  {
    if k < MAX_STEPS {
      StopsAtMore(names, name, NextDot(name, Behind(name, k)), n);
    }
  }

  lemma {:induction false} StopsAtMore(names: seq<string>, name: string, next: nat, n: string)
    requires StopsAt(names, name, next)
    ensures StopsAt(names + [n], name, next)
  {
    if next < |name| {
      MoreNamesStop(names, name, name[next + 1..], n);
    }
  }

  // ----- the search

  method SomeOtherEndsWith(names: seq<string>, name: string, text: string) returns (found: bool)
    ensures found <==> OtherEndsWith(names, name, text)
  {
    for k := 0 to |names|
      invariant !OtherEndsWith(names[..k], name, text)
    {
      assert names[..k + 1][..k] == names[..k];
      if names[k] != name && EndsWith(names[k], text) {
        OtherFound(names, name, text, k);
        return true;
      }
    }
    assert names[..|names|] == names;
    found := false;
  }

  method Stops(names: seq<string>, name: string, next: nat) returns (stops: bool)
    requires next <= |name|
    ensures stops <==> StopsAt(names, name, next)
  {
    if next == |name| {
      stops := true;
    } else {
      stops := SomeOtherEndsWith(names, name, name[next + 1..]);
    }
  }

  /** The search for the suffix, dot by dot, `steps` at most. */
  method Shorten(names: seq<string>, name: string, steps: nat) returns (kept: string)
    ensures kept == name[SuffixFrom(names, name, 0, steps)..]
  {
    var from: nat, x: nat := 0, 0;
    var stops := false;
    ghost var goal, left: nat := SuffixFrom(names, name, 0, steps), steps;
    while x < steps && !stops
      invariant from <= |name| && x + left == steps
      invariant goal == SuffixFrom(names, name, from, left)
      invariant stops ==> goal == from
      decreases left, !stops
    {
      var next := NextDot(name, from);
      stops := Stops(names, name, next);
      Searched(names, name, from, left, stops);
      if !stops {
        from, x, left := next + 1, x + 1, left - 1;
      }
    }
    if !stops {
      Stopped(names, name, from, left);
    }
    kept := name[from..];
  }

  /** One turn of the search. */
  lemma {:induction false} Searched(names: seq<string>, name: string, from: nat, left: nat, stops: bool)
    requires from <= |name| && left > 0 && (stops <==> StopsAt(names, name, NextDot(name, from)))
    ensures stops ==> SuffixFrom(names, name, from, left) == from
    ensures !stops ==> NextDot(name, from) < |name|
    ensures !stops ==>
      SuffixFrom(names, name, from, left) == SuffixFrom(names, name, NextDot(name, from) + 1, left - 1)
  {
    if stops {
      Stopped(names, name, from, left);
    } else {
      GoesOn(names, name, from, left);
    }
  }

  // ----- the class

  class P4Rename {
    var originalNames: seq<string>
    var newNames: seq<string>
    var hasSuffix: seq<bool>
    var isDuplicated: seq<bool>

    ghost predicate Valid()
      reads this
    {
      && |originalNames| == |newNames| == |hasSuffix| == |isDuplicated|
      && forall i, j :: 0 <= i < j < |originalNames| ==> originalNames[i] != originalNames[j]
    }

    /** What is remembered for a name, its ending for duplicates aside, is what would be made for it now. */
    ghost predicate UpToDate()
      reads this
      requires Valid()
    {
      forall i :: 0 <= i < |newNames| && newNames[i] != "" ==> newNames[i] == Made(i)
    }

    ghost function Made(i: nat): string
      reads this
      requires Valid() && i < |originalNames|
    {
      Shown(originalNames, originalNames[i], Ending(hasSuffix[i], false, ""))
    }

    /** What is remembered does not change its meaning when `name` is registered. */
    ghost predicate Undisturbed(name: string)
      reads this
      requires Valid()
    {
      forall i :: 0 <= i < |newNames| && newNames[i] != "" ==>
        Kept(originalNames, originalNames[i]) == originalNames[i] ||
        !EndsWith(name, Kept(originalNames, originalNames[i]))
    }

    constructor ()
      ensures Valid() && UpToDate() && originalNames == []
    {
      originalNames, newNames, hasSuffix, isDuplicated := [], [], [], [];
    }

    method Find(name: string) returns (i: nat)
      ensures i <= |originalNames| && (i < |originalNames| ==> originalNames[i] == name)
      ensures forall k :: 0 <= k < i ==> originalNames[k] != name
    {
      i := 0;
      while i < |originalNames| && originalNames[i] != name
        invariant i <= |originalNames| && forall k :: 0 <= k < i ==> originalNames[k] != name
      {
        i := i + 1;
      }
    }

    /** A name registered twice is marked, a new one is added with nothing remembered. What was up to date stays so
        exactly if the name is known or ends with nothing that is kept of another. */
    method AddName(name: string, suffix: bool)
      requires Valid()
      modifies this
      ensures Valid()
      ensures name in old(originalNames) ==>
        originalNames == old(originalNames) && newNames == old(newNames) && hasSuffix == old(hasSuffix)
      ensures name in old(originalNames) ==>
        forall k :: 0 <= k < |isDuplicated| ==> isDuplicated[k] == (old(isDuplicated)[k] || originalNames[k] == name)
      ensures name !in old(originalNames) ==>
        originalNames == old(originalNames) + [name] && newNames == old(newNames) + [""]
      ensures name !in old(originalNames) ==>
        hasSuffix == old(hasSuffix) + [suffix] && isDuplicated == old(isDuplicated) + [false]
      ensures old(UpToDate()) ==> (UpToDate() <==> name in old(originalNames) || old(Undisturbed(name)))
    {
      ghost var before := originalNames;
      var i := Find(name);
      if i < |originalNames| {
        isDuplicated := isDuplicated[i := true];
      } else {
        originalNames := originalNames + [name];
        newNames := newNames + [""];
        hasSuffix := hasSuffix + [suffix];
        isDuplicated := isDuplicated + [false];
        forall k | 0 <= k < |before|
          ensures Made(k) == Shown(before, before[k], Ending(hasSuffix[k], false, "")) <==>
                  Kept(before, before[k]) == before[k] || !EndsWith(name, Kept(before, before[k]))
        {
          ShownAfter(before, before[k], name, Ending(hasSuffix[k], false, ""));
        }
      }
    }

    method MakeName(i: nat) returns (r: string)
      requires Valid() && i < |originalNames|
      ensures r == Made(i)
    {
      var temp := Shorten(originalNames, originalNames[i], MAX_STEPS);
      r := Undotted(temp);
      if hasSuffix[i] {
        r := r + "_s";
      }
    }

    /** The name remembered, or made now if there is none, followed by the index in decimal if the name was registered
        more than once. A name that was not registered is left as it is. */
    method GetName(name: string, index: string) returns (r: string)
      requires Valid()
      modifies this`newNames
      ensures Valid() && (old(UpToDate()) ==> UpToDate())
      ensures name !in originalNames ==> r == name && newNames == old(newNames)
      ensures forall i :: 0 <= i < |originalNames| && originalNames[i] == name ==>
        && newNames == old(newNames)[i := if old(newNames)[i] == "" then Made(i) else old(newNames)[i]]
        && r == newNames[i] + Ending(false, isDuplicated[i], index)
      ensures old(UpToDate()) ==> forall i :: 0 <= i < |originalNames| && originalNames[i] == name ==>
        r == Shown(originalNames, name, Ending(hasSuffix[i], isDuplicated[i], index))
    {
      var i := Find(name);
      if i == |originalNames| {
        return name;
      }
      if newNames[i] == "" {
        var temp := MakeName(i);
        newNames := newNames[i := temp];
      }
      r := newNames[i];
      if isDuplicated[i] {
        r := r + "_" + index;
      }
      WithIndex(newNames[i], isDuplicated[i], index);
      EndingsJoin(originalNames, name, hasSuffix[i], isDuplicated[i], index);
    }
  }

  lemma {:induction false} WithIndex(text: string, duplicated: bool, index: string)
    ensures text + Ending(false, duplicated, index) == if duplicated then text + "_" + index else text
  {
  }

  lemma {:induction false} EndingsJoin(names: seq<string>, name: string, suffix: bool, duplicated: bool, index: string)
    ensures Shown(names, name, Ending(suffix, false, "")) + Ending(false, duplicated, index) ==
            Shown(names, name, Ending(suffix, duplicated, index))
  {
  }

  lemma {:induction false} LastPartKept()
    ensures Kept(["a.x"], "a.x") == "x" && Undotted("x") == "x"
  {
    var names := ["a.x"];
    assert NextDot("a.x", 0) == 1 && NextDot("a.x", 2) == 3;
    assert "a.x"[2..] == "x" && !OtherEndsWith(names, "a.x", "x");
    GoesOn(names, "a.x", 0, MAX_STEPS);
    Stopped(names, "a.x", 2, MAX_STEPS - 1);
  }

  lemma {:induction false} PlainKept(names: seq<string>)
    ensures Kept(names, "x") == "x"
  {
    assert NextDot("x", 0) == 1;
    Stopped(names, "x", 0, MAX_STEPS);
  }

  /** A new name registered and shortened at once. */
  method RegisterAndGet(names: P4Rename, name: string, index: string) returns (shown: string)
    requires names.Valid() && name !in names.originalNames
    modifies names
    ensures names.Valid() && names.originalNames == old(names.originalNames) + [name]
    ensures shown == Shown(names.originalNames, name, Ending(false, false, index))
  {
    names.AddName(name, false);
    ghost var i := |names.originalNames| - 1;
    assert names.originalNames[i] == name && names.newNames[i] == "" && !names.isDuplicated[i];
    shown := names.GetName(name, index);
    assert shown == names.Made(i) + Ending(false, false, index);
    EndingsJoin(names.originalNames, name, false, false, index);
  }

  /** One name registered and shortened, then another. */
  method OneAfterTheOther(early: string, late: string, index: string) returns (first: string, second: string)
    requires early != late
    ensures first == Shown([early], early, Ending(false, false, index))
    ensures second == Shown([early, late], late, Ending(false, false, index))
  {
    var names := new P4Rename();
    first := RegisterAndGet(names, early, index);
    assert names.originalNames == [early];
    second := RegisterAndGet(names, late, index);
    assert names.originalNames == [early, late];
  }

  lemma {:induction false} ShownAsKept(names: seq<string>, name: string, text: string, index: string)
    requires Kept(names, name) == text && Undotted(text) == text
    ensures Shown(names, name, Ending(false, false, index)) == text
  {
  }

  /** A run in which a name registered late is shown like one that was shortened before. */
  method LateNamesCollide() returns (first: string, second: string)
    ensures first == second == "x"
  {
    first, second := OneAfterTheOther("a.x", "x", "0");
    LastPartKept();
    ShownAsKept(["a.x"], "a.x", "x", "0");
    PlainKept(["a.x", "x"]);
    ShownAsKept(["a.x", "x"], "x", "x", "0");
  }

  // ----- a name of many dots

  /** Letters with dots between them. */
  predicate LettersAndDots(name: string) {
    |name| % 2 == 1 && forall i :: 0 <= i < |name| ==> (name[i] == '.' <==> i % 2 == 1)
  }

  lemma {:induction false} NextIsDot(name: string, i: nat)
    requires LettersAndDots(name) && i % 2 == 0 && i + 1 < |name|
    ensures NextDot(name, i) == i + 1
  {
    assert NextDot(name, i + 1) == i + 1;
  }

  lemma {:induction false} BehindDots(name: string, k: nat)
    requires LettersAndDots(name) && 2 * k < |name|
    ensures Behind(name, k) == 2 * k
  {
    if k > 0 {
      BehindDots(name, k - 1);
      NextIsDot(name, 2 * k - 2);
    }
  }

  lemma {:induction false} NoOther(name: string, text: string)
    ensures !OtherEndsWith([name], name, text)
  {
    assert [name][..0] == [];
  }

  /** A name alone is shown by what is behind its tenth dot, or by its last part if there are fewer. */
  lemma {:induction false} AloneBehindTen(name: string)
    requires LettersAndDots(name)
    ensures Kept([name], name) == if |name| <= 21 then name[|name| - 1..] else name[20..]
  {
    var k := if |name| <= 21 then |name| / 2 else 10;
    BehindDots(name, k);
    NoOther(name, name[2 * k..]);
    if |name| <= 21 {
      LastPartHasNoDot(name);
    }
    KeptWhereHalts([name], name, k);
  }

  lemma {:induction false} LastPartHasNoDot(name: string)
    requires LettersAndDots(name)
    ensures NextDot(name, |name| - 1) == |name|
  {
    assert NextDot(name, |name|) == |name|;
  }

  const THIRTEEN := "a.b.c.d.e.f.g.h.i.j.k.l.m"
  const THREE := "a.b.c"

  lemma {:induction false} ThirteenKept()
    ensures Kept([THIRTEEN], THIRTEEN) == "k.l.m"
  {
    assert LettersAndDots(THIRTEEN) && |THIRTEEN| == 25;
    AloneBehindTen(THIRTEEN);
    assert THIRTEEN[20..] == "k.l.m";
  }

  lemma {:induction false} ThreeKept()
    ensures Kept([THREE], THREE) == "c"
  {
    assert LettersAndDots(THREE) && |THREE| == 5;
    AloneBehindTen(THREE);
    assert THREE[4..] == "c";
  }

  lemma {:induction false} ShownWithout(name: string, text: string, shown: string)
    requires Kept([name], name) == text && Undotted(text) == shown
    ensures Shown([name], name, Ending(false, false, "0")) == shown
  {
    assert shown + "" == shown;
  }

  /** Of thirteen parts the last three are shown, of three the last. */
  method ManyParts() returns (ofThirteen: string, ofThree: string)
    ensures ofThirteen == "k_l_m" && ofThree == "c"
  {
    ThirteenKept();
    assert Undotted("k.l.m") == "k_l_m";
    ShownWithout(THIRTEEN, "k.l.m", "k_l_m");
    ofThirteen := ShowAlone(THIRTEEN);
    ThreeKept();
    assert Undotted("c") == "c";
    ShownWithout(THREE, "c", "c");
    ofThree := ShowAlone(THREE);
  }

  method ShowAlone(name: string) returns (shown: string)
    ensures shown == Shown([name], name, Ending(false, false, "0"))
  {
    var names := new P4Rename();
    shown := RegisterAndGet(names, name, "0");
    assert names.originalNames == [name];
  }
}
