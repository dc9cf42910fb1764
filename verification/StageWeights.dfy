/** The removal of stages only ever adds assignments: how many an entry makes up to the next choice grows, and it grows
    for some entry if one that shares its action takes over a stage. So runs are kept exactly if none does. */
module StageWeights {
  import opened EmptyStages
  import opened StageRuns
  import opened StageNumbers

  // ----- up to the next choice

  /** Removable stages have one entry, and lead to removable ones of a higher number. */
  ghost predicate Ahead(p: Program) {
    && Numbered(p)
    && forall i :: Removable(p, i) ==>
         |p.stages[i].actionProc| == 1 && (Removable(p, Entry(p, i, 0).1) ==> i < Entry(p, i, 0).1)
  }

  /** The stage one comes to by passing removable ones, `n` at most. */
  function Past(p: Program, x: int, n: nat): int
    decreases n
  {
    if n == 0 || !Removable(p, x) || !IsEntry(p, x, 0) then x else Past(p, Entry(p, x, 0).1, n - 1)
  }

  function Made(p: Program, i: int, k: int): seq<Event>
    requires IsEntry(p, i, k)
  {
    Dids(Primitives(p.actions, Entry(p, i, k).0))
  }

  /** The assignments made on the way. */
  function Tail(p: Program, x: int, n: nat): seq<Event>
    decreases n
  {
    if n == 0 || !Removable(p, x) || !IsEntry(p, x, 0) then [] else Made(p, x, 0) + Tail(p, Entry(p, x, 0).1, n - 1)
  }

  /** An entry's own, and those up to the next choice. */
  function Way(p: Program, i: int, k: int): seq<Event>
    requires IsEntry(p, i, k)
  {
    Made(p, i, k) + Tail(p, Entry(p, i, k).1, |p.stages|)
  }

  ghost predicate Enough(p: Program, x: int, n: nat) {
    Removable(p, x) ==> n >= |p.stages| - x
  }

  lemma {:induction false} PastIsChoice(p: Program, x: int, n: nat)
    requires Ahead(p) && Enough(p, x, n)
    ensures !Removable(p, Past(p, x, n))
    decreases n
  {
    if Removable(p, x) {
      PastIsChoice(p, Entry(p, x, 0).1, n - 1);
    }
  }

  /** Entries lead to no removed stage. */
  ghost predicate NoneRemoved(p: Program) {
    forall i, k, x :: Leads(p, i, k, x) ==> !IsRemoved(p, x)
  }

  lemma {:induction false} TailRun(p: Program, x: int, n: nat)
    requires Ahead(p) && NoneRemoved(p) && !IsRemoved(p, x)
    ensures CanRun(p, x, Tail(p, x, n), Past(p, x, n))
    decreases n
  {
    if n == 0 || !Removable(p, x) {
      assert Runs(p, x, [], x, 0);
    } else {
      var y := Entry(p, x, 0).1;
      assert Leads(p, x, 0, y);
      TailRun(p, y, n - 1);
      var m: nat :| Runs(p, y, Tail(p, y, n - 1), Past(p, y, n - 1), m);
      assert Events(p, x, 0) == Made(p, x, 0);
      Prepend(p, x, x, 0, Tail(p, x, n), Tail(p, y, n - 1), Past(p, y, n - 1), m);
    }
  }

  /** From an entry of a stage with a choice one can come to the next. */
  lemma {:induction false} WayRun(p: Program, i: int, k: int)
    requires Ahead(p) && NoneRemoved(p) && IsEntry(p, i, k) && !p.stages[i].removed && !Removable(p, i)
    ensures CanRun(p, i, [Chose(i, k)] + Way(p, i, k), Past(p, Entry(p, i, k).1, |p.stages|))
  {
    var y, n := Entry(p, i, k).1, |p.stages|;
    assert Leads(p, i, k, y);
    TailRun(p, y, n);
    var m: nat :| Runs(p, y, Tail(p, y, n), Past(p, y, n), m);
    assert [Chose(i, k)] + Way(p, i, k) == Events(p, i, k) + Tail(p, y, n);
    Prepend(p, i, i, k, [Chose(i, k)] + Way(p, i, k), Tail(p, y, n), Past(p, y, n), m);
  }

  ghost predicate NoChoice(did: seq<Event>) {
    forall e :: e in did ==> e.Did?
  }

  lemma {:induction false} ChoiceIsSeen(p: Program, i: int, k: int, did: seq<Event>, rest: seq<Event>)
    requires IsEntry(p, i, k) && did == Events(p, i, k) + rest
    ensures !Removable(p, i) ==> !NoChoice(did)
  {
    if !Removable(p, i) {
      assert did[0] == Chose(i, k) && did[0] in did;
    }
  }

  lemma {:induction false} NoChoiceFirst(p: Program, x: int, i: int, k: int, did: seq<Event>, rest: seq<Event>)
    requires Ahead(p) && BeginsWith(p, x, i, k, did, rest) && NoChoice(did)
    ensures i == x && k == 0 && Removable(p, x) && did == Made(p, x, 0) + rest && NoChoice(rest)
  {
    ChoiceIsSeen(p, i, k, did, rest);
    assert forall e :: e in rest ==> e in did;
  }

  /** And what is done without a choice is what is on the way. */
  lemma {:induction false} OnlyTail(p: Program, x: int, did: seq<Event>, end: int, m: nat, n: nat)
    requires Ahead(p) && Runs(p, x, did, end, m) && !Removable(p, end) && NoChoice(did) && Enough(p, x, n)
    ensures did == Tail(p, x, n)
    decreases m
  {
    if m > 0 {
      var i, k, rest := FirstStep(p, x, did, end, m);
      NoChoiceFirst(p, x, i, k, did, rest);
      OnlyTail(p, Entry(p, x, 0).1, rest, end, m - 1, n - 1);
    }
  }

  lemma {:induction false} ChosenFirst(p: Program, i: int, k: int, m: int, did: seq<Event>, rest: seq<Event>)
    requires IsEntry(p, i, m) && !Removable(p, i) && [Chose(i, k)] + did == Events(p, i, m) + rest
    ensures m == k && did == Made(p, i, k) + rest
  {
    var all := [Chose(i, k)] + did;
    assert all[0] == Chose(i, k) && Events(p, i, m)[0] == Chose(i, m);
    assert all == [Chose(i, m)] + (Made(p, i, m) + rest);
    assert did == all[1..] == Made(p, i, m) + rest;
  }

  lemma {:induction false} OnlyWay(p: Program, i: int, k: int, did: seq<Event>, end: int, m: nat)
    requires Ahead(p) && Runs(p, i, [Chose(i, k)] + did, end, m) && NoChoice(did)
    requires IsStage(p, i) && !Removable(p, i) && !Removable(p, end)
    ensures IsEntry(p, i, k) && did == Way(p, i, k)
  {
    assert m > 0;
    var i2, k2, rest := FirstStep(p, i, [Chose(i, k)] + did, end, m);
    assert IsStep(p, i, i2, k2) && i2 == i;
    ChosenFirst(p, i, k, k2, did, rest);
    assert forall e :: e in rest ==> e in did;
    assert Enough(p, Entry(p, i, k).1, |p.stages|);
    OnlyTail(p, Entry(p, i, k).1, rest, end, m - 1, |p.stages|);
  }

  lemma {:induction false} TailHasNoChoice(p: Program, x: int, n: nat)
    ensures NoChoice(Tail(p, x, n))
    decreases n
  {
    if n > 0 && Removable(p, x) && IsEntry(p, x, 0) {
      TailHasNoChoice(p, Entry(p, x, 0).1, n - 1);
    }
  }

  // ----- one more entry taken over

  lemma {:induction false} TailGrows(p: Program, x: int, n: nat)
    ensures |Tail(p, x, n)| <= |Tail(p, x, n + 1)|
    decreases n
  {
    if n > 0 && Removable(p, x) && IsEntry(p, x, 0) {
      TailGrows(p, Entry(p, x, 0).1, n - 1);
    }
  }

  lemma {:induction false} MadeGrows(p: Program, i: int, k: int, t: int, j: int, l: int)
    requires Bypasses(p, i, k, t) && IsEntry(p, j, l)
    ensures IsEntry(Taken(p, i, k, t), j, l)
    ensures |Made(Taken(p, i, k, t), j, l)| ==
            |Made(p, j, l)| + if SameAction(p, i, k, j, l) then |VirtualAction(p, t).primitives| else 0
    ensures Entry(Taken(p, i, k, t), j, l).1 == if i == j && k == l then Next(p, t) else Entry(p, j, l).1
  {
  }

  /** The way past the stage taken over: its own assignments and those behind it. */
  lemma {:induction false} TailPast(p: Program, i: int, k: int, t: int, n: nat)
    requires Bypasses(p, i, k, t)
    ensures |Tail(p, t, n)| == if n == 0 then 0 else |VirtualAction(p, t).primitives| + |Tail(p, Next(p, t), n - 1)|
  {
  }

  lemma {:induction false} TailsGrow(p: Program, i: int, k: int, t: int, x: int, n: nat)
    requires Bypasses(p, i, k, t)
    ensures |Tail(Taken(p, i, k, t), x, n)| >= |Tail(p, x, n)|
    decreases n, 0
  {
    SameKinds(p, i, k, t, x);
    if n > 0 && Removable(p, x) && IsEntry(p, x, 0) {
      WaysGrow(p, i, k, t, x, 0, n - 1);
    }
  }

  /** So no entry makes fewer assignments. */
  lemma {:induction false} WaysGrow(p: Program, i: int, k: int, t: int, j: int, l: int, n: nat)
    requires Bypasses(p, i, k, t) && IsEntry(p, j, l)
    ensures IsEntry(Taken(p, i, k, t), j, l)
    ensures var q := Taken(p, i, k, t);
      |Made(q, j, l)| + |Tail(q, Entry(q, j, l).1, n)| >= |Made(p, j, l)| + |Tail(p, Entry(p, j, l).1, n)|
    decreases n, 1
  {
    MadeGrows(p, i, k, t, j, l);
    if i == j && k == l {
      TailPast(p, i, k, t, n);
      if n > 0 {
        TailsGrow(p, i, k, t, Next(p, t), n - 1);
        TailGrows(Taken(p, i, k, t), Next(p, t), n - 1);
      }
    } else {
      TailsGrow(p, i, k, t, Entry(p, j, l).1, n);
    }
  }

  /** The way from `x` passes stage `j`. */
  ghost predicate Passes(p: Program, x: int, j: int, n: nat)
    decreases n
  {
    n > 0 && Removable(p, x) && IsEntry(p, x, 0) && (x == j || Passes(p, Entry(p, x, 0).1, j, n - 1))
  }

  /** Entry (j, 0) shares the action of the entry that takes stage `t` over, which does something. */
  ghost predicate Shares(p: Program, i: int, k: int, t: int, j: int, l: int) {
    && Bypasses(p, i, k, t) && VirtualAction(p, t).primitives != []
    && SameAction(p, i, k, j, l) && (i != j || k != l)
  }

  /** Then ways that pass it make more assignments. */
  lemma {:induction false} TailGrowsBy(p: Program, i: int, k: int, t: int, x: int, j: int, n: nat)
    requires Shares(p, i, k, t, j, 0) && Passes(p, x, j, n)
    ensures |Tail(Taken(p, i, k, t), x, n)| > |Tail(p, x, n)|
    decreases n, 0
  {
    SameKinds(p, i, k, t, x);
    MadeGrows(p, i, k, t, x, 0);
    if x == j {
      TailsGrow(p, i, k, t, Entry(p, x, 0).1, n - 1);
    } else {
      WayGrowsBy(p, i, k, t, x, 0, j, n - 1);
    }
  }

  lemma {:induction false} WayGrowsBy(p: Program, i: int, k: int, t: int, y: int, l: int, j: int, n: nat)
    requires Shares(p, i, k, t, j, 0) && IsEntry(p, y, l) && Passes(p, Entry(p, y, l).1, j, n)
    ensures IsEntry(Taken(p, i, k, t), y, l)
    ensures var q := Taken(p, i, k, t);
      |Made(q, y, l)| + |Tail(q, Entry(q, y, l).1, n)| > |Made(p, y, l)| + |Tail(p, Entry(p, y, l).1, n)|
    decreases n, 1
  {
    MadeGrows(p, i, k, t, y, l);
    if i == y && k == l {
      OwnAction(p, i, k, t);
      TailPast(p, i, k, t, n);
      assert t != j && Passes(p, Next(p, t), j, n - 1);
      TailGrowsBy(p, i, k, t, Next(p, t), j, n - 1);
      TailGrows(Taken(p, i, k, t), Next(p, t), n - 1);
    } else {
      TailGrowsBy(p, i, k, t, Entry(p, y, l).1, j, n);
    }
  }

  // ----- what passes a stage

  lemma {:induction false} PassesLonger(p: Program, x: int, j: int, n: nat, m: nat)
    requires Passes(p, x, j, n) && n <= m
    ensures Passes(p, x, j, m)
    decreases n
  {
    if x != j {
      PassesLonger(p, Entry(p, x, 0).1, j, n - 1, m - 1);
    }
  }

  lemma {:induction false} PassesEnough(p: Program, x: int, j: int, n: nat, m: nat)
    requires Ahead(p) && Passes(p, x, j, n) && Enough(p, x, m)
    ensures Passes(p, x, j, m)
    decreases n
  {
    if x != j {
      PassesEnough(p, Entry(p, x, 0).1, j, n - 1, m - 1);
    }
  }

  lemma {:induction false} PassesOn(p: Program, x: int, i: int, j: int, n: nat)
    requires Ahead(p) && Passes(p, x, i, n) && Removable(p, j) && IsEntry(p, i, 0) && Entry(p, i, 0).1 == j
    ensures Passes(p, x, j, n + 1)
    decreases n
  {
    if x != i {
      PassesOn(p, Entry(p, x, 0).1, i, j, n - 1);
    }
  }

  lemma {:induction false} PassesStill(p: Program, i: int, k: int, t: int, x: int, j: int, n: nat)
    requires Bypasses(p, i, k, t) && Passes(p, x, j, n) && j != t
    ensures Passes(Taken(p, i, k, t), x, j, n)
    decreases n
  {
    SameKinds(p, i, k, t, x);
    MadeGrows(p, i, k, t, x, 0);
    if x != j {
      if x == i && k == 0 {
        PassesStill(p, i, k, t, Next(p, t), j, n - 2);
        PassesLonger(Taken(p, i, k, t), Next(p, t), j, n - 2, n - 1);
      } else {
        PassesStill(p, i, k, t, Entry(p, x, 0).1, j, n - 1);
      }
    }
  }

  /** An entry of a stage with a choice is on its way past stage `j`. */
  ghost predicate OnWay(p: Program, i: int, k: int, j: int) {
    IsEntry(p, i, k) && !Removable(p, i) && Passes(p, Entry(p, i, k).1, j, |p.stages|)
  }

  ghost predicate Reached(p: Program, j: int) {
    exists i, k :: OnWay(p, i, k, j)
  }

  lemma {:induction false} ReachedOn(p: Program, i: int, k: int, j: int)
    requires Ahead(p) && IsEntry(p, i, k) && Entry(p, i, k).1 == j && Removable(p, j)
    requires Removable(p, i) ==> Reached(p, i)
    ensures Reached(p, j)
  {
    var n := |p.stages|;
    if Removable(p, i) {
      var x, y :| OnWay(p, x, y, i);
      PassesOn(p, Entry(p, x, y).1, i, j, n);
      PassesEnough(p, Entry(p, x, y).1, j, n + 1, n);
      assert OnWay(p, x, y, j);
    } else {
      assert OnWay(p, i, k, j);
    }
  }

  lemma {:induction false} ReachedStill(p: Program, i: int, k: int, t: int, j: int)
    requires Bypasses(p, i, k, t) && Reached(p, j) && j != t
    ensures Reached(Taken(p, i, k, t), j)
  {
    var q := Taken(p, i, k, t);
    var x, y :| OnWay(p, x, y, j);
    var n := |p.stages|;
    SameKinds(p, i, k, t, x);
    MadeGrows(p, i, k, t, x, y);
    if x == i && y == k {
      PassesStill(p, i, k, t, Next(p, t), j, n - 1);
      PassesLonger(q, Next(p, t), j, n - 1, n);
    } else {
      PassesStill(p, i, k, t, Entry(p, x, y).1, j, n);
    }
    assert OnWay(q, x, y, j);
  }

  // ----- looking at a stage

  /** How many assignments an entry makes up to the next choice. */
  function Weight(p: Program, i: int, k: int): nat
    requires IsEntry(p, i, k)
  {
    |Way(p, i, k)|
  }

  ghost predicate IsChoice(p: Program, i: int, k: int) {
    IsEntry(p, i, k) && !Removable(p, i)
  }

  ghost predicate NoLighter(p: Program, q: Program) {
    forall i, k :: IsChoice(p, i, k) ==> IsEntry(q, i, k) && Weight(q, i, k) >= Weight(p, i, k)
  }

  ghost predicate HeavierAt(p: Program, q: Program, i: int, k: int) {
    IsChoice(p, i, k) && IsEntry(q, i, k) && Weight(q, i, k) > Weight(p, i, k)
  }

  ghost predicate Heavier(p: Program, q: Program) {
    exists i, k :: HeavierAt(p, q, i, k)
  }

  /** Stages that are left, but for `t`, are on the way of some choice. */
  ghost predicate AllReached(p: Program, t: int) {
    forall j :: Removable(p, j) && !p.stages[j].removed && j != t ==> Reached(p, j)
  }

  lemma {:induction false} TakingIsNoLighter(p: Program, i: int, k: int, t: int)
    requires Bypasses(p, i, k, t)
    ensures NoLighter(p, Taken(p, i, k, t))
  {
    var q := Taken(p, i, k, t);
    forall j, l | IsChoice(p, j, l)
      ensures IsEntry(q, j, l) && Weight(q, j, l) >= Weight(p, j, l)
    {
      WaysGrow(p, i, k, t, j, l, |p.stages|);
    }
  }

  /** If the action is shared with another entry, there is a choice that leads to more. */
  lemma {:induction false} SharedIsHeavier(p: Program, i: int, k: int, t: int)
    requires Ahead(p) && Bypasses(p, i, k, t) && VirtualAction(p, t).primitives != [] && !OnlyUser(p, i, k)
    requires AllReached(p, t)
    ensures Heavier(p, Taken(p, i, k, t))
  {
    var q := Taken(p, i, k, t);
    var j, l :| SameAction(p, i, k, j, l) && !p.stages[j].removed && !(i == j && k == l);
    OwnAction(p, i, k, t);
    if Removable(p, j) {
      assert Reached(p, j);
      var x, y :| OnWay(p, x, y, j);
      WayGrowsBy(p, i, k, t, x, y, j, |p.stages|);
      assert HeavierAt(p, q, x, y);
    } else {
      MadeGrows(p, i, k, t, j, l);
      TailsGrow(p, i, k, t, Entry(p, j, l).1, |p.stages|);
      assert HeavierAt(p, q, j, l);
    }
  }

  lemma {:induction false} HeavierThrough(p: Program, q: Program, r: Program)
    requires NoLighter(p, q) && NoLighter(q, r) && SameKind(p, q)
    ensures NoLighter(p, r) && (Heavier(p, q) || Heavier(q, r) ==> Heavier(p, r))
  {
    forall i, k | IsChoice(p, i, k)
      ensures IsEntry(r, i, k) && Weight(r, i, k) >= Weight(p, i, k)
    {
      assert IsChoice(q, i, k);
    }
    if Heavier(p, q) {
      var i, k :| HeavierAt(p, q, i, k);
      assert IsChoice(q, i, k) && HeavierAt(p, r, i, k);
    }
    if Heavier(q, r) {
      var i, k :| HeavierAt(q, r, i, k);
      assert IsChoice(p, i, k) && HeavierAt(p, r, i, k);
    }
  }

  ghost predicate SameKind(p: Program, q: Program) {
    && (forall i, k :: IsEntry(q, i, k) <==> IsEntry(p, i, k))
    && (forall i :: Removable(q, i) <==> Removable(p, i))
  }

  lemma {:induction false} ShapeIsKind(p: Program, q: Program)
    requires SameShape(p, q)
    ensures SameKind(p, q)
  {
  }

  lemma {:induction false} TakingKeepsAhead(p: Program, i: int, k: int, t: int)
    requires Ahead(p) && Bypasses(p, i, k, t) && SameShape(p, Taken(p, i, k, t))
    ensures Ahead(Taken(p, i, k, t))
  {
    var q := Taken(p, i, k, t);
    ShapeIsKind(p, q);
    forall x | Removable(q, x)
      ensures |q.stages[x].actionProc| == 1 && (Removable(q, Entry(q, x, 0).1) ==> x < Entry(q, x, 0).1)
    {
      MadeGrows(p, i, k, t, x, 0);
      assert Entry(p, t, 0).1 == Next(p, t);
    }
  }

  lemma {:induction false} TakingKeepsReached(p: Program, i: int, k: int, t: int)
    requires Bypasses(p, i, k, t) && AllReached(p, t) && SameShape(p, Taken(p, i, k, t))
    requires SameFlags(p, Taken(p, i, k, t))
    ensures AllReached(Taken(p, i, k, t), t)
  {
    var q := Taken(p, i, k, t);
    ShapeIsKind(p, q);
    forall j | Removable(q, j) && !q.stages[j].removed && j != t
      ensures Reached(q, j)
    {
      assert Reached(p, j);
      ReachedStill(p, i, k, t, j);
    }
  }

  /** An entry in front that could take the stage over shares its action. */
  ghost predicate SharedBefore(p: Program, j: int, l: int, t: int) {
    exists i, k :: SharedTaker(p, i, k, t) && Before(i, k, j, l)
  }

  ghost predicate SharedTaker(p: Program, i: int, k: int, t: int) {
    Leads(p, i, k, t) && CanTake(p, i, k, t) && !OnlyUser(p, i, k)
  }

  ghost predicate StillLeads(s: Progress, j: int, l: int, t: int) {
    exists i, k :: Leads(s.program, i, k, t) && Before(i, k, j, l)
  }

  /** Looking at stage `t` of `p`, the loops are at entry (j, l). */
  ghost predicate Weighed(g: Program, p: Program, s: Progress, j: int, l: int, t: int)
    requires Removable(p, t)
  {
    && AtStage(g, s.program, t) && DoneUpTo(p, s, j, l, t) && Ahead(s.program) && AllReached(s.program, t)
    && NoLighter(p, s.program)
    && (VirtualAction(p, t).primitives != [] && SharedBefore(p, j, l, t) ==> Heavier(p, s.program))
    && (s.conflict ==> StillLeads(s, j, l, t))
  }

  lemma {:induction false} SharedOneMore(p: Program, j: int, l: int, t: int)
    ensures SharedBefore(p, j, l + 1, t) <==> SharedBefore(p, j, l, t) || SharedTaker(p, j, l, t)
  {
    if SharedBefore(p, j, l + 1, t) {
      var i, k :| SharedTaker(p, i, k, t) && Before(i, k, j, l + 1);
      assert Before(i, k, j, l) || (i == j && k == l);
    }
    if SharedBefore(p, j, l, t) {
      var i, k :| SharedTaker(p, i, k, t) && Before(i, k, j, l);
      assert Before(i, k, j, l + 1);
    }
    if SharedTaker(p, j, l, t) {
      assert Before(j, l, j, l + 1);
    }
  }

  lemma {:induction false} LeadsStill(s: Progress, j: int, l: int, t: int)
    ensures var r := RedirectEntry(s, j, l, t);
            r.conflict && (s.conflict ==> StillLeads(s, j, l, t)) ==> StillLeads(r, j, l + 1, t)
  {
    var r := RedirectEntry(s, j, l, t);
    EntryShape(s, j, l, t);
    if s.conflict && StillLeads(s, j, l, t) {
      var i, k :| Leads(s.program, i, k, t) && Before(i, k, j, l);
      assert Leads(r.program, i, k, t) && Before(i, k, j, l + 1);
    } else if r.conflict && !s.conflict {
      assert Leads(r.program, j, l, t) && Before(j, l, j, l + 1);
    }
  }

  /** If the entry cannot take the stage over any more, one in front with the same action did. */
  lemma {:induction false} TakenInFront(p: Program, s: Progress, j: int, l: int, t: int)
    requires Removable(p, t) && DoneUpTo(p, s, j, l, t) && VirtualAction(p, t).primitives != []
    requires SharedTaker(p, j, l, t) && !CanTake(s.program, j, l, t)
    ensures SharedBefore(p, j, l, t)
  {
    SameCase(p, s, j, l, t);
    var a := Entry(p, j, l).0;
    assert TookBefore(p, j, l, a, t);
    var i, k :| Takes(p, i, k, a, t) && Before(i, k, j, l);
    assert SameAction(p, i, k, j, l) && SharedTaker(p, i, k, t);
  }

  lemma {:induction false} SharersStay(p: Program, q: Program, j: int, l: int)
    requires SameShape(p, q) && SameFlags(p, q) && IsEntry(p, j, l) && !OnlyUser(p, j, l)
    ensures !OnlyUser(q, j, l)
  {
    var i, k :| SameAction(p, j, l, i, k) && !p.stages[i].removed && !(j == i && l == k);
    assert SameAction(q, j, l, i, k) && !q.stages[i].removed;
  }

  /** One more entry takes the stage over. */
  lemma {:induction false} OneMoreTaken(g: Program, p: Program, s: Progress, j: int, l: int, t: int)
    requires Removable(p, t) && Removable(g, t) && Weighed(g, p, s, j, l, t) && IsEntry(p, j, l)
    requires Leads(s.program, j, l, t) && CanTake(s.program, j, l, t)
    ensures var q := Taken(s.program, j, l, t);
      && Ahead(q) && AllReached(q, t) && NoLighter(p, q)
      && (VirtualAction(p, t).primitives != [] && SharedBefore(p, j, l + 1, t) ==> Heavier(p, q))
  {
    var q := Taken(s.program, j, l, t);
    EntryShape(s, j, l, t);
    CouldTake(g, p, s, j, l, t);
    TakingKeepsAhead(s.program, j, l, t);
    TakingKeepsReached(s.program, j, l, t);
    TakingIsNoLighter(s.program, j, l, t);
    ShapeIsKind(p, s.program);
    HeavierThrough(p, s.program, q);
    SharedOneMore(p, j, l, t);
    if VirtualAction(p, t).primitives != [] && SharedTaker(p, j, l, t) {
      SharersStay(p, s.program, j, l);
      SharedIsHeavier(s.program, j, l, t);
    }
  }

  lemma {:induction false} OneMoreWeighed(g: Program, p: Program, s: Progress, j: int, l: int, next: int, t: int)
    requires Removable(p, t) && Removable(g, t) && 0 <= l < EntryCount(p, j) && next == l + 1
    requires Weighed(g, p, s, j, l, t)
    ensures Weighed(g, p, RedirectEntry(s, j, l, t), j, next, t)
  {
    EntryKeepsPlace(g, s, j, l, t);
    OneEntryDone(p, s, j, l, next, t);
    LeadsStill(s, j, l, t);
    if Leads(s.program, j, l, t) && CanTake(s.program, j, l, t) {
      OneMoreTaken(g, p, s, j, l, t);
    } else {
      SharedOneMore(p, j, l, t);
      if VirtualAction(p, t).primitives != [] && SharedTaker(p, j, l, t) {
        SameCase(p, s, j, l, t);
        TakenInFront(p, s, j, l, t);
      }
    }
  }

  lemma {:induction false} EachEntryWeighed(g: Program, p: Program, j: int, n: int, t: int)
    requires Removable(p, t) && Removable(g, t) && n <= EntryCount(p, j)
    ensures forall r, l :: 0 <= l < n && Weighed(g, p, r, j, l, t) ==>
              Weighed(g, p, RedirectEntry(r, j, l, t), j, l + 1, t)
  {
    forall r, l | 0 <= l < n && Weighed(g, p, r, j, l, t)
      ensures Weighed(g, p, RedirectEntry(r, j, l, t), j, l + 1, t)
    {
      OneMoreWeighed(g, p, r, j, l, l + 1, t);
    }
  }

  lemma {:induction false} EntriesWeighed(g: Program, p: Program, s: Progress, j: int, n: nat, t: int)
    requires Removable(p, t) && Removable(g, t) && n <= EntryCount(p, j) && Weighed(g, p, s, j, 0, t)
    ensures Weighed(g, p, RedirectEntries(s, j, n, t), j, n, t)
  {
    var inv := (r: Progress, l: int) => Weighed(g, p, r, j, l, t);
    EachEntryWeighed(g, p, j, n, t);
    OverEntries(inv, s, j, n, t);
  }

  lemma {:induction false} NextShared(p: Program, j: int, t: int)
    requires IsStage(p, j)
    ensures SharedBefore(p, j + 1, 0, t) <==> SharedBefore(p, j, EntryCount(p, j), t)
  {
    forall i, k | SharedTaker(p, i, k, t)
      ensures Before(i, k, j + 1, 0) <==> Before(i, k, j, EntryCount(p, j))
    {
      NothingBetween(p, i, k, j);
    }
  }

  lemma {:induction false} OnToNextStage(g: Program, p: Program, s: Progress, j: int, n: int, t: int)
    requires IsStage(p, j) && n == EntryCount(p, j) && Removable(p, t) && Weighed(g, p, s, j, n, t)
    ensures Weighed(g, p, s, j + 1, 0, t)
  {
    NextStage(p, s, j, t);
    NextShared(p, j, t);
    if s.conflict {
      var i, k :| Leads(s.program, i, k, t) && Before(i, k, j, n);
      assert Before(i, k, j + 1, 0);
    }
  }

  lemma {:induction false} StageWeighed(g: Program, p: Program, s: Progress, j: nat, t: int)
    requires Removable(p, t) && Removable(g, t) && Weighed(g, p, s, j, 0, t) && IsStage(p, j)
    ensures Weighed(g, p, RedirectStage(s, j, t), j + 1, 0, t)
  {
    SameCount(p, s.program, j);
    EntriesWeighed(g, p, s, j, EntryCount(p, j), t);
    OnToNextStage(g, p, RedirectStage(s, j, t), j, EntryCount(p, j), t);
  }

  lemma {:induction false} EachStageWeighed(g: Program, p: Program, n: int, t: int)
    requires Removable(p, t) && Removable(g, t) && n <= |p.stages|
    ensures forall r, j :: 0 <= j < n && Weighed(g, p, r, j, 0, t) ==>
              Weighed(g, p, RedirectStage(r, j, t), j + 1, 0, t)
  {
    forall r, j | 0 <= j < n && Weighed(g, p, r, j, 0, t)
      ensures Weighed(g, p, RedirectStage(r, j, t), j + 1, 0, t)
    {
      StageWeighed(g, p, r, j, t);
    }
  }

  lemma {:induction false} StartWeighed(g: Program, p: Program, t: int)
    requires AtStage(g, p, t) && Removable(p, t) && Ahead(p) && AllReached(p, t)
    ensures Weighed(g, p, Progress(p, false), 0, 0, t)
  {
    NothingDone(p, t);
    forall i, k | SharedTaker(p, i, k, t)
      ensures !Before(i, k, 0, 0)
    {
    }
  }

  lemma {:induction false} AllWeighed(g: Program, p: Program, t: int)
    requires AtStage(g, p, t) && Removable(p, t) && Removable(g, t) && Ahead(p) && AllReached(p, t)
    ensures Weighed(g, p, RedirectAll(p, t), |p.stages|, 0, t)
  {
    StartWeighed(g, p, t);
    var inv := (r: Progress, j: int) => Weighed(g, p, r, j, 0, t);
    EachStageWeighed(g, p, |p.stages|, t);
    OverStages(inv, Progress(p, false), |p.stages|, t);
  }

  // ----- all stages

  /** Every stage left is on the way of some choice. */
  ghost predicate InOrder(p: Program) {
    Ahead(p) && AllReached(p, -1)
  }

  /** A stage that could not be removed is still led to. */
  lemma {:induction false} KeptIsReached(g: Program, s: Progress, n: int, t: int)
    requires AtStage(g, s.program, t) && Removable(g, t) && Ahead(s.program) && AllReached(s.program, t)
    requires Removable(s.program, t) && StillLeads(s, n, 0, t)
    ensures AllReached(s.program, -1)
  {
    var i, k :| Leads(s.program, i, k, t) && Before(i, k, n, 0);
    LedTo(g, s.program, i, k, t);
    ReachedOn(s.program, i, k, t);
  }

  lemma {:induction false} MarkIsAsHeavy(p: Program, t: int)
    ensures NoLighter(p, MarkRemoved(p, t))
    ensures Ahead(p) ==> Ahead(MarkRemoved(p, t))
    ensures AllReached(p, t) && IsStage(p, t) ==> AllReached(MarkRemoved(p, t), -1)
  {
    var q := MarkRemoved(p, t);
    forall x, n: nat
      ensures Tail(q, x, n) == Tail(p, x, n)
    {
      SameTails(p, t, x, n);
    }
    forall i | Removable(q, i)
      ensures Removable(p, i) && |q.stages[i].actionProc| == |p.stages[i].actionProc|
      ensures IsEntry(p, i, 0) ==> Entry(q, i, 0) == Entry(p, i, 0)
    {
    }
    forall j | AllReached(p, t) && IsStage(p, t) && Removable(q, j) && !q.stages[j].removed
      ensures Reached(q, j)
    {
      var i, k :| OnWay(p, i, k, j);
      SamePasses(p, t, Entry(p, i, k).1, j, |p.stages|);
      assert OnWay(q, i, k, j);
    }
  }

  lemma {:induction false} SameTails(p: Program, t: int, x: int, n: nat)
    ensures Tail(MarkRemoved(p, t), x, n) == Tail(p, x, n)
    decreases n
  {
    if n > 0 && Removable(p, x) && IsEntry(p, x, 0) {
      SameTails(p, t, Entry(p, x, 0).1, n - 1);
    }
  }

  lemma {:induction false} SamePasses(p: Program, t: int, x: int, j: int, n: nat)
    requires Passes(p, x, j, n)
    ensures Passes(MarkRemoved(p, t), x, j, n)
    decreases n
  {
    if x != j {
      SamePasses(p, t, Entry(p, x, 0).1, j, n - 1);
    }
  }

  /** A stage looked at makes nothing lighter, and something heavier if it is taken over by one that shares its
      action. */
  lemma {:induction false} OneStageWeighed(g: Program, p: Program, t: int)
    requires AtStage(g, p, t) && IsStage(g, t) && InOrder(p)
    ensures InOrder(RemoveStage(p, t)) && NoLighter(p, RemoveStage(p, t))
    ensures !HarmlessAt(p, t) ==> Heavier(p, RemoveStage(p, t))
  {
    if Removable(p, t) {
      var s := RedirectAll(p, t);
      var n := |p.stages|;
      AllWeighed(g, p, t);
      AllBefore(p, t);
      MarkIsAsHeavy(s.program, t);
      ShapeIsKind(p, s.program);
      HeavierThrough(p, s.program, MarkRemoved(s.program, t));
      if s.conflict {
        KeptIsReached(g, s, n, t);
      }
    }
  }

  lemma {:induction false} AllBefore(p: Program, t: int)
    ensures Removable(p, t) && !HarmlessAt(p, t) ==>
              VirtualAction(p, t).primitives != [] && SharedBefore(p, |p.stages|, 0, t)
  {
    if Removable(p, t) && !HarmlessAt(p, t) {
      var i, k :| Leads(p, i, k, t) && CanTake(p, i, k, t) && !OnlyUser(p, i, k);
      assert SharedTaker(p, i, k, t) && Before(i, k, |p.stages|, 0);
    }
  }

  /** Every removable stage is led to. */
  ghost predicate Entered(g: Program) {
    forall t :: Removable(g, t) ==> IsEntered(g, t)
  }

  ghost predicate IsEntered(g: Program, t: int) {
    exists i, k :: Leads(g, i, k, t)
  }

  lemma {:induction false} ReachedAtFirst(g: Program, j: int)
    requires Orderly(g) && Ahead(g) && Entered(g) && Removable(g, j)
    ensures Reached(g, j)
    decreases j
  {
    assert IsEntered(g, j);
    var i, k :| Leads(g, i, k, j);
    if Removable(g, i) {
      ReachedAtFirst(g, i);
    }
    ReachedOn(g, i, k, j);
  }

  lemma {:induction false} InOrderAtFirst(g: Program)
    requires Orderly(g) && Entered(g)
    ensures InOrder(g)
  {
    forall i | Removable(g, i)
      ensures |g.stages[i].actionProc| == 1 && (Removable(g, Entry(g, i, 0).1) ==> i < Entry(g, i, 0).1)
    {
      assert IsEntry(g, i, 0) && Entry(g, i, 0).1 == Next(g, i);
    }
    forall j | Removable(g, j) && !g.stages[j].removed && j != -1
      ensures Reached(g, j)
    {
      ReachedAtFirst(g, j);
    }
  }

  lemma {:induction false} StagesWeighed(g: Program, n: nat)
    requires Orderly(g) && Entered(g) && n <= |g.stages|
    ensures InOrder(RemoveStages(g, n)) && NoLighter(g, RemoveStages(g, n))
    ensures !HarmlessUpTo(g, n) ==> Heavier(g, RemoveStages(g, n))
  {
    if n == 0 {
      InOrderAtFirst(g);
    } else {
      var p := RemoveStages(g, n - 1);
      StagesWeighed(g, n - 1);
      StagesRemoved(g, n - 1);
      OneStageWeighed(g, p, n - 1);
      ShapeIsKind(g, p);
      HeavierThrough(g, p, RemoveStage(p, n - 1));
    }
  }

  // ----- so runs tell

  /** All runs between stages that are kept, and out of the pipeline. */
  ghost predicate AllRunsKept(g: Program)
    requires LeadsOn(Remaining(g))
  {
    forall from, did, end ::
      KeptOrOut(Remaining(g), from) && KeptOrOut(Remaining(g), end) && !Removable(g, end) ==> RunKept(g, from, did, end)
  }

  ghost predicate RunKept(g: Program, from: int, did: seq<Event>, end: int)
    requires LeadsOn(Remaining(g))
  {
    CanRun(Reordered(Remaining(g)), NewNumber(Remaining(g), from), did, NewNumber(Remaining(g), end)) <==>
    CanRun(g, from, did, end)
  }

  /** A choice that leads to more assignments cannot make those it made. */
  lemma {:induction false} HeavierRunIsLost(g: Program, i: int, k: int)
    requires Orderly(g) && Ahead(g) && Ahead(Remaining(g)) && LeadsOn(Remaining(g))
    requires HeavierAt(g, Remaining(g), i, k)
    ensures !AllRunsKept(g)
  {
    var p, n := Remaining(g), |g.stages|;
    StagesRemoved(g, n);
    RemainingIsSound(g);
    AtFirst(g);
    WayRun(g, i, k);
    var did, end := [Chose(i, k)] + Way(g, i, k), Past(g, Entry(g, i, k).1, n);
    PastIsChoice(g, Entry(g, i, k).1, n);
    EndIsKept(g, i, k);
    assert KeptOrOut(p, i);
    if CanRun(Reordered(p), NewNumber(p, i), did, NewNumber(p, end)) {
      var m: nat :| Runs(Reordered(p), NewNumber(p, i), did, NewNumber(p, end), m);
      RanSo(p, i, did, end, m);
      WayHasNoChoice(g, i, k);
      ShapeIsKind(g, p);
      OnlyWay(p, i, k, Way(g, i, k), end, m);
    }
    assert !RunKept(g, i, did, end);
  }

  lemma {:induction false} WayHasNoChoice(p: Program, i: int, k: int)
    requires IsEntry(p, i, k)
    ensures NoChoice(Way(p, i, k))
  {
    TailHasNoChoice(p, Entry(p, i, k).1, |p.stages|);
  }

  lemma {:induction false} PastIsStage(g: Program, x: int, n: nat)
    requires Orderly(g) && (x == -1 || IsStage(g, x))
    ensures Past(g, x, n) == -1 || IsStage(g, Past(g, x, n))
    decreases n
  {
    if n > 0 && Removable(g, x) && IsEntry(g, x, 0) {
      PastIsStage(g, Entry(g, x, 0).1, n - 1);
    }
  }

  lemma {:induction false} EndIsKept(g: Program, i: int, k: int)
    requires Orderly(g) && Ahead(g) && IsEntry(g, i, k) && AtStage(g, Remaining(g), |g.stages|)
    ensures KeptOrOut(Remaining(g), Past(g, Entry(g, i, k).1, |g.stages|))
  {
    var x, n := Entry(g, i, k).1, |g.stages|;
    PastIsStage(g, x, n);
    PastIsChoice(g, x, n);
  }

  /** If every removable stage is led to: removal and renumbering keep all runs exactly if no stage that does something
      is taken over by an entry whose action another entry of a stage not yet removed uses. */
  lemma {:induction false} RunsAreKeptIff(g: Program)
    requires Orderly(g) && Entered(g)
    ensures LeadsOn(Remaining(g))
    ensures AllRunsKept(g) <==> HarmlessUpTo(g, |g.stages|)
  {
    RemainingIsSound(g);
    if HarmlessUpTo(g, |g.stages|) {
      forall from, did, end |
        KeptOrOut(Remaining(g), from) && KeptOrOut(Remaining(g), end) && !Removable(g, end)
        ensures RunKept(g, from, did, end)
      {
        RunsAreKept(g, from, did, end);
      }
    } else {
      StagesWeighed(g, |g.stages|);
      InOrderAtFirst(g);
      var i, k :| HeavierAt(g, Remaining(g), i, k);
      HeavierRunIsLost(g, i, k);
    }
  }
}
