/** Runs of a program's stages: the removal of stages that only run one action changes none of them. */
module StageRuns {
  import opened EmptyStages

  /** What can be seen of a run: the entry chosen at a stage that has a choice, and the assignments made. */
  datatype Event = Chose(stage: int, entry: int) | Did(assign: Assign)

  function Dids(xs: seq<Assign>): (r: seq<Event>)
    ensures |r| == |xs| && forall i :: 0 <= i < |r| ==> r[i] == Did(xs[i])
  {
    seq(|xs|, i requires 0 <= i < |xs| => Did(xs[i]))
  }

  function Primitives(actions: map<int, IpsaAction>, a: int): seq<Assign> {
    if a in actions then actions[a].primitives else []
  }

  /** One step: from stage number `from`, found at place `i`, its entry `k`. */
  predicate IsStep(p: Program, from: int, i: int, k: int) {
    IsEntry(p, i, k) && !p.stages[i].removed && p.stages[i].id == from
  }

  function Events(p: Program, i: int, k: int): seq<Event>
    requires IsEntry(p, i, k)
  {
    (if Removable(p, i) then [] else [Chose(i, k)]) + Dids(Primitives(p.actions, Entry(p, i, k).0))
  }

  ghost predicate BeginsWith(p: Program, from: int, i: int, k: int, did: seq<Event>, rest: seq<Event>) {
    IsStep(p, from, i, k) && did == Events(p, i, k) + rest
  }

  /** A run of `n` steps from stage number `from` to `end`. */
  ghost predicate Runs(p: Program, from: int, did: seq<Event>, end: int, n: nat)
    decreases n
  {
    if n == 0 then from == end && did == []
    else
      exists i, k, rest :: BeginsWith(p, from, i, k, did, rest) && Runs(p, Entry(p, i, k).1, rest, end, n - 1)
  }

  ghost predicate CanRun(p: Program, from: int, did: seq<Event>, end: int) {
    exists n: nat :: Runs(p, from, did, end, n)
  }

  // ----- one entry

  /** Entry (i, k) leads to the removable stage `t`, which does what it says, and can take that over. */
  ghost predicate Bypasses(p: Program, i: int, k: int, t: int) {
    && Numbered(p) && Leads(p, i, k, t) && CanTake(p, i, k, t) && i != t
    && !p.stages[t].removed && p.stages[t].actionProc == [p.stages[t].virtualAction.value]
  }

  /** The entry's action is used by no other entry of a stage that is kept. */
  ghost predicate OnlyUser(p: Program, i: int, k: int) {
    forall j, l :: SameAction(p, i, k, j, l) && !p.stages[j].removed ==> i == j && k == l
  }

  ghost predicate Harmless(p: Program, i: int, k: int, t: int)
    requires Bypasses(p, i, k, t)
  {
    VirtualAction(p, t).primitives == [] || OnlyUser(p, i, k)
  }

  /** Without a conflict the two actions are different ones, unless they do nothing. */
  lemma {:induction false} OwnAction(p: Program, i: int, k: int, t: int)
    requires Bypasses(p, i, k, t) && VirtualAction(p, t).primitives != []
    ensures Entry(p, i, k).0 != Entry(p, t, 0).0
  {
    var v := VirtualAction(p, t).primitives;
    assert v[0].lvalue == v[0].lvalue;
  }

  lemma {:induction false} DidsJoin(xs: seq<Assign>, ys: seq<Assign>)
    ensures Dids(xs + ys) == Dids(xs) + Dids(ys)
  {
  }

  lemma {:induction false} MoreEvents(p: Program, q: Program, i: int, k: int, more: seq<Assign>)
    requires IsEntry(p, i, k) && IsEntry(q, i, k) && (Removable(q, i) <==> Removable(p, i))
    requires Primitives(q.actions, Entry(q, i, k).0) == Primitives(p.actions, Entry(p, i, k).0) + more
    ensures Events(q, i, k) == Events(p, i, k) + Dids(more)
  {
    DidsJoin(Primitives(p.actions, Entry(p, i, k).0), more);
  }

  lemma {:induction false} VirtualEvents(p: Program, i: int, k: int, t: int)
    requires Bypasses(p, i, k, t)
    ensures IsEntry(p, t, 0) && Events(p, t, 0) == Dids(VirtualAction(p, t).primitives)
  {
  }

  lemma {:induction false} SameKinds(p: Program, i: int, k: int, t: int, s: int)
    requires Bypasses(p, i, k, t)
    ensures Removable(Taken(p, i, k, t), s) <==> Removable(p, s)
  {
  }

  lemma {:induction false} EventsJoin(p: Program, i: int, k: int, t: int)
    requires Bypasses(p, i, k, t)
    ensures Events(Taken(p, i, k, t), i, k) == Events(p, i, k) + Events(p, t, 0)
    ensures Entry(Taken(p, i, k, t), i, k).1 == Entry(p, t, 0).1
  {
    SameKinds(p, i, k, t, i);
    VirtualEvents(p, i, k, t);
    MoreEvents(p, Taken(p, i, k, t), i, k, VirtualAction(p, t).primitives);
  }

  lemma {:induction false} OtherEntry(p: Program, i: int, k: int, t: int, j: int, l: int)
    requires Bypasses(p, i, k, t) && IsEntry(p, j, l) && (i != j || k != l)
    ensures IsEntry(Taken(p, i, k, t), j, l) && Entry(Taken(p, i, k, t), j, l) == Entry(p, j, l)
  {
  }

  lemma {:induction false} OtherEvents(p: Program, i: int, k: int, t: int, j: int, l: int)
    requires Bypasses(p, i, k, t) && IsEntry(p, j, l) && (i != j || k != l)
    ensures IsEntry(Taken(p, i, k, t), j, l)
    ensures SameAction(p, i, k, j, l) ==> Events(Taken(p, i, k, t), j, l) == Events(p, j, l) + Events(p, t, 0)
    ensures !SameAction(p, i, k, j, l) ==> Events(Taken(p, i, k, t), j, l) == Events(p, j, l)
  {
    SameKinds(p, i, k, t, j);
    VirtualEvents(p, i, k, t);
    OtherEntry(p, i, k, t, j, l);
    var v := VirtualAction(p, t).primitives;
    MoreEvents(p, Taken(p, i, k, t), j, l, if SameAction(p, i, k, j, l) then v else []);
  }

  lemma {:induction false} Prepend(p: Program, from: int, i: int, k: int, did: seq<Event>, rest: seq<Event>, end: int,
                                   n: nat)
    requires BeginsWith(p, from, i, k, did, rest) && Runs(p, Entry(p, i, k).1, rest, end, n)
    ensures Runs(p, from, did, end, n + 1)
  {
  }

  /** The step a removable stage makes. */
  lemma {:induction false} OnlyStep(p: Program, i: int, k: int, t: int, did: seq<Event>, end: int, n: nat)
      returns (rest: seq<Event>)
    requires Bypasses(p, i, k, t) && end != t && Runs(p, t, did, end, n)
    ensures n > 0 && did == Events(p, t, 0) + rest && Runs(p, Entry(p, t, 0).1, rest, end, n - 1)
  {
    var j, l, more :| BeginsWith(p, t, j, l, did, more) && Runs(p, Entry(p, j, l).1, more, end, n - 1);
    rest := more;
  }

  /** Steps are the same from the same stages with the same things to see. */
  lemma {:induction false} SameBegin(p: Program, q: Program, from: int, i: int, k: int, did: seq<Event>,
                                     mid: seq<Event>, rest: seq<Event>)
    requires IsEntry(p, i, k) && IsEntry(q, i, k) && SameNames(p, q, i)
    requires Events(p, i, k) + mid == Events(q, i, k) + rest
    ensures BeginsWith(q, from, i, k, did, rest) <==> BeginsWith(p, from, i, k, did, mid)
  {
  }

  ghost predicate SameNames(p: Program, q: Program, i: int) {
    && IsStage(p, i) && IsStage(q, i)
    && q.stages[i].id == p.stages[i].id && q.stages[i].removed == p.stages[i].removed
  }

  lemma {:induction false} NamesKept(p: Program, i: int, k: int, t: int, j: int)
    requires Bypasses(p, i, k, t) && IsStage(p, j)
    ensures SameNames(p, Taken(p, i, k, t), j)
  {
  }

  lemma {:induction false} BypassBegins(p: Program, i: int, k: int, t: int, from: int, did: seq<Event>,
                                        mid: seq<Event>, rest: seq<Event>)
    requires Bypasses(p, i, k, t) && mid == Events(p, t, 0) + rest
    ensures BeginsWith(Taken(p, i, k, t), from, i, k, did, rest) <==> BeginsWith(p, from, i, k, did, mid)
  {
    EventsJoin(p, i, k, t);
    NamesKept(p, i, k, t, i);
    assert Events(p, i, k) + mid == Events(p, i, k) + Events(p, t, 0) + rest;
    SameBegin(p, Taken(p, i, k, t), from, i, k, did, mid, rest);
  }

  lemma {:induction false} BypassOn(p: Program, i: int, k: int, t: int, from: int, did: seq<Event>, mid: seq<Event>,
                                    rest: seq<Event>, end: int, n: nat)
    requires Bypasses(p, i, k, t) && BeginsWith(p, from, i, k, did, mid) && mid == Events(p, t, 0) + rest
    requires Runs(Taken(p, i, k, t), Entry(p, t, 0).1, rest, end, n)
    ensures Runs(Taken(p, i, k, t), from, did, end, n + 1)
  {
    BypassBegins(p, i, k, t, from, did, mid, rest);
    Prepend(Taken(p, i, k, t), from, i, k, did, rest, end, n);
  }

  lemma {:induction false} OtherOn(p: Program, i: int, k: int, t: int, from: int, j: int, l: int, did: seq<Event>,
                                   rest: seq<Event>)
    requires Bypasses(p, i, k, t) && Harmless(p, i, k, t) && IsEntry(p, j, l) && (i != j || k != l)
    ensures IsEntry(Taken(p, i, k, t), j, l) && Entry(Taken(p, i, k, t), j, l) == Entry(p, j, l)
    ensures BeginsWith(Taken(p, i, k, t), from, j, l, did, rest) <==> BeginsWith(p, from, j, l, did, rest)
  {
    OtherEntry(p, i, k, t, j, l);
    NamesKept(p, i, k, t, j);
    if !p.stages[j].removed {
      OtherEvents(p, i, k, t, j, l);
      if SameAction(p, i, k, j, l) {
        NoneAdded(p, i, k, t, j, l);
      }
      SameBegin(p, Taken(p, i, k, t), from, j, l, did, rest, rest);
    }
  }

  lemma {:induction false} NoneAdded(p: Program, i: int, k: int, t: int, j: int, l: int)
    requires Bypasses(p, i, k, t) && Harmless(p, i, k, t) && SameAction(p, i, k, j, l)
    requires !p.stages[j].removed && (i != j || k != l)
    ensures Events(p, t, 0) == []
  {
    VirtualEvents(p, i, k, t);
  }

  lemma {:induction false} RunsOn(p: Program, i: int, k: int, t: int, from: int, did: seq<Event>, end: int, n: nat)
      returns (m: nat)
    requires Bypasses(p, i, k, t) && Harmless(p, i, k, t) && end != t && Runs(p, from, did, end, n)
    ensures Runs(Taken(p, i, k, t), from, did, end, m)
    decreases n
  {
    m := 0;
    if n > 0 {
      var j, l, rest := FirstStep(p, from, did, end, n);
      if i == j && k == l {
        var rest2 := OnlyStep(p, i, k, t, rest, end, n - 1);
        m := RunsOn(p, i, k, t, Entry(p, t, 0).1, rest2, end, n - 2);
        BypassOn(p, i, k, t, from, did, rest, rest2, end, m);
      } else {
        m := RunsOn(p, i, k, t, Entry(p, j, l).1, rest, end, n - 1);
        OtherOn(p, i, k, t, from, j, l, did, rest);
        Prepend(Taken(p, i, k, t), from, j, l, did, rest, end, m);
      }
      m := m + 1;
    }
  }

  lemma {:induction false} FirstStep(p: Program, from: int, did: seq<Event>, end: int, n: nat)
      returns (i: int, k: int, rest: seq<Event>)
    requires n > 0 && Runs(p, from, did, end, n)
    ensures BeginsWith(p, from, i, k, did, rest) && Runs(p, Entry(p, i, k).1, rest, end, n - 1)
  {
    i, k, rest :| BeginsWith(p, from, i, k, did, rest) && Runs(p, Entry(p, i, k).1, rest, end, n - 1);
  }

  lemma {:induction false} BypassBack(p: Program, i: int, k: int, t: int, from: int, did: seq<Event>,
                                      rest: seq<Event>, end: int, n: nat)
    requires Bypasses(p, i, k, t) && BeginsWith(Taken(p, i, k, t), from, i, k, did, rest)
    requires Runs(p, Entry(p, t, 0).1, rest, end, n)
    ensures Runs(p, from, did, end, n + 2)
  {
    var mid := Events(p, t, 0) + rest;
    assert BeginsWith(p, t, t, 0, mid, rest);
    Prepend(p, t, t, 0, mid, rest, end, n);
    BypassBegins(p, i, k, t, from, did, mid, rest);
    Prepend(p, from, i, k, did, mid, end, n + 1);
  }

  lemma {:induction false} LeadsAsBefore(p: Program, i: int, k: int, t: int)
    requires Bypasses(p, i, k, t)
    ensures Entry(Taken(p, i, k, t), i, k).1 == Entry(p, t, 0).1
  {
  }

  lemma {:induction false} RanBefore(p: Program, i: int, k: int, t: int, from: int, did: seq<Event>, end: int, n: nat)
      returns (m: nat)
    requires Bypasses(p, i, k, t) && Harmless(p, i, k, t) && Runs(Taken(p, i, k, t), from, did, end, n)
    ensures Runs(p, from, did, end, m)
    decreases n
  {
    m := 0;
    if n > 0 {
      var q := Taken(p, i, k, t);
      var j, l, rest := FirstStep(q, from, did, end, n);
      m := RanBefore(p, i, k, t, Entry(q, j, l).1, rest, end, n - 1);
      if i == j && k == l {
        LeadsAsBefore(p, i, k, t);
        BypassBack(p, i, k, t, from, did, rest, end, m);
        m := m + 2;
      } else {
        OtherOn(p, i, k, t, from, j, l, did, rest);
        Prepend(p, from, j, l, did, rest, end, m);
        m := m + 1;
      }
    }
  }

  lemma {:induction false} TakingKeepsRuns(p: Program, i: int, k: int, t: int, from: int, did: seq<Event>, end: int)
    requires Bypasses(p, i, k, t) && Harmless(p, i, k, t) && end != t
    ensures CanRun(Taken(p, i, k, t), from, did, end) <==> CanRun(p, from, did, end)
  {
    if CanRun(p, from, did, end) {
      var n: nat :| Runs(p, from, did, end, n);
      var m := RunsOn(p, i, k, t, from, did, end, n);
    }
    if CanRun(Taken(p, i, k, t), from, did, end) {
      var n: nat :| Runs(Taken(p, i, k, t), from, did, end, n);
      var m := RanBefore(p, i, k, t, from, did, end, n);
    }
  }

  // ----- when taking over changes no run

  ghost predicate SameRuns(p: Program, q: Program, t: int) {
    forall from, did, end :: end != t ==> (CanRun(q, from, did, end) <==> CanRun(p, from, did, end))
  }

  /** Removable stages have one entry, which does not lead back to them. */
  ghost predicate NoLoops(p: Program) {
    forall s :: Removable(p, s) && !p.stages[s].removed ==>
      |p.stages[s].actionProc| == 1 && Entry(p, s, 0).1 != s
  }

  lemma {:induction false} OneStep(p: Program, i: int, k: int)
    requires Numbered(p) && IsEntry(p, i, k) && !p.stages[i].removed
    ensures CanRun(p, i, Events(p, i, k), Entry(p, i, k).1)
  {
    var did, end := Events(p, i, k), Entry(p, i, k).1;
    assert did == Events(p, i, k) + [];
    assert Runs(p, end, [], end, 0);
    Prepend(p, i, i, k, did, [], end, 0);
  }

  lemma {:induction false} TwoSteps(p: Program, i: int, k: int, t: int)
    requires Numbered(p) && IsEntry(p, i, k) && !p.stages[i].removed && Entry(p, i, k).1 == t
    requires IsEntry(p, t, 0) && !p.stages[t].removed
    ensures CanRun(p, i, Events(p, i, k) + Events(p, t, 0), Entry(p, t, 0).1)
  {
    OneStep(p, t, 0);
    var n: nat :| Runs(p, t, Events(p, t, 0), Entry(p, t, 0).1, n);
    Prepend(p, i, i, k, Events(p, i, k) + Events(p, t, 0), Events(p, t, 0), Entry(p, t, 0).1, n);
  }

  /** Another entry with the same action does more than before. */
  lemma {:induction false} SharedDoesMore(p: Program, i: int, k: int, t: int, j: int, l: int, tail: seq<Event>,
                                          end: int, n: nat)
      returns (rest: seq<Event>)
    requires Bypasses(p, i, k, t) && NoLoops(p) && SameAction(p, i, k, j, l) && !p.stages[j].removed
    requires i != j || k != l
    requires n > 0 && Runs(Taken(p, i, k, t), j, Events(p, j, l) + tail, end, n)
    ensures tail == Events(p, t, 0) + rest && Runs(Taken(p, i, k, t), Entry(p, j, l).1, rest, end, n - 1)
  {
    var q := Taken(p, i, k, t);
    var did := Events(p, j, l) + tail;
    var i2, k2, more := FirstStep(q, j, did, end, n);
    assert IsStep(q, j, i2, k2) && i2 == j && SameShape(p, q);
    OnlyThisEntry(p, q, j, l, k2, did, tail, more);
    OtherEntry(p, i, k, t, j, l);
    OtherEvents(p, i, k, t, j, l);
    rest := more;
    Regroup(did, Events(p, j, l), tail, Events(p, t, 0), rest);
  }

  /** What is seen first tells the entry. */
  lemma {:induction false} OnlyThisEntry(p: Program, q: Program, j: int, l: int, m: int, did: seq<Event>,
                                         tail: seq<Event>, rest: seq<Event>)
    requires SameShape(p, q) && NoLoops(p) && IsEntry(p, j, l) && IsEntry(q, j, m) && !p.stages[j].removed
    requires did == Events(p, j, l) + tail && did == Events(q, j, m) + rest
    ensures m == l
  {
    if !Removable(p, j) {
      assert Events(p, j, l)[0] == Chose(j, l) && Events(q, j, m)[0] == Chose(j, m);
      assert did[0] == Chose(j, l);
    }
  }

  lemma {:induction false} Regroup(did: seq<Event>, front: seq<Event>, tail: seq<Event>, mid: seq<Event>,
                                   rest: seq<Event>)
    requires did == front + tail && did == front + mid + rest
    ensures tail == mid + rest
  {
    assert tail == did[|front|..];
    assert mid + rest == did[|front|..];
  }

  lemma {:induction false} SharedRunIsLost(p: Program, i: int, k: int, t: int, j: int, l: int)
    requires Bypasses(p, i, k, t) && NoLoops(p) && VirtualAction(p, t).primitives != []
    requires SameAction(p, i, k, j, l) && !p.stages[j].removed && (i != j || k != l)
    ensures !SameRuns(p, Taken(p, i, k, t), t)
  {
    var q, end := Taken(p, i, k, t), Entry(p, j, l).1;
    OwnAction(p, i, k, t);
    assert j != t;
    if end != t {
      var did := Events(p, j, l);
      OneStep(p, j, l);
      if CanRun(q, j, did, end) {
        var n: nat :| Runs(q, j, did, end, n);
        assert did == did + [];
        assert n > 0;
        var rest := SharedDoesMore(p, i, k, t, j, l, [], end, n);
      }
    } else {
      SharedTwoSteps(p, i, k, t, j, l);
    }
  }

  lemma {:induction false} SharedTwoSteps(p: Program, i: int, k: int, t: int, j: int, l: int)
    requires Bypasses(p, i, k, t) && NoLoops(p) && VirtualAction(p, t).primitives != []
    requires SameAction(p, i, k, j, l) && !p.stages[j].removed && (i != j || k != l)
    requires Entry(p, j, l).1 == t && j != t
    ensures !SameRuns(p, Taken(p, i, k, t), t)
  {
    var q, end := Taken(p, i, k, t), Entry(p, t, 0).1;
    var tail := Events(p, t, 0);
    TwoSteps(p, j, l, t);
    OwnAction(p, i, k, t);
    if CanRun(q, j, Events(p, j, l) + tail, end) {
      var n: nat :| Runs(q, j, Events(p, j, l) + tail, end, n);
      var rest := SharedDoesMore(p, i, k, t, j, l, tail, end, n);
      assert rest == [];
      OtherEvents(p, i, k, t, t, 0);
    }
  }

  /** Letting an entry take over what a removable stage does changes no run exactly if that is nothing, or no other
      entry uses the same action. */
  lemma {:induction false} TakingKeepsRunsIff(p: Program, i: int, k: int, t: int)
    requires Bypasses(p, i, k, t) && NoLoops(p)
    ensures SameRuns(p, Taken(p, i, k, t), t) <==> Harmless(p, i, k, t)
  {
    if Harmless(p, i, k, t) {
      forall from, did, end | end != t
        ensures CanRun(Taken(p, i, k, t), from, did, end) <==> CanRun(p, from, did, end)
      {
        TakingKeepsRuns(p, i, k, t, from, did, end);
      }
    } else {
      var j, l :| SameAction(p, i, k, j, l) && !p.stages[j].removed && !(i == j && k == l);
      SharedRunIsLost(p, i, k, t, j, l);
    }
  }

  // ----- all entries, all stages

  /** What stage `t` does is nothing, or no entry that takes it over shares its action. */
  ghost predicate HarmlessAt(p: Program, t: int) {
    Removable(p, t) ==>
      || VirtualAction(p, t).primitives == []
      || forall i, k :: Leads(p, i, k, t) && CanTake(p, i, k, t) ==> OnlyUser(p, i, k)
  }

  /** Looking at stage `t` of `p`, the loops are at entry (j, l), with the runs of `p`. */
  ghost predicate RunsKept(g: Program, p: Program, s: Progress, j: int, l: int, t: int, from: int, did: seq<Event>,
                           end: int)
    requires Removable(p, t)
  {
    && AtStage(g, s.program, t) && DoneUpTo(p, s, j, l, t)
    && (CanRun(s.program, from, did, end) <==> CanRun(p, from, did, end))
  }

  lemma {:induction false} UsersStay(p: Program, q: Program, j: int, l: int)
    requires SameShape(p, q) && SameFlags(p, q) && OnlyUser(p, j, l)
    ensures OnlyUser(q, j, l)
  {
    forall i, k | SameAction(q, j, l, i, k) && !q.stages[i].removed
      ensures j == i && l == k
    {
      assert SameAction(p, j, l, i, k);
    }
  }

  /** An entry that takes the stage over is one that could from the beginning. */
  lemma {:induction false} CouldTake(g: Program, p: Program, s: Progress, j: int, l: int, t: int)
    requires AtStage(g, s.program, t) && Removable(g, t) && Removable(p, t) && DoneUpTo(p, s, j, l, t)
    requires IsEntry(p, j, l) && Leads(s.program, j, l, t) && CanTake(s.program, j, l, t)
    ensures Leads(p, j, l, t) && CanTake(p, j, l, t) && Bypasses(s.program, j, l, t)
    ensures VirtualAction(s.program, t).primitives == VirtualAction(p, t).primitives
  {
    SameCase(p, s, j, l, t);
    VirtualStays(p, s, j, l, t);
    LedTo(g, s.program, j, l, t);
  }

  lemma {:induction false} EntryKeepsRuns(g: Program, p: Program, s: Progress, j: int, l: int, next: int, t: int,
                                          from: int, did: seq<Event>, end: int)
    requires Removable(p, t) && RunsKept(g, p, s, j, l, t, from, did, end) && 0 <= l < EntryCount(p, j) && next == l + 1
    requires HarmlessAt(p, t) && Removable(g, t) && !Removable(g, end)
    ensures RunsKept(g, p, RedirectEntry(s, j, l, t), j, next, t, from, did, end)
  {
    EntryKeepsPlace(g, s, j, l, t);
    OneEntryDone(p, s, j, l, next, t);
    if Leads(s.program, j, l, t) && CanTake(s.program, j, l, t) {
      CouldTake(g, p, s, j, l, t);
      if VirtualAction(p, t).primitives != [] {
        UsersStay(p, s.program, j, l);
      }
      TakingKeepsRuns(s.program, j, l, t, from, did, end);
    }
  }

  lemma {:induction false} EntriesKeepRuns(g: Program, p: Program, s: Progress, j: int, n: nat, t: int, from: int,
                                            did: seq<Event>, end: int)
    requires Removable(p, t) && n <= EntryCount(p, j) && RunsKept(g, p, s, j, 0, t, from, did, end)
    requires HarmlessAt(p, t) && Removable(g, t) && !Removable(g, end)
    ensures RunsKept(g, p, RedirectEntries(s, j, n, t), j, n, t, from, did, end)
  {
    var inv := (r: Progress, l: int) => RunsKept(g, p, r, j, l, t, from, did, end);
    EachEntryKeepsRuns(g, p, j, n, t, from, did, end);
    OverEntries(inv, s, j, n, t);
  }

  lemma {:induction false} EachEntryKeepsRuns(g: Program, p: Program, j: int, n: int, t: int, from: int,
                                              did: seq<Event>, end: int)
    requires Removable(p, t) && n <= EntryCount(p, j) && HarmlessAt(p, t) && Removable(g, t) && !Removable(g, end)
    ensures forall r, l :: 0 <= l < n && RunsKept(g, p, r, j, l, t, from, did, end) ==>
              RunsKept(g, p, RedirectEntry(r, j, l, t), j, l + 1, t, from, did, end)
  {
    forall r, l | 0 <= l < n && RunsKept(g, p, r, j, l, t, from, did, end)
      ensures RunsKept(g, p, RedirectEntry(r, j, l, t), j, l + 1, t, from, did, end)
    {
      EntryKeepsRuns(g, p, r, j, l, l + 1, t, from, did, end);
    }
  }

  lemma {:induction false} OnToNextStage(g: Program, p: Program, s: Progress, j: int, n: int, t: int, from: int,
                                         did: seq<Event>, end: int)
    requires IsStage(p, j) && n == EntryCount(p, j)
    requires Removable(p, t) && RunsKept(g, p, s, j, n, t, from, did, end)
    ensures RunsKept(g, p, s, j + 1, 0, t, from, did, end)
  {
    NextStage(p, s, j, t);
  }

  lemma {:induction false} StageKeepsRuns(g: Program, p: Program, s: Progress, j: nat, t: int, from: int,
                                          did: seq<Event>, end: int)
    requires Removable(p, t) && RunsKept(g, p, s, j, 0, t, from, did, end) && IsStage(p, j)
    requires HarmlessAt(p, t) && Removable(g, t) && !Removable(g, end)
    ensures RunsKept(g, p, RedirectStage(s, j, t), j + 1, 0, t, from, did, end)
  {
    var n := EntryCount(p, j);
    SameCount(p, s.program, j);
    EntriesKeepRuns(g, p, s, j, n, t, from, did, end);
    OnToNextStage(g, p, RedirectEntries(s, j, n, t), j, n, t, from, did, end);
  }

  lemma {:induction false} SameCount(p: Program, q: Program, j: int)
    requires SameShape(p, q)
    ensures EntryCount(q, j) == EntryCount(p, j)
  {
  }

  lemma {:induction false} RedirectKeepsRuns(g: Program, p: Program, t: int, from: int, did: seq<Event>, end: int)
    requires AtStage(g, p, t) && HarmlessAt(p, t) && Removable(p, t) && Removable(g, t) && !Removable(g, end)
    ensures CanRun(RedirectAll(p, t).program, from, did, end) <==> CanRun(p, from, did, end)
  {
    NothingDone(p, t);
    var inv := (r: Progress, j: int) => RunsKept(g, p, r, j, 0, t, from, did, end);
    forall r, j | 0 <= j < |p.stages| && inv(r, j)
      ensures inv(RedirectStage(r, j, t), j + 1)
    {
      StageKeepsRuns(g, p, r, j, t, from, did, end);
    }
    OverStages(inv, Progress(p, false), |p.stages|, t);
  }

  /** Nothing leads to the stage, so it can go. */
  ghost predicate Unreached(p: Program, t: int) {
    Numbered(p) && IsStage(p, t) && forall i, k :: !Leads(p, i, k, t)
  }

  lemma {:induction false} RunsWithout(p: Program, t: int, from: int, did: seq<Event>, end: int, n: nat)
    requires Unreached(p, t) && from != t && Runs(p, from, did, end, n)
    ensures Runs(MarkRemoved(p, t), from, did, end, n)
    decreases n
  {
    if n > 0 {
      var i, k, rest := FirstStep(p, from, did, end, n);
      SameFirst(p, t, from, i, k, did, rest);
      RunsWithout(p, t, Entry(p, i, k).1, rest, end, n - 1);
      Prepend(MarkRemoved(p, t), from, i, k, did, rest, end, n - 1);
    }
  }

  lemma {:induction false} RanWith(p: Program, t: int, from: int, did: seq<Event>, end: int, n: nat)
    requires Unreached(p, t) && from != t && Runs(MarkRemoved(p, t), from, did, end, n)
    ensures Runs(p, from, did, end, n)
    decreases n
  {
    if n > 0 {
      var i, k, rest := FirstStep(MarkRemoved(p, t), from, did, end, n);
      SameFirst(p, t, from, i, k, did, rest);
      RanWith(p, t, Entry(p, i, k).1, rest, end, n - 1);
      Prepend(p, from, i, k, did, rest, end, n - 1);
    }
  }

  lemma {:induction false} SameFirst(p: Program, t: int, from: int, i: int, k: int, did: seq<Event>, rest: seq<Event>)
    requires Unreached(p, t) && from != t
    ensures BeginsWith(MarkRemoved(p, t), from, i, k, did, rest) <==> BeginsWith(p, from, i, k, did, rest)
    ensures BeginsWith(p, from, i, k, did, rest) ==>
              Entry(MarkRemoved(p, t), i, k) == Entry(p, i, k) && Entry(p, i, k).1 != t
  {
    SameStep(p, t, from, i, k);
  }

  lemma {:induction false} SameStep(p: Program, t: int, from: int, i: int, k: int)
    requires Unreached(p, t) && from != t
    ensures var q := MarkRemoved(p, t);
            && (IsStep(p, from, i, k) <==> IsStep(q, from, i, k))
            && (IsStep(p, from, i, k) ==>
                 Entry(q, i, k) == Entry(p, i, k) && Events(q, i, k) == Events(p, i, k) && Entry(p, i, k).1 != t)
  {
    if IsStep(p, from, i, k) {
      assert !Leads(p, i, k, t);
    }
  }

  /** No stage looked at is taken over by an entry that shares its action, unless it does nothing. */
  ghost predicate HarmlessUpTo(g: Program, n: nat) {
    forall t :: 0 <= t < n ==> HarmlessAt(RemoveStages(g, t), t)
  }

  lemma {:induction false} RemovalKeepsRuns(g: Program, n: nat, from: int, did: seq<Event>, end: int)
    requires Orderly(g) && n <= |g.stages| && HarmlessUpTo(g, n) && !Removable(g, end)
    ensures !IsRemoved(RemoveStages(g, n), from) ==>
              (CanRun(RemoveStages(g, n), from, did, end) <==> CanRun(g, from, did, end))
  {
    if n > 0 {
      StagesRemoved(g, n - 1);
      RemovalKeepsRuns(g, n - 1, from, did, end);
      OneStageKeepsRuns(g, RemoveStages(g, n - 1), n - 1, from, did, end);
    }
  }

  lemma {:induction false} OneStageKeepsRuns(g: Program, p: Program, t: int, from: int, did: seq<Event>, end: int)
    requires AtStage(g, p, t) && IsStage(g, t) && HarmlessAt(p, t) && !Removable(g, end)
    ensures IsRemoved(p, from) ==> IsRemoved(RemoveStage(p, t), from)
    ensures !IsRemoved(RemoveStage(p, t), from) ==>
              (CanRun(RemoveStage(p, t), from, did, end) <==> CanRun(p, from, did, end))
  {
    if Removable(p, t) {
      var s := RedirectAll(p, t);
      RedirectKeepsRuns(g, p, t, from, did, end);
      RedirectKeepsPlace(g, p, t);
      StagesDone(p, |p.stages|, t);
      if !s.conflict {
        NoneLeads(g, p, t);
        if from != t {
          GoneKeepsRuns(s.program, t, from, did, end);
        }
      }
    }
  }

  lemma {:induction false} GoneKeepsRuns(p: Program, t: int, from: int, did: seq<Event>, end: int)
    requires Unreached(p, t) && from != t
    ensures CanRun(MarkRemoved(p, t), from, did, end) <==> CanRun(p, from, did, end)
  {
    if CanRun(p, from, did, end) {
      var n: nat :| Runs(p, from, did, end, n);
      RunsWithout(p, t, from, did, end, n);
    }
    if CanRun(MarkRemoved(p, t), from, did, end) {
      var n: nat :| Runs(MarkRemoved(p, t), from, did, end, n);
      RanWith(p, t, from, did, end, n);
    }
  }

  /** An action that leads to a removable stage is used by one entry. */
  ghost predicate UsedOnce(g: Program) {
    forall i, k, j, l :: SameAction(g, i, k, j, l) && Removable(g, Entry(g, i, k).1) ==> i == j && k == l
  }

  /** Such programs are harmless throughout. */
  lemma {:induction false} UsedOnceIsHarmless(g: Program, n: nat)
    requires Orderly(g) && UsedOnce(g) && n <= |g.stages|
    ensures HarmlessUpTo(g, n)
  {
    forall t | 0 <= t < n
      ensures HarmlessAt(RemoveStages(g, t), t)
    {
      StagesRemoved(g, t);
      OnlyUsers(g, RemoveStages(g, t), t);
    }
  }

  lemma {:induction false} OnlyUsers(g: Program, p: Program, t: int)
    requires AtStage(g, p, t) && UsedOnce(g)
    ensures HarmlessAt(p, t)
  {
    forall i, k, j, l | Removable(p, t) && Leads(p, i, k, t) && SameAction(p, i, k, j, l)
      ensures i == j && k == l
    {
      LedTo(g, p, i, k, t);
      assert SameAction(g, i, k, j, l);
    }
  }
}
