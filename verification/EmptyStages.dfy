/** rP4-compiler/rp4c/ipsa_processor_manager.h and ipsa_action_manager.h: stages that only run one action are
    removed, their action appended to those that lead to them. What the loops do, step by step. */
module EmptyStages {
  import opened Options

  /** An assignment of an action, by the field it sets and what it sets it to. */
  datatype Assign = Assign(lvalue: int, rvalue: int)

  datatype IpsaAction = IpsaAction(parameterNum: nat, primitives: seq<Assign>)

  /** A logical stage: its (action, next stage) entries, -1 for leaving the pipeline, and its only entry when it
      has just one and nothing but tables to match (`get_virtual_action`). */
  datatype LogicalStage = LogicalStage(id: int, removed: bool, actionProc: seq<(int, int)>,
                                       virtualAction: Option<(int, int)>)

  datatype Program = Program(stages: seq<LogicalStage>, actions: map<int, IpsaAction>)

  predicate IsStage(p: Program, t: int) {
    0 <= t < |p.stages|
  }

  predicate IsEntry(p: Program, i: int, k: int) {
    IsStage(p, i) && 0 <= k < |p.stages[i].actionProc|
  }

  function Entry(p: Program, i: int, k: int): (int, int)
    requires IsEntry(p, i, k)
  {
    p.stages[i].actionProc[k]
  }

  ghost predicate Numbered(p: Program) {
    forall i :: IsStage(p, i) ==> p.stages[i].id == i
  }

  /** As loaded: stages are numbered in order, entries lead to stages or out, and an only entry is one. */
  ghost predicate Loaded(g: Program) {
    && Numbered(g)
    && (forall i :: IsStage(g, i) ==> !g.stages[i].removed)
    && (forall i, k :: IsEntry(g, i, k) ==> Entry(g, i, k).1 == -1 || IsStage(g, Entry(g, i, k).1))
    && (forall i :: IsStage(g, i) && g.stages[i].virtualAction.Some? ==>
         g.stages[i].actionProc == [g.stages[i].virtualAction.value] && g.stages[i].virtualAction.value.0 in g.actions)
  }

  predicate Removable(p: Program, t: int) {
    && IsStage(p, t) && p.stages[t].virtualAction.Some?
    && var a := p.stages[t].virtualAction.value.0;
       a in p.actions && p.actions[a].parameterNum == 0
  }

  /** What the stage does now. */
  function VirtualAction(p: Program, t: int): IpsaAction
    requires Removable(p, t)
  {
    p.actions[p.stages[t].virtualAction.value.0]
  }

  /** Where the program has it lead. */
  function Next(p: Program, t: int): int
    requires Removable(p, t)
  {
    p.stages[t].virtualAction.value.1
  }

  predicate IsRemoved(p: Program, t: int) {
    IsStage(p, t) && p.stages[t].removed
  }

  predicate Kept(p: Program, t: int) {
    IsStage(p, t) && !p.stages[t].removed
  }

  // ----- the loops

  ghost predicate Conflict(xs: seq<Assign>, ys: seq<Assign>) {
    exists i, j :: 0 <= i < |xs| && 0 <= j < |ys| && xs[i].lvalue == ys[j].lvalue
  }

  function Appended(x: IpsaAction, y: IpsaAction): IpsaAction {
    x.(primitives := x.primitives + y.primitives)
  }

  predicate Leads(p: Program, i: int, k: int, t: int) {
    IsEntry(p, i, k) && !p.stages[i].removed && Entry(p, i, k).1 == t
  }

  /** The entry's action exists and sets no field that the stage sets. */
  ghost predicate CanTake(p: Program, i: int, k: int, t: int) {
    && IsEntry(p, i, k) && Removable(p, t) && Entry(p, i, k).0 in p.actions
    && !Conflict(p.actions[Entry(p, i, k).0].primitives, VirtualAction(p, t).primitives)
  }

  /** The entry takes over what the stage does and leads where it leads. */
  ghost function Taken(p: Program, i: int, k: int, t: int): Program
    requires CanTake(p, i, k, t)
  {
    var a := Entry(p, i, k).0;
    var stage := p.stages[i];
    Program(p.stages[i := stage.(actionProc := stage.actionProc[k := (a, Next(p, t))])],
            p.actions[a := Appended(p.actions[a], VirtualAction(p, t))])
  }

  datatype Progress = Progress(program: Program, conflict: bool)

  ghost function RedirectEntry(s: Progress, i: int, k: int, t: int): Progress {
    if !Leads(s.program, i, k, t) then s
    else if CanTake(s.program, i, k, t) then s.(program := Taken(s.program, i, k, t))
    else s.(conflict := true)
  }

  /** The first `n` entries of a stage. */
  ghost function RedirectEntries(s: Progress, i: int, n: nat, t: int): Progress {
    if n == 0 then s else RedirectEntry(RedirectEntries(s, i, n - 1, t), i, n - 1, t)
  }

  function EntryCount(p: Program, i: int): nat {
    if IsStage(p, i) then |p.stages[i].actionProc| else 0
  }

  ghost function RedirectStage(s: Progress, j: nat, t: int): Progress {
    RedirectEntries(s, j, EntryCount(s.program, j), t)
  }

  /** The entries of the first `n` stages. */
  ghost function RedirectStages(s: Progress, n: nat, t: int): Progress {
    if n == 0 then s else RedirectStage(RedirectStages(s, n - 1, t), n - 1, t)
  }

  ghost function RedirectAll(p: Program, t: int): Progress {
    RedirectStages(Progress(p, false), |p.stages|, t)
  }

  function MarkRemoved(p: Program, t: int): Program {
    if IsStage(p, t) then p.(stages := p.stages[t := p.stages[t].(removed := true)]) else p
  }

  /** A stage with one action and no parameters is removed unless an entry that leads to it cannot take it over. */
  ghost function RemoveStage(p: Program, t: int): Program {
    if !Removable(p, t) then p
    else
      var s := RedirectAll(p, t);
      if s.conflict then s.program else MarkRemoved(s.program, t)
  }

  ghost function RemoveStages(g: Program, n: nat): Program {
    if n == 0 then g else RemoveStage(RemoveStages(g, n - 1), n - 1)
  }

  /** What no step changes. */
  ghost predicate SameShape(p: Program, r: Program) {
    && |r.stages| == |p.stages|
    && (forall i :: IsStage(p, i) ==>
         && r.stages[i].id == p.stages[i].id
         && r.stages[i].virtualAction == p.stages[i].virtualAction
         && |r.stages[i].actionProc| == |p.stages[i].actionProc|)
    && (forall i, k :: IsEntry(p, i, k) ==> Entry(r, i, k).0 == Entry(p, i, k).0)
    && r.actions.Keys == p.actions.Keys
    && (forall a :: a in p.actions ==> r.actions[a].parameterNum == p.actions[a].parameterNum)
  }

  // ----- programs for which that is right

  predicate SameAction(g: Program, i: int, k: int, j: int, l: int) {
    IsEntry(g, i, k) && IsEntry(g, j, l) && Entry(g, i, k).0 == Entry(g, j, l).0
  }

  /** What the removal takes for granted: removable stages lead to stages, and to removable ones of a higher
      number. */
  ghost predicate Orderly(g: Program) {
    && Loaded(g)
    && (forall t :: Removable(g, t) ==> IsStage(g, Next(g, t)) && (Removable(g, Next(g, t)) ==> t < Next(g, t)))
  }

  /** An entry leads where it did or has been redirected past a removable stage. */
  ghost predicate Follows(g: Program, p: Program, i: int, k: int)
    requires IsEntry(g, i, k) && IsEntry(p, i, k)
  {
    Entry(p, i, k).1 == Entry(g, i, k).1 || (Removable(g, Entry(g, i, k).1) && IsStage(g, Entry(p, i, k).1))
  }

  /** The entry of a removable stage is as it was while the stage it leads to has not been looked at. */
  ghost predicate Pending(g: Program, p: Program, i: int)
    requires Removable(g, i) && IsEntry(p, i, 0)
  {
    Entry(p, i, 0).1 == Next(g, i)
  }

  /** Stage `t` is next, or being looked at. */
  ghost predicate AtStage(g: Program, p: Program, t: int) {
    && Orderly(g) && SameShape(g, p)
    && (forall i, k :: IsEntry(g, i, k) ==> Follows(g, p, i, k))
    && (forall i :: Removable(g, i) && (Removable(g, Next(g, i)) ==> Next(g, i) > t) ==> Pending(g, p, i))
    && (forall i :: IsRemoved(p, i) ==> i < t && Removable(g, i))
    && (forall i, k, x :: Leads(p, i, k, x) ==> !IsRemoved(p, x))
  }

  lemma {:induction false} AtFirst(g: Program)
    requires Orderly(g)
    ensures AtStage(g, g, 0)
  {
    forall i | Removable(g, i)
      ensures Pending(g, g, i)
    {
      assert IsEntry(g, i, 0);
    }
  }

  /** A stage being looked at that an entry leads to. */
  lemma {:induction false} LedTo(g: Program, p: Program, i: int, k: int, t: int)
    requires AtStage(g, p, t) && Removable(g, t) && Leads(p, i, k, t)
    ensures Removable(g, Entry(g, i, k).1) && Removable(p, t) && Next(p, t) == Next(g, t)
    ensures IsEntry(p, t, 0) && !p.stages[t].removed && i != t && Next(p, t) != t
    ensures p.stages[t].actionProc == [p.stages[t].virtualAction.value]
  {
    assert Follows(g, p, i, k);
    assert IsEntry(g, t, 0) && Pending(g, p, t);
  }

  lemma {:induction false} EntryKeepsPlace(g: Program, s: Progress, i: int, k: int, t: int)
    requires AtStage(g, s.program, t) && Removable(g, t)
    ensures AtStage(g, RedirectEntry(s, i, k, t).program, t)
  {
    var p, r := s.program, RedirectEntry(s, i, k, t).program;
    if Leads(p, i, k, t) && CanTake(p, i, k, t) {
      LedTo(g, p, i, k, t);
      TakenShape(g, p, i, k, t);
      forall j, l | IsEntry(g, j, l)
        ensures Follows(g, r, j, l)
      {
        assert Follows(g, p, j, l);
      }
      forall j | Removable(g, j) && (Removable(g, Next(g, j)) ==> Next(g, j) > t)
        ensures Pending(g, r, j)
      {
        assert IsEntry(g, j, 0) && Pending(g, p, j);
      }
      forall j, l, x | Leads(r, j, l, x)
        ensures !IsRemoved(r, x)
      {
        TakenLeads(p, i, k, t, j, l, x);
      }
    }
  }

  lemma {:induction false} TakenShape(g: Program, p: Program, i: int, k: int, t: int)
    requires SameShape(g, p) && CanTake(p, i, k, t)
    ensures SameShape(g, Taken(p, i, k, t))
    ensures forall x :: IsRemoved(Taken(p, i, k, t), x) <==> IsRemoved(p, x)
  {
  }

  lemma {:induction false} TakenLeads(p: Program, i: int, k: int, t: int, j: int, l: int, x: int)
    requires Leads(p, i, k, t) && CanTake(p, i, k, t) && Leads(Taken(p, i, k, t), j, l, x)
    ensures Leads(p, j, l, x) || x == Next(p, t)
  {
  }

  // ----- what is removed

  /** Entry (i, k) comes before entry (j, l). */
  predicate Before(i: int, k: int, j: int, l: int) {
    i < j || (i == j && k < l)
  }

  ghost predicate SameFlags(p: Program, q: Program) {
    |q.stages| == |p.stages| && forall i :: IsStage(p, i) ==> (q.stages[i].removed <==> p.stages[i].removed)
  }

  /** The entry leads to the stage and can take it over, with action `a`. */
  ghost predicate Takes(p: Program, i: int, k: int, a: int, t: int) {
    Leads(p, i, k, t) && CanTake(p, i, k, t) && Entry(p, i, k).0 == a
  }

  ghost predicate TookBefore(p: Program, j: int, l: int, a: int, t: int) {
    exists i, k :: Takes(p, i, k, a, t) && Before(i, k, j, l)
  }

  /** The entry leads to the stage and cannot take it over, or not any more, since another entry with the same action
      has done so. */
  ghost predicate Blocked(p: Program, i: int, k: int, t: int)
    requires Removable(p, t)
  {
    && Leads(p, i, k, t)
    && (CanTake(p, i, k, t) ==> VirtualAction(p, t).primitives != [] && TookBefore(p, i, k, Entry(p, i, k).0, t))
  }

  ghost predicate BlockedBefore(p: Program, j: int, l: int, t: int)
    requires Removable(p, t)
  {
    exists i, k :: Blocked(p, i, k, t) && Before(i, k, j, l)
  }

  ghost predicate SameEntry(p: Program, q: Program, i: int, k: int)
    requires SameShape(p, q) && IsEntry(p, i, k)
  {
    Entry(q, i, k) == Entry(p, i, k)
  }

  ghost predicate Grown(p: Program, q: Program, j: int, l: int, a: int, t: int)
    requires SameShape(p, q) && a in p.actions && Removable(p, t)
  {
    q.actions[a].primitives ==
    p.actions[a].primitives + if TookBefore(p, j, l, a, t) then VirtualAction(p, t).primitives else []
  }

  ghost predicate Passed(p: Program, s: Progress, i: int, k: int, t: int)
    requires Removable(p, t)
  {
    Leads(s.program, i, k, t) ==> s.conflict || Next(p, t) == t
  }

  /** From entry (j, l) on all entries are as in `p`; actions of those in front that could take over the stage have
      done so, and they lead to it no more. */
  ghost predicate DoneUpTo(p: Program, s: Progress, j: int, l: int, t: int)
    requires Removable(p, t)
  {
    && SameShape(p, s.program) && SameFlags(p, s.program)
    && (s.conflict <==> BlockedBefore(p, j, l, t))
    && (forall i, k :: IsEntry(p, i, k) && !Before(i, k, j, l) ==> SameEntry(p, s.program, i, k))
    && (forall a :: a in p.actions ==> Grown(p, s.program, j, l, a, t))
    && (forall i, k {:trigger Passed(p, s, i, k, t)} :: Before(i, k, j, l) ==> Passed(p, s, i, k, t))
  }

  /** An assignment is in conflict with itself. */
  lemma {:induction false} ConflictWithOwn(xs: seq<Assign>, ys: seq<Assign>)
    ensures Conflict(xs + ys, ys) <==> Conflict(xs, ys) || ys != []
  {
    if ys != [] {
      assert (xs + ys)[|xs|].lvalue == ys[0].lvalue;
    }
  }

  lemma {:induction false} VirtualStays(p: Program, s: Progress, j: int, l: int, t: int)
    requires Removable(p, t) && DoneUpTo(p, s, j, l, t)
    ensures Removable(s.program, t) && Next(s.program, t) == Next(p, t)
    ensures VirtualAction(s.program, t).primitives == VirtualAction(p, t).primitives
  {
    var a, v := p.stages[t].virtualAction.value.0, VirtualAction(p, t).primitives;
    assert Grown(p, s.program, j, l, a, t);
    if TookBefore(p, j, l, a, t) {
      var i, k :| Takes(p, i, k, a, t) && Before(i, k, j, l);
      ConflictWithOwn([], v);
      assert [] + v == v;
    }
  }

  lemma {:induction false} SameCase(p: Program, s: Progress, j: int, l: int, t: int)
    requires Removable(p, t) && DoneUpTo(p, s, j, l, t) && IsEntry(p, j, l)
    ensures Leads(s.program, j, l, t) <==> Leads(p, j, l, t)
    ensures Leads(p, j, l, t) ==> (CanTake(s.program, j, l, t) <==> !Blocked(p, j, l, t))
  {
    VirtualStays(p, s, j, l, t);
    assert SameEntry(p, s.program, j, l);
    var a, v := Entry(p, j, l).0, VirtualAction(p, t).primitives;
    if a in p.actions {
      assert Grown(p, s.program, j, l, a, t);
      ConflictWithOwn(p.actions[a].primitives, v);
      assert p.actions[a].primitives + [] == p.actions[a].primitives;
    }
  }

  lemma {:induction false} BlockedOneMore(p: Program, j: int, l: int, t: int)
    requires Removable(p, t)
    ensures BlockedBefore(p, j, l + 1, t) <==> BlockedBefore(p, j, l, t) || Blocked(p, j, l, t)
  {
    if BlockedBefore(p, j, l + 1, t) {
      var i, k :| Blocked(p, i, k, t) && Before(i, k, j, l + 1);
      assert Before(i, k, j, l) || (i == j && k == l);
    }
    if BlockedBefore(p, j, l, t) {
      var i, k :| Blocked(p, i, k, t) && Before(i, k, j, l);
      assert Before(i, k, j, l + 1);
    }
    if Blocked(p, j, l, t) {
      assert Before(j, l, j, l + 1);
    }
  }

  lemma {:induction false} TookOneMore(p: Program, j: int, l: int, a: int, t: int)
    ensures TookBefore(p, j, l + 1, a, t) <==> TookBefore(p, j, l, a, t) || Takes(p, j, l, a, t)
  {
    if TookBefore(p, j, l + 1, a, t) {
      var i, k :| Takes(p, i, k, a, t) && Before(i, k, j, l + 1);
      assert Before(i, k, j, l) || (i == j && k == l);
    }
    if TookBefore(p, j, l, a, t) {
      var i, k :| Takes(p, i, k, a, t) && Before(i, k, j, l);
      assert Before(i, k, j, l + 1);
    }
    if Takes(p, j, l, a, t) {
      assert Before(j, l, j, l + 1);
    }
  }

  lemma {:induction false} ActionsDone(p: Program, s: Progress, j: int, l: int, t: int, a: int)
    requires Removable(p, t) && IsEntry(p, j, l) && DoneUpTo(p, s, j, l, t) && a in p.actions
    requires SameShape(p, RedirectEntry(s, j, l, t).program)
    ensures Grown(p, RedirectEntry(s, j, l, t).program, j, l + 1, a, t)
  {
    SameCase(p, s, j, l, t);
    VirtualStays(p, s, j, l, t);
    TookOneMore(p, j, l, a, t);
    var v := VirtualAction(p, t).primitives;
    assert SameEntry(p, s.program, j, l) && Grown(p, s.program, j, l, a, t);
    if v == [] {
      assert p.actions[a].primitives + v == p.actions[a].primitives + [] == p.actions[a].primitives;
    }
  }

  lemma {:induction false} EntryShape(s: Progress, j: int, l: int, t: int)
    ensures SameShape(s.program, RedirectEntry(s, j, l, t).program)
    ensures SameFlags(s.program, RedirectEntry(s, j, l, t).program)
    ensures forall i, k :: IsEntry(s.program, i, k) && (i != j || k != l) ==>
              Entry(RedirectEntry(s, j, l, t).program, i, k) == Entry(s.program, i, k)
  {
  }

  lemma {:induction false} OneEntryDone(p: Program, s: Progress, j: int, l: int, next: int, t: int)
    requires Removable(p, t) && IsEntry(p, j, l) && DoneUpTo(p, s, j, l, t) && next == l + 1
    ensures DoneUpTo(p, RedirectEntry(s, j, l, t), j, next, t)
  {
    var r := RedirectEntry(s, j, l, t);
    EntryShape(s, j, l, t);
    ShapeThrough(p, s.program, r.program);
    SameCase(p, s, j, l, t);
    VirtualStays(p, s, j, l, t);
    BlockedOneMore(p, j, l, t);
    forall a | a in p.actions
      ensures Grown(p, r.program, j, next, a, t)
    {
      ActionsDone(p, s, j, l, t, a);
    }
    forall i, k | IsEntry(p, i, k) && !Before(i, k, j, next)
      ensures SameEntry(p, r.program, i, k)
    {
      assert SameEntry(p, s.program, i, k);
    }
    forall i, k | Before(i, k, j, next)
      ensures Passed(p, r, i, k, t)
    {
      if i != j || k != l {
        assert Before(i, k, j, l) && Passed(p, s, i, k, t);
      }
    }
  }

  lemma {:induction false} ShapeThrough(p: Program, q: Program, r: Program)
    requires SameShape(p, q) && SameShape(q, r)
    ensures SameShape(p, r)
  {
  }

  /** Whatever looking at one entry keeps, looking at several does. */
  lemma {:induction false} OverEntries(inv: (Progress, int) -> bool, s: Progress, j: int, n: nat, t: int)
    requires inv(s, 0)
    requires forall r, l :: 0 <= l < n && inv(r, l) ==> inv(RedirectEntry(r, j, l, t), l + 1)
    ensures inv(RedirectEntries(s, j, n, t), n)
  {
    if n > 0 {
      OverEntries(inv, s, j, n - 1, t);
    }
  }

  lemma {:induction false} EntriesDone(p: Program, s: Progress, j: int, n: nat, t: int)
    requires Removable(p, t) && DoneUpTo(p, s, j, 0, t) && n <= EntryCount(p, j)
    ensures DoneUpTo(p, RedirectEntries(s, j, n, t), j, n, t)
  {
    var inv := (r, l) => DoneUpTo(p, r, j, l, t);
    forall r, l | 0 <= l < n && inv(r, l)
      ensures inv(RedirectEntry(r, j, l, t), l + 1)
    {
      OneEntryDone(p, r, j, l, l + 1, t);
    }
    OverEntries(inv, s, j, n, t);
  }

  /** There is nothing between the last entry of a stage and the first of the next. */
  lemma {:induction false} NothingBetween(p: Program, i: int, k: int, j: int)
    requires IsStage(p, j) && IsEntry(p, i, k)
    ensures Before(i, k, j + 1, 0) <==> Before(i, k, j, EntryCount(p, j))
  {
  }

  lemma {:induction false} NextBlocked(p: Program, j: int, t: int)
    requires IsStage(p, j) && Removable(p, t)
    ensures BlockedBefore(p, j + 1, 0, t) <==> BlockedBefore(p, j, EntryCount(p, j), t)
  {
    forall i, k | Blocked(p, i, k, t)
      ensures Before(i, k, j + 1, 0) <==> Before(i, k, j, EntryCount(p, j))
    {
      NothingBetween(p, i, k, j);
    }
  }

  lemma {:induction false} NextTook(p: Program, j: int, a: int, t: int)
    requires IsStage(p, j)
    ensures TookBefore(p, j + 1, 0, a, t) <==> TookBefore(p, j, EntryCount(p, j), a, t)
  {
    forall i, k | Takes(p, i, k, a, t)
      ensures Before(i, k, j + 1, 0) <==> Before(i, k, j, EntryCount(p, j))
    {
      NothingBetween(p, i, k, j);
    }
  }

  lemma {:induction false} NextStage(p: Program, s: Progress, j: int, t: int)
    requires IsStage(p, j) && Removable(p, t) && DoneUpTo(p, s, j, EntryCount(p, j), t)
    ensures DoneUpTo(p, s, j + 1, 0, t)
  {
    NextBlocked(p, j, t);
    forall a | a in p.actions
      ensures Grown(p, s.program, j + 1, 0, a, t)
    {
      NextTook(p, j, a, t);
      assert Grown(p, s.program, j, EntryCount(p, j), a, t);
    }
    forall i, k | IsEntry(p, i, k) && !Before(i, k, j + 1, 0)
      ensures SameEntry(p, s.program, i, k)
    {
      NothingBetween(p, i, k, j);
    }
    forall i, k | Before(i, k, j + 1, 0)
      ensures Passed(p, s, i, k, t)
    {
      if Leads(s.program, i, k, t) {
        NothingBetween(p, i, k, j);
        assert Passed(p, s, i, k, t);
      }
    }
  }

  lemma {:induction false} NothingDone(p: Program, t: int)
    requires Removable(p, t)
    ensures DoneUpTo(p, Progress(p, false), 0, 0, t)
  {
    forall i, k | Before(i, k, 0, 0)
      ensures !IsEntry(p, i, k)
    {
    }
    forall a | a in p.actions
      ensures Grown(p, p, 0, 0, a, t)
    {
      assert !TookBefore(p, 0, 0, a, t);
      assert p.actions[a].primitives + [] == p.actions[a].primitives;
    }
  }

  lemma {:induction false} OverStages(inv: (Progress, int) -> bool, s: Progress, n: nat, t: int)
    requires inv(s, 0)
    requires forall r, j :: 0 <= j < n && inv(r, j) ==> inv(RedirectStage(r, j, t), j + 1)
    ensures inv(RedirectStages(s, n, t), n)
  {
    if n > 0 {
      OverStages(inv, s, n - 1, t);
    }
  }

  lemma {:induction false} StageDone(p: Program, s: Progress, j: nat, t: int)
    requires Removable(p, t) && DoneUpTo(p, s, j, 0, t) && IsStage(p, j)
    ensures DoneUpTo(p, RedirectStage(s, j, t), j + 1, 0, t)
  {
    EntriesDone(p, s, j, EntryCount(p, j), t);
    NextStage(p, RedirectStage(s, j, t), j, t);
  }

  lemma {:induction false} StagesDone(p: Program, n: nat, t: int)
    requires Removable(p, t) && n <= |p.stages|
    ensures DoneUpTo(p, RedirectStages(Progress(p, false), n, t), n, 0, t)
  {
    NothingDone(p, t);
    var inv := (r, j) => DoneUpTo(p, r, j, 0, t);
    forall r, j | 0 <= j < n && inv(r, j)
      ensures inv(RedirectStage(r, j, t), j + 1)
    {
      StageDone(p, r, j, t);
    }
    OverStages(inv, Progress(p, false), n, t);
  }

  /** No two entries that lead to the stage run the same action. */
  ghost predicate OwnActions(p: Program, t: int) {
    forall i, k, j, l :: Leads(p, i, k, t) && Leads(p, j, l, t) && SameAction(p, i, k, j, l) ==> i == j && k == l
  }

  /** A stage is removed just if it is removable, every entry that leads to it can take over what it does, and, unless
      it does nothing, no two of them do so for the same action. */
  lemma {:induction false} RemovedIff(p: Program, t: int)
    requires Kept(p, t)
    ensures IsRemoved(RemoveStage(p, t), t) <==>
            && Removable(p, t) && (forall i, k :: Leads(p, i, k, t) ==> CanTake(p, i, k, t))
            && (VirtualAction(p, t).primitives == [] || OwnActions(p, t))
  {
    if Removable(p, t) {
      var s := RedirectAll(p, t);
      StagesDone(p, |p.stages|, t);
      assert !s.program.stages[t].removed;
      BlockedIff(p, t);
    }
  }

  lemma {:induction false} BlockedIff(p: Program, t: int)
    requires Removable(p, t)
    ensures BlockedBefore(p, |p.stages|, 0, t) <==>
            !(&& (forall i, k :: Leads(p, i, k, t) ==> CanTake(p, i, k, t))
              && (VirtualAction(p, t).primitives == [] || OwnActions(p, t)))
  {
    var n := |p.stages|;
    forall i, k | Blocked(p, i, k, t)
      ensures Before(i, k, n, 0)
    {
    }
    if forall i, k :: Leads(p, i, k, t) ==> CanTake(p, i, k, t) {
      if !OwnActions(p, t) && VirtualAction(p, t).primitives != [] {
        var i, k, j, l :| Leads(p, i, k, t) && Leads(p, j, l, t) && SameAction(p, i, k, j, l) && !(i == j && k == l);
        OneIsLater(p, i, k, j, l, t);
      }
      if BlockedBefore(p, n, 0, t) {
        var i, k :| Blocked(p, i, k, t) && Before(i, k, n, 0);
        assert TookBefore(p, i, k, Entry(p, i, k).0, t);
        var j, l :| Takes(p, j, l, Entry(p, i, k).0, t) && Before(j, l, i, k);
        assert SameAction(p, i, k, j, l);
      }
    } else {
      var i, k :| Leads(p, i, k, t) && !CanTake(p, i, k, t);
      assert Blocked(p, i, k, t);
    }
  }

  lemma {:induction false} OneIsLater(p: Program, i: int, k: int, j: int, l: int, t: int)
    requires Removable(p, t) && VirtualAction(p, t).primitives != []
    requires Leads(p, i, k, t) && Leads(p, j, l, t) && SameAction(p, i, k, j, l) && !(i == j && k == l)
    requires CanTake(p, i, k, t) && CanTake(p, j, l, t)
    ensures Blocked(p, i, k, t) || Blocked(p, j, l, t)
  {
    var a := Entry(p, i, k).0;
    assert Takes(p, i, k, a, t) && Takes(p, j, l, a, t);
    assert Before(i, k, j, l) || Before(j, l, i, k);
  }

  // ----- from stage to stage

  lemma {:induction false} RedirectKeepsPlace(g: Program, p: Program, t: int)
    requires AtStage(g, p, t) && Removable(g, t)
    ensures AtStage(g, RedirectAll(p, t).program, t)
  {
    var inv := (r: Progress, j: int) => AtStage(g, r.program, t);
    forall r, j | 0 <= j < |p.stages| && inv(r, j)
      ensures inv(RedirectStage(r, j, t), j + 1)
    {
      EntriesKeepPlace(g, r, j, t);
    }
    OverStages(inv, Progress(p, false), |p.stages|, t);
  }

  lemma {:induction false} EntriesKeepPlace(g: Program, s: Progress, j: nat, t: int)
    requires AtStage(g, s.program, t) && Removable(g, t)
    ensures AtStage(g, RedirectStage(s, j, t).program, t)
  {
    var n := EntryCount(s.program, j);
    var inv := (r: Progress, l: int) => AtStage(g, r.program, t);
    forall r, l | 0 <= l < n && inv(r, l)
      ensures inv(RedirectEntry(r, j, l, t), l + 1)
    {
      EntryKeepsPlace(g, r, j, l, t);
    }
    OverEntries(inv, s, j, n, t);
  }

  /** After a stage has been looked at without conflict none leads to it. */
  lemma {:induction false} NoneLeads(g: Program, p: Program, t: int)
    requires AtStage(g, p, t) && Removable(g, t) && !RedirectAll(p, t).conflict
    ensures forall i, k :: !Leads(RedirectAll(p, t).program, i, k, t)
  {
    var s := RedirectAll(p, t);
    StagesDone(p, |p.stages|, t);
    forall i, k
      ensures !Leads(s.program, i, k, t)
    {
      if Leads(s.program, i, k, t) {
        assert Before(i, k, |p.stages|, 0) && Passed(p, s, i, k, t);
      }
    }
  }

  lemma {:induction false} StageKeepsPlace(g: Program, p: Program, t: int)
    requires AtStage(g, p, t) && IsStage(g, t)
    ensures AtStage(g, RemoveStage(p, t), t + 1)
  {
    if Removable(p, t) {
      RedirectKeepsPlace(g, p, t);
      Onward(g, RedirectAll(p, t).program, t);
      if !RedirectAll(p, t).conflict {
        NoneLeads(g, p, t);
      }
    } else {
      Onward(g, p, t);
    }
  }

  lemma {:induction false} Onward(g: Program, p: Program, t: int)
    requires AtStage(g, p, t) && IsStage(g, t)
    ensures AtStage(g, p, t + 1)
    ensures Removable(g, t) && (forall i, k :: !Leads(p, i, k, t)) ==> AtStage(g, MarkRemoved(p, t), t + 1)
  {
    forall i | Removable(g, i) && (Removable(g, Next(g, i)) ==> Next(g, i) > t + 1)
      ensures Pending(g, p, i)
    {
    }
    if Removable(g, t) && forall i, k :: !Leads(p, i, k, t) {
      var r := MarkRemoved(p, t);
      forall i, k, x | Leads(r, i, k, x)
        ensures !IsRemoved(r, x)
      {
        assert Leads(p, i, k, x);
      }
      forall i, k | IsEntry(g, i, k)
        ensures Follows(g, r, i, k)
      {
        assert Follows(g, p, i, k);
      }
      forall i | IsRemoved(r, i)
        ensures i < t + 1 && Removable(g, i)
      {
        assert i == t || IsRemoved(p, i);
      }
      forall i | Removable(g, i) && (Removable(g, Next(g, i)) ==> Next(g, i) > t + 1)
        ensures Pending(g, r, i)
      {
        assert Pending(g, p, i);
      }
    }
  }

  lemma {:induction false} StagesRemoved(g: Program, n: nat)
    requires Orderly(g) && n <= |g.stages|
    ensures AtStage(g, RemoveStages(g, n), n)
  {
    if n == 0 {
      AtFirst(g);
    } else {
      StagesRemoved(g, n - 1);
      StageKeepsPlace(g, RemoveStages(g, n - 1), n - 1);
    }
  }

  // ----- actions with parameters

  /** The only action of the stage takes parameters. */
  predicate TakesParameters(g: Program, t: int) {
    && 0 <= t < |g.stages| && g.stages[t].virtualAction.Some?
    && g.stages[t].virtualAction.value.0 in g.actions
    && g.actions[g.stages[t].virtualAction.value.0].parameterNum > 0
  }

  /** Such a stage is left, and an entry (i, k) that leads to it still does. */
  ghost predicate StillThere(g: Program, p: Program, t: int, i: int, k: int) {
    && SameShape(g, p) && !IsRemoved(p, t)
    && (Leads(g, i, k, t) ==> IsEntry(p, i, k) && p.stages[i].actionProc[k].1 == t)
  }

  lemma {:induction false} StillThereEntry(g: Program, s: Progress, t: int, i: int, k: int, j: int, l: int, u: int)
    requires TakesParameters(g, t) && StillThere(g, s.program, t, i, k)
    ensures StillThere(g, RedirectEntry(s, j, l, u).program, t, i, k)
  {
    EntryShape(s, j, l, u);
    ShapeThrough(g, s.program, RedirectEntry(s, j, l, u).program);
  }

  lemma {:induction false} StillThereStage(g: Program, s: Progress, t: int, i: int, k: int, j: nat, u: int)
    requires TakesParameters(g, t) && StillThere(g, s.program, t, i, k)
    ensures StillThere(g, RedirectStage(s, j, u).program, t, i, k)
  {
    var n := EntryCount(s.program, j);
    var inv := (r: Progress, l: int) => StillThere(g, r.program, t, i, k);
    forall r, l | 0 <= l < n && inv(r, l)
      ensures inv(RedirectEntry(r, j, l, u), l + 1)
    {
      StillThereEntry(g, r, t, i, k, j, l, u);
    }
    OverEntries(inv, s, j, n, u);
  }

  lemma {:induction false} StillThereTurn(g: Program, p: Program, t: int, i: int, k: int, u: int)
    requires TakesParameters(g, t) && StillThere(g, p, t, i, k)
    ensures StillThere(g, RemoveStage(p, u), t, i, k)
  {
    var inv := (r: Progress, j: int) => StillThere(g, r.program, t, i, k);
    forall r, j | 0 <= j < |p.stages| && inv(r, j)
      ensures inv(RedirectStage(r, j, u), j + 1)
    {
      StillThereStage(g, r, t, i, k, j, u);
    }
    OverStages(inv, Progress(p, false), |p.stages|, u);
  }

  /** A stage whose only action takes parameters cannot be removed, and nothing is redirected past it. */
  lemma {:induction false} ParametersStay(g: Program, n: nat, t: int, i: int, k: int)
    requires TakesParameters(g, t) && !g.stages[t].removed
    ensures StillThere(g, RemoveStages(g, n), t, i, k)
  {
    if n > 0 {
      ParametersStay(g, n - 1, t, i, k);
      StillThereTurn(g, RemoveStages(g, n - 1), t, i, k, n - 1);
    }
  }

  /** The assignment is one of an action that takes no parameters. */
  ghost predicate NeedsNone(g: Program, x: Assign) {
    exists b :: b in g.actions && g.actions[b].parameterNum == 0 && x in g.actions[b].primitives
  }

  /** To each action only such assignments have been added, behind its own. */
  ghost predicate AddsNone(g: Program, p: Program) {
    && SameShape(g, p)
    && forall a :: a in g.actions ==>
         && g.actions[a].primitives <= p.actions[a].primitives
         && forall x :: x in p.actions[a].primitives[|g.actions[a].primitives|..] ==> NeedsNone(g, x)
  }

  /** What a removable stage does, with all that was added, needs no parameters. */
  lemma {:induction false} VirtualNeedsNone(g: Program, p: Program, u: int, x: Assign)
    requires AddsNone(g, p) && Removable(p, u) && x in VirtualAction(p, u).primitives
    ensures NeedsNone(g, x)
  {
    var a := p.stages[u].virtualAction.value.0;
    var own := g.actions[a].primitives;
    assert p.actions[a].primitives == own + p.actions[a].primitives[|own|..];
    assert a in g.actions && g.actions[a].parameterNum == 0;
  }

  lemma {:induction false} AddsNoneEntry(g: Program, s: Progress, j: int, l: int, u: int)
    requires AddsNone(g, s.program)
    ensures AddsNone(g, RedirectEntry(s, j, l, u).program)
  {
    var p, r := s.program, RedirectEntry(s, j, l, u).program;
    EntryShape(s, j, l, u);
    ShapeThrough(g, p, r);
    if Leads(p, j, l, u) && CanTake(p, j, l, u) {
      var a, v := Entry(p, j, l).0, VirtualAction(p, u).primitives;
      var own := |g.actions[a].primitives|;
      assert r.actions[a].primitives[own..] == p.actions[a].primitives[own..] + v;
      forall x | x in v
        ensures NeedsNone(g, x)
      {
        VirtualNeedsNone(g, p, u, x);
      }
    }
  }

  lemma {:induction false} AddsNoneStage(g: Program, s: Progress, j: nat, u: int)
    requires AddsNone(g, s.program)
    ensures AddsNone(g, RedirectStage(s, j, u).program)
  {
    var n := EntryCount(s.program, j);
    var inv := (r: Progress, l: int) => AddsNone(g, r.program);
    forall r, l | 0 <= l < n && inv(r, l)
      ensures inv(RedirectEntry(r, j, l, u), l + 1)
    {
      AddsNoneEntry(g, r, j, l, u);
    }
    OverEntries(inv, s, j, n, u);
  }

  lemma {:induction false} AddsNoneTurn(g: Program, p: Program, u: int)
    requires AddsNone(g, p)
    ensures AddsNone(g, RemoveStage(p, u))
  {
    var inv := (r: Progress, j: int) => AddsNone(g, r.program);
    forall r, j | 0 <= j < |p.stages| && inv(r, j)
      ensures inv(RedirectStage(r, j, u), j + 1)
    {
      AddsNoneStage(g, r, j, u);
    }
    OverStages(inv, Progress(p, false), |p.stages|, u);
  }

  /** Whatever is appended to actions comes from actions that take no parameters. */
  lemma {:induction false} AppendedNeedsNone(g: Program, n: nat)
    ensures AddsNone(g, RemoveStages(g, n))
  {
    if n > 0 {
      AppendedNeedsNone(g, n - 1);
      AddsNoneTurn(g, RemoveStages(g, n - 1), n - 1);
    }
  }

  // ----- no field is set twice

  /** No two assignments set the same field: their order does not matter then. */
  ghost predicate SetsOnce(x: IpsaAction) {
    forall i, j :: 0 <= i < j < |x.primitives| ==> x.primitives[i].lvalue != x.primitives[j].lvalue
  }

  ghost predicate AllSetOnce(p: Program) {
    forall a :: a in p.actions ==> SetsOnce(p.actions[a])
  }

  lemma {:induction false} AppendedSetsOnce(x: IpsaAction, y: IpsaAction)
    requires SetsOnce(x) && SetsOnce(y) && !Conflict(x.primitives, y.primitives)
    ensures SetsOnce(Appended(x, y))
  {
    var all, n := Appended(x, y).primitives, |x.primitives|;
    forall i, j | 0 <= i < j < |all|
      ensures all[i].lvalue != all[j].lvalue
    {
      if i < n <= j {
        assert x.primitives[i].lvalue != y.primitives[j - n].lvalue;
      }
    }
  }

  lemma {:induction false} EntrySetsOnce(s: Progress, j: int, l: int, u: int)
    requires AllSetOnce(s.program)
    ensures AllSetOnce(RedirectEntry(s, j, l, u).program)
  {
    var p := s.program;
    if Leads(p, j, l, u) && CanTake(p, j, l, u) {
      var a, b := Entry(p, j, l).0, p.stages[u].virtualAction.value.0;
      assert a in p.actions && SetsOnce(p.actions[a]);
      assert b in p.actions && SetsOnce(p.actions[b]);
      AppendedSetsOnce(p.actions[a], p.actions[b]);
    }
  }

  lemma {:induction false} StageSetsOnce(s: Progress, j: nat, u: int)
    requires AllSetOnce(s.program)
    ensures AllSetOnce(RedirectStage(s, j, u).program)
  {
    var n := EntryCount(s.program, j);
    var inv := (r: Progress, l: int) => AllSetOnce(r.program);
    forall r, l | 0 <= l < n && inv(r, l)
      ensures inv(RedirectEntry(r, j, l, u), l + 1)
    {
      EntrySetsOnce(r, j, l, u);
    }
    OverEntries(inv, s, j, n, u);
  }

  lemma {:induction false} TurnSetsOnce(p: Program, u: int)
    requires AllSetOnce(p)
    ensures AllSetOnce(RemoveStage(p, u))
  {
    var inv := (r: Progress, j: int) => AllSetOnce(r.program);
    forall r, j | 0 <= j < |p.stages| && inv(r, j)
      ensures inv(RedirectStage(r, j, u), j + 1)
    {
      StageSetsOnce(r, j, u);
    }
    OverStages(inv, Progress(p, false), |p.stages|, u);
  }

  /** If no action sets a field twice, none does afterwards. */
  lemma {:induction false} RemovalSetsOnce(g: Program, n: nat)
    requires AllSetOnce(g)
    ensures AllSetOnce(RemoveStages(g, n))
  {
    if n > 0 {
      RemovalSetsOnce(g, n - 1);
      TurnSetsOnce(RemoveStages(g, n - 1), n - 1);
    }
  }

  /** An entry cannot take a stage over only if its action does not exist or a field would be set by both. */
  lemma {:induction false} CannotTakeIff(p: Program, i: int, k: int, t: int)
    requires 0 <= i < |p.stages| && 0 <= k < |p.stages[i].actionProc| && Removable(p, t)
    ensures !CanTake(p, i, k, t) <==>
            var a := p.stages[i].actionProc[k].0;
            || a !in p.actions
            || exists x, y :: x in p.actions[a].primitives && y in VirtualAction(p, t).primitives
                              && x.lvalue == y.lvalue
  {
    var a := Entry(p, i, k).0;
    if a in p.actions {
      var xs, ys := p.actions[a].primitives, VirtualAction(p, t).primitives;
      if x, y :| x in xs && y in ys && x.lvalue == y.lvalue {
        var j :| 0 <= j < |xs| && xs[j] == x;
        var l :| 0 <= l < |ys| && ys[l] == y;
        assert xs[j].lvalue == ys[l].lvalue;
      }
      if j, l :| 0 <= j < |xs| && 0 <= l < |ys| && xs[j].lvalue == ys[l].lvalue {
        assert xs[j] in xs && ys[l] in ys;
      }
    }
  }
}
