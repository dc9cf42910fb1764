/** rP4-compiler/rp4c/ipsa_processor_manager.h and ipsa_action_manager.h: removing empty stages and renumbering
    the others. */
module StageRemoval {
  import opened EmptyStages
  import opened StageNumbers

  lemma {:induction false} ConflictIff(xs: seq<Assign>, ys: seq<Assign>)
    ensures Conflict(xs, ys) <==> exists x, y :: x in xs && y in ys && x.lvalue == y.lvalue
  {
    if x, y :| x in xs && y in ys && x.lvalue == y.lvalue {
      var i :| 0 <= i < |xs| && xs[i] == x;
      var j :| 0 <= j < |ys| && ys[j] == y;
      assert xs[i].lvalue == ys[j].lvalue;
    }
    if i, j :| 0 <= i < |xs| && 0 <= j < |ys| && xs[i].lvalue == ys[j].lvalue {
      assert xs[i] in xs && ys[j] in ys;
    }
  }

  /** `map::operator[]`: zero if there is nothing. */
  function At(m: map<int, int>, x: int): int {
    if x in m then m[x] else 0
  }

  method CanConcatLists(xs: seq<Assign>, ys: seq<Assign>) returns (ok: bool)
    ensures ok <==> !Conflict(xs, ys)
  {
    for i := 0 to |xs|
      invariant forall i', j' :: 0 <= i' < i && 0 <= j' < |ys| ==> xs[i'].lvalue != ys[j'].lvalue
    {
      for j := 0 to |ys|
        invariant forall j' :: 0 <= j' < j ==> xs[i].lvalue != ys[j'].lvalue
      {
        if xs[i].lvalue == ys[j].lvalue {
          return false;
        }
      }
    }
    return true;
  }

  class IpsaProcessorManager {
    var stages: seq<LogicalStage>
    var actions: map<int, IpsaAction>

    ghost function Now(): Program
      reads this
    {
      Program(stages, actions)
    }

    constructor (g: Program)
      ensures Now() == g
    {
      stages, actions := g.stages, g.actions;
    }

    /** Appends the assignments of `next` to action `id`, unless both set the same field. */
    method ConcatAction(id: int, next: IpsaAction) returns (ok: bool)
      modifies this`actions
      ensures ok <==> id in old(actions) && !Conflict(old(actions)[id].primitives, next.primitives)
      ensures ok <==> id in old(actions) && forall x, y :: x in old(actions)[id].primitives && y in next.primitives ==>
        x.lvalue != y.lvalue
      ensures actions == if ok then old(actions)[id := Appended(old(actions)[id], next)] else old(actions)
    {
      ok := false;
      if id in actions {
        ConflictIff(actions[id].primitives, next.primitives);
        ok := CanConcatLists(actions[id].primitives, next.primitives);
        if ok {
          actions := actions[id := Appended(actions[id], next)];
        }
      }
    }

    /** One entry, if it leads to the stage. */
    method Redirect(t: int, action: int, next: int, i: int, k: int, conflict0: bool) returns (conflict: bool)
      requires IsEntry(Now(), i, k) && !stages[i].removed && Removable(Now(), t)
      requires stages[t].virtualAction.value == (action, next)
      modifies this
      ensures Progress(Now(), conflict) == RedirectEntry(Progress(old(Now()), conflict0), i, k, t)
      ensures SameShape(old(Now()), Now()) && SameFlags(old(Now()), Now())
    {
      conflict := conflict0;
      if stages[i].actionProc[k].1 == t {
        var prevAction := stages[i].actionProc[k].0;
        var ok := ConcatAction(prevAction, actions[action]);
        if ok {
          var entries := stages[i].actionProc[k := (prevAction, next)];
          stages := stages[i := stages[i].(actionProc := entries)];
        } else {
          conflict := true;
        }
      }
    }

    /** The entries of one stage. */
    method RedirectIn(t: int, action: int, next: int, i: int, conflict0: bool) returns (conflict: bool)
      requires IsStage(Now(), i) && !stages[i].removed && Removable(Now(), t)
      requires stages[t].virtualAction.value == (action, next)
      modifies this
      ensures Progress(Now(), conflict) == RedirectStage(Progress(old(Now()), conflict0), i, t)
      ensures SameShape(old(Now()), Now()) && SameFlags(old(Now()), Now())
    {
      conflict := conflict0;
      var k := 0;
      ghost var before := Now();
      while k < |stages[i].actionProc|
        invariant IsStage(Now(), i) && SameShape(before, Now()) && SameFlags(before, Now())
        invariant 0 <= k <= EntryCount(before, i)
        invariant Progress(Now(), conflict) == RedirectEntries(Progress(before, conflict0), i, k, t)
        decreases EntryCount(before, i) - k
      {
        conflict := Redirect(t, action, next, i, k, conflict);
        k := k + 1;
      }
    }

    /** Lets the entries that lead to stage `t` take over its action, where no field is set twice. */
    method RedirectTo(t: int, action: int, next: int) returns (conflict: bool)
      requires Removable(Now(), t) && stages[t].virtualAction.value == (action, next)
      modifies this
      ensures Progress(Now(), conflict) == RedirectAll(old(Now()), t)
      ensures SameShape(old(Now()), Now()) && SameFlags(old(Now()), Now())
    {
      conflict := false;
      ghost var before := Now();
      var i := 0;
      while i < |stages|
        invariant 0 <= i <= |stages| && SameShape(before, Now()) && SameFlags(before, Now())
        invariant Progress(Now(), conflict) == RedirectStages(Progress(before, false), i, t)
        decreases |before.stages| - i
      {
        ghost var s := Progress(Now(), conflict);
        if !stages[i].removed {
          conflict := RedirectIn(t, action, next, i, conflict);
        } else {
          NothingToRedirect(s, i, EntryCount(s.program, i), t);
        }
        i := i + 1;
      }
    }

    /** One stage of the outer loop. */
    method RemoveEmptyStage(t: int) returns (removed: bool)
      requires IsStage(Now(), t) && VirtualsExist(Now())
      modifies this
      ensures Now() == RemoveStage(old(Now()), t) && SameShape(old(Now()), Now())
      ensures removed <==> Removable(old(Now()), t) && !RedirectAll(old(Now()), t).conflict
      ensures forall i :: IsRemoved(Now(), i) <==> IsRemoved(old(Now()), i) || (removed && i == t)
    {
      removed := false;
      if stages[t].virtualAction.Some? {
        var (action, next) := stages[t].virtualAction.value;
        if actions[action].parameterNum == 0 {
          var conflict := RedirectTo(t, action, next);
          removed := !conflict;
          if removed {
            stages := stages[t := stages[t].(removed := true)];
          }
        }
      }
    }

    /** The first part of `initializeStages`: every stage in turn, and where those removed lead. */
    method RemoveEmptyStages() returns (gotoMaps: map<int, int>)
      requires Loaded(Now())
      modifies this
      ensures Now() == Remaining(old(Now())) && Numbered(Now()) && LeadsBy(Now(), gotoMaps)
    {
      ghost var before := Now();
      gotoMaps := map[];
      var t := 0;
      while t < |stages|
        invariant 0 <= t <= |stages| && SameShape(before, Now())
        invariant Now() == RemoveStages(before, t) && LeadsBy(Now(), gotoMaps)
        decreases |before.stages| - t
      {
        var removed := RemoveEmptyStage(t);
        if removed {
          gotoMaps := gotoMaps[stages[t].id := stages[t].virtualAction.value.1];
        }
        t := t + 1;
      }
    }

    method NumberKept() returns (reorderMap: map<int, int>)
      requires Numbered(Now())
      ensures KeptNumbered(Now(), reorderMap, |stages|)
    {
      reorderMap := map[-1 := -1];
      var globalStageId := 0;
      for i := 0 to |stages|
        invariant KeptNumbered(Now(), reorderMap, i) && globalStageId == Rank(Now(), i)
      {
        if !stages[i].removed {
          reorderMap := reorderMap[stages[i].id := globalStageId];
          globalStageId := globalStageId + 1;
        }
      }
    }

    /** Stage `i`, if removed, is overwritten by the next on its way as long as that is removed as well; then it gets
        the new number of the kept one. */
    method FollowRemoved(ghost p: Program, gotoMaps: map<int, int>, i: int, reorderMap0: map<int, int>)
        returns (reorderMap: map<int, int>)
      requires Numbered(p) && LeadsOn(p) && LeadsBy(p, gotoMaps) && IsStage(p, i)
      requires OverwrittenUpTo(p, stages, i) && NumbersUpTo(p, reorderMap0, i)
      modifies this`stages
      ensures OverwrittenUpTo(p, stages, i + 1) && NumbersUpTo(p, reorderMap, i + 1)
    {
      reorderMap := reorderMap0;
      ghost var c, d: nat := i, |p.stages|;
      while stages[i].removed
        invariant IsStage(p, c) && OverwrittenBut(p, stages, i) && stages[i] == p.stages[c]
        invariant OnItsWay(p, i, c, d)
        invariant NumbersUpTo(p, reorderMap, i)
        decreases d
      {
        var y := gotoMaps[stages[i].id];
        if stages[y].removed {
          c, d := Further(p, stages, i, c, d);
          stages := stages[i := stages[y]];
        } else {
          EndOfWay(p, stages, i, c, d, reorderMap);
          if stages[i].id !in reorderMap {
            reorderMap := reorderMap[stages[i].id := reorderMap[stages[y].id]];
          }
          return;
        }
      }
    }

    /** `reorderStages` */
    method ReorderStages(procProc: map<int, int>)
      modifies this`stages
      ensures |stages| == |old(stages)|
      ensures forall i :: 0 <= i < |stages| ==> stages[i] == Renumbered(old(stages)[i], procProc)
    {
      for i := 0 to |stages|
        invariant |stages| == |old(stages)|
        invariant forall j :: 0 <= j < i ==> stages[j] == Renumbered(old(stages)[j], procProc)
        invariant forall j :: i <= j < |stages| ==> stages[j] == old(stages)[j]
      {
        var entries := ReorderEntries(stages[i].actionProc, procProc);
        stages := stages[i := stages[i].(id := At(procProc, stages[i].id), actionProc := entries)];
      }
    }

    /** The second part of `initializeStages`. */
    method Reorder(gotoMaps: map<int, int>)
      requires Numbered(Now()) && LeadsOn(Now()) && LeadsBy(Now(), gotoMaps)
      modifies this`stages
      ensures Now() == Reordered(old(Now()))
    {
      ghost var p := Now();
      var reorderMap := NumberKept();
      NoneFollowed(p, reorderMap);
      var i := 0;
      while i < |stages|
        invariant 0 <= i <= |stages| == |p.stages|
        invariant OverwrittenUpTo(p, stages, i) && NumbersUpTo(p, reorderMap, i)
      {
        reorderMap := FollowRemoved(p, gotoMaps, i, reorderMap);
        i := i + 1;
      }
      ghost var overwritten := stages;
      ReorderStages(reorderMap);
      RenumberedIsReordered(p, overwritten, reorderMap, Now());
    }

    /** Removal and renumbering. */
    method InitializeStages()
      requires Loaded(Now()) && LeadsOn(Remaining(Now()))
      modifies this
      ensures LeadsOn(Remaining(old(Now()))) && Now() == Reordered(Remaining(old(Now())))
      ensures forall t :: TakesParameters(old(Now()), t) ==> LedToStill(old(Now()), Now(), t)
      ensures AddedNeedNone(old(Now()), Now())
      ensures AllSetOnce(old(Now())) ==> AllSetOnce(Now())
    {
      ghost var g := Now();
      var gotoMaps := RemoveEmptyStages();
      Reorder(gotoMaps);
      AddedInTheEnd(g);
      if AllSetOnce(g) {
        RemovalSetsOnce(g, |g.stages|);
      }
      forall t | TakesParameters(g, t)
        ensures LedToStill(g, Now(), t)
      {
        ParametersKeepStage(g, t);
      }
    }
  }

  /** Entries of a removed stage are left alone. */
  lemma {:induction false} NothingToRedirect(s: Progress, i: int, n: nat, t: int)
    requires IsRemoved(s.program, i)
    ensures RedirectEntries(s, i, n, t) == s
  {
    if n > 0 {
      NothingToRedirect(s, i, n - 1, t);
    }
  }

  /** The action of a stage with only one is found. */
  ghost predicate VirtualsExist(p: Program) {
    forall i :: IsStage(p, i) && p.stages[i].virtualAction.Some? ==> p.stages[i].virtualAction.value.0 in p.actions
  }

  /** The map says where removed stages lead. */
  ghost predicate LeadsBy(p: Program, gotoMaps: map<int, int>) {
    forall t :: IsRemoved(p, t) ==> Removable(p, t) && t in gotoMaps && gotoMaps[t] == Next(p, t)
  }

  /** The kept ones among the first `n` stages have their new numbers, the others none. */
  ghost predicate KeptNumbered(p: Program, m: map<int, int>, n: int) {
    && -1 in m && m[-1] == -1
    && (forall x :: x in m && x != -1 ==> Kept(p, x) && x < n)
    && (forall x :: Kept(p, x) && x < n ==> x in m && m[x] == Rank(p, x))
  }

  /** So have the last removed ones on the way of the first `n`. */
  ghost predicate NumbersUpTo(p: Program, m: map<int, int>, n: int)
    requires LeadsOn(p)
  {
    && -1 in m && m[-1] == -1
    && (forall x :: x in m ==> m[x] == NewNumber(p, x))
    && (forall x :: x in m && x != -1 ==> Kept(p, x) || (IsRemoved(p, x) && !IsRemoved(p, Next(p, x))))
    && (forall x :: Kept(p, x) ==> x in m)
    && (forall i :: IsRemoved(p, i) && i < n ==> Last(p, i) in m)
  }

  ghost predicate OverwrittenBut(p: Program, stages: seq<LogicalStage>, n: int)
    requires LeadsOn(p)
  {
    && |stages| == |p.stages|
    && (forall i :: 0 <= i < n && i < |stages| ==> stages[i] == Overwritten(p, i))
    && (forall i :: 0 <= i < |stages| && n < i ==> stages[i] == p.stages[i])
  }

  ghost predicate OverwrittenUpTo(p: Program, stages: seq<LogicalStage>, n: int)
    requires LeadsOn(p)
  {
    OverwrittenBut(p, stages, n) && (0 <= n < |stages| ==> stages[n] == p.stages[n])
  }

  lemma {:induction false} NoneFollowed(p: Program, m: map<int, int>)
    requires Numbered(p) && LeadsOn(p) && KeptNumbered(p, m, |p.stages|)
    ensures OverwrittenUpTo(p, p.stages, 0) && NumbersUpTo(p, m, 0)
  {
  }

  function RenumberedEntry(e: (int, int), procProc: map<int, int>): (int, int) {
    (e.0, At(procProc, e.1))
  }

  function RenumberedEntries(entries: seq<(int, int)>, procProc: map<int, int>): (r: seq<(int, int)>)
    ensures |r| == |entries| && forall k :: 0 <= k < |r| ==> r[k] == RenumberedEntry(entries[k], procProc)
  {
    seq(|entries|, k requires 0 <= k < |entries| => RenumberedEntry(entries[k], procProc))
  }

  function Renumbered(stage: LogicalStage, procProc: map<int, int>): LogicalStage {
    stage.(id := At(procProc, stage.id), actionProc := RenumberedEntries(stage.actionProc, procProc))
  }

  method ReorderEntries(entries: seq<(int, int)>, procProc: map<int, int>) returns (r: seq<(int, int)>)
    ensures r == RenumberedEntries(entries, procProc)
  {
    r := entries;
    for i := 0 to |r|
      invariant |r| == |entries| && forall k :: 0 <= k < i ==> r[k] == RenumberedEntry(entries[k], procProc)
      invariant forall k :: i <= k < |r| ==> r[k] == entries[k]
    {
      r := r[i := RenumberedEntry(r[i], procProc)];
    }
  }

  lemma {:induction false} AllNumbered(p: Program, m: map<int, int>, x: int)
    requires LeadsOn(p) && NumbersUpTo(p, m, |p.stages|)
    ensures At(m, x) == NewNumber(p, x)
  {
    if x !in m && IsRemoved(p, x) {
      assert Last(p, x) in m;
    }
  }

  lemma {:induction false} RenumberedStage(p: Program, m: map<int, int>, stage: LogicalStage)
    requires LeadsOn(p) && NumbersUpTo(p, m, |p.stages|)
    ensures Renumbered(stage, m) == NewStage(p, stage)
  {
    AllNumbered(p, m, stage.id);
    forall k | 0 <= k < |stage.actionProc|
      ensures RenumberedEntry(stage.actionProc[k], m) == NewEntry(p, stage.actionProc[k])
    {
      AllNumbered(p, m, stage.actionProc[k].1);
    }
    assert RenumberedEntries(stage.actionProc, m) == NewEntries(p, stage.actionProc);
  }

  lemma {:induction false} RenumberedIsReordered(p: Program, overwritten: seq<LogicalStage>, m: map<int, int>,
                                                 q: Program)
    requires LeadsOn(p) && NumbersUpTo(p, m, |p.stages|) && OverwrittenUpTo(p, overwritten, |p.stages|)
    requires q.actions == p.actions && |q.stages| == |overwritten|
    requires forall i :: 0 <= i < |q.stages| ==> q.stages[i] == Renumbered(overwritten[i], m)
    ensures q == Reordered(p)
  {
    forall i | 0 <= i < |q.stages|
      ensures q.stages[i] == Reordered(p).stages[i]
    {
      assert IsStage(p, i);
      RenumberedStage(p, m, overwritten[i]);
    }
  }

  /** Following from stage `i` one comes to `c`, with `d` steps left. */
  ghost predicate OnItsWay(p: Program, i: int, c: int, d: nat)
    requires LeadsOn(p) && IsStage(p, i) && IsStage(p, c)
  {
    && (p.stages[c].removed <==> p.stages[i].removed)
    && (!p.stages[i].removed ==> c == i)
    && (p.stages[i].removed ==> Last(p, c) == Last(p, i) && EndsIn(p, c, d))
    && (forall n: nat :: EndsIn(p, i, n) ==> EndsIn(p, c, n))
  }

  /** The stage copied next is further on the way, also if it has been overwritten before. */
  ghost method Further(p: Program, stages: seq<LogicalStage>, i: int, c: int, d: nat) returns (c': int, d': nat)
    requires Numbered(p) && LeadsOn(p) && IsStage(p, i) && IsStage(p, c) && p.stages[c].removed
    requires OverwrittenBut(p, stages, i) && stages[i] == p.stages[c] && OnItsWay(p, i, c, d)
    requires stages[Next(p, c)].removed
    ensures IsStage(p, c') && stages[Next(p, c)] == p.stages[c'] && OnItsWay(p, i, c', d') && d' < d
  {
    var y := Next(p, c);
    LastIsOn(p, c);
    d' := d - 1;
    c' := if y < i then Last(p, y) else if y == i then c else y;
    forall n: nat | EndsIn(p, i, n)
      ensures EndsIn(p, c', n)
    {
      FurtherEnds(p, i, c, n);
    }
    FurtherEnds(p, i, c, d);
  }

  lemma {:induction false} FurtherEnds(p: Program, i: int, c: int, n: nat)
    requires LeadsOn(p) && IsStage(p, i) && IsStage(p, c) && p.stages[c].removed && EndsIn(p, c, n)
    ensures n > 0 && IsStage(p, Next(p, c)) && EndsIn(p, Next(p, c), n - 1) && EndsIn(p, Next(p, c), n)
    ensures IsRemoved(p, Next(p, c)) ==> EndsIn(p, Last(p, Next(p, c)), n - 1) && EndsIn(p, Last(p, Next(p, c)), n)
  {
    var y := Next(p, c);
    EndsLater(p, y, n - 1, n);
    if IsRemoved(p, y) {
      LastEndsToo(p, y, n - 1);
      LastEndsToo(p, y, n);
    }
  }

  /** A removed stage that leads to a kept one: there its number is known, and it is the number to remember. */
  lemma {:induction false} EndOfWay(p: Program, stages: seq<LogicalStage>, i: int, c: int, d: nat, m: map<int, int>)
    requires Numbered(p) && LeadsOn(p) && IsStage(p, i) && IsStage(p, c) && p.stages[c].removed
    requires OverwrittenBut(p, stages, i) && stages[i] == p.stages[c] && OnItsWay(p, i, c, d)
    requires NumbersUpTo(p, m, i) && !stages[Next(p, c)].removed
    ensures var y, id := Next(p, c), stages[i].id;
      && id == c && stages[y].id in m
      && OverwrittenUpTo(p, stages, i + 1)
      && NumbersUpTo(p, if id in m then m else m[id := m[stages[y].id]], i + 1)
  {
    var y := Next(p, c);
    assert y != i && (y < i ==> stages[y] == Overwritten(p, y));
    assert Kept(p, y) && stages[y] == p.stages[y];
    LastIsOn(p, c);
    assert Overwritten(p, i) == p.stages[c] && Last(p, i) == c;
    NumbersOn(p, m, i, c);
  }

  lemma {:induction false} NumbersOn(p: Program, m: map<int, int>, i: int, c: int)
    requires Numbered(p) && LeadsOn(p) && IsStage(p, i) && NumbersUpTo(p, m, i)
    requires IsRemoved(p, i) && IsRemoved(p, c) && Last(p, i) == c && Kept(p, Next(p, c))
    ensures NumbersUpTo(p, if c in m then m else m[c := m[Next(p, c)]], i + 1)
  {
  }
}
