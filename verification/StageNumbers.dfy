/** rP4-compiler/rp4c/ipsa_processor_manager.h: renumbering the stages that are kept, and what the removal as a whole
    does to runs. */
module StageNumbers {
  import opened EmptyStages
  import opened StageRuns

  /** From stage `t` one comes to a kept one in `n` steps, passing removed ones that led to a stage. */
  ghost predicate EndsIn(p: Program, t: int, n: nat)
    decreases n
  {
    IsStage(p, t) && (p.stages[t].removed ==> n > 0 && Removable(p, t) && EndsIn(p, Next(p, t), n - 1))
  }

  /** Following where removed stages led ends at a kept one. */
  ghost predicate LeadsOn(p: Program) {
    forall t :: IsRemoved(p, t) ==> Removable(p, t) && IsStage(p, Next(p, t)) && EndsIn(p, t, |p.stages|)
  }

  lemma {:induction false} EndsLater(p: Program, t: int, n: nat, m: nat)
    requires EndsIn(p, t, n) && n <= m
    ensures EndsIn(p, t, m)
    ensures IsRemoved(p, t) ==> LastIn(p, t, m) == LastIn(p, t, n)
    decreases n
  {
    if p.stages[t].removed {
      EndsLater(p, Next(p, t), n - 1, m - 1);
    }
  }

  ghost function LastIn(p: Program, t: int, n: nat): (r: int)
    requires EndsIn(p, t, n) && IsRemoved(p, t)
    ensures IsRemoved(p, r) && Removable(p, r) && IsStage(p, Next(p, r)) && !IsRemoved(p, Next(p, r))
    decreases n
  {
    assert EndsIn(p, Next(p, t), n - 1);
    if IsRemoved(p, Next(p, t)) then LastIn(p, Next(p, t), n - 1) else t
  }

  lemma {:induction false} LastEnds(p: Program, t: int, n: nat)
    requires EndsIn(p, t, n) && IsRemoved(p, t)
    ensures EndsIn(p, LastIn(p, t, n), n)
    decreases n
  {
    if IsRemoved(p, Next(p, t)) {
      LastEnds(p, Next(p, t), n - 1);
      EndsLater(p, LastIn(p, Next(p, t), n - 1), n - 1, n);
    }
  }

  /** How many of the first `n` stages are kept. */
  function Rank(p: Program, n: nat): nat {
    if n == 0 then 0 else Rank(p, n - 1) + (if IsRemoved(p, n - 1) then 0 else 1)
  }

  /** The last removed stage on the way to a kept one. */
  ghost function Last(p: Program, t: int): (r: int)
    requires LeadsOn(p) && IsRemoved(p, t)
    ensures IsRemoved(p, r) && !IsRemoved(p, Next(p, r))
  {
    LastIn(p, t, |p.stages|)
  }

  lemma {:induction false} LastEndsToo(p: Program, t: int, n: nat)
    requires LeadsOn(p) && IsRemoved(p, t) && EndsIn(p, t, n)
    ensures EndsIn(p, Last(p, t), n)
  {
    LastEnds(p, t, n);
    if n <= |p.stages| {
      EndsLater(p, t, n, |p.stages|);
    } else {
      EndsLater(p, t, |p.stages|, n);
    }
  }

  lemma {:induction false} LastIsOn(p: Program, t: int)
    requires LeadsOn(p) && IsRemoved(p, t)
    ensures Last(p, t) == if IsRemoved(p, Next(p, t)) then Last(p, Next(p, t)) else t
  {
    var n := |p.stages|;
    assert EndsIn(p, Next(p, t), n - 1);
    if IsRemoved(p, Next(p, t)) {
      EndsLater(p, Next(p, t), n - 1, n);
    }
  }

  /** The new number: that of a removed stage is known if it leads to a kept one. */
  ghost function NewNumber(p: Program, t: int): int
    requires LeadsOn(p)
  {
    if t == -1 then -1
    else if Kept(p, t) then Rank(p, t)
    else if IsRemoved(p, t) && !IsRemoved(p, Next(p, t)) then Rank(p, Next(p, t))
    else 0
  }

  ghost function NewEntry(p: Program, e: (int, int)): (int, int)
    requires LeadsOn(p)
  {
    (e.0, NewNumber(p, e.1))
  }

  ghost function NewEntries(p: Program, entries: seq<(int, int)>): (r: seq<(int, int)>)
    requires LeadsOn(p)
    ensures |r| == |entries| && forall k :: 0 <= k < |r| ==> r[k] == NewEntry(p, entries[k])
  {
    seq(|entries|, k requires 0 <= k < |entries| => NewEntry(p, entries[k]))
  }

  /** A removed stage has been overwritten by the last one on its way. */
  ghost function Overwritten(p: Program, i: int): LogicalStage
    requires LeadsOn(p) && IsStage(p, i)
  {
    if p.stages[i].removed then p.stages[Last(p, i)] else p.stages[i]
  }

  ghost function NewStage(p: Program, stage: LogicalStage): LogicalStage
    requires LeadsOn(p)
  {
    stage.(id := NewNumber(p, stage.id), actionProc := NewEntries(p, stage.actionProc))
  }

  ghost function Reordered(p: Program): (q: Program)
    requires LeadsOn(p)
    ensures |q.stages| == |p.stages| && q.actions == p.actions
    ensures forall i :: IsStage(p, i) ==> q.stages[i] == NewStage(p, Overwritten(p, i))
  {
    Program(seq(|p.stages|, i requires 0 <= i < |p.stages| => NewStage(p, Overwritten(p, i))), p.actions)
  }

  // ----- the new numbers

  lemma {:induction false} RankGrows(p: Program, m: nat, n: nat)
    requires m < n && !IsRemoved(p, m)
    ensures Rank(p, m) < Rank(p, n)
    decreases n
  {
    if m + 1 < n {
      RankGrows(p, m, n - 1);
    }
  }

  lemma {:induction false} RankReached(p: Program, n: nat, c: nat)
    requires c < Rank(p, n)
    ensures exists t :: 0 <= t < n && !IsRemoved(p, t) && Rank(p, t) == c
    decreases n
  {
    if c < Rank(p, n - 1) {
      RankReached(p, n - 1, c);
    } else {
      assert !IsRemoved(p, n - 1) && Rank(p, n - 1) == c;
    }
  }

  ghost predicate HasId(stages: seq<LogicalStage>, c: int) {
    exists i :: 0 <= i < |stages| && !stages[i].removed && stages[i].id == c
  }

  /** Kept stages are renumbered in their order, from zero on, without gaps. */
  lemma {:induction false} KeptIdsAreCompact(p: Program)
    requires Numbered(p) && LeadsOn(p)
    ensures var stages := Reordered(p).stages;
            && (forall i :: IsStage(p, i) ==> (stages[i].removed <==> p.stages[i].removed))
            && (forall i, j :: 0 <= i < j < |stages| && !stages[i].removed && !stages[j].removed ==>
                 stages[i].id < stages[j].id)
            && (forall i :: 0 <= i < |stages| && !stages[i].removed ==> 0 <= stages[i].id < Rank(p, |stages|))
            && (forall c :: 0 <= c < Rank(p, |stages|) ==> HasId(stages, c))
  {
    var stages := Reordered(p).stages;
    forall i, j | 0 <= i < j < |stages| && !stages[i].removed && !stages[j].removed
      ensures stages[i].id < stages[j].id
    {
      assert Kept(p, i) && Kept(p, j);
      RankGrows(p, i, j);
    }
    forall i | 0 <= i < |stages| && !stages[i].removed
      ensures 0 <= stages[i].id < Rank(p, |stages|)
    {
      assert Kept(p, i);
      RankGrows(p, i, |stages|);
    }
    forall c | 0 <= c < Rank(p, |stages|)
      ensures HasId(stages, c)
    {
      RankReached(p, |stages|, c);
      var t :| 0 <= t < |stages| && !IsRemoved(p, t) && Rank(p, t) == c;
      assert Kept(p, t) && stages[t].id == c;
    }
  }

  // ----- runs

  predicate KeptOrOut(p: Program, t: int) {
    t == -1 || Kept(p, t)
  }

  /** No entry of a kept stage leads to a removed one. */
  ghost predicate LeadsToKept(p: Program) {
    forall i, k :: IsEntry(p, i, k) && !p.stages[i].removed ==> KeptOrOut(p, Entry(p, i, k).1)
  }

  ghost predicate Sound(p: Program) {
    Numbered(p) && LeadsOn(p) && LeadsToKept(p)
  }

  lemma {:induction false} NewNumberInjective(p: Program, s: int, t: int)
    requires LeadsOn(p) && KeptOrOut(p, s) && KeptOrOut(p, t) && NewNumber(p, s) == NewNumber(p, t)
    ensures s == t
  {
    if 0 <= s < t {
      RankGrows(p, s, t);
    } else if 0 <= t < s {
      RankGrows(p, t, s);
    }
  }

  lemma {:induction false} SameSteps(p: Program, from: int, i: int, k: int)
    requires Sound(p) && KeptOrOut(p, from)
    ensures IsStep(Reordered(p), NewNumber(p, from), i, k) <==> IsStep(p, from, i, k)
    ensures IsStep(p, from, i, k) ==>
              && Events(Reordered(p), i, k) == Events(p, i, k)
              && Entry(Reordered(p), i, k).1 == NewNumber(p, Entry(p, i, k).1) && KeptOrOut(p, Entry(p, i, k).1)
  {
    if IsStage(p, i) && !p.stages[i].removed {
      assert Kept(p, i) && Overwritten(p, i) == p.stages[i];
      if NewNumber(p, i) == NewNumber(p, from) {
        NewNumberInjective(p, i, from);
      }
    }
  }

  lemma {:induction false} SameBegins(p: Program, from: int, i: int, k: int, did: seq<Event>, rest: seq<Event>)
    requires Sound(p) && KeptOrOut(p, from)
    ensures BeginsWith(Reordered(p), NewNumber(p, from), i, k, did, rest) <==> BeginsWith(p, from, i, k, did, rest)
    ensures BeginsWith(p, from, i, k, did, rest) ==>
              Entry(Reordered(p), i, k).1 == NewNumber(p, Entry(p, i, k).1) && KeptOrOut(p, Entry(p, i, k).1)
  {
    SameSteps(p, from, i, k);
  }

  lemma {:induction false} RunsAfter(p: Program, from: int, did: seq<Event>, end: int, n: nat)
    requires Sound(p) && KeptOrOut(p, from) && Runs(p, from, did, end, n)
    ensures Runs(Reordered(p), NewNumber(p, from), did, NewNumber(p, end), n)
    decreases n
  {
    if n > 0 {
      var i, k, rest := FirstStep(p, from, did, end, n);
      SameBegins(p, from, i, k, did, rest);
      RunsAfter(p, Entry(p, i, k).1, rest, end, n - 1);
      Prepend(Reordered(p), NewNumber(p, from), i, k, did, rest, NewNumber(p, end), n - 1);
    }
  }

  lemma {:induction false} FirstBefore(p: Program, from: int, did: seq<Event>, end: int, n: nat)
      returns (i: int, k: int, rest: seq<Event>)
    requires Sound(p) && KeptOrOut(p, from) && n > 0 && Runs(Reordered(p), NewNumber(p, from), did, end, n)
    ensures BeginsWith(p, from, i, k, did, rest) && KeptOrOut(p, Entry(p, i, k).1)
    ensures Runs(Reordered(p), NewNumber(p, Entry(p, i, k).1), rest, end, n - 1)
  {
    i, k, rest := FirstStep(Reordered(p), NewNumber(p, from), did, end, n);
    SameBegins(p, from, i, k, did, rest);
  }

  lemma {:induction false} RanSo(p: Program, from: int, did: seq<Event>, end: int, n: nat)
    requires Sound(p) && KeptOrOut(p, from) && KeptOrOut(p, end)
    requires Runs(Reordered(p), NewNumber(p, from), did, NewNumber(p, end), n)
    ensures Runs(p, from, did, end, n)
    decreases n
  {
    if n == 0 {
      NewNumberInjective(p, from, end);
    } else {
      var i, k, rest := FirstBefore(p, from, did, NewNumber(p, end), n);
      RanSo(p, Entry(p, i, k).1, rest, end, n - 1);
      Prepend(p, from, i, k, did, rest, end, n - 1);
    }
  }

  /** The stages after the loops. */
  ghost function Remaining(g: Program): Program {
    RemoveStages(g, |g.stages|)
  }

  lemma {:induction false} ForwardEnds(g: Program, p: Program, t: int, n: nat)
    requires AtStage(g, p, |g.stages|) && IsStage(p, t) && n >= |p.stages| - t
    ensures EndsIn(p, t, n)
    decreases n
  {
    if p.stages[t].removed {
      assert IsRemoved(p, t) && Removable(g, t) && Next(p, t) == Next(g, t);
      if p.stages[Next(p, t)].removed {
        assert IsRemoved(p, Next(p, t));
        ForwardEnds(g, p, Next(p, t), n - 1);
      }
    }
  }

  lemma {:induction false} RemainingIsSound(g: Program)
    requires Orderly(g)
    ensures Sound(Remaining(g))
  {
    var p := Remaining(g);
    StagesRemoved(g, |g.stages|);
    forall t | IsRemoved(p, t)
      ensures Removable(p, t) && IsStage(p, Next(p, t)) && EndsIn(p, t, |p.stages|)
    {
      assert Removable(g, t);
      ForwardEnds(g, p, t, |p.stages|);
    }
    forall i, k | IsEntry(p, i, k) && !p.stages[i].removed
      ensures KeptOrOut(p, Entry(p, i, k).1)
    {
      assert IsEntry(g, i, k) && Follows(g, p, i, k);
      assert Leads(p, i, k, Entry(p, i, k).1);
    }
  }

  /** Between kept stages, and out of the pipeline, the same choices and assignments can be made as before. */
  lemma {:induction false} RunsAreKept(g: Program, from: int, did: seq<Event>, end: int)
    requires Orderly(g) && HarmlessUpTo(g, |g.stages|)
    requires KeptOrOut(Remaining(g), from) && KeptOrOut(Remaining(g), end) && !Removable(g, end)
    ensures LeadsOn(Remaining(g))
    ensures CanRun(Reordered(Remaining(g)), NewNumber(Remaining(g), from), did, NewNumber(Remaining(g), end)) <==>
            CanRun(g, from, did, end)
  {
    var p := Remaining(g);
    RemainingIsSound(g);
    RemovalKeepsRuns(g, |g.stages|, from, did, end);
    if CanRun(p, from, did, end) {
      var n: nat :| Runs(p, from, did, end, n);
      RunsAfter(p, from, did, end, n);
    }
    if CanRun(Reordered(p), NewNumber(p, from), did, NewNumber(p, end)) {
      var n: nat :| Runs(Reordered(p), NewNumber(p, from), did, NewNumber(p, end), n);
      RanSo(p, from, did, end, n);
    }
  }

  /** The stage is left in its place, and entries of stages left that led to it lead to its new number. */
  ghost predicate LedToStill(g: Program, q: Program, t: int) {
    && 0 <= t < |g.stages| == |q.stages| && !q.stages[t].removed
    && forall i, k :: 0 <= i < |g.stages| && 0 <= k < |g.stages[i].actionProc| && !q.stages[i].removed
                      && g.stages[i].actionProc[k].1 == t ==>
         k < |q.stages[i].actionProc| && q.stages[i].actionProc[k] == (g.stages[i].actionProc[k].0, q.stages[t].id)
  }

  /** A stage whose only action takes parameters stays. */
  lemma {:induction false} ParametersKeepStage(g: Program, t: int)
    requires Loaded(g) && LeadsOn(Remaining(g)) && TakesParameters(g, t)
    ensures LedToStill(g, Reordered(Remaining(g)), t)
  {
    var p, n := Remaining(g), |g.stages|;
    var q := Reordered(p);
    ParametersStay(g, n, t, 0, 0);
    forall i, k | 0 <= i < n && 0 <= k < |g.stages[i].actionProc| && !q.stages[i].removed
                  && g.stages[i].actionProc[k].1 == t
      ensures k < |q.stages[i].actionProc|
      ensures q.stages[i].actionProc[k] == (g.stages[i].actionProc[k].0, q.stages[t].id)
    {
      assert Leads(g, i, k, t);
      ParametersStay(g, n, t, i, k);
      assert IsStage(p, i) && IsStage(p, t) && Kept(p, t);
    }
  }

  /** Each action has its own assignments in front, and behind them only those of actions without parameters. */
  ghost predicate AddedNeedNone(g: Program, q: Program) {
    forall a :: a in g.actions ==>
      && a in q.actions && g.actions[a].primitives <= q.actions[a].primitives
      && q.actions[a].parameterNum == g.actions[a].parameterNum
      && forall x :: x in q.actions[a].primitives[|g.actions[a].primitives|..] ==> NeedsNone(g, x)
  }

  lemma {:induction false} AddedInTheEnd(g: Program)
    requires LeadsOn(Remaining(g))
    ensures AddedNeedNone(g, Reordered(Remaining(g)))
  {
    AppendedNeedsNone(g, |g.stages|);
  }
}
