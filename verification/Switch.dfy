/** From the program to the slots of the switch: the stages that remain of a program are stages a distribution can be
    computed for, and the processors they are placed in parse what the program's parser does. */
module Switch {
  import opened MeetOverPaths
  import opened ParserTables
  import opened LevelGraphs
  import opened LevelTables
  import opened StoredRuns
  import opened Stages
  import opened Distribution
  import opened DistributedParsing
  import opened Configuration
  import Processors
  import EmptyStages
  import StageNumbers

  // ----- the stages that remain

  /** A logical stage, with the headers it declares and its tables besides. */
  predicate SameStage(l: EmptyStages.LogicalStage, s: Stage) {
    s.id == l.id && s.removed == l.removed && s.actionProc == l.actionProc
  }

  ghost predicate SameStages(logical: seq<EmptyStages.LogicalStage>, stages: seq<Stage>) {
    |stages| == |logical| && forall i :: 0 <= i < |stages| ==> SameStage(logical[i], stages[i])
  }

  /** After the removal of empty stages the kept ones have their own numbers, and their entries lead to each other or
      out of the pipeline. */
  lemma {:induction false} RemainingIsWellFormed(g: EmptyStages.Program, p: EmptyStages.Program, stages: seq<Stage>)
    requires EmptyStages.Orderly(g) && p == StageNumbers.Remaining(g) && StageNumbers.LeadsOn(p)
    requires SameStages(StageNumbers.Reordered(p).stages, stages)
    ensures WellFormedStages(stages)
  {
    StageNumbers.RemainingIsSound(g);
    StageNumbers.KeptIdsAreCompact(p);
    var q := StageNumbers.Reordered(p).stages;
    forall i, j | 0 <= i < j < |stages| && !stages[i].removed && !stages[j].removed
      ensures stages[i].id != stages[j].id
    {
      assert SameStage(q[i], stages[i]) && SameStage(q[j], stages[j]);
    }
    forall i, a | 0 <= i < |stages| && !stages[i].removed && a in stages[i].actionProc && 0 <= a.1
      ensures KeptId(stages, a.1)
    {
      assert SameStage(q[i], stages[i]) && EmptyStages.IsStage(p, i);
      var k :| 0 <= k < |stages[i].actionProc| && stages[i].actionProc[k] == a;
      EntryLeadsToKept(p, stages, i, k);
    }
  }

  lemma {:induction false} EntryLeadsToKept(p: EmptyStages.Program, stages: seq<Stage>, i: int, k: int)
    requires StageNumbers.Sound(p)
    requires SameStages(StageNumbers.Reordered(p).stages, stages) && EmptyStages.IsEntry(p, i, k)
    requires !p.stages[i].removed && SameStage(StageNumbers.Reordered(p).stages[i], stages[i])
    ensures stages[i].actionProc[k].1 == -1 || KeptId(stages, stages[i].actionProc[k].1)
  {
    var t := EmptyStages.Entry(p, i, k).1;
    assert StageNumbers.KeptOrOut(p, t);
    assert StageNumbers.Overwritten(p, i) == p.stages[i];
    if t != -1 {
      assert SameStage(StageNumbers.Reordered(p).stages[t], stages[t]) && StageNumbers.Overwritten(p, t) == p.stages[t];
    }
  }

  // ----- the processors of a path

  /** The slots of the stages on a path, whose levels fit one processor each. */
  ghost predicate SlotsOf(o: Processors.Outcome, path: seq<int>, route: seq<nat>) {
    && |route| == |path|
    && forall q :: 0 <= q < |route| ==>
         && Processors.StageSlot(o, route[q]) && o.physical[route[q]] == path[q]
         && path[q] in o.levels && |o.levels[path[q]]| <= MAX_LEVEL
  }

  /** Their processors run the levels of the stages. */
  lemma {:induction false} SlotsRunLists(o: Processors.Outcome, path: seq<int>, route: seq<nat>)
    requires SlotsOf(o, path, route)
    ensures Processors.LevelsAlong(o.after, route) == Flat(o.levels, path)
  {
    if route != [] {
      var n := |route| - 1;
      SlotsRunLists(o, path[..n], route[..n]);
      assert Processors.StageSlot(o, route[n]) && o.physical[route[n]] == path[n];
      Processors.EntryRunsAllLevelsIffTheyFit(o, route[n]);
    }
  }

  /** Whatever the packet and whatever path it takes from a source to stage `i`: the processors in the slots of the
      stages leave each header the stage declares where the program's parser finds it. */
  lemma {:induction false} SwitchParsesProgram(defs: seq<StateDef>, states: Ids, levels: seq<Level>,
                                               stored: seq<Level>, stages: seq<Stage>, o: Processors.Outcome,
                                               path: seq<int>, route: seq<nat>, i: nat, h: int, n: nat, phv: Phv,
                                               key: KeyReader)
    requires defs != [] && WellFormedStates(defs) && DistinctNames(defs) && AreTables(defs, states, levels)
    requires forall k :: 0 <= k < |defs| ==> defs[k].headerLength > 0
    requires Storable(levels) && AreStored(levels, stored) && !MeetsBlank(levels, Flat(o.levels, path), phv, key)
    requires WellFormedStages(stages) && IsDistribution(levels, stages, o.levels) && SlotsOf(o, path, route)
    requires SourcePath(StageGraph(stages), path) && !RestartsOn(levels, o.levels, path, phv, key)
    requires IsStart(phv) && Unmarked(phv.headers) && n >= |defs|
    requires i < |stages| && !stages[i].removed && path[|path| - 1] == stages[i].id && h in stages[i].headers
    ensures var here := RunLevels(stored, Processors.LevelsAlong(o.after, route), phv, key);
            SameHeader(here.headers, SourceRun(Live(defs), 2 * n + 1, phv.headers, key).headers, h) <==>
            h != 0 || !Ended(here)
  {
    SlotsRunLists(o, path, route);
    StoredRunsLevels(levels, stored, Flat(o.levels, path), phv, key);
    StagesParseProgram(defs, states, levels, stages, o.levels, path, i, h, n, phv, key);
  }
}
