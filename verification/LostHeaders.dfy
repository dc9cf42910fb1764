/** Removing a stage hands its assignments on, but not the headers it declares: when those that an action of a kept
    stage touches afterwards have been parsed. */
module LostHeaders {
  import opened Graphs
  import opened ParserTables
  import opened LevelGraphs
  import opened MeetOverPaths
  import opened Stages
  import opened Distribution
  import opened DistributedParsing
  import opened EmptyStages
  import opened StageNumbers
  import opened Switch
  import RestartExample
  import RemovalExamples

  /** The headers an assignment reads or writes. */
  type Touched = Assign -> set<int>

  /** Along the path every level has been run that extracts a header the action touches. */
  ghost predicate FieldsParsed(levels: seq<Level>, own: Lists, path: seq<int>, action: IpsaAction, touched: Touched) {
    forall x, h, l :: x in action.primitives && h in touched(x) && Extracts(levels, l, h) ==> l in Flat(own, path)
  }

  /** Every such level is needed for a header some kept stage on the path declares. */
  ghost predicate FieldsNeeded(levels: seq<Level>, stages: seq<Stage>, path: seq<int>, action: IpsaAction,
                               touched: Touched) {
    forall x, h, l :: x in action.primitives && h in touched(x) && Extracts(levels, l, h) ==>
      NeededOn(levels, stages, path, l)
  }

  /** After removal, with the assignments appended and renumbered: when a packet is at a stage, the headers an action
      touches have been looked for, exactly if kept stages on its path declare headers that need the same levels. */
  lemma {:induction false} AppendedFieldsAreParsedIff(g: Program, p: Program, levels: seq<Level>, stages: seq<Stage>,
                                                      own: Lists, path: seq<int>, a: int, touched: Touched)
    requires Orderly(g) && p == Remaining(g) && LeadsOn(p) && SameStages(Reordered(p).stages, stages)
    requires IsDistribution(levels, stages, own) && SourcePath(StageGraph(stages), path) && a in p.actions
    ensures FieldsParsed(levels, own, path, p.actions[a], touched) <==>
            FieldsNeeded(levels, stages, path, p.actions[a], touched)
  {
    RemainingIsWellFormed(g, p, stages);
    forall l
      ensures l in Flat(own, path) <==> NeededOn(levels, stages, path, l)
    {
      LevelWasRunIff(levels, stages, own, path, l);
    }
  }

  // ----- a header that is lost

  const ETHERNET := RestartExample.ETHERNET

  /** The stages that remain of the program with a shared action; the removed one declares Ethernet. */
  const REMAINING := [Stage(0, false, [], [(1, 1), (1, 1)], []), Stage(1, true, [ETHERNET], [(2, 1)], []),
                      Stage(1, false, [], [], [])]

  lemma {:induction false} NothingIsNeeded(p: int, l: int)
    ensures !StageNeeds(RestartExample.TABLES, REMAINING, p, l)
  {
  }

  lemma {:induction false} NoneLeadsToZero(u: int)
    requires KeptId(REMAINING, u)
    ensures u in StageGraph(REMAINING) && !Edge(StageGraph(REMAINING), u, 0)
  {
    StageGraphEntries(REMAINING);
    assert REMAINING[0].actionProc[0] == (1, 1) && REMAINING[0].actionProc[1] == (1, 1);
  }

  lemma {:induction false} ZeroIsSource()
    ensures SourcePath(StageGraph(REMAINING), [0])
  {
    StageGraphEntries(REMAINING);
    assert KeptId(REMAINING, 0) by {
      assert REMAINING[0].id == 0;
    }
    forall u
      ensures !Edge(StageGraph(REMAINING), u, 0)
    {
      if KeptId(REMAINING, u) {
        NoneLeadsToZero(u);
      }
    }
  }

  lemma {:induction false} RemainingIsSo()
    ensures WellFormedStages(REMAINING)
  {
    assert REMAINING[0].id == 0 && KeptId(REMAINING, 0);
    assert REMAINING[2].id == 1 && KeptId(REMAINING, 1);
  }

  /** They are what remains of it, and its action 1 has the assignment of the removed stage. */
  lemma {:induction false} RemainingStages()
    ensures LeadsOn(Remaining(RemovalExamples.SHARED))
    ensures SameStages(Reordered(Remaining(RemovalExamples.SHARED)).stages, REMAINING)
    ensures 1 in Remaining(RemovalExamples.SHARED).actions
    ensures Remaining(RemovalExamples.SHARED).actions[1] == RemovalExamples.SET
  {
    RemovalExamples.SharedActionIsRun();
    RemovalExamples.SharedIsTaken();
  }

  /** Stage 0 sets a field of Ethernet that the removed stage set before, and no level has looked for Ethernet. */
  lemma {:induction false} HeaderIsLost(own: Lists, touched: Touched)
    requires IsDistribution(RestartExample.TABLES, REMAINING, own)
    requires touched(RemovalExamples.SET.primitives[0]) == {ETHERNET}
    ensures SourcePath(StageGraph(REMAINING), [0])
    ensures !FieldsParsed(RestartExample.TABLES, own, [0], RemovalExamples.SET, touched)
  {
    RemainingIsSo();
    ZeroIsSource();
    LevelWasRunIff(RestartExample.TABLES, REMAINING, own, [0], 0);
    NothingIsNeeded(0, 0);
    var e := RestartExample.TABLES[0][0];
    assert e in RestartExample.TABLES[0] && EntryExtracts(e, ETHERNET);
    assert Extracts(RestartExample.TABLES, 0, ETHERNET);
    assert RemovalExamples.SET.primitives[0] in RemovalExamples.SET.primitives;
  }
}
