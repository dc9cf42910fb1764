/** From the first allocation of a program to any number of updates in place. */
module Updates {
  import opened Configuration
  import opened Placement
  import opened Stages
  import opened Blocks
  import opened Memory
  import opened MemorySafety
  import opened Incremental

  /** A block was handed out to a table listed by a stage of that cluster, for its keys in the memory of their
      kind, for its values in SRAM. */
  ghost predicate Rightful(tables: Tables, stages: seq<Stage>, cluster: map<int, int>, h: Handout) {
    && h.table in tables && h.tcam == (h.key && tables[h.table].keyInTcam)
    && Listed(stages, cluster, h.table, h.cluster)
  }

  /** Some kept stage of cluster `c` lists the table. */
  ghost predicate Listed(stages: seq<Stage>, cluster: map<int, int>, t: int, c: int) {
    exists i :: 0 <= i < |stages| && !stages[i].removed &&
                t in stages[i].tableIds && ClusterOf(cluster, stages[i].id) == c
  }

  ghost predicate HandedTo(h: Handout, cluster: int, tcam: bool, table: int, key: bool) {
    h.cluster == cluster && h.tcam == tcam && h.table == table && h.key == key
  }

  lemma {:induction false} HandOutAdds(log: seq<Handout>, cluster: int, tcam: bool, block: nat, table: int, key: bool,
                                       n: nat)
    ensures forall h :: h in HandOut(log, cluster, tcam, block, table, key, n) ==>
              h in log || HandedTo(h, cluster, tcam, table, key)
  {
    if n > 0 {
      HandOutAdds(log, cluster, tcam, block, table, key, n - 1);
    }
  }

  lemma {:induction false} TableLogAdds(log: seq<Handout>, cluster: int, id: int, t: Table, h: Handout)
    requires h in TableLog(log, cluster, id, t)
    ensures h in log || (h.cluster == cluster && h.table == id && h.tcam == (h.key && t.keyInTcam))
  {
    var keyed := HandOut(log, cluster, t.keyInTcam, Count(log, cluster, t.keyInTcam), id, true, t.KeyBlocks());
    HandOutAdds(log, cluster, t.keyInTcam, Count(log, cluster, t.keyInTcam), id, true, t.KeyBlocks());
    HandOutAdds(keyed, cluster, false, Count(keyed, cluster, false), id, false, t.ValueBlocks());
  }

  lemma {:induction false} StageLogAdds(log: seq<Handout>, cluster: int, tables: Tables, ids: seq<int>, h: Handout)
    requires Known(tables, ids) && h in StageLog(log, cluster, tables, ids)
    ensures h in log || (h.cluster == cluster && h.table in ids && h.table in tables
                         && h.tcam == (h.key && tables[h.table].keyInTcam))
  {
    if ids != [] {
      var front, id := ids[..|ids| - 1], ids[|ids| - 1];
      TableLogAdds(StageLog(log, cluster, tables, front), cluster, id, tables[id], h);
      if h in StageLog(log, cluster, tables, front) {
        StageLogAdds(log, cluster, tables, front, h);
      }
    }
  }

  lemma {:induction false} LogIsRightful(tables: Tables, stages: seq<Stage>, cluster: map<int, int>, h: Handout)
    requires KnownTables(tables, stages) && h in AllLog(tables, stages, cluster)
    ensures Rightful(tables, stages, cluster, h)
  {
    if stages != [] {
      var front, s := stages[..|stages| - 1], stages[|stages| - 1];
      var log := AllLog(tables, front, cluster);
      if h !in log {
        StageLogAdds(log, ClusterOf(cluster, s.id), tables, s.tableIds, h);
        assert stages[|stages| - 1] == s;
      } else {
        LogIsRightful(tables, front, cluster, h);
        ListedBefore(front, stages, cluster, h.table, h.cluster);
      }
    }
  }

  lemma {:induction false} ListedBefore(front: seq<Stage>, stages: seq<Stage>, cluster: map<int, int>, t: int, c: int)
    requires front <= stages && Listed(front, cluster, t, c)
    ensures Listed(stages, cluster, t, c)
  {
    var i :| 0 <= i < |front| && !front[i].removed && t in front[i].tableIds && ClusterOf(cluster, front[i].id) == c;
    assert stages[i] == front[i];
  }

  /** A number in a table's list was handed out to it. */
  lemma {:induction false} NumberHandedOut(log: seq<Handout>, t: int, key: bool, x: int) returns (i: nat)
    requires x in BlocksOf(log, t, key)
    ensures i < |log| && log[i].block == x && log[i].table == t && log[i].key == key
  {
    var h := log[|log| - 1];
    if x in BlocksOf(log[..|log| - 1], t, key) {
      i := NumberHandedOut(log[..|log| - 1], t, key, x);
    } else {
      i := |log| - 1;
    }
  }

  /** And what was handed out to it is in its list. */
  lemma {:induction false} HandedOutNumber(log: seq<Handout>, i: nat)
    requires i < |log|
    ensures log[i].block in BlocksOf(log, log[i].table, log[i].key)
  {
    if i < |log| - 1 {
      HandedOutNumber(log[..|log| - 1], i);
    }
  }

  // ----- where a table is

  /** The cluster of the last stage that lists the table, be it a kept one or not: each one that lists it is set as
      its stage in turn. */
  function Home(stages: seq<Stage>, cluster: map<int, int>, t: int): int {
    if stages == [] then 0
    else
      var s := stages[|stages| - 1];
      if t in s.tableIds then ClusterOf(cluster, s.id) else Home(stages[..|stages| - 1], cluster, t)
  }

  /** The program in place after a full allocation: every table with the blocks handed out to it, in a slot of its
      cluster. */
  ghost predicate Installed(tables: Tables, stages: seq<Stage>, cluster: map<int, int>, layout: Layout)
    requires KnownTables(tables, stages)
  {
    forall t :: t in tables ==> t in layout && InstalledTable(tables, stages, cluster, layout[t], t)
  }

  ghost predicate InstalledTable(tables: Tables, stages: seq<Stage>, cluster: map<int, int>, p: PrevTable, t: int)
    requires KnownTables(tables, stages) && t in tables
  {
    && p.tcam == tables[t].keyInTcam
    && p.key == BlocksOf(AllLog(tables, stages, cluster), t, true)
    && p.value == BlocksOf(AllLog(tables, stages, cluster), t, false)
    && p.slot / CLUSTER_PROC_COUNT == Home(stages, cluster, t)
  }

  /** A block of the cluster a table is not in. */
  predicate Stray(stages: seq<Stage>, cluster: map<int, int>, h: Handout) {
    h.cluster != Home(stages, cluster, h.table)
  }

  /** Taken as blocks of the clusters their tables are in, the two are the same block. */
  predicate Meet(stages: seq<Stage>, cluster: map<int, int>, h: Handout, i: Handout) {
    && h.table != i.table && Home(stages, cluster, h.table) == Home(stages, cluster, i.table)
    && h.tcam == i.tcam && h.block == i.block
  }

  /** Among the blocks handed out to these tables. */
  ghost predicate StrayMeets(log: seq<Handout>, stages: seq<Stage>, cluster: map<int, int>, names: set<int>) {
    exists h, i :: h in log && i in log && h.table in names && i.table in names
                   && Stray(stages, cluster, h) && Meet(stages, cluster, h, i)
  }

  /** All kept stages that list a table are in the cluster the table is in. */
  ghost predicate OneCluster(tables: Tables, stages: seq<Stage>, cluster: map<int, int>) {
    forall t, c :: t in tables && Listed(stages, cluster, t, c) ==> c == Home(stages, cluster, t)
  }

  lemma {:induction false} OneClusterNoStray(tables: Tables, stages: seq<Stage>, cluster: map<int, int>,
                                             names: set<int>)
    requires KnownTables(tables, stages) && OneCluster(tables, stages, cluster)
    ensures !StrayMeets(AllLog(tables, stages, cluster), stages, cluster, names)
  {
    forall h | h in AllLog(tables, stages, cluster)
      ensures !Stray(stages, cluster, h)
    {
      LogIsRightful(tables, stages, cluster, h);
      assert Listed(stages, cluster, h.table, h.cluster);
    }
  }

  lemma {:induction false} HeldBlockHandedOut(tables: Tables, stages: seq<Stage>, cluster: map<int, int>,
                                              layout: Layout, t: int, c: int, tcam: bool, number: int) returns (i: nat)
    requires KnownTables(tables, stages) && Installed(tables, stages, cluster, layout) && t in tables
    requires HoldsBlock(layout, t, c, tcam, number)
    ensures c == Home(stages, cluster, t) && i < |AllLog(tables, stages, cluster)|
    ensures AllLog(tables, stages, cluster)[i].table == t && AllLog(tables, stages, cluster)[i].block == number
    ensures AllLog(tables, stages, cluster)[i].tcam == tcam
  {
    var log := AllLog(tables, stages, cluster);
    assert InstalledTable(tables, stages, cluster, layout[t], t);
    if tcam == layout[t].tcam && number in layout[t].key {
      i := NumberHandedOut(log, t, true, number);
    } else {
      i := NumberHandedOut(log, t, false, number);
    }
    LogIsRightful(tables, stages, cluster, log[i]);
  }

  lemma {:induction false} HandedOutIsHeld(tables: Tables, stages: seq<Stage>, cluster: map<int, int>, layout: Layout,
                                           h: Handout)
    requires KnownTables(tables, stages) && Installed(tables, stages, cluster, layout)
    requires h in AllLog(tables, stages, cluster)
    ensures h.table in tables && HoldsBlock(layout, h.table, Home(stages, cluster, h.table), h.tcam, h.block)
  {
    var log := AllLog(tables, stages, cluster);
    LogIsRightful(tables, stages, cluster, h);
    assert InstalledTable(tables, stages, cluster, layout[h.table], h.table);
    var i :| 0 <= i < |log| && log[i] == h;
    HandedOutNumber(log, i);
  }

  /** After a full allocation two of these tables hold the same block exactly if a block handed out in a cluster its
      table is not in meets one of another table. */
  lemma {:induction false} FirstAllocationIsDisjointIff(tables: Tables, stages: seq<Stage>, space: Spaces,
                                                        cluster: map<int, int>, layout: Layout, names: set<int>)
    requires KnownTables(tables, stages) && IsSpaceOf(tables, stages, space)
    requires Installed(tables, stages, cluster, layout) && forall t :: t in names ==> t in tables
    ensures Disjoint(layout, names) <==> !StrayMeets(AllLog(tables, stages, cluster), stages, cluster, names)
  {
    var log := AllLog(tables, stages, cluster);
    if StrayMeets(log, stages, cluster, names) {
      var h, i :| h in log && i in log && h.table in names && i.table in names
                  && Stray(stages, cluster, h) && Meet(stages, cluster, h, i);
      HandedOutIsHeld(tables, stages, cluster, layout, h);
      HandedOutIsHeld(tables, stages, cluster, layout, i);
      assert BothHold(layout, h.table, i.table, Home(stages, cluster, h.table), h.tcam, h.block);
    } else {
      forall a, b, c, tcam, number | a in names && b in names && BothHold(layout, a, b, c, tcam, number)
        ensures a == b
      {
        OnlyOneHolds(tables, stages, space, cluster, layout, names, a, b, c, tcam, number);
      }
    }
  }

  lemma {:induction false} OnlyOneHolds(tables: Tables, stages: seq<Stage>, space: Spaces, cluster: map<int, int>,
                                        layout: Layout, names: set<int>, a: int, b: int, c: int, tcam: bool,
                                        number: int)
    requires KnownTables(tables, stages) && IsSpaceOf(tables, stages, space)
    requires Installed(tables, stages, cluster, layout) && a in names && b in names && a in tables && b in tables
    requires !StrayMeets(AllLog(tables, stages, cluster), stages, cluster, names)
    requires BothHold(layout, a, b, c, tcam, number)
    ensures a == b
  {
    var log := AllLog(tables, stages, cluster);
    var i := HeldBlockHandedOut(tables, stages, cluster, layout, a, c, tcam, number);
    var j := HeldBlockHandedOut(tables, stages, cluster, layout, b, c, tcam, number);
    if a != b {
      NoMeeting(log, stages, cluster, names, i, j);
      NoMeeting(log, stages, cluster, names, j, i);
      if i < j {
        BlocksAreDisjoint(tables, stages, space, cluster, i, j);
      } else if j < i {
        BlocksAreDisjoint(tables, stages, space, cluster, j, i);
      }
    }
  }

  lemma {:induction false} NoMeeting(log: seq<Handout>, stages: seq<Stage>, cluster: map<int, int>, names: set<int>,
                                     i: nat, j: nat)
    requires i < |log| && j < |log| && log[i].table in names && log[j].table in names
    requires !StrayMeets(log, stages, cluster, names) && Meet(stages, cluster, log[i], log[j])
    ensures !Stray(stages, cluster, log[i])
  {
    assert log[i] in log && log[j] in log;
  }

  /** So none do if the stages that list a table are all in one cluster. */
  lemma {:induction false} FirstAllocationIsDisjoint(tables: Tables, stages: seq<Stage>, space: Spaces,
                                                     cluster: map<int, int>, layout: Layout)
    requires KnownTables(tables, stages) && IsSpaceOf(tables, stages, space)
    requires Installed(tables, stages, cluster, layout) && OneCluster(tables, stages, cluster)
    ensures Disjoint(layout, tables.Keys)
  {
    OneClusterNoStray(tables, stages, cluster, tables.Keys);
    FirstAllocationIsDisjointIff(tables, stages, space, cluster, layout, tables.Keys);
  }

  // ----- a table listed in two clusters

  /** Two tables with one SRAM block for their keys; the second stage, in cluster 1, lists both. */
  const TWO: Tables := map[0 := Table(false, 1, 1, 0, 0), 1 := Table(false, 1, 1, 0, 0)]
  const LISTS_FIRST := Stage(0, false, [], [], [0])
  const LISTS_BOTH := Stage(1, false, [], [], [1, 0])
  const TWO_STAGES := [LISTS_FIRST, LISTS_BOTH]
  const TWO_CLUSTERS: map<int, int> := map[0 := 0, 1 := 1]

  const TWO_INSTALLED: Layout := map[0 := PrevTable(4, false, [0, 1], []), 1 := PrevTable(4, false, [0], [])]

  lemma {:induction false} OneBlock(log: seq<Handout>, cluster: int, id: int)
    ensures TableLog(log, cluster, id, TWO[0]) == log + [Handout(cluster, false, Count(log, cluster, false), id, true)]
  {
    var keyed := HandOut(log, cluster, false, Count(log, cluster, false), id, true, 1);
    assert TWO[0].KeyBlocks() == 1 && TWO[0].ValueBlocks() == 0;
    assert HandOut(log, cluster, false, Count(log, cluster, false), id, true, 0) == log;
  }

  const FIRST := Handout(0, false, 0, 0, true)
  const SECOND := Handout(1, false, 0, 1, true)
  const THIRD := Handout(1, false, 1, 0, true)

  lemma {:induction false} LogOfFirst()
    ensures StageLog([], 0, TWO, [0]) == [FIRST]
  {
    assert [0][..0] == [];
    OneBlock([], 0, 0);
  }

  lemma {:induction false} LogOfSecond()
    ensures StageLog([FIRST], 1, TWO, [1, 0]) == [FIRST, SECOND, THIRD]
  {
    assert [1, 0][..1] == [1] && [1][..0] == [];
    OneBlock([FIRST], 1, 1);
    assert [FIRST][..0] == [] && Count([FIRST], 1, false) == 0;
    assert StageLog([FIRST], 1, TWO, [1]) == [FIRST, SECOND];
    OneBlock([FIRST, SECOND], 1, 0);
    assert [FIRST, SECOND][..1] == [FIRST] && Count([FIRST, SECOND], 1, false) == 1;
  }

  lemma {:induction false} OneMoreStage(tables: Tables, front: seq<Stage>, s: Stage, cluster: map<int, int>)
    requires KnownTables(tables, front) && Known(tables, s.tableIds) && !s.removed
    ensures KnownTables(tables, front + [s])
    ensures AllLog(tables, front + [s], cluster) ==
            StageLog(AllLog(tables, front, cluster), ClusterOf(cluster, s.id), tables, s.tableIds)
  {
    assert (front + [s])[..|front|] == front;
  }

  lemma {:induction false} TwoLog()
    ensures KnownTables(TWO, TWO_STAGES) && AllLog(TWO, TWO_STAGES, TWO_CLUSTERS) == [FIRST, SECOND, THIRD]
  {
    OneMoreStage(TWO, [], LISTS_FIRST, TWO_CLUSTERS);
    LogOfFirst();
    assert [] + [LISTS_FIRST] == [LISTS_FIRST];
    OneMoreStage(TWO, [LISTS_FIRST], LISTS_BOTH, TWO_CLUSTERS);
    LogOfSecond();
    assert [LISTS_FIRST] + [LISTS_BOTH] == TWO_STAGES;
  }

  lemma {:induction false} TwoBlocks(t: int, key: bool)
    requires 0 <= t <= 1
    ensures BlocksOf([FIRST, SECOND, THIRD], t, key) == if !key then [] else if t == 0 then [0, 1] else [0]
  {
    assert [FIRST, SECOND, THIRD][..2] == [FIRST, SECOND] && [FIRST, SECOND][..1] == [FIRST] && [FIRST][..0] == [];
    assert BlocksOf([FIRST], t, key) == if key && t == 0 then [0] else [];
    assert BlocksOf([FIRST, SECOND], t, key) == if key then [0] else [];
  }

  lemma {:induction false} TwoInstalled(t: int)
    requires 0 <= t <= 1 && KnownTables(TWO, TWO_STAGES)
    ensures InstalledTable(TWO, TWO_STAGES, TWO_CLUSTERS, TWO_INSTALLED[t], t)
  {
    TwoLog();
    TwoBlocks(t, true);
    TwoBlocks(t, false);
  }

  /** The first table's block of cluster 0 is taken for one of cluster 1, where the second table has that number. */
  lemma {:induction false} TwoClustersMeet()
    ensures KnownTables(TWO, TWO_STAGES) && Installed(TWO, TWO_STAGES, TWO_CLUSTERS, TWO_INSTALLED)
    ensures !Disjoint(TWO_INSTALLED, TWO.Keys)
  {
    TwoLog();
    forall t | t in TWO
      ensures t in TWO_INSTALLED && InstalledTable(TWO, TWO_STAGES, TWO_CLUSTERS, TWO_INSTALLED[t], t)
    {
      TwoInstalled(t);
    }
    TwoShare();
  }

  lemma {:induction false} TwoShare()
    ensures !Disjoint(TWO_INSTALLED, TWO.Keys)
  {
    assert BothHold(TWO_INSTALLED, 0, 1, 1, false, 0);
  }

  // ----- and then updates

  /** However often a program is updated in place after its first allocation, tables kept throughout share no block,
      exactly if they did not at first. */
  lemma {:induction false} UpdatesStayDisjoint(tables: Tables, stages: seq<Stage>, space: Spaces,
                                               cluster: map<int, int>, updates: seq<Update>, layouts: seq<Layout>,
                                               names: set<int>, n: nat)
    requires KnownTables(tables, stages) && IsSpaceOf(tables, stages, space)
    requires Chain(updates, layouts, names) && n < |layouts| && forall t :: t in names ==> t in tables
    requires Installed(tables, stages, cluster, layouts[0])
    ensures Disjoint(layouts[n], names) <==>
            !StrayMeets(AllLog(tables, stages, cluster), stages, cluster, names)
  {
    FirstAllocationIsDisjointIff(tables, stages, space, cluster, layouts[0], names);
    ChainKeepsDisjoint(updates, layouts, names, n);
  }
}
