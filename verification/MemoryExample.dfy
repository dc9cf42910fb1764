/** A stage with two tables, as the memory is allocated for it: the blocks of a table that is two wide and three deep
    in TCAM, and of one that is in SRAM. */
module MemoryExample {
  import opened Configuration
  import opened Placement
  import opened Stages
  import opened Blocks
  import opened Memory

  const TABLES: Tables := map[0 := Table(true, 2, 3, 1, 2), 1 := Table(false, 2, 2, 3, 2)]
  const STAGES := [Stage(0, false, [], [], [0, 1])]

  lemma {:induction false} FirstTable(k: int)
    ensures var log := TableLog([], k, 0, TABLES[0]);
      && Count(log, k, true) == 6 && Count(log, k, false) == 2
      && BlocksOf(log, 0, true) == [0, 1, 2, 3, 4, 5] && BlocksOf(log, 0, false) == [0, 1]
      && BlocksOf(log, 1, true) == [] && BlocksOf(log, 1, false) == []
  {
    TableGiven([], k, 0, TABLES[0]);
    OneTableLength([], k, 0, TABLES[0], 1, true);
    OneTableLength([], k, 0, TABLES[0], 1, false);
    assert From(0, 6) == [0, 1, 2, 3, 4, 5] && From(0, 2) == [0, 1];
  }

  lemma {:induction false} SecondTable(log: seq<Handout>, k: int)
    requires Count(log, k, true) == 6 && Count(log, k, false) == 2
    requires BlocksOf(log, 1, true) == [] && BlocksOf(log, 1, false) == []
    ensures var after := TableLog(log, k, 1, TABLES[1]);
      && BlocksOf(after, 1, true) == [2, 3, 4, 5] && BlocksOf(after, 1, false) == [6, 7, 8, 9, 10, 11]
      && BlocksOf(after, 0, true) == BlocksOf(log, 0, true) && BlocksOf(after, 0, false) == BlocksOf(log, 0, false)
  {
    TableGiven(log, k, 1, TABLES[1]);
    assert From(2, 4) == [2, 3, 4, 5] && From(6, 6) == [6, 7, 8, 9, 10, 11];
    OtherTable(log, k, true);
    OtherTable(log, k, false);
  }

  lemma {:induction false} OtherTable(log: seq<Handout>, k: int, key: bool)
    ensures BlocksOf(TableLog(log, k, 1, TABLES[1]), 0, key) == BlocksOf(log, 0, key)
  {
    var keyed := HandOut(log, k, false, Count(log, k, false), 1, true, 4);
    assert TABLES[1].KeyBlocks() == 4 && TABLES[1].ValueBlocks() == 6;
    HandOutGives(log, k, false, Count(log, k, false), 1, true, 4, 0, key);
    HandOutGives(keyed, k, false, Count(keyed, k, false), 1, false, 6, 0, key);
  }

  lemma {:induction false} StageOfTwo(k: int)
    ensures Known(TABLES, [0, 1])
    ensures StageLog([], k, TABLES, [0, 1]) == TableLog(TableLog([], k, 0, TABLES[0]), k, 1, TABLES[1])
    ensures NeedOf(TABLES, [0, 1]) == Space(12, 6)
  {
    assert [0, 1][..1] == [0] && [0][..0] == [];
    assert StageLog([], k, TABLES, []) == [] && NeedOf(TABLES, []) == NOTHING;
    assert StageLog([], k, TABLES, [0]) == TableLog([], k, 0, TABLES[0]);
    assert NeedOf(TABLES, [0]) == Space(2, 6);
  }

  lemma {:induction false} OnlyStage(cluster: map<int, int>)
    ensures KnownTables(TABLES, STAGES)
    ensures AllLog(TABLES, STAGES, cluster) == StageLog([], ClusterOf(cluster, 0), TABLES, [0, 1])
  {
    assert STAGES[..0] == [];
    assert AllLog(TABLES, [], cluster) == [];
  }

  lemma {:induction false} TwoTables(cluster: map<int, int>)
    ensures KnownTables(TABLES, STAGES)
    ensures var log := AllLog(TABLES, STAGES, cluster);
      && BlocksOf(log, 0, true) == [0, 1, 2, 3, 4, 5] && BlocksOf(log, 0, false) == [0, 1]
      && BlocksOf(log, 1, true) == [2, 3, 4, 5] && BlocksOf(log, 1, false) == [6, 7, 8, 9, 10, 11]
  {
    var k := ClusterOf(cluster, 0);
    FirstTable(k);
    SecondTable(TableLog([], k, 0, TABLES[0]), k);
    StageOfTwo(k);
    OnlyStage(cluster);
  }

  method Allocate() returns (memory: IpsaMemory)
    ensures 0 in memory.keyConfig && memory.keyConfig[0] == [0, 1, 2, 3, 4, 5]
    ensures 0 in memory.valueConfig && memory.valueConfig[0] == [0, 1]
    ensures 1 in memory.keyConfig && memory.keyConfig[1] == [2, 3, 4, 5]
    ensures 1 in memory.valueConfig && memory.valueConfig[1] == [6, 7, 8, 9, 10, 11]
    ensures SpaceOf(memory.procSpace, 0) == Space(12, 6)
  {
    memory := new IpsaMemory(TABLES);
    OnlyStage(map[]);
    assert forall id :: id in [0] ==> id == 0;
    ghost var c, cluster := memory.AllocateMemory(TABLES, STAGES, [0]);
    TwoTables(cluster);
    StageOfTwo(0);
    assert STAGES[0].id == 0;
  }

  method Spaces() returns (first: Space, second: Space)
    ensures first == Space(2, 6) && second == Space(10, 0)
  {
    var memory := new IpsaMemory(TABLES);
    OnlyStage(map[]);
    memory.CalculateTableSpace(TABLES, STAGES);
    first, second := memory.tableSpace[0], memory.tableSpace[1];
  }

  // ----- placing

  /** Stage 0 fills the blocks of a cluster, stage 1 needs one more, stage 2 none. */
  const SPACES: Spaces := map[0 := Space(256, 128), 1 := Space(1, 0)]

  const FULL := Space(0, 0)

  lemma {:induction false} PlacedOneByOne()
    ensures PlaceAll(SPACES, [0, 1, 2]).procs == [[0, 2], [1], [], []]
  {
    var one := Clusters([FULL, CAPACITY, CAPACITY, CAPACITY], [[0], [], [], []], []);
    var two := Clusters([FULL, Space(255, 128), CAPACITY, CAPACITY], [[0], [1], [], []], []);
    assert [0][..0] == [] && [0, 1][..1] == [0] && [0, 1, 2][..2] == [0, 1];
    assert PlaceAll(SPACES, []) == EMPTY;
    PlacedIs(EMPTY, 0, Space(256, 128), 0, one);
    assert PlaceAll(SPACES, [0]) == one;
    PlacedIs(one, 1, Space(1, 0), 1, two);
    assert PlaceAll(SPACES, [0, 1]) == two;
    PlacedIs(two, 2, NOTHING, 0, two.(procs := [[0, 2], [1], [], []]));
  }

  lemma {:induction false} PlacedIs(c: Clusters, id: int, need: Space, i: nat, after: Clusters)
    requires Shaped(c) && Shaped(after) && i < 2 && Fits(c, i, need) && (i == 1 ==> !Fits(c, 0, need))
    requires after.left[i] == Space(c.left[i].sram - need.sram, c.left[i].tcam - need.tcam)
    requires after.procs[i] == c.procs[i] + [id] && after.refused == c.refused
    requires forall j :: 0 <= j < 4 && j != i ==> after.left[j] == c.left[j] && after.procs[j] == c.procs[j]
    ensures PlaceOne(c, id, need) == after
  {
    assert FirstFit(c, need, 0) == i;
    assert after.left == Put(c, i, id, need).left && after.procs == Put(c, i, id, need).procs;
  }

  /** The stage that does not fit in cluster 0 is passed by the next one. */
  method Place(memory: IpsaMemory)
    requires memory.procSpace == SPACES
    modifies memory`physicalProcId
    ensures forall k :: k in memory.physicalProcId <==> 0 <= k < 16
    ensures memory.physicalProcId[0] == 0 && memory.physicalProcId[1] == 2 && memory.physicalProcId[4] == 1
    ensures forall k :: 0 <= k < 16 && k != 0 && k != 1 && k != 4 ==> memory.physicalProcId[k] == -1
  {
    ghost var c := memory.PlaceStages([0, 1, 2]);
    PlacedOneByOne();
    SlotsOfThree(c, memory.physicalProcId);
  }

  lemma {:induction false} SlotsOfThree(c: Clusters, physical: map<int, int>)
    requires Shaped(c) && SlotsOf(c, physical) && c.procs == [[0, 2], [1], [], []]
    ensures forall k :: k in physical <==> 0 <= k < 16
    ensures physical[0] == 0 && physical[1] == 2 && physical[4] == 1
    ensures forall k :: 0 <= k < 16 && k != 0 && k != 1 && k != 4 ==> physical[k] == -1
  {
    assert physical[Slot(0, 0)] == 0 && physical[Slot(0, 1)] == 2 && physical[Slot(1, 0)] == 1;
    forall k | 0 <= k < 16 && k != 0 && k != 1 && k != 4
      ensures physical[k] == -1
    {
      assert k == Slot(k / 4, k % 4);
    }
  }
}
