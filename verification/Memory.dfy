/** rP4-compiler/rp4c/ipsa_memory.h: the allocation as the source performs it, and what it guarantees. */
module Memory {
  import opened Finite
  import opened OrderedMaps
  import opened Configuration
  import opened Placement
  import opened Powers
  import opened Stages
  import opened Blocks

  /** The numbers of the blocks a table was given for its keys or for its values. */
  function BlocksOf(log: seq<Handout>, table: int, key: bool): seq<int> {
    if log == [] then []
    else
      var h := log[|log| - 1];
      BlocksOf(log[..|log| - 1], table, key) + if h.table == table && h.key == key then [h.block] else []
  }

  lemma {:induction false} BlocksOfLast(log: seq<Handout>, h: Handout, table: int, key: bool)
    ensures BlocksOf(log + [h], table, key) ==
            BlocksOf(log, table, key) + if h.table == table && h.key == key then [h.block] else []
  {
    assert (log + [h])[..|log|] == log;
  }

  /** Slot `4 * i + j` holds the `j`-th stage of cluster `i`, or -1. */
  ghost predicate SlotsOf(c: Clusters, physical: map<int, int>)
    requires Shaped(c)
  {
    && (forall k :: k in physical <==> 0 <= k < PROC_COUNT)
    && (forall i, j :: 0 <= i < CLUSTER_COUNT && 0 <= j < CLUSTER_PROC_COUNT ==>
          physical[Slot(i, j)] == if j < |c.procs[i]| then c.procs[i][j] else -1)
  }

  /** The cluster of every placed stage. */
  ghost predicate ClustersOf(c: Clusters, cluster: map<int, int>)
    requires Shaped(c)
  {
    && (forall i, id :: PlacedIn(c, i, id) ==> id in cluster && cluster[id] == i)
    && (forall id :: id in cluster ==> exists i :: PlacedIn(c, i, id))
  }

  type Configs = map<int, seq<int>>

  ghost predicate Configured(tables: Tables, log: seq<Handout>, keyConfig: Configs, valueConfig: Configs) {
    forall t :: t in tables ==>
      && t in keyConfig && keyConfig[t] == BlocksOf(log, t, true)
      && t in valueConfig && valueConfig[t] == BlocksOf(log, t, false)
  }

  ghost predicate IsTableSpace(tables: Tables, space: Spaces) {
    forall t :: t in tables ==> HasItsNeed(tables, space, t)
  }

  ghost predicate HasItsNeed(tables: Tables, space: Spaces, t: int)
    requires t in tables
  {
    t in space && space[t] == tables[t].Need()
  }

  ghost predicate NeedsUpTo(tables: Tables, space: Spaces, ids: seq<int>, n: nat) {
    n <= |ids| && forall j :: 0 <= j < n ==> ids[j] in tables && HasItsNeed(tables, space, ids[j])
  }

  lemma {:induction false} OneMoreNeed(tables: Tables, space: Spaces, ids: seq<int>, n: nat, need: Space)
    requires NeedsUpTo(tables, space, ids, n) && n < |ids| && ids[n] in tables && need == tables[ids[n]].Need()
    ensures NeedsUpTo(tables, space[ids[n] := need], ids, n + 1)
  {
  }

  lemma {:induction false} AllHaveNeeds(tables: Tables, space: Spaces, ids: seq<int>)
    requires forall t :: t in tables.Keys ==> t in ids
    requires NeedsUpTo(tables, space, ids, |ids|)
    ensures IsTableSpace(tables, space)
  {
    forall t | t in tables
      ensures HasItsNeed(tables, space, t)
    {
      assert t in ids;
    }
  }

  method SpaceOfTables(tables: Tables) returns (space: Spaces)
    ensures IsTableSpace(tables, space)
  {
    space := map[];
    var ids := Ascending(tables.Keys);
    for i := 0 to |ids|
      invariant NeedsUpTo(tables, space, ids, i)
    {
      var t := ids[i];
      assert t in tables.Keys;
      var need := tables[t].Need();
      OneMoreNeed(tables, space, ids, i, need);
      space := space[t := need];
    }
    AllHaveNeeds(tables, space, ids);
  }

  lemma {:induction false} NeedOfStep(tables: Tables, ids: seq<int>, k: nat)
    requires Known(tables, ids) && k < |ids|
    ensures Known(tables, ids[..k]) && Known(tables, ids[..k + 1])
    ensures NeedOf(tables, ids[..k + 1]) == Plus(NeedOf(tables, ids[..k]), tables[ids[k]].Need())
  {
    assert ids[..k + 1][..k] == ids[..k];
  }

  method SumTables(tables: Tables, ids: seq<int>, space: Spaces) returns (need: Space)
    requires Known(tables, ids) && IsTableSpace(tables, space)
    ensures need == NeedOf(tables, ids)
  {
    need := NOTHING;
    for k := 0 to |ids|
      invariant need == NeedOf(tables, ids[..k])
    {
      NeedOfStep(tables, ids, k);
      var t := ids[k];
      need := Plus(need, space[t]);
    }
    assert ids[..|ids|] == ids;
  }

  method SpaceOfStages(tables: Tables, stages: seq<Stage>, tableSpace: Spaces) returns (space: Spaces)
    requires KnownTables(tables, stages) && DistinctIds(stages) && IsTableSpace(tables, tableSpace)
    ensures IsSpaceOf(tables, stages, space)
  {
    space := map[];
    for i := 0 to |stages|
      invariant forall j :: 0 <= j < i && !stages[j].removed ==>
        SpaceOf(space, stages[j].id) == NeedOf(tables, stages[j].tableIds)
    {
      if !stages[i].removed {
        var need := SumTables(tables, stages[i].tableIds, tableSpace);
        space := space[stages[i].id := need];
      }
    }
  }

  lemma {:induction false} PlaceAllStep(space: Spaces, topo: seq<int>, n: nat)
    requires n < |topo|
    ensures PlaceAll(space, topo[..n + 1]) == PlaceOne(PlaceAll(space, topo[..n]), topo[n], SpaceOf(space, topo[n]))
  {
    assert topo[..n + 1][..n] == topo[..n];
  }

  /** The scan for the first cluster that fits. */
  method FindCluster(left: seq<Space>, procs: seq<seq<int>>, need: Space, ghost refused: seq<int>) returns (i: nat)
    requires Shaped(Clusters(left, procs, refused))
    ensures i == FirstFit(Clusters(left, procs, refused), need, 0)
  {
    ghost var c := Clusters(left, procs, refused);
    i := 0;
    while i < CLUSTER_COUNT && !(|procs[i]| < CLUSTER_PROC_COUNT && Within(need, left[i]))
      invariant 0 <= i <= CLUSTER_COUNT
      invariant FirstFit(c, need, 0) == FirstFit(c, need, i)
    {
      i := i + 1;
    }
  }

  method EmptySlots() returns (physical: map<int, int>)
    ensures SlotsOf(EMPTY, physical)
  {
    physical := map[];
    for k := 0 to PROC_COUNT
      invariant forall j :: j in physical <==> 0 <= j < k
      invariant forall j :: j in physical ==> physical[j] == -1
    {
      physical := physical[k := -1];
    }
  }

  lemma {:induction false} SlotTaken(c: Clusters, physical: map<int, int>, i: nat, id: int, need: Space)
    requires Shaped(c) && SlotsOf(c, physical) && i < CLUSTER_COUNT && Fits(c, i, need)
    ensures SlotsOf(Put(c, i, id, need), physical[Slot(i, |c.procs[i]|) := id])
  {
  }

  // ----- how many blocks, and which

  /** The numbers from `start` on, `n` of them. */
  function From(start: nat, n: nat): (r: seq<int>)
    ensures |r| == n && forall i :: 0 <= i < n ==> r[i] == start + i
  {
    seq(n, i => start + i)
  }

  /** A table is given width times depth numbers for its keys and for its values, the next of their kinds. */
  ghost predicate Given(t: Table, x: nat, y: nat, key: seq<int>, value: seq<int>, x': nat, y': nat, key': seq<int>,
                        value': seq<int>)
  {
    if t.keyInTcam then
      && x' == x + t.keyWidth * t.keyDepth && key' == key + From(x, t.keyWidth * t.keyDepth)
      && y' == y + t.valueWidth * t.valueDepth && value' == value + From(y, t.valueWidth * t.valueDepth)
    else
      && x' == x && key' == key + From(y, t.keyWidth * t.keyDepth)
      && y' == y + t.keyWidth * t.keyDepth + t.valueWidth * t.valueDepth
      && value' == value + From(y + t.keyWidth * t.keyDepth, t.valueWidth * t.valueDepth)
  }

  lemma {:induction false} HandOutGives(log: seq<Handout>, cluster: int, tcam: bool, block: nat, id: int, key: bool,
                                        n: nat, t: int, k: bool)
    ensures BlocksOf(HandOut(log, cluster, tcam, block, id, key, n), t, k) ==
            BlocksOf(log, t, k) + if t == id && k == key then From(block, n) else []
  {
    if n > 0 {
      var front := HandOut(log, cluster, tcam, block, id, key, n - 1);
      HandOutGives(log, cluster, tcam, block, id, key, n - 1, t, k);
      BlocksOfLast(front, Handout(cluster, tcam, block + n - 1, id, key), t, k);
      FromLast(block, n);
    }
  }

  lemma {:induction false} FromLast(start: nat, n: nat)
    requires n > 0
    ensures From(start, n) == From(start, n - 1) + [start + n - 1]
  {
  }

  lemma {:induction false} TableGiven(log: seq<Handout>, cluster: int, id: int, t: Table)
    ensures var after := TableLog(log, cluster, id, t);
            Given(t, Count(log, cluster, true), Count(log, cluster, false), BlocksOf(log, id, true),
                  BlocksOf(log, id, false), Count(after, cluster, true), Count(after, cluster, false),
                  BlocksOf(after, id, true), BlocksOf(after, id, false))
  {
    var start := Count(log, cluster, t.keyInTcam);
    var keyed := HandOut(log, cluster, t.keyInTcam, start, id, true, t.KeyBlocks());
    HandOutGrows(log, cluster, t.keyInTcam, start, id, true, t.KeyBlocks());
    HandOutGrows(keyed, cluster, false, Count(keyed, cluster, false), id, false, t.ValueBlocks());
    HandOutGives(log, cluster, t.keyInTcam, start, id, true, t.KeyBlocks(), id, true);
    HandOutGives(log, cluster, t.keyInTcam, start, id, true, t.KeyBlocks(), id, false);
    HandOutGives(keyed, cluster, false, Count(keyed, cluster, false), id, false, t.ValueBlocks(), id, true);
    HandOutGives(keyed, cluster, false, Count(keyed, cluster, false), id, false, t.ValueBlocks(), id, false);
  }

  /** How often kept stages list the table. */
  function Times(stages: seq<Stage>, t: int): nat {
    if stages == [] then 0
    else
      var s := stages[|stages| - 1];
      Times(stages[..|stages| - 1], t) + if s.removed then 0 else multiset(s.tableIds)[t]
  }

  /** Width times depth, of the keys or of the values. */
  function Product(t: Table, key: bool): nat {
    if key then t.keyWidth * t.keyDepth else t.valueWidth * t.valueDepth
  }

  lemma {:induction false} OneTableLength(log: seq<Handout>, cluster: int, id: int, table: Table, t: int, key: bool)
    ensures |BlocksOf(TableLog(log, cluster, id, table), t, key)| ==
            |BlocksOf(log, t, key)| + if t == id then Product(table, key) else 0
  {
    var start := Count(log, cluster, table.keyInTcam);
    var keyed := HandOut(log, cluster, table.keyInTcam, start, id, true, table.KeyBlocks());
    HandOutGives(log, cluster, table.keyInTcam, start, id, true, table.KeyBlocks(), t, key);
    HandOutGives(keyed, cluster, false, Count(keyed, cluster, false), id, false, table.ValueBlocks(), t, key);
  }

  lemma {:induction false} StageLength(log: seq<Handout>, cluster: int, tables: Tables, ids: seq<int>, t: int,
                                       key: bool)
    requires Known(tables, ids) && t in tables
    ensures |BlocksOf(StageLog(log, cluster, tables, ids), t, key)| ==
            |BlocksOf(log, t, key)| + multiset(ids)[t] * Product(tables[t], key)
  {
    if ids != [] {
      var front, id := ids[..|ids| - 1], ids[|ids| - 1];
      StageLength(log, cluster, tables, front, t, key);
      OneTableLength(StageLog(log, cluster, tables, front), cluster, id, tables[id], t, key);
      OneMoreTime(front, id, t, Product(tables[t], key));
      assert ids == front + [id];
    }
  }

  lemma {:induction false} OneMoreTime(front: seq<int>, id: int, t: int, n: nat)
    ensures multiset(front + [id])[t] * n == multiset(front)[t] * n + if t == id then n else 0
  {
    assert multiset(front + [id])[t] == multiset(front)[t] + if t == id then 1 else 0;
    Distribute(multiset(front)[t], 1, n);
  }

  lemma {:induction false} TimesTogether(before: nat, after: nat, a: nat, b: nat, n: nat)
    requires before == a * n && after == before + b * n
    ensures after == (a + b) * n
  {
  }

  /** Each time a kept stage lists it, a table is given width times depth blocks. */
  lemma {:induction false} AllLength(tables: Tables, stages: seq<Stage>, cluster: map<int, int>, t: int, key: bool)
    requires KnownTables(tables, stages) && t in tables
    ensures |BlocksOf(AllLog(tables, stages, cluster), t, key)| == Times(stages, t) * Product(tables[t], key)
  {
    if stages != [] {
      var front, s := stages[..|stages| - 1], stages[|stages| - 1];
      AllLength(tables, front, cluster, t, key);
      if !s.removed {
        StageLength(AllLog(tables, front, cluster), ClusterOf(cluster, s.id), tables, s.tableIds, t, key);
        TimesTogether(|BlocksOf(AllLog(tables, front, cluster), t, key)|,
                      |BlocksOf(AllLog(tables, stages, cluster), t, key)|,
                      Times(front, t), multiset(s.tableIds)[t], Product(tables[t], key));
      }
    }
  }

  /** The lists are as long as that. */
  ghost predicate AsLongAsListed(tables: Tables, stages: seq<Stage>, keyConfig: Configs, valueConfig: Configs) {
    forall t :: t in tables ==>
      && t in keyConfig && |keyConfig[t]| == Times(stages, t) * (tables[t].keyWidth * tables[t].keyDepth)
      && t in valueConfig && |valueConfig[t]| == Times(stages, t) * (tables[t].valueWidth * tables[t].valueDepth)
  }

  lemma {:induction false} ConfiguredLengths(tables: Tables, stages: seq<Stage>, cluster: map<int, int>,
                                             keyConfig: Configs, valueConfig: Configs)
    requires KnownTables(tables, stages)
    requires Configured(tables, AllLog(tables, stages, cluster), keyConfig, valueConfig)
    ensures AsLongAsListed(tables, stages, keyConfig, valueConfig)
  {
    forall t | t in tables
      ensures |keyConfig[t]| == Times(stages, t) * (tables[t].keyWidth * tables[t].keyDepth)
      ensures |valueConfig[t]| == Times(stages, t) * (tables[t].valueWidth * tables[t].valueDepth)
    {
      AllLength(tables, stages, cluster, t, true);
      AllLength(tables, stages, cluster, t, false);
    }
  }

  /** The space of a table is width times depth of its keys, in their memory, and of its values. */
  ghost predicate InProducts(t: Table, s: Space) {
    && s.tcam == (if t.keyInTcam then t.keyWidth * t.keyDepth else 0)
    && s.sram == t.valueWidth * t.valueDepth + if t.keyInTcam then 0 else t.keyWidth * t.keyDepth
  }

  class IpsaMemory {
    var tableSpace: Spaces
    var procSpace: Spaces
    var physicalProcId: map<int, int>
    // the `config` lists of the tables' key and value memory
    var keyConfig: Configs
    var valueConfig: Configs

    constructor (tables: Tables)
      ensures tableSpace == procSpace == map[] && physicalProcId == map[]
      ensures Configured(tables, [], keyConfig, valueConfig)
    {
      tableSpace, procSpace, physicalProcId := map[], map[], map[];
      keyConfig := map t | t in tables :: [];
      valueConfig := map t | t in tables :: [];
    }

    method CalculateTableSpace(tables: Tables, stages: seq<Stage>)
      requires KnownTables(tables, stages) && DistinctIds(stages) && tableSpace == procSpace == map[]
      modifies this`tableSpace, this`procSpace
      ensures IsTableSpace(tables, tableSpace)
      ensures forall t :: t in tables ==> t in tableSpace && InProducts(tables[t], tableSpace[t])
      ensures IsSpaceOf(tables, stages, procSpace)
    {
      tableSpace := SpaceOfTables(tables);
      procSpace := SpaceOfStages(tables, stages, tableSpace);
    }

    /** One stage: into the first cluster that fits, or refused. */
    method PlaceStage(id: int, left: seq<Space>, procs: seq<seq<int>>, ghost refused: seq<int>)
      returns (left': seq<Space>, procs': seq<seq<int>>, ghost refused': seq<int>)
      requires Shaped(Clusters(left, procs, refused))
      requires SlotsOf(Clusters(left, procs, refused), physicalProcId)
      modifies this`physicalProcId
      ensures Clusters(left', procs', refused') ==
              PlaceOne(Clusters(left, procs, refused), id, SpaceOf(procSpace, id))
      ensures SlotsOf(Clusters(left', procs', refused'), physicalProcId)
    {
      left', procs', refused' := left, procs, refused;
      var need := SpaceOf(procSpace, id);
      var i := FindCluster(left, procs, need, refused);
      if i < CLUSTER_COUNT {
        SlotTaken(Clusters(left, procs, refused), physicalProcId, i, id, need);
        physicalProcId := physicalProcId[Slot(i, |procs[i]|) := id];
        left' := left[i := Space(left[i].sram - need.sram, left[i].tcam - need.tcam)];
        procs' := procs[i := procs[i] + [id]];
      } else {
        refused' := refused + [id];
      }
    }

    /** First fit, stage by stage. */
    method PlaceStages(topo: seq<int>) returns (ghost c: Clusters)
      modifies this`physicalProcId
      ensures c == PlaceAll(procSpace, topo) && SlotsOf(c, physicalProcId)
    {
      var left := [CAPACITY, CAPACITY, CAPACITY, CAPACITY];
      var procs: seq<seq<int>> := [[], [], [], []];
      ghost var refused: seq<int> := [];
      physicalProcId := EmptySlots();
      for n := 0 to |topo|
        invariant Clusters(left, procs, refused) == PlaceAll(procSpace, topo[..n])
        invariant SlotsOf(Clusters(left, procs, refused), physicalProcId)
      {
        PlaceAllStep(procSpace, topo, n);
        left, procs, refused := PlaceStage(topo[n], left, procs, refused);
      }
      assert topo[..|topo|] == topo;
      c := Clusters(left, procs, refused);
    }

    method ProcClusters(ghost c: Clusters) returns (cluster: map<int, int>)
      requires Shaped(c) && SlotsOf(c, physicalProcId)
      requires forall i :: 0 <= i < CLUSTER_COUNT ==> |c.procs[i]| <= CLUSTER_PROC_COUNT
      requires forall i, j, id :: PlacedIn(c, i, id) && PlacedIn(c, j, id) ==> i == j
      requires forall i, id :: PlacedIn(c, i, id) ==> 0 <= id
      ensures ClustersOf(c, cluster)
    {
      cluster := map[];
      for k := 0 to PROC_COUNT
        invariant forall id :: id in cluster ==> PlacedIn(c, cluster[id], id)
        invariant forall j :: 0 <= j < k && physicalProcId[j] >= 0 ==> physicalProcId[j] in cluster
      {
        var i, j := k / CLUSTER_PROC_COUNT, k % CLUSTER_PROC_COUNT;
        assert k == Slot(i, j);
        var id := physicalProcId[k];
        assert physicalProcId[Slot(i, j)] == if j < |c.procs[i]| then c.procs[i][j] else -1;
        if id >= 0 {
          assert id == c.procs[i][j];
          assert PlacedIn(c, i, id);
          if id !in cluster {
            cluster := cluster[id := i];
          }
        }
      }
      forall i, id | PlacedIn(c, i, id)
        ensures id in cluster && cluster[id] == i
      {
        var j :| 0 <= j < |c.procs[i]| && c.procs[i][j] == id;
        assert physicalProcId[Slot(i, j)] == id;
      }
    }

    /** `config.push_back(x++)`, `n` times. */
    method PushBlocks(tables: Tables, cluster: int, tcam: bool, table: int, key: bool, n: nat, start: nat,
                      ghost log: seq<Handout>) returns (x: nat, ghost after: seq<Handout>)
      requires table in tables && Configured(tables, log, keyConfig, valueConfig)
      modifies this`keyConfig, this`valueConfig
      ensures x == start + n && after == HandOut(log, cluster, tcam, start, table, key, n)
      ensures Configured(tables, after, keyConfig, valueConfig)
    {
      x, after := start, log;
      for i := 0 to n
        invariant x == start + i && after == HandOut(log, cluster, tcam, start, table, key, i)
        invariant Configured(tables, after, keyConfig, valueConfig)
      {
        ghost var h := Handout(cluster, tcam, x, table, key);
        forall t, k { BlocksOfLast(after, h, t, k); }
        if key {
          keyConfig := keyConfig[table := keyConfig[table] + [x]];
        } else {
          valueConfig := valueConfig[table := valueConfig[table] + [x]];
        }
        x, after := x + 1, after + [h];
      }
    }

    /** The blocks of one table: TCAM is counted in `x`, SRAM in `y`. */
    method TableBlocks(tables: Tables, cluster: int, id: int, x: nat, y: nat, ghost log: seq<Handout>)
      returns (x': nat, y': nat, ghost after: seq<Handout>)
      requires id in tables && Configured(tables, log, keyConfig, valueConfig)
      requires x == Count(log, cluster, true) && y == Count(log, cluster, false)
      modifies this`keyConfig, this`valueConfig
      ensures after == TableLog(log, cluster, id, tables[id])
      ensures x' == Count(after, cluster, true) && y' == Count(after, cluster, false)
      ensures Configured(tables, after, keyConfig, valueConfig)
      ensures Given(tables[id], x, y, old(keyConfig)[id], old(valueConfig)[id], x', y', keyConfig[id], valueConfig[id])
    {
      TableGiven(log, cluster, id, tables[id]);
      var t := tables[id];
      x', y' := x, y;
      HandOutGrows(log, cluster, t.keyInTcam, if t.keyInTcam then x else y, id, true, t.KeyBlocks());
      if t.keyInTcam {
        x', after := PushBlocks(tables, cluster, true, id, true, t.KeyBlocks(), x, log);
      } else {
        y', after := PushBlocks(tables, cluster, false, id, true, t.KeyBlocks(), y, log);
      }
      HandOutGrows(after, cluster, false, y', id, false, t.ValueBlocks());
      y', after := PushBlocks(tables, cluster, false, id, false, t.ValueBlocks(), y', after);
    }

    method StageBlocks(tables: Tables, cluster: int, ids: seq<int>, x: nat, y: nat, ghost log: seq<Handout>)
      returns (x': nat, y': nat, ghost after: seq<Handout>)
      requires Known(tables, ids) && Configured(tables, log, keyConfig, valueConfig)
      requires x == Count(log, cluster, true) && y == Count(log, cluster, false)
      modifies this`keyConfig, this`valueConfig
      ensures after == StageLog(log, cluster, tables, ids)
      ensures x' == Count(after, cluster, true) && y' == Count(after, cluster, false)
      ensures Configured(tables, after, keyConfig, valueConfig)
    {
      x', y', after := x, y, log;
      for k := 0 to |ids|
        invariant after == StageLog(log, cluster, tables, ids[..k])
        invariant x' == Count(after, cluster, true) && y' == Count(after, cluster, false)
        invariant Configured(tables, after, keyConfig, valueConfig)
      {
        assert ids[..k + 1][..k] == ids[..k];
        x', y', after := TableBlocks(tables, cluster, ids[k], x', y', after);
      }
      assert ids[..|ids|] == ids;
    }

    /** `AllocateMemory`: the slots are the first-fit placement, and every table is given exactly the
        blocks the log says. */
    method AllocateMemory(tables: Tables, stages: seq<Stage>, topo: seq<int>)
      returns (ghost c: Clusters, ghost cluster: map<int, int>)
      requires KnownTables(tables, stages) && DistinctIds(stages)
      requires NoDup(topo) && forall id :: id in topo ==> 0 <= id
      requires tableSpace == procSpace == map[] && Configured(tables, [], keyConfig, valueConfig)
      modifies this
      ensures IsSpaceOf(tables, stages, procSpace)
      ensures c == PlaceAll(procSpace, topo) && SlotsOf(c, physicalProcId) && ClustersOf(c, cluster)
      ensures Configured(tables, AllLog(tables, stages, cluster), keyConfig, valueConfig)
      ensures AsLongAsListed(tables, stages, keyConfig, valueConfig)
    {
      CalculateTableSpace(tables, stages);
      c := PlaceStages(topo);
      PlacementConserves(procSpace, topo);
      PlacementPartitions(procSpace, topo);
      var procCluster := ProcClusters(c);
      cluster := procCluster;
      AllBlocks(tables, stages, procCluster, c);
      ConfiguredLengths(tables, stages, procCluster, keyConfig, valueConfig);
    }

    /** The blocks of all tables, stage by stage. */
    method AllBlocks(tables: Tables, stages: seq<Stage>, procCluster: map<int, int>, ghost c: Clusters)
      requires KnownTables(tables, stages) && Shaped(c) && ClustersOf(c, procCluster)
      requires Configured(tables, [], keyConfig, valueConfig)
      modifies this`keyConfig, this`valueConfig
      ensures Configured(tables, AllLog(tables, stages, procCluster), keyConfig, valueConfig)
    {
      ghost var log: seq<Handout> := [];
      var number: seq<(nat, nat)> := [(0, 0), (0, 0), (0, 0), (0, 0)];
      for i := 0 to |stages|
        invariant log == AllLog(tables, stages[..i], procCluster)
        invariant CountersOf(number, log)
        invariant Configured(tables, log, keyConfig, valueConfig)
      {
        assert stages[..i + 1][..i] == stages[..i];
        if !stages[i].removed {
          var k := ClusterOf(procCluster, stages[i].id);
          ClusterInRange(c, procCluster, stages[i].id);
          var x, y;
          ghost var before := log;
          x, y, log := StageBlocks(tables, k, stages[i].tableIds, number[k].0, number[k].1, log);
          StageLogStaysHere(before, k, tables, stages[i].tableIds);
          number := number[k := (x, y)];
        }
      }
      assert stages[..|stages|] == stages;
    }
  }

  /** The counters of the clusters: how many TCAM and SRAM blocks each has handed out. */
  ghost predicate CountersOf(number: seq<(nat, nat)>, log: seq<Handout>) {
    |number| == CLUSTER_COUNT && forall k :: 0 <= k < CLUSTER_COUNT ==>
      number[k].0 == Count(log, k, true) && number[k].1 == Count(log, k, false)
  }

  lemma {:induction false} ClusterInRange(c: Clusters, cluster: map<int, int>, id: int)
    requires Shaped(c) && ClustersOf(c, cluster)
    ensures 0 <= ClusterOf(cluster, id) < CLUSTER_COUNT
  {
    if id in cluster {
      var i :| PlacedIn(c, i, id);
    }
  }

  lemma {:induction false} StageLogStaysHere(log: seq<Handout>, cluster: int, tables: Tables, ids: seq<int>)
    requires Known(tables, ids)
    ensures forall c, k :: c != cluster ==> Count(StageLog(log, cluster, tables, ids), c, k) == Count(log, c, k)
  {
    if ids != [] {
      var front, id := ids[..|ids| - 1], ids[|ids| - 1];
      StageLogStaysHere(log, cluster, tables, front);
      var before, t := StageLog(log, cluster, tables, front), tables[id];
      var block := Count(before, cluster, t.keyInTcam);
      HandOutGrows(before, cluster, t.keyInTcam, block, id, true, t.KeyBlocks());
      var keyed := HandOut(before, cluster, t.keyInTcam, block, id, true, t.KeyBlocks());
      HandOutGrows(keyed, cluster, false, Count(keyed, cluster, false), id, false, t.ValueBlocks());
    }
  }
}
