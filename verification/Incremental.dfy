/** rP4-compiler/rp4c/ipsa_builder.h, `allocateMemory(prev)`: placing a changed program so that the tables it
    keeps stay where they are. */
module Incremental {
  import opened Finite
  import opened OrderedMaps
  import opened Configuration
  import opened Placement

  /** A table of the program in place: its processor's slot, the kind of its key memory and its blocks. */
  datatype PrevTable = PrevTable(slot: nat, tcam: bool, key: seq<int>, value: seq<int>)

  /** A table of the changed program: its stage, and the kind of its key memory. */
  datatype NewTable = NewTable(stage: int, tcam: bool)

  /** Tables are known by name; names are numbered in their order. */
  type Layout = map<int, PrevTable>

  datatype Update = Update(tables: map<int, NewTable>, prev: Layout, topo: seq<int>, space: Spaces)

  predicate Surviving(u: Update, name: int) {
    name in u.tables && name in u.prev
  }

  function PrevCluster(u: Update, name: int): nat
    requires Surviving(u, name)
  {
    u.prev[name].slot / CLUSTER_PROC_COUNT
  }

  /** A map entry that is missing reads as zero. */
  function At(m: map<int, int>, k: int): int {
    if k in m then m[k] else 0
  }

  ghost predicate Survivor(u: Update, id: int, name: int) {
    Surviving(u, name) && u.tables[name].stage == id
  }

  ghost predicate HasSurvivor(u: Update, id: int) {
    exists name :: Survivor(u, id, name)
  }

  /** The tables a stage keeps come from one cluster; one outside the pipeline must come from the first. */
  ghost predicate Agree(u: Update) {
    && (forall a, b, id :: Survivor(u, id, a) && Survivor(u, id, b) ==> PrevCluster(u, a) == PrevCluster(u, b))
    && (forall a, id :: Survivor(u, id, a) && id !in u.topo ==> PrevCluster(u, a) == 0)
  }

  /** The cluster a stage must go to, -1 if it keeps no table. */
  ghost function StageCluster(u: Update, id: int): int {
    if HasSurvivor(u, id) then
      var name :| Survivor(u, id, name);
      PrevCluster(u, name)
    else -1
  }

  /** The stages that must go to cluster `i`. */
  ghost function Members(u: Update, n: nat, i: int): seq<int>
    requires n <= |u.topo|
  {
    if n == 0 then []
    else Members(u, n - 1, i) + if StageCluster(u, u.topo[n - 1]) == i then [u.topo[n - 1]] else []
  }

  ghost predicate Room(u: Update, i: int) {
    && |Members(u, |u.topo|, i)| <= CLUSTER_PROC_COUNT
    && Within(Total(u.space, Members(u, |u.topo|, i)), CAPACITY)
  }

  /** When an update can be done in place: the kept tables of a stage agree, every stage keeps one, and every
      cluster has room for its stages. */
  ghost predicate Accepts(u: Update) {
    && Agree(u)
    && (forall id :: id in u.topo ==> HasSurvivor(u, id))
    && (forall i :: 0 <= i < CLUSTER_COUNT ==> Room(u, i))
  }

  /** Slots are those of the processors there are. */
  ghost predicate ValidUpdate(u: Update) {
    && NoDup(u.topo)
    && forall name :: name in u.prev ==> u.prev[name].slot < PROC_COUNT
  }

  // ----- the clusters of the kept tables

  /** The kept tables among the first `n` names have set the clusters of their stages. */
  ghost predicate ClustersSet(u: Update, names: seq<int>, n: nat, m: map<int, int>)
    requires n <= |names|
  {
    && (forall id :: id in u.topo ==> id in m)
    && (forall id :: id in m && id !in u.topo ==> m[id] == 0)
    && (forall k :: 0 <= k < n && Surviving(u, names[k]) ==>
          At(m, u.tables[names[k]].stage) == PrevCluster(u, names[k]))
    && (forall id :: id in u.topo ==> m[id] == -1 || SetBy(u, id, m[id]))
  }

  ghost predicate SetBy(u: Update, id: int, x: int) {
    exists name :: Survivor(u, id, name) && PrevCluster(u, name) == x
  }

  ghost predicate FixedClusters(u: Update, m: map<int, int>) {
    && Agree(u)
    && forall id :: id in u.topo ==> id in m && m[id] == StageCluster(u, id)
  }

  lemma {:induction false} FixedCluster(u: Update, m: map<int, int>, n: nat)
    requires FixedClusters(u, m) && n < |u.topo|
    ensures u.topo[n] in m && m[u.topo[n]] == StageCluster(u, u.topo[n])
  {
    var id := u.topo[n];
    assert id in u.topo;
  }

  lemma {:induction false} SetIsFixed(u: Update, names: seq<int>, m: map<int, int>)
    requires ClustersSet(u, names, |names|, m) && forall name :: name in u.tables ==> name in names
    ensures FixedClusters(u, m)
  {
    forall id, a | Survivor(u, id, a)
      ensures At(m, id) == PrevCluster(u, a)
    {
      var k :| 0 <= k < |names| && names[k] == a;
    }
    forall id | id in u.topo
      ensures m[id] == StageCluster(u, id)
    {
      if HasSurvivor(u, id) {
        var name :| Survivor(u, id, name) && StageCluster(u, id) == PrevCluster(u, name);
      }
    }
  }

  lemma {:induction false} Disagree(u: Update, names: seq<int>, n: nat, m: map<int, int>)
    requires n < |names| && ClustersSet(u, names, n, m) && Surviving(u, names[n])
    requires 0 <= At(m, u.tables[names[n]].stage) && At(m, u.tables[names[n]].stage) != PrevCluster(u, names[n])
    ensures !Agree(u)
  {
    var id := u.tables[names[n]].stage;
    assert Survivor(u, id, names[n]);
    if id in u.topo {
      var name :| Survivor(u, id, name) && PrevCluster(u, name) == m[id];
    }
  }

  lemma {:induction false} NextName(u: Update, names: seq<int>, n: nat, m: map<int, int>, m': map<int, int>)
    requires n < |names| && ClustersSet(u, names, n, m)
    requires Surviving(u, names[n]) ==> m' == TableTurn(u, names[n], m)
    requires !Surviving(u, names[n]) ==> m' == m
    requires Surviving(u, names[n]) && At(m, u.tables[names[n]].stage) >= 0 ==>
      At(m, u.tables[names[n]].stage) == PrevCluster(u, names[n])
    ensures ClustersSet(u, names, n + 1, m')
  {
    if Surviving(u, names[n]) {
      var id := u.tables[names[n]].stage;
      assert Survivor(u, id, names[n]);
      if At(m, id) < 0 {
        assert id in u.topo && SetBy(u, id, PrevCluster(u, names[n]));
        NoneBefore(u, names, n, m, id);
      }
    }
  }

  /** A stage without a cluster has had no kept table yet. */
  lemma {:induction false} NoneBefore(u: Update, names: seq<int>, n: nat, m: map<int, int>, id: int)
    requires n <= |names| && ClustersSet(u, names, n, m) && At(m, id) < 0
    ensures forall k :: 0 <= k < n && Surviving(u, names[k]) ==> u.tables[names[k]].stage != id
  {
  }

  /** What a kept table does to the clusters, if it agrees with them. */
  function TableTurn(u: Update, name: int, m: map<int, int>): map<int, int>
    requires Surviving(u, name)
  {
    if At(m, u.tables[name].stage) >= 0 then m else m[u.tables[name].stage := PrevCluster(u, name)]
  }

  lemma {:induction false} NothingSet(u: Update, names: seq<int>, m: map<int, int>)
    requires m == map id | id in u.topo :: -1
    ensures ClustersSet(u, names, 0, m)
  {
  }

  method KeptClusters(u: Update) returns (ok: bool, m: map<int, int>)
    requires ValidUpdate(u)
    ensures ok <==> Agree(u)
    ensures ok ==> FixedClusters(u, m)
  {
    m := map id | id in u.topo :: -1;
    var names := Ascending(u.tables.Keys);
    NothingSet(u, names, m);
    var n := 0;
    while n < |names|
      invariant 0 <= n <= |names| && ClustersSet(u, names, n, m)
    {
      var name := names[n];
      ghost var before := m;
      assert name in u.tables.Keys;
      if name in u.prev {
        var x := At(m, u.tables[name].stage);
        if x >= 0 {
          if x != PrevCluster(u, name) {
            Disagree(u, names, n, m);
            return false, m;
          }
        } else {
          m := m[u.tables[name].stage := PrevCluster(u, name)];
        }
      }
      NextName(u, names, n, before, m);
      n := n + 1;
    }
    assert forall name :: name in u.tables ==> name in u.tables.Keys;
    SetIsFixed(u, names, m);
    ok := true;
  }

  // ----- placing the stages

  ghost predicate Filled(u: Update, n: nat, c: Clusters) {
    && n <= |u.topo| && Shaped(c) && c.refused == []
    && (forall i :: 0 <= i < CLUSTER_COUNT ==> c.procs[i] == Members(u, n, i))
    && Conserves(u.space, c)
  }

  lemma {:induction false} MembersGrow(u: Update, m: nat, n: nat, i: int)
    requires m <= n <= |u.topo|
    ensures Members(u, m, i) <= Members(u, n, i)
    decreases n
  {
    if m < n {
      MembersGrow(u, m, n - 1, i);
    }
  }

  /** Adding stages only adds to the space they take. */
  lemma {:induction false} TotalGrows(space: Spaces, s: seq<int>, t: seq<int>)
    requires s <= t
    ensures |s| <= |t| && Within(Total(space, s), Total(space, t))
    decreases |t|
  {
    if |s| < |t| {
      var front, id := t[..|t| - 1], t[|t| - 1];
      TotalGrows(space, s, front);
      WithinMore(Total(space, s), Total(space, front), SpaceOf(space, id));
    } else {
      assert s == t;
    }
  }

  lemma {:induction false} WithinMore(a: Space, b: Space, more: Space)
    requires Within(a, b)
    ensures Within(a, Plus(b, more))
  {
  }

  lemma {:induction false} NoRoom(u: Update, n: nat, c: Clusters, i: int)
    requires n < |u.topo| && Filled(u, n, c) && 0 <= i < CLUSTER_COUNT && StageCluster(u, u.topo[n]) == i
    requires !Fits(c, i, SpaceOf(u.space, u.topo[n]))
    ensures !Room(u, i)
  {
    TotalLast(u.space, Members(u, n, i), u.topo[n]);
    MembersGrow(u, n + 1, |u.topo|, i);
    TotalGrows(u.space, Members(u, n + 1, i), Members(u, |u.topo|, i));
  }

  lemma {:induction false} PutFills(u: Update, n: nat, c: Clusters, i: int)
    requires n < |u.topo| && Filled(u, n, c) && 0 <= i < CLUSTER_COUNT && StageCluster(u, u.topo[n]) == i
    requires Fits(c, i, SpaceOf(u.space, u.topo[n]))
    ensures Filled(u, n + 1, Put(c, i, u.topo[n], SpaceOf(u.space, u.topo[n])))
  {
    var c' := Put(c, i, u.topo[n], SpaceOf(u.space, u.topo[n]));
    TotalLast(u.space, c.procs[i], u.topo[n]);
    forall k | 0 <= k < CLUSTER_COUNT
      ensures c'.procs[k] == Members(u, n + 1, k)
    {
      if k != i {
        assert Members(u, n + 1, k) == Members(u, n, k);
      }
    }
  }

  lemma {:induction false} SkipFills(u: Update, n: nat, c: Clusters)
    requires n < |u.topo| && Filled(u, n, c) && StageCluster(u, u.topo[n]) < 0
    ensures Filled(u, n + 1, c)
  {
  }

  lemma {:induction false} FilledHasRoom(u: Update, c: Clusters)
    requires Filled(u, |u.topo|, c)
    ensures forall i :: 0 <= i < CLUSTER_COUNT ==> Room(u, i)
  {
  }

  lemma {:induction false} ClusterExists(u: Update, id: int)
    requires ValidUpdate(u)
    ensures -1 <= StageCluster(u, id) < CLUSTER_COUNT
    ensures StageCluster(u, id) == -1 <==> !HasSurvivor(u, id)
  {
  }

  /** The slots taken are those of the stages placed. */
  ghost predicate SlotsTaken(c: Clusters, physical: map<int, int>) {
    && (forall k :: k in physical ==> SlotHolds(c, k, physical[k]))
    && (forall i, j :: InCluster(c, i, j) ==> Slot(i, j) in physical && physical[Slot(i, j)] == c.procs[i][j])
  }

  ghost predicate InCluster(c: Clusters, i: int, j: int) {
    0 <= i < |c.procs| && 0 <= j < |c.procs[i]|
  }

  ghost predicate SlotHolds(c: Clusters, k: int, id: int) {
    exists i, j :: InCluster(c, i, j) && k == Slot(i, j) && id == c.procs[i][j]
  }

  lemma {:induction false} SlotTaken(c: Clusters, physical: map<int, int>, i: nat, id: int, need: Space)
    requires Shaped(c) && SlotsTaken(c, physical) && i < CLUSTER_COUNT && Fits(c, i, need)
    requires forall i' :: 0 <= i' < CLUSTER_COUNT ==> |c.procs[i']| <= CLUSTER_PROC_COUNT
    ensures SlotsTaken(Put(c, i, id, need), physical[Slot(i, |c.procs[i]|) := id])
  {
    var c', physical' := Put(c, i, id, need), physical[Slot(i, |c.procs[i]|) := id];
    assert InCluster(c', i, |c.procs[i]|);
    forall k | k in physical'
      ensures SlotHolds(c', k, physical'[k])
    {
      if k != Slot(i, |c.procs[i]|) {
        var i', j' :| InCluster(c, i', j') && k == Slot(i', j') && physical[k] == c.procs[i'][j'];
        assert InCluster(c', i', j');
      }
    }
    forall i', j' | InCluster(c', i', j')
      ensures Slot(i', j') in physical' && physical'[Slot(i', j')] == c'.procs[i'][j']
    {
      if i' != i || j' != |c.procs[i]| {
        assert InCluster(c, i', j');
      }
    }
  }

  lemma {:induction false} PutIs(left: seq<Space>, procs: seq<seq<int>>, i: nat, id: int, need: Space)
    requires |left| == |procs| == CLUSTER_COUNT && i < CLUSTER_COUNT && Fits(Clusters(left, procs, []), i, need)
    ensures Put(Clusters(left, procs, []), i, id, need) ==
            Clusters(left[i := Space(left[i].sram - need.sram, left[i].tcam - need.tcam)],
                     procs[i := procs[i] + [id]], [])
  {
  }

  lemma {:induction false} StageTaken(u: Update, n: nat, c: Clusters, physical: map<int, int>, i: nat)
    requires n < |u.topo| && i < CLUSTER_COUNT && i == StageCluster(u, u.topo[n])
    requires Filled(u, n, c) && SlotsTaken(c, physical) && Fits(c, i, SpaceOf(u.space, u.topo[n]))
    ensures var c' := Put(c, i, u.topo[n], SpaceOf(u.space, u.topo[n]));
            Filled(u, n + 1, c') && SlotsTaken(c', physical[Slot(i, |c.procs[i]|) := u.topo[n]])
  {
    PutFills(u, n, c, i);
    SlotTaken(c, physical, i, u.topo[n], SpaceOf(u.space, u.topo[n]));
  }

  lemma {:induction false} NothingPlaced(u: Update)
    ensures Filled(u, 0, EMPTY) && SlotsTaken(EMPTY, map[])
  {
    forall i, j
      ensures !InCluster(EMPTY, i, j)
    {
      assert i == 0 || i == 1 || i == 2 || i == 3 || i < 0 || i >= 4;
    }
  }

  /** A kept table has the blocks it had. */
  ghost predicate Copied(u: Update, name: int, keyConfig: map<int, seq<int>>, valueConfig: map<int, seq<int>>) {
    Surviving(u, name) ==>
      && name in keyConfig && keyConfig[name] == u.prev[name].key
      && name in valueConfig && valueConfig[name] == u.prev[name].value
  }

  /** Nothing changes for other tables. */
  ghost predicate SameBut(name: int, before: map<int, seq<int>>, after: map<int, seq<int>>) {
    forall other :: other != name ==>
      (other in after <==> other in before) && (other in after ==> after[other] == before[other])
  }

  ghost predicate Unset(name: int, keyConfig: map<int, seq<int>>, valueConfig: map<int, seq<int>>) {
    name in keyConfig && keyConfig[name] == [] && name in valueConfig && valueConfig[name] == []
  }

  class IpsaBuilder {
    var physicalProcId: map<int, int>
    // the `config` lists of the tables' key and value memory
    var keyConfig: map<int, seq<int>>
    var valueConfig: map<int, seq<int>>

    constructor (tables: map<int, NewTable>)
      ensures physicalProcId == map[]
      ensures forall name :: name in tables ==> Unset(name, keyConfig, valueConfig)
    {
      physicalProcId := map[];
      keyConfig := map name | name in tables :: [];
      valueConfig := map name | name in tables :: [];
    }

    /** The slot and the space of one stage in its cluster. */
    method TakeSlot(u: Update, n: nat, i: nat, left: seq<Space>, procs: seq<seq<int>>)
        returns (left': seq<Space>, procs': seq<seq<int>>)
      requires n < |u.topo| && i < CLUSTER_COUNT && i == StageCluster(u, u.topo[n])
      requires Filled(u, n, Clusters(left, procs, [])) && SlotsTaken(Clusters(left, procs, []), physicalProcId)
      requires Fits(Clusters(left, procs, []), i, SpaceOf(u.space, u.topo[n]))
      modifies this`physicalProcId
      ensures Filled(u, n + 1, Clusters(left', procs', []))
      ensures SlotsTaken(Clusters(left', procs', []), physicalProcId)
    {
      ghost var c := Clusters(left, procs, []);
      var need := SpaceOf(u.space, u.topo[n]);
      PutIs(left, procs, i, u.topo[n], need);
      StageTaken(u, n, c, physicalProcId, i);
      physicalProcId := physicalProcId[Slot(i, |procs[i]|) := u.topo[n]];
      left' := left[i := Space(left[i].sram - need.sram, left[i].tcam - need.tcam)];
      procs' := procs[i := procs[i] + [u.topo[n]]];
    }

    /** One stage, if it keeps a table. */
    method PlaceStage(u: Update, n: nat, i: int, left: seq<Space>, procs: seq<seq<int>>)
        returns (ok: bool, left': seq<Space>, procs': seq<seq<int>>)
      requires ValidUpdate(u) && n < |u.topo| && i == StageCluster(u, u.topo[n])
      requires Filled(u, n, Clusters(left, procs, [])) && SlotsTaken(Clusters(left, procs, []), physicalProcId)
      modifies this`physicalProcId
      ensures ok ==> Filled(u, n + 1, Clusters(left', procs', []))
      ensures ok ==> SlotsTaken(Clusters(left', procs', []), physicalProcId)
      ensures !ok ==> exists i :: 0 <= i < CLUSTER_COUNT && !Room(u, i)
    {
      ghost var c := Clusters(left, procs, []);
      ok, left', procs' := true, left, procs;
      var need := SpaceOf(u.space, u.topo[n]);
      ClusterExists(u, u.topo[n]);
      if i < 0 {
        SkipFills(u, n, c);
      } else if |procs[i]| < CLUSTER_PROC_COUNT && Within(need, left[i]) {
        left', procs' := TakeSlot(u, n, i, left, procs);
      } else {
        NoRoom(u, n, c, i);
        ok := false;
      }
    }

    /** The stages that keep a table, into their clusters. */
    method PlaceFixed(u: Update, cluster: map<int, int>) returns (ok: bool, ghost c: Clusters)
      requires ValidUpdate(u) && FixedClusters(u, cluster) && physicalProcId == map[]
      modifies this`physicalProcId
      ensures ok <==> forall i :: 0 <= i < CLUSTER_COUNT ==> Room(u, i)
      ensures ok ==> Filled(u, |u.topo|, c) && SlotsTaken(c, physicalProcId)
    {
      var left := [CAPACITY, CAPACITY, CAPACITY, CAPACITY];
      var procs: seq<seq<int>> := [[], [], [], []];
      c := EMPTY;
      NothingPlaced(u);
      var n := 0;
      while n < |u.topo|
        invariant 0 <= n <= |u.topo| && Filled(u, n, Clusters(left, procs, []))
        invariant SlotsTaken(Clusters(left, procs, []), physicalProcId)
      {
        FixedCluster(u, cluster, n);
        ok, left, procs := PlaceStage(u, n, cluster[u.topo[n]], left, procs);
        if !ok {
          return;
        }
        n := n + 1;
      }
      c := Clusters(left, procs, []);
      FilledHasRoom(u, c);
      ok := true;
    }

    /** The other stages. Their slot is computed in a variable that ends with the search, so none is found. */
    method PlaceDynamic(u: Update, cluster: map<int, int>) returns (ok: bool)
      requires ValidUpdate(u) && FixedClusters(u, cluster)
      ensures ok <==> forall id :: id in u.topo ==> HasSurvivor(u, id)
    {
      for n := 0 to |u.topo|
        invariant forall k :: 0 <= k < n ==> HasSurvivor(u, u.topo[k])
      {
        ClusterExists(u, u.topo[n]);
        if cluster[u.topo[n]] < 0 {
          return false;
        }
      }
      ok := true;
    }

    /** The blocks of the kept tables, one by one. */
    method CopyBlocks(u: Update)
      requires forall name :: name in u.tables ==> Unset(name, keyConfig, valueConfig)
      modifies this`keyConfig, this`valueConfig
      ensures forall name :: Copied(u, name, keyConfig, valueConfig)
    {
      var names := Ascending(u.tables.Keys);
      assert forall name :: name in u.tables <==> name in u.tables.Keys;
      for n := 0 to |names|
        invariant forall k :: 0 <= k < n ==> Copied(u, names[k], keyConfig, valueConfig)
        invariant forall k :: n <= k < |names| ==> Unset(names[k], keyConfig, valueConfig)
      {
        ghost var keys, values := keyConfig, valueConfig;
        CopyTable(u, names[n]);
        forall k | 0 <= k < |names| && k != n
          ensures Copied(u, names[k], keys, values) ==> Copied(u, names[k], keyConfig, valueConfig)
          ensures Unset(names[k], keys, values) ==> Unset(names[k], keyConfig, valueConfig)
        {
          assert names[k] != names[n];
        }
      }
    }

    method CopyTable(u: Update, name: int)
      requires name in u.tables && Unset(name, keyConfig, valueConfig)
      modifies this`keyConfig, this`valueConfig
      ensures Copied(u, name, keyConfig, valueConfig)
      ensures SameBut(name, old(keyConfig), keyConfig) && SameBut(name, old(valueConfig), valueConfig)
    {
      if name in u.prev {
        for i := 0 to |u.prev[name].key|
          invariant keyConfig == old(keyConfig)[name := u.prev[name].key[..i]] && valueConfig == old(valueConfig)
        {
          assert u.prev[name].key[..i + 1] == u.prev[name].key[..i] + [u.prev[name].key[i]];
          keyConfig := keyConfig[name := keyConfig[name] + [u.prev[name].key[i]]];
        }
        ghost var keys := keyConfig;
        for i := 0 to |u.prev[name].value|
          invariant valueConfig == old(valueConfig)[name := u.prev[name].value[..i]] && keyConfig == keys
        {
          assert u.prev[name].value[..i + 1] == u.prev[name].value[..i] + [u.prev[name].value[i]];
          valueConfig := valueConfig[name := valueConfig[name] + [u.prev[name].value[i]]];
        }
      }
    }

    method AllocateMemory(u: Update) returns (ok: bool, ghost c: Clusters)
      requires ValidUpdate(u) && physicalProcId == map[]
      requires forall name :: name in u.tables ==> Unset(name, keyConfig, valueConfig)
      modifies this
      ensures ok <==> Accepts(u)
      ensures ok ==> Filled(u, |u.topo|, c) && SlotsTaken(c, physicalProcId)
      ensures ok ==> forall name :: Copied(u, name, keyConfig, valueConfig)
    {
      var cluster;
      c := EMPTY;
      ok, cluster := KeptClusters(u);
      if ok {
        ok, c := PlaceFixed(u, cluster);
        if ok {
          ok := PlaceDynamic(u, cluster);
          if ok {
            CopyBlocks(u);
          }
        }
      }
    }
  }

  /** Room for at most four stages with at most 256 SRAM and 128 TCAM blocks. */
  lemma {:induction false} RoomIff(u: Update, i: int)
    ensures Room(u, i) <==>
            var members := Members(u, |u.topo|, i);
            |members| <= 4 && Total(u.space, members).sram <= 256 && Total(u.space, members).tcam <= 128
  {
  }

  /** A stage that keeps no table has an update rejected, whatever room there is. */
  lemma {:induction false} NewStageIsRejected(u: Update)
    requires u == Update(map[], map[], [0], map[])
    ensures ValidUpdate(u) && Agree(u) && !Accepts(u)
    ensures forall i :: 0 <= i < CLUSTER_COUNT ==> Room(u, i) && Members(u, |u.topo|, i) == []
  {
    assert 0 in u.topo && !HasSurvivor(u, 0);
    assert StageCluster(u, u.topo[0]) == -1;
    forall i | 0 <= i < CLUSTER_COUNT
      ensures Room(u, i) && Members(u, |u.topo|, i) == []
    {
      assert Members(u, 1, i) == Members(u, 0, i) == [];
    }
  }

  // ----- what an accepted update is

  /** The processor of a stage: the slot that holds it, or zero for a stage outside the pipeline. */
  ghost predicate SlotOfStage(physical: map<int, int>, id: int, k: int) {
    if HasSlot(physical, id) then k in physical && physical[k] == id else k == 0
  }

  ghost predicate HasSlot(physical: map<int, int>, id: int) {
    exists k :: k in physical && physical[k] == id
  }

  /** The program now in place. */
  ghost predicate InPlace(u: Update, physical: map<int, int>, keyConfig: map<int, seq<int>>, valueConfig: map<int,
                          seq<int>>,
                          after: Layout)
  {
    forall name :: name in u.tables ==>
      && name in after && SlotOfStage(physical, u.tables[name].stage, after[name].slot)
      && after[name].tcam == u.tables[name].tcam
      && (name in keyConfig ==> after[name].key == keyConfig[name])
      && (name in valueConfig ==> after[name].value == valueConfig[name])
  }

  lemma {:induction false} MemberOfCluster(u: Update, n: nat, i: int, j: nat)
    requires n <= |u.topo| && j < |Members(u, n, i)|
    ensures Members(u, n, i)[j] in u.topo && StageCluster(u, Members(u, n, i)[j]) == i
    decreases n
  {
    if j < |Members(u, n - 1, i)| {
      MemberOfCluster(u, n - 1, i, j);
    }
  }

  lemma {:induction false} StageIsMember(u: Update, n: nat, k: nat)
    requires k < n <= |u.topo|
    ensures exists j :: 0 <= j < |Members(u, n, StageCluster(u, u.topo[k]))|
                        && Members(u, n, StageCluster(u, u.topo[k]))[j] == u.topo[k]
    decreases n
  {
    var i := StageCluster(u, u.topo[k]);
    if k < n - 1 {
      StageIsMember(u, n - 1, k);
      var j :| 0 <= j < |Members(u, n - 1, i)| && Members(u, n - 1, i)[j] == u.topo[k];
      assert Members(u, n, i)[j] == u.topo[k];
    } else {
      assert Members(u, n, i)[|Members(u, n - 1, i)|] == u.topo[k];
    }
  }

  /** Every slot taken belongs to the cluster its stage must be in. */
  lemma {:induction false} SlotInCluster(u: Update, c: Clusters, physical: map<int, int>, k: int)
    requires Filled(u, |u.topo|, c) && SlotsTaken(c, physical) && k in physical
    ensures 0 <= k < PROC_COUNT && physical[k] in u.topo && k / CLUSTER_PROC_COUNT == StageCluster(u, physical[k])
  {
    var i, j :| InCluster(c, i, j) && k == Slot(i, j) && physical[k] == c.procs[i][j];
    MemberOfCluster(u, |u.topo|, i, j);
  }

  /** Every stage of the pipeline has a slot. */
  lemma {:induction false} StageHasSlot(u: Update, c: Clusters, physical: map<int, int>, n: nat)
    requires ValidUpdate(u) && Accepts(u) && Filled(u, |u.topo|, c) && SlotsTaken(c, physical) && n < |u.topo|
    ensures HasSlot(physical, u.topo[n])
  {
    var i := StageCluster(u, u.topo[n]);
    ClusterExists(u, u.topo[n]);
    assert u.topo[n] in u.topo;
    StageIsMember(u, |u.topo|, n);
    var j :| 0 <= j < |Members(u, |u.topo|, i)| && Members(u, |u.topo|, i)[j] == u.topo[n];
    assert InCluster(c, i, j);
    assert Slot(i, j) in physical;
  }

  lemma {:induction false} MembersDistinct(u: Update, n: nat, i: int)
    requires NoDup(u.topo) && n <= |u.topo|
    ensures NoDup(Members(u, n, i)) && forall x :: x in Members(u, n, i) ==> x in u.topo[..n]
  {
    if n > 0 {
      MembersDistinct(u, n - 1, i);
      assert u.topo[..n] == u.topo[..n - 1] + [u.topo[n - 1]];
      assert u.topo[n - 1] !in u.topo[..n - 1];
    }
  }

  /** And only one. */
  lemma {:induction false} OneSlotEach(u: Update, c: Clusters, physical: map<int, int>, k: int, l: int)
    requires ValidUpdate(u) && Filled(u, |u.topo|, c) && SlotsTaken(c, physical)
    requires k in physical && l in physical && physical[k] == physical[l]
    ensures k == l
  {
    var i, j := HeldBy(u, c, physical, k);
    var i', j' := HeldBy(u, c, physical, l);
    MembersDistinct(u, |u.topo|, i);
  }

  /** The place a slot stands for is in the cluster its stage must be in. */
  lemma {:induction false} HeldBy(u: Update, c: Clusters, physical: map<int, int>, k: int) returns (i: nat, j: nat)
    requires Filled(u, |u.topo|, c) && SlotsTaken(c, physical) && k in physical
    ensures i < CLUSTER_COUNT && j < |Members(u, |u.topo|, i)| && k == Slot(i, j)
    ensures physical[k] == Members(u, |u.topo|, i)[j] && StageCluster(u, physical[k]) == i
  {
    assert SlotHolds(c, k, physical[k]);
    var i', j' :| InCluster(c, i', j') && k == Slot(i', j') && physical[k] == c.procs[i'][j'];
    i, j := i', j';
    MemberOfCluster(u, |u.topo|, i, j);
  }

  /** What an accepted update does to the tables it keeps. */
  ghost predicate Stable(u: Update, after: Layout) {
    forall name :: Surviving(u, name) ==> StableTable(u, after, name)
  }

  ghost predicate StableTable(u: Update, after: Layout, name: int)
    requires Surviving(u, name)
  {
    && name in after && after[name].slot / CLUSTER_PROC_COUNT == PrevCluster(u, name)
    && after[name].slot < PROC_COUNT && after[name].tcam == u.tables[name].tcam
    && after[name].key == u.prev[name].key && after[name].value == u.prev[name].value
  }

  lemma {:induction false} AcceptedIsStable(u: Update, c: Clusters, physical: map<int, int>,
                                            keyConfig: map<int, seq<int>>, valueConfig: map<int, seq<int>>,
                                            after: Layout)
    requires ValidUpdate(u) && Accepts(u) && Filled(u, |u.topo|, c) && SlotsTaken(c, physical)
    requires forall name :: Copied(u, name, keyConfig, valueConfig)
    requires InPlace(u, physical, keyConfig, valueConfig, after)
    ensures Stable(u, after)
  {
    forall name | Surviving(u, name)
      ensures StableTable(u, after, name)
    {
      var id, k := u.tables[name].stage, after[name].slot;
      assert Copied(u, name, keyConfig, valueConfig) && Survivor(u, id, name);
      if id in u.topo {
        var n :| 0 <= n < |u.topo| && u.topo[n] == id;
        StageHasSlot(u, c, physical, n);
        SlotInCluster(u, c, physical, k);
        assert StageCluster(u, id) == PrevCluster(u, name);
      } else {
        OutsideSlot(u, c, physical, id);
      }
    }
  }

  lemma {:induction false} OutsideSlot(u: Update, c: Clusters, physical: map<int, int>, id: int)
    requires Filled(u, |u.topo|, c) && SlotsTaken(c, physical) && id !in u.topo
    ensures !HasSlot(physical, id)
  {
    if HasSlot(physical, id) {
      var k :| k in physical && physical[k] == id;
      SlotInCluster(u, c, physical, k);
    }
  }

  // ----- chains of updates

  /** Table `name` holds block `number` of the cluster's TCAM or SRAM. */
  ghost predicate HoldsBlock(layout: Layout, name: int, cluster: int, tcam: bool, number: int) {
    && name in layout && layout[name].slot / CLUSTER_PROC_COUNT == cluster
    && ((tcam == layout[name].tcam && number in layout[name].key) || (!tcam && number in layout[name].value))
  }

  /** No two of these tables hold the same block. */
  ghost predicate Disjoint(layout: Layout, names: set<int>) {
    forall a, b, cluster, tcam, number ::
      a in names && b in names && BothHold(layout, a, b, cluster, tcam, number) ==> a == b
  }

  ghost predicate BothHold(layout: Layout, a: int, b: int, cluster: int, tcam: bool, number: int) {
    HoldsBlock(layout, a, cluster, tcam, number) && HoldsBlock(layout, b, cluster, tcam, number)
  }

  /** The table keeps the kind of its key memory, or has no blocks there. */
  predicate KeepsKind(u: Update, name: int)
    requires Surviving(u, name)
  {
    u.tables[name].tcam == u.prev[name].tcam || u.prev[name].key == []
  }

  ghost predicate SameBlocks(before: Layout, after: Layout, name: int) {
    forall cluster, tcam, number ::
      HoldsBlock(after, name, cluster, tcam, number) <==> HoldsBlock(before, name, cluster, tcam, number)
  }

  /** Block numbers are copied whatever memory they are of: an accepted update leaves a kept table exactly its blocks
      if and only if it keeps the kind of its key memory, or has no blocks there. */
  lemma {:induction false} BlocksKeptIff(u: Update, after: Layout, name: int)
    requires Stable(u, after) && Surviving(u, name)
    ensures SameBlocks(u.prev, after, name) <==> KeepsKind(u, name)
  {
    assert StableTable(u, after, name);
    if !KeepsKind(u, name) {
      var number := u.prev[name].key[0];
      assert number in u.prev[name].key;
      assert HoldsBlock(u.prev, name, PrevCluster(u, name), true, number) <==> u.prev[name].tcam;
      assert HoldsBlock(after, name, PrevCluster(u, name), true, number) <==> after[name].tcam;
    }
  }

  /** A program in place: table 0 has a TCAM block for its keys, table 1 an SRAM block of the same number for its
      values. */
  const TWO_TABLES: Layout := map[0 := PrevTable(0, true, [0], []), 1 := PrevTable(0, true, [], [0])]

  /** The keys of table 0 go to SRAM. */
  const TO_SRAM := Update(map[0 := NewTable(0, false), 1 := NewTable(0, true)], TWO_TABLES, [0], map[0 := Space(2, 0)])

  const IN_SRAM: Layout := map[0 := PrevTable(0, false, [0], []), 1 := PrevTable(0, true, [], [0])]

  lemma {:induction false} StageZeroStays()
    ensures HasSurvivor(TO_SRAM, 0) && StageCluster(TO_SRAM, 0) == 0
  {
    assert Survivor(TO_SRAM, 0, 0);
    var name := SurvivorOf(TO_SRAM, 0);
    assert TO_SRAM.prev == TWO_TABLES && TWO_TABLES[name].slot == 0;
  }

  lemma {:induction false} SurvivorOf(u: Update, id: int) returns (name: int)
    requires HasSurvivor(u, id)
    ensures Surviving(u, name) && StageCluster(u, id) == PrevCluster(u, name)
  {
    name :| Survivor(u, id, name) && StageCluster(u, id) == PrevCluster(u, name);
  }

  lemma {:induction false} OnlyMember(i: nat)
    ensures Members(TO_SRAM, 1, i) == if i == 0 then [0] else []
  {
    StageZeroStays();
    assert TO_SRAM.topo[0] == 0;
    assert Members(TO_SRAM, 0, i) == [];
  }

  lemma {:induction false} RoomInSram(i: nat)
    requires i < CLUSTER_COUNT
    ensures Room(TO_SRAM, i)
  {
    OnlyMember(i);
    assert |TO_SRAM.topo| == 1;
    assert [0][..0] == [];
    assert Total(TO_SRAM.space, []) == NOTHING;
  }

  lemma {:induction false} TwoTablesApart()
    ensures Disjoint(TWO_TABLES, {0, 1})
  {
    forall a, b, cluster, tcam, number | a in {0, 1} && b in {0, 1} && BothHold(TWO_TABLES, a, b, cluster, tcam, number)
      ensures a == b
    {
    }
  }

  lemma {:induction false} ToSramIsAccepted()
    ensures ValidUpdate(TO_SRAM) && Accepts(TO_SRAM)
  {
    StageZeroStays();
    forall i | 0 <= i < CLUSTER_COUNT
      ensures Room(TO_SRAM, i)
    {
      RoomInSram(i);
    }
  }

  /** The update is accepted, and the tables, which shared no block, share one. */
  lemma {:induction false} KindChangeMeets()
    ensures ValidUpdate(TO_SRAM) && Accepts(TO_SRAM) && Stable(TO_SRAM, IN_SRAM)
    ensures Disjoint(TWO_TABLES, {0, 1}) && !Disjoint(IN_SRAM, {0, 1})
  {
    ToSramIsAccepted();
    TwoTablesApart();
    assert BothHold(IN_SRAM, 0, 1, 0, false, 0);
  }

  /** A run of the update: stage 0 stays in the first slot, and the numbers are copied. */
  method MoveToSram() returns (ok: bool, builder: IpsaBuilder)
    ensures ok && 0 in builder.physicalProcId && builder.physicalProcId[0] == 0
    ensures 0 in builder.keyConfig && builder.keyConfig[0] == [0]
    ensures 0 in builder.valueConfig && builder.valueConfig[0] == []
    ensures 1 in builder.keyConfig && builder.keyConfig[1] == []
    ensures 1 in builder.valueConfig && builder.valueConfig[1] == [0]
  {
    builder := new IpsaBuilder(TO_SRAM.tables);
    ToSramIsAccepted();
    ghost var c;
    ok, c := builder.AllocateMemory(TO_SRAM);
    StageZeroHasSlot(c, builder.physicalProcId);
    TablesAreCopied(builder.keyConfig, builder.valueConfig);
  }

  lemma {:induction false} StageZeroHasSlot(c: Clusters, physical: map<int, int>)
    requires Filled(TO_SRAM, |TO_SRAM.topo|, c) && SlotsTaken(c, physical)
    ensures 0 in physical && physical[0] == 0
  {
    OnlyMember(0);
    assert |TO_SRAM.topo| == 1 && InCluster(c, 0, 0);
    assert Slot(0, 0) == 0;
  }

  lemma {:induction false} TablesAreCopied(keys: map<int, seq<int>>, values: map<int, seq<int>>)
    requires forall name :: Copied(TO_SRAM, name, keys, values)
    ensures 0 in keys && keys[0] == [0] && 1 in keys && keys[1] == []
    ensures 0 in values && values[0] == [] && 1 in values && values[1] == [0]
  {
    assert Copied(TO_SRAM, 0, keys, values) && Copied(TO_SRAM, 1, keys, values);
  }

  /** Accepted updates, each of the program the one before put in place, that keep these tables and, for those with
      key blocks, the kind of their key memory. */
  ghost predicate Chain(updates: seq<Update>, layouts: seq<Layout>, names: set<int>) {
    && |layouts| == |updates| + 1
    && forall n :: 0 <= n < |updates| ==> ChainStep(updates[n], layouts[n], layouts[n + 1], names)
  }

  ghost predicate ChainStep(u: Update, before: Layout, after: Layout, names: set<int>) {
    && u.prev == before && Stable(u, after)
    && forall name :: name in names ==> Surviving(u, name) && KeepsKind(u, name)
  }

  lemma {:induction false} StepKeepsBlocks(u: Update, before: Layout, after: Layout, names: set<int>, name: int,
                                           cluster: int, tcam: bool, number: int)
    requires ChainStep(u, before, after, names) && name in names
    ensures HoldsBlock(after, name, cluster, tcam, number) <==> HoldsBlock(before, name, cluster, tcam, number)
  {
    BlocksKeptIff(u, after, name);
    assert SameBlocks(u.prev, after, name);
  }

  /** Over any such chain a kept table keeps exactly its blocks. */
  lemma {:induction false} ChainKeepsBlocks(updates: seq<Update>, layouts: seq<Layout>, names: set<int>, n: nat,
                                            name: int, cluster: int, tcam: bool, number: int)
    requires Chain(updates, layouts, names) && name in names && n < |layouts|
    ensures HoldsBlock(layouts[n], name, cluster, tcam, number) <==> HoldsBlock(layouts[0], name, cluster, tcam, number)
  {
    if n > 0 {
      ChainKeepsBlocks(updates, layouts, names, n - 1, name, cluster, tcam, number);
      StepKeepsBlocks(updates[n - 1], layouts[n - 1], layouts[n], names, name, cluster, tcam, number);
    }
  }

  lemma {:induction false} ChainKeepsMeeting(updates: seq<Update>, layouts: seq<Layout>, names: set<int>, n: nat,
                                             a: int, b: int, cluster: int, tcam: bool, number: int)
    requires Chain(updates, layouts, names) && n < |layouts| && a in names && b in names
    ensures BothHold(layouts[n], a, b, cluster, tcam, number) <==> BothHold(layouts[0], a, b, cluster, tcam, number)
  {
    ChainKeepsBlocks(updates, layouts, names, n, a, cluster, tcam, number);
    ChainKeepsBlocks(updates, layouts, names, n, b, cluster, tcam, number);
  }

  /** So the blocks of such tables are disjoint just if they were at first. */
  lemma {:induction false} ChainKeepsDisjoint(updates: seq<Update>, layouts: seq<Layout>, names: set<int>, n: nat)
    requires Chain(updates, layouts, names) && n < |layouts|
    ensures Disjoint(layouts[n], names) <==> Disjoint(layouts[0], names)
  {
    forall a, b, cluster, tcam, number | a in names && b in names
      ensures BothHold(layouts[n], a, b, cluster, tcam, number) <==> BothHold(layouts[0], a, b, cluster, tcam, number)
    {
      ChainKeepsMeeting(updates, layouts, names, n, a, b, cluster, tcam, number);
    }
  }
}
