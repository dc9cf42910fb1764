/** The parser of `RestartExample` from its definition to a packet: its tables are loaded, spread over stages, stored,
    and run. */
module ParserExample {
  import opened Finite
  import opened Graphs
  import opened Options
  import opened ParserTables
  import opened ParserStages
  import opened LevelGraphs
  import opened LevelTables
  import opened MeetOverPaths
  import opened Stages
  import opened Distribution
  import opened DistributedParsing
  import opened StoredRuns
  import opened RestartExample

  // ----- loading

  lemma {:induction false} OnlyTables(states: Ids, levels: seq<Level>)
    requires AreTables(PARSER, states, levels)
    ensures levels == TABLES
  {
    TablesOfParser();
    assert states[PARSER[0].name] == 1 && states[PARSER[1].name] == 2;
    SameLevel(states, 0, levels[1]);
    SameLevel(states, 1, levels[2]);
    assert EnterState(PARSER[0], 1) == TABLES[0][0].sram;
    assert levels[0] == TABLES[0];
  }

  lemma {:induction false} SameLevel(states: Ids, i: nat, level: Level)
    requires i < 2 && "ethernet" in states && "ipv4" in states && states["ethernet"] == 1 && states["ipv4"] == 2
    requires IsLevelOf(PARSER, states, i + 1, PARSER[i].transition.Entries(), level)
    ensures level == TABLES[i + 1]
  {
    TablesOfParser();
    var entries := PARSER[i].transition.Entries();
    assert PARSER[1].name == "ipv4" && GetState(PARSER, "ipv4") == 1;
    assert IsLevelOf(PARSER, STATES, i + 1, entries, TABLES[i + 1]);
    forall j | 0 <= j < |level|
      ensures level[j] == TABLES[i + 1][j]
    {
      assert level[j] == BuildEntry(PARSER, states, i + 1, entries[j]);
      assert TABLES[i + 1][j] == BuildEntry(PARSER, STATES, i + 1, entries[j]);
    }
  }

  method LoadParser() returns (manager: IpsaLevelManager)
    ensures manager.levels == TABLES
  {
    manager := new IpsaLevelManager();
    TablesOfParser();
    manager.Load(PARSER);
    OnlyTables(manager.states, manager.levels);
  }

  // ----- spreading

  /** Stage 1 comes first and declares Ethernet; it leads to stage 0, twice, which declares IPv4. Another stage of that
      number has been removed. */
  const TWO_STAGES := [Stage(0, false, [IPV4], [(0, -1)], []), Stage(1, false, [ETHERNET], [(0, 0), (5, 0)], []),
                       Stage(0, true, [IPV4], [(0, 1)], [])]

  lemma {:induction false} TwoStages()
    ensures WellFormedStages(TWO_STAGES)
    ensures forall u, v :: Edge(StageGraph(TWO_STAGES), u, v) <==> u == 1 && v == 0
    ensures forall p :: p in StageGraph(TWO_STAGES) <==> p == 0 || p == 1
  {
    StageGraphEntries(TWO_STAGES);
    assert KeptId(TWO_STAGES, 0) by {
      assert TWO_STAGES[0].id == 0;
    }
    assert KeptId(TWO_STAGES, 1) by {
      assert TWO_STAGES[1].id == 1;
    }
    forall u, v
      ensures Edge(StageGraph(TWO_STAGES), u, v) <==> u == 1 && v == 0
    {
      StageEdgeIff(TWO_STAGES, u, v);
      assert IsActionEntry(TWO_STAGES, 1, 0) && TWO_STAGES[1].actionProc[0].1 == 0;
    }
  }

  lemma {:induction false} TablesAreGood()
    ensures WellFormedLevels(TABLES)
  {
    TablesOfParser();
    TablesWellFormed(PARSER, STATES, TABLES);
  }

  lemma {:induction false} NextLevel(u: int, v: int)
    ensures Edge(LevelGraph(TABLES), u, v) ==> v == u + 1
  {
    LevelEdgeIff(TABLES, u, v);
  }

  lemma {:induction false} LevelsInOrder()
    ensures Acyclic(LevelGraph(TABLES))
  {
    forall u, v
      ensures Edge(LevelGraph(TABLES), u, v) ==> v == u + 1
    {
      NextLevel(u, v);
    }
    ForwardIsAcyclic(LevelGraph(TABLES), [0, 1, 2]);
  }

  lemma {:induction false} ForwardIsAcyclic(next: Edges, order: seq<int>)
    requires NoDup(order) && forall x :: x in order <==> x in next
    requires forall i, j :: 0 <= i < |order| && 0 <= j < |order| && Edge(next, order[i], order[j]) ==> i < j
    ensures Acyclic(next) && IsTopoOrder(next, order)
  {
    TopoOrderIsAcyclic(next, order);
  }

  lemma {:induction false} OnlyOrder(topo: seq<int>)
    requires IsTopoOrder(StageGraph(TWO_STAGES), topo)
    ensures topo == [1, 0]
  {
    TwoStages();
    assert 0 in topo && 1 in topo;
    var i :| 0 <= i < |topo| && topo[i] == 0;
    var j :| 0 <= j < |topo| && topo[j] == 1;
    assert Edge(StageGraph(TWO_STAGES), topo[j], topo[i]);
    OnlyTwo(topo, i, j);
  }

  lemma {:induction false} OnlyTwo(topo: seq<int>, i: nat, j: nat)
    requires NoDup(topo) && forall x :: x in topo ==> x == 0 || x == 1
    requires i < |topo| && j < |topo| && topo[i] == 0 && topo[j] == 1 && j < i
    ensures topo == [1, 0]
  {
    Members(topo);
  }

  lemma {:induction false} Members(s: seq<int>)
    ensures s != [] ==> s[0] in s
    ensures |s| > 1 ==> s[1] in s
    ensures |s| > 2 ==> s[2] in s
  {
  }

  /** To Ethernet leads level 0 only, to IPv4 level 1 as well. */
  lemma {:induction false} NeededBy(i: nat, l: int)
    requires i < 2
    ensures Needs(TABLES, TWO_STAGES[i].headers, l) <==> l == 0 || (i == 0 && l == 1)
  {
    var h := if i == 0 then IPV4 else ETHERNET;
    assert TWO_STAGES[i].headers == [h];
    OnlyExtractor(h);
    var m := if i == 0 then 1 else 0;
    if l == 0 || (i == 0 && l == 1) {
      Reached(l, m);
      assert NeedsFor(TABLES, h, l);
    }
    if Needs(TABLES, [h], l) {
      var n :| Extracts(TABLES, n, h) && Reaches(LevelGraph(TABLES), l, n);
      if i == 0 {
        LeadToOne(l);
      } else {
        OnlyZeroLeadsToZero(l);
      }
    }
  }

  lemma {:induction false} OnlyExtractor(h: int)
    requires h == ETHERNET || h == IPV4
    ensures forall m :: Extracts(TABLES, m, h) <==> m == if h == IPV4 then 1 else 0
  {
    forall m
      ensures Extracts(TABLES, m, h) <==> m == if h == IPV4 then 1 else 0
    {
      ExtractsIff(TABLES, m, h);
      assert TABLES[0][0] in TABLES[0] && TABLES[1][0] in TABLES[1];
    }
  }

  lemma {:induction false} Reached(l: int, m: int)
    requires 0 <= l <= m <= 1
    ensures Reaches(LevelGraph(TABLES), l, m)
  {
    LevelEdges();
    ReachesSelf(LevelGraph(TABLES), l);
    if l < m {
      ReachesStep(LevelGraph(TABLES), 0, 0, 1);
    }
  }

  lemma {:induction false} OnlyZeroLeadsToZero(l: int)
    requires Reaches(LevelGraph(TABLES), l, 0)
    ensures l == 0
  {
    forall v
      ensures !Edge(LevelGraph(TABLES), v, 0)
    {
      LevelEdgeIff(TABLES, v, 0);
    }
    NothingBefore(LevelGraph(TABLES), l, 0);
  }

  lemma {:induction false} NothingBefore(next: Edges, u: int, w: int)
    requires Reaches(next, u, w) && forall v :: !Edge(next, v, w)
    ensures u == w
  {
    if u != w {
      ReachesLast(next, u, w);
    }
  }

  lemma {:induction false} SourceWay()
    ensures SourcePath(StageGraph(TWO_STAGES), [1]) && SourcePath(StageGraph(TWO_STAGES), [1, 0])
  {
    TwoStages();
  }

  lemma {:induction false} OnlyWay(path: seq<int>)
    requires SourcePath(StageGraph(TWO_STAGES), path) && path[|path| - 1] == 0
    ensures path == [1, 0]
  {
    TwoStages();
    assert Edge(StageGraph(TWO_STAGES), 1, 0);
    assert path[0] == 1 && |path| > 1;
    EdgeOnPath(StageGraph(TWO_STAGES), path, 0);
    if |path| > 2 {
      EdgeOnPath(StageGraph(TWO_STAGES), path, 1);
    }
  }

  lemma {:induction false} EdgeOnPath(next: Edges, path: seq<int>, i: nat)
    requires IsPath(next, path) && i + 1 < |path|
    ensures Edge(next, path[i], path[i + 1])
  {
    assert path[i + 1] in next[path[i]];
  }

  lemma {:induction false} ListOfFirst(own: Lists)
    requires IsDistribution(TABLES, TWO_STAGES, own)
    ensures 1 in own && own[1] == [0]
  {
    TwoStages();
    SourceWay();
    forall l
      ensures 1 in own && (l in own[1] <==> l == 0)
    {
      OwnLevelsAreExact(TABLES, TWO_STAGES, own, 1, l);
      NeededBy(1, l);
      assert ReachedWithout(TABLES, TWO_STAGES, [1], 1, l);
    }
    OwnLevelsAreExact(TABLES, TWO_STAGES, own, 1, 0);
    OneMember(own[1], 0);
  }

  lemma {:induction false} OneMember(s: seq<int>, x: int)
    requires NoDup(s) && forall y :: y in s <==> y == x
    ensures s == [x]
  {
    assert x in s;
    Members(s);
  }

  lemma {:induction false} FirstNeeds(l: int)
    ensures StageNeeds(TABLES, TWO_STAGES, 1, l) <==> l == 0
  {
    NeededBy(1, l);
    assert TWO_STAGES[1].id == 1;
  }

  lemma {:induction false} ReachedWithoutIff(l: int)
    ensures (exists path :: ReachedWithout(TABLES, TWO_STAGES, path, 0, l)) <==> l != 0
  {
    FirstNeeds(l);
    SourceWay();
    if l != 0 {
      assert ReachedWithout(TABLES, TWO_STAGES, [1, 0], 0, l);
    }
    if path :| ReachedWithout(TABLES, TWO_STAGES, path, 0, l) {
      OnlyWay(path);
      assert !StageNeeds(TABLES, TWO_STAGES, path[0], l);
    }
  }

  lemma {:induction false} ListOfSecond(own: Lists)
    requires IsDistribution(TABLES, TWO_STAGES, own)
    ensures 0 in own && own[0] == [1]
  {
    TwoStages();
    forall l
      ensures 0 in own && (l in own[0] <==> l == 1)
    {
      OwnLevelsAreExact(TABLES, TWO_STAGES, own, 0, l);
      NeededBy(0, l);
      ReachedWithoutIff(l);
    }
    OwnLevelsAreExact(TABLES, TWO_STAGES, own, 0, 1);
    OneMember(own[0], 1);
  }

  /** Ethernet is extracted for stage 1, so stage 0 has only IPv4 left. */
  method SpreadParser() returns (distribution: IpsaDistribution)
    ensures distribution.topoSequence == [1, 0]
    ensures 1 in distribution.distributedLevels && distribution.distributedLevels[1] == [0]
    ensures 0 in distribution.distributedLevels && distribution.distributedLevels[0] == [1]
  {
    distribution := new IpsaDistribution();
    TablesAreGood();
    TwoStages();
    LevelsInOrder();
    ForwardIsAcyclic(StageGraph(TWO_STAGES), [1, 0]);
    var ok := distribution.DistributeParsers({ETHERNET, IPV4}, TABLES, TWO_STAGES);
    OnlyOrder(distribution.topoSequence);
    ListOfFirst(distribution.distributedLevels);
    ListOfSecond(distribution.distributedLevels);
  }

  // ----- storing

  const EXACT := TABLES[1][0]
  const OTHERS := TABLES[1][1]

  lemma {:induction false} OrderOfSlots()
    ensures SlotOf(EXACT.tcam) == 9 && SlotOf(OTHERS.tcam) == 254
    ensures AllFit(TABLES[1]) && OrderKept(TABLES[1])
  {
    SlotIsSum(EXACT.tcam, 0, 0, 8, 0);
    assert TABLES[1] == [EXACT, OTHERS];
  }

  lemma {:induction false} InstallTwo(empty: Level)
    requires |empty| == SLOTS
    ensures Install(empty, TABLES[1]) == Put(Put(empty, EXACT), OTHERS)
  {
    assert TABLES[1] == [EXACT, OTHERS];
    assert [EXACT, OTHERS][..1] == [EXACT] && [EXACT][..0] == [];
    assert Install(empty, []) == empty;
    assert Install(empty, [EXACT]) == Put(empty, EXACT);
  }

  lemma {:induction false} FoundByKey(key: Word)
    ensures FirstHit(TABLES[1], 1, key) == Some(if key == 0x0800 then EXACT else OTHERS)
  {
    ExactHits(EXACT, key);
    DefaultHits(OTHERS, 1, key);
    assert TABLES[1] == [EXACT, OTHERS] && TABLES[1][1..] == [OTHERS];
  }

  /** The level of Ethernet in a stage, and a packet with this type in it. */
  method StoreAndParse(phv: Phv, key: KeyReader) returns (r: Phv)
    requires phv.state == 1 && !phv.dropped
    ensures phv.key == 0x0800 ==>
      var headers := phv.headers[IPV4 := Header(phv.offset, 160, true)];
      r == Phv(2, phv.offset + 160, headers, key(headers, []), 2, false)
    ensures phv.key != 0x0800 ==>
      r == Phv(0, phv.offset, phv.headers[0 := Header(phv.offset, 0, true)], phv.key, 0, false)
  {
    var stage := new ParserStage();
    ghost var empty := stage.Slots();
    stage.ModifyTransEntry(EXACT);
    stage.ModifyTransEntry(OTHERS);
    InstallTwo(empty);
    assert TABLES[1] == [EXACT, OTHERS];
    OrderOfSlots();
    r := stage.Parse(phv, key);
    StoredRunsLevel(TABLES[1], stage.Slots(), phv, key);
    FoundByKey(phv.key);
  }
}
