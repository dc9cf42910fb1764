/** A join at which a stage starts the parse of an accepted packet over: an Ethernet header may be followed by an IPv4
    header; the first stage declares nothing and leads both to the second and the third, which need IPv4. */
module RestartExample {
  import opened Finite
  import opened Graphs
  import opened Options
  import opened Powers
  import opened ParserTables
  import opened LevelGraphs
  import opened LevelTables
  import opened MeetOverPaths
  import opened Stages
  import opened Distribution
  import opened DistributedParsing

  const ETHERNET := 1
  const IPV4 := 2
  const ETHER_TYPE := Field(ETHERNET, 96, 16)

  const PARSER: seq<StateDef> := [
    StateDef("ethernet", ETHERNET, 112,
             Select([ETHER_TYPE], [Entry(ExactKey(0x0800), "ipv4", 2), Entry(DefaultKey, "", 0)])),
    StateDef("ipv4", IPV4, 160, Direct(Entry(DefaultKey, "", 0)))]

  const STATES: Ids := map["" := 0, "ethernet" := 1, "ipv4" := 2]

  const ACCEPT := SramEntry(0, 0, 0, [], 0)

  const TABLES: seq<Level> := [
    [LevelEntry(TcamEntry(0, 0, 0), SramEntry(ETHERNET, 112, 1, [ETHER_TYPE], 2))],
    [LevelEntry(TcamEntry(1, 0x0800, 0xFFFF_FFFF), SramEntry(IPV4, 160, 2, [], 2)),
     LevelEntry(TcamEntry(1, 0, 0), ACCEPT)],
    [LevelEntry(TcamEntry(2, 0, 0), ACCEPT)]]

  const STAGES: seq<Stage> := [
    Stage(0, false, [], [(0, 1), (1, 2)], []),
    Stage(1, false, [IPV4], [(0, 2)], []),
    Stage(2, false, [IPV4], [(0, -1)], [])]

  lemma {:induction false} TablesOfParser()
    ensures WellFormedStates(PARSER) && DistinctNames(PARSER) && AreTables(PARSER, STATES, TABLES)
  {
    assert PARSER[0].name == "ethernet" && PARSER[1].name == "ipv4";
    assert Defined(PARSER, "ipv4") by {
      assert PARSER[1].name == "ipv4";
    }
    assert GetState(PARSER, "ipv4") == 1;
    assert PARSER[0].transition.Entries() == [Entry(ExactKey(0x0800), "ipv4", 2), Entry(DefaultKey, "", 0)];
    assert PARSER[1].transition.Entries() == [Entry(DefaultKey, "", 0)];
    assert IsLevelOf(PARSER, STATES, 1, PARSER[0].transition.Entries(), TABLES[1]);
    assert IsLevelOf(PARSER, STATES, 2, PARSER[1].transition.Entries(), TABLES[2]);
  }

  // ----- the lists

  lemma {:induction false} LevelEdges()
    ensures LevelGraph(TABLES).Keys == {0, 1, 2}
    ensures 1 in LevelGraph(TABLES)[0] && forall t :: t !in LevelGraph(TABLES)[2]
  {
    assert TABLES[0][0] in TABLES[0] && LeadsTo(TABLES[0][0], 1);
    assert HandsOver(TABLES[0], 1);
    assert LevelGraph(TABLES)[2] == Targets(TABLES[2]);
  }

  lemma {:induction false} FirstEdge(next: Edges, p: seq<int>)
    requires IsPath(next, p) && |p| > 1
    ensures p[1] in next[p[0]]
  {
    var i := 0;
    assert p[i + 1] in next[p[i]];
  }

  lemma {:induction false} LeadToOne(l: int)
    ensures Reaches(LevelGraph(TABLES), l, 1) <==> l == 0 || l == 1
  {
    var next := LevelGraph(TABLES);
    LevelEdges();
    ReachesSelf(next, 1);
    ReachesSelf(next, 0);
    ReachesStep(next, 0, 0, 1);
    if Reaches(next, l, 1) {
      var p :| PathFromTo(next, p, l, 1);
      if |p| > 1 {
        FirstEdge(next, p);
      }
    }
  }

  lemma {:induction false} OnlyOneExtracts(m: int)
    ensures Extracts(TABLES, m, IPV4) <==> m == 1
  {
    assert TABLES[1][0] in TABLES[1] && EntryExtracts(TABLES[1][0], IPV4);
  }

  lemma {:induction false} NeededHere(i: nat, l: int)
    requires i < 3
    ensures Needs(TABLES, STAGES[i].headers, l) <==> i > 0 && (l == 0 || l == 1)
  {
    OnlyOneExtracts(1);
    LeadToOne(l);
    if i > 0 && (l == 0 || l == 1) {
      assert IPV4 in STAGES[i].headers && NeedsFor(TABLES, IPV4, l);
    }
    if Needs(TABLES, STAGES[i].headers, l) {
      var h :| h in STAGES[i].headers && NeedsFor(TABLES, h, l);
      var m :| Extracts(TABLES, m, h) && Reaches(LevelGraph(TABLES), l, m);
      OnlyOneExtracts(m);
    }
  }

  lemma {:induction false} StagesWellFormed()
    ensures WellFormedStages(STAGES)
  {
    assert STAGES[1].id == 1 && STAGES[2].id == 2;
    assert KeptId(STAGES, 1) && KeptId(STAGES, 2);
  }

  lemma {:induction false} GraphOf(stages: seq<Stage>, s: Stage)
    requires !s.removed
    ensures StageGraph(stages + [s]) == StageGraph(stages)[s.id := Successors(s.actionProc)]
  {
    assert (stages + [s])[..|stages|] == stages;
  }

  lemma {:induction false} StageEdges()
    ensures StageGraph(STAGES) == map[0 := [1, 2], 1 := [2], 2 := []]
  {
    assert [(0, 1), (1, 2)][..1] == [(0, 1)];
    assert Successors([(0, 1)]) == [1] && Successors([(0, 1), (1, 2)]) == [1, 2];
    assert Successors([(0, 2)]) == [2] && Successors([(0, -1)]) == [];
    GraphOf([], STAGES[0]);
    GraphOf([STAGES[0]], STAGES[1]);
    GraphOf([STAGES[0], STAGES[1]], STAGES[2]);
    assert [] + [STAGES[0]] == [STAGES[0]] && [STAGES[0]] + [STAGES[1]] == [STAGES[0], STAGES[1]];
    assert [STAGES[0], STAGES[1]] + [STAGES[2]] == STAGES;
  }

  lemma {:induction false} WayThrough(path: seq<int>)
    requires path == [0, 1, 2] || path == [0, 1] || path == [0, 2]
    ensures SourcePath(StageGraph(STAGES), path)
  {
    StageEdges();
  }

  /** Both paths reach the stage from a stage that declares nothing. */
  lemma {:induction false} ReachedDirectly(i: nat, l: int)
    requires 1 <= i <= 2
    ensures ReachedWithout(TABLES, STAGES, [0, i], i, l)
  {
    WayThrough([0, i]);
    NeededHere(0, l);
    assert !StageNeeds(TABLES, STAGES, 0, l);
  }

  lemma {:induction false} ListOf(own: Lists, i: nat, l: int)
    requires IsDistribution(TABLES, STAGES, own) && i < 3
    ensures i in own && NoDup(own[i]) && (l in own[i] <==> i > 0 && (l == 0 || l == 1))
  {
    StagesWellFormed();
    assert STAGES[i].id == i && !STAGES[i].removed;
    OwnLevelsAreExact(TABLES, STAGES, own, i, l);
    NeededHere(i, l);
    if i > 0 {
      ReachedDirectly(i, l);
    }
  }

  lemma {:induction false} FirstHasNoAncestor(next: Edges, s: seq<int>, a: int)
    requires AncestorsFirst(next, s) && s != [] && Reaches(next, a, s[0])
    ensures a == s[0]
  {
    assert s[..0] == [];
  }

  lemma {:induction false} ZeroThenOne(s: seq<int>)
    requires NoDup(s) && (forall l :: l in s <==> l == 0 || l == 1)
    requires AncestorsFirst(LevelGraph(TABLES), s)
    ensures s == [0, 1]
  {
    assert 0 in s && 1 in s;
    assert |s| >= 2;
    forall k | 0 <= k < |s|
      ensures s[k] == 0 || s[k] == 1
    {
      assert s[k] in s;
    }
    assert |s| > 2 ==> s[0] != s[1] && s[1] != s[2] && s[0] != s[2];
    LeadToOne(0);
    LevelEdges();
    ReachesSelf(LevelGraph(TABLES), 0);
    FirstHasNoAncestor(LevelGraph(TABLES), s, 0);
  }

  lemma {:induction false} FirstListIsEmpty(own: Lists)
    requires IsDistribution(TABLES, STAGES, own)
    ensures 0 in own && own[0] == []
  {
    ListOf(own, 0, 0);
    if own[0] != [] {
      ListOf(own, 0, own[0][0]);
    }
  }

  lemma {:induction false} ListIs(own: Lists, i: nat)
    requires IsDistribution(TABLES, STAGES, own) && 1 <= i <= 2
    ensures i in own && own[i] == [0, 1]
  {
    forall l
      ensures i in own && NoDup(own[i]) && (l in own[i] <==> l == 0 || l == 1)
    {
      ListOf(own, i, l);
    }
    FirstListIsEmpty(own);
    StagesWellFormed();
    WayThrough([0, i]);
    PathRunsParentsFirst(TABLES, STAGES, own, [0, i]);
    FlatOfTwo(own, 0, i);
    assert Flat(own, [0, i]) == own[i];
    ZeroThenOne(own[i]);
  }

  lemma {:induction false} FlatOfTwo(own: Lists, p: int, q: int)
    requires p in own && q in own
    ensures Flat(own, [p, q]) == own[p] + own[q]
  {
    assert [p, q][..1] == [p] && [p][..0] == [];
    assert Flat(own, [p]) == Flat(own, []) + own[p];
    assert Flat(own, [p, q]) == Flat(own, [p]) + own[q];
  }

  lemma {:induction false} FlatOfThree(own: Lists, p: int, q: int, r: int)
    requires p in own && q in own && r in own
    ensures Flat(own, [p, q, r]) == own[p] + own[q] + own[r]
  {
    assert [p, q, r][..2] == [p, q];
    FlatOfTwo(own, p, q);
  }

  // ----- the packet

  lemma {:induction false} RunOne(ids: seq<int>, l: int, phv: Phv, key: KeyReader)
    requires 0 <= l < |TABLES|
    ensures RunLevels(TABLES, ids + [l], phv, key) == RunLevel(TABLES[l], RunLevels(TABLES, ids, phv, key), key)
  {
    assert (ids + [l])[..|ids|] == ids;
  }

  function AtEthernet(phv: Phv, at: int): Phv {
    Phv(1, at + 112, phv.headers[ETHERNET := Header(at, 112, true)], 0, 2, false)
  }

  function AtEnd(phv: Phv): Phv {
    Phv(0, phv.offset, phv.headers[0 := Header(phv.offset, 0, true)], phv.key, 0, false)
  }

  lemma {:induction false} StartsHere(phv: Phv, key: KeyReader)
    requires phv.state == 0 && !phv.dropped && forall hs, fs :: key(hs, fs) == 0
    ensures RunLevel(TABLES[0], phv, key) == AtEthernet(phv, phv.offset)
  {
    NothingMasked(phv.key);
  }

  lemma {:induction false} EndsHere(phv: Phv, key: KeyReader)
    requires phv.state == 1 && phv.key == 0 && !phv.dropped
    ensures RunLevel(TABLES[1], phv, key) == AtEnd(phv)
  {
    assert BitAnd(0, 0) == 0 && BitAnd(0, 0xFFFF_FFFF) == 0;
    assert !Hits(TABLES[1][0], 1, 0) && Hits(TABLES[1][1], 1, 0);
    assert TABLES[1][1..] == [TABLES[1][1]];
    assert FirstHit(TABLES[1], 1, 0) == FirstHit([TABLES[1][1]], 1, 0) == Some(TABLES[1][1]);
  }

  /** Once through: the Ethernet header lies at the start, and the packet is accepted. */
  lemma {:induction false} OnceThrough(phv: Phv, key: KeyReader)
    requires IsStart(phv) && forall hs, fs :: key(hs, fs) == 0
    ensures RunLevels(TABLES, [0, 1], phv, key) == AtEnd(AtEthernet(phv, 0))
    ensures RunLevels(TABLES, [0, 1, 2], phv, key) == AtEnd(AtEthernet(phv, 0))
  {
    assert [] + [0] == [0] && [0] + [1] == [0, 1] && [0, 1] + [2] == [0, 1, 2];
    RunOne([], 0, phv, key);
    StartsHere(phv, key);
    RunOne([0], 1, phv, key);
    EndsHere(AtEthernet(phv, 0), key);
    RunOne([0, 1], 2, phv, key);
    NotHere(AtEnd(AtEthernet(phv, 0)), key);
  }

  lemma {:induction false} NotHere(phv: Phv, key: KeyReader)
    requires phv.state == 0 && phv.missAct == 0
    ensures RunLevel(TABLES[2], phv, key) == phv
  {
    assert TABLES[2][1..] == [];
    assert FirstHit(TABLES[2], 0, phv.key) == FirstHit([], 0, phv.key);
  }

  lemma {:induction false} TwiceThrough(phv: Phv, key: KeyReader)
    requires IsStart(phv) && forall hs, fs :: key(hs, fs) == 0
    ensures Restarts(TABLES, [0, 1, 0, 1], phv, key)
    ensures RunLevels(TABLES, [0, 1, 0, 1], phv, key) == AtEnd(AtEthernet(AtEnd(AtEthernet(phv, 0)), 112))
  {
    OnceThrough(phv, key);
    assert [0, 1] + [0] == [0, 1, 0] && [0, 1, 0] + [1] == [0, 1, 0, 1];
    assert [0, 1, 0, 1][..3] == [0, 1, 0] && [0, 1, 0][..2] == [0, 1];
    var once := AtEnd(AtEthernet(phv, 0));
    RunOne([0, 1], 0, phv, key);
    StartsHere(once, key);
    RunOne([0, 1, 0], 1, phv, key);
    EndsHere(AtEthernet(once, 112), key);
    assert Accepted(once);
    assert Restarts(TABLES, [0, 1, 0], phv, key);
  }

  predicate At(headers: Headers, h: int, offset: int, length: int) {
    h in headers && headers[h] == Header(offset, length, true)
  }

  lemma {:induction false} ListsOnTheWay(own: Lists)
    requires IsDistribution(TABLES, STAGES, own)
    ensures Flat(own, [0, 1, 2]) == [0, 1, 0, 1]
  {
    FirstListIsEmpty(own);
    ListIs(own, 1);
    ListIs(own, 2);
    FlatOfThree(own, 0, 1, 2);
  }

  /** A packet that is not IPv4, on the way through all three stages: the last one finds its Ethernet header a second
      time, behind itself, where the full run has it at the start. */
  lemma {:induction false} JoinRestarts(own: Lists, phv: Phv, key: KeyReader)
    requires IsDistribution(TABLES, STAGES, own) && IsStart(phv) && forall hs, fs :: key(hs, fs) == 0
    ensures WellFormedStates(PARSER) && DistinctNames(PARSER) && AreTables(PARSER, STATES, TABLES)
    ensures SourcePath(StageGraph(STAGES), [0, 1, 2]) && RestartsOn(TABLES, own, [0, 1, 2], phv, key)
    ensures At(RunLevels(TABLES, [0, 1, 2], phv, key).headers, ETHERNET, 0, 112)
    ensures At(ParsedOn(TABLES, own, [0, 1, 2], phv, key).headers, ETHERNET, 112, 112)
  {
    TablesOfParser();
    WayThrough([0, 1, 2]);
    ListsOnTheWay(own);
    OnceThrough(phv, key);
    TwiceThrough(phv, key);
  }
}
