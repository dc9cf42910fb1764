/** What the distribution of parser levels over stages promises a packet, on every path it can take. */
module DistributedParsing {
  import opened Finite
  import opened Graphs
  import opened ParserTables
  import opened LevelGraphs
  import opened MeetOverPaths
  import opened Stages
  import opened Distribution
  import opened LevelTables

  /** The stage with id `p` needs level `l`. */
  ghost predicate StageNeeds(levels: seq<Level>, stages: seq<Stage>, p: int, l: int) {
    exists i :: 0 <= i < |stages| && !stages[i].removed && stages[i].id == p && Needs(levels, stages[i].headers, l)
  }

  /** `path` leads from a source to `p`, and no stage before `p` on it needs `l`. */
  ghost predicate ReachedWithout(levels: seq<Level>, stages: seq<Stage>, path: seq<int>, p: int, l: int) {
    && SourcePath(StageGraph(stages), path)
    && path[|path| - 1] == p
    && forall k :: 0 <= k < |path| - 1 ==> !StageNeeds(levels, stages, path[k], l)
  }

  lemma {:induction false} NeedIsStageNeeds(levels: seq<Level>, stages: seq<Stage>, need: Lists, p: int, l: int)
    requires DistinctIds(stages) && IsNeed(levels, stages, need)
    ensures p in need && l in need[p] <==> StageNeeds(levels, stages, p, l)
  {
    if p in need && l in need[p] {
      assert KeptId(stages, p);
      var i :| 0 <= i < |stages| && !stages[i].removed && stages[i].id == p;
      assert IsNeedOf(levels, stages[i].headers, need[p]);
    }
    if StageNeeds(levels, stages, p, l) {
      var i :| 0 <= i < |stages| && !stages[i].removed && stages[i].id == p && Needs(levels, stages[i].headers, l);
      assert IsNeedOf(levels, stages[i].headers, need[stages[i].id]);
    }
  }

  lemma {:induction false} MeetsIsStageNeeds(levels: seq<Level>, stages: seq<Stage>, need: Lists, path: seq<int>,
                                             l: int)
    requires DistinctIds(stages) && IsNeed(levels, stages, need)
    ensures Meets(need, path, l) <==> exists k :: 0 <= k < |path| && StageNeeds(levels, stages, path[k], l)
  {
    forall k | 0 <= k < |path| {
      NeedIsStageNeeds(levels, stages, need, path[k], l);
    }
  }

  /** Whatever a stage needs, it needs together with all ancestors. */
  lemma {:induction false} NeedIsAncestorClosed(levels: seq<Level>, stages: seq<Stage>, need: Lists)
    requires DistinctIds(stages) && IsNeed(levels, stages, need)
    ensures AncestorClosed(LevelGraph(levels), need)
  {
    forall p, l, a | p in need && l in need[p] && Reaches(LevelGraph(levels), a, l)
      ensures a in need[p]
    {
      assert KeptId(stages, p);
      var i :| 0 <= i < |stages| && !stages[i].removed && stages[i].id == p;
      assert IsNeedOf(levels, stages[i].headers, need[p]);
      AncestorNeeded(levels, stages[i].headers, l, a);
    }
  }

  lemma {:induction false} AncestorNeeded(levels: seq<Level>, headers: seq<int>, l: int, a: int)
    requires Needs(levels, headers, l) && Reaches(LevelGraph(levels), a, l)
    ensures Needs(levels, headers, a)
  {
    var h :| h in headers && NeedsFor(levels, h, l);
    var m :| Extracts(levels, m, h) && Reaches(LevelGraph(levels), l, m);
    var p :| PathFromTo(LevelGraph(levels), p, l, m);
    ReachesTransitive(LevelGraph(levels), a, l, p);
    assert NeedsFor(levels, h, a);
  }

  /** A stage runs exactly the levels it needs that some path from a source brings no earlier. */
  lemma {:induction false} OwnLevelsAreExact(levels: seq<Level>, stages: seq<Stage>, own: Lists, i: nat, l: int)
    requires WellFormedStages(stages) && IsDistribution(levels, stages, own)
    requires i < |stages| && !stages[i].removed
    ensures stages[i].id in own && NoDup(own[stages[i].id])
    ensures l in own[stages[i].id] <==>
            Needs(levels, stages[i].headers, l) &&
            exists path :: ReachedWithout(levels, stages, path, stages[i].id, l)
  {
    var topo, last, need, total, order :| DistributionFrom(levels, stages, own, topo, last, need, total, order);
    var next, p := StageGraph(stages), stages[i].id;
    StageGraphEntries(stages);
    assert FlowsAt(last, need, total, own, p);
    assert IsNeedOf(levels, stages[i].headers, need[p]);
    if l in own[p] {
      var path := OwnIsMinimal(next, last, need, total, own, topo, p, l);
      BroughtByNoOne(levels, stages, next, last, need, total, own, topo, p, l);
    } else if Needs(levels, stages[i].headers, l) {
      forall path
        ensures !ReachedWithout(levels, stages, path, p, l)
      {
        if SourcePath(next, path) && path[|path| - 1] == p {
          BroughtBySomeone(levels, stages, next, last, need, total, own, path, p, l);
        }
      }
    }
  }

  lemma {:induction false} BroughtByNoOne(levels: seq<Level>, stages: seq<Stage>, next: Edges, last: Edges, need: Lists,
                       total: Lists, own: Lists, topo: seq<int>, p: int, l: int)
    requires DistinctIds(stages) && IsNeed(levels, stages, need) && next == StageGraph(stages)
    requires Transposed(next, last) && Dataflow(next, last, need, total, own) && IsTopoOrder(next, topo)
    requires p in next && p in own && l in own[p]
    ensures exists path :: ReachedWithout(levels, stages, path, p, l)
  {
    assert FlowsAt(last, need, total, own, p);
    SourceHasNoPredecessors(next, last, p);
    if last[p] == [] {
      assert ReachedWithout(levels, stages, [p], p, l);
    } else {
      var q :| q in last[p] && !(q in total && l in total[q]);
      assert Edge(next, q, p);
      assert FlowsAt(last, need, total, own, q);
      var front := AvoidingPath(next, last, need, total, own, topo, q, l);
      ExtendPath(next, front, p);
      MeetsIsStageNeeds(levels, stages, need, front, l);
      var path := front + [p];
      assert forall k :: 0 <= k < |path| - 1 ==> path[k] == front[k];
      assert ReachedWithout(levels, stages, path, p, l);
    }
  }

  lemma {:induction false} BroughtBySomeone(levels: seq<Level>, stages: seq<Stage>, next: Edges, last: Edges,
                         need: Lists, total: Lists, own: Lists, path: seq<int>, p: int, l: int)
    requires DistinctIds(stages) && IsNeed(levels, stages, need) && next == StageGraph(stages)
    requires Transposed(next, last) && Dataflow(next, last, need, total, own)
    requires SourcePath(next, path) && path[|path| - 1] == p
    requires p in own && l !in own[p] && p in need && l in need[p]
    ensures !ReachedWithout(levels, stages, path, p, l)
  {
    var front := path[..|path| - 1];
    MetOnTheWay(next, last, need, total, own, path, front, p, l);
    MeetsIsStageNeeds(levels, stages, need, front, l);
    NeededBefore(levels, stages, path, front, p, l);
  }

  lemma {:induction false} MetOnTheWay(next: Edges, last: Edges, need: Lists, total: Lists, own: Lists,
                    path: seq<int>, front: seq<int>, p: int, l: int)
    requires Transposed(next, last) && Dataflow(next, last, need, total, own)
    requires SourcePath(next, path) && path[|path| - 1] == p && front == path[..|path| - 1]
    requires p in own && l !in own[p] && p in need && l in need[p]
    ensures |path| > 1 && IsPath(next, front) && Meets(need, front, l)
  {
    assert FlowsAt(last, need, total, own, p);
    SourceHasNoPredecessors(next, last, p);
    assert |path| > 1;
    LastEdge(next, path);
    TotalIsMet(next, last, need, total, own, front, l);
  }

  lemma {:induction false} NeededBefore(levels: seq<Level>, stages: seq<Stage>, path: seq<int>, front: seq<int>,
                                        p: int, l: int)
    requires |path| > 1 && front == path[..|path| - 1]
    requires exists k :: 0 <= k < |front| && StageNeeds(levels, stages, front[k], l)
    ensures !ReachedWithout(levels, stages, path, p, l)
  {
    var k :| 0 <= k < |front| && StageNeeds(levels, stages, front[k], l);
    assert path[k] == front[k];
  }

  /** Complete on every path: what a stage needs has been run, here or earlier, when a packet is at it. */
  lemma {:induction false} NeededLevelsWereRun(levels: seq<Level>, stages: seq<Stage>, own: Lists, path: seq<int>,
                                               l: int)
    requires WellFormedStages(stages) && IsDistribution(levels, stages, own)
    requires SourcePath(StageGraph(stages), path) && StageNeeds(levels, stages, path[|path| - 1], l)
    ensures l in Flat(own, path)
  {
    var topo, last, need, total, order :| DistributionFrom(levels, stages, own, topo, last, need, total, order);
    NeedIsStageNeeds(levels, stages, need, path[|path| - 1], l);
    assert FlowsAt(last, need, total, own, path[|path| - 1]);
    TotalWasRun(StageGraph(stages), last, need, total, own, path, l);
    FlatContains(own, path, l);
  }

  ghost predicate NeededOn(levels: seq<Level>, stages: seq<Stage>, path: seq<int>, l: int) {
    exists k :: 0 <= k < |path| && StageNeeds(levels, stages, path[k], l)
  }

  lemma {:induction false} NeededWasRun(levels: seq<Level>, stages: seq<Stage>, own: Lists, path: seq<int>, k: nat,
                                        l: int)
    requires WellFormedStages(stages) && IsDistribution(levels, stages, own)
    requires SourcePath(StageGraph(stages), path) && k < |path| && StageNeeds(levels, stages, path[k], l)
    ensures l in Flat(own, path)
    decreases |path|
  {
    if k == |path| - 1 {
      NeededLevelsWereRun(levels, stages, own, path, l);
    } else {
      var front := path[..|path| - 1];
      FrontIsPath(StageGraph(stages), path);
      NeededWasRun(levels, stages, own, front, k, l);
    }
  }

  lemma {:induction false} FrontIsPath(next: Edges, path: seq<int>)
    requires SourcePath(next, path) && |path| > 1
    ensures SourcePath(next, path[..|path| - 1])
  {
    var front := path[..|path| - 1];
    forall i {:trigger front[i + 1]} | 0 <= i < |front| - 1
      ensures front[i + 1] in next[front[i]]
    {
      assert path[i + 1] in next[path[i]];
    }
  }

  lemma {:induction false} RunIsNeeded(levels: seq<Level>, stages: seq<Stage>, own: Lists, path: seq<int>, l: int)
    requires WellFormedStages(stages) && IsDistribution(levels, stages, own)
    requires IsPath(StageGraph(stages), path) && l in Flat(own, path)
    ensures NeededOn(levels, stages, path, l)
  {
    FlatContains(own, path, l);
    var k :| 0 <= k < |path| && path[k] in own && l in own[path[k]];
    OwnIsNeeded(levels, stages, own, path[k], l);
  }

  lemma {:induction false} OwnIsNeeded(levels: seq<Level>, stages: seq<Stage>, own: Lists, p: int, l: int)
    requires WellFormedStages(stages) && IsDistribution(levels, stages, own)
    requires p in StageGraph(stages) && p in own && l in own[p]
    ensures StageNeeds(levels, stages, p, l)
  {
    StageGraphEntries(stages);
    assert KeptId(stages, p);
    var i :| 0 <= i < |stages| && !stages[i].removed && stages[i].id == p;
    OwnLevelsAreExact(levels, stages, own, i, l);
  }

  /** On a path exactly the levels are run that some stage on it needs. */
  lemma {:induction false} LevelWasRunIff(levels: seq<Level>, stages: seq<Stage>, own: Lists, path: seq<int>, l: int)
    requires WellFormedStages(stages) && IsDistribution(levels, stages, own)
    requires SourcePath(StageGraph(stages), path)
    ensures l in Flat(own, path) <==> NeededOn(levels, stages, path, l)
  {
    if l in Flat(own, path) {
      RunIsNeeded(levels, stages, own, path, l);
    }
    if k :| 0 <= k < |path| && StageNeeds(levels, stages, path[k], l) {
      NeededWasRun(levels, stages, own, path, k, l);
    }
  }

  /** Minimal: without level `l` in the list of stage `p`, some path reaches `p` with `l` never run,
      although `p` needs it. */
  lemma {:induction false} NoLevelIsSuperfluous(levels: seq<Level>, stages: seq<Stage>, own: Lists, p: int, l: int)
      returns (path: seq<int>)
    requires WellFormedStages(stages) && IsDistribution(levels, stages, own)
    requires KeptId(stages, p) && p in own && l in own[p]
    ensures SourcePath(StageGraph(stages), path) && path[|path| - 1] == p
    ensures StageNeeds(levels, stages, p, l)
    ensures l !in Flat(own[p := Without(own[p], l)], path)
  {
    var topo, last, need, total, order :| DistributionFrom(levels, stages, own, topo, last, need, total, order);
    StageGraphEntries(stages);
    path := OwnIsMinimal(StageGraph(stages), last, need, total, own, topo, p, l);
    NeedIsStageNeeds(levels, stages, need, p, l);
    FlatContains(own[p := Without(own[p], l)], path, l);
  }

  /** On every path, each level runs only after all its ancestors. */
  lemma {:induction false} PathRunsParentsFirst(levels: seq<Level>, stages: seq<Stage>, own: Lists, path: seq<int>)
    requires WellFormedStages(stages) && IsDistribution(levels, stages, own)
    requires SourcePath(StageGraph(stages), path)
    ensures AncestorsFirst(LevelGraph(levels), Flat(own, path))
  {
    var topo, last, need, total, order :| DistributionFrom(levels, stages, own, topo, last, need, total, order);
    NeedIsAncestorClosed(levels, stages, need);
    PathRunsAncestorsFirst(StageGraph(stages), last, need, total, own, LevelGraph(levels), order, path);
  }

  // ----- what a packet meets on its way

  /** The packet after all stages of a path have parsed it. */
  function ParsedOn(levels: seq<Level>, own: Lists, path: seq<int>, phv: Phv, key: KeyReader): Phv {
    RunLevels(levels, Flat(own, path), phv, key)
  }

  /** Some stage of the path starts the parse of a packet over that an earlier one has accepted. */
  ghost predicate RestartsOn(levels: seq<Level>, own: Lists, path: seq<int>, phv: Phv, key: KeyReader) {
    Restarts(levels, Flat(own, path), phv, key)
  }

  /** Distributed parsing agrees with monolithic parsing. Whatever the packet and whatever path it takes from a source
      to stage `i`, unless it is restarted: each header the stage declares is where the full run of all tables has it,
      or found by neither. Header 0, in which the end of the parse is recorded, agrees exactly if the packet's parse
      has ended on the way as well. */
  lemma {:induction false} DistributedParsingAgrees(levels: seq<Level>, stages: seq<Stage>, own: Lists, all: seq<int>,
                                                    path: seq<int>, i: nat, h: int, phv: Phv, key: KeyReader)
    requires WellFormedLevels(levels) && PositiveLengths(levels)
    requires WellFormedStages(stages) && IsDistribution(levels, stages, own)
    requires IsTopoOrder(LevelGraph(levels), all) && IsStart(phv) && Unmarked(phv.headers)
    requires SourcePath(StageGraph(stages), path) && !RestartsOn(levels, own, path, phv, key)
    requires i < |stages| && !stages[i].removed && path[|path| - 1] == stages[i].id && h in stages[i].headers
    ensures var here, full := ParsedOn(levels, own, path, phv, key), RunLevels(levels, all, phv, key);
            SameHeader(here.headers, full.headers, h) <==> h != 0 || (Ended(full) ==> Ended(here))
  {
    PathRunsParentsFirst(levels, stages, own, path);
    DeclaredLevelsWereRun(levels, stages, own, path, i, h);
    PartialRunAgrees(levels, Flat(own, path), all, phv, key, h);
  }

  lemma {:induction false} DeclaredLevelsWereRun(levels: seq<Level>, stages: seq<Stage>, own: Lists, path: seq<int>,
                                                 i: nat, h: int)
    requires WellFormedStages(stages) && IsDistribution(levels, stages, own)
    requires SourcePath(StageGraph(stages), path)
    requires i < |stages| && !stages[i].removed && path[|path| - 1] == stages[i].id && h in stages[i].headers
    ensures forall l :: Extracts(levels, l, h) ==> l in Flat(own, path)
  {
    forall l | Extracts(levels, l, h)
      ensures l in Flat(own, path)
    {
      ReachesSelf(LevelGraph(levels), l);
      assert NeedsFor(levels, h, l);
      assert Needs(levels, stages[i].headers, l);
      NeededLevelsWereRun(levels, stages, own, path, l);
    }
  }

  /** The levels met on a path perform an initial part of the parse exactly if they do not restart it. */
  lemma {:induction false} PathRunsInitialPart(levels: seq<Level>, own: Lists, path: seq<int>, phv: Phv,
                                               key: KeyReader)
    requires WellFormedLevels(levels) && PositiveLengths(levels) && AlwaysStarts(levels) && IsStart(phv)
    ensures (exists d: nat :: ParsedOn(levels, own, path, phv, key) == Chase(levels, d, phv, key)) <==>
            !RestartsOn(levels, own, path, phv, key)
  {
    RunIsChaseIff(levels, Flat(own, path), phv, key);
  }

  // ----- distributions that never restart a packet

  ghost predicate ListsZero(own: Lists, p: int) {
    p in own && 0 in own[p]
  }

  /** No path leads from one stage that starts the parse to another. */
  ghost predicate StartsApart(stages: seq<Stage>, own: Lists) {
    forall p, q :: ListsZero(own, p) && ListsZero(own, q) && Reaches(StageGraph(stages), p, q) ==> p == q
  }

  ghost predicate StartsOnce(stages: seq<Stage>, own: Lists) {
    forall path :: SourcePath(StageGraph(stages), path) ==> ZeroOnce(Flat(own, path))
  }

  lemma {:induction false} OnceOnPath(stages: seq<Stage>, own: Lists, path: seq<int>)
    requires StartsApart(stages, own) && Acyclic(StageGraph(stages)) && IsPath(StageGraph(stages), path)
    requires forall p :: p in path && p in own ==> NoDup(own[p])
    ensures ZeroOnce(Flat(own, path))
    decreases |path|
  {
    var front, p := path[..|path| - 1], path[|path| - 1];
    if |path| > 1 {
      LastEdge(StageGraph(stages), path);
      OnceOnPath(stages, own, front);
    }
    if ListsZero(own, p) && 0 in Flat(own, front) {
      FlatContains(own, front, 0);
      var i :| 0 <= i < |front| && front[i] in own && 0 in own[front[i]];
      assert ListsZero(own, path[i]);
      ReachedFrom(StageGraph(stages), path, i);
      BackIsCycle(StageGraph(stages), path, i);
    }
  }

  lemma {:induction false} ReachedFrom(next: Edges, path: seq<int>, i: nat)
    requires IsPath(next, path) && i < |path|
    ensures Reaches(next, path[i], path[|path| - 1])
  {
    var last := |path| - 1;
    PathSlice(next, path, i, last);
    assert PathFromTo(next, path[i..last + 1], path[i], path[last]);
  }

  lemma {:induction false} BackIsCycle(next: Edges, path: seq<int>, i: nat)
    requires IsPath(next, path) && i < |path| - 1 && path[i] == path[|path| - 1]
    ensures !Acyclic(next)
  {
    var last := |path| - 1;
    PathSlice(next, path, i, last);
    assert IsCycle(next, path[i..last + 1]);
  }

  lemma {:induction false} JoinPaths(next: Edges, a: seq<int>, b: seq<int>)
    requires IsPath(next, a) && IsPath(next, b) && a[|a| - 1] == b[0]
    ensures IsPath(next, a + b[1..])
  {
    var q := a + b[1..];
    forall k {:trigger q[k + 1]} | 0 <= k < |q| - 1
      ensures q[k + 1] in next[q[k]]
    {
      if k < |a| - 1 {
        assert a[k + 1] in next[a[k]];
      } else {
        var m := k - (|a| - 1);
        assert b[m + 1] in next[b[m]];
        assert q[k + 1] == b[m + 1] && q[k] == b[m];
      }
    }
  }

  /** A path on from where another ends, all but its last node, and that node. */
  lemma {:induction false} PathOnward(next: Edges, front: seq<int>, q: int) returns (before: seq<int>)
    requires IsPath(next, front) && Reaches(next, front[|front| - 1], q) && front[|front| - 1] != q
    ensures IsPath(next, before + [q]) && before != [] && before[0] == front[0]
    ensures front[|front| - 1] in before
  {
    var w :| PathFromTo(next, w, front[|front| - 1], q);
    assert |w| > 1;
    JoinPaths(next, front, w);
    before := front + w[1..|w| - 1];
    assert before + [q] == front + w[1..];
    assert before[|front| - 1] == front[|front| - 1];
  }

  lemma {:induction false} TwiceOnPath(levels: seq<Level>, stages: seq<Stage>, own: Lists, p: int, q: int)
      returns (path: seq<int>)
    requires WellFormedStages(stages) && IsDistribution(levels, stages, own)
    requires KeptId(stages, p) && ListsZero(own, p) && ListsZero(own, q)
    requires Reaches(StageGraph(stages), p, q) && p != q
    ensures SourcePath(StageGraph(stages), path) && !ZeroOnce(Flat(own, path))
  {
    var front := NoLevelIsSuperfluous(levels, stages, own, p, 0);
    var before := PathOnward(StageGraph(stages), front, q);
    path := before + [q];
    MetIn(own, before, p);
    TwoZeros(own, before, q);
  }

  lemma {:induction false} MetIn(own: Lists, path: seq<int>, p: int)
    requires p in path && ListsZero(own, p)
    ensures 0 in Flat(own, path)
  {
    FlatContains(own, path, 0);
  }

  lemma {:induction false} TwoZeros(own: Lists, before: seq<int>, q: int)
    requires 0 in Flat(own, before) && ListsZero(own, q)
    ensures !ZeroOnce(Flat(own, before + [q]))
  {
    var path := before + [q];
    assert path[..|path| - 1] == before;
    var i :| 0 <= i < |Flat(own, before)| && Flat(own, before)[i] == 0;
    var j :| 0 <= j < |own[q]| && own[q][j] == 0;
    assert Flat(own, path)[i] == 0 && Flat(own, path)[|Flat(own, before)| + j] == 0;
  }

  /** Level 0 is met at most once on every path exactly if the stages that list it lie apart. */
  lemma {:induction false} StartsOnceIffApart(levels: seq<Level>, stages: seq<Stage>, own: Lists)
    requires WellFormedStages(stages) && IsDistribution(levels, stages, own)
    ensures StartsOnce(stages, own) <==> StartsApart(stages, own)
  {
    var next := StageGraph(stages);
    var topo, last, need, total, order :| DistributionFrom(levels, stages, own, topo, last, need, total, order);
    StageGraphEntries(stages);
    if StartsApart(stages, own) {
      TopoOrderIsAcyclic(next, topo);
      forall path | SourcePath(next, path)
        ensures ZeroOnce(Flat(own, path))
      {
        forall p | p in path && p in own
          ensures NoDup(own[p])
        {
          assert FlowsAt(last, need, total, own, p);
        }
        OnceOnPath(stages, own, path);
      }
    } else {
      var p, q :| ListsZero(own, p) && ListsZero(own, q) && Reaches(next, p, q) && p != q;
      var w :| PathFromTo(next, w, p, q);
      var path := TwiceOnPath(levels, stages, own, p, q);
    }
  }

  /** Then no packet is restarted on any path. */
  lemma {:induction false} ApartNeverRestarts(levels: seq<Level>, stages: seq<Stage>, own: Lists, path: seq<int>,
                                              phv: Phv, key: KeyReader)
    requires WellFormedLevels(levels) && WellFormedStages(stages) && IsDistribution(levels, stages, own)
    requires StartsApart(stages, own) && SourcePath(StageGraph(stages), path) && IsStart(phv)
    ensures !RestartsOn(levels, own, path, phv, key)
  {
    StartsOnceIffApart(levels, stages, own);
    ZeroOnceNeverRestarts(levels, Flat(own, path), phv, key);
  }

  // ----- against the parser of the source program

  ghost function Below(n: nat): (r: set<int>)
    ensures forall x :: x in r <==> 0 <= x < n
    ensures |r| == n
  {
    if n == 0 then {} else Below(n - 1) + {n - 1}
  }

  lemma {:induction false} FullRunIsLong(levels: seq<Level>, all: seq<int>, n: nat, phv: Phv, key: KeyReader)
    requires WellFormedLevels(levels) && IsTopoOrder(LevelGraph(levels), all) && n >= |levels| && IsStart(phv)
    ensures RunLevels(levels, all, phv, key) == Chase(levels, n, phv, key)
  {
    NoDupFits(all, Below(|levels|));
    FullRunIsWholeRun(levels, all, n, phv, key);
  }

  /** Running all tables once, in topological order, is the run of the program's parser. */
  lemma {:induction false} FullRunParsesProgram(defs: seq<StateDef>, states: Ids, levels: seq<Level>, all: seq<int>,
                                                n: nat, phv: Phv, key: KeyReader)
    requires defs != [] && WellFormedStates(defs) && DistinctNames(defs) && AreTables(defs, states, levels)
    requires IsTopoOrder(LevelGraph(levels), all) && n >= |defs| && IsStart(phv)
    ensures Corresponds(Live(defs), RunLevels(levels, all, phv, key),
                        SourceRun(Live(defs), 2 * n + 1, phv.headers, key), key)
  {
    FullRunIsChase(defs, states, levels, all, n + 1, phv, key);
    TablesSimulateProgram(defs, states, levels, n, phv, key);
  }

  lemma {:induction false} FullRunIsChase(defs: seq<StateDef>, states: Ids, levels: seq<Level>, all: seq<int>, n: nat,
                                          phv: Phv, key: KeyReader)
    requires defs != [] && AreTables(defs, states, levels)
    requires IsTopoOrder(LevelGraph(levels), all) && n > |defs| && IsStart(phv)
    ensures RunLevels(levels, all, phv, key) == Chase(levels, n, phv, key)
  {
    TablesWellFormed(defs, states, levels);
    FullRunIsLong(levels, all, n, phv, key);
  }

  lemma {:induction false} DoneStays(live: seq<StateDef>, m: nat, n: nat, headers: Headers, key: KeyReader)
    requires WellFormedStates(live) && m <= n && SourceRun(live, m, headers, key).control.Done?
    ensures SourceRun(live, n, headers, key) == SourceRun(live, m, headers, key)
    decreases n
  {
    if m < n {
      DoneStays(live, m, n - 1, headers, key);
    }
  }

  ghost predicate MatchAt(live: seq<StateDef>, levels: seq<Level>, c: nat, s: nat, phv: Phv, key: KeyReader)
    requires WellFormedStates(live)
  {
    Corresponds(live, Chase(levels, c, phv, key), SourceRun(live, s, phv.headers, key), key)
  }

  /** The tables follow the program: their step `c` is its step `2 * c - 1`. */
  ghost predicate RunsMatch(live: seq<StateDef>, levels: seq<Level>, phv: Phv, key: KeyReader)
    requires WellFormedStates(live)
  {
    forall c: nat, s: nat :: s == 2 * c - 1 ==> MatchAt(live, levels, c, s, phv, key)
  }

  lemma {:induction false} TablesMatch(defs: seq<StateDef>, live: seq<StateDef>, states: Ids, levels: seq<Level>,
                                       phv: Phv, key: KeyReader)
    requires defs != [] && AreTables(defs, states, levels) && IsLive(defs, live) && WellFormedStates(live)
    requires IsStart(phv)
    ensures RunsMatch(live, levels, phv, key)
  {
    forall c: nat, s: nat | s == 2 * c - 1
      ensures MatchAt(live, levels, c, s, phv, key)
    {
      LiveRun(defs, live, states, levels, c, s, phv, key);
    }
  }

  /** What the program knows at the end is what the packet held before the tables marked it. */
  lemma {:induction false} EndIsMarkedOnly(live: seq<StateDef>, levels: seq<Level>, c: nat, s: nat, n: nat, phv: Phv,
                                           key: KeyReader)
    requires WellFormedStates(live) && RunsMatch(live, levels, phv, key) && s == 2 * c - 1 && s + 2 <= n
    requires !Ended(Chase(levels, c, phv, key)) && Ended(Chase(levels, c + 1, phv, key))
    ensures SourceRun(live, n, phv.headers, key).headers == Chase(levels, c, phv, key).headers
  {
    assert MatchAt(live, levels, c, s, phv, key) && MatchAt(live, levels, c + 1, s + 2, phv, key);
    EndIsMarkedAt(live, levels, c, s, n, phv, key);
  }

  lemma {:induction false} EndIsMarkedAt(live: seq<StateDef>, levels: seq<Level>, c: nat, s: nat, n: nat, phv: Phv,
                                         key: KeyReader)
    requires WellFormedStates(live) && s + 2 <= n
    requires MatchAt(live, levels, c, s, phv, key) && MatchAt(live, levels, c + 1, s + 2, phv, key)
    requires !Ended(Chase(levels, c, phv, key)) && Ended(Chase(levels, c + 1, phv, key))
    ensures SourceRun(live, n, phv.headers, key).headers == Chase(levels, c, phv, key).headers
  {
    var r := SourceRun(live, s, phv.headers, key);
    assert SourceRun(live, s + 1, phv.headers, key) == SourceStep(live, r, key);
    EndKeepsHeaders(live, Chase(levels, c, phv, key), Chase(levels, c + 1, phv, key), r, key);
    DoneStays(live, s + 2, n, phv.headers, key);
  }

  /** Two steps that end the program's run leave the headers alone. */
  lemma {:induction false} EndKeepsHeaders(live: seq<StateDef>, at: Phv, after: Phv, r: ParserRun, key: KeyReader)
    requires WellFormedStates(live) && Corresponds(live, at, r, key) && !Ended(at)
    requires Corresponds(live, after, SourceStep(live, SourceStep(live, r, key), key), key) && Ended(after)
    ensures var end := SourceStep(live, SourceStep(live, r, key), key);
            end.control.Done? && end.headers == at.headers
  {
  }

  lemma {:induction false} EndIsLate(levels: seq<Level>, m: nat, phv: Phv, key: KeyReader)
    requires AlwaysStarts(levels) && IsStart(phv) && Ended(Chase(levels, m, phv, key))
    ensures m >= 2
  {
    FirstHitIsHit(levels[0], 0, phv.key);
    assert Chase(levels, 0, phv, key) == phv;
    assert Chase(levels, 1, phv, key) == Step(levels, phv, key);
  }

  lemma {:induction false} EndMarks(levels: seq<Level>, k: nat, phv: Phv, key: KeyReader)
    requires WellFormedLevels(levels) && FiresAt(levels, k, phv, key) && Ended(Chase(levels, k + 1, phv, key))
    ensures var at := Chase(levels, k, phv, key);
            Chase(levels, k + 1, phv, key).headers == at.headers[0 := Header(at.offset, 0, true)]
  {
    var at := Chase(levels, k, phv, key);
    FirstHitIsHit(levels[at.state], at.state, at.key);
  }

  /** Against the step before the end, which may be ahead of the packet or just behind it. */
  lemma {:induction false} BeforeEndAgrees(levels: seq<Level>, d: nat, k: nat, phv: Phv, key: KeyReader, h: int)
    requires WellFormedLevels(levels) && PositiveLengths(levels) && IsStart(phv) && Unmarked(phv.headers)
    requires d <= k + 1 && GoesOnWithout(levels, d, k + 1, phv, key, h)
    requires FiresAt(levels, k, phv, key) && Ended(Chase(levels, k + 1, phv, key))
    ensures var here := Chase(levels, d, phv, key);
            SameHeader(here.headers, Chase(levels, k, phv, key).headers, h) <==> h != 0 || !Ended(here)
  {
    if d <= k {
      assert FiresAt(levels, d, phv, key);
      HeaderStays(levels, d, k, phv, key, h);
    } else {
      UnmarkedUntilEnd(levels, k, phv, key);
      EndMarks(levels, k, phv, key);
    }
  }

  lemma {:induction false} EndedAgrees(live: seq<StateDef>, levels: seq<Level>, d: nat, c: nat, n: nat, phv: Phv,
                                       key: KeyReader, h: int)
    requires WellFormedStates(live) && RunsMatch(live, levels, phv, key)
    requires WellFormedLevels(levels) && PositiveLengths(levels) && IsStart(phv) && Unmarked(phv.headers)
    requires 0 < c && d <= c + 1 <= n + 1 && GoesOnWithout(levels, d, c + 1, phv, key, h)
    requires FiresAt(levels, c, phv, key) && Ended(Chase(levels, c + 1, phv, key))
    ensures var here := Chase(levels, d, phv, key);
            SameHeader(here.headers, SourceRun(live, 2 * n + 1, phv.headers, key).headers, h) <==>
            h != 0 || !Ended(here)
  {
    EndIsMarkedOnly(live, levels, c, 2 * c - 1, 2 * n + 1, phv, key);
    BeforeEndAgrees(levels, d, c, phv, key, h);
  }

  /** Whether the parse ends or gets stuck: a packet that may be behind, against the program. */
  lemma {:induction false} ProgramAgrees(live: seq<StateDef>, levels: seq<Level>, d: nat, m: nat, n: nat, phv: Phv,
                                         key: KeyReader, h: int)
    requires WellFormedStates(live) && RunsMatch(live, levels, phv, key)
    requires WellFormedLevels(levels) && PositiveLengths(levels) && AlwaysStarts(levels)
    requires IsStart(phv) && Unmarked(phv.headers) && d <= m <= n + 1
    requires FiresUpTo(levels, m, phv, key) && GoesOnWithout(levels, d, m, phv, key, h)
    ensures var here := Chase(levels, d, phv, key);
            SameHeader(here.headers, SourceRun(live, 2 * n + 1, phv.headers, key).headers, h) <==>
            h != 0 || !Ended(here)
  {
    if Ended(Chase(levels, m, phv, key)) {
      EndIsLate(levels, m, phv, key);
      var c := m - 1;
      assert FiresAt(levels, c, phv, key);
      EndedAgrees(live, levels, d, c, n, phv, key, h);
    } else {
      StuckAgrees(live, levels, m, n, phv, key);
      NotEndedAgrees(levels, d, m, phv, key, h);
    }
  }

  lemma {:induction false} NotEndedAgrees(levels: seq<Level>, d: nat, m: nat, phv: Phv, key: KeyReader, h: int)
    requires WellFormedLevels(levels) && d <= m && GoesOnWithout(levels, d, m, phv, key, h)
    requires !Ended(Chase(levels, m, phv, key))
    ensures SameHeader(Chase(levels, d, phv, key).headers, Chase(levels, m, phv, key).headers, h)
    ensures !Ended(Chase(levels, d, phv, key))
  {
    HeaderStays(levels, d, m, phv, key, h);
    assert d < m ==> FiresAt(levels, d, phv, key);
  }

  lemma {:induction false} StuckAgrees(live: seq<StateDef>, levels: seq<Level>, m: nat, n: nat, phv: Phv,
                                       key: KeyReader)
    requires WellFormedStates(live) && RunsMatch(live, levels, phv, key)
    requires WellFormedLevels(levels) && IsStart(phv) && m <= n + 1
    requires !FiresAt(levels, m, phv, key) && !Ended(Chase(levels, m, phv, key))
    ensures SourceRun(live, 2 * n + 1, phv.headers, key).headers == Chase(levels, m, phv, key).headers
  {
    assert MatchAt(live, levels, n + 1, 2 * n + 1, phv, key);
    StoppedStays(levels, m, n + 1, phv, key);
  }

  lemma {:induction false} LevelOrder(levels: seq<Level>, stages: seq<Stage>, own: Lists) returns (all: seq<int>)
    requires IsDistribution(levels, stages, own)
    ensures IsTopoOrder(LevelGraph(levels), all)
  {
    var topo, last, need, total, order :| DistributionFrom(levels, stages, own, topo, last, need, total, order);
    all := order;
  }

  /** From the program to the stages. Whatever the packet and whatever path it takes from a source to stage `i`,
      unless it is restarted: each header the stage declares is where the program's parser, run to its end, finds it,
      or found by neither. Header 0 is, exactly if the packet's parse has not ended on the way. */
  lemma {:induction false} StagesParseProgram(defs: seq<StateDef>, states: Ids, levels: seq<Level>,
                                              stages: seq<Stage>, own: Lists, path: seq<int>, i: nat, h: int, n: nat,
                                              phv: Phv, key: KeyReader)
    requires defs != [] && WellFormedStates(defs) && DistinctNames(defs) && AreTables(defs, states, levels)
    requires forall k :: 0 <= k < |defs| ==> defs[k].headerLength > 0
    requires WellFormedStages(stages) && IsDistribution(levels, stages, own)
    requires SourcePath(StageGraph(stages), path) && !RestartsOn(levels, own, path, phv, key)
    requires IsStart(phv) && Unmarked(phv.headers) && n >= |defs|
    requires i < |stages| && !stages[i].removed && path[|path| - 1] == stages[i].id && h in stages[i].headers
    ensures var here := ParsedOn(levels, own, path, phv, key);
            SameHeader(here.headers, SourceRun(Live(defs), 2 * n + 1, phv.headers, key).headers, h) <==>
            h != 0 || !Ended(here)
  {
    TablesWellFormed(defs, states, levels);
    var all := LevelOrder(levels, stages, own);
    PathRunsParentsFirst(levels, stages, own, path);
    DeclaredLevelsWereRun(levels, stages, own, path, i, h);
    NoDupFits(all, Below(|levels|));
    var d, m := RunsInSteps(levels, Flat(own, path), all, phv, key, h);
    TablesMatch(defs, Live(defs), states, levels, phv, key);
    ProgramAgrees(Live(defs), levels, d, m, n, phv, key, h);
  }
}
