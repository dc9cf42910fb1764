/** When the allocated blocks exist. */
module MemorySafety {
  import opened Finite
  import opened Configuration
  import opened Placement
  import opened Stages
  import opened Blocks
  import opened Memory

  // ----- totals do not depend on order

  function Without(s: seq<int>, k: nat): seq<int>
    requires k < |s|
  {
    s[..k] + s[k + 1..]
  }

  lemma {:induction false} TotalWithout(space: Spaces, s: seq<int>, k: nat)
    requires k < |s|
    ensures Total(space, s) == Plus(Total(space, Without(s, k)), SpaceOf(space, s[k]))
    decreases |s|
  {
    var front, x := s[..|s| - 1], s[|s| - 1];
    if k == |s| - 1 {
      assert Without(s, k) == front;
    } else {
      var rest := Without(front, k);
      TotalWithout(space, front, k);
      assert Without(s, k) == rest + [x] && front[k] == s[k];
      TotalLast(space, rest, x);
      PlusSwaps(Total(space, rest), SpaceOf(space, s[k]), SpaceOf(space, x));
    }
  }

  lemma {:induction false} PlusSwaps(a: Space, b: Space, c: Space)
    ensures Plus(Plus(a, b), c) == Plus(Plus(a, c), b)
  {
  }

  lemma {:induction false} WithoutMembers(s: seq<int>, k: nat)
    requires NoDup(s) && k < |s|
    ensures NoDup(Without(s, k)) && forall y :: y in Without(s, k) <==> y in s && y != s[k]
  {
    var rest := Without(s, k);
    assert forall i :: 0 <= i < |rest| ==> rest[i] == if i < k then s[i] else s[i + 1];
    forall y | y in s && y != s[k]
      ensures y in rest
    {
      var i :| 0 <= i < |s| && s[i] == y;
      assert rest[if i < k then i else i - 1] == y;
    }
  }

  lemma {:induction false} TotalOfSameElements(space: Spaces, s: seq<int>, t: seq<int>)
    requires NoDup(s) && NoDup(t) && forall x :: x in s <==> x in t
    ensures Total(space, s) == Total(space, t)
    decreases |s|
  {
    if s == [] {
      assert forall i :: 0 <= i < |t| ==> t[i] in t;
    } else {
      var front, x := s[..|s| - 1], s[|s| - 1];
      assert x in s;
      var k :| 0 <= k < |t| && t[k] == x;
      var rest := Without(t, k);
      WithoutMembers(t, k);
      WithoutMembers(s, |s| - 1);
      assert Without(s, |s| - 1) == front;
      TotalOfSameElements(space, front, rest);
      TotalWithout(space, t, k);
    }
  }

  lemma {:induction false} SplitLast(s: seq<int>, t: seq<int>)
    requires t != []
    ensures (s + t)[..|s + t| - 1] == s + t[..|t| - 1] && (s + t)[|s + t| - 1] == t[|t| - 1]
  {
  }

  lemma {:induction false} TotalConcat(space: Spaces, s: seq<int>, t: seq<int>)
    ensures Total(space, s + t) == Plus(Total(space, s), Total(space, t))
    decreases |t|
  {
    if |t| > 0 {
      SplitLast(s, t);
      TotalConcat(space, s, t[..|t| - 1]);
    } else {
      assert s + t == s;
      assert Total(space, t) == NOTHING;
    }
  }

  // ----- which stages a cluster serves

  lemma {:induction false} InMembers(stages: seq<Stage>, cluster: map<int, int>, c: int)
    requires DistinctIds(stages)
    ensures NoDup(In(stages, cluster, c))
    ensures forall id :: id in In(stages, cluster, c) <==> KeptId(stages, id) && ClusterOf(cluster, id) == c
  {
    if stages != [] {
      var front, s := stages[..|stages| - 1], stages[|stages| - 1];
      InMembers(front, cluster, c);
      forall id
        ensures KeptId(stages, id) <==> KeptId(front, id) || (!s.removed && s.id == id)
      {
        KeptIdLast(stages, id);
      }
      if !s.removed {
        assert !KeptId(front, s.id);
      }
    }
  }

  /** The stages cluster `k` serves: those placed in it, and for cluster 0 the refused ones as well. */
  function Served(c: Clusters, k: int): seq<int>
    requires Shaped(c)
  {
    if k == 0 then c.procs[0] + c.refused
    else if 0 < k < CLUSTER_COUNT then c.procs[k]
    else []
  }

  ghost predicate CompleteOrder(stages: seq<Stage>, topo: seq<int>) {
    DistinctIds(stages) && NoDup(topo) && forall id :: id in topo <==> KeptId(stages, id)
  }

  lemma {:induction false} ServedIsIn(stages: seq<Stage>, topo: seq<int>, c: Clusters, cluster: map<int, int>, k: int)
    requires CompleteOrder(stages, topo) && Shaped(c) && Partitions(c, topo) && ClustersOf(c, cluster)
    ensures NoDup(Served(c, k)) && forall id :: id in Served(c, k) <==> id in In(stages, cluster, k)
  {
    InMembers(stages, cluster, k);
    var served := Served(c, k);
    if k == 0 {
      forall i, j | 0 <= i < j < |served|
        ensures served[i] != served[j]
      {
        if i < |c.procs[0]| <= j {
          assert PlacedIn(c, 0, served[i]);
        }
      }
    }
    forall id
      ensures id in served <==> id in topo && ClusterOf(cluster, id) == k
    {
      assert id in served <==> PlacedIn(c, k, id) || (k == 0 && id in c.refused) by {
        assert k < 0 || k >= CLUSTER_COUNT ==> !PlacedIn(c, k, id);
      }
      if id in c.refused {
        NotPlaced(c, topo, cluster, id);
      } else if id in topo {
        var i :| PlacedIn(c, i, id);
        assert PlacedIn(c, k, id) <==> i == k;
      }
    }
  }

  lemma {:induction false} NotPlaced(c: Clusters, topo: seq<int>, cluster: map<int, int>, id: int)
    requires Shaped(c) && Partitions(c, topo) && ClustersOf(c, cluster) && id in c.refused
    ensures ClusterOf(cluster, id) == 0
  {
    assert forall i :: !PlacedIn(c, i, id);
  }

  // ----- bounds

  /** There are four clusters of 128 TCAM and 256 SRAM blocks each. */
  ghost predicate AllInBounds(log: seq<Handout>) {
    forall i :: 0 <= i < |log| ==> 0 <= log[i].cluster < 4 && log[i].block < if log[i].tcam then 128 else 256
  }

  function Limit(k: int, tcam: bool): nat {
    if 0 <= k < CLUSTER_COUNT then Amount(CAPACITY, tcam) else 0
  }

  ghost predicate CountsInBounds(log: seq<Handout>) {
    forall k, tcam :: Count(log, k, tcam) <= Limit(k, tcam)
  }

  /** Numbered blocks stay in bounds exactly when no cluster hands out more than it has. */
  lemma {:induction false} BoundsAreCounts(log: seq<Handout>)
    requires Numbered(log)
    ensures AllInBounds(log) <==> CountsInBounds(log)
  {
    if AllInBounds(log) {
      forall k, tcam
        ensures Count(log, k, tcam) <= Limit(k, tcam)
      {
        if Count(log, k, tcam) > Limit(k, tcam) {
          var i := EveryNumberUsed(log, k, tcam, Limit(k, tcam));
        }
      }
    } else {
      var i :| 0 <= i < |log| && !(0 <= log[i].cluster < CLUSTER_COUNT && log[i].block < Amount(CAPACITY, log[i].tcam));
      CountBelow(log, i);
      assert Count(log, log[i].cluster, log[i].tcam) > Limit(log[i].cluster, log[i].tcam);
    }
  }

  /** What a cluster hands out is what the stages it serves need. */
  ghost predicate CountsServed(log: seq<Handout>, space: Spaces, c: Clusters)
    requires Shaped(c)
  {
    forall k, tcam :: Count(log, k, tcam) == Amount(Total(space, Served(c, k)), tcam)
  }

  lemma {:induction false} LogServes(tables: Tables, stages: seq<Stage>, topo: seq<int>, space: Spaces, c: Clusters,
                                     cluster: map<int, int>)
    requires KnownTables(tables, stages) && IsSpaceOf(tables, stages, space) && CompleteOrder(stages, topo)
    requires Shaped(c) && Partitions(c, topo) && ClustersOf(c, cluster)
    ensures CountsServed(AllLog(tables, stages, cluster), space, c)
  {
    AllLogNumbers(tables, stages, cluster, space);
    var log := AllLog(tables, stages, cluster);
    forall k, tcam
      ensures Count(log, k, tcam) == Amount(Total(space, Served(c, k)), tcam)
    {
      assert Count(log, k, tcam) == Amount(Total(space, In(stages, cluster, k)), tcam);
      InMembers(stages, cluster, k);
      ServedIsIn(stages, topo, c, cluster, k);
      TotalOfSameElements(space, Served(c, k), In(stages, cluster, k));
    }
  }

  lemma {:induction false} OthersInBounds(log: seq<Handout>, space: Spaces, c: Clusters, k: int, tcam: bool)
    requires Shaped(c) && Conserves(space, c) && CountsServed(log, space, c) && k != 0
    ensures Count(log, k, tcam) <= Limit(k, tcam)
  {
    assert Count(log, k, tcam) == Amount(Total(space, Served(c, k)), tcam);
    assert 0 < k < CLUSTER_COUNT ==> Plus(c.left[k], Total(space, c.procs[k])) == CAPACITY;
  }

  lemma {:induction false} ClusterZeroInBounds(log: seq<Handout>, space: Spaces, c: Clusters)
    requires Shaped(c) && Conserves(space, c) && CountsServed(log, space, c)
    ensures Within(Total(space, c.refused), c.left[0]) <==>
      Count(log, 0, true) <= Limit(0, true) && Count(log, 0, false) <= Limit(0, false)
  {
    var used, refused := Total(space, c.procs[0]), Total(space, c.refused);
    TotalConcat(space, c.procs[0], c.refused);
    assert Plus(c.left[0], used) == CAPACITY && Total(space, Served(c, 0)) == Plus(used, refused);
    CountAt(log, space, c, 0, true);
    CountAt(log, space, c, 0, false);
    FitsIntoRest(c.left[0], used, refused);
  }

  lemma {:induction false} CountAt(log: seq<Handout>, space: Spaces, c: Clusters, k: int, tcam: bool)
    requires Shaped(c) && CountsServed(log, space, c)
    ensures Count(log, k, tcam) == Amount(Total(space, Served(c, k)), tcam)
  {
  }

  lemma {:induction false} FitsIntoRest(left: Space, used: Space, more: Space)
    requires Plus(left, used) == CAPACITY
    ensures Within(more, left) <==>
      Amount(Plus(used, more), true) <= Limit(0, true) && Amount(Plus(used, more), false) <= Limit(0, false)
  {
  }

  lemma {:induction false} ClusterZeroDecides(log: seq<Handout>, space: Spaces, c: Clusters)
    requires Shaped(c) && Conserves(space, c) && CountsServed(log, space, c)
    ensures Within(Total(space, c.refused), c.left[0]) <==> CountsInBounds(log)
  {
    ClusterZeroInBounds(log, space, c);
    if Within(Total(space, c.refused), c.left[0]) {
      forall k, tcam
        ensures Count(log, k, tcam) <= Limit(k, tcam)
      {
        if k != 0 {
          OthersInBounds(log, space, c, k, tcam);
        }
      }
    }
  }

  /** All blocks handed out exist exactly when cluster 0 can hold its own stages and all refused ones.
      In particular they do when nothing was refused. */
  lemma {:induction false} BlocksExist(tables: Tables, stages: seq<Stage>, topo: seq<int>, space: Spaces, c: Clusters,
                                       cluster: map<int, int>)
    requires KnownTables(tables, stages) && IsSpaceOf(tables, stages, space) && CompleteOrder(stages, topo)
    requires c == PlaceAll(space, topo) && ClustersOf(c, cluster)
    ensures AllInBounds(AllLog(tables, stages, cluster)) <==> Within(Total(space, c.refused), c.left[0])
    ensures c.refused == [] ==> AllInBounds(AllLog(tables, stages, cluster))
  {
    AllLogNumbers(tables, stages, cluster, space);
    PlacementConserves(space, topo);
    PlacementPartitions(space, topo);
    LogServes(tables, stages, topo, space, c, cluster);
    BoundsAreCounts(AllLog(tables, stages, cluster));
    ClusterZeroDecides(AllLog(tables, stages, cluster), space, c);
  }

  const LARGE_TABLE: Tables := map[0 := Table(false, 257, 1, 0, 0)]
  const LARGE_STAGE := [Stage(0, false, [], [], [0])]
  const LARGE_SPACE: Spaces := map[0 := Space(257, 0)]

  lemma {:induction false} LargeStage()
    ensures KnownTables(LARGE_TABLE, LARGE_STAGE) && IsSpaceOf(LARGE_TABLE, LARGE_STAGE, LARGE_SPACE)
    ensures CompleteOrder(LARGE_STAGE, [0])
  {
    assert [0][..0] == [] && NeedOf(LARGE_TABLE, []) == NOTHING;
    assert LARGE_TABLE[0].Need() == Space(257, 0);
    assert KeptId(LARGE_STAGE, 0) by { assert LARGE_STAGE[0].id == 0; }
  }

  lemma {:induction false} FitsNowhere(k: nat, need: Space)
    requires !Within(need, CAPACITY) && k <= CLUSTER_COUNT && (k < CLUSTER_COUNT ==> Fits(EMPTY, k, need))
    ensures k == CLUSTER_COUNT
  {
    assert k == 0 || k == 1 || k == 2 || k == 3 || k == 4;
  }

  /** A stage larger than a cluster, placed first. */
  lemma {:induction false} FirstIsRefused(space: Spaces, id: int)
    requires !Within(SpaceOf(space, id), CAPACITY)
    ensures PlaceAll(space, [id]) == EMPTY.(refused := [id]) && Total(space, [id]) == SpaceOf(space, id)
  {
    assert [id][..0] == [] && [] + [id] == [id];
    FitsNowhere(FirstFit(EMPTY, SpaceOf(space, id), 0), SpaceOf(space, id));
    TotalLast(space, [], id);
  }

  lemma {:induction false} NothingPlaced(c: Clusters)
    requires c.procs == [[], [], [], []] && |c.left| == CLUSTER_COUNT
    ensures ClustersOf(c, map[])
  {
    forall i, id
      ensures !PlacedIn(c, i, id)
    {
      assert i == 0 || i == 1 || i == 2 || i == 3 || i < 0 || i >= 4;
    }
  }

  /** A table one block larger than a cluster: its stage is refused and handed a block there is not. */
  lemma {:induction false} RefusedStageOverruns()
    ensures KnownTables(LARGE_TABLE, LARGE_STAGE) && !AllInBounds(AllLog(LARGE_TABLE, LARGE_STAGE, map[]))
  {
    LargeStage();
    FirstIsRefused(LARGE_SPACE, 0);
    var c := EMPTY.(refused := [0]);
    NothingPlaced(c);
    BlocksExist(LARGE_TABLE, LARGE_STAGE, [0], LARGE_SPACE, c, map[]);
  }

  /** No two handouts are the same block of the same memory. */
  lemma {:induction false} BlocksAreDisjoint(tables: Tables, stages: seq<Stage>, space: Spaces,
                                             cluster: map<int, int>, i: nat, j: nat)
    requires KnownTables(tables, stages) && IsSpaceOf(tables, stages, space)
    requires i < j < |AllLog(tables, stages, cluster)|
    ensures var log := AllLog(tables, stages, cluster);
      log[i].cluster == log[j].cluster && log[i].tcam == log[j].tcam ==> log[i].block != log[j].block
  {
    AllLogNumbers(tables, stages, cluster, space);
    var log := AllLog(tables, stages, cluster);
    if log[i].cluster == log[j].cluster && log[i].tcam == log[j].tcam {
      NoBlockTwice(log, i, j);
    }
  }
}
