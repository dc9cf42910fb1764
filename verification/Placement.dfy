/** rP4-compiler/rp4c/ipsa_memory.h: the space a stage needs, and placing stages into clusters by first
    fit, with a limit on processors, SRAM and TCAM per cluster. */
module Placement {
  import opened Finite
  import opened Configuration

  /** Blocks of SRAM and TCAM. */
  datatype Space = Space(sram: nat, tcam: nat)

  function Plus(a: Space, b: Space): Space {
    Space(a.sram + b.sram, a.tcam + b.tcam)
  }

  predicate Within(a: Space, b: Space) {
    a.sram <= b.sram && a.tcam <= b.tcam
  }

  const NOTHING := Space(0, 0)
  const CAPACITY := Space(CLUSTER_SRAM_COUNT, CLUSTER_TCAM_COUNT)

  type Spaces = map<int, Space>

  function SpaceOf(space: Spaces, id: int): Space {
    if id in space then space[id] else NOTHING
  }

  function Total(space: Spaces, ids: seq<int>): Space {
    if ids == [] then NOTHING
    else Plus(Total(space, ids[..|ids| - 1]), SpaceOf(space, ids[|ids| - 1]))
  }

  /** What is left of every cluster, the stages in it, and the stages no cluster could take. */
  datatype Clusters = Clusters(left: seq<Space>, procs: seq<seq<int>>, refused: seq<int>)

  const EMPTY := Clusters([CAPACITY, CAPACITY, CAPACITY, CAPACITY], [[], [], [], []], [])

  predicate Shaped(c: Clusters) {
    |c.left| == |c.procs| == CLUSTER_COUNT
  }

  /** Cluster `i` can take a stage of this size. */
  predicate Fits(c: Clusters, i: int, need: Space)
    requires Shaped(c) && 0 <= i < CLUSTER_COUNT
  {
    |c.procs[i]| < CLUSTER_PROC_COUNT && Within(need, c.left[i])
  }

  /** The first cluster from `i` on that fits, or the number of clusters. */
  function FirstFit(c: Clusters, need: Space, i: nat): (k: nat)
    requires Shaped(c) && i <= CLUSTER_COUNT
    ensures i <= k <= CLUSTER_COUNT
    ensures k < CLUSTER_COUNT ==> Fits(c, k, need)
    ensures forall j :: i <= j < k ==> !Fits(c, j, need)
    decreases CLUSTER_COUNT - i
  {
    if i == CLUSTER_COUNT || Fits(c, i, need) then i else FirstFit(c, need, i + 1)
  }

  function Put(c: Clusters, i: nat, id: int, need: Space): Clusters
    requires Shaped(c) && i < CLUSTER_COUNT && Fits(c, i, need)
  {
    Clusters(c.left[i := Space(c.left[i].sram - need.sram, c.left[i].tcam - need.tcam)],
             c.procs[i := c.procs[i] + [id]],
             c.refused)
  }

  function PlaceOne(c: Clusters, id: int, need: Space): (r: Clusters)
    requires Shaped(c)
    ensures Shaped(r)
  {
    var i := FirstFit(c, need, 0);
    if i < CLUSTER_COUNT then Put(c, i, id, need)
    else c.(refused := c.refused + [id])
  }

  /** Placing the stages of `order` one after the other. */
  function PlaceAll(space: Spaces, order: seq<int>): (r: Clusters)
    ensures Shaped(r)
  {
    if order == [] then EMPTY
    else
      var id := order[|order| - 1];
      PlaceOne(PlaceAll(space, order[..|order| - 1]), id, SpaceOf(space, id))
  }

  // ----- conservation

  ghost predicate Conserves(space: Spaces, c: Clusters)
    requires Shaped(c)
  {
    forall i :: 0 <= i < CLUSTER_COUNT ==>
      |c.procs[i]| <= CLUSTER_PROC_COUNT && Plus(c.left[i], Total(space, c.procs[i])) == CAPACITY
  }

  lemma {:induction false} TotalLast(space: Spaces, ids: seq<int>, id: int)
    ensures Total(space, ids + [id]) == Plus(Total(space, ids), SpaceOf(space, id))
  {
    assert (ids + [id])[..|ids|] == ids;
  }

  /** No cluster ever holds more than four stages, and what it has left and what its stages use always
      make up its capacity. */
  lemma {:induction false} PlacementConserves(space: Spaces, order: seq<int>)
    ensures Conserves(space, PlaceAll(space, order))
  {
    if order != [] {
      var front, id := order[..|order| - 1], order[|order| - 1];
      PlacementConserves(space, front);
      var c := PlaceAll(space, front);
      var i := FirstFit(c, SpaceOf(space, id), 0);
      if i < CLUSTER_COUNT {
        PutConserves(space, c, i, id);
      }
    }
  }

  lemma {:induction false} PutConserves(space: Spaces, c: Clusters, i: nat, id: int)
    requires Shaped(c) && Conserves(space, c) && i < CLUSTER_COUNT && Fits(c, i, SpaceOf(space, id))
    ensures Conserves(space, Put(c, i, id, SpaceOf(space, id)))
  {
    TotalLast(space, c.procs[i], id);
    TakenFromRest(c.left[i], Total(space, c.procs[i]), SpaceOf(space, id));
  }

  lemma {:induction false} TakenFromRest(left: Space, used: Space, need: Space)
    requires Plus(left, used) == CAPACITY && Within(need, left)
    ensures Plus(Space(left.sram - need.sram, left.tcam - need.tcam), Plus(used, need)) == CAPACITY
  {
  }

  // ----- every stage has its place

  predicate PlacedIn(c: Clusters, i: int, id: int) {
    0 <= i < |c.procs| && id in c.procs[i]
  }

  /** Every stage of `order` is in exactly one place: in one cluster, once, or refused, once. */
  ghost predicate Partitions(c: Clusters, order: seq<int>)
    requires Shaped(c)
  {
    && NoDup(c.refused)
    && (forall i :: 0 <= i < CLUSTER_COUNT ==> NoDup(c.procs[i]))
    && (forall id :: id in order <==> id in c.refused || exists i :: PlacedIn(c, i, id))
    && (forall i, j, id :: PlacedIn(c, i, id) && PlacedIn(c, j, id) ==> i == j)
    && (forall i, id :: PlacedIn(c, i, id) ==> id !in c.refused)
  }

  lemma {:induction false} PutPlaces(c: Clusters, i: nat, id: int, need: Space)
    requires Shaped(c) && i < CLUSTER_COUNT && Fits(c, i, need)
    ensures forall j, x :: PlacedIn(Put(c, i, id, need), j, x) <==> PlacedIn(c, j, x) || (j == i && x == id)
  {
  }

  lemma {:induction false} PlaceOnePartitions(c: Clusters, front: seq<int>, id: int, need: Space)
    requires Shaped(c) && Partitions(c, front) && id !in front
    ensures Partitions(PlaceOne(c, id, need), front + [id])
  {
    assert forall j :: !PlacedIn(c, j, id);
    var r := PlaceOne(c, id, need);
    var i := FirstFit(c, need, 0);
    if i < CLUSTER_COUNT {
      PutPlaces(c, i, id, need);
      forall j | 0 <= j < CLUSTER_COUNT
        ensures NoDup(r.procs[j])
      {
        assert !PlacedIn(c, i, id);
      }
      forall x
        ensures x in front + [id] <==> x in r.refused || exists j :: PlacedIn(r, j, x)
      {
        if exists j :: PlacedIn(c, j, x) {
          var j :| PlacedIn(c, j, x);
          assert PlacedIn(r, j, x);
        }
        assert PlacedIn(r, i, id);
      }
    } else {
      forall j, x
        ensures PlacedIn(r, j, x) <==> PlacedIn(c, j, x)
      {
      }
      forall x
        ensures x in front + [id] <==> x in r.refused || exists j :: PlacedIn(r, j, x)
      {
        if exists j :: PlacedIn(c, j, x) {
          var j :| PlacedIn(c, j, x);
          assert PlacedIn(r, j, x);
        }
      }
    }
  }

  lemma {:induction false} PlacementPartitions(space: Spaces, order: seq<int>)
    requires NoDup(order)
    ensures Partitions(PlaceAll(space, order), order)
  {
    if order == [] {
      assert forall i, id :: !PlacedIn(EMPTY, i, id);
    } else {
      var front, id := order[..|order| - 1], order[|order| - 1];
      PlacementPartitions(space, front);
      PlaceOnePartitions(PlaceAll(space, front), front, id, SpaceOf(space, id));
      assert front + [id] == order;
    }
  }

  // ----- first fit

  lemma {:induction false} PlaceOneShrinks(c: Clusters, id: int, need: Space, i: int, other: Space)
    requires Shaped(c) && 0 <= i < CLUSTER_COUNT && !Fits(c, i, other)
    ensures !Fits(PlaceOne(c, id, need), i, other)
  {
  }

  /** Whatever does not fit now will not fit later. */
  lemma {:induction false} NeverFitsAgain(space: Spaces, order: seq<int>, k: nat, i: int, need: Space)
    requires k <= |order| && 0 <= i < CLUSTER_COUNT && !Fits(PlaceAll(space, order[..k]), i, need)
    ensures !Fits(PlaceAll(space, order), i, need)
    decreases |order|
  {
    if k == |order| {
      assert order[..k] == order;
    } else {
      var front, id := order[..|order| - 1], order[|order| - 1];
      assert front[..k] == order[..k];
      NeverFitsAgain(space, front, k, i, need);
      PlaceOneShrinks(PlaceAll(space, front), id, SpaceOf(space, id), i, need);
    }
  }

  /** A stage is refused exactly when, at its turn, no cluster can take it. */
  lemma {:induction false} RefusedIffNothingFits(space: Spaces, order: seq<int>, k: nat)
    requires NoDup(order) && k < |order|
    ensures order[k] in PlaceAll(space, order).refused <==>
            forall i :: 0 <= i < CLUSTER_COUNT ==> !Fits(PlaceAll(space, order[..k]), i, SpaceOf(space, order[k]))
    decreases |order|
  {
    var front, id := order[..|order| - 1], order[|order| - 1];
    PlacementPartitions(space, front);
    if k == |order| - 1 {
      assert order[..k] == front;
      assert id !in front;
      var i := FirstFit(PlaceAll(space, front), SpaceOf(space, id), 0);
    } else {
      assert front[..k] == order[..k] && front[k] == order[k];
      RefusedIffNothingFits(space, front, k);
    }
  }

  /** In cluster `i` there are fewer than four stages, which with this one need at most 256 SRAM and 128 TCAM blocks. */
  ghost predicate HasRoom(space: Spaces, c: Clusters, i: int, need: Space)
    requires Shaped(c) && 0 <= i < 4
  {
    && |c.procs[i]| < 4
    && Total(space, c.procs[i]).sram + need.sram <= 256 && Total(space, c.procs[i]).tcam + need.tcam <= 128
  }

  lemma {:induction false} FitsIffRoom(space: Spaces, c: Clusters, i: int, need: Space)
    requires Shaped(c) && Conserves(space, c) && 0 <= i < 4
    ensures Fits(c, i, need) <==> HasRoom(space, c, i, need)
  {
  }

  /** A stage is placed in a cluster exactly if that is the first with room at its turn. */
  lemma {:induction false} PlacedInFirstRoom(space: Spaces, order: seq<int>, k: nat, i: nat)
    requires NoDup(order) && k < |order| && i < 4
    ensures var c, need := PlaceAll(space, order[..k]), SpaceOf(space, order[k]);
            PlacedIn(PlaceAll(space, order), i, order[k]) <==>
            HasRoom(space, c, i, need) && forall j :: 0 <= j < i ==> !HasRoom(space, c, j, need)
    decreases |order|
  {
    var front, id := order[..|order| - 1], order[|order| - 1];
    PlacementPartitions(space, front);
    if k == |order| - 1 {
      assert order[..k] == front && id !in front;
      PlacementConserves(space, front);
      var c, need := PlaceAll(space, front), SpaceOf(space, id);
      forall j | 0 <= j < 4
        ensures Fits(c, j, need) <==> HasRoom(space, c, j, need)
      {
        FitsIffRoom(space, c, j, need);
      }
      forall j | 0 <= j < 4
        ensures id !in c.procs[j]
      {
        assert id in c.procs[j] <==> PlacedIn(c, j, id);
      }
      PlacedNow(c, id, need, i);
    } else {
      assert front[..k] == order[..k] && front[k] == order[k] && front[k] in front;
      PlacedInFirstRoom(space, front, k, i);
      PlacedAsBefore(PlaceAll(space, front), id, SpaceOf(space, id), i, order[k]);
    }
  }

  lemma {:induction false} PlacedNow(c: Clusters, id: int, need: Space, i: nat)
    requires Shaped(c) && i < 4 && forall j :: 0 <= j < 4 ==> id !in c.procs[j]
    ensures PlacedIn(PlaceOne(c, id, need), i, id) <==>
            Fits(c, i, need) && forall j :: 0 <= j < i ==> !Fits(c, j, need)
  {
  }

  lemma {:induction false} PlacedAsBefore(c: Clusters, id: int, need: Space, i: nat, other: int)
    requires Shaped(c) && i < 4 && other != id
    ensures PlacedIn(PlaceOne(c, id, need), i, other) <==> PlacedIn(c, i, other)
  {
  }

  /** It is refused exactly if there is none. */
  lemma {:induction false} RefusedIffNoRoom(space: Spaces, order: seq<int>, k: nat)
    requires NoDup(order) && k < |order|
    ensures order[k] in PlaceAll(space, order).refused <==>
            forall i :: 0 <= i < 4 ==> !HasRoom(space, PlaceAll(space, order[..k]), i, SpaceOf(space, order[k]))
  {
    RefusedIffNothingFits(space, order, k);
    PlacementConserves(space, order[..k]);
    forall i | 0 <= i < 4
      ensures Fits(PlaceAll(space, order[..k]), i, SpaceOf(space, order[k])) <==>
              HasRoom(space, PlaceAll(space, order[..k]), i, SpaceOf(space, order[k]))
    {
      FitsIffRoom(space, PlaceAll(space, order[..k]), i, SpaceOf(space, order[k]));
    }
  }

  /** At the end nothing could move forward: no stage in cluster `j` fits in what is left of an earlier
      cluster, and no refused stage fits anywhere. */
  ghost predicate NothingMoves(space: Spaces, c: Clusters)
    requires Shaped(c)
  {
    && (forall i, j, id :: 0 <= i < j < CLUSTER_COUNT && PlacedIn(c, j, id) ==> !Fits(c, i, SpaceOf(space, id)))
    && (forall i, id :: 0 <= i < CLUSTER_COUNT && id in c.refused ==> !Fits(c, i, SpaceOf(space, id)))
  }

  lemma {:induction false} FirstFitGuarantee(space: Spaces, order: seq<int>)
    ensures NothingMoves(space, PlaceAll(space, order))
  {
    if order != [] {
      var front, id := order[..|order| - 1], order[|order| - 1];
      FirstFitGuarantee(space, front);
      var c, r := PlaceAll(space, front), PlaceAll(space, order);
      var need := SpaceOf(space, id);
      var k := FirstFit(c, need, 0);
      if k < CLUSTER_COUNT {
        PutPlaces(c, k, id, need);
      }
      forall i, j, x | 0 <= i < j < CLUSTER_COUNT && PlacedIn(r, j, x)
        ensures !Fits(r, i, SpaceOf(space, x))
      {
        assert PlacedIn(c, j, x) || (x == id && j == k);
        PlaceOneShrinks(c, id, need, i, SpaceOf(space, x));
      }
      forall i, x | 0 <= i < CLUSTER_COUNT && x in r.refused
        ensures !Fits(r, i, SpaceOf(space, x))
      {
        assert x in c.refused || x == id;
        PlaceOneShrinks(c, id, need, i, SpaceOf(space, x));
      }
    }
  }
}
