/** rP4-compiler/rp4c/ipsa_memory.h, the numbering of memory blocks: every table of every stage gets the
    next free numbers of the stage's cluster, counting SRAM and TCAM blocks separately. */
module Blocks {
  import opened Placement
  import opened Stages

  /** Key memory is TCAM or SRAM, value memory is SRAM; both are `width` * `depth` blocks. */
  datatype Table = Table(keyInTcam: bool, keyWidth: nat, keyDepth: nat, valueWidth: nat, valueDepth: nat)
  {
    function KeyBlocks(): nat {
      keyWidth * keyDepth
    }

    function ValueBlocks(): nat {
      valueWidth * valueDepth
    }

    function Need(): Space {
      if keyInTcam then Space(ValueBlocks(), KeyBlocks()) else Space(KeyBlocks() + ValueBlocks(), 0)
    }
  }

  type Tables = map<int, Table>

  /** One block given to a table: block number `block` of the TCAM or SRAM of `cluster`. */
  datatype Handout = Handout(cluster: int, tcam: bool, block: nat, table: int, key: bool)

  function Count(log: seq<Handout>, cluster: int, tcam: bool): nat {
    if log == [] then 0
    else
      var h := log[|log| - 1];
      Count(log[..|log| - 1], cluster, tcam) + if h.cluster == cluster && h.tcam == tcam then 1 else 0
  }

  /** `n` more blocks of one kind for one table, numbered from `block`. */
  function HandOut(log: seq<Handout>, cluster: int, tcam: bool, block: nat, table: int, key: bool,
                   n: nat): seq<Handout> {
    if n == 0 then log
    else
      HandOut(log, cluster, tcam, block, table, key, n - 1) + [Handout(cluster, tcam, block + n - 1, table, key)]
  }

  /** Every block carries the number of blocks of its kind its cluster handed out before. */
  ghost predicate Numbered(log: seq<Handout>) {
    forall i :: 0 <= i < |log| ==> log[i].block == Count(log[..i], log[i].cluster, log[i].tcam)
  }

  lemma {:induction false} CountLast(log: seq<Handout>, h: Handout, cluster: int, tcam: bool)
    ensures Count(log + [h], cluster, tcam) ==
            Count(log, cluster, tcam) + if h.cluster == cluster && h.tcam == tcam then 1 else 0
  {
    assert (log + [h])[..|log|] == log;
  }

  lemma {:induction false} NumberedLast(log: seq<Handout>, h: Handout)
    requires Numbered(log) && h.block == Count(log, h.cluster, h.tcam)
    ensures Numbered(log + [h])
  {
    var all := log + [h];
    forall i | 0 <= i < |all|
      ensures all[i].block == Count(all[..i], all[i].cluster, all[i].tcam)
    {
      assert all[..i] == log[..i];
      assert i == |log| ==> log[..i] == log;
    }
  }

  function Amount(s: Space, tcam: bool): nat {
    if tcam then s.tcam else s.sram
  }

  /** `log` has grown by `need`, all of it in `cluster`. */
  ghost predicate GrownBy(before: seq<Handout>, log: seq<Handout>, cluster: int, need: Space) {
    forall c, k :: Count(log, c, k) == Count(before, c, k) + (if c == cluster then Amount(need, k) else 0)
  }

  function Of(tcam: bool, n: nat): Space {
    if tcam then Space(0, n) else Space(n, 0)
  }

  lemma {:induction false} HandOutGrows(log: seq<Handout>, cluster: int, tcam: bool, block: nat, table: int, key: bool,
                                        n: nat)
    ensures GrownBy(log, HandOut(log, cluster, tcam, block, table, key, n), cluster, Of(tcam, n))
  {
    if n > 0 {
      HandOutGrows(log, cluster, tcam, block, table, key, n - 1);
      GrownByOneMore(log, HandOut(log, cluster, tcam, block, table, key, n - 1),
                     Handout(cluster, tcam, block + n - 1, table, key), n - 1);
    }
  }

  lemma {:induction false} HandOutNumbers(log: seq<Handout>, cluster: int, tcam: bool, block: nat, table: int,
                                          key: bool, n: nat)
    requires Numbered(log) && block == Count(log, cluster, tcam)
    ensures Numbered(HandOut(log, cluster, tcam, block, table, key, n))
  {
    if n > 0 {
      HandOutNumbers(log, cluster, tcam, block, table, key, n - 1);
      NextHandout(log, cluster, tcam, block, table, key, n - 1);
    }
  }

  lemma {:induction false} NextHandout(log: seq<Handout>, cluster: int, tcam: bool, block: nat, table: int, key: bool,
                                       n: nat)
    requires Numbered(HandOut(log, cluster, tcam, block, table, key, n)) && block == Count(log, cluster, tcam)
    ensures Numbered(HandOut(log, cluster, tcam, block, table, key, n + 1))
  {
    var before := HandOut(log, cluster, tcam, block, table, key, n);
    var h := Handout(cluster, tcam, block + n, table, key);
    HandOutGrows(log, cluster, tcam, block, table, key, n);
    GrownAt(log, before, cluster, tcam, n);
    NumberedLast(before, h);
    assert HandOut(log, cluster, tcam, block, table, key, n + 1) == before + [h];
  }

  lemma {:induction false} GrownAt(log: seq<Handout>, before: seq<Handout>, cluster: int, tcam: bool, n: nat)
    requires GrownBy(log, before, cluster, Of(tcam, n))
    ensures Count(before, cluster, tcam) == Count(log, cluster, tcam) + n
  {
  }

  lemma {:induction false} GrownByOneMore(log: seq<Handout>, before: seq<Handout>, h: Handout, n: nat)
    requires GrownBy(log, before, h.cluster, Of(h.tcam, n))
    ensures GrownBy(log, before + [h], h.cluster, Of(h.tcam, n + 1))
  {
    forall c, k
      ensures Count(before + [h], c, k) ==
              Count(log, c, k) + (if c == h.cluster then Amount(Of(h.tcam, n + 1), k) else 0)
    {
      CountLast(before, h, c, k);
      assert Count(before, c, k) == Count(log, c, k) + (if c == h.cluster then Amount(Of(h.tcam, n), k) else 0);
    }
  }

  // ----- what numbering guarantees

  lemma {:induction false} CountGrows(log: seq<Handout>, i: nat, cluster: int, tcam: bool)
    requires i <= |log|
    ensures Count(log[..i], cluster, tcam) <= Count(log, cluster, tcam)
    decreases |log|
  {
    if i < |log| {
      assert log[..|log| - 1][..i] == log[..i];
      CountGrows(log[..|log| - 1], i, cluster, tcam);
    } else {
      assert log[..i] == log;
    }
  }

  /** No block is handed out twice. */
  lemma {:induction false} NoBlockTwice(log: seq<Handout>, i: nat, j: nat)
    requires Numbered(log) && i < j < |log|
    requires log[i].cluster == log[j].cluster && log[i].tcam == log[j].tcam
    ensures log[i].block < log[j].block < Count(log, log[j].cluster, log[j].tcam)
  {
    CountBelow(log, j);
    CountBelow(log[..j], i);
    assert log[..j][..i] == log[..i];
  }

  lemma {:induction false} CountBelow(log: seq<Handout>, i: nat)
    requires i < |log|
    ensures Count(log[..i], log[i].cluster, log[i].tcam) < Count(log, log[i].cluster, log[i].tcam)
  {
    assert log[..i + 1] == log[..i] + [log[i]];
    CountLast(log[..i], log[i], log[i].cluster, log[i].tcam);
    CountGrows(log, i + 1, log[i].cluster, log[i].tcam);
  }

  /** Every number below the count has been handed out. */
  lemma {:induction false} EveryNumberUsed(log: seq<Handout>, cluster: int, tcam: bool, n: nat) returns (i: nat)
    requires Numbered(log) && n < Count(log, cluster, tcam)
    ensures i < |log| && log[i].cluster == cluster && log[i].tcam == tcam && log[i].block == n
  {
    var front, h := log[..|log| - 1], log[|log| - 1];
    if n < Count(front, cluster, tcam) {
      assert forall k :: 0 <= k < |front| ==> front[..k] == log[..k];
      i := EveryNumberUsed(front, cluster, tcam, n);
    } else {
      i := |log| - 1;
      assert log[..i] == front;
    }
  }

  // ----- one table, one stage, all stages

  function TableLog(log: seq<Handout>, cluster: int, id: int, t: Table): seq<Handout> {
    var keyed := HandOut(log, cluster, t.keyInTcam, Count(log, cluster, t.keyInTcam), id, true, t.KeyBlocks());
    HandOut(keyed, cluster, false, Count(keyed, cluster, false), id, false, t.ValueBlocks())
  }

  ghost predicate Known(tables: Tables, ids: seq<int>) {
    forall k :: 0 <= k < |ids| ==> ids[k] in tables
  }

  function StageLog(log: seq<Handout>, cluster: int, tables: Tables, ids: seq<int>): seq<Handout>
    requires Known(tables, ids)
  {
    if ids == [] then log
    else
      var id := ids[|ids| - 1];
      TableLog(StageLog(log, cluster, tables, ids[..|ids| - 1]), cluster, id, tables[id])
  }

  function NeedOf(tables: Tables, ids: seq<int>): Space
    requires Known(tables, ids)
  {
    if ids == [] then NOTHING
    else Plus(NeedOf(tables, ids[..|ids| - 1]), tables[ids[|ids| - 1]].Need())
  }

  ghost predicate KnownTables(tables: Tables, stages: seq<Stage>) {
    forall i :: 0 <= i < |stages| && !stages[i].removed ==> Known(tables, stages[i].tableIds)
  }

  function ClusterOf(cluster: map<int, int>, id: int): int {
    if id in cluster then cluster[id] else 0
  }

  /** All kept stages in their order; a stage without a cluster counts as in cluster 0. */
  function AllLog(tables: Tables, stages: seq<Stage>, cluster: map<int, int>): seq<Handout>
    requires KnownTables(tables, stages)
  {
    if stages == [] then []
    else
      var s := stages[|stages| - 1];
      var log := AllLog(tables, stages[..|stages| - 1], cluster);
      if s.removed then log else StageLog(log, ClusterOf(cluster, s.id), tables, s.tableIds)
  }

  lemma {:induction false} TableLogNumbers(log: seq<Handout>, cluster: int, id: int, t: Table)
    requires Numbered(log)
    ensures Numbered(TableLog(log, cluster, id, t))
    ensures GrownBy(log, TableLog(log, cluster, id, t), cluster, t.Need())
  {
    var block := Count(log, cluster, t.keyInTcam);
    HandOutNumbers(log, cluster, t.keyInTcam, block, id, true, t.KeyBlocks());
    HandOutGrows(log, cluster, t.keyInTcam, block, id, true, t.KeyBlocks());
    var keyed := HandOut(log, cluster, t.keyInTcam, block, id, true, t.KeyBlocks());
    HandOutNumbers(keyed, cluster, false, Count(keyed, cluster, false), id, false, t.ValueBlocks());
    HandOutGrows(keyed, cluster, false, Count(keyed, cluster, false), id, false, t.ValueBlocks());
  }

  lemma {:induction false} StageLogNumbers(log: seq<Handout>, cluster: int, tables: Tables, ids: seq<int>)
    requires Known(tables, ids) && Numbered(log)
    ensures Numbered(StageLog(log, cluster, tables, ids))
    ensures GrownBy(log, StageLog(log, cluster, tables, ids), cluster, NeedOf(tables, ids))
  {
    if ids != [] {
      var front, id := ids[..|ids| - 1], ids[|ids| - 1];
      StageLogNumbers(log, cluster, tables, front);
      TableLogNumbers(StageLog(log, cluster, tables, front), cluster, id, tables[id]);
    }
  }

  /** The kept stages whose blocks come from cluster `c`. */
  function In(stages: seq<Stage>, cluster: map<int, int>, c: int): seq<int> {
    if stages == [] then []
    else
      var s := stages[|stages| - 1];
      In(stages[..|stages| - 1], cluster, c) + if !s.removed && ClusterOf(cluster, s.id) == c then [s.id] else []
  }

  ghost predicate IsSpaceOf(tables: Tables, stages: seq<Stage>, space: Spaces)
    requires KnownTables(tables, stages)
  {
    forall i :: 0 <= i < |stages| && !stages[i].removed ==>
      SpaceOf(space, stages[i].id) == NeedOf(tables, stages[i].tableIds)
  }

  /** Cluster `c` hands out exactly what the stages it serves need. */
  ghost predicate ServesAll(log: seq<Handout>, stages: seq<Stage>, cluster: map<int, int>, space: Spaces) {
    forall c, k :: Count(log, c, k) == Amount(Total(space, In(stages, cluster, c)), k)
  }

  lemma {:induction false} InLast(stages: seq<Stage>, cluster: map<int, int>, c: int)
    requires stages != []
    ensures var front, s := stages[..|stages| - 1], stages[|stages| - 1];
            In(stages, cluster, c) == if !s.removed && ClusterOf(cluster, s.id) == c
                                      then In(front, cluster, c) + [s.id] else In(front, cluster, c)
  {
  }

  /** One more stage, in cluster `own`: what cluster `c` has handed out then, of the memory `k`. */
  lemma {:induction false} ServesOneMoreAt(log: seq<Handout>, after: seq<Handout>, space: Spaces, before: seq<int>,
                                           id: int, own: int, c: int, k: bool)
    requires Count(log, c, k) == Amount(Total(space, before), k) && GrownBy(log, after, own, SpaceOf(space, id))
    ensures Count(after, c, k) == Amount(Total(space, if own == c then before + [id] else before), k)
  {
    TotalLast(space, before, id);
  }

  lemma {:induction false} ServesOneMore(log: seq<Handout>, after: seq<Handout>, stages: seq<Stage>,
                                         cluster: map<int, int>, space: Spaces)
    requires stages != [] && ServesAll(log, stages[..|stages| - 1], cluster, space)
    requires var s := stages[|stages| - 1];
      if s.removed then after == log else GrownBy(log, after, ClusterOf(cluster, s.id), SpaceOf(space, s.id))
    ensures ServesAll(after, stages, cluster, space)
  {
    forall c, k
      ensures Count(after, c, k) == Amount(Total(space, In(stages, cluster, c)), k)
    {
      var front, s := stages[..|stages| - 1], stages[|stages| - 1];
      InLast(stages, cluster, c);
      if !s.removed {
        ServesOneMoreAt(log, after, space, In(front, cluster, c), s.id, ClusterOf(cluster, s.id), c, k);
      }
    }
  }

  lemma {:induction false} AllLogNumbers(tables: Tables, stages: seq<Stage>, cluster: map<int, int>, space: Spaces)
    requires KnownTables(tables, stages) && IsSpaceOf(tables, stages, space)
    ensures Numbered(AllLog(tables, stages, cluster))
    ensures ServesAll(AllLog(tables, stages, cluster), stages, cluster, space)
  {
    if stages != [] {
      var front, s := stages[..|stages| - 1], stages[|stages| - 1];
      AllLogNumbers(tables, front, cluster, space);
      if !s.removed {
        StageLogNumbers(AllLog(tables, front, cluster), ClusterOf(cluster, s.id), tables, s.tableIds);
      }
      ServesOneMore(AllLog(tables, front, cluster), AllLog(tables, stages, cluster), stages, cluster, space);
    }
  }
}
