/** rP4-compiler/rp4c/ipsa_builder.h, `allocateProcessors`: every placed stage gets its processor, and a
    stage with more levels than one processor holds gets parser-only processors for the earlier ones,
    linked by their default gateways. */
module Processors {
  import opened Options
  import opened Configuration

  /** `next` is where the default gateway leads: a stage id, then, after the remap, a slot; None for a
      gateway that goes on to a table. */
  datatype Processor = Processor(id: int, levels: seq<int>, parserOnly: bool, next: Option<int>)

  type Slots = seq<Option<Processor>>
  type Levels = map<int, seq<int>>

  function LevelsOf(levels: Levels, id: int): seq<int> {
    if id in levels then levels[id] else []
  }

  /** How many parser-only processors `n` levels need besides the stage's own. */
  function Extra(n: nat): nat {
    if n <= MAX_LEVEL then 0 else 1 + Extra(n - MAX_LEVEL)
  }

  /** The `q`-th group of levels. */
  function Chunk(l: seq<int>, q: nat): seq<int> {
    var from := q * MAX_LEVEL;
    if from >= |l| then []
    else if from + MAX_LEVEL >= |l| then l[from..]
    else l[from..from + MAX_LEVEL]
  }

  // ----- slots

  /** `physical` says which slots stages occupy; the others are -1. */
  ghost predicate Assigned(physical: seq<int>) {
    && |physical| == PROC_COUNT
    && forall i, j :: 0 <= i < j < PROC_COUNT && physical[i] >= 0 ==> physical[i] != physical[j]
  }

  predicate Free(slots: Slots, physical: seq<int>, k: nat)
    requires |slots| == |physical| && k < |slots|
  {
    slots[k].None? && physical[k] < 0
  }

  /** The lowest free slot. */
  ghost predicate FirstFree(slots: Slots, physical: seq<int>, k: nat)
    requires |slots| == |physical|
  {
    && k < |slots| && slots[k].None? && physical[k] < 0
    && forall s :: 0 <= s < k ==> slots[s].Some? || physical[s] >= 0
  }

  function FreeCount(slots: Slots, physical: seq<int>, n: nat): nat
    requires |slots| == |physical| && n <= |slots|
  {
    if n == 0 then 0 else FreeCount(slots, physical, n - 1) + if Free(slots, physical, n - 1) then 1 else 0
  }

  /** Parser-only processors that the stages in slots `i` and up still need. */
  function NeedFrom(physical: seq<int>, levels: Levels, i: nat): nat
    requires i <= |physical|
    decreases |physical| - i
  {
    if i == |physical| then 0
    else (if physical[i] >= 0 then Extra(|LevelsOf(levels, physical[i])|) else 0) + NeedFrom(physical, levels, i + 1)
  }

  lemma {:induction false} TakingOneSlot(slots: Slots, physical: seq<int>, k: nat, p: Processor, n: nat)
    requires |slots| == |physical| && k < |slots| && n <= |slots|
    ensures FreeCount(slots[k := Some(p)], physical, n) ==
            FreeCount(slots, physical, n) - (if k < n && Free(slots, physical, k) then 1 else 0)
  {
    if n > 0 {
      TakingOneSlot(slots, physical, k, p, n - 1);
    }
  }

  lemma {:induction false} SomeSlotIsFree(slots: Slots, physical: seq<int>, n: nat)
    requires |slots| == |physical| && n <= |slots| && FreeCount(slots, physical, n) > 0
    ensures exists k :: 0 <= k < n && Free(slots, physical, k)
  {
    if !Free(slots, physical, n - 1) {
      SomeSlotIsFree(slots, physical, n - 1);
    }
  }

  // ----- what the allocation has built so far

  /** `extras[e]` is the slot of the parser-only processor numbered `base + e`. */
  ghost predicate ExtrasAt(slots: Slots, physical: seq<int>, base: int, extras: seq<nat>) {
    && |slots| == |physical| == PROC_COUNT
    && (forall e :: 0 <= e < |extras| ==>
          && extras[e] < PROC_COUNT && physical[extras[e]] < 0
          && slots[extras[e]].Some? && slots[extras[e]].value.id == base + e && slots[extras[e]].value.parserOnly)
    && (forall k :: 0 <= k < PROC_COUNT && physical[k] < 0 && slots[k].Some? ==> k in extras)
    && (forall e, f :: 0 <= e < f < |extras| ==> extras[e] != extras[f])
    && Lowest(physical, extras)
  }

  /** Slots without a stage are taken from the lowest on: those below the one numbered `e` are numbered lower. */
  ghost predicate Lowest(physical: seq<int>, extras: seq<nat>) {
    forall e {:trigger LowestAt(physical, extras, e)} :: 0 <= e < |extras| ==> LowestAt(physical, extras, e)
  }

  ghost predicate LowestAt(physical: seq<int>, extras: seq<nat>, e: nat)
    requires e < |extras|
  {
    forall k :: 0 <= k < extras[e] && k < |physical| && physical[k] < 0 ==> k in extras[..e]
  }

  /** Where the `q`-th parser-only processor of stage `id` leads: to the one behind it or to the stage. */
  function NextOf(id: int, firstId: int, m: nat, q: nat): int {
    if q + 1 < m then firstId + q + 1 else id
  }

  /** The `q`-th parser-only processor of stage `id`, when the first one has id `firstId`. */
  function Link(firstId: int, l: seq<int>, id: int, q: nat): Processor {
    Processor(firstId + q, Chunk(l, q), true, Some(NextOf(id, firstId, Extra(|l|), q)))
  }

  /** The parser-only processors `extras[a..a + m]` hold the first `m` groups of `l` and lead to each
      other and on to stage `id`. */
  ghost predicate ChainAt(slots: Slots, base: int, extras: seq<nat>, a: nat, m: nat, l: seq<int>, id: int) {
    a + m <= |extras| && forall q :: 0 <= q < m ==> LinkPlaced(slots, base, extras, a, l, id, q)
  }

  ghost predicate LinkPlaced(slots: Slots, base: int, extras: seq<nat>, a: nat, l: seq<int>, id: int, q: nat) {
    a + q < |extras| && extras[a + q] < |slots| && slots[extras[a + q]] == Some(Link(base + a, l, id, q))
  }

  /** The stage in slot `i` is complete: its own processor has the last group. */
  ghost predicate StageBuilt(slots: Slots, physical: seq<int>, levels: Levels, gates: map<int, Option<int>>,
                             base: int, extras: seq<nat>, i: nat, a: nat)
    requires |slots| == |physical| && i < |slots|
  {
    var id := physical[i];
    var l := LevelsOf(levels, id);
    && ChainAt(slots, base, extras, a, Extra(|l|), l, id)
    && id in gates
    && slots[i] == Some(Processor(id, Chunk(l, Extra(|l|)), false, gates[id]))
  }

  /** The stages in the slots below `i` are complete, those above have not been looked at. */
  ghost predicate OthersBuilt(slots: Slots, physical: seq<int>, levels: Levels, gates: map<int, Option<int>>,
                              base: int, extras: seq<nat>, start: map<nat, nat>, i: nat)
    requires i <= PROC_COUNT
  {
    && ExtrasAt(slots, physical, base, extras)
    && (forall k :: 0 <= k < i && physical[k] >= 0 ==>
          k in start && StageBuilt(slots, physical, levels, gates, base, extras, k, start[k]))
    && (forall k :: i < k < PROC_COUNT && physical[k] >= 0 ==> slots[k].None?)
  }

  /** Everything up to slot `n` is complete and nothing behind it has been looked at. */
  ghost predicate Built(slots: Slots, physical: seq<int>, levels: Levels, gates: map<int, Option<int>>,
                        base: int, extras: seq<nat>, start: map<nat, nat>, n: nat)
    requires n <= PROC_COUNT
  {
    && OthersBuilt(slots, physical, levels, gates, base, extras, start, n)
    && (n < PROC_COUNT && physical[n] >= 0 ==> slots[n].None?)
  }

  lemma {:induction false} ChunkFacts(l: seq<int>, q: nat)
    ensures |Chunk(l, q)| <= MAX_LEVEL
    ensures Extra(|l|) * MAX_LEVEL <= |l| || |l| <= MAX_LEVEL
    ensures q < Extra(|l|) <==> q * MAX_LEVEL + MAX_LEVEL < |l|
    decreases |l|
  {
    if |l| > MAX_LEVEL {
      if q > 0 {
        ChunkFacts(l[MAX_LEVEL..], q - 1);
      } else {
        ChunkFacts(l[MAX_LEVEL..], 0);
      }
    }
  }

  lemma {:induction false} ExtraTaken(slots: Slots, physical: seq<int>, levels: Levels, gates: map<int, Option<int>>,
                   base: int, extras: seq<nat>, start: map<nat, nat>, i: nat, k: nat, p: Processor)
    requires i <= PROC_COUNT && OthersBuilt(slots, physical, levels, gates, base, extras, start, i)
    requires k < PROC_COUNT && FirstFree(slots, physical, k) && p.id == base + |extras| && p.parserOnly
    ensures OthersBuilt(slots[k := Some(p)], physical, levels, gates, base, extras + [k], start, i)
  {
    var slots', extras' := slots[k := Some(p)], extras + [k];
    assert forall e :: 0 <= e < |extras| ==> extras[e] != k;
    forall s | 0 <= s < i && physical[s] >= 0
      ensures StageBuilt(slots', physical, levels, gates, base, extras', s, start[s])
    {
      assert StageBuilt(slots, physical, levels, gates, base, extras, s, start[s]);
      ChainKept(slots, slots', base, extras, extras', start[s], Extra(|LevelsOf(levels, physical[s])|),
                LevelsOf(levels, physical[s]), physical[s]);
    }
    forall j | 0 <= j < PROC_COUNT && physical[j] < 0 && slots'[j].Some?
      ensures j in extras'
    {
    }
    StillLowest(slots, physical, base, extras, k);
  }

  lemma {:induction false} StillLowest(slots: Slots, physical: seq<int>, base: int, extras: seq<nat>, k: nat)
    requires ExtrasAt(slots, physical, base, extras) && FirstFree(slots, physical, k)
    ensures Lowest(physical, extras + [k])
  {
    var all := extras + [k];
    forall e | 0 <= e < |all|
      ensures LowestAt(physical, all, e)
    {
      if e < |extras| {
        assert LowestAt(physical, extras, e) && all[..e] == extras[..e];
      } else {
        assert all[..e] == extras;
      }
    }
  }

  lemma {:induction false} ChainKept(slots: Slots, slots': Slots, base: int, extras: seq<nat>, extras': seq<nat>,
                  a: nat, m: nat, l: seq<int>, id: int)
    requires ChainAt(slots, base, extras, a, m, l, id) && extras <= extras' && |slots'| == |slots|
    requires forall e :: 0 <= e < |extras| && extras[e] < |slots| ==> slots'[extras[e]] == slots[extras[e]]
    ensures ChainAt(slots', base, extras', a, m, l, id)
  {
    forall q | 0 <= q < m
      ensures LinkPlaced(slots', base, extras', a, l, id, q)
    {
      assert LinkPlaced(slots, base, extras, a, l, id, q);
      assert extras'[a + q] == extras[a + q];
    }
  }

  lemma {:induction false} OwnChanged(slots: Slots, physical: seq<int>, levels: Levels, gates: map<int, Option<int>>,
                   base: int, extras: seq<nat>, start: map<nat, nat>, i: nat, p: Processor)
    requires i < PROC_COUNT && OthersBuilt(slots, physical, levels, gates, base, extras, start, i) && physical[i] >= 0
    ensures OthersBuilt(slots[i := Some(p)], physical, levels, gates, base, extras, start, i)
  {
    var slots' := slots[i := Some(p)];
    assert forall e :: 0 <= e < |extras| ==> extras[e] != i;
    forall s | 0 <= s < i && physical[s] >= 0
      ensures StageBuilt(slots', physical, levels, gates, base, extras, s, start[s])
    {
      assert StageBuilt(slots, physical, levels, gates, base, extras, s, start[s]);
      ChainKept(slots, slots', base, extras, extras, start[s], Extra(|LevelsOf(levels, physical[s])|),
                LevelsOf(levels, physical[s]), physical[s]);
    }
  }

  // ----- one stage

  method FindFree(slots: Slots, physical: seq<int>) returns (k: nat)
    requires |slots| == |physical| == PROC_COUNT
    ensures k <= PROC_COUNT && (k < PROC_COUNT ==> FirstFree(slots, physical, k))
    ensures k == PROC_COUNT ==> FreeCount(slots, physical, PROC_COUNT) == 0
  {
    k := 0;
    while k < PROC_COUNT && !Free(slots, physical, k)
      invariant 0 <= k <= PROC_COUNT && FreeCount(slots, physical, k) == 0
      invariant forall s :: 0 <= s < k ==> slots[s].Some? || physical[s] >= 0
    {
      k := k + 1;
    }
  }

  /** Groups `0..q` of the current stage are placed: `q` parser-only processors, or all of them and the
      last group in the stage's own. */
  ghost predicate Underway(slots: Slots, base: int, extras: seq<nat>, a: nat, l: seq<int>, id: int, i: nat, q: nat)
    requires i < |slots|
  {
    var m := Extra(|l|);
    && |extras| == a + (if q <= m then q else m)
    && ChainAt(slots, base, extras, a, if q <= m then q else m, l, id)
    && slots[i] == Some(Processor(id, if q <= m then [] else Chunk(l, m), false, None))
  }

  lemma {:induction false} ChainGrows(slots: Slots, base: int, extras: seq<nat>, a: nat, q: nat, l: seq<int>, id: int,
                                      k: nat, p: Processor)
    requires ChainAt(slots, base, extras, a, q, l, id) && |extras| == a + q && k < |slots|
    requires forall e :: 0 <= e < |extras| ==> extras[e] != k
    requires p == Link(base + a, l, id, q)
    ensures ChainAt(slots[k := Some(p)], base, extras + [k], a, q + 1, l, id)
  {
    var slots', extras' := slots[k := Some(p)], extras + [k];
    ChainKept(slots, slots', base, extras, extras', a, q, l, id);
    assert extras'[a + q] == k;
    forall r | 0 <= r < q + 1
      ensures LinkPlaced(slots', base, extras', a, l, id, r)
    {
    }
  }

  /** The `q`-th group starts at `MAX_LEVEL * q`. */
  lemma {:induction false} GroupIsChunk(l: seq<int>, q: nat)
    requires MAX_LEVEL * q < |l|
    ensures Chunk(l, q) == l[MAX_LEVEL * q..if MAX_LEVEL * q + MAX_LEVEL < |l| then MAX_LEVEL * q + MAX_LEVEL else |l|]
    ensures MAX_LEVEL * q + MAX_LEVEL < |l| <==> q < Extra(|l|)
    ensures MAX_LEVEL * q + MAX_LEVEL >= |l| <==> q == Extra(|l|)
    ensures MAX_LEVEL * q + 2 * MAX_LEVEL < |l| <==> q + 1 < Extra(|l|)
  {
    ChunkFacts(l, q);
    ChunkFacts(l, q + 1);
    if q > 0 {
      ChunkFacts(l, q - 1);
    }
  }

  /** Putting the next parser-only processor into a free slot. */
  lemma {:induction false} LinkStep(slots: Slots, physical: seq<int>, levels: Levels, gates: map<int, Option<int>>,
                 base: int, extras: seq<nat>, start: map<nat, nat>, i: nat, k: nat, l: seq<int>, a: nat, q: nat)
    requires i < PROC_COUNT && OthersBuilt(slots, physical, levels, gates, base, extras, start, i) && physical[i] >= 0
    requires Underway(slots, base, extras, a, l, physical[i], i, q) && q < Extra(|l|)
    requires k < PROC_COUNT && FirstFree(slots, physical, k)
    ensures var slots' := slots[k := Some(Link(base + a, l, physical[i], q))];
      && OthersBuilt(slots', physical, levels, gates, base, extras + [k], start, i)
      && Underway(slots', base, extras + [k], a, l, physical[i], i, q + 1)
      && FreeCount(slots', physical, PROC_COUNT) + 1 == FreeCount(slots, physical, PROC_COUNT)
  {
    var p := Link(base + a, l, physical[i], q);
    ExtraTaken(slots, physical, levels, gates, base, extras, start, i, k, p);
    ChainGrows(slots, base, extras, a, q, l, physical[i], k, p);
    TakingOneSlot(slots, physical, k, p, PROC_COUNT);
  }

  /** Putting the last group into the stage's own processor. */
  lemma {:induction false} OwnStep(slots: Slots, physical: seq<int>, levels: Levels, gates: map<int, Option<int>>,
                base: int, extras: seq<nat>, start: map<nat, nat>, i: nat, l: seq<int>, a: nat, q: nat)
    requires i < PROC_COUNT && OthersBuilt(slots, physical, levels, gates, base, extras, start, i) && physical[i] >= 0
    requires Underway(slots, base, extras, a, l, physical[i], i, q) && q == Extra(|l|)
    ensures var slots' := slots[i := Some(Processor(physical[i], Chunk(l, q), false, None))];
      && OthersBuilt(slots', physical, levels, gates, base, extras, start, i)
      && Underway(slots', base, extras, a, l, physical[i], i, q + 1)
      && FreeCount(slots', physical, PROC_COUNT) == FreeCount(slots, physical, PROC_COUNT)
  {
    var p := Processor(physical[i], Chunk(l, q), false, None);
    OwnChanged(slots, physical, levels, gates, base, extras, start, i, p);
    ChainKept(slots, slots[i := Some(p)], base, extras, extras, a, q, l, physical[i]);
    TakingOneSlot(slots, physical, i, p, PROC_COUNT);
  }

  /** The same steps, by what the loop writes. */
  lemma {:induction false} LinkPlacedAt(slots: Slots, after: Slots, physical: seq<int>, levels: Levels,
                                        gates: map<int, Option<int>>, base: int, extras: seq<nat>,
                                        start: map<nat, nat>, i: nat, k: nat, l: seq<int>, a: nat, q: nat,
                                        extraId: int)
    requires i < PROC_COUNT && OthersBuilt(slots, physical, levels, gates, base, extras, start, i) && physical[i] >= 0
    requires Underway(slots, base, extras, a, l, physical[i], i, q)
    requires MAX_LEVEL * q + MAX_LEVEL < |l| && extraId == base + |extras|
    requires k < PROC_COUNT && FirstFree(slots, physical, k)
    requires var next := if MAX_LEVEL * q + 2 * MAX_LEVEL < |l| then extraId + 1 else slots[i].value.id;
             var group := l[MAX_LEVEL * q..MAX_LEVEL * q + MAX_LEVEL];
             after == slots[k := Some(Processor(extraId, group, true, Some(next)))]
    ensures OthersBuilt(after, physical, levels, gates, base, extras + [k], start, i)
    ensures Underway(after, base, extras + [k], a, l, physical[i], i, q + 1)
    ensures FreeCount(after, physical, PROC_COUNT) + 1 == FreeCount(slots, physical, PROC_COUNT)
  {
    GroupIsChunk(l, q);
    assert slots[i].value.id == physical[i] && base + a + q == extraId;
    assert after == slots[k := Some(Link(base + a, l, physical[i], q))];
    LinkStep(slots, physical, levels, gates, base, extras, start, i, k, l, a, q);
  }

  lemma {:induction false} OwnPlacedAt(slots: Slots, after: Slots, physical: seq<int>, levels: Levels,
                                       gates: map<int, Option<int>>, base: int, extras: seq<nat>,
                                       start: map<nat, nat>, i: nat, l: seq<int>, a: nat, q: nat)
    requires i < PROC_COUNT && OthersBuilt(slots, physical, levels, gates, base, extras, start, i) && physical[i] >= 0
    requires Underway(slots, base, extras, a, l, physical[i], i, q) && MAX_LEVEL * q < |l| <= MAX_LEVEL * q + MAX_LEVEL
    requires slots[i].Some?
    requires after == slots[i := Some(slots[i].value.(levels := slots[i].value.levels + l[MAX_LEVEL * q..]))]
    ensures OthersBuilt(after, physical, levels, gates, base, extras, start, i)
    ensures Underway(after, base, extras, a, l, physical[i], i, q + 1)
    ensures FreeCount(after, physical, PROC_COUNT) == FreeCount(slots, physical, PROC_COUNT)
  {
    GroupIsChunk(l, q);
    assert [] + l[MAX_LEVEL * q..] == Chunk(l, q);
    OwnStep(slots, physical, levels, gates, base, extras, start, i, l, a, q);
  }

  class IpsaBuilder {
    var processors: Slots

    constructor ()
      ensures processors == NoProcessors()
    {
      processors := NoProcessors();
    }

    /** One turn of the loop over a stage's levels: the group starting at `j` goes into a new parser-only
        processor, or, if it is the last or no slot is free, into the stage's own. */
    method PlaceGroup(physical: seq<int>, i: nat, l: seq<int>, j: nat, extraId: int) returns (ok: bool, k: nat)
      requires |processors| == |physical| == PROC_COUNT && i < PROC_COUNT && processors[i].Some? && j < |l|
      modifies this
      ensures |processors| == PROC_COUNT && processors[i].Some?
      ensures !ok ==> FreeCount(old(processors), physical, PROC_COUNT) == 0 && j + MAX_LEVEL < |l|
      ensures ok && j + MAX_LEVEL < |l| ==> k < PROC_COUNT && FirstFree(old(processors), physical, k)
      ensures ok && j + MAX_LEVEL < |l| ==>
        var next := if j + 2 * MAX_LEVEL < |l| then extraId + 1 else old(processors[i].value.id);
        processors == old(processors)[k := Some(Processor(extraId, l[j..j + MAX_LEVEL], true, Some(next)))]
      ensures ok && j + MAX_LEVEL >= |l| ==> var own := old(processors[i].value);
        processors == old(processors)[i := Some(own.(levels := own.levels + l[j..]))]
      ensures !ok ==> forall s :: 0 <= s < PROC_COUNT && s != i ==> processors[s] == old(processors[s])
    {
      ok := true;
      k := PROC_COUNT;
      assert l[j..] == l[j..|l|];
      var group := l[j..if j + MAX_LEVEL < |l| then j + MAX_LEVEL else |l|];
      if j + MAX_LEVEL < |l| {
        k := FindFree(processors, physical);
        ok := k < PROC_COUNT;
      }
      if j + MAX_LEVEL < |l| && ok {
        var next := if j + 2 * MAX_LEVEL < |l| then extraId + 1 else processors[i].value.id;
        processors := processors[k := Some(Processor(extraId, group, true, Some(next)))];
      } else {
        var own := processors[i].value;
        processors := processors[i := Some(own.(levels := own.levels + group))];
      }
    }

    /** One turn, in terms of the chain being built. */
    method ExtendChain(physical: seq<int>, levels: Levels, gates: map<int, Option<int>>, i: nat, l: seq<int>,
                       extraId: int, ghost q: nat, j: nat, ghost base: int, ghost extras: seq<nat>,
                       ghost start: map<nat, nat>, ghost a: nat)
      returns (ok: bool, extraId': int, ghost extras': seq<nat>)
      requires i < PROC_COUNT && |physical| == PROC_COUNT && physical[i] >= 0 && j == MAX_LEVEL * q < |l|
      requires OthersBuilt(processors, physical, levels, gates, base, extras, start, i)
      requires Underway(processors, base, extras, a, l, physical[i], i, q) && extraId == base + |extras|
      modifies this
      ensures |processors| == PROC_COUNT && processors[i].Some?
      ensures !ok ==> FreeCount(old(processors), physical, PROC_COUNT) == 0 && q < Extra(|l|)
      ensures ok ==> OthersBuilt(processors, physical, levels, gates, base, extras', start, i)
      ensures ok ==> Underway(processors, base, extras', a, l, physical[i], i, q + 1) && extraId' == base + |extras'|
      ensures ok ==> FreeCount(processors, physical, PROC_COUNT) + |extras'| ==
                     FreeCount(old(processors), physical, PROC_COUNT) + |extras|
    {
      extraId', extras' := extraId, extras;
      GroupIsChunk(l, q);
      ghost var slots := processors;
      var k;
      ok, k := PlaceGroup(physical, i, l, j, extraId);
      if ok {
        if j + MAX_LEVEL < |l| {
          LinkPlacedAt(slots, processors, physical, levels, gates, base, extras, start, i, k, l, a, q, extraId);
          extraId', extras' := extraId + 1, extras + [k];
        } else {
          OwnPlacedAt(slots, processors, physical, levels, gates, base, extras, start, i, l, a, q);
        }
      }
    }

    /** The processors of the stage in slot `i`. Succeeds exactly when enough slots are free. */
    method BuildStage(physical: seq<int>, levels: Levels, gates: map<int, Option<int>>, i: nat, extraId: int,
                      ghost base: int, ghost extras: seq<nat>, ghost start: map<nat, nat>)
      returns (ok: bool, extraId': int, ghost extras': seq<nat>)
      requires i < PROC_COUNT && |physical| == PROC_COUNT && physical[i] >= 0 && physical[i] in gates
      requires Built(processors, physical, levels, gates, base, extras, start, i) && extraId == base + |extras|
      modifies this
      ensures |processors| == PROC_COUNT
      ensures ok <==> FreeCount(old(processors), physical, PROC_COUNT) >= Extra(|LevelsOf(levels, physical[i])|)
      ensures ok ==> OthersBuilt(processors, physical, levels, gates, base, extras', start, i)
      ensures ok ==> extraId' == base + |extras'| && |extras'| == |extras| + Extra(|LevelsOf(levels, physical[i])|)
      ensures ok ==> StageBuilt(processors, physical, levels, gates, base, extras', i, |extras|)
      ensures ok ==> FreeCount(processors, physical, PROC_COUNT) + |extras'| ==
                     FreeCount(old(processors), physical, PROC_COUNT) + |extras|
    {
      var l := LevelsOf(levels, physical[i]);
      ghost var empty := Processor(physical[i], [], false, None);
      ok, extraId', extras' := true, extraId, extras;
      OwnChanged(processors, physical, levels, gates, base, extras, start, i, empty);
      TakingOneSlot(processors, physical, i, empty, PROC_COUNT);
      processors := processors[i := Some(Processor(physical[i], [], false, None))];
      var j := 0;
      ghost var q := 0;
      while j < |l|
        invariant j == MAX_LEVEL * q && |processors| == PROC_COUNT && processors[i].Some?
        invariant ok ==> OthersBuilt(processors, physical, levels, gates, base, extras', start, i)
        invariant ok ==> Underway(processors, base, extras', |extras|, l, physical[i], i, q)
        invariant ok ==> extraId' == base + |extras'| && |extras| <= |extras'|
        invariant ok ==> FreeCount(processors, physical, PROC_COUNT) + |extras'| ==
                         FreeCount(old(processors), physical, PROC_COUNT) + |extras|
        invariant !ok ==> FreeCount(old(processors), physical, PROC_COUNT) < Extra(|l|)
        invariant q > 0 ==> MAX_LEVEL * (q - 1) < |l|
      {
        if ok {
          ok, extraId', extras' :=
            ExtendChain(physical, levels, gates, i, l, extraId', q, j, base, extras', start, |extras|);
        } else {
          var _, _ := PlaceGroup(physical, i, l, j, extraId');
        }
        j := j + MAX_LEVEL;
        q := q + 1;
      }
      AllGroupsPlaced(l, q);
      ghost var slots := processors;
      ghost var done := processors[i].value.(next := gates[physical[i]]);
      processors := processors[i := Some(processors[i].value.(next := gates[physical[i]]))];
      if ok {
        OwnChanged(slots, physical, levels, gates, base, extras', start, i, done);
        ChainKept(slots, processors, base, extras', extras', |extras|, Extra(|l|), l, physical[i]);
        TakingOneSlot(slots, physical, i, done, PROC_COUNT);
      }
    }

    /** The turn of slot `i`. */
    method StageTurn(physical: seq<int>, levels: Levels, gates: map<int, Option<int>>, i: nat, extraId: int,
                     ghost base: int, ghost extras: seq<nat>, ghost start: map<nat, nat>)
      returns (ok: bool, extraId': int, ghost extras': seq<nat>, ghost start': map<nat, nat>)
      requires i < PROC_COUNT && |physical| == PROC_COUNT && (physical[i] >= 0 ==> physical[i] in gates)
      requires SoFar(processors, physical, levels, gates, base, extras, start, i) && extraId == base + |extras|
      modifies this
      ensures !ok ==> FreeCount(NoProcessors(), physical, PROC_COUNT) < NeedFrom(physical, levels, 0)
      ensures ok ==> SoFar(processors, physical, levels, gates, base, extras', start', i + 1)
      ensures ok ==> extraId' == base + |extras'|
    {
      ok, extraId', extras', start' := true, extraId, extras, start;
      if physical[i] >= 0 {
        ok, extraId', extras' := BuildStage(physical, levels, gates, i, extraId, base, extras, start);
        start' := start[i := |extras|];
        if ok {
          NextStage(processors, physical, levels, gates, base, extras', start, i, |extras|);
          LayoutGrows(physical, levels, start, i, |extras|, |extras'|);
        }
      } else {
        LayoutSkips(physical, levels, start, i, |extras|);
      }
    }

    /** `allocateProcessors`. Succeeds exactly when there are slots for all parser-only processors. */
    method AllocateProcessors(physical: seq<int>, topo: seq<int>, levels: Levels, gates: map<int, Option<int>>)
      returns (ok: bool, ghost o: Outcome)
      requires Assigned(physical) && processors == NoProcessors()
      requires StagesKnown(physical, topo, gates)
      modifies this
      ensures ok <==> FreeCount(NoProcessors(), physical, PROC_COUNT) >= NeedFrom(physical, levels, 0)
      ensures ok ==> LowestTaken(physical, processors, NeedFrom(physical, levels, 0))
      ensures ok ==> Allocation(o) && o.after == processors
      ensures ok ==> o.physical == physical && o.levels == levels && o.gates == gates
      ensures ok ==> IsFirstUnused(topo, o.base)
      ensures ok ==> |o.extras| == NeedFrom(physical, levels, 0)
    {
      ghost var base, extras, start;
      ok, base, extras, start := BuildStages(physical, topo, levels, gates);
      if ok {
        IdsBelow(physical, topo, gates, base);
        o := NameBySlots(physical, levels, gates, base, extras, start);
      } else {
        o := Outcome(processors, processors, physical, levels, gates, base, extras, start, map[]);
      }
    }

    /** The remap of all processors that were built. */
    method NameBySlots(ghost physical: seq<int>, ghost levels: Levels, ghost gates: map<int, Option<int>>,
                       ghost base: int, ghost extras: seq<nat>, ghost start: map<nat, nat>)
      returns (ghost o: Outcome)
      requires Assigned(physical) && AllBelow(physical, base)
      requires Built(processors, physical, levels, gates, base, extras, start, PROC_COUNT)
      requires Layout(physical, levels, start, PROC_COUNT, |extras|)
      modifies this
      ensures Allocation(o) && o.after == processors && o.physical == physical && o.levels == levels
      ensures o.gates == gates && o.base == base && o.extras == extras
      ensures LowestTaken(physical, processors, |extras|)
    {
      ghost var built := processors;
      BuiltIdsDistinct(built, physical, levels, gates, base, extras, start);
      LowestAreTaken(built, physical, base, extras);
      var procProc;
      procProc, processors := Remap(processors);
      o := Outcome(built, processors, physical, levels, gates, base, extras, start, procProc);
      IsAllocation(o);
      TakenAfter(built, procProc, processors, physical, |extras|);
    }

    /** The loop over the slots. */
    method BuildStages(physical: seq<int>, topo: seq<int>, levels: Levels, gates: map<int, Option<int>>)
      returns (ok: bool, ghost base: int, ghost extras: seq<nat>, ghost start: map<nat, nat>)
      requires |physical| == PROC_COUNT && processors == NoProcessors()
      requires StagesKnown(physical, topo, gates)
      modifies this
      ensures ok <==> FreeCount(NoProcessors(), physical, PROC_COUNT) >= NeedFrom(physical, levels, 0)
      ensures ok ==> Built(processors, physical, levels, gates, base, extras, start, PROC_COUNT)
      ensures ok ==> Layout(physical, levels, start, PROC_COUNT, |extras|) && |extras| == NeedFrom(physical, levels, 0)
      ensures IsFirstUnused(topo, base)
    {
      var extraId := FirstUnusedId(topo);
      base, extras, start := extraId, [], map[];
      ok := true;
      for i := 0 to PROC_COUNT
        invariant ok ==> SoFar(processors, physical, levels, gates, base, extras, start, i)
        invariant ok ==> extraId == base + |extras|
        invariant !ok ==> FreeCount(NoProcessors(), physical, PROC_COUNT) < NeedFrom(physical, levels, 0)
      {
        if ok {
          ok, extraId, extras, start := StageTurn(physical, levels, gates, i, extraId, base, extras, start);
        }
      }
    }
  }

  /** The stages in slots are in the order of stages and have gateways. */
  ghost predicate StagesKnown(physical: seq<int>, topo: seq<int>, gates: map<int, Option<int>>) {
    && |physical| == PROC_COUNT
    && forall k :: 0 <= k < PROC_COUNT && physical[k] >= 0 ==> physical[k] in topo && physical[k] in gates
  }

  /** One more than the largest number, and at least 1. */
  ghost predicate IsFirstUnused(topo: seq<int>, base: int) {
    base > 0 && (forall x :: x in topo ==> x < base) && (base == 1 || base - 1 in topo)
  }

  ghost predicate AllBelow(physical: seq<int>, base: int) {
    |physical| == PROC_COUNT && base > 0 && forall k :: 0 <= k < PROC_COUNT ==> physical[k] < base
  }

  lemma {:induction false} IdsBelow(physical: seq<int>, topo: seq<int>, gates: map<int, Option<int>>, base: int)
    requires StagesKnown(physical, topo, gates) && IsFirstUnused(topo, base)
    ensures AllBelow(physical, base)
  {
  }

  lemma {:induction false} IsAllocation(o: Outcome)
    requires Assigned(o.physical) && AllBelow(o.physical, o.base)
    requires Built(o.built, o.physical, o.levels, o.gates, o.base, o.extras, o.start, PROC_COUNT)
    requires Remapped(o.built, o.procProc, o.after)
    requires Layout(o.physical, o.levels, o.start, PROC_COUNT, |o.extras|)
    ensures Allocation(o)
  {
  }

  lemma {:induction false} TakenAfter(slots: Slots, procProc: map<int, int>, after: Slots, physical: seq<int>,
                                      need: nat)
    requires Remapped(slots, procProc, after) && LowestTaken(physical, slots, need)
    ensures LowestTaken(physical, after, need)
  {
  }

  // ----- which slots parser-only processors get

  /** How many slots below `k` hold no stage. */
  function EmptyBelow(physical: seq<int>, k: nat): nat
    requires k <= |physical|
  {
    if k == 0 then 0 else EmptyBelow(physical, k - 1) + if physical[k - 1] < 0 then 1 else 0
  }

  /** Of the slots without a stage the `need` lowest hold processors. */
  ghost predicate LowestTaken(physical: seq<int>, slots: Slots, need: nat) {
    && |slots| == |physical|
    && forall k :: 0 <= k < |physical| && physical[k] < 0 ==> (slots[k].Some? <==> EmptyBelow(physical, k) < need)
  }

  lemma {:induction false} NoneBetween(physical: seq<int>, a: nat, b: nat)
    requires a <= b <= |physical| && forall k :: a <= k < b ==> physical[k] >= 0
    ensures EmptyBelow(physical, b) == EmptyBelow(physical, a)
  {
    if a < b {
      NoneBetween(physical, a, b - 1);
    }
  }

  lemma {:induction false} EmptyBelowGrows(physical: seq<int>, a: nat, b: nat)
    requires a < b <= |physical| && physical[a] < 0
    ensures EmptyBelow(physical, a) < EmptyBelow(physical, b)
  {
    if a + 1 < b {
      EmptyBelowGrows(physical, a, b - 1);
    }
  }

  lemma {:induction false} NoneUnderFirst(slots: Slots, physical: seq<int>, base: int, extras: seq<nat>)
    requires ExtrasAt(slots, physical, base, extras) && extras != []
    ensures EmptyBelow(physical, extras[0]) == 0
  {
    assert LowestAt(physical, extras, 0) && extras[..0] == [];
    NoneBetween(physical, 0, extras[0]);
  }

  lemma {:induction false} OneMoreBelow(slots: Slots, physical: seq<int>, base: int, extras: seq<nat>, e: nat)
    requires ExtrasAt(slots, physical, base, extras) && 0 < e < |extras|
    ensures extras[e - 1] < extras[e] <= |physical| && physical[extras[e - 1]] < 0
    ensures EmptyBelow(physical, extras[e]) == EmptyBelow(physical, extras[e - 1]) + 1
  {
    var j, k := extras[e - 1], extras[e];
    NotBelow(slots, physical, base, extras, e - 1, e);
    forall s | j + 1 <= s < k
      ensures physical[s] >= 0
    {
      if physical[s] < 0 {
        LowerIsNumbered(slots, physical, base, extras, e, s);
      }
    }
    NoneBetween(physical, j + 1, k);
  }

  /** The `e`-th parser-only processor is in the slot with `e` empty ones below. */
  lemma {:induction false} ExtraIsAt(slots: Slots, physical: seq<int>, base: int, extras: seq<nat>, e: nat)
    requires ExtrasAt(slots, physical, base, extras) && e < |extras|
    ensures extras[e] < |physical| && physical[extras[e]] < 0 && EmptyBelow(physical, extras[e]) == e
  {
    if e == 0 {
      NoneUnderFirst(slots, physical, base, extras);
    } else {
      ExtraIsAt(slots, physical, base, extras, e - 1);
      OneMoreBelow(slots, physical, base, extras, e);
    }
  }

  lemma {:induction false} LowerIsNumbered(slots: Slots, physical: seq<int>, base: int, extras: seq<nat>, e: nat,
                                           s: nat)
    requires ExtrasAt(slots, physical, base, extras) && 0 < e < |extras| && s < extras[e] && physical[s] < 0
    ensures s <= extras[e - 1]
  {
    assert LowestAt(physical, extras, e) && s in extras[..e];
    var f :| 0 <= f < e && extras[f] == s;
    if f < e - 1 {
      NotBelow(slots, physical, base, extras, f, e - 1);
    }
  }

  lemma {:induction false} NotBelow(slots: Slots, physical: seq<int>, base: int, extras: seq<nat>, f: nat, e: nat)
    requires ExtrasAt(slots, physical, base, extras) && f < e < |extras|
    ensures extras[f] < extras[e]
  {
    assert LowestAt(physical, extras, f) && extras[e] !in extras[..f];
  }

  lemma {:induction false} LowestAreTaken(slots: Slots, physical: seq<int>, base: int, extras: seq<nat>)
    requires ExtrasAt(slots, physical, base, extras)
    ensures LowestTaken(physical, slots, |extras|)
  {
    forall k | 0 <= k < |physical| && physical[k] < 0
      ensures slots[k].Some? <==> EmptyBelow(physical, k) < |extras|
    {
      if slots[k].Some? {
        var e :| 0 <= e < |extras| && extras[e] == k;
        ExtraIsAt(slots, physical, base, extras, e);
      } else if EmptyBelow(physical, k) < |extras| {
        var m := EmptyBelow(physical, k);
        ExtraIsAt(slots, physical, base, extras, m);
        assert LowestAt(physical, extras, m);
        if extras[m] < k {
          EmptyBelowGrows(physical, extras[m], k);
        }
      }
    }
  }

  /** Parser-only processors are needed for every four levels before the last up to four. */
  lemma {:induction false} ExtraIs(n: nat)
    ensures Extra(n) == if n == 0 then 0 else (n - 1) / 4
  {
    if n > 4 {
      ExtraIs(n - 4);
    }
  }

  function NoProcessors(): Slots {
    seq(PROC_COUNT, _ => None)
  }

  /** One more than the largest stage id. */
  method FirstUnusedId(topo: seq<int>) returns (id: int)
    ensures id > 0 && (forall x :: x in topo ==> x < id) && (id == 1 || id - 1 in topo)
  {
    id := 0;
    for n := 0 to |topo|
      invariant id >= 0 && (forall k :: 0 <= k < n ==> topo[k] <= id) && (id == 0 || id in topo)
    {
      id := if id < topo[n] then topo[n] else id;
    }
    id := id + 1;
  }

  ghost predicate SoFar(slots: Slots, physical: seq<int>, levels: Levels, gates: map<int, Option<int>>,
                        base: int, extras: seq<nat>, start: map<nat, nat>, i: nat)
    requires i <= PROC_COUNT == |physical|
  {
    && Built(slots, physical, levels, gates, base, extras, start, i)
    && Layout(physical, levels, start, i, |extras|)
    && FreeCount(slots, physical, PROC_COUNT) + |extras| == FreeCount(NoProcessors(), physical, PROC_COUNT)
    && |extras| + NeedFrom(physical, levels, i) == NeedFrom(physical, levels, 0)
  }

  // ----- the remap from ids to slots

  ghost predicate DistinctProcessorIds(slots: Slots) {
    forall j, k :: 0 <= j < k < |slots| && slots[j].Some? && slots[k].Some? ==>
      slots[j].value.id != slots[k].value.id
  }

  function SetNextId(procProc: map<int, int>, next: Option<int>): Option<int> {
    if next.Some? && next.value in procProc then Some(procProc[next.value]) else next
  }

  function RemapOne(procProc: map<int, int>, p: Option<Processor>): Option<Processor> {
    if p.None? then None else Some(p.value.(next := SetNextId(procProc, p.value.next)))
  }

  ghost predicate HasId(slots: Slots, x: int) {
    exists k :: 0 <= k < |slots| && slots[k].Some? && slots[k].value.id == x
  }

  /** Processors are named by their slots, and their default gateways with them. */
  ghost predicate Remapped(slots: Slots, procProc: map<int, int>, after: Slots) {
    && |after| == |slots|
    && (-1 in procProc && procProc[-1] == -1)
    && (forall k :: 0 <= k < |slots| && slots[k].Some? ==>
          slots[k].value.id in procProc && procProc[slots[k].value.id] == k)
    && (forall x :: x in procProc && x != -1 ==> HasId(slots, x))
    && (forall k :: 0 <= k < |slots| ==> after[k] == RemapOne(procProc, slots[k]))
  }

  method Remap(slots: Slots) returns (procProc: map<int, int>, after: Slots)
    requires DistinctProcessorIds(slots)
    requires forall k :: 0 <= k < |slots| && slots[k].Some? ==> slots[k].value.id != -1
    ensures Remapped(slots, procProc, after)
  {
    procProc := map[-1 := -1];
    for k := 0 to |slots|
      invariant -1 in procProc && procProc[-1] == -1
      invariant forall x :: x in procProc && x != -1 ==>
        0 <= procProc[x] < k && slots[procProc[x]].Some? && slots[procProc[x]].value.id == x
      invariant forall j :: 0 <= j < k && slots[j].Some? ==>
        slots[j].value.id in procProc && procProc[slots[j].value.id] == j
    {
      if slots[k].Some? {
        if slots[k].value.id !in procProc {
          procProc := procProc[slots[k].value.id := k];
        }
      }
    }
    after := [];
    for k := 0 to |slots|
      invariant |after| == k && forall j :: 0 <= j < k ==> after[j] == RemapOne(procProc, slots[j])
    {
      after := after + [RemapOne(procProc, slots[k])];
    }
  }

  lemma {:induction false} AllGroupsPlaced(l: seq<int>, q: nat)
    requires MAX_LEVEL * q >= |l| && (q > 0 ==> MAX_LEVEL * (q - 1) < |l|)
    ensures q > 0 ==> q == Extra(|l|) + 1
    ensures q == 0 ==> l == [] && Extra(|l|) == 0 && Chunk(l, 0) == []
  {
    if q > 0 {
      GroupIsChunk(l, q - 1);
    }
  }

  lemma {:induction false} NextStage(slots: Slots, physical: seq<int>, levels: Levels, gates: map<int, Option<int>>,
                  base: int, extras: seq<nat>, start: map<nat, nat>, i: nat, a: nat)
    requires i < PROC_COUNT && OthersBuilt(slots, physical, levels, gates, base, extras, start, i)
    requires physical[i] >= 0 && StageBuilt(slots, physical, levels, gates, base, extras, i, a)
    ensures Built(slots, physical, levels, gates, base, extras, start[i := a], i + 1)
  {
  }

  lemma {:induction false} BuiltId(slots: Slots, physical: seq<int>, levels: Levels, gates: map<int, Option<int>>,
                base: int, extras: seq<nat>, start: map<nat, nat>, k: nat)
    requires Built(slots, physical, levels, gates, base, extras, start, PROC_COUNT)
    requires k < PROC_COUNT && slots[k].Some?
    ensures physical[k] >= 0 ==> slots[k].value.id == physical[k]
    ensures physical[k] < 0 ==> IsExtra(base, extras, slots[k].value.id, k)
  {
    if physical[k] >= 0 {
      assert StageBuilt(slots, physical, levels, gates, base, extras, k, start[k]);
    }
  }

  predicate IsExtra(base: int, extras: seq<nat>, id: int, k: nat) {
    base <= id < base + |extras| && extras[id - base] == k
  }

  lemma {:induction false} BuiltIdsDistinct(slots: Slots, physical: seq<int>, levels: Levels,
                                            gates: map<int, Option<int>>, base: int, extras: seq<nat>,
                                            start: map<nat, nat>)
    requires Built(slots, physical, levels, gates, base, extras, start, PROC_COUNT) && Assigned(physical)
    requires base > 0 && forall k :: 0 <= k < PROC_COUNT ==> physical[k] < base
    ensures DistinctProcessorIds(slots)
    ensures forall k :: 0 <= k < |slots| && slots[k].Some? ==> slots[k].value.id != -1
  {
    forall k | 0 <= k < PROC_COUNT && slots[k].Some?
      ensures physical[k] >= 0 ==> slots[k].value.id == physical[k]
      ensures physical[k] < 0 ==> IsExtra(base, extras, slots[k].value.id, k)
    {
      BuiltId(slots, physical, levels, gates, base, extras, start, k);
    }
  }

  // ----- which stage a parser-only processor belongs to

  predicate Owns(physical: seq<int>, levels: Levels, start: map<nat, nat>, s: nat, e: nat) {
    s < |physical| && physical[s] >= 0 && s in start &&
    start[s] <= e < start[s] + Extra(|LevelsOf(levels, physical[s])|)
  }

  /** The parser-only processors of the stages follow each other without gaps. */
  ghost predicate Layout(physical: seq<int>, levels: Levels, start: map<nat, nat>, n: nat, total: nat)
    requires n <= |physical|
  {
    && (forall s, t :: 0 <= s < t < n && physical[s] >= 0 && physical[t] >= 0 ==>
          s in start && t in start && start[s] + Extra(|LevelsOf(levels, physical[s])|) <= start[t])
    && (forall s :: 0 <= s < n && physical[s] >= 0 ==>
          s in start && start[s] + Extra(|LevelsOf(levels, physical[s])|) <= total)
    && (forall e :: 0 <= e < total ==> Owned(physical, levels, start, n, e))
  }

  ghost predicate Owned(physical: seq<int>, levels: Levels, start: map<nat, nat>, n: nat, e: nat) {
    exists s :: 0 <= s < n && Owns(physical, levels, start, s, e)
  }

  lemma {:induction false} LayoutGrows(physical: seq<int>, levels: Levels, start: map<nat, nat>, i: nat, total: nat,
                                       after: nat)
    requires i < |physical| && physical[i] >= 0 && Layout(physical, levels, start, i, total)
    requires after == total + Extra(|LevelsOf(levels, physical[i])|)
    ensures Layout(physical, levels, start[i := total], i + 1, after)
  {
    var start', n := start[i := total], i + 1;
    forall e | 0 <= e < after
      ensures Owned(physical, levels, start', n, e)
    {
      if e < total {
        assert Owned(physical, levels, start, i, e);
        var s :| 0 <= s < i && Owns(physical, levels, start, s, e);
        assert Owns(physical, levels, start', s, e);
      } else {
        assert Owns(physical, levels, start', i, e);
      }
    }
  }

  lemma {:induction false} LayoutSkips(physical: seq<int>, levels: Levels, start: map<nat, nat>, i: nat, total: nat)
    requires i < |physical| && physical[i] < 0 && Layout(physical, levels, start, i, total)
    ensures Layout(physical, levels, start, i + 1, total)
  {
    var n := i + 1;
    forall e | 0 <= e < total
      ensures Owned(physical, levels, start, n, e)
    {
      assert Owned(physical, levels, start, i, e);
    }
  }

  // ----- what a packet meets

  /** The levels of the processors in the given slots, one after the other. */
  function LevelsAlong(slots: Slots, route: seq<nat>): seq<int> {
    if route == [] then []
    else
      var k := route[|route| - 1];
      LevelsAlong(slots, route[..|route| - 1]) + if k < |slots| && slots[k].Some? then slots[k].value.levels else []
  }

  /** The `q`-th slot of a route: a parser-only processor whose default gateway leads to the next slot,
      or, at the end, the stage's own processor. */
  ghost predicate OnRoute(slots: Slots, route: seq<nat>, q: nat)
    requires q < |route|
  {
    var k := route[q];
    && k < |slots| && slots[k].Some?
    && (slots[k].value.parserOnly <==> q < |route| - 1)
    && (q < |route| - 1 ==> slots[k].value.next == Some(route[q + 1]))
  }

  /** From the first slot of `route` the default gateways of parser-only processors lead through all of
      it, without meeting a slot twice, to the stage's own processor in its last slot. */
  ghost predicate LeadsThrough(slots: Slots, route: seq<nat>) {
    && route != []
    && (forall q :: 0 <= q < |route| ==> OnRoute(slots, route, q))
    && (forall q, r :: 0 <= q < r < |route| ==> route[q] != route[r])
  }

  /** The processors before and after the remap, what they were built from, and how. */
  datatype Outcome = Outcome(built: Slots, after: Slots, physical: seq<int>, levels: Levels,
                             gates: map<int, Option<int>>, base: int, extras: seq<nat>, start: map<nat, nat>,
                             procProc: map<int, int>)
  {
    function L(i: nat): seq<int>
      requires i < |physical|
    {
      LevelsOf(levels, physical[i])
    }
  }

  ghost predicate Allocation(o: Outcome) {
    && Assigned(o.physical)
    && Built(o.built, o.physical, o.levels, o.gates, o.base, o.extras, o.start, PROC_COUNT)
    && Remapped(o.built, o.procProc, o.after)
    && Layout(o.physical, o.levels, o.start, PROC_COUNT, |o.extras|)
    && o.base > 0
    && forall k :: 0 <= k < PROC_COUNT ==> o.physical[k] < o.base
  }

  /** A slot that holds a stage. */
  ghost predicate StageSlot(o: Outcome, i: nat) {
    Allocation(o) && i < PROC_COUNT && o.physical[i] >= 0
  }

  /** The slots of a stage's processors, in the order its levels are in. */
  function Route(extras: seq<nat>, a: nat, m: nat, i: nat): seq<nat>
    requires a + m <= |extras|
  {
    extras[a..a + m] + [i]
  }

  /** The `q`-th slot of a route holds the `q`-th group of levels. */
  ghost predicate RouteAt(slots: Slots, route: seq<nat>, l: seq<int>, q: nat)
    requires q < |route|
  {
    var k := route[q];
    && k < |slots| && slots[k].Some?
    && slots[k].value.levels == Chunk(l, q) && |Chunk(l, q)| <= MAX_LEVEL
  }

  lemma {:induction false} OwnProcessor(o: Outcome, i: nat)
    requires StageSlot(o, i)
    ensures i in o.start && o.start[i] + Extra(|o.L(i)|) <= |o.extras|
    ensures o.after[i].Some? && !o.after[i].value.parserOnly
    ensures o.after[i].value.levels == Chunk(o.L(i), Extra(|o.L(i)|))
    ensures o.physical[i] in o.procProc && o.procProc[o.physical[i]] == i
    ensures o.physical[i] in o.gates && o.after[i].value.next == SetNextId(o.procProc, o.gates[o.physical[i]])
  {
    assert StageBuilt(o.built, o.physical, o.levels, o.gates, o.base, o.extras, i, o.start[i]);
  }

  lemma {:induction false} RouteLink(o: Outcome, i: nat, q: nat)
    requires StageSlot(o, i) && q < Extra(|o.L(i)|)
    ensures i in o.start && o.start[i] + Extra(|o.L(i)|) <= |o.extras|
    ensures o.physical[o.extras[o.start[i] + q]] < 0
    ensures RouteAt(o.after, Route(o.extras, o.start[i], Extra(|o.L(i)|), i), o.L(i), q)
    ensures OnRoute(o.after, Route(o.extras, o.start[i], Extra(|o.L(i)|), i), q)
  {
    var l, a, id := o.L(i), o.start[i], o.physical[i];
    assert StageBuilt(o.built, o.physical, o.levels, o.gates, o.base, o.extras, i, a);
    assert LinkPlaced(o.built, o.base, o.extras, a, l, id, q);
    if q + 1 < Extra(|l|) {
      assert LinkPlaced(o.built, o.base, o.extras, a, l, id, q + 1);
    }
    ChunkFacts(l, q);
  }

  /** The levels in the first `n` groups. */
  function FirstGroups(l: seq<int>, n: nat): seq<int> {
    if MAX_LEVEL * n < |l| then l[..MAX_LEVEL * n] else l
  }

  lemma {:induction false} GroupsJoin(l: seq<int>, n: nat)
    requires n <= Extra(|l|)
    ensures FirstGroups(l, n) + Chunk(l, n) == FirstGroups(l, n + 1)
  {
    ChunkFacts(l, n);
    if n > 0 {
      ChunkFacts(l, n - 1);
    }
  }

  lemma {:induction false} ChunksInOrder(slots: Slots, route: seq<nat>, l: seq<int>, n: nat)
    requires n <= |route| && n <= Extra(|l|) + 1
    requires forall q :: 0 <= q < n ==> RouteAt(slots, route, l, q)
    ensures LevelsAlong(slots, route[..n]) == FirstGroups(l, n)
  {
    if n > 0 {
      ChunksInOrder(slots, route, l, n - 1);
      LevelsAlongNext(slots, route, l, n - 1);
      GroupsJoin(l, n - 1);
    }
  }

  lemma {:induction false} LevelsAlongNext(slots: Slots, route: seq<nat>, l: seq<int>, q: nat)
    requires q < |route| && RouteAt(slots, route, l, q)
    ensures LevelsAlong(slots, route[..q + 1]) == LevelsAlong(slots, route[..q]) + Chunk(l, q)
  {
    assert route[..q + 1][..q] == route[..q];
  }

  /** Following the default gateways from a stage's first processor visits its levels in order, each
      exactly once, and ends at the stage; no processor holds more than four levels. */
  lemma {:induction false} ChainVisitsAllLevels(o: Outcome, i: nat) returns (route: seq<nat>)
    requires StageSlot(o, i)
    ensures LeadsThrough(o.after, route) && route[|route| - 1] == i
    ensures LevelsAlong(o.after, route) == o.L(i)
    ensures forall q :: 0 <= q < |route| ==> RouteAt(o.after, route, o.L(i), q)
  {
    route := RouteOf(o, i);
    AllOnRoute(o.after, route, o.L(i));
  }

  lemma {:induction false} AllOnRoute(slots: Slots, route: seq<nat>, l: seq<int>)
    requires |route| == Extra(|l|) + 1 && forall q :: 0 <= q < |route| ==> RouteAt(slots, route, l, q)
    ensures LevelsAlong(slots, route) == l
  {
    ChunksInOrder(slots, route, l, |route|);
    assert route[..|route|] == route;
    AllGroups(l);
  }

  lemma {:induction false} RouteOf(o: Outcome, i: nat) returns (route: seq<nat>)
    requires StageSlot(o, i)
    ensures LeadsThrough(o.after, route) && route[|route| - 1] == i && |route| == Extra(|o.L(i)|) + 1
    ensures forall q :: 0 <= q < |route| ==> RouteAt(o.after, route, o.L(i), q)
  {
    RouteIsSimple(o, i);
    route := Route(o.extras, o.start[i], Extra(|o.L(i)|), i);
    forall q | 0 <= q < |route|
      ensures RouteAt(o.after, route, o.L(i), q) && OnRoute(o.after, route, q)
    {
      OnOwnRoute(o, i, q);
    }
  }

  lemma {:induction false} AllGroups(l: seq<int>)
    ensures FirstGroups(l, Extra(|l|) + 1) == l
  {
    ChunkFacts(l, Extra(|l|));
  }

  lemma {:induction false} OnOwnRoute(o: Outcome, i: nat, q: nat)
    requires StageSlot(o, i) && q <= Extra(|o.L(i)|)
    ensures i in o.start && o.start[i] + Extra(|o.L(i)|) <= |o.extras|
    ensures var route := Route(o.extras, o.start[i], Extra(|o.L(i)|), i);
            RouteAt(o.after, route, o.L(i), q) && OnRoute(o.after, route, q)
  {
    OwnProcessor(o, i);
    ChunkFacts(o.L(i), q);
    if q < Extra(|o.L(i)|) {
      RouteLink(o, i, q);
    }
  }

  lemma {:induction false} RouteIsSimple(o: Outcome, i: nat)
    requires StageSlot(o, i)
    ensures i in o.start && o.start[i] + Extra(|o.L(i)|) <= |o.extras|
    ensures var route := Route(o.extras, o.start[i], Extra(|o.L(i)|), i);
      forall q, r :: 0 <= q < r < |route| ==> route[q] != route[r]
  {
    OwnProcessor(o, i);
    assert forall e :: 0 <= e < |o.extras| ==> o.physical[o.extras[e]] < 0;
  }

  /** In the remapped action edges and default gateways every stage id stands for the slot of the stage's own
      processor. So a packet sent to a stage that way runs all its levels exactly when one processor holds them. */
  lemma {:induction false} EntryRunsAllLevelsIffTheyFit(o: Outcome, i: nat)
    requires StageSlot(o, i)
    ensures o.physical[i] in o.procProc && o.procProc[o.physical[i]] == i && o.after[i].Some?
    ensures o.after[i].value.levels == o.L(i) <==> |o.L(i)| <= MAX_LEVEL
  {
    OwnProcessor(o, i);
    ChunkFacts(o.L(i), Extra(|o.L(i)|));
    if |o.L(i)| <= MAX_LEVEL {
      assert Chunk(o.L(i), 0) == o.L(i);
    }
  }

  /** Stage gateways lead to stages, placed or refused, out of the pipeline, or to a table. */
  ghost predicate GatesLeadToStages(o: Outcome) {
    forall id :: id in o.gates && o.gates[id].Some? ==> -1 <= o.gates[id].value < o.base
  }

  ghost predicate Placed(o: Outcome, id: int) {
    exists s :: 0 <= s < |o.physical| && o.physical[s] >= 0 && o.physical[s] == id
  }

  /** A stage in slot `k` whose default gateway leads to a refused stage that has the number of slot `head`. */
  ghost predicate LeadsToRefused(o: Outcome, k: nat, head: nat) {
    && k < |o.physical| && o.physical[k] >= 0 && o.physical[k] in o.gates
    && o.gates[o.physical[k]] == Some(head) && !Placed(o, head)
  }

  /** A default gateway leads to the first parser-only processor of a stage just if it was meant for a refused stage
      whose number is that of the slot. */
  lemma {:induction false} ChainHeadReachedIff(o: Outcome, i: nat, k: nat)
    requires StageSlot(o, i) && GatesLeadToStages(o) && |o.L(i)| > MAX_LEVEL
    requires k < PROC_COUNT && o.after[k].Some?
    ensures i in o.start && o.start[i] < |o.extras|
    ensures o.after[k].value.next == Some(o.extras[o.start[i]]) <==> LeadsToRefused(o, k, o.extras[o.start[i]])
  {
    RouteLink(o, i, 0);
    if o.physical[k] >= 0 {
      GateToExtra(o, k, o.extras[o.start[i]]);
    } else {
      LinkAvoidsHead(o, i, k);
    }
  }

  /** So no default gateway does if every stage they lead to is placed. */
  lemma {:induction false} ChainHeadIsUnreachable(o: Outcome, i: nat, k: nat)
    requires StageSlot(o, i) && GatesLeadToStages(o) && |o.L(i)| > MAX_LEVEL
    requires forall id :: id in o.gates && o.gates[id].Some? && o.gates[id].value >= 0 ==> Placed(o, o.gates[id].value)
    requires k < PROC_COUNT && o.after[k].Some?
    ensures i in o.start && o.start[i] < |o.extras|
    ensures o.after[k].value.next != Some(o.extras[o.start[i]])
  {
    ChainHeadReachedIff(o, i, k);
  }

  lemma {:induction false} GateToExtra(o: Outcome, k: nat, head: nat)
    requires StageSlot(o, k) && GatesLeadToStages(o) && head < PROC_COUNT && o.physical[head] < 0
    ensures o.after[k].Some? && (o.after[k].value.next == Some(head) <==> LeadsToRefused(o, k, head))
  {
    OwnProcessor(o, k);
    var gate := o.gates[o.physical[k]];
    if gate.Some? && gate.value != -1 {
      if Placed(o, gate.value) {
        var s :| 0 <= s < |o.physical| && o.physical[s] >= 0 && o.physical[s] == gate.value;
        OwnProcessor(o, s);
      } else if gate.value in o.procProc {
        IdIsPlaced(o, gate.value);
      }
    }
  }

  /** Of the numbers below the parser-only ones only those of placed stages have been given a slot. */
  lemma {:induction false} IdIsPlaced(o: Outcome, x: int)
    requires Allocation(o) && x in o.procProc && -1 < x < o.base
    ensures Placed(o, x)
  {
    assert HasId(o.built, x);
    var k :| 0 <= k < |o.built| && o.built[k].Some? && o.built[k].value.id == x;
    BuiltId(o.built, o.physical, o.levels, o.gates, o.base, o.extras, o.start, k);
  }

  lemma {:induction false} LinkAvoidsHead(o: Outcome, i: nat, k: nat)
    requires StageSlot(o, i) && |o.L(i)| > MAX_LEVEL && i in o.start && o.start[i] < |o.extras|
    requires k < PROC_COUNT && o.after[k].Some? && o.physical[k] < 0
    ensures o.after[k].value.next != Some(o.extras[o.start[i]])
  {
    assert o.built[k].Some?;
    var e :| 0 <= e < |o.extras| && o.extras[e] == k;
    assert Owned(o.physical, o.levels, o.start, PROC_COUNT, e);
    var s :| 0 <= s < PROC_COUNT && Owns(o.physical, o.levels, o.start, s, e);
    NextOnRoute(o, i, s, e);
  }

  /** What follows a parser-only processor is the next one of its stage, or the stage's own. */
  lemma {:induction false} NextOnRoute(o: Outcome, i: nat, s: nat, e: nat)
    requires StageSlot(o, i) && |o.L(i)| > MAX_LEVEL && i in o.start && o.start[i] < |o.extras|
    requires s < PROC_COUNT && Owns(o.physical, o.levels, o.start, s, e) && e < |o.extras|
    ensures o.extras[e] < PROC_COUNT && o.after[o.extras[e]].Some?
    ensures o.after[o.extras[e]].value.next != Some(o.extras[o.start[i]])
  {
    var a, q, m := o.start[s], e - o.start[s], Extra(|o.L(s)|);
    RouteLink(o, s, q);
    RouteNth(o.extras, a, m, s, q);
    assert o.after[o.extras[e]].value.next == Some(Route(o.extras, a, m, s)[q + 1]);
    HeadIsNoSuccessor(o, i, s, e);
  }

  lemma {:induction false} RouteNth(extras: seq<nat>, a: nat, m: nat, i: nat, q: nat)
    requires a + m <= |extras| && q < m
    ensures Route(extras, a, m, i)[q] == extras[a + q]
    ensures Route(extras, a, m, i)[q + 1] == if q + 1 < m then extras[a + q + 1] else i
  {
  }

  /** The parser-only processor behind another is not the first of a stage, nor is a stage's own. */
  lemma {:induction false} HeadIsNoSuccessor(o: Outcome, i: nat, s: nat, e: nat)
    requires StageSlot(o, i) && |o.L(i)| > MAX_LEVEL && i in o.start && o.start[i] < |o.extras|
    requires StageSlot(o, s) && Owns(o.physical, o.levels, o.start, s, e)
    ensures e + 1 < o.start[s] + Extra(|o.L(s)|) ==>
      e + 1 < |o.extras| && o.extras[e + 1] != o.extras[o.start[i]]
    ensures s != o.extras[o.start[i]]
  {
    assert o.start[s] + Extra(|o.L(s)|) <= |o.extras|;
    assert i < s ==> o.start[i] + Extra(|o.L(i)|) <= o.start[s];
    assert s < i ==> o.start[s] + Extra(|o.L(s)|) <= o.start[i];
  }

  /** A gateway entry other than the default is not remapped: it keeps the stage's id, which the data plane takes for a
      slot. It leads to the stage's own processor exactly if the stage is in the slot of that number, and to a
      parser-only processor exactly if one is there. */
  lemma {:induction false} KeptEntryLeads(o: Outcome, i: nat)
    requires StageSlot(o, i)
    ensures var k := o.physical[i];
      && (k == i <==> k < PROC_COUNT && o.physical[k] == o.physical[i])
      && (k < PROC_COUNT && o.after[k].Some? ==> (o.after[k].value.parserOnly <==> o.physical[k] < 0))
  {
    var k := o.physical[i];
    if k < PROC_COUNT && o.after[k].Some? {
      assert o.built[k].Some?;
      if o.physical[k] >= 0 {
        OwnProcessor(o, k);
      }
    }
  }

  // ----- a stage with five levels

  const FIVE_LEVELS := [0, 1, 2, 3, 4]

  function OnlyFirst(): seq<int> {
    seq(PROC_COUNT, k => if k == 0 then 1 else -1)
  }

  /** Stage 1 in slot 0, with the other slots free: its first four levels go to slot 1. */
  ghost function FiveLevels(): Outcome {
    var physical := OnlyFirst();
    var own, extra := Processor(1, [4], false, None), Processor(2, [0, 1, 2, 3], true, Some(1));
    var built := NoProcessors()[0 := Some(own)][1 := Some(extra)];
    var after := NoProcessors()[0 := Some(own)][1 := Some(extra.(next := Some(0)))];
    Outcome(built, after, physical, map[1 := FIVE_LEVELS], map[1 := None], 2, [1], map[0 := 0],
            map[-1 := -1, 1 := 0, 2 := 1])
  }

  lemma {:induction false} FiveLevelsInChunks()
    ensures Extra(|FIVE_LEVELS|) == 1
    ensures Chunk(FIVE_LEVELS, 0) == [0, 1, 2, 3] && Chunk(FIVE_LEVELS, 1) == [4]
  {
    assert Extra(5) == 1 + Extra(1);
  }

  lemma {:induction false} FiveLevelsArePlaced(o: Outcome)
    requires o == FiveLevels()
    ensures Built(o.built, o.physical, o.levels, o.gates, o.base, o.extras, o.start, PROC_COUNT)
  {
    FiveLevelsInChunks();
    assert o.extras[0 + 0] == 1;
    assert LinkPlaced(o.built, o.base, o.extras, 0, FIVE_LEVELS, 1, 0);
    assert StageBuilt(o.built, o.physical, o.levels, o.gates, o.base, o.extras, 0, 0);
    assert o.extras[0] in o.extras;
    assert ExtrasAt(o.built, o.physical, o.base, o.extras);
  }

  lemma {:induction false} FiveLevelsLieInOrder(o: Outcome)
    requires o == FiveLevels()
    ensures Layout(o.physical, o.levels, o.start, PROC_COUNT, |o.extras|)
  {
    FiveLevelsInChunks();
    assert Owns(o.physical, o.levels, o.start, 0, 0);
  }

  lemma {:induction false} FiveLevelsAreRemapped(o: Outcome)
    requires o == FiveLevels()
    ensures Remapped(o.built, o.procProc, o.after) && Assigned(o.physical)
  {
    assert o.built[0].Some? && o.built[0].value.id == 1 && o.built[1].Some? && o.built[1].value.id == 2;
    forall k | 0 <= k < PROC_COUNT
      ensures o.after[k] == RemapOne(o.procProc, o.built[k]) && (k > 0 ==> o.physical[k] == -1)
    {
    }
  }

  lemma {:induction false} FiveLevelsAreBuilt()
    ensures StageSlot(FiveLevels(), 0) && FiveLevels().L(0) == FIVE_LEVELS
  {
    var o := FiveLevels();
    FiveLevelsArePlaced(o);
    FiveLevelsLieInOrder(o);
    FiveLevelsAreRemapped(o);
  }

  /** A packet sent to it runs the fifth level only, and a gateway entry that keeps its id leads to slot 1 instead. */
  lemma {:induction false} FiveLevelsAreSplit()
    ensures var o := FiveLevels();
      && StageSlot(o, 0) && o.after[0].value.levels == [4] && o.L(0) == [0, 1, 2, 3, 4]
      && o.physical[0] == 1 && o.after[1].Some? && o.after[1].value.parserOnly
  {
    FiveLevelsAreBuilt();
  }

  /** With one stage of five levels there is one parser-only processor, and it is in slot 1. */
  lemma {:induction false} FiveLevelsTakeSlotOne(o: Outcome)
    requires Allocation(o) && o.physical == FiveLevels().physical && o.levels == map[1 := FIVE_LEVELS]
    requires o.base == 2 && |o.extras| == 1
    ensures o.extras == [1] && o.start[0] == 0
  {
    NoneUnderFirst(o.built, o.physical, o.base, o.extras);
    assert EmptyBelow(o.physical, 1) == 0 && o.physical[1] < 0;
    if o.extras[0] > 1 {
      EmptyBelowGrows(o.physical, 1, o.extras[0]);
    }
    FiveLevelsInChunks();
  }

  lemma {:induction false} OneStageNeeds(n: nat)
    requires n <= PROC_COUNT
    ensures NeedFrom(FiveLevels().physical, map[1 := FIVE_LEVELS], n) == if n == 0 then 1 else 0
    decreases PROC_COUNT - n
  {
    if n < PROC_COUNT {
      OneStageNeeds(n + 1);
      FiveLevelsInChunks();
    }
  }

  lemma {:induction false} OthersFree(n: nat)
    requires n <= PROC_COUNT
    ensures FreeCount(NoProcessors(), FiveLevels().physical, n) == if n == 0 then 0 else n - 1
  {
    if n > 0 {
      OthersFree(n - 1);
    }
  }

  lemma {:induction false} SlotsOfFiveLevels(o: Outcome)
    requires Allocation(o) && o.physical == FiveLevels().physical && o.levels == map[1 := FIVE_LEVELS]
    requires o.gates == map[1 := None] && o.base == 2 && o.extras == [1] && o.start[0] == 0
    ensures o.after[0] == Some(Processor(1, [4], false, None))
    ensures o.after[1] == Some(Processor(2, [0, 1, 2, 3], true, Some(0)))
  {
    FiveLevelsInChunks();
    assert StageBuilt(o.built, o.physical, o.levels, o.gates, o.base, o.extras, 0, 0);
    assert LinkPlaced(o.built, o.base, o.extras, 0, FIVE_LEVELS, 1, 0);
    assert o.extras[0 + 0] == 1;
    assert o.built[1] == Some(Processor(2, [0, 1, 2, 3], true, Some(1)));
  }

  lemma {:induction false} SlotsAboveFree(physical: seq<int>, slots: Slots, k: nat)
    requires physical == FiveLevels().physical && LowestTaken(physical, slots, 1) && 2 <= k < PROC_COUNT
    ensures slots[k].None?
  {
    EmptyBelowGrows(physical, 1, k);
  }

  lemma {:induction false} OutcomeOfFiveLevels(o: Outcome, slots: Slots)
    requires Allocation(o) && o.physical == FiveLevels().physical && o.levels == map[1 := FIVE_LEVELS]
    requires o.gates == map[1 := None] && o.base == 2 && |o.extras| == 1
    requires slots == o.after && LowestTaken(o.physical, slots, 1)
    ensures |slots| == 16 && slots[0] == Some(Processor(1, [4], false, None))
    ensures slots[1] == Some(Processor(2, [0, 1, 2, 3], true, Some(0)))
    ensures forall k :: 2 <= k < 16 ==> slots[k].None?
  {
    FiveLevelsTakeSlotOne(o);
    SlotsOfFiveLevels(o);
    forall k | 2 <= k < 16
      ensures slots[k].None?
    {
      SlotsAboveFree(o.physical, slots, k);
    }
  }

  lemma {:induction false} RoomForFive(physical: seq<int>)
    requires physical == OnlyFirst()
    ensures physical == FiveLevels().physical && Assigned(physical)
    ensures NeedFrom(physical, map[1 := FIVE_LEVELS], 0) == 1
    ensures FreeCount(NoProcessors(), physical, PROC_COUNT) == 15
  {
    OneStageNeeds(0);
    OthersFree(PROC_COUNT);
  }

  lemma {:induction false} FirstUnusedIsTwo(base: int)
    requires IsFirstUnused([1], base)
    ensures base == 2
  {
    assert 1 in [1];
  }

  /** A run of the allocation. */
  method BuildFiveLevels() returns (slots: Slots)
    ensures |slots| == 16 && slots[0] == Some(Processor(1, [4], false, None))
    ensures slots[1] == Some(Processor(2, [0, 1, 2, 3], true, Some(0)))
    ensures forall k :: 2 <= k < 16 ==> slots[k].None?
  {
    var builder := new IpsaBuilder();
    var physical := OnlyFirst();
    RoomForFive(physical);
    var ok;
    ghost var o;
    ok, o := builder.AllocateProcessors(physical, [1], map[1 := FIVE_LEVELS], map[1 := None]);
    slots := builder.processors;
    FirstUnusedIsTwo(o.base);
    OutcomeOfFiveLevels(o, slots);
  }
}
