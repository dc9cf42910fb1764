/** rP4-compiler/rp4c/ipsa_distribution.h, `distributeParsers`: which parser levels each stage runs. */
module Distribution {
  import opened Finite
  import opened Graphs
  import opened OrderedMaps
  import opened TopoSort
  import opened ParserTables
  import opened LevelGraphs
  import opened MeetOverPaths
  import opened Stages

  // ----- the stage graph

  /** Stage `u` leads to `v` by an action entry, unless that is negative and leads out. */
  lemma {:induction false} StageEdgeIff(stages: seq<Stage>, u: int, v: int)
    requires DistinctIds(stages)
    ensures Edge(StageGraph(stages), u, v) <==>
            v >= 0 && exists i, k :: IsActionEntry(stages, i, k) && stages[i].id == u && stages[i].actionProc[k].1 == v
  {
    StageGraphEntries(stages);
    if Edge(StageGraph(stages), u, v) {
      assert KeptId(stages, u);
      var i :| 0 <= i < |stages| && !stages[i].removed && stages[i].id == u;
      var a :| a in stages[i].actionProc && a.1 == v;
      var k :| 0 <= k < |stages[i].actionProc| && stages[i].actionProc[k] == a;
      assert IsActionEntry(stages, i, k);
    }
    if v >= 0 {
      if i, k :| IsActionEntry(stages, i, k) && stages[i].id == u && stages[i].actionProc[k].1 == v {
        assert stages[i].actionProc[k] in stages[i].actionProc;
      }
    }
  }

  /** Entry `k` of a kept stage. */
  predicate IsActionEntry(stages: seq<Stage>, i: int, k: int) {
    0 <= i < |stages| && !stages[i].removed && 0 <= k < |stages[i].actionProc|
  }

  /** Kept stages have their own non-negative ids, and their actions lead to kept stages or out. */
  ghost predicate WellFormedStages(stages: seq<Stage>) {
    && (forall i :: 0 <= i < |stages| && !stages[i].removed ==> 0 <= stages[i].id)
    && DistinctIds(stages)
    && (forall i, a :: 0 <= i < |stages| && !stages[i].removed && a in stages[i].actionProc && 0 <= a.1 ==>
          KeptId(stages, a.1))
  }

  function Successors(actionProc: seq<(int, int)>): (r: seq<int>)
    ensures NoDup(r)
    ensures forall p :: p in r <==> 0 <= p && exists a :: a in actionProc && a.1 == p
  {
    if actionProc == [] then []
    else
      var front := actionProc[..|actionProc| - 1];
      var a := actionProc[|actionProc| - 1];
      var r := Successors(front);
      assert forall x :: x in actionProc <==> x in front || x == a;
      if a.1 < 0 then r else PushNew(r, a.1)
  }

  function StageGraph(stages: seq<Stage>): Edges {
    if stages == [] then map[]
    else
      var s := stages[|stages| - 1];
      var r := StageGraph(stages[..|stages| - 1]);
      if s.removed then r else r[s.id := Successors(s.actionProc)]
  }

  lemma {:induction false} StageGraphEntries(stages: seq<Stage>)
    requires DistinctIds(stages)
    ensures forall p :: p in StageGraph(stages) <==> KeptId(stages, p)
    ensures forall i :: 0 <= i < |stages| && !stages[i].removed ==>
      stages[i].id in StageGraph(stages) && StageGraph(stages)[stages[i].id] == Successors(stages[i].actionProc)
  {
    if stages != [] {
      var front := stages[..|stages| - 1];
      StageGraphEntries(front);
      forall p
        ensures KeptId(stages, p) <==> KeptId(front, p) || (!stages[|front|].removed && stages[|front|].id == p)
      {
        KeptIdLast(stages, p);
      }
      forall i | 0 <= i < |stages| && !stages[i].removed
        ensures stages[i].id in StageGraph(stages)
        ensures StageGraph(stages)[stages[i].id] == Successors(stages[i].actionProc)
      {
        if i < |front| {
          assert front[i] == stages[i];
        }
      }
    }
  }

  lemma {:induction false} StageGraphWellFormed(stages: seq<Stage>)
    requires WellFormedStages(stages)
    ensures WellFormed(StageGraph(stages)) && forall p :: p in StageGraph(stages) ==> 0 <= p
  {
    var next := StageGraph(stages);
    StageGraphEntries(stages);
    forall p | p in next
      ensures 0 <= p && NoDup(next[p]) && forall v :: v in next[p] ==> v in next
    {
      assert KeptId(stages, p);
    }
  }

  /** A stage declaring `headers` needs level `l`: some level extracts one of them, and `l` leads there. */
  ghost predicate Needs(levels: seq<Level>, headers: seq<int>, l: int) {
    exists h :: h in headers && NeedsFor(levels, h, l)
  }

  ghost predicate NeedsFor(levels: seq<Level>, h: int, l: int) {
    exists m :: Extracts(levels, m, h) && Reaches(LevelGraph(levels), l, m)
  }

  ghost predicate IsNeed(levels: seq<Level>, stages: seq<Stage>, need: Lists) {
    && (forall p :: p in need <==> KeptId(stages, p))
    && (forall i :: 0 <= i < |stages| && !stages[i].removed ==>
          stages[i].id in need && IsNeedOf(levels, stages[i].headers, need[stages[i].id]))
  }

  ghost predicate IsNeedOf(levels: seq<Level>, headers: seq<int>, s: seq<int>) {
    NoDup(s) && forall l :: l in s <==> Needs(levels, headers, l)
  }

  // ----- loops shared by the two graphs

  function Get(m: Lists, k: int): seq<int> {
    if k in m then m[k] else []
  }

  method PushAll(s: seq<int>, t: seq<int>) returns (r: seq<int>)
    requires NoDup(s)
    ensures NoDup(r)
    ensures forall y :: y in r <==> y in s || y in t
  {
    r := s;
    for i := 0 to |t|
      invariant NoDup(r)
      invariant forall y :: y in r <==> y in s || y in t[..i]
    {
      r := PushNew(r, t[i]);
      assert t[..i + 1] == t[..i] + [t[i]];
    }
    assert t[..|t|] == t;
  }

  /** The edges listed by target: `last[v].push_back(u)` for every edge in turn. */
  ghost predicate ReversedSoFar(next: Edges, keys: seq<int>, i: nat, last: Edges)
    requires i <= |keys|
  {
    && last.Keys == next.Keys
    && (forall v :: v in last ==> NoDup(last[v]))
    && (forall u, v :: v in last ==> (u in last[v] <==> u in keys[..i] && Edge(next, u, v)))
  }

  method AddSource(next: Edges, last: Edges, u: int) returns (out: Edges)
    requires WellFormed(next) && last.Keys == next.Keys && u in next
    requires forall v :: v in last ==> NoDup(last[v]) && u !in last[v]
    ensures out.Keys == next.Keys
    ensures forall v :: v in out ==> out[v] == if v in next[u] then last[v] + [u] else last[v]
  {
    out := last;
    var targets := next[u];
    for j := 0 to |targets|
      invariant out.Keys == next.Keys
      invariant forall v :: v in out ==> out[v] == if v in targets[..j] then last[v] + [u] else last[v]
    {
      var v := targets[j];
      assert v in targets && v !in targets[..j];
      out := out[v := out[v] + [u]];
      assert targets[..j + 1] == targets[..j] + [v];
      SameElements(out.Keys, next.Keys);
    }
    assert targets[..|targets|] == targets;
  }

  function NoEdges(next: Edges): (last: Edges)
    ensures last.Keys == next.Keys && forall v :: v in last ==> last[v] == []
  {
    map v | v in next.Keys :: []
  }

  lemma {:induction false} NotAddedYet(next: Edges, keys: seq<int>, i: nat, last: Edges)
    requires i < |keys| && keys[i] !in keys[..i] && ReversedSoFar(next, keys, i, last)
    ensures forall v :: v in last ==> NoDup(last[v]) && keys[i] !in last[v]
  {
    var u := keys[i];
    forall v | v in last
      ensures u !in last[v]
    {
      assert u in last[v] <==> u in keys[..i] && Edge(next, u, v);
    }
  }

  lemma {:induction false} SourceAdded(next: Edges, keys: seq<int>, i: nat, last: Edges, out: Edges)
    requires i < |keys| && keys[i] in next && keys[i] !in keys[..i] && ReversedSoFar(next, keys, i, last)
    requires out.Keys == next.Keys
    requires forall v :: v in out ==> out[v] == if v in next[keys[i]] then last[v] + [keys[i]] else last[v]
    ensures ReversedSoFar(next, keys, i + 1, out)
  {
    assert keys[..i + 1] == keys[..i] + [keys[i]];
    NotAddedYet(next, keys, i, last);
    forall u, v | v in out
      ensures u in out[v] <==> u in keys[..i + 1] && Edge(next, u, v)
    {
      assert u in last[v] <==> u in keys[..i] && Edge(next, u, v);
    }
  }

  lemma {:induction false} AllReversed(next: Edges, keys: seq<int>, last: Edges)
    requires forall x :: x in next ==> x in keys
    requires ReversedSoFar(next, keys, |keys|, last)
    ensures Transposed(next, last)
  {
    assert keys[..|keys|] == keys;
    forall u, v | v in last
      ensures u in last[v] <==> Edge(next, u, v)
    {
      assert u in last[v] <==> u in keys[..|keys|] && Edge(next, u, v);
    }
  }

  method Reverse(next: Edges) returns (last: Edges)
    requires WellFormed(next)
    ensures Transposed(next, last)
  {
    last := NoEdges(next);
    var keys := Ascending(next.Keys);
    for i := 0 to |keys|
      invariant ReversedSoFar(next, keys, i, last)
    {
      var u := keys[i];
      assert u in keys && u !in keys[..i];
      NotAddedYet(next, keys, i, last);
      var out := AddSource(next, last, u);
      SourceAdded(next, keys, i, last, out);
      last := out;
    }
    AllReversed(next, keys, last);
  }

  // ----- headers and levels

  function PushUnder(m: Lists, k: int, x: int): (r: Lists)
    requires forall h :: NoDup(Get(m, h))
    ensures forall h :: NoDup(Get(r, h))
    ensures forall h, l :: l in Get(r, h) <==> l in Get(m, h) || (h == k && l == x)
  {
    var r := m[k := PushNew(Get(m, k), x)];
    assert forall h :: Get(r, h) == if h == k then PushNew(Get(m, k), x) else Get(m, h);
    r
  }

  method AddLevel(headerLevel: Lists, level: Level, id: int) returns (out: Lists)
    requires forall h :: NoDup(Get(headerLevel, h)) && id !in Get(headerLevel, h)
    ensures forall h :: NoDup(Get(out, h))
    ensures forall h, l :: l in Get(out, h) <==> l in Get(headerLevel, h) || (l == id && LevelExtracts(level, h))
  {
    out := headerLevel;
    for j := 0 to |level|
      invariant forall h :: NoDup(Get(out, h))
      invariant forall h, l :: l in Get(out, h) <==>
        l in Get(headerLevel, h) || (l == id && LevelExtracts(level[..j], h))
    {
      var e := level[j];
      forall h { LevelExtractsLast(level[..j], e, h); }
      assert level[..j + 1] == level[..j] + [e];
      if Continues(e) {
        var h := e.sram.headerId;
        out := PushUnder(out, h, id);
      }
    }
    assert level[..|level|] == level;
  }

  method HeaderLevels(headerIds: set<int>, levels: seq<Level>) returns (headerLevel: Lists)
    ensures forall h :: NoDup(Get(headerLevel, h))
    ensures forall h, l :: l in Get(headerLevel, h) <==> Extracts(levels, l, h)
  {
    headerLevel := map h | h in headerIds :: [];
    for id := 0 to |levels|
      invariant forall h :: NoDup(Get(headerLevel, h))
      invariant forall h, l :: l in Get(headerLevel, h) <==> l < id && Extracts(levels, l, h)
    {
      headerLevel := AddLevel(headerLevel, levels[id], id);
    }
  }

  method LevelTargets(level: Level) returns (r: seq<int>)
    ensures r == Targets(level)
  {
    r := [];
    for j := 0 to |level|
      invariant r == Targets(level[..j])
    {
      var e := level[j];
      assert level[..j + 1][..j] == level[..j];
      if Continues(e) {
        r := PushNew(r, e.sram.nextState);
      }
    }
    assert level[..|level|] == level;
  }

  method LevelNextTable(levels: seq<Level>) returns (next: Edges)
    ensures next == LevelGraph(levels)
  {
    next := map[];
    for i := 0 to |levels|
      invariant next == LevelGraph(levels[..i])
    {
      var targets := LevelTargets(levels[i]);
      next := next[i := targets];
      assert forall u :: 0 <= u < i ==> levels[..i + 1][u] == levels[..i][u];
      assert next == LevelGraph(levels[..i + 1]);
    }
    assert levels[..|levels|] == levels;
  }

  // ----- the ancestor closure of levels

  /** `levels[l]` lists exactly the levels from which `l` is reachable. */
  ghost predicate ListsAncestors(next: Edges, levelLevel: Lists, l: int) {
    l in levelLevel && NoDup(levelLevel[l]) && forall a :: a in levelLevel[l] <==> Reaches(next, a, l)
  }

  ghost predicate InSome(m: Lists, keys: seq<int>, y: int) {
    exists v :: v in keys && v in m && y in m[v]
  }

  lemma {:induction false} InSomeLast(m: Lists, front: seq<int>, v: int, y: int)
    requires v in m
    ensures InSome(m, front + [v], y) <==> InSome(m, front, y) || y in m[v]
  {
    var keys := front + [v];
    assert v in keys;
    forall x | x in front && x in m && y in m[x]
      ensures InSome(m, keys, y)
    {
      assert x in keys;
    }
  }

  method UnionOf(s: seq<int>, m: Lists, keys: seq<int>) returns (r: seq<int>)
    requires NoDup(s) && forall j :: 0 <= j < |keys| ==> keys[j] in m
    ensures NoDup(r)
    ensures forall y :: y in r <==> y in s || InSome(m, keys, y)
  {
    r := s;
    for j := 0 to |keys|
      invariant NoDup(r)
      invariant forall y :: y in r <==> y in s || InSome(m, keys[..j], y)
    {
      forall y { InSomeLast(m, keys[..j], keys[j], y); }
      assert keys[..j + 1] == keys[..j] + [keys[j]];
      r := PushAll(r, m[keys[j]]);
    }
    assert keys[..|keys|] == keys;
  }

  lemma {:induction false} AncestorsFromPredecessors(next: Edges, last: Edges, m: Lists, u: int, acc: seq<int>)
    requires Transposed(next, last) && u in next
    requires forall v :: v in last[u] ==> ListsAncestors(next, m, v)
    requires forall y :: y in acc <==> y == u || InSome(m, last[u], y)
    ensures forall a :: a in acc <==> Reaches(next, a, u)
  {
    ReachesSelf(next, u);
    forall a
      ensures a in acc <==> Reaches(next, a, u)
    {
      if InSome(m, last[u], a) {
        var v :| v in last[u] && v in m && a in m[v];
        assert Edge(next, v, u);
        ReachesStep(next, a, v, u);
      }
      if Reaches(next, a, u) && a != u {
        ReachesLast(next, a, u);
        var v :| Edge(next, v, u) && Reaches(next, a, v);
        assert v in last[u];
      }
    }
  }

  ghost predicate ClosedSoFar(next: Edges, order: seq<int>, i: nat, m: Lists)
    requires i <= |order|
  {
    && (forall u :: u in next ==> u in m)
    && (forall u :: u in order[..i] ==> ListsAncestors(next, m, u))
    && (forall u :: u in next && u !in order[..i] ==> m[u] == [u])
  }

  lemma {:induction false} InOrderIff(next: Edges, order: seq<int>, x: int)
    requires IsTopoOrder(next, order)
    ensures x in order <==> x in next
  {
  }

  lemma {:induction false} PredecessorsDone(next: Edges, last: Edges, order: seq<int>, i: nat)
    requires Transposed(next, last) && IsTopoOrder(next, order) && i < |order|
    ensures order[i] in last && order[i] !in order[..i]
    ensures forall v :: v in last[order[i]] ==> v in order[..i]
  {
    InOrderIff(next, order, order[i]);
    forall v | v in last[order[i]]
      ensures v in order[..i]
    {
      assert Edge(next, v, order[i]);
      assert v in order;
      var k := IndexIn(order, v);
      assert order[i] in next[order[k]];
      assert order[..i][k] == v;
    }
  }

  lemma {:induction false} ClosureAdvances(next: Edges, order: seq<int>, i: nat, m: Lists, acc: seq<int>)
    requires i < |order| && ClosedSoFar(next, order, i, m) && NoDup(acc)
    requires forall a :: a in acc <==> Reaches(next, a, order[i])
    ensures ClosedSoFar(next, order, i + 1, m[order[i] := acc])
  {
    var out := m[order[i] := acc];
    assert order[..i + 1] == order[..i] + [order[i]];
    forall u | u in order[..i + 1]
      ensures ListsAncestors(next, out, u)
    {
      assert u != order[i] ==> ListsAncestors(next, m, u);
    }
  }

  method Closure(order: seq<int>, last: Edges, ghost next: Edges) returns (levelLevel: Lists)
    requires Transposed(next, last) && IsTopoOrder(next, order)
    ensures forall l :: l in next ==> ListsAncestors(next, levelLevel, l)
  {
    levelLevel := map l | l in last.Keys :: [l];
    for i := 0 to |order|
      invariant ClosedSoFar(next, order, i, levelLevel)
    {
      var u := order[i];
      PredecessorsDone(next, last, order, i);
      forall j | 0 <= j < |last[u]|
        ensures last[u][j] in levelLevel
      {
        assert last[u][j] in last[u];
        assert Edge(next, last[u][j], u);
      }
      var acc := UnionOf(levelLevel[u], levelLevel, last[u]);
      AncestorsFromPredecessors(next, last, levelLevel, u, acc);
      ClosureAdvances(next, order, i, levelLevel, acc);
      levelLevel := levelLevel[u := acc];
    }
    assert order[..|order|] == order;
  }

  // ----- what each stage requires

  lemma {:induction false} NeedsLast(levels: seq<Level>, front: seq<int>, h: int, l: int)
    ensures Needs(levels, front + [h], l) <==> Needs(levels, front, l) || NeedsFor(levels, h, l)
  {
    var headers := front + [h];
    assert h in headers;
    forall x | x in front && NeedsFor(levels, x, l)
      ensures Needs(levels, headers, l)
    {
      assert x in headers;
    }
  }

  lemma {:induction false} UnionIsNeed(levels: seq<Level>, levelLevel: Lists, extractors: seq<int>, h: int, l: int)
    requires forall m :: m in extractors <==> Extracts(levels, m, h)
    requires forall m :: 0 <= m < |levels| ==> ListsAncestors(LevelGraph(levels), levelLevel, m)
    ensures InSome(levelLevel, extractors, l) <==> NeedsFor(levels, h, l)
  {
    if InSome(levelLevel, extractors, l) {
      var m :| m in extractors && m in levelLevel && l in levelLevel[m];
      assert Extracts(levels, m, h) && ListsAncestors(LevelGraph(levels), levelLevel, m);
    }
    if NeedsFor(levels, h, l) {
      var m :| Extracts(levels, m, h) && Reaches(LevelGraph(levels), l, m);
      assert m in extractors && ListsAncestors(LevelGraph(levels), levelLevel, m);
    }
  }

  ghost predicate ExtractorLists(levels: seq<Level>, headerLevel: Lists) {
    forall h, l :: l in Get(headerLevel, h) <==> Extracts(levels, l, h)
  }

  method StageLevels(headers: seq<int>, headerLevel: Lists, levelLevel: Lists, ghost levels: seq<Level>)
    returns (r: seq<int>)
    requires ExtractorLists(levels, headerLevel)
    requires forall m :: 0 <= m < |levels| ==> ListsAncestors(LevelGraph(levels), levelLevel, m)
    ensures IsNeedOf(levels, headers, r)
  {
    r := [];
    for i := 0 to |headers|
      invariant IsNeedOf(levels, headers[..i], r)
    {
      var h := headers[i];
      var extractors := Get(headerLevel, h);
      forall k | 0 <= k < |extractors|
        ensures extractors[k] in levelLevel
      {
        var m := extractors[k];
        assert m in extractors;
        assert Extracts(levels, m, h);
        assert ListsAncestors(LevelGraph(levels), levelLevel, m);
      }
      forall l
        ensures Needs(levels, headers[..i] + [h], l) <==>
                Needs(levels, headers[..i], l) || InSome(levelLevel, extractors, l)
      {
        UnionIsNeed(levels, levelLevel, extractors, h, l);
        NeedsLast(levels, headers[..i], h, l);
      }
      assert headers[..i + 1] == headers[..i] + [h];
      r := UnionOf(r, levelLevel, extractors);
    }
    assert headers[..|headers|] == headers;
  }

  lemma {:induction false} NeedAdvances(levels: seq<Level>, stages: seq<Stage>, i: nat, need: Lists, s: seq<int>)
    requires i < |stages| && DistinctIds(stages) && IsNeed(levels, stages[..i], need)
    requires !stages[i].removed ==> IsNeedOf(levels, stages[i].headers, s)
    ensures IsNeed(levels, stages[..i + 1], if stages[i].removed then need else need[stages[i].id := s])
  {
    var front, upTo := stages[..i], stages[..i + 1];
    assert upTo[..i] == front;
    forall p { KeptIdLast(upTo, p); }
    forall k | 0 <= k < i
      ensures upTo[k] == front[k]
    {
    }
  }

  method ProcLevels(stages: seq<Stage>, headerLevel: Lists, levelLevel: Lists, ghost levels: seq<Level>)
    returns (need: Lists)
    requires DistinctIds(stages) && ExtractorLists(levels, headerLevel)
    requires forall m :: 0 <= m < |levels| ==> ListsAncestors(LevelGraph(levels), levelLevel, m)
    ensures IsNeed(levels, stages, need)
  {
    need := map[];
    for i := 0 to |stages|
      invariant IsNeed(levels, stages[..i], need)
    {
      var s := [];
      if !stages[i].removed {
        s := StageLevels(stages[i].headers, headerLevel, levelLevel, levels);
      }
      NeedAdvances(levels, stages, i, need, s);
      if !stages[i].removed {
        need := need[stages[i].id := s];
      }
    }
    assert stages[..|stages|] == stages;
  }

  method StageTargets(actionProc: seq<(int, int)>) returns (r: seq<int>)
    ensures r == Successors(actionProc)
  {
    r := [];
    for j := 0 to |actionProc|
      invariant r == Successors(actionProc[..j])
    {
      assert actionProc[..j + 1][..j] == actionProc[..j];
      if actionProc[j].1 >= 0 {
        r := PushNew(r, actionProc[j].1);
      }
    }
    assert actionProc[..|actionProc|] == actionProc;
  }

  method StageNextTable(stages: seq<Stage>) returns (next: Edges)
    ensures next == StageGraph(stages)
  {
    next := map[];
    for i := 0 to |stages|
      invariant next == StageGraph(stages[..i])
    {
      assert stages[..i + 1][..i] == stages[..i];
      if !stages[i].removed {
        var targets := StageTargets(stages[i].actionProc);
        next := next[stages[i].id := targets];
      }
    }
    assert stages[..|stages|] == stages;
  }

  // ----- the dataflow over the stages

  lemma {:induction false} InAllByIndex(total: Lists, preds: seq<int>, l: int)
    ensures InAll(total, preds, l) <==>
            forall k :: 0 <= k < |preds| ==> preds[k] in total && l in total[preds[k]]
  {
    if InAll(total, preds, l) {
      forall k | 0 <= k < |preds|
        ensures preds[k] in total && l in total[preds[k]]
      {
        var q := preds[k];
        assert q in preds;
        assert q in total && l in total[q];
      }
    }
  }

  /** The levels parsed by the time any of the `preds` has run. */
  method Common(total: Lists, preds: seq<int>) returns (r: seq<int>)
    requires preds != [] && forall k :: 0 <= k < |preds| ==> preds[k] in total
    ensures forall l :: l in r <==> InAll(total, preds, l)
  {
    r := [];
    forall l
      ensures InAll(total, preds, l) <==>
              forall k :: 0 <= k < |preds| ==> preds[k] in total && l in total[preds[k]]
    {
      InAllByIndex(total, preds, l);
    }
    var first := total[preds[0]];
    for i := 0 to |first|
      invariant forall l :: l in r <==> l in first[..i] && InAll(total, preds, l)
    {
      assert first[..i + 1] == first[..i] + [first[i]];
      if forall k :: 1 <= k < |preds| ==> first[i] in total[preds[k]] {
        r := r + [first[i]];
      }
    }
    assert first[..|first|] == first;
  }

  method AddMissing(parsed: seq<int>, required: seq<int>) returns (own: seq<int>, all: seq<int>)
    requires NoDup(required)
    ensures NoDup(own)
    ensures forall l :: l in own <==> l in required && l !in parsed
    ensures forall l :: l in all <==> l in parsed || l in required
  {
    own, all := [], parsed;
    for i := 0 to |required|
      invariant NoDup(own)
      invariant forall l :: l in own <==> l in required[..i] && l !in parsed
      invariant forall l :: l in all <==> l in parsed || l in required[..i]
    {
      var l := required[i];
      assert l !in required[..i];
      assert required[..i + 1] == required[..i] + [l];
      if l !in all {
        own, all := own + [l], all + [l];
      }
    }
    assert required[..|required|] == required;
  }

  ghost predicate FlowsSoFar(last: Edges, need: Lists, total: Lists, own: Lists, order: seq<int>, i: nat)
    requires i <= |order|
  {
    forall j :: 0 <= j < i ==> FlowsAt(last, need, total, own, order[j])
  }

  lemma {:induction false} FlowAdvances(next: Edges, last: Edges, need: Lists, total: Lists, own: Lists,
                     order: seq<int>, i: nat, parsed: seq<int>, run: seq<int>)
    requires Transposed(next, last) && IsTopoOrder(next, order) && i < |order|
    requires FlowsSoFar(last, need, total, own, order, i)
    requires order[i] in need && NoDup(run)
    requires forall l :: l in parsed <==>
      l in need[order[i]] || (order[i] in last && last[order[i]] != [] && InAll(total, last[order[i]], l))
    requires forall l :: l in run <==>
      l in need[order[i]] && order[i] in last && (last[order[i]] == [] || !InAll(total, last[order[i]], l))
    ensures FlowsSoFar(last, need, total[order[i] := parsed], own[order[i] := run], order, i + 1)
  {
    var p := order[i];
    var total', own' := total[p := parsed], own[p := run];
    forall j | 0 <= j <= i
      ensures FlowsAt(last, need, total', own', order[j])
    {
      PredecessorsDone(next, last, order, j);
      NotAPredecessor(next, last, order, i, j);
      forall l
        ensures InAll(total', last[order[j]], l) == InAll(total, last[order[j]], l)
      {
        SameOnPredecessors(total, total', last[order[j]], l);
      }
      if j < i {
        assert order[j] != p;
        assert FlowsAt(last, need, total, own, order[j]);
      }
    }
  }

  lemma {:induction false} NotAPredecessor(next: Edges, last: Edges, order: seq<int>, i: nat, j: nat)
    requires Transposed(next, last) && IsTopoOrder(next, order) && j <= i < |order|
    ensures order[j] in last && order[i] !in last[order[j]]
  {
    PredecessorsDone(next, last, order, j);
    var p := order[i];
    assert p !in order[..j];
  }

  lemma {:induction false} SameOnPredecessors(total: Lists, total': Lists, preds: seq<int>, l: int)
    requires forall q :: q in preds ==> (q in total <==> q in total') && (q in total ==> total[q] == total'[q])
    ensures InAll(total', preds, l) == InAll(total, preds, l)
  {
  }

  method Distribute(order: seq<int>, last: Edges, need: Lists, ghost next: Edges) returns (own: Lists, total: Lists)
    requires Transposed(next, last) && IsTopoOrder(next, order)
    requires forall p :: p in next ==> p in need && NoDup(need[p])
    ensures Dataflow(next, last, need, total, own) && forall p :: p in own ==> p in next
  {
    own, total := map[], map[];
    for i := 0 to |order|
      invariant FlowsSoFar(last, need, total, own, order, i)
      invariant forall p :: p in own ==> p in order[..i]
    {
      var p := order[i];
      PredecessorsDone(next, last, order, i);
      assert p in order;
      var run, parsed;
      if last[p] == [] {
        run, parsed := need[p], need[p];
      } else {
        forall j | 0 <= j < |last[p]|
          ensures last[p][j] in total
        {
          var k := IndexIn(order[..i], last[p][j]);
          assert FlowsAt(last, need, total, own, order[k]);
        }
        var common := Common(total, last[p]);
        run, parsed := AddMissing(common, need[p]);
      }
      FlowAdvances(next, last, need, total, own, order, i, parsed, run);
      own, total := own[p := run], total[p := parsed];
      assert order[..i + 1] == order[..i] + [p];
    }
    forall p | p in next
      ensures FlowsAt(last, need, total, own, p)
    {
      assert p in order;
      assert FlowsAt(last, need, total, own, order[IndexIn(order, p)]);
    }
  }

  // ----- the final sort

  /** The elements of `s`, arranged as in the first `n` places of `order`. */
  function InOrder(order: seq<int>, n: nat, s: seq<int>): (r: seq<int>)
    requires n <= |order|
    ensures forall x :: x in r <==> x in order[..n] && x in s
  {
    if n == 0 then []
    else
      assert order[..n] == order[..n - 1] + [order[n - 1]];
      InOrder(order, n - 1, s) + if order[n - 1] in s then [order[n - 1]] else []
  }

  lemma {:induction false} IndexBefore(order: seq<int>, n: nat, y: int)
    requires NoDup(order) && n < |order| && y in order[..n]
    ensures y in order && order[n] in order && IndexIn(order, y) < IndexIn(order, order[n])
  {
    var k := IndexIn(order[..n], y);
    assert order[k] == y;
  }

  lemma {:induction false} PushSorted(order: seq<int>, s: seq<int>, x: int)
    requires NoDup(s) && SortedBy(order, s) && x in order
    requires forall i :: 0 <= i < |s| ==> s[i] in order && IndexIn(order, s[i]) < IndexIn(order, x)
    ensures NoDup(s + [x]) && SortedBy(order, s + [x])
  {
  }

  lemma {:induction false} InOrderIsSorted(order: seq<int>, n: nat, s: seq<int>)
    requires NoDup(order) && n <= |order|
    ensures NoDup(InOrder(order, n, s)) && SortedBy(order, InOrder(order, n, s))
  {
    if n > 0 {
      InOrderIsSorted(order, n - 1, s);
      var front, x := InOrder(order, n - 1, s), order[n - 1];
      forall i | 0 <= i < |front|
        ensures front[i] in order && x in order && IndexIn(order, front[i]) < IndexIn(order, x)
      {
        assert front[i] in front;
        IndexBefore(order, n - 1, front[i]);
      }
      PushSorted(order, front, x);
      assert InOrder(order, n, s) == front || InOrder(order, n, s) == front + [x];
    }
  }

  /** What `std::sort` with the comparison "comes first in `order`" makes of `s`. */
  ghost predicate IsSorted(order: seq<int>, s: seq<int>, t: seq<int>) {
    NoDup(t) && SortedBy(order, t) && forall l :: l in t <==> l in order && l in s
  }

  method SortLevels(order: seq<int>, s: seq<int>) returns (t: seq<int>)
    requires NoDup(order)
    ensures IsSorted(order, s, t)
  {
    t := InOrder(order, |order|, s);
    assert order[..|order|] == order;
    InOrderIsSorted(order, |order|, s);
  }

  ghost predicate ListSorted(order: seq<int>, own: Lists, sorted: Lists, p: int) {
    p in own && p in sorted && IsSorted(order, own[p], sorted[p])
  }

  lemma {:induction false} AllListsSorted(order: seq<int>, own: Lists, sorted: Lists, keys: seq<int>)
    requires forall p :: p in own.Keys ==> p in keys
    requires forall p :: p in sorted ==> ListSorted(order, own, sorted, p)
    requires forall j :: 0 <= j < |keys| ==> keys[j] in sorted
    ensures sorted.Keys == own.Keys
    ensures forall p :: p in own ==> p in sorted && IsSorted(order, own[p], sorted[p])
  {
    forall p | p in own.Keys
      ensures p in sorted && ListSorted(order, own, sorted, p)
    {
      assert p in keys;
    }
    forall p | p in sorted.Keys
      ensures p in own.Keys
    {
      assert ListSorted(order, own, sorted, p);
    }
    SameElements(sorted.Keys, own.Keys);
  }

  method SortAll(order: seq<int>, own: Lists) returns (sorted: Lists)
    requires NoDup(order)
    ensures sorted.Keys == own.Keys
    ensures forall p :: p in own ==> p in sorted && IsSorted(order, own[p], sorted[p])
  {
    sorted := map[];
    var keys := Ascending(own.Keys);
    for i := 0 to |keys|
      invariant forall p :: p in sorted ==> ListSorted(order, own, sorted, p)
      invariant forall j :: 0 <= j < i ==> keys[j] in sorted
    {
      var p := keys[i];
      assert p in own.Keys;
      ghost var before := sorted;
      var s := SortLevels(order, own[p]);
      sorted := sorted[p := s];
      forall p' | p' in sorted
        ensures ListSorted(order, own, sorted, p')
      {
        assert p' != p ==> ListSorted(order, own, before, p');
      }
    }
    AllListsSorted(order, own, sorted, keys);
  }

  // ----- the whole computation

  /** `own` is the outcome of the computation, with the intermediate tables that led to it. */
  ghost predicate DistributionFrom(levels: seq<Level>, stages: seq<Stage>, own: Lists, topo: seq<int>,
                                   last: Edges, need: Lists, total: Lists, order: seq<int>) {
    var next := StageGraph(stages);
    && IsTopoOrder(next, topo)
    && Transposed(next, last)
    && IsNeed(levels, stages, need)
    && Dataflow(next, last, need, total, own)
    && IsTopoOrder(LevelGraph(levels), order)
    && forall p :: p in own ==> SortedBy(order, own[p])
  }

  ghost predicate IsDistribution(levels: seq<Level>, stages: seq<Stage>, own: Lists) {
    exists topo, last, need, total, order :: DistributionFrom(levels, stages, own, topo, last, need, total, order)
  }

  lemma {:induction false} NeededLevelsExist(levels: seq<Level>, stages: seq<Stage>, need: Lists, p: int, l: int)
    requires IsNeed(levels, stages, need) && p in need && l in need[p]
    ensures l in LevelGraph(levels)
  {
    assert KeptId(stages, p);
    var i :| 0 <= i < |stages| && !stages[i].removed && stages[i].id == p;
    assert IsNeedOf(levels, stages[i].headers, need[p]);
    assert Needs(levels, stages[i].headers, l);
    var h :| h in stages[i].headers && NeedsFor(levels, h, l);
    var m :| Extracts(levels, m, h) && Reaches(LevelGraph(levels), l, m);
    var q :| PathFromTo(LevelGraph(levels), q, l, m);
    assert q[0] in LevelGraph(levels);
  }

  lemma {:induction false} OwnLevelsExist(levels: seq<Level>, stages: seq<Stage>, next: Edges, last: Edges,
                       need: Lists, total: Lists, own: Lists, order: seq<int>)
    requires IsNeed(levels, stages, need) && Dataflow(next, last, need, total, own)
    requires (forall p :: p in own ==> p in next) && IsTopoOrder(LevelGraph(levels), order)
    ensures forall p, l :: p in own && l in own[p] ==> l in order
  {
    forall p, l | p in own && l in own[p]
      ensures l in order
    {
      assert FlowsAt(last, need, total, own, p);
      NeededLevelsExist(levels, stages, need, p, l);
    }
  }

  lemma {:induction false} SortingKeepsFlow(next: Edges, last: Edges, need: Lists, total: Lists, own: Lists,
                          sorted: Lists, order: seq<int>)
    requires Dataflow(next, last, need, total, own) && sorted.Keys == own.Keys
    requires forall p, l :: p in own && l in own[p] ==> l in order
    requires forall p :: p in own ==> p in sorted && IsSorted(order, own[p], sorted[p])
    ensures Dataflow(next, last, need, total, sorted)
    ensures forall p :: p in sorted ==> SortedBy(order, sorted[p])
  {
    forall p | p in next
      ensures FlowsAt(last, need, total, sorted, p)
    {
      assert FlowsAt(last, need, total, own, p);
      assert IsSorted(order, own[p], sorted[p]);
      assert p in sorted.Keys;
    }
    forall p | p in sorted
      ensures SortedBy(order, sorted[p])
    {
      assert p in own.Keys;
      assert IsSorted(order, own[p], sorted[p]);
    }
  }

  class IpsaDistribution {
    var distributedLevels: Lists
    var topoSequence: seq<int>

    constructor ()
      ensures distributedLevels == map[] && topoSequence == []
    {
      distributedLevels := map[];
      topoSequence := [];
    }

    /** Succeeds exactly when neither the level graph nor the stage graph has a cycle. */
    method DistributeParsers(headerIds: set<int>, levels: seq<Level>, stages: seq<Stage>) returns (ok: bool)
      requires WellFormedLevels(levels) && WellFormedStages(stages)
      requires distributedLevels == map[] && topoSequence == []
      modifies this
      ensures ok <==> Acyclic(LevelGraph(levels)) && Acyclic(StageGraph(stages))
      ensures ok ==> IsTopoOrder(StageGraph(stages), topoSequence)
      ensures ok ==> forall t :: IsTopoOrder(StageGraph(stages), t) ==> LexLeq(topoSequence, t)
      ensures ok ==> IsDistribution(levels, stages, distributedLevels)
    {
      LevelGraphWellFormed(levels);
      StageGraphWellFormed(stages);
      StageGraphEntries(stages);
      var headerLevel := HeaderLevels(headerIds, levels);
      var levelNext := LevelNextTable(levels);
      var levelLast := Reverse(levelNext);
      var order;
      ok, order := TopologicalSort(levelLast, levelNext);
      if !ok {
        return;
      }
      var levelLevel := Closure(order, levelLast, levelNext);
      var need := ProcLevels(stages, headerLevel, levelLevel, levels);
      var next := StageNextTable(stages);
      var last := Reverse(next);
      ok, topoSequence := TopologicalSort(last, next);
      if !ok {
        return;
      }
      forall p | p in next
        ensures p in need && NoDup(need[p])
      {
        assert KeptId(stages, p);
      }
      var own, total := Distribute(topoSequence, last, need, next);
      OwnLevelsExist(levels, stages, next, last, need, total, own, order);
      distributedLevels := SortAll(order, own);
      SortingKeepsFlow(next, last, need, total, own, distributedLevels, order);
      assert DistributionFrom(levels, stages, distributedLevels, topoSequence, last, need, total, order);
    }
  }
}
