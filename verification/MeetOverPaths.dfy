/** What the forward "must already be parsed" dataflow over the stage graph computes, stated over all
    paths. `need[p]` lists what stage `p` requires, `total[p]` what is parsed when `p` has run,
    `own[p]` what `p` itself runs. */
module MeetOverPaths {
  import opened Finite
  import opened Graphs
  import opened LevelGraphs

  type Lists = map<int, seq<int>>

  ghost predicate IsSource(next: Edges, p: int) {
    p in next && forall u :: !Edge(next, u, p)
  }

  lemma {:induction false} SourceHasNoPredecessors(next: Edges, last: Edges, p: int)
    requires Transposed(next, last) && p in next
    ensures last[p] == [] <==> IsSource(next, p)
  {
    if last[p] != [] {
      assert Edge(next, last[p][0], p);
    }
  }

  /** A path that starts at a stage without predecessors. */
  ghost predicate SourcePath(next: Edges, path: seq<int>) {
    IsPath(next, path) && IsSource(next, path[0])
  }

  ghost predicate Meets(need: Lists, path: seq<int>, l: int) {
    exists i :: 0 <= i < |path| && path[i] in need && l in need[path[i]]
  }

  /** Every path from a source to `p` contains a stage that requires `l`. */
  ghost predicate OnEveryPath(next: Edges, need: Lists, p: int, l: int) {
    forall path :: SourcePath(next, path) && path[|path| - 1] == p ==> Meets(need, path, l)
  }

  ghost predicate InAll(total: Lists, preds: seq<int>, l: int) {
    forall q :: q in preds ==> q in total && l in total[q]
  }

  /** The equations the computed lists satisfy at node `p`. */
  ghost predicate FlowsAt(last: Edges, need: Lists, total: Lists, own: Lists, p: int) {
    && p in last && p in need && p in total && p in own
    && NoDup(own[p])
    && (forall l :: l in total[p] <==> l in need[p] || (last[p] != [] && InAll(total, last[p], l)))
    && (forall l :: l in own[p] <==> l in need[p] && (last[p] == [] || !InAll(total, last[p], l)))
  }

  ghost predicate Dataflow(next: Edges, last: Edges, need: Lists, total: Lists, own: Lists) {
    forall p :: p in next ==> FlowsAt(last, need, total, own, p)
  }

  lemma {:induction false} TotalIsMet(next: Edges, last: Edges, need: Lists, total: Lists, own: Lists,
                                      path: seq<int>, l: int)
    requires Transposed(next, last) && Dataflow(next, last, need, total, own)
    requires SourcePath(next, path)
    requires path[|path| - 1] in total && l in total[path[|path| - 1]]
    ensures Meets(need, path, l)
    decreases |path|
  {
    var p := path[|path| - 1];
    assert FlowsAt(last, need, total, own, p);
    if l in need[p] {
      assert path[|path| - 1] in need;
    } else {
      SourceHasNoPredecessors(next, last, p);
      assert |path| > 1;
      var q := path[|path| - 2];
      LastEdge(next, path);
      var front := path[..|path| - 1];
      TotalIsMet(next, last, need, total, own, front, l);
      var i :| 0 <= i < |front| && front[i] in need && l in need[front[i]];
      assert path[i] == front[i];
    }
  }

  /** A path that avoids `l`, when `l` is not in the total. */
  lemma {:induction false} AvoidingPath(next: Edges, last: Edges, need: Lists, total: Lists, own: Lists,
                                        topo: seq<int>, p: int, l: int) returns (path: seq<int>)
    requires Transposed(next, last) && Dataflow(next, last, need, total, own) && IsTopoOrder(next, topo)
    requires p in next && l !in total[p]
    ensures SourcePath(next, path) && path[|path| - 1] == p && !Meets(need, path, l)
    decreases if p in topo then IndexIn(topo, p) else 0
  {
    assert p in topo;
    assert FlowsAt(last, need, total, own, p);
    SourceHasNoPredecessors(next, last, p);
    if last[p] == [] {
      path := [p];
    } else {
      var q :| q in last[p] && !(q in total && l in total[q]);
      assert Edge(next, q, p);
      assert q in topo;
      assert topo[IndexIn(topo, p)] in next[topo[IndexIn(topo, q)]];
      assert FlowsAt(last, need, total, own, q);
      var front := AvoidingPath(next, last, need, total, own, topo, q, l);
      ExtendPath(next, front, p);
      path := front + [p];
      forall i | 0 <= i < |path| && path[i] in need
        ensures l !in need[path[i]]
      {
        if i < |front| {
          assert path[i] == front[i];
        }
      }
    }
  }

  /** The total is exactly the meet over all paths. */
  lemma {:induction false} TotalIsMeetOverPaths(next: Edges, last: Edges, need: Lists, total: Lists, own: Lists,
                             topo: seq<int>, p: int, l: int)
    requires Transposed(next, last) && Dataflow(next, last, need, total, own) && IsTopoOrder(next, topo)
    requires p in next
    ensures p in total && (l in total[p] <==> OnEveryPath(next, need, p, l))
  {
    assert FlowsAt(last, need, total, own, p);
    if l in total[p] {
      forall path | SourcePath(next, path) && path[|path| - 1] == p
        ensures Meets(need, path, l)
      {
        TotalIsMet(next, last, need, total, own, path, l);
      }
    } else {
      var path := AvoidingPath(next, last, need, total, own, topo, p, l);
    }
  }

  /** Complete: whatever is in the total of the last stage of a path was run on that path. */
  lemma {:induction false} TotalWasRun(next: Edges, last: Edges, need: Lists, total: Lists, own: Lists,
                                       path: seq<int>, l: int)
    requires Transposed(next, last) && Dataflow(next, last, need, total, own)
    requires SourcePath(next, path)
    requires path[|path| - 1] in total && l in total[path[|path| - 1]]
    ensures Meets(own, path, l)
    decreases |path|
  {
    var p := path[|path| - 1];
    assert FlowsAt(last, need, total, own, p);
    if l in own[p] {
      assert path[|path| - 1] in own;
    } else {
      SourceHasNoPredecessors(next, last, p);
      assert |path| > 1;
      var q := path[|path| - 2];
      LastEdge(next, path);
      var front := path[..|path| - 1];
      TotalWasRun(next, last, need, total, own, front, l);
      var i :| 0 <= i < |front| && front[i] in own && l in own[front[i]];
      assert path[i] == front[i];
    }
  }

  function Without(s: seq<int>, x: int): (r: seq<int>)
    ensures forall y :: y in r <==> y in s && y != x
  {
    if s == [] then [] else (if s[0] == x then [] else [s[0]]) + Without(s[1..], x)
  }

  lemma {:induction false} OwnIsNeeded(last: Edges, next: Edges, need: Lists, total: Lists, own: Lists,
                                       path: seq<int>, l: int)
    requires Dataflow(next, last, need, total, own) && IsPath(next, path) && !Meets(need, path, l)
    ensures !Meets(own, path, l)
  {
    forall i | 0 <= i < |path| && path[i] in own
      ensures l !in own[path[i]]
    {
      assert FlowsAt(last, need, total, own, path[i]);
    }
  }

  /** Minimal: take any one level away from any one stage, and on some path that stage is reached
      without it ever having been run, although the stage requires it. */
  lemma {:induction false} OwnIsMinimal(next: Edges, last: Edges, need: Lists, total: Lists, own: Lists,
                     topo: seq<int>, p: int, l: int) returns (path: seq<int>)
    requires Transposed(next, last) && Dataflow(next, last, need, total, own) && IsTopoOrder(next, topo)
    requires p in next && p in own && l in own[p]
    ensures SourcePath(next, path) && path[|path| - 1] == p
    ensures p in need && l in need[p] && !Meets(own[p := Without(own[p], l)], path, l)
  {
    assert FlowsAt(last, need, total, own, p);
    var less := own[p := Without(own[p], l)];
    if last[p] == [] {
      path := [p];
    } else {
      var q :| q in last[p] && !(q in total && l in total[q]);
      assert Edge(next, q, p);
      assert q in topo;
      assert FlowsAt(last, need, total, own, q);
      var front := AvoidingPath(next, last, need, total, own, topo, q, l);
      OwnIsNeeded(last, next, need, total, own, front, l);
      ExtendPath(next, front, p);
      path := front + [p];
      forall i | 0 <= i < |path| && path[i] in less
        ensures l !in less[path[i]]
      {
        if i < |front| {
          assert path[i] == front[i];
        }
      }
    }
  }

  // ----- the order in which a packet meets the levels

  /** All lists along a path, one after the other. */
  function Flat(own: Lists, path: seq<int>): seq<int> {
    if path == [] then []
    else
      Flat(own, path[..|path| - 1]) + if path[|path| - 1] in own then own[path[|path| - 1]] else []
  }

  lemma {:induction false} MeetsLast(own: Lists, path: seq<int>, l: int)
    requires path != []
    ensures var n := |path| - 1;
            Meets(own, path, l) <==> Meets(own, path[..n], l) || (path[n] in own && l in own[path[n]])
  {
    var front := path[..|path| - 1];
    if Meets(own, front, l) {
      var i :| 0 <= i < |front| && front[i] in own && l in own[front[i]];
      assert path[i] == front[i];
    }
    if Meets(own, path, l) {
      var i :| 0 <= i < |path| && path[i] in own && l in own[path[i]];
      if i < |front| {
        assert front[i] == path[i];
      }
    }
  }

  lemma {:induction false} FlatContains(own: Lists, path: seq<int>, l: int)
    ensures l in Flat(own, path) <==> Meets(own, path, l)
  {
    if path != [] {
      FlatContains(own, path[..|path| - 1], l);
      MeetsLast(own, path, l);
    }
  }

  ghost predicate SortedBy(order: seq<int>, s: seq<int>) {
    forall i, j :: 0 <= i < j < |s| ==> s[i] in order && s[j] in order && IndexIn(order, s[i]) < IndexIn(order, s[j])
  }

  /** Whatever is required brings all its ancestors along. */
  ghost predicate AncestorClosed(graph: Edges, need: Lists) {
    forall p, l, a :: p in need && l in need[p] && Reaches(graph, a, l) ==> a in need[p]
  }

  lemma {:induction false} MeetsAncestor(graph: Edges, need: Lists, path: seq<int>, l: int, a: int)
    requires AncestorClosed(graph, need) && Meets(need, path, l) && Reaches(graph, a, l)
    ensures Meets(need, path, a)
  {
    var i :| 0 <= i < |path| && path[i] in need && l in need[path[i]];
    var p := path[i];
    assert p in need && l in need[p] && Reaches(graph, a, l);
    assert a in need[p];
  }

  /** The total is closed under ancestors, because every stage's requirement is. */
  lemma {:induction false} TotalIsAncestorClosed(next: Edges, last: Edges, need: Lists, total: Lists, own: Lists,
                              topo: seq<int>, graph: Edges, p: int, l: int, a: int)
    requires Transposed(next, last) && Dataflow(next, last, need, total, own) && IsTopoOrder(next, topo)
    requires AncestorClosed(graph, need) && p in next && p in total && l in total[p] && Reaches(graph, a, l)
    ensures a in total[p]
  {
    TotalIsMeetOverPaths(next, last, need, total, own, topo, p, l);
    TotalIsMeetOverPaths(next, last, need, total, own, topo, p, a);
    forall path | SourcePath(next, path) && path[|path| - 1] == p
      ensures Meets(need, path, a)
    {
      MeetsAncestor(graph, need, path, l, a);
    }
  }

  /** On every path, each level is run only after all its ancestors: in an earlier stage, or earlier in
      the same sorted list. */
  lemma {:induction false} PathRunsAncestorsFirst(next: Edges, last: Edges, need: Lists, total: Lists, own: Lists,
                                                  graph: Edges, order: seq<int>, path: seq<int>)
    requires Transposed(next, last) && Dataflow(next, last, need, total, own)
    requires AncestorClosed(graph, need) && IsTopoOrder(graph, order)
    requires forall p :: p in own ==> SortedBy(order, own[p])
    requires SourcePath(next, path)
    ensures AncestorsFirst(graph, Flat(own, path))
    decreases |path|
  {
    var p := path[|path| - 1];
    var front := path[..|path| - 1];
    assert FlowsAt(last, need, total, own, p);
    var before, here := Flat(own, front), own[p];
    var ids := before + here;
    assert Flat(own, path) == ids;
    if |path| > 1 {
      LastEdge(next, path);
      PathRunsAncestorsFirst(next, last, need, total, own, graph, order, front);
    }
    forall n, a | 0 <= n < |ids| && Reaches(graph, a, ids[n]) && a != ids[n]
      ensures a in ids[..n]
    {
      if n < |before| {
        assert ids[n] == before[n] && a in before[..n];
        assert ids[..n] == before[..n];
      } else {
        var j := n - |before|;
        assert ids[n] == here[j] && here[j] in here;
        assert ids[..n] == before + here[..j];
        if a in here {
          SortedAncestor(graph, order, here, j, a);
        } else {
          NeededEarlier(next, last, need, total, own, path, a);
          assert a in before;
        }
      }
    }
  }

  lemma {:induction false} SortedAncestor(graph: Edges, order: seq<int>, s: seq<int>, j: nat, a: int)
    requires IsTopoOrder(graph, order) && SortedBy(order, s) && j < |s|
    requires a in s && a != s[j] && Reaches(graph, a, s[j])
    ensures a in s[..j]
  {
    var i :| 0 <= i < |s| && s[i] == a;
    var p :| PathFromTo(graph, p, a, s[j]);
    PathGoesForward(graph, order, p);
    assert i < j;
    assert s[..j][i] == a;
  }

  lemma {:induction false} NeededEarlier(next: Edges, last: Edges, need: Lists, total: Lists, own: Lists,
                                         path: seq<int>, a: int)
    requires Transposed(next, last) && Dataflow(next, last, need, total, own) && SourcePath(next, path)
    requires path[|path| - 1] in need && a in need[path[|path| - 1]]
    requires path[|path| - 1] in own && a !in own[path[|path| - 1]]
    ensures a in Flat(own, path[..|path| - 1])
  {
    var p := path[|path| - 1];
    assert FlowsAt(last, need, total, own, p);
    SourceHasNoPredecessors(next, last, p);
    assert |path| > 1;
    var q := path[|path| - 2];
    LastEdge(next, path);
    var front := path[..|path| - 1];
    TotalWasRun(next, last, need, total, own, front, a);
    FlatContains(own, front, a);
  }
}
