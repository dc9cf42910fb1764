/** rP4-compiler/rp4c/ipsa_distribution.h, `topologicalSort`: repeatedly take the smallest node
    whose remaining in-degree is zero. */
module TopoSort {
  import opened Finite
  import opened Graphs
  import opened OrderedMaps

  /** How many entries of `s` are not in `done`. */
  ghost function Pending(s: seq<int>, done: set<int>): nat {
    if s == [] then 0 else (if s[0] in done then 0 else 1) + Pending(s[1..], done)
  }

  lemma {:induction false} PendingZero(s: seq<int>, done: set<int>)
    ensures Pending(s, done) == 0 <==> forall x :: x in s ==> x in done
  {
    if s != [] {
      PendingZero(s[1..], done);
      assert forall x :: x in s <==> x == s[0] || x in s[1..];
    }
  }

  lemma {:induction false} PendingNone(s: seq<int>)
    ensures Pending(s, {}) == |s|
  {
    if s != [] {
      PendingNone(s[1..]);
    }
  }

  lemma {:induction false} PendingAdd(s: seq<int>, done: set<int>, x: int)
    requires NoDup(s) && x !in done
    ensures Pending(s, done + {x}) == Pending(s, done) - (if x in s then 1 else 0)
  {
    if s != [] {
      var tail := s[1..];
      assert forall i :: 0 <= i < |tail| ==> tail[i] == s[i + 1];
      PendingAdd(tail, done, x);
      assert x in s <==> x == s[0] || x in tail;
    }
  }

  /** The state between two picks: `topo` is closed under predecessors, and the in-degree of a node
      is -1 once it is placed and the number of its unplaced predecessors before that. */
  ghost predicate SortState(next: Edges, last: Edges, inDegree: map<int, int>, topo: seq<int>) {
    && inDegree.Keys == next.Keys == last.Keys
    && NoDup(topo)
    && (forall x :: x in topo ==> x in next)
    && (forall i, u :: 0 <= i < |topo| && u in last[topo[i]] ==> u in topo[..i])
    && (forall x :: x in next ==>
          inDegree[x] == if x in topo then -1 else Pending(last[x], Elements(topo)))
  }

  /** No topological order is smaller than the nodes placed so far. */
  ghost predicate LeastSoFar(next: Edges, topo: seq<int>) {
    forall t :: IsTopoOrder(next, t) ==> LexLeq(topo, t)
  }

  method InitialDegrees(last: Edges) returns (inDegree: map<int, int>)
    ensures inDegree.Keys == last.Keys
    ensures forall x :: x in last ==> inDegree[x] == |last[x]|
  {
    inDegree := map[];
    var keys := Ascending(last.Keys);
    for i := 0 to |keys|
      invariant forall x :: x in inDegree ==> HasDegree(last, inDegree, x)
      invariant forall j :: 0 <= j < i ==> keys[j] in inDegree
    {
      var x := keys[i];
      inDegree := inDegree[x := |last[x]|];
    }
    AllDegrees(last, keys, inDegree);
  }

  ghost predicate HasDegree(last: Edges, inDegree: map<int, int>, x: int) {
    x in last && x in inDegree && inDegree[x] == |last[x]|
  }

  lemma {:induction false} AllDegrees(last: Edges, keys: seq<int>, inDegree: map<int, int>)
    requires forall x :: x in last.Keys ==> x in keys
    requires forall x :: x in inDegree ==> HasDegree(last, inDegree, x)
    requires forall j :: 0 <= j < |keys| ==> keys[j] in inDegree
    ensures inDegree.Keys == last.Keys && forall x :: x in last ==> inDegree[x] == |last[x]|
  {
    forall x | x in last
      ensures HasDegree(last, inDegree, x)
    {
      assert x in keys;
    }
    SameElements(inDegree.Keys, last.Keys);
  }

  /** The first key, in ascending order, with degree zero; -1 when there is none. */
  method FirstReady(inDegree: map<int, int>) returns (node: int)
    requires forall x :: x in inDegree ==> 0 <= x
    ensures 0 <= node ==> node in inDegree && inDegree[node] == 0
    ensures 0 <= node ==> forall x :: x in inDegree && inDegree[x] == 0 ==> node <= x
    ensures node < 0 ==> node == -1 && forall x :: x in inDegree ==> inDegree[x] != 0
  {
    var keys := Ascending(inDegree.Keys);
    var i := FirstZero(inDegree, keys);
    node := if i < |keys| then keys[i] else -1;
    FirstIsLeast(inDegree, keys, i);
  }

  method FirstZero(inDegree: map<int, int>, keys: seq<int>) returns (i: nat)
    requires forall j :: 0 <= j < |keys| ==> keys[j] in inDegree
    ensures NoneReady(inDegree, keys, i) && (i < |keys| ==> inDegree[keys[i]] == 0)
  {
    i := 0;
    while i < |keys| && inDegree[keys[i]] != 0
      invariant NoneReady(inDegree, keys, i)
    {
      i := i + 1;
    }
  }

  ghost predicate NoneReady(inDegree: map<int, int>, keys: seq<int>, i: nat) {
    i <= |keys| && forall j :: 0 <= j < i ==> keys[j] in inDegree && inDegree[keys[j]] != 0
  }

  lemma {:induction false} FirstIsLeast(inDegree: map<int, int>, keys: seq<int>, i: nat)
    requires NoneReady(inDegree, keys, i) && forall x :: x in inDegree ==> x in keys
    requires forall j, k :: 0 <= j < k < |keys| ==> keys[j] < keys[k]
    ensures forall x :: x in inDegree && inDegree[x] == 0 ==> i < |keys| && keys[i] <= x
  {
    forall x | x in inDegree && inDegree[x] == 0
      ensures i < |keys| && keys[i] <= x
    {
      var k :| 0 <= k < |keys| && keys[k] == x;
      assert i <= k;
    }
  }

  method Release(inDegree: map<int, int>, targets: seq<int>) returns (out: map<int, int>)
    requires NoDup(targets) && forall x :: x in targets ==> x in inDegree
    ensures out.Keys == inDegree.Keys
    ensures forall x :: x in out ==> out[x] == inDegree[x] - (if x in targets then 1 else 0)
  {
    out := inDegree;
    for i := 0 to |targets|
      invariant forall x :: x in out <==> x in inDegree
      invariant forall x :: x in out ==> out[x] == inDegree[x] - (if x in targets[..i] then 1 else 0)
    {
      var x := targets[i];
      assert x in targets && x !in targets[..i];
      out := out[x := out[x] - 1];
      assert targets[..i + 1] == targets[..i] + [targets[i]];
    }
    assert targets[..|targets|] == targets;
    SameElements(out.Keys, inDegree.Keys);
  }

  /** One pick keeps the state. */
  lemma {:induction false} PickKeepsState(next: Edges, last: Edges, inDegree: map<int, int>, topo: seq<int>,
                       node: int, out: map<int, int>)
    requires WellFormed(next) && Transposed(next, last) && SortState(next, last, inDegree, topo)
    requires node in next && inDegree[node] == 0
    requires out.Keys == inDegree.Keys
    requires forall x :: x in out ==>
      out[x] == inDegree[node := -1][x] - (if x in next[node] then 1 else 0)
    ensures SortState(next, last, out, topo + [node])
  {
    var topo' := topo + [node];
    PendingZero(last[node], Elements(topo));
    assert node !in topo;
    forall i | 0 <= i < |topo'|
      ensures topo'[i] in next
      ensures forall u :: u in last[topo'[i]] ==> u in topo'[..i]
    {
      if i < |topo| {
        assert topo'[i] == topo[i] && topo[i] in topo;
        assert topo'[..i] == topo[..i];
      } else {
        assert topo'[i] == node;
        assert topo'[..i] == topo;
      }
    }
    assert Elements(topo') == Elements(topo) + {node};
    forall x | x in next
      ensures out[x] == if x in topo' then -1 else Pending(last[x], Elements(topo'))
    {
      assert x in next[node] <==> Edge(next, node, x);
      if x in topo {
        var i :| 0 <= i < |topo| && topo[i] == x;
        assert node !in topo[..i];
        assert node !in last[x];
      } else if x == node {
        assert node !in last[node];
      } else {
        PendingAdd(last[x], Elements(topo), node);
      }
    }
  }

  /** Picking the smallest ready node keeps the prefix least. */
  lemma {:induction false} PickKeepsLeast(next: Edges, last: Edges, inDegree: map<int, int>, topo: seq<int>, node: int)
    requires WellFormed(next) && Transposed(next, last) && SortState(next, last, inDegree, topo)
    requires node in next && inDegree[node] == 0
    requires forall x :: x in inDegree && inDegree[x] == 0 ==> node <= x
    requires LeastSoFar(next, topo)
    ensures LeastSoFar(next, topo + [node])
  {
    PendingZero(last[node], Elements(topo));
    forall t | IsTopoOrder(next, t)
      ensures LexLeq(topo + [node], t)
    {
      assert LexLeq(topo, t);
      if topo <= t {
        NodeIsBehind(next, topo, node, t);
        NextIsNotLess(next, last, inDegree, topo, node, t);
        LeastNext(topo, node, t);
      } else {
        StaysLess(topo, node, t);
      }
    }
  }

  lemma {:induction false} NodeIsBehind(next: Edges, topo: seq<int>, node: int, t: seq<int>)
    requires IsTopoOrder(next, t) && topo <= t && node in next && node !in topo
    ensures |topo| < |t|
  {
    assert node in t;
    var k :| 0 <= k < |t| && t[k] == node;
    assert forall j :: 0 <= j < |topo| ==> topo[j] == t[j] && topo[j] in topo;
  }

  lemma {:induction false} NextIsNotLess(next: Edges, last: Edges, inDegree: map<int, int>, topo: seq<int>, node: int,
                                         t: seq<int>)
    requires WellFormed(next) && Transposed(next, last) && SortState(next, last, inDegree, topo)
    requires forall x :: x in inDegree && inDegree[x] == 0 ==> node <= x
    requires IsTopoOrder(next, t) && topo < t
    ensures node <= t[|topo|]
  {
    var x := t[|topo|];
    assert forall j :: 0 <= j < |topo| ==> topo[j] == t[j];
    assert x in t && x !in topo;
    NextInOrderIsReady(next, last, topo, t);
    PendingZero(last[x], Elements(topo));
  }

  lemma {:induction false} LeastNext(topo: seq<int>, node: int, t: seq<int>)
    requires topo < t && node <= t[|topo|]
    ensures LexLeq(topo + [node], t)
  {
    var topo', n := topo + [node], |topo|;
    assert topo'[..n] == topo == t[..n];
    if node == t[n] {
      assert topo' == t[..n + 1];
    } else {
      assert topo'[n] < t[n];
    }
  }

  lemma {:induction false} StaysLess(topo: seq<int>, node: int, t: seq<int>)
    requires LexLeq(topo, t) && !(topo <= t)
    ensures LexLeq(topo + [node], t)
  {
    var i :| 0 <= i < |topo| && i < |t| && topo[..i] == t[..i] && topo[i] < t[i];
    var topo' := topo + [node];
    assert topo'[..i] == topo[..i] && topo'[i] == topo[i];
  }

  lemma {:induction false} NextInOrderIsReady(next: Edges, last: Edges, topo: seq<int>, t: seq<int>)
    requires Transposed(next, last) && IsTopoOrder(next, t) && topo < t
    ensures t[|topo|] in last
    ensures forall u :: u in last[t[|topo|]] ==> u in topo
  {
    var x := t[|topo|];
    forall u | u in last[x]
      ensures u in topo
    {
      assert Edge(next, u, x);
      var i :| 0 <= i < |t| && t[i] == u;
      assert t[|topo|] in next[t[i]];
      assert topo[i] == u;
    }
  }

  /** When nothing is ready, the unplaced nodes are stuck. */
  lemma {:induction false} NothingReady(next: Edges, last: Edges, inDegree: map<int, int>, topo: seq<int>)
    requires Transposed(next, last) && SortState(next, last, inDegree, topo)
    requires |topo| < |next| && forall x :: x in inDegree ==> inDegree[x] != 0
    ensures !Acyclic(next)
  {
    var r := next.Keys - Elements(topo);
    if forall w :: w in next ==> w in topo {
      NoDupSize(topo);
      assert |next| == |next.Keys|;
      SubsetSize(next.Keys, Elements(topo));
    }
    var w :| w in next && w !in topo;
    assert w in r;
    forall v | v in r
      ensures HasPredIn(next, r, v)
    {
      PendingZero(last[v], Elements(topo));
      var u :| u in last[v] && u !in Elements(topo);
      assert Edge(next, u, v);
      assert u in r;
    }
    StuckSetHasCycle(next, r);
  }

  lemma {:induction false} AllPlaced(next: Edges, last: Edges, inDegree: map<int, int>, topo: seq<int>)
    requires WellFormed(next) && Transposed(next, last)
    requires SortState(next, last, inDegree, topo) && |topo| == |next|
    ensures IsTopoOrder(next, topo)
  {
    NoDupSize(topo);
    assert |next| == |next.Keys|;
    assert forall x :: x in Elements(topo) <==> x in topo;
    SameSize(Elements(topo), next.Keys);
    forall i, j | 0 <= i < |topo| && 0 <= j < |topo| && topo[j] in next[topo[i]]
      ensures i < j
    {
      assert Edge(next, topo[i], topo[j]);
      assert topo[i] in last[topo[j]];
      assert topo[i] in topo[..j];
    }
  }

  /** The order is returned exactly when the graph is acyclic, and it is then the lexicographically
      least one. `ok` is false where the source prints "error stage dag" and its next lookup throws. */
  method TopologicalSort(last: Edges, next: Edges) returns (ok: bool, topo: seq<int>)
    requires WellFormed(next) && Transposed(next, last)
    requires forall x :: x in next ==> 0 <= x
    ensures ok <==> Acyclic(next)
    ensures ok ==> IsTopoOrder(next, topo)
    ensures ok ==> forall t :: IsTopoOrder(next, t) ==> LexLeq(topo, t)
  {
    assert last.Keys == next.Keys;
    var inDegree := InitialDegrees(last);
    topo := [];
    assert Elements(topo) == {};
    forall x | x in next {
      PendingNone(last[x]);
    }
    var remain := |last|;
    assert |last| == |last.Keys| == |next.Keys| == |next|;
    while remain > 0
      invariant 0 <= remain && remain + |topo| == |next|
      invariant SortState(next, last, inDegree, topo)
      invariant LeastSoFar(next, topo)
    {
      var node := FirstReady(inDegree);
      if node < 0 {
        NothingReady(next, last, inDegree, topo);
        return false, topo;
      }
      PickKeepsLeast(next, last, inDegree, topo, node);
      var released := Release(inDegree[node := -1], next[node]);
      PickKeepsState(next, last, inDegree, topo, node, released);
      inDegree := released;
      topo := topo + [node];
      remain := remain - 1;
    }
    AllPlaced(next, last, inDegree, topo);
    TopoOrderIsAcyclic(next, topo);
    ok := true;
  }
}
