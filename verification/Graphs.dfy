/** Finite directed graphs over integer ids, as the compiler keeps them: one adjacency list per node.
    Lists stand for `std::vector<int>`, the map for `std::map<int, std::vector<int>>`. */
module Graphs {
  import opened Finite

  type Edges = map<int, seq<int>>

  /** Adjacency lists name nodes of the graph, without repetition. */
  ghost predicate WellFormed(next: Edges) {
    forall u :: u in next ==> NoDup(next[u]) && forall v :: v in next[u] ==> v in next
  }

  ghost predicate Edge(next: Edges, u: int, v: int) {
    u in next && v in next[u]
  }

  /** `last` lists, for every node, its predecessors in `next`. */
  ghost predicate Transposed(next: Edges, last: Edges) {
    && last.Keys == next.Keys
    && forall v :: v in last ==> NoDup(last[v]) && forall u :: u in last[v] <==> Edge(next, u, v)
  }

  /** A non-empty walk along the edges. */
  ghost predicate IsPath(next: Edges, p: seq<int>) {
    && p != []
    && (forall i :: 0 <= i < |p| ==> p[i] in next)
    && (forall i {:trigger p[i + 1]} :: 0 <= i < |p| - 1 ==> p[i + 1] in next[p[i]])
  }

  ghost predicate PathFromTo(next: Edges, p: seq<int>, u: int, v: int) {
    IsPath(next, p) && p[0] == u && p[|p| - 1] == v
  }

  ghost predicate Reaches(next: Edges, u: int, v: int) {
    exists p :: PathFromTo(next, p, u, v)
  }

  ghost predicate IsCycle(next: Edges, p: seq<int>) {
    IsPath(next, p) && |p| >= 2 && p[0] == p[|p| - 1]
  }

  ghost predicate Acyclic(next: Edges) {
    forall p :: !IsCycle(next, p)
  }

  /** The nodes, each once, every edge going forward. */
  ghost predicate IsTopoOrder(next: Edges, s: seq<int>) {
    && NoDup(s)
    && (forall x :: x in s <==> x in next)
    && (forall i, j :: 0 <= i < |s| && 0 <= j < |s| && s[j] in next[s[i]] ==> i < j)
  }

  /** Lexicographic order on integer lists; a prefix comes first. */
  ghost predicate LexLeq(s: seq<int>, t: seq<int>) {
    s <= t || exists i :: 0 <= i < |s| && i < |t| && s[..i] == t[..i] && s[i] < t[i]
  }

  // ----- walks

  lemma {:induction false} ExtendPath(next: Edges, p: seq<int>, v: int)
    requires IsPath(next, p) && v in next && v in next[p[|p| - 1]]
    ensures PathFromTo(next, p + [v], p[0], v)
  {
    var q := p + [v];
    forall i {:trigger q[i + 1]} | 0 <= i < |q| - 1
      ensures q[i + 1] in next[q[i]]
    {
      if i < |p| - 1 {
        assert q[i + 1] == p[i + 1];
      }
    }
  }

  lemma {:induction false} PathPrefix(next: Edges, p: seq<int>, k: nat)
    requires IsPath(next, p) && k < |p|
    ensures PathFromTo(next, p[..k + 1], p[0], p[k])
  {
    var q := p[..k + 1];
    forall i {:trigger q[i + 1]} | 0 <= i < |q| - 1
      ensures q[i + 1] in next[q[i]]
    {
      assert q[i + 1] == p[i + 1];
    }
  }

  /** The last edge of a walk of several nodes, and the walk without it. */
  lemma {:induction false} LastEdge(next: Edges, p: seq<int>)
    requires IsPath(next, p) && |p| > 1
    ensures Edge(next, p[|p| - 2], p[|p| - 1])
    ensures IsPath(next, p[..|p| - 1])
  {
    var i := |p| - 2;
    assert p[i + 1] in next[p[i]];
    PathPrefix(next, p, i);
    assert p[..i + 1] == p[..|p| - 1];
  }

  lemma {:induction false} PathSlice(next: Edges, p: seq<int>, i: nat, j: nat)
    requires IsPath(next, p) && i <= j < |p|
    ensures PathFromTo(next, p[i..j + 1], p[i], p[j])
  {
    var q := p[i..j + 1];
    forall k {:trigger q[k + 1]} | 0 <= k < |q| - 1
      ensures q[k + 1] in next[q[k]]
    {
      var m := i + k;
      assert p[m + 1] in next[p[m]];
      assert q[k + 1] == p[m + 1] && q[k] == p[m];
    }
  }

  lemma {:induction false} ReachesSelf(next: Edges, u: int)
    requires u in next
    ensures Reaches(next, u, u)
  {
    assert PathFromTo(next, [u], u, u);
  }

  lemma {:induction false} ReachesStep(next: Edges, u: int, v: int, w: int)
    requires Reaches(next, u, v) && w in next && w in next[v]
    ensures Reaches(next, u, w)
  {
    var p :| PathFromTo(next, p, u, v);
    ExtendPath(next, p, w);
  }

  /** The last edge of a walk that moves at all. */
  lemma {:induction false} ReachesLast(next: Edges, u: int, w: int)
    requires Reaches(next, u, w) && u != w
    ensures exists v :: Edge(next, v, w) && Reaches(next, u, v)
  {
    var p :| PathFromTo(next, p, u, w);
    assert |p| >= 2;
    LastEdge(next, p);
    PathPrefix(next, p, |p| - 2);
    assert Edge(next, p[|p| - 2], w);
  }

  lemma {:induction false} ReachesTransitive(next: Edges, u: int, v: int, p: seq<int>)
    requires Reaches(next, u, v) && IsPath(next, p) && p[0] == v
    ensures Reaches(next, u, p[|p| - 1])
    decreases |p|
  {
    if |p| > 1 {
      LastEdge(next, p);
      ReachesTransitive(next, u, v, p[..|p| - 1]);
      ReachesStep(next, u, p[|p| - 2], p[|p| - 1]);
    }
  }

  // ----- topological orders and cycles

  ghost function IndexIn(s: seq<int>, x: int): (i: nat)
    requires x in s
    ensures i < |s| && s[i] == x
  {
    var i :| 0 <= i < |s| && s[i] == x;
    i
  }

  /** A walk goes strictly forward in a topological order. */
  lemma {:induction false} PathGoesForward(next: Edges, s: seq<int>, p: seq<int>)
    requires IsTopoOrder(next, s) && IsPath(next, p)
    ensures |p| > 1 ==> IndexIn(s, p[0]) < IndexIn(s, p[|p| - 1])
    ensures p[0] in s && p[|p| - 1] in s
  {
    assert p[0] in next && p[|p| - 1] in next;
    if |p| > 1 {
      LastEdge(next, p);
      PathGoesForward(next, s, p[..|p| - 1]);
      assert s[IndexIn(s, p[|p| - 1])] in next[s[IndexIn(s, p[|p| - 2])]];
    }
  }

  lemma {:induction false} TopoOrderIsAcyclic(next: Edges, s: seq<int>)
    requires IsTopoOrder(next, s)
    ensures Acyclic(next)
  {
    forall p ensures !IsCycle(next, p) {
      if IsCycle(next, p) {
        PathGoesForward(next, s, p);
      }
    }
  }

  /** Everyone in `r` has a predecessor in `r`. */
  ghost predicate Stuck(next: Edges, r: set<int>) {
    forall v :: v in r ==> v in next && HasPredIn(next, r, v)
  }

  ghost predicate HasPredIn(next: Edges, r: set<int>, v: int) {
    exists u :: u in r && Edge(next, u, v)
  }

  lemma {:induction false} PrependPath(next: Edges, u: int, p: seq<int>)
    requires IsPath(next, p) && Edge(next, u, p[0])
    ensures IsPath(next, [u] + p)
  {
    var q := [u] + p;
    forall i {:trigger q[i + 1]} | 0 <= i < |q| - 1
      ensures q[i + 1] in next[q[i]]
    {
      if i > 0 {
        var j := i - 1;
        assert p[j + 1] in next[p[j]];
        assert q[i + 1] == p[j + 1] && q[i] == p[j];
      }
    }
  }

  /** Walking backwards inside a stuck set, for as long as one likes. */
  lemma {:induction false} BackwardPath(next: Edges, r: set<int>, n: nat) returns (p: seq<int>)
    requires r != {} && Stuck(next, r)
    ensures IsPath(next, p) && |p| == n + 1 && forall x :: x in p ==> x in r
  {
    if n == 0 {
      var v := SomeElement(r);
      p := [v];
    } else {
      var q := BackwardPath(next, r, n - 1);
      assert q[0] in q;
      assert HasPredIn(next, r, q[0]);
      var u :| u in r && Edge(next, u, q[0]);
      PrependPath(next, u, q);
      p := [u] + q;
    }
  }

  /** A stuck set contains a cycle. */
  lemma {:induction false} StuckSetHasCycle(next: Edges, r: set<int>)
    requires r != {} && Stuck(next, r)
    ensures !Acyclic(next)
  {
    var p := BackwardPath(next, r, |r|);
    if NoDup(p) {
      NoDupFits(p, r);
    }
    var i, j :| 0 <= i < j < |p| && p[i] == p[j];
    PathSlice(next, p, i, j);
    assert IsCycle(next, p[i..j + 1]);
  }
}
