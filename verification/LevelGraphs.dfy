/** The graph whose edges say that one parser level hands over to another, and what running levels
    "ancestors first" guarantees. */
module LevelGraphs {
  import opened Finite
  import opened Graphs
  import opened ParserTables

  /** `std::find` followed by `push_back` when absent. */
  function PushNew(s: seq<int>, x: int): (r: seq<int>)
    requires NoDup(s)
    ensures NoDup(r)
    ensures forall y :: y in r <==> y in s || y == x
  {
    if x in s then s else s + [x]
  }

  /** `e` hands over to level `t`. */
  predicate LeadsTo(e: LevelEntry, t: int) {
    Continues(e) && e.sram.nextState == t
  }

  ghost predicate HandsOver(level: Level, t: int) {
    exists e :: e in level && LeadsTo(e, t)
  }

  lemma {:induction false} HandsOverLast(front: Level, e: LevelEntry, t: int)
    ensures HandsOver(front + [e], t) <==> HandsOver(front, t) || LeadsTo(e, t)
  {
    var level := front + [e];
    assert forall x :: x in level <==> x in front || x == e;
    if HandsOver(front, t) {
      var f :| f in front && LeadsTo(f, t);
      assert f in level;
    }
    if LeadsTo(e, t) {
      assert e in level;
    }
  }

  function Targets(level: Level): (r: seq<int>)
    ensures NoDup(r)
    ensures forall t :: t in r <==> HandsOver(level, t)
  {
    if level == [] then []
    else
      var front := level[..|level| - 1];
      var e := level[|level| - 1];
      var r := Targets(front);
      assert forall t :: HandsOver(level, t) <==> HandsOver(front, t) || LeadsTo(e, t) by {
        assert level == front + [e];
        forall t { HandsOverLast(front, e, t); }
      }
      if Continues(e) then PushNew(r, e.sram.nextState) else r
  }

  ghost function LevelGraph(levels: seq<Level>): Edges {
    map u | 0 <= u < |levels| :: Targets(levels[u])
  }

  lemma {:induction false} LevelGraphWellFormed(levels: seq<Level>)
    requires WellFormedLevels(levels)
    ensures WellFormed(LevelGraph(levels))
  {
    var next := LevelGraph(levels);
    forall u, v | u in next && v in next[u]
      ensures v in next
    {
      assert HandsOver(levels[u], v);
      var e :| e in levels[u] && LeadsTo(e, v);
    }
  }

  ghost predicate LevelExtracts(level: Level, h: int) {
    exists e :: e in level && EntryExtracts(e, h)
  }

  predicate EntryExtracts(e: LevelEntry, h: int) {
    Continues(e) && e.sram.headerId == h
  }

  lemma {:induction false} LevelExtractsLast(front: Level, e: LevelEntry, h: int)
    ensures LevelExtracts(front + [e], h) <==> LevelExtracts(front, h) || EntryExtracts(e, h)
  {
    var level := front + [e];
    assert forall x :: x in level <==> x in front || x == e;
    if LevelExtracts(front, h) {
      var f :| f in front && EntryExtracts(f, h);
      assert f in level;
    }
    if EntryExtracts(e, h) {
      assert e in level;
    }
  }

  /** Level `l` can extract header `h`. */
  ghost predicate Extracts(levels: seq<Level>, l: int, h: int) {
    0 <= l < |levels| && LevelExtracts(levels[l], h)
  }

  /** Nothing runs before all its ancestors have run. */
  ghost predicate AncestorsFirst(next: Edges, ids: seq<int>) {
    forall n, a :: 0 <= n < |ids| && Reaches(next, a, ids[n]) && a != ids[n] ==> a in ids[..n]
  }

  lemma {:induction false} TopoOrderIsAncestorsFirst(next: Edges, s: seq<int>)
    requires IsTopoOrder(next, s)
    ensures AncestorsFirst(next, s)
  {
    forall n, a | 0 <= n < |s| && Reaches(next, a, s[n]) && a != s[n]
      ensures a in s[..n]
    {
      var p :| PathFromTo(next, p, a, s[n]);
      PathGoesForward(next, s, p);
      assert s[..n][IndexIn(s, a)] == a;
    }
  }

  /** Every element of the chain is a proper ancestor of the next. */
  ghost predicate AncestorChain(next: Edges, chain: seq<int>) {
    forall k {:trigger chain[k + 1]} :: 0 <= k < |chain| - 1 ==>
      chain[k] != chain[k + 1] && Reaches(next, chain[k], chain[k + 1])
  }

  /** A list that runs ancestors first and contains `chain[k]` has worked off `chain[0..k]` by then,
      whatever else it runs and however often. */
  lemma {:induction false} AncestorsRun(next: Edges, chain: seq<int>, ids: seq<int>, n: nat, k: nat)
    requires AncestorsFirst(next, ids) && AncestorChain(next, chain)
    requires n <= |ids| && k < |chain| && chain[k] in ids[..n]
    ensures Matched(chain, ids[..n]) > k
  {
    var j :| 0 <= j < n && ids[j] == chain[k];
    if k > 0 {
      var i := k - 1;
      assert chain[i] != chain[i + 1] && Reaches(next, chain[i], chain[i + 1]);
      AncestorsRun(next, chain, ids, j, i);
    }
    var upTo := ids[..j + 1];
    assert upTo[..|upTo| - 1] == ids[..j];
    assert Matched(chain, upTo) > k;
    assert ids[..n][..j + 1] == upTo;
    MatchedGrows(chain, ids[..n], j + 1);
  }

  /** A step that goes on extracting leads along an edge of the level graph. */
  lemma {:induction false} StepFollowsEdge(levels: seq<Level>, k: nat, phv: Phv, key: KeyReader)
    requires WellFormedLevels(levels) && IsStart(phv)
    requires FiresAt(levels, k, phv, key) && FiresAt(levels, k + 1, phv, key)
    ensures Edge(LevelGraph(levels), Chase(levels, k, phv, key).state, Chase(levels, k + 1, phv, key).state)
  {
    var at := Chase(levels, k, phv, key);
    FirstHitIsHit(levels[at.state], at.state, at.key);
    var e := FirstHit(levels[at.state], at.state, at.key).value;
    assert Chase(levels, k + 1, phv, key) == Fire(at, e.sram, key);
    assert e in levels[at.state] && LeadsTo(e, e.sram.nextState);
    assert HandsOver(levels[at.state], e.sram.nextState);
  }

  lemma {:induction false} EdgeIsProper(next: Edges, u: int, v: int)
    requires WellFormed(next) && Acyclic(next) && Edge(next, u, v)
    ensures u != v && Reaches(next, u, v)
  {
    ReachesSelf(next, u);
    ReachesStep(next, u, u, v);
    if u == v {
      assert [u, v][0 + 1] in next[u];
      assert IsCycle(next, [u, v]);
    }
  }

  lemma {:induction false} FiredIsChain(levels: seq<Level>, n: nat, phv: Phv, key: KeyReader)
    requires WellFormedLevels(levels) && IsStart(phv) && Acyclic(LevelGraph(levels))
    ensures AncestorChain(LevelGraph(levels), Fired(levels, n, phv, key))
  {
    var next := LevelGraph(levels);
    LevelGraphWellFormed(levels);
    FiredSteps(levels, n, phv, key);
    var chain := Fired(levels, n, phv, key);
    forall k {:trigger chain[k + 1]} | 0 <= k < |chain| - 1
      ensures chain[k] != chain[k + 1] && Reaches(next, chain[k], chain[k + 1])
    {
      StepFollowsEdge(levels, k, phv, key);
      EdgeIsProper(next, chain[k], chain[k + 1]);
    }
  }

  // ----- what a packet knows of one header

  /** The header is at the same place in both, or in neither. */
  predicate SameHeader(a: Headers, b: Headers, h: int) {
    (h in a <==> h in b) && (h in a ==> a[h] == b[h])
  }

  /** A header stays where it is while no level that extracts it fires and the parse does not end, which is
      recorded as header 0. */
  lemma {:induction false} HeaderStays(levels: seq<Level>, d: nat, m: nat, phv: Phv, key: KeyReader, h: int)
    requires d <= m && (h != 0 || !Ended(Chase(levels, m, phv, key)))
    requires WellFormedLevels(levels)
    requires forall k :: d <= k < m && FiresAt(levels, k, phv, key) ==>
               !Extracts(levels, Chase(levels, k, phv, key).state, h)
    ensures SameHeader(Chase(levels, d, phv, key).headers, Chase(levels, m, phv, key).headers, h)
    decreases m
  {
    if d < m {
      var at := Chase(levels, m - 1, phv, key);
      HeaderStays(levels, d, m - 1, phv, key, h);
      if FiresAt(levels, m - 1, phv, key) {
        FirstHitIsHit(levels[at.state], at.state, at.key);
        var e := FirstHit(levels[at.state], at.state, at.key).value;
        assert e in levels[at.state] && (Continues(e) && e.sram.headerId == h ==> EntryExtracts(e, h));
      }
    }
  }

  /** Header 0 is not the mark that a parse has ended. */
  predicate Unmarked(headers: Headers) {
    0 in headers ==> !headers[0].valid || headers[0].length > 0
  }

  lemma {:induction false} UnmarkedUntilEnd(levels: seq<Level>, n: nat, phv: Phv, key: KeyReader)
    requires WellFormedLevels(levels) && PositiveLengths(levels) && IsStart(phv) && Unmarked(phv.headers)
    ensures Unmarked(Chase(levels, n, phv, key).headers) <==> !Ended(Chase(levels, n, phv, key))
  {
    if n > 0 {
      var at := Chase(levels, n - 1, phv, key);
      UnmarkedUntilEnd(levels, n - 1, phv, key);
      if FiresAt(levels, n - 1, phv, key) {
        FirstHitIsHit(levels[at.state], at.state, at.key);
      }
    }
  }

  /** Running every level once in topological order works off the whole chain. */
  lemma {:induction false} AllMatched(next: Edges, chain: seq<int>, all: seq<int>)
    requires AncestorChain(next, chain) && IsTopoOrder(next, all)
    requires forall k :: 0 <= k < |chain| ==> chain[k] in next
    ensures Matched(chain, all) == |chain|
  {
    var m := Matched(chain, all);
    if m < |chain| {
      TopoOrderIsAncestorsFirst(next, all);
      assert all[..|all|] == all;
      var c := chain[m];
      assert c in next;
      assert c in all;
      AncestorsRun(next, chain, all, |all|, m);
    }
  }

  lemma {:induction false} FiredLevelsExist(levels: seq<Level>, n: nat, phv: Phv, key: KeyReader)
    ensures forall k :: 0 <= k < |Fired(levels, n, phv, key)| ==> Fired(levels, n, phv, key)[k] in LevelGraph(levels)
  {
    FiredSteps(levels, n, phv, key);
    forall k | 0 <= k < |Fired(levels, n, phv, key)|
      ensures Fired(levels, n, phv, key)[k] in LevelGraph(levels)
    {
      assert FiresAt(levels, k, phv, key);
    }
  }

  /** Steps a list has not worked off extract nothing that all levels in the list are there to extract. */
  lemma {:induction false} NotAhead(levels: seq<Level>, part: seq<int>, n: nat, phv: Phv, key: KeyReader, h: int,
                                    k: nat)
    requires AncestorsFirst(LevelGraph(levels), part)
    requires AncestorChain(LevelGraph(levels), Fired(levels, n, phv, key))
    requires forall l :: Extracts(levels, l, h) ==> l in part
    requires Matched(Fired(levels, n, phv, key), part) <= k < |Fired(levels, n, phv, key)|
    ensures !Extracts(levels, Fired(levels, n, phv, key)[k], h)
  {
    var chain := Fired(levels, n, phv, key);
    if Extracts(levels, chain[k], h) {
      assert part[..|part|] == part;
      assert chain[k] in part;
      AncestorsRun(LevelGraph(levels), chain, part, |part|, k);
    }
  }

  /** What running every level once in topological order amounts to: the whole chain. */
  lemma {:induction false} FullRunIsChain(levels: seq<Level>, all: seq<int>, n: nat, phv: Phv, key: KeyReader)
    requires WellFormedLevels(levels) && IsStart(phv) && IsTopoOrder(LevelGraph(levels), all) && |all| < n
    ensures AncestorChain(LevelGraph(levels), Fired(levels, n, phv, key)) && |Fired(levels, n, phv, key)| <= |all|
    ensures RunLevels(levels, all, phv, key) == Chase(levels, |Fired(levels, n, phv, key)|, phv, key)
  {
    ZeroOnceNeverRestarts(levels, all, phv, key);
    RunIsChase(levels, all, n, phv, key);
    TopoOrderIsAcyclic(LevelGraph(levels), all);
    FiredIsChain(levels, n, phv, key);
    FiredLevelsExist(levels, n, phv, key);
    AllMatched(LevelGraph(levels), Fired(levels, n, phv, key), all);
  }

  /** Running every level once in topological order is the whole run of the state machine. */
  lemma {:induction false} FullRunIsWholeRun(levels: seq<Level>, all: seq<int>, n: nat, phv: Phv, key: KeyReader)
    requires WellFormedLevels(levels) && IsStart(phv) && IsTopoOrder(LevelGraph(levels), all) && n >= |all|
    ensures RunLevels(levels, all, phv, key) == Chase(levels, n, phv, key)
  {
    FullRunIsChain(levels, all, |all| + 1, phv, key);
    FiredStops(levels, |all| + 1, phv, key);
    StoppedStays(levels, |Fired(levels, |all| + 1, phv, key)|, n, phv, key);
  }

  /** The machine goes on from step `d` to step `m` without extracting `h`. */
  ghost predicate GoesOnWithout(levels: seq<Level>, d: nat, m: nat, phv: Phv, key: KeyReader, h: int) {
    forall k :: d <= k < m ==>
      FiresAt(levels, k, phv, key) && !Extracts(levels, Chase(levels, k, phv, key).state, h)
  }

  lemma {:induction false} LaterAgrees(levels: seq<Level>, d: nat, m: nat, phv: Phv, key: KeyReader, h: int)
    requires WellFormedLevels(levels) && PositiveLengths(levels) && IsStart(phv) && Unmarked(phv.headers)
    requires d <= m && GoesOnWithout(levels, d, m, phv, key, h)
    ensures var here, full := Chase(levels, d, phv, key), Chase(levels, m, phv, key);
            SameHeader(here.headers, full.headers, h) <==> h != 0 || (Ended(full) ==> Ended(here))
  {
    if h != 0 || !Ended(Chase(levels, m, phv, key)) {
      HeaderStays(levels, d, m, phv, key, h);
    } else if d < m {
      assert FiresAt(levels, d, phv, key);
      UnmarkedUntilEnd(levels, d, phv, key);
      UnmarkedUntilEnd(levels, m, phv, key);
    }
  }

  ghost predicate FiresUpTo(levels: seq<Level>, m: nat, phv: Phv, key: KeyReader) {
    && (forall k :: 0 <= k < m ==> FiresAt(levels, k, phv, key))
    && !FiresAt(levels, m, phv, key)
  }

  /** A partial and the full run as numbers of steps. */
  lemma {:induction false} RunsInSteps(levels: seq<Level>, part: seq<int>, all: seq<int>, phv: Phv, key: KeyReader,
                                       h: int) returns (d: nat, m: nat)
    requires WellFormedLevels(levels) && IsTopoOrder(LevelGraph(levels), all) && IsStart(phv)
    requires AncestorsFirst(LevelGraph(levels), part) && !Restarts(levels, part, phv, key)
    requires forall l :: Extracts(levels, l, h) ==> l in part
    ensures d <= m <= |all| && FiresUpTo(levels, m, phv, key) && GoesOnWithout(levels, d, m, phv, key, h)
    ensures RunLevels(levels, part, phv, key) == Chase(levels, d, phv, key)
    ensures RunLevels(levels, all, phv, key) == Chase(levels, m, phv, key)
  {
    var n := |part| + |all| + 1;
    var chain := Fired(levels, n, phv, key);
    RunIsChase(levels, part, n, phv, key);
    FullRunIsChain(levels, all, n, phv, key);
    d, m := Matched(chain, part), |chain|;
    FiredSteps(levels, n, phv, key);
    FiredStops(levels, n, phv, key);
    forall k | d <= k < m
      ensures FiresAt(levels, k, phv, key) && !Extracts(levels, Chase(levels, k, phv, key).state, h)
    {
      NotAhead(levels, part, n, phv, key, h, k);
    }
  }

  /** `part` runs ancestors first, contains every level that can extract `h`, and does not restart; `all` runs
      every level once in topological order. Then both leave header `h` at the same place. Header 0 is where the end
      of the parse is recorded, so it agrees exactly if `part` ends the parse too. */
  lemma {:induction false} PartialRunAgrees(levels: seq<Level>, part: seq<int>, all: seq<int>, phv: Phv,
                                            key: KeyReader, h: int)
    requires WellFormedLevels(levels) && PositiveLengths(levels) && IsTopoOrder(LevelGraph(levels), all)
    requires IsStart(phv) && Unmarked(phv.headers)
    requires AncestorsFirst(LevelGraph(levels), part) && !Restarts(levels, part, phv, key)
    requires forall l :: Extracts(levels, l, h) ==> l in part
    ensures var here, full := RunLevels(levels, part, phv, key), RunLevels(levels, all, phv, key);
            SameHeader(here.headers, full.headers, h) <==> h != 0 || (Ended(full) ==> Ended(here))
  {
    var d, m := RunsInSteps(levels, part, all, phv, key, h);
    LaterAgrees(levels, d, m, phv, key, h);
  }

  // ----- the graph, by the entries

  /** Level `u` leads to `v` by the next state of an entry that neither accepts nor drops. */
  lemma {:induction false} LevelEdgeIff(levels: seq<Level>, u: int, v: int)
    ensures Edge(LevelGraph(levels), u, v) <==>
            0 <= u < |levels| && exists e :: e in levels[u] && e.sram.acceptDrop >= 2 && e.sram.nextState == v
  {
    if 0 <= u < |levels| {
      if e :| e in levels[u] && e.sram.acceptDrop >= 2 && e.sram.nextState == v {
        assert LeadsTo(e, v);
      }
      if e :| e in levels[u] && LeadsTo(e, v) {
        assert e.sram.acceptDrop >= 2 && e.sram.nextState == v;
      }
    }
  }

  /** A level extracts the header of such an entry. */
  lemma {:induction false} ExtractsIff(levels: seq<Level>, l: int, h: int)
    ensures Extracts(levels, l, h) <==>
            0 <= l < |levels| && exists e :: e in levels[l] && e.sram.acceptDrop >= 2 && e.sram.headerId == h
  {
    if 0 <= l < |levels| {
      if e :| e in levels[l] && e.sram.acceptDrop >= 2 && e.sram.headerId == h {
        assert EntryExtracts(e, h);
      }
      if e :| e in levels[l] && EntryExtracts(e, h) {
        assert e.sram.acceptDrop >= 2 && e.sram.headerId == h;
      }
    }
  }
}
