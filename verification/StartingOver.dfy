/** Which lists of levels some packet starts over in (sw-src/dataplane/parser.h, `parse`): exactly those that come to
    level 0 once more behind an entry that accepts, led to by entries from level to level in the list's order. */
module StartingOver {
  import opened ParserTables
  import opened MeetOverPaths
  import opened Stages
  import opened Distribution
  import opened DistributedParsing

  // ----- what can become of a packet

  /** Some key is hit by an entry that goes on in state `s`. */
  ghost predicate CanGo(level: Level, l: int, s: int) {
    exists w: Word :: GoesTo(level, l, w, s)
  }

  predicate GoesTo(level: Level, l: int, w: Word, s: int) {
    FirstHit(level, l, w).Some? && Continues(FirstHit(level, l, w).value)
    && FirstHit(level, l, w).value.sram.nextState == s
  }

  ghost predicate CanAccept(level: Level, l: int) {
    exists w: Word :: Accepts(level, l, w)
  }

  predicate Accepts(level: Level, l: int, w: Word) {
    FirstHit(level, l, w).Some? && FirstHit(level, l, w).value.sram.acceptDrop == 0
  }

  /** After these levels a packet can be in state `s` with a key no level has been searched for. */
  ghost predicate CanBeIn(levels: seq<Level>, ids: seq<int>, s: int) {
    if ids == [] then s == 0
    else
      var front, l := ids[..|ids| - 1], ids[|ids| - 1];
      || (CanBeIn(levels, front, s) && (s != l || !(0 <= l < |levels|)))
      || (0 <= l < |levels| && CanBeIn(levels, front, l) && CanGo(levels[l], l, s))
  }

  /** Or have been accepted. */
  ghost predicate CanHaveEnded(levels: seq<Level>, ids: seq<int>) {
    ids != [] &&
    var front, l := ids[..|ids| - 1], ids[|ids| - 1];
    || CanHaveEnded(levels, front)
    || (0 <= l < |levels| && CanBeIn(levels, front, l) && CanAccept(levels[l], l))
  }

  /** Level 0 comes once more behind an entry that can accept. */
  ghost predicate CanStartOver(levels: seq<Level>, ids: seq<int>) {
    ids != [] &&
    var front, l := ids[..|ids| - 1], ids[|ids| - 1];
    CanStartOver(levels, front) || (l == 0 && CanHaveEnded(levels, front))
  }

  // ----- no packet does anything else

  lemma {:induction false} OtherLevel(levels: seq<Level>, l: int, phv: Phv, key: KeyReader)
    requires WellFormedLevels(levels) && 0 <= l < |levels| && phv.state != l && phv.missAct != 1
    ensures RunLevel(levels[l], phv, key) == phv
  {
    if FirstHit(levels[l], phv.state, phv.key).Some? {
      FirstHitIsHit(levels[l], phv.state, phv.key);
    }
  }

  /** It waits in a state it can be in, or for good. */
  ghost predicate Waits(levels: seq<Level>, ids: seq<int>, at: Phv) {
    || CanBeIn(levels, ids, at.state)
    || (0 <= at.state < |levels| && FirstHit(levels[at.state], at.state, at.key).None?)
  }

  lemma {:induction false} StepIsCovered(levels: seq<Level>, ids: seq<int>, l: int, at: Phv, key: KeyReader)
    requires WellFormedLevels(levels) && 0 <= l < |levels| && Coherent(at)
    requires !Ended(at) ==> Waits(levels, ids, at)
    requires Accepted(at) ==> CanHaveEnded(levels, ids) && l != 0
    ensures var next := RunLevel(levels[l], at, key);
      && Coherent(next)
      && (!Ended(next) ==> Waits(levels, ids + [l], next))
      && (Accepted(next) ==> CanHaveEnded(levels, ids + [l]))
  {
    var all, next := ids + [l], RunLevel(levels[l], at, key);
    assert all[..|all| - 1] == ids;
    FireIsCoherent(levels, l, at, key);
    if at.state != l && at.missAct != 1 {
      OtherLevel(levels, l, at, key);
    } else if !Ended(at) && FirstHit(levels[l], l, at.key).Some? {
      FirstHitIsHit(levels[l], l, at.key);
      assert Continues(FirstHit(levels[l], l, at.key).value) ==> GoesTo(levels[l], l, at.key, next.state);
      assert Accepted(next) ==> Accepts(levels[l], l, at.key);
    }
  }

  lemma {:induction false} RunIsCovered(levels: seq<Level>, ids: seq<int>, phv: Phv, key: KeyReader)
    requires WellFormedLevels(levels) && IsStart(phv) && !Restarts(levels, ids, phv, key)
    ensures var at := RunLevels(levels, ids, phv, key);
      && Coherent(at)
      && (!Ended(at) ==> Waits(levels, ids, at))
      && (Accepted(at) ==> CanHaveEnded(levels, ids))
  {
    if ids != [] {
      var front, l := ids[..|ids| - 1], ids[|ids| - 1];
      RunIsCovered(levels, front, phv, key);
      assert front + [l] == ids;
      if 0 <= l < |levels| {
        StepIsCovered(levels, front, l, RunLevels(levels, front, phv, key), key);
      }
    }
  }

  lemma {:induction false} RestartIsCovered(levels: seq<Level>, ids: seq<int>, phv: Phv, key: KeyReader)
    requires WellFormedLevels(levels) && IsStart(phv) && Restarts(levels, ids, phv, key)
    ensures CanStartOver(levels, ids)
  {
    var front := ids[..|ids| - 1];
    if Restarts(levels, front, phv, key) {
      RestartIsCovered(levels, front, phv, key);
    } else {
      RunIsCovered(levels, front, phv, key);
    }
  }

  // ----- and some packet does all of it

  /** The parse has not ended at any point. */
  ghost predicate Quiet(levels: seq<Level>, ids: seq<int>, phv: Phv, key: KeyReader) {
    && !Ended(RunLevels(levels, ids, phv, key))
    && (ids != [] ==> Quiet(levels, ids[..|ids| - 1], phv, key))
  }

  ghost predicate Below(headers: Headers, offset: int) {
    forall h :: h in headers ==> headers[h].offset < offset
  }

  ghost predicate AgreeBelow(a: KeyReader, b: KeyReader, offset: int) {
    forall hs, fs :: Below(hs, offset) ==> a(hs, fs) == b(hs, fs)
  }

  lemma {:induction false} StepBelow(levels: seq<Level>, l: int, at: Phv, a: KeyReader, b: KeyReader, offset: int)
    requires WellFormedLevels(levels) && PositiveLengths(levels) && 0 <= l < |levels|
    requires Below(at.headers, at.offset) && !Ended(at) && !Ended(RunLevel(levels[l], at, a))
    requires RunLevel(levels[l], at, a).offset <= offset && AgreeBelow(a, b, offset)
    ensures RunLevel(levels[l], at, b) == RunLevel(levels[l], at, a)
    ensures at.offset <= RunLevel(levels[l], at, a).offset
    ensures Below(RunLevel(levels[l], at, a).headers, RunLevel(levels[l], at, a).offset)
  {
    if FirstHit(levels[l], at.state, at.key).Some? {
      var e := FirstHit(levels[l], at.state, at.key).value;
      FirstHitIsHit(levels[l], at.state, at.key);
      var headers := at.headers[e.sram.headerId := Header(at.offset, e.sram.headerLength, true)];
      assert Below(headers, at.offset + e.sram.headerLength) && Below(headers, offset);
    }
  }

  /** What the packet holds behind the headers it has found does not matter. */
  lemma {:induction false} RunBelow(levels: seq<Level>, ids: seq<int>, phv: Phv, a: KeyReader, b: KeyReader,
                                    offset: int)
    requires WellFormedLevels(levels) && PositiveLengths(levels) && Below(phv.headers, phv.offset)
    requires Quiet(levels, ids, phv, a) && RunLevels(levels, ids, phv, a).offset <= offset && AgreeBelow(a, b, offset)
    ensures RunLevels(levels, ids, phv, b) == RunLevels(levels, ids, phv, a) && Quiet(levels, ids, phv, b)
    ensures Below(RunLevels(levels, ids, phv, a).headers, RunLevels(levels, ids, phv, a).offset)
  {
    if ids != [] {
      var front, l := ids[..|ids| - 1], ids[|ids| - 1];
      if 0 <= l < |levels| {
        GoesForward(levels, l, RunLevels(levels, front, phv, a), a);
      }
      RunBelow(levels, front, phv, a, b, offset);
      if 0 <= l < |levels| {
        StepBelow(levels, l, RunLevels(levels, front, phv, a), a, b, offset);
      }
    }
  }

  lemma {:induction false} GoesForward(levels: seq<Level>, l: int, at: Phv, key: KeyReader)
    requires WellFormedLevels(levels) && PositiveLengths(levels) && 0 <= l < |levels|
    ensures at.offset <= RunLevel(levels[l], at, key).offset
  {
    RunGoesForward(levels, l, at, key);
  }

  /** A packet that is in the state with the key. */
  lemma {:induction false} BringIn(levels: seq<Level>, ids: seq<int>, s: int, w: Word) returns (phv: Phv,
                                   key: KeyReader)
    requires WellFormedLevels(levels) && PositiveLengths(levels) && CanBeIn(levels, ids, s)
    ensures IsStart(phv) && phv.headers == map[] && Quiet(levels, ids, phv, key)
    ensures RunLevels(levels, ids, phv, key).state == s && RunLevels(levels, ids, phv, key).key == w
    ensures RunLevels(levels, ids, phv, key).missAct == 2
  {
    if ids == [] {
      phv, key := Phv(0, 0, map[], w, 2, false), (_, _) => 0;
    } else {
      var front, l := ids[..|ids| - 1], ids[|ids| - 1];
      if CanBeIn(levels, front, s) && (s != l || !(0 <= l < |levels|)) {
        phv, key := BringIn(levels, front, s, w);
        if 0 <= l < |levels| {
          OtherLevel(levels, l, RunLevels(levels, front, phv, key), key);
        }
      } else {
        var v: Word :| GoesTo(levels[l], l, v, s);
        var before;
        phv, before := BringIn(levels, front, l, v);
        key := ReadNext(levels, front, l, v, s, w, phv, before);
      }
    }
  }

  /** The packet can hold any key behind its headers. */
  lemma {:induction false} ReadNext(levels: seq<Level>, ids: seq<int>, l: int, v: Word, s: int, w: Word, phv: Phv,
                                    before: KeyReader) returns (key: KeyReader)
    requires WellFormedLevels(levels) && PositiveLengths(levels) && 0 <= l < |levels| && GoesTo(levels[l], l, v, s)
    requires phv.headers == map[] && Quiet(levels, ids, phv, before)
    requires var at := RunLevels(levels, ids, phv, before); at.state == l && at.key == v && at.missAct == 2
    ensures Quiet(levels, ids, phv, key) && RunLevels(levels, ids, phv, key) == RunLevels(levels, ids, phv, before)
    ensures var next := RunLevel(levels[l], RunLevels(levels, ids, phv, key), key);
            !Ended(next) && next.state == s && next.key == w && next.missAct == 2
  {
    var at, e := RunLevels(levels, ids, phv, before), FirstHit(levels[l], l, v).value;
    FirstHitIsHit(levels[l], l, v);
    var headers := at.headers[e.sram.headerId := Header(at.offset, e.sram.headerLength, true)];
    key := (hs, fs) => if hs == headers && fs == e.sram.transition then w else before(hs, fs);
    assert headers[e.sram.headerId].offset == at.offset && !Below(headers, at.offset);
    RunBelow(levels, ids, phv, before, key, at.offset);
  }

  lemma {:induction false} BringToEnd(levels: seq<Level>, ids: seq<int>) returns (phv: Phv, key: KeyReader)
    requires WellFormedLevels(levels) && PositiveLengths(levels) && CanHaveEnded(levels, ids)
    ensures IsStart(phv)
    ensures Restarts(levels, ids, phv, key) || Accepted(RunLevels(levels, ids, phv, key))
  {
    var front, l := ids[..|ids| - 1], ids[|ids| - 1];
    if CanHaveEnded(levels, front) {
      phv, key := BringToEnd(levels, front);
      if !Restarts(levels, ids, phv, key) && 0 <= l < |levels| {
        RunIsCovered(levels, front, phv, key);
        OtherLevel(levels, l, RunLevels(levels, front, phv, key), key);
      }
    } else {
      var w: Word :| Accepts(levels[l], l, w);
      phv, key := BringIn(levels, front, l, w);
    }
  }

  lemma {:induction false} BringOver(levels: seq<Level>, ids: seq<int>) returns (phv: Phv, key: KeyReader)
    requires WellFormedLevels(levels) && PositiveLengths(levels) && CanStartOver(levels, ids)
    ensures IsStart(phv) && Restarts(levels, ids, phv, key)
  {
    var front := ids[..|ids| - 1];
    if CanStartOver(levels, front) {
      phv, key := BringOver(levels, front);
    } else {
      phv, key := BringToEnd(levels, front);
    }
  }

  ghost predicate StartsOver(levels: seq<Level>, ids: seq<int>, phv: Phv, key: KeyReader) {
    IsStart(phv) && Restarts(levels, ids, phv, key)
  }

  ghost predicate SomeStartsOver(levels: seq<Level>, ids: seq<int>) {
    exists phv, key :: StartsOver(levels, ids, phv, key)
  }

  /** Some packet starts over exactly if the list comes to level 0 behind an entry that can accept. */
  lemma {:induction false} SomeStartsOverIff(levels: seq<Level>, ids: seq<int>)
    requires WellFormedLevels(levels) && PositiveLengths(levels)
    ensures SomeStartsOver(levels, ids) <==> CanStartOver(levels, ids)
  {
    if CanStartOver(levels, ids) {
      var phv, key := BringOver(levels, ids);
      assert StartsOver(levels, ids, phv, key);
    }
    if SomeStartsOver(levels, ids) {
      var phv, key :| StartsOver(levels, ids, phv, key);
      RestartIsCovered(levels, ids, phv, key);
    }
  }

  // ----- on the paths of a program

  ghost predicate PathStartsOver(levels: seq<Level>, stages: seq<Stage>, own: Lists, path: seq<int>, phv: Phv,
                                 key: KeyReader) {
    SourcePath(StageGraph(stages), path) && IsStart(phv) && RestartsOn(levels, own, path, phv, key)
  }

  ghost predicate PathCanStartOver(levels: seq<Level>, stages: seq<Stage>, own: Lists, path: seq<int>) {
    SourcePath(StageGraph(stages), path) && CanStartOver(levels, Flat(own, path))
  }

  /** Some packet starts over on some path exactly if on some path the stages' levels come to level 0 behind an entry
      that can accept. */
  lemma {:induction false} SomePathStartsOverIff(levels: seq<Level>, stages: seq<Stage>, own: Lists)
    requires WellFormedLevels(levels) && PositiveLengths(levels)
    ensures (exists path, phv, key :: PathStartsOver(levels, stages, own, path, phv, key)) <==>
            (exists path :: PathCanStartOver(levels, stages, own, path))
  {
    if path, phv, key :| PathStartsOver(levels, stages, own, path, phv, key) {
      assert StartsOver(levels, Flat(own, path), phv, key);
      SomeStartsOverIff(levels, Flat(own, path));
      assert PathCanStartOver(levels, stages, own, path);
    }
    if path :| PathCanStartOver(levels, stages, own, path) {
      SomeStartsOverIff(levels, Flat(own, path));
      var phv, key :| StartsOver(levels, Flat(own, path), phv, key);
      assert PathStartsOver(levels, stages, own, path, phv, key);
    }
  }
}
