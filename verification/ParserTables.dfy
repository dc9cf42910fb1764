/** The parser tables and how a packet runs through them (sw-src/dataplane/parser.h, `parse`). A level fires its
    first entry that waits for the packet's state and whose masked key is the entry's; what it does then it does
    for accept and drop entries too. */
module ParserTables {
  import opened Options
  import opened Powers

  /** A 32-bit word, as an unsigned number. */
  type Word = x: nat | x < 0x1_0000_0000

  /** A field a transition reads: header id, offset inside the header, length. */
  datatype Field = Field(headerId: int, offset: int, length: int)

  datatype TcamEntry = TcamEntry(currentState: int, entry: Word, mask: Word)

  /** `acceptDrop` is 0 for accept, 1 for drop, 2 for a further extract. */
  datatype SramEntry = SramEntry(headerId: int, headerLength: int, nextState: int,
                                 transition: seq<Field>, acceptDrop: int)

  datatype LevelEntry = LevelEntry(tcam: TcamEntry, sram: SramEntry)

  type Level = seq<LevelEntry>

  /** Where a header starts in the packet, how long it is, and its bit in the bitmap of valid headers. */
  datatype Header = Header(offset: int, length: int, valid: bool)

  type Headers = map<int, Header>

  /** The parser's part of a packet header vector. `key` is read when a header is extracted. */
  datatype Phv = Phv(state: int, offset: int, headers: Headers, key: Word, missAct: int, dropped: bool)

  /** What a packet holds in the fields a transition selects on, its headers lying where they lie. */
  type KeyReader = (Headers, seq<Field>) -> Word

  predicate IsStart(phv: Phv) {
    phv.state == 0 && phv.offset == 0 && phv.missAct == 2 && !phv.dropped
  }

  predicate Accepted(phv: Phv) {
    phv.missAct == 0 && !phv.dropped
  }

  predicate Ended(phv: Phv) {
    phv.missAct < 2 || phv.dropped
  }

  predicate Continues(e: LevelEntry) {
    e.sram.acceptDrop >= 2
  }

  /** Entries of level `i` wait for state `i`. They go on in a level that exists, or they end the parse and are
      zero otherwise. */
  ghost predicate WellFormedLevels(levels: seq<Level>) {
    forall i, e :: 0 <= i < |levels| && e in levels[i] ==>
      && e.tcam.currentState == i
      && 0 <= e.sram.acceptDrop <= 2
      && (Continues(e) ==> 0 <= e.sram.nextState < |levels|)
      && (!Continues(e) ==> e.sram == SramEntry(0, 0, 0, [], e.sram.acceptDrop))
  }

  ghost predicate PositiveLengths(levels: seq<Level>) {
    forall i, e :: 0 <= i < |levels| && e in levels[i] && Continues(e) ==> e.sram.headerLength > 0
  }

  /** Level 0 extracts a header whatever the packet. */
  ghost predicate AlwaysStarts(levels: seq<Level>) {
    && levels != []
    && forall w: Word :: FirstHit(levels[0], 0, w).Some? && Continues(FirstHit(levels[0], 0, w).value)
  }

  predicate Hits(e: LevelEntry, state: int, key: Word) {
    e.tcam.currentState == state && e.tcam.entry == BitAnd(key, e.tcam.mask)
  }

  function FirstHit(level: Level, state: int, key: Word): Option<LevelEntry> {
    if level == [] then None
    else if Hits(level[0], state, key) then Some(level[0])
    else FirstHit(level[1..], state, key)
  }

  lemma {:induction false} FirstHitIsHit(level: Level, state: int, key: Word)
    requires FirstHit(level, state, key).Some?
    ensures FirstHit(level, state, key).value in level
    ensures Hits(FirstHit(level, state, key).value, state, key)
  {
    if !Hits(level[0], state, key) {
      FirstHitIsHit(level[1..], state, key);
    }
  }

  /** An entry records its header, moves on and takes over the state before anything else. Only then does accept or
      drop keep it from reading the next key. */
  function Fire(phv: Phv, s: SramEntry, key: KeyReader): Phv {
    var headers := phv.headers[s.headerId := Header(phv.offset, s.headerLength, true)];
    Phv(s.nextState, phv.offset + s.headerLength, headers,
        if s.acceptDrop < 2 then phv.key else key(headers, s.transition), s.acceptDrop, s.acceptDrop == 1)
  }

  /** One level applied to a packet. Nothing happens to a dropped packet, nor to one no entry is hit by. */
  function RunLevel(level: Level, phv: Phv, key: KeyReader): Phv {
    if phv.dropped then phv
    else
      match FirstHit(level, phv.state, phv.key)
      case None => if phv.missAct == 1 then phv.(dropped := true) else phv
      case Some(e) => Fire(phv, e.sram, key)
  }

  /** The levels named in `ids`, applied in that order. */
  function RunLevels(levels: seq<Level>, ids: seq<int>, phv: Phv, key: KeyReader): Phv {
    if ids == [] then phv
    else
      var before := RunLevels(levels, ids[..|ids| - 1], phv, key);
      var l := ids[|ids| - 1];
      if 0 <= l < |levels| then RunLevel(levels[l], before, key) else before
  }

  // ----- the state machine the tables describe

  function Step(levels: seq<Level>, at: Phv, key: KeyReader): Phv {
    if Ended(at) || !(0 <= at.state < |levels|) then at else RunLevel(levels[at.state], at, key)
  }

  /** Always apply the level the packet waits for, until the parse ends. */
  function Chase(levels: seq<Level>, n: nat, phv: Phv, key: KeyReader): Phv {
    if n == 0 then phv else Step(levels, Chase(levels, n - 1, phv, key), key)
  }

  /** The level waited for after `n` steps would fire. */
  ghost predicate FiresAt(levels: seq<Level>, n: nat, phv: Phv, key: KeyReader) {
    var at := Chase(levels, n, phv, key);
    && !Ended(at)
    && 0 <= at.state < |levels|
    && FirstHit(levels[at.state], at.state, at.key).Some?
  }

  /** The levels that fire, in order, in the first `n` steps, up to the first step that does not. */
  ghost function Fired(levels: seq<Level>, n: nat, phv: Phv, key: KeyReader): seq<int> {
    if n == 0 then []
    else
      var r := Fired(levels, n - 1, phv, key);
      if |r| == n - 1 && FiresAt(levels, n - 1, phv, key)
      then r + [Chase(levels, n - 1, phv, key).state]
      else r
  }

  /** The list `r` records the firing levels of the steps it covers. */
  ghost predicate RecordsSteps(levels: seq<Level>, r: seq<int>, phv: Phv, key: KeyReader) {
    forall k :: 0 <= k < |r| ==>
      FiresAt(levels, k, phv, key) && r[k] == Chase(levels, k, phv, key).state
  }

  lemma {:induction false} FiredSteps(levels: seq<Level>, n: nat, phv: Phv, key: KeyReader)
    ensures |Fired(levels, n, phv, key)| <= n
    ensures RecordsSteps(levels, Fired(levels, n, phv, key), phv, key)
  {
    if n > 0 {
      FiredSteps(levels, n - 1, phv, key);
    }
  }

  lemma {:induction false} FiredStops(levels: seq<Level>, n: nat, phv: Phv, key: KeyReader)
    requires |Fired(levels, n, phv, key)| < n
    ensures !FiresAt(levels, |Fired(levels, n, phv, key)|, phv, key)
  {
    FiredSteps(levels, n - 1, phv, key);
    if |Fired(levels, n - 1, phv, key)| < n - 1 {
      FiredStops(levels, n - 1, phv, key);
    }
  }

  /** A machine that does not fire never fires again. */
  lemma {:induction false} StoppedStays(levels: seq<Level>, m: nat, n: nat, phv: Phv, key: KeyReader)
    requires WellFormedLevels(levels) && IsStart(phv)
    requires m <= n && !FiresAt(levels, m, phv, key)
    ensures Chase(levels, n, phv, key) == Chase(levels, m, phv, key)
    decreases n
  {
    if m < n {
      StoppedStays(levels, m, n - 1, phv, key);
    }
  }

  /** A packet that was dropped says so, and one whose parse has ended waits for state 0 again. */
  predicate Coherent(phv: Phv) {
    && 0 <= phv.missAct <= 2
    && (phv.dropped <==> phv.missAct == 1)
    && (Ended(phv) ==> phv.state == 0)
  }

  lemma {:induction false} FireIsCoherent(levels: seq<Level>, l: int, phv: Phv, key: KeyReader)
    requires WellFormedLevels(levels) && 0 <= l < |levels| && Coherent(phv)
    ensures Coherent(RunLevel(levels[l], phv, key))
  {
    if FirstHit(levels[l], phv.state, phv.key).Some? {
      FirstHitIsHit(levels[l], phv.state, phv.key);
    }
  }

  lemma {:induction false} ChaseIsCoherent(levels: seq<Level>, n: nat, phv: Phv, key: KeyReader)
    requires WellFormedLevels(levels) && IsStart(phv)
    ensures Coherent(Chase(levels, n, phv, key))
  {
    if n > 0 {
      ChaseIsCoherent(levels, n - 1, phv, key);
      var at := Chase(levels, n - 1, phv, key);
      if 0 <= at.state < |levels| {
        FireIsCoherent(levels, at.state, at, key);
      }
    }
  }

  /** How much of `chain` the list `ids` works off, taking its elements in turn. */
  ghost function Matched(chain: seq<int>, ids: seq<int>): (d: nat)
    ensures d <= |chain| && d <= |ids|
  {
    if ids == [] then 0
    else
      var d := Matched(chain, ids[..|ids| - 1]);
      if d < |chain| && chain[d] == ids[|ids| - 1] then d + 1 else d
  }

  lemma {:induction false} MatchedGrows(chain: seq<int>, ids: seq<int>, n: nat)
    requires n <= |ids|
    ensures Matched(chain, ids[..n]) <= Matched(chain, ids)
    decreases |ids|
  {
    if n < |ids| {
      assert ids[..|ids| - 1][..n] == ids[..n];
      MatchedGrows(chain, ids[..|ids| - 1], n);
    } else {
      assert ids[..n] == ids;
    }
  }

  // ----- running levels in a list

  /** Accepting puts a packet back to state 0, in which level 0 fires again: somewhere in the list level 0
      meets a packet that has been accepted. */
  ghost predicate Restarts(levels: seq<Level>, ids: seq<int>, phv: Phv, key: KeyReader) {
    ids != [] &&
    var front := ids[..|ids| - 1];
    || Restarts(levels, front, phv, key)
    || (ids[|ids| - 1] == 0 && Accepted(RunLevels(levels, front, phv, key)))
  }

  /** One level either makes the step the packet waits for or changes nothing. */
  lemma {:induction false} RunLevelIsStepOrNothing(levels: seq<Level>, l: int, d: nat, phv: Phv, key: KeyReader)
    requires WellFormedLevels(levels) && IsStart(phv) && 0 <= l < |levels|
    requires l == 0 ==> !Accepted(Chase(levels, d, phv, key))
    ensures RunLevel(levels[l], Chase(levels, d, phv, key), key) ==
      if FiresAt(levels, d, phv, key) && Chase(levels, d, phv, key).state == l
      then Chase(levels, d + 1, phv, key) else Chase(levels, d, phv, key)
  {
    var at := Chase(levels, d, phv, key);
    ChaseIsCoherent(levels, d, phv, key);
    if FirstHit(levels[l], at.state, at.key).Some? {
      FirstHitIsHit(levels[l], at.state, at.key);
    }
  }

  /** One more level, when the chain has been worked off. */
  lemma {:induction false} NothingFollows(levels: seq<Level>, l: int, n: nat, phv: Phv, key: KeyReader)
    requires WellFormedLevels(levels) && IsStart(phv) && 0 <= l < |levels| && |Fired(levels, n, phv, key)| < n
    requires l == 0 ==> !Accepted(Chase(levels, |Fired(levels, n, phv, key)|, phv, key))
    ensures var at := Chase(levels, |Fired(levels, n, phv, key)|, phv, key);
            RunLevel(levels[l], at, key) == at
  {
    FiredStops(levels, n, phv, key);
    RunLevelIsStepOrNothing(levels, l, |Fired(levels, n, phv, key)|, phv, key);
  }

  /** One more level, in the middle of the chain. */
  lemma {:induction false} ChainFollows(levels: seq<Level>, l: int, d: nat, n: nat, phv: Phv, key: KeyReader)
    requires WellFormedLevels(levels) && IsStart(phv) && 0 <= l < |levels| && d < |Fired(levels, n, phv, key)|
    ensures RunLevel(levels[l], Chase(levels, d, phv, key), key) ==
            Chase(levels, if Fired(levels, n, phv, key)[d] == l then d + 1 else d, phv, key)
  {
    FiredSteps(levels, n, phv, key);
    assert FiresAt(levels, d, phv, key);
    RunLevelIsStepOrNothing(levels, l, d, phv, key);
  }

  /** What is in the chain exists. */
  lemma {:induction false} ChainExists(levels: seq<Level>, d: nat, n: nat, phv: Phv, key: KeyReader)
    requires d < |Fired(levels, n, phv, key)|
    ensures 0 <= Fired(levels, n, phv, key)[d] < |levels|
  {
    FiredSteps(levels, n, phv, key);
    assert FiresAt(levels, d, phv, key);
  }

  /** Any list of levels, in any order and with any repetition, performs an initial part of the state machine's run,
      as many steps as it works off the chain of firing levels, unless it restarts an accepted packet. */
  lemma {:induction false} RunIsChase(levels: seq<Level>, ids: seq<int>, n: nat, phv: Phv, key: KeyReader)
    requires WellFormedLevels(levels) && IsStart(phv) && |ids| < n && !Restarts(levels, ids, phv, key)
    ensures RunLevels(levels, ids, phv, key) ==
            Chase(levels, Matched(Fired(levels, n, phv, key), ids), phv, key)
  {
    if ids != [] {
      var front := ids[..|ids| - 1];
      RunIsChase(levels, front, n, phv, key);
      var d := Matched(Fired(levels, n, phv, key), front);
      if d < |Fired(levels, n, phv, key)| {
        ChainExists(levels, d, n, phv, key);
      }
      if 0 <= ids[|ids| - 1] < |levels| {
        OneMoreLevel(levels, front, ids[|ids| - 1], n, phv, key);
      }
    }
  }

  /** One more level, in or behind the chain. */
  lemma {:induction false} OneMoreLevel(levels: seq<Level>, front: seq<int>, l: int, n: nat, phv: Phv, key: KeyReader)
    requires WellFormedLevels(levels) && IsStart(phv) && |front| < n && 0 <= l < |levels|
    requires l == 0 ==> !Accepted(Chase(levels, Matched(Fired(levels, n, phv, key), front), phv, key))
    ensures var chain := Fired(levels, n, phv, key);
            var d := Matched(chain, front);
            RunLevel(levels[l], Chase(levels, d, phv, key), key) ==
            Chase(levels, if d < |chain| && chain[d] == l then d + 1 else d, phv, key)
  {
    var d := Matched(Fired(levels, n, phv, key), front);
    if d < |Fired(levels, n, phv, key)| {
      ChainFollows(levels, l, d, n, phv, key);
    } else {
      NothingFollows(levels, l, n, phv, key);
    }
  }

  lemma {:induction false} RunGoesForward(levels: seq<Level>, l: int, phv: Phv, key: KeyReader)
    requires WellFormedLevels(levels) && PositiveLengths(levels) && 0 <= l < |levels|
    ensures RunLevel(levels[l], phv, key).offset >= phv.offset
  {
    if FirstHit(levels[l], phv.state, phv.key).Some? {
      FirstHitIsHit(levels[l], phv.state, phv.key);
    }
  }

  lemma {:induction false} ChaseGoesForward(levels: seq<Level>, m: nat, n: nat, phv: Phv, key: KeyReader)
    requires WellFormedLevels(levels) && PositiveLengths(levels) && m <= n
    ensures Chase(levels, m, phv, key).offset <= Chase(levels, n, phv, key).offset
    decreases n
  {
    if m < n {
      ChaseGoesForward(levels, m, n - 1, phv, key);
      var at := Chase(levels, n - 1, phv, key);
      if 0 <= at.state < |levels| {
        RunGoesForward(levels, at.state, at, key);
      }
    }
  }

  /** A restart leads behind everything the state machine ever reaches. */
  lemma {:induction false} RestartOvershoots(levels: seq<Level>, ids: seq<int>, n: nat, phv: Phv, key: KeyReader)
    requires WellFormedLevels(levels) && PositiveLengths(levels) && AlwaysStarts(levels) && IsStart(phv)
    requires |ids| < n && Restarts(levels, ids, phv, key)
    ensures RunLevels(levels, ids, phv, key).offset >
            Chase(levels, |Fired(levels, n, phv, key)|, phv, key).offset
  {
    var front, l := ids[..|ids| - 1], ids[|ids| - 1];
    var before := RunLevels(levels, front, phv, key);
    if Restarts(levels, front, phv, key) {
      RestartOvershoots(levels, front, n, phv, key);
      if 0 <= l < |levels| {
        RunGoesForward(levels, l, before, key);
      }
    } else {
      RunIsChase(levels, front, n, phv, key);
      FiredSteps(levels, n, phv, key);
      var d := Matched(Fired(levels, n, phv, key), front);
      assert !FiresAt(levels, d, phv, key);
      assert d == |Fired(levels, n, phv, key)|;
      ChaseIsCoherent(levels, d, phv, key);
      FirstHitIsHit(levels[0], 0, before.key);
    }
  }

  /** So a list performs an initial part of the state machine's run exactly if it does not restart. */
  lemma {:induction false} RunIsChaseIff(levels: seq<Level>, ids: seq<int>, phv: Phv, key: KeyReader)
    requires WellFormedLevels(levels) && PositiveLengths(levels) && AlwaysStarts(levels) && IsStart(phv)
    ensures (exists d: nat :: RunLevels(levels, ids, phv, key) == Chase(levels, d, phv, key)) <==>
            !Restarts(levels, ids, phv, key)
  {
    var n := |ids| + 1;
    if Restarts(levels, ids, phv, key) {
      forall d: nat
        ensures RunLevels(levels, ids, phv, key) != Chase(levels, d, phv, key)
      {
        NeverBeyond(levels, ids, n + d, d, phv, key);
      }
    } else {
      RunIsChase(levels, ids, n, phv, key);
    }
  }

  lemma {:induction false} NeverBeyond(levels: seq<Level>, ids: seq<int>, n: nat, d: nat, phv: Phv, key: KeyReader)
    requires WellFormedLevels(levels) && PositiveLengths(levels) && AlwaysStarts(levels) && IsStart(phv)
    requires |ids| < n && d < n && Restarts(levels, ids, phv, key)
    ensures RunLevels(levels, ids, phv, key) != Chase(levels, d, phv, key)
  {
    RestartOvershoots(levels, ids, n, phv, key);
    FiredSteps(levels, n, phv, key);
    var m := |Fired(levels, n, phv, key)|;
    if d <= m {
      ChaseGoesForward(levels, d, m, phv, key);
    } else {
      FiredStops(levels, n, phv, key);
      StoppedStays(levels, m, d, phv, key);
    }
  }

  // ----- lists that cannot restart

  predicate ZeroOnce(ids: seq<int>) {
    forall i, j :: 0 <= i < j < |ids| ==> ids[i] != 0 || ids[j] != 0
  }

  lemma {:induction false} NothingWithoutZero(levels: seq<Level>, ids: seq<int>, phv: Phv, key: KeyReader)
    requires WellFormedLevels(levels) && IsStart(phv) && 0 !in ids
    ensures RunLevels(levels, ids, phv, key) == phv
  {
    if ids != [] {
      NothingWithoutZero(levels, ids[..|ids| - 1], phv, key);
      var l := ids[|ids| - 1];
      if 0 <= l < |levels| && FirstHit(levels[l], phv.state, phv.key).Some? {
        FirstHitIsHit(levels[l], phv.state, phv.key);
      }
    }
  }

  /** A list with level 0 in it once restarts nothing. */
  lemma {:induction false} ZeroOnceNeverRestarts(levels: seq<Level>, ids: seq<int>, phv: Phv, key: KeyReader)
    requires WellFormedLevels(levels) && IsStart(phv) && ZeroOnce(ids)
    ensures !Restarts(levels, ids, phv, key)
  {
    if ids != [] {
      var front := ids[..|ids| - 1];
      ZeroOnceNeverRestarts(levels, front, phv, key);
      if ids[|ids| - 1] == 0 {
        assert 0 !in front;
        NothingWithoutZero(levels, front, phv, key);
      }
    }
  }

  ghost predicate NeverAccepts(levels: seq<Level>) {
    forall i, e :: 0 <= i < |levels| && e in levels[i] ==> e.sram.acceptDrop != 0
  }

  lemma {:induction false} NotAccepted(levels: seq<Level>, ids: seq<int>, phv: Phv, key: KeyReader)
    requires NeverAccepts(levels) && IsStart(phv)
    ensures RunLevels(levels, ids, phv, key).missAct != 0
  {
    if ids != [] {
      var front, l := ids[..|ids| - 1], ids[|ids| - 1];
      NotAccepted(levels, front, phv, key);
      var before := RunLevels(levels, front, phv, key);
      if 0 <= l < |levels| && FirstHit(levels[l], before.state, before.key).Some? {
        FirstHitIsHit(levels[l], before.state, before.key);
      }
    }
  }

  /** Nor does any list for tables that never accept. */
  lemma {:induction false} NoAcceptNeverRestarts(levels: seq<Level>, ids: seq<int>, phv: Phv, key: KeyReader)
    requires NeverAccepts(levels) && IsStart(phv)
    ensures !Restarts(levels, ids, phv, key)
  {
    if ids != [] {
      NoAcceptNeverRestarts(levels, ids[..|ids| - 1], phv, key);
      NotAccepted(levels, ids[..|ids| - 1], phv, key);
    }
  }
}
