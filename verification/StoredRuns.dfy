/** Runs over the levels as they are stored (sw-src/dataplane/parser.h): a packet that comes to a slot nothing was
    stored in goes astray, all others are parsed as the tables say. */
module StoredRuns {
  import opened ParserTables
  import opened ParserStages

  /** `stored` holds the levels, each in a stage of its own. */
  ghost predicate AreStored(levels: seq<Level>, stored: seq<Level>) {
    && |stored| == |levels|
    && forall i :: 0 <= i < |levels| ==> StoredFrom(levels[i], stored[i])
  }

  ghost predicate StoredFrom(level: Level, stored: Level) {
    exists slots :: Empty(slots) && stored == Install(slots, level)
  }

  ghost predicate Storable(levels: seq<Level>) {
    forall i :: 0 <= i < |levels| ==> AllFit(levels[i]) && OrderKept(levels[i])
  }

  /** The packet is in state 0 with a key of ones when the level is applied to it, and a blank slot comes first. */
  ghost predicate AtBlank(level: Level, phv: Phv) {
    !phv.dropped && FindsBlank(level, phv.state, phv.key)
  }

  /** Some level of the list is applied to the packet so. */
  ghost predicate MeetsBlank(levels: seq<Level>, ids: seq<int>, phv: Phv, key: KeyReader) {
    ids != [] &&
    var front, l := ids[..|ids| - 1], ids[|ids| - 1];
    || MeetsBlank(levels, front, phv, key)
    || (0 <= l < |levels| && AtBlank(levels[l], RunLevels(levels, front, phv, key)))
  }

  lemma {:induction false} StoredRunsLevel(level: Level, stored: Level, phv: Phv, key: KeyReader)
    requires StoredFrom(level, stored) && AllFit(level) && OrderKept(level) && !AtBlank(level, phv)
    ensures RunLevel(stored, phv, key) == RunLevel(level, phv, key)
  {
    var slots :| Empty(slots) && stored == Install(slots, level);
    if !phv.dropped {
      StoredFindsFirst(slots, level, phv.state, phv.key);
    }
  }

  /** A packet that meets no blank slot is parsed as the tables say. */
  lemma {:induction false} StoredRunsLevels(levels: seq<Level>, stored: seq<Level>, ids: seq<int>, phv: Phv,
                                            key: KeyReader)
    requires Storable(levels) && AreStored(levels, stored) && !MeetsBlank(levels, ids, phv, key)
    ensures RunLevels(stored, ids, phv, key) == RunLevels(levels, ids, phv, key)
  {
    if ids != [] {
      StoredRunsLevels(levels, stored, ids[..|ids| - 1], phv, key);
      var before, l := RunLevels(levels, ids[..|ids| - 1], phv, key), ids[|ids| - 1];
      if 0 <= l < |levels| {
        assert StoredFrom(levels[l], stored[l]);
        StoredRunsLevel(levels[l], stored[l], before, key);
      }
    }
  }

  // ----- and only such a packet

  /** Slots that hold the same thing wherever nothing is stored. */
  function Filled(s: SramEntry): (slots: Level)
    ensures Empty(slots) && forall k :: 0 <= k < SLOTS ==> slots[k] == LevelEntry(TcamEntry(0, ALL_ONES, ALL_ONES), s)
  {
    seq(SLOTS, _ => LevelEntry(TcamEntry(0, ALL_ONES, ALL_ONES), s))
  }

  function StoreAll(levels: seq<Level>, s: SramEntry): (stored: seq<Level>)
    ensures |stored| == |levels| && forall i :: 0 <= i < |levels| ==> stored[i] == Install(Filled(s), levels[i])
  {
    seq(|levels|, i requires 0 <= i < |levels| => Install(Filled(s), levels[i]))
  }

  lemma {:induction false} AllStored(levels: seq<Level>, s: SramEntry)
    ensures AreStored(levels, StoreAll(levels, s))
  {
    forall i | 0 <= i < |levels|
      ensures StoredFrom(levels[i], StoreAll(levels, s)[i])
    {
      assert Empty(Filled(s));
    }
  }

  /** What fires then is whatever is left in the blank slot. */
  lemma {:induction false} BlankFires(level: Level, s: SramEntry, phv: Phv, key: KeyReader)
    requires AllFit(level) && AtBlank(level, phv)
    ensures RunLevel(Install(Filled(s), level), phv, key) == Fire(phv, s, key)
  {
    var slots := Filled(s);
    var stored := Install(slots, level);
    var k: nat :| BlankBefore(level, k);
    var i := SlotHolds(slots, level, k);
    BlankHits(stored[k], phv.state, phv.key);
    if FirstHit(stored, phv.state, phv.key).None? {
      NoneOf(stored, phv.state, phv.key);
    }
    var m := FirstOf(stored, phv.state, phv.key);
    var j := SlotHolds(slots, level, m);
  }

  /** So the packet can be dropped there, at an offset of any kind. */
  lemma {:induction false} GoesAstray(levels: seq<Level>, ids: seq<int>, phv: Phv, key: KeyReader, offset: int)
      returns (stored: seq<Level>)
    requires Storable(levels) && MeetsBlank(levels, ids, phv, key)
    ensures AreStored(levels, stored)
    ensures RunLevels(stored, ids, phv, key).dropped && RunLevels(stored, ids, phv, key).offset != offset
  {
    var front, l := ids[..|ids| - 1], ids[|ids| - 1];
    if MeetsBlank(levels, front, phv, key) {
      stored := GoesAstray(levels, front, phv, key, offset);
    } else {
      var at := RunLevels(levels, front, phv, key);
      var s := SramEntry(0, offset - at.offset + 1, 0, [], 1);
      stored := StoreAll(levels, s);
      AllStored(levels, s);
      StoredRunsLevels(levels, stored, front, phv, key);
      BlankFires(levels[l], s, at, key);
    }
  }

  /** Whatever is left in blank slots, the stages parse what the tables say, exactly if the packet meets none. */
  lemma {:induction false} StoredRunsLevelsIff(levels: seq<Level>, ids: seq<int>, phv: Phv, key: KeyReader)
    requires Storable(levels)
    ensures (forall stored :: AreStored(levels, stored) ==>
               RunLevels(stored, ids, phv, key) == RunLevels(levels, ids, phv, key)) <==>
            !MeetsBlank(levels, ids, phv, key)
  {
    if MeetsBlank(levels, ids, phv, key) {
      var stored := GoesAstray(levels, ids, phv, key, RunLevels(levels, ids, phv, key).offset);
    } else {
      forall stored | AreStored(levels, stored)
        ensures RunLevels(stored, ids, phv, key) == RunLevels(levels, ids, phv, key)
      {
        StoredRunsLevels(levels, stored, ids, phv, key);
      }
    }
  }

  /** An accepted packet that last selected on a word of ones meets one in any level with a slot to spare. */
  lemma {:induction false} OnesMeetBlank(level: Level, phv: Phv, k: nat)
    requires phv.state == 0 && phv.key == ALL_ONES && !phv.dropped && k < SLOTS
    requires forall e :: e in level ==> e.tcam.currentState != 0 && SlotOf(e.tcam) != k
    ensures AtBlank(level, phv)
  {
    assert BlankBefore(level, k);
  }

  /** A packet that is accepted keeps the key it last selected on; if that is all ones, the next level with a slot to
      spare leads it astray, whatever levels of other states are in between. */
  lemma {:induction false} AcceptedKeepsOnes(level: Level, next: Level, phv: Phv, key: KeyReader, k: nat)
    requires !phv.dropped && phv.key == ALL_ONES && FirstHit(level, phv.state, phv.key).Some?
    requires FirstHit(level, phv.state, phv.key).value.sram == SramEntry(0, 0, 0, [], 0)
    requires k < SLOTS && forall e :: e in next ==> e.tcam.currentState != 0 && SlotOf(e.tcam) != k
    ensures var at := RunLevel(level, phv, key);
            Accepted(at) && at.state == 0 && at.key == ALL_ONES && AtBlank(next, at)
  {
    OnesMeetBlank(next, RunLevel(level, phv, key), k);
  }
}
