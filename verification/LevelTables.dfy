/** rP4-compiler/rp4c/ipsa_level_manager.h, `load`: the parser state machine of a program becomes the level tables.
    Level 0 starts the parse; the level of a state holds its transitions, and an entry extracts the header of the
    state it leads to. */
module LevelTables {
  import opened Powers
  import opened Options
  import opened ParserTables

  // ----- keys

  /** The lowest `n` bits of `a` and `b` agree wherever `mask` has a one. */
  predicate AgreeUnder(a: nat, b: nat, mask: nat, n: nat) {
    n == 0 || ((mask % 2 == 1 ==> a % 2 == b % 2) && AgreeUnder(a / 2, b / 2, mask / 2, n - 1))
  }

  datatype Key = ExactKey(key: Word) | LpmKey(key: Word, prelen: nat) | TernaryKey(key: Word, mask: Word) | DefaultKey
  {
    /** A prefix length is 1 to 32; a shift by 32 is undefined in the source. */
    predicate Valid() {
      LpmKey? ==> 1 <= prelen <= 32
    }

    function GetKey(): Word {
      if DefaultKey? then 0 else key
    }

    /** -1, -1 << (32 - prelen), the given mask, 0: as 32-bit words. */
    function GetMask(): Word
      requires Valid()
    {
      match this
      case ExactKey(_) => 0xFFFF_FFFF
      case LpmKey(_, prelen) => PrefixMask(prelen)
      case TernaryKey(_, mask) => mask
      case DefaultKey => 0
    }

    /** What the key means: this value, these leading bits, the bits under the mask, anything. */
    predicate Matches(v: Word)
      requires Valid()
    {
      match this
      case ExactKey(k) => v == k
      case LpmKey(k, prelen) => v / Pow2(32 - prelen) == k / Pow2(32 - prelen)
      case TernaryKey(k, m) => AgreeUnder(v, k, m, 32)
      case DefaultKey => true
    }

    /** The key has no bits outside its mask. */
    predicate Tidy()
      requires Valid()
    {
      BitAnd(GetKey(), GetMask()) == GetKey()
    }
  }

  function PrefixMask(prelen: nat): Word
    requires 1 <= prelen <= 32
  {
    Pow2AtMost(32 - prelen, 32);
    WordSize();
    Pow2(32) - Pow2(32 - prelen)
  }

  /** Agreement under the mask 1..10..0 with `s` zeros is agreement of the leading bits. */
  lemma {:induction false} LeadingBits(a: nat, b: nat, s: nat, n: nat)
    requires s <= n && a < Pow2(n) && b < Pow2(n)
    ensures Pow2(s) <= Pow2(n)
    ensures AgreeUnder(a, b, Pow2(n) - Pow2(s), n) <==> a / Pow2(s) == b / Pow2(s)
  {
    Pow2AtMost(s, n);
    if n == 0 {
    } else if s == 0 {
      LeadingBits(a / 2, b / 2, 0, n - 1);
      assert (Pow2(n) - 1) / 2 == Pow2(n - 1) - 1;
    } else {
      LeadingBits(a / 2, b / 2, s - 1, n - 1);
      assert (Pow2(n) - Pow2(s)) / 2 == Pow2(n - 1) - Pow2(s - 1);
      DivDiv(a, 2, Pow2(s - 1));
      DivDiv(b, 2, Pow2(s - 1));
    }
  }

  lemma {:induction false} EmptyMask(a: nat, b: nat, n: nat)
    ensures AgreeUnder(a, b, 0, n)
  {
    if n > 0 {
      EmptyMask(a / 2, b / 2, n - 1);
    }
  }

  lemma {:induction false} AndHalf(v: nat, m: nat)
    ensures BitAnd(v, m) / 2 == BitAnd(v / 2, m / 2)
    ensures BitAnd(v, m) % 2 == if m % 2 == 1 then v % 2 else 0
  {
    if m % 2 == 1 {
      assert (v % 2) * (m % 2) == v % 2;
    } else {
      assert (v % 2) * (m % 2) == 0;
    }
  }

  lemma {:induction false} MaskedAgrees(v: nat, k: nat, m: nat, n: nat)
    requires v < Pow2(n) && k < Pow2(n)
    ensures BitAnd(v, m) == k <==> BitAnd(k, m) == k && AgreeUnder(v, k, m, n)
  {
    if n > 0 {
      AndHalf(v, m);
      AndHalf(k, m);
      MaskedAgrees(v / 2, k / 2, m / 2, n - 1);
      SameHalves(BitAnd(v, m), k);
      SameHalves(BitAnd(k, m), k);
    }
  }

  lemma {:induction false} SameHalves(a: nat, b: nat)
    ensures a == b <==> a / 2 == b / 2 && a % 2 == b % 2
  {
  }

  lemma {:induction false} AgreesWithItself(k: nat, m: nat, n: nat)
    ensures AgreeUnder(k, k, m, n)
  {
    if n > 0 {
      AgreesWithItself(k / 2, m / 2, n - 1);
    }
  }

  lemma {:induction false} MeaningIsAgreement(key: Key, v: Word)
    requires key.Valid()
    ensures AgreeUnder(v, key.GetKey(), key.GetMask(), 32) <==> key.Matches(v)
  {
    WordSize();
    match key
    case ExactKey(k) => LeadingBits(v, k, 0, 32);
    case LpmKey(k, prelen) => LeadingBits(v, k, 32 - prelen, 32);
    case TernaryKey(k, m) =>
    case DefaultKey => EmptyMask(v, 0, 32);
  }

  predicate HitsWord(key: Key, v: Word)
    requires key.Valid()
  {
    key.GetKey() == BitAnd(v, key.GetMask())
  }

  /** The engine compares the entry with the masked word: it hits what the key means if the key has no bits outside
      its mask, and nothing at all otherwise. */
  lemma {:induction false} KeyHits(key: Key, v: Word)
    requires key.Valid()
    ensures HitsWord(key, v) <==> key.Tidy() && key.Matches(v)
  {
    WordSize();
    MaskedAgrees(v, key.GetKey(), key.GetMask(), 32);
    MeaningIsAgreement(key, v);
  }

  /** So a key is compiled to what it means exactly if it has no bits outside its mask. */
  lemma {:induction false} KeyCompiles(key: Key)
    requires key.Valid()
    ensures (forall v: Word :: HitsWord(key, v) <==> key.Matches(v)) <==> key.Tidy()
  {
    forall v: Word
      ensures HitsWord(key, v) <==> key.Tidy() && key.Matches(v)
    {
      KeyHits(key, v);
    }
    AgreesWithItself(key.GetKey(), key.GetMask(), 32);
    MeaningIsAgreement(key, key.GetKey());
    assert key.Matches(key.GetKey());
  }

  /** A key under the empty mask means every word and hits none. */
  lemma {:induction false} UntidyKeyHitsNothing(v: Word)
    ensures TernaryKey(1, 0).Matches(v) && !HitsWord(TernaryKey(1, 0), v)
  {
    EmptyMask(v, 1, 32);
    NothingMasked(v);
  }

  /** A prefix of eight bits, given with an address behind it, does not hit the address. */
  lemma {:induction false} PrefixWithHostBits()
    ensures LpmKey(0x0A00_0001, 8).Matches(0x0A00_0001) && !HitsWord(LpmKey(0x0A00_0001, 8), 0x0A00_0001)
  {
    var mask := LpmKey(0x0A00_0001, 8).GetMask();
    WordSize();
    assert mask % 2 == 0 by {
      assert Pow2(32 - 8) == 2 * Pow2(23) && Pow2(32) == 2 * Pow2(31);
    }
    AndHalf(0x0A00_0001, mask);
  }

  // ----- the source program

  /** One transition: `acceptDrop` is 2 to go on to state `next`, 0 to accept, 1 to drop. */
  datatype Entry = Entry(key: Key, next: string, acceptDrop: int)

  datatype Transition = Direct(entry: Entry) | Select(fields: seq<Field>, entries: seq<Entry>)
  {
    function Entries(): seq<Entry> {
      if Direct? then [entry] else entries
    }

    function Fields(): seq<Field> {
      if Direct? then [] else fields
    }
  }

  datatype StateDef = StateDef(name: string, headerId: int, headerLength: int, transition: Transition)

  ghost predicate DistinctNames(defs: seq<StateDef>) {
    && (forall i :: 0 <= i < |defs| ==> defs[i].name != "")
    && (forall i, j :: 0 <= i < j < |defs| ==> defs[i].name != defs[j].name)
  }

  predicate Defined(defs: seq<StateDef>, name: string) {
    exists i :: 0 <= i < |defs| && defs[i].name == name
  }

  // ----- transitions that can hit

  function LiveEntries(entries: seq<Entry>): (r: seq<Entry>)
    requires forall j :: 0 <= j < |entries| ==> entries[j].key.Valid()
    ensures forall e :: e in r <==> e in entries && e.key.Tidy()
  {
    if entries == [] then []
    else
      assert entries == [entries[0]] + entries[1..];
      (if entries[0].key.Tidy() then [entries[0]] else []) + LiveEntries(entries[1..])
  }

  function LiveTransition(t: Transition): Transition
    requires forall j :: 0 <= j < |t.Entries()| ==> t.Entries()[j].key.Valid()
  {
    assert t.Direct? ==> t.Entries()[0] == t.entry;
    if t.Direct? && t.entry.key.Tidy() then t else Select(t.Fields(), LiveEntries(t.Entries()))
  }

  /** Keys are meaningful, and a transition goes on to a state that exists, accepts or drops. */
  ghost predicate WellFormedEntry(defs: seq<StateDef>, e: Entry) {
    e.key.Valid() && 0 <= e.acceptDrop <= 2 && (e.acceptDrop == 2 ==> Defined(defs, e.next))
  }

  ghost predicate WellFormedStates(defs: seq<StateDef>) {
    forall i, j :: 0 <= i < |defs| && 0 <= j < |defs[i].transition.Entries()| ==>
      WellFormedEntry(defs, defs[i].transition.Entries()[j])
  }

  /** The first state of that name. */
  function GetState(defs: seq<StateDef>, name: string): (i: nat)
    requires Defined(defs, name)
    ensures i < |defs| && defs[i].name == name
    ensures forall k :: 0 <= k < i ==> defs[k].name != name
  {
    if defs[0].name == name then 0
    else
      assert Defined(defs[1..], name) by {
        var k :| 0 <= k < |defs| && defs[k].name == name;
        assert defs[1..][k - 1].name == name;
      }
      1 + GetState(defs[1..], name)
  }

  // ----- running the source program

  /** About to extract the header of a state, waiting to select from it, or done. */
  datatype Control = Extracting(state: nat) | Selecting(state: nat) | Done(outcome: int)

  datatype ParserRun = ParserRun(control: Control, offset: int, headers: Headers)

  function FirstMatch(entries: seq<Entry>, v: Word): Option<Entry>
    requires forall j :: 0 <= j < |entries| ==> entries[j].key.Valid()
  {
    if entries == [] then None
    else if entries[0].key.Matches(v) then Some(entries[0])
    else FirstMatch(entries[1..], v)
  }

  ghost function SourceStep(defs: seq<StateDef>, r: ParserRun, key: KeyReader): ParserRun
    requires WellFormedStates(defs)
  {
    match r.control
    case Extracting(i) =>
      if i >= |defs| then r
      else ParserRun(Selecting(i), r.offset + defs[i].headerLength,
                     r.headers[defs[i].headerId := Header(r.offset, defs[i].headerLength, true)])
    case Selecting(i) =>
      if i >= |defs| then r
      else
        var t := defs[i].transition;
        assert forall j :: 0 <= j < |t.Entries()| ==> WellFormedEntry(defs, t.Entries()[j]);
        (match FirstMatch(t.Entries(), key(r.headers, t.Fields()))
         case None => r
         case Some(e) =>
           if e.acceptDrop != 2 then r.(control := Done(e.acceptDrop))
           else if Defined(defs, e.next) then r.(control := Extracting(GetState(defs, e.next)))
           else r)
    case Done(_) => r
  }

  /** The program's parser after `n` steps, starting at its first state with some headers known already. */
  ghost function SourceRun(defs: seq<StateDef>, n: nat, headers: Headers, key: KeyReader): ParserRun
    requires WellFormedStates(defs)
  {
    if n == 0 then ParserRun(Extracting(0), 0, headers)
    else SourceStep(defs, SourceRun(defs, n - 1, headers, key), key)
  }

  /** The program without the transitions whose keys have bits outside their masks. */
  ghost function Live(defs: seq<StateDef>): (r: seq<StateDef>)
    requires WellFormedStates(defs)
    ensures IsLive(defs, r) && WellFormedStates(r)
  {
    var r := seq(|defs|, i requires 0 <= i < |defs| => LiveState(defs, i));
    LiveIsWellFormed(defs, r);
    r
  }

  ghost function LiveState(defs: seq<StateDef>, i: nat): (r: StateDef)
    requires WellFormedStates(defs) && i < |defs|
    ensures IsLiveState(defs, i, r)
  {
    assert forall j :: 0 <= j < |defs[i].transition.Entries()| ==>
        WellFormedEntry(defs, defs[i].transition.Entries()[j]);
    defs[i].(transition := LiveTransition(defs[i].transition))
  }

  ghost predicate IsLiveState(defs: seq<StateDef>, i: nat, r: StateDef)
    requires i < |defs|
  {
    && (forall j :: 0 <= j < |defs[i].transition.Entries()| ==> defs[i].transition.Entries()[j].key.Valid())
    && r == defs[i].(transition := LiveTransition(defs[i].transition))
  }

  ghost predicate IsLive(defs: seq<StateDef>, r: seq<StateDef>) {
    |r| == |defs| && forall i :: 0 <= i < |defs| ==> IsLiveState(defs, i, r[i])
  }

  lemma {:induction false} LiveIsWellFormed(defs: seq<StateDef>, r: seq<StateDef>)
    requires WellFormedStates(defs) && IsLive(defs, r)
    ensures WellFormedStates(r)
  {
    forall i, j | 0 <= i < |r| && 0 <= j < |r[i].transition.Entries()|
      ensures WellFormedEntry(r, r[i].transition.Entries()[j])
    {
      var e := r[i].transition.Entries()[j];
      assert IsLiveState(defs, i, r[i]);
      assert e in defs[i].transition.Entries();
      var k :| 0 <= k < |defs[i].transition.Entries()| && defs[i].transition.Entries()[k] == e;
      assert WellFormedEntry(defs, defs[i].transition.Entries()[k]);
      if e.acceptDrop == 2 {
        var m :| 0 <= m < |defs| && defs[m].name == e.next;
        assert r[m].name == e.next;
      }
    }
  }

  lemma {:induction false} LiveEntriesAreAll(entries: seq<Entry>)
    requires forall j :: 0 <= j < |entries| ==> entries[j].key.Valid()
    ensures |LiveEntries(entries)| <= |entries|
    ensures LiveEntries(entries) == entries <==> forall j :: 0 <= j < |entries| ==> entries[j].key.Tidy()
  {
    if entries != [] {
      LiveEntriesAreAll(entries[1..]);
      var rest := LiveEntries(entries[1..]);
      if entries[0].key.Tidy() {
        assert LiveEntries(entries)[1..] == rest;
        assert entries == [entries[0]] + entries[1..];
      }
    }
  }

  ghost predicate TidyState(defs: seq<StateDef>, i: nat)
    requires i < |defs|
  {
    var entries := defs[i].transition.Entries();
    forall j :: 0 <= j < |entries| ==> WellFormedEntry(defs, entries[j]) && entries[j].key.Tidy()
  }

  lemma {:induction false} LiveStateIsAll(defs: seq<StateDef>, i: nat, r: StateDef)
    requires WellFormedStates(defs) && i < |defs| && IsLiveState(defs, i, r)
    ensures r == defs[i] <==> TidyState(defs, i)
  {
    var t := defs[i].transition;
    assert forall j :: 0 <= j < |t.Entries()| ==> WellFormedEntry(defs, t.Entries()[j]);
    LiveEntriesAreAll(t.Entries());
    assert r == defs[i] <==> LiveTransition(t) == t;
    if t.Direct? {
      assert t.Entries()[0] == t.entry;
    }
  }

  /** Nothing is lost exactly if no key has bits outside its mask. */
  lemma {:induction false} LiveIsAll(defs: seq<StateDef>)
    requires WellFormedStates(defs)
    ensures Live(defs) == defs <==> forall i :: 0 <= i < |defs| ==> TidyState(defs, i)
  {
    var live := Live(defs);
    forall i | 0 <= i < |defs|
      ensures live[i] == defs[i] <==> TidyState(defs, i)
    {
      LiveStateIsAll(defs, i, live[i]);
    }
  }

  // ----- the tables

  type Ids = map<string, int>

  /** `states` numbers at least the states in `defs`. */
  ghost predicate Numbers(defs: seq<StateDef>, states: Ids) {
    forall i :: 0 <= i < |defs| ==> defs[i].name in states
  }

  function EnterState(d: StateDef, id: int): SramEntry {
    SramEntry(d.headerId, d.headerLength, id, d.transition.Fields(), 2)
  }

  function BuildEntry(defs: seq<StateDef>, states: Ids, state: int, e: Entry): LevelEntry
    requires e.key.Valid() && (e.acceptDrop == 2 ==> Defined(defs, e.next) && e.next in states)
  {
    LevelEntry(
      TcamEntry(state, e.key.GetKey(), e.key.GetMask()),
      if e.acceptDrop == 2 then EnterState(defs[GetState(defs, e.next)], states[e.next])
      else SramEntry(0, 0, 0, [], e.acceptDrop))
  }

  ghost predicate Buildable(defs: seq<StateDef>, states: Ids, entries: seq<Entry>) {
    forall j :: 0 <= j < |entries| ==>
      WellFormedEntry(defs, entries[j]) && (entries[j].acceptDrop == 2 ==> entries[j].next in states)
  }

  /** `level` is what the transitions `entries` of state `state` compile to. */
  ghost predicate IsLevelOf(defs: seq<StateDef>, states: Ids, state: int, entries: seq<Entry>, level: Level) {
    && Buildable(defs, states, entries)
    && |level| == |entries|
    && forall j :: 0 <= j < |level| ==> level[j] == BuildEntry(defs, states, state, entries[j])
  }

  ghost predicate IdsInOrder(defs: seq<StateDef>, states: Ids) {
    forall i :: 0 <= i < |defs| ==> defs[i].name in states && states[defs[i].name] == i + 1
  }

  ghost predicate AreTables(defs: seq<StateDef>, states: Ids, levels: seq<Level>)
    requires defs != []
  {
    && IdsInOrder(defs, states)
    && |levels| == |defs| + 1
    && levels[0] == [LevelEntry(TcamEntry(0, 0, 0), EnterState(defs[0], 1))]
    && forall i :: 0 <= i < |defs| ==>
         IsLevelOf(defs, states, i + 1, defs[i].transition.Entries(), levels[i + 1])
  }

  class IpsaLevelManager {
    var globalLevelId: int
    var levels: seq<Level>
    var states: Ids

    constructor ()
      ensures levels == [] && states == map[] && globalLevelId == 0
    {
      globalLevelId := 0;
      levels := [];
      states := map[];
    }

    /** `states.insert`: keeps the first id of a name. */
    method NumberStates(defs: seq<StateDef>)
      requires levels == [] && states == map[] && globalLevelId == 0
      modifies this
      ensures |levels| == globalLevelId == |defs| + 1 && forall i :: 0 <= i < |levels| ==> levels[i] == []
      ensures Numbers(defs, states) && forall x :: x in states ==> 0 <= states[x] < |levels|
      ensures DistinctNames(defs) ==> IdsInOrder(defs, states)
    {
      states := map["" := 0];
      globalLevelId := 1;
      levels := [[]];
      for i := 0 to |defs|
        invariant |levels| == globalLevelId == i + 1 && forall k :: 0 <= k < |levels| ==> levels[k] == []
        invariant forall k :: 0 <= k < i ==> defs[k].name in states
        invariant forall x :: x in states ==> 0 <= states[x] <= i
        invariant forall x :: x in states ==> x == "" || exists k :: 0 <= k < i && defs[k].name == x
        invariant DistinctNames(defs) ==> forall k :: 0 <= k < i ==> states[defs[k].name] == k + 1
      {
        if defs[i].name !in states {
          states := states[defs[i].name := globalLevelId];
        }
        globalLevelId := globalLevelId + 1;
        levels := levels + [[]];
      }
    }

    method BuildEntries(defs: seq<StateDef>, state: int, entries: seq<Entry>)
      requires 0 <= state < |levels| && Buildable(defs, states, entries)
      modifies this`levels
      ensures |levels| == old(|levels|)
      ensures forall k :: 0 <= k < |levels| && k != state ==> levels[k] == old(levels[k])
      ensures |levels[state]| == |old(levels[state])| + |entries| && old(levels[state]) <= levels[state]
      ensures IsLevelOf(defs, states, state, entries, levels[state][|old(levels[state])|..])
    {
      var n := |levels[state]|;
      for j := 0 to |entries|
        invariant |levels| == old(|levels|)
        invariant forall k :: 0 <= k < |levels| && k != state ==> levels[k] == old(levels[k])
        invariant |levels[state]| == n + j && old(levels[state]) <= levels[state]
        invariant forall k :: 0 <= k < j ==> levels[state][n + k] == BuildEntry(defs, states, state, entries[k])
      {
        levels := levels[state := levels[state] + [BuildEntry(defs, states, state, entries[j])]];
      }
    }

    /** Every transition must name a defined state: the source dereferences what it looks up. */
    method Load(defs: seq<StateDef>)
      requires levels == [] && states == map[] && globalLevelId == 0
      requires WellFormedStates(defs)
      modifies this
      ensures defs == [] ==> levels == []
      ensures defs != [] && DistinctNames(defs) ==> AreTables(defs, states, levels)
    {
      if defs == [] {
        return;
      }
      NumberStates(defs);
      levels := levels[0 := [LevelEntry(TcamEntry(0, 0, 0), EnterState(defs[0], states[defs[0].name]))]];
      for i := 0 to |defs|
        invariant |levels| == |defs| + 1 && Numbers(defs, states)
        invariant forall x :: x in states ==> 0 <= states[x] < |levels|
        invariant DistinctNames(defs) ==> IdsInOrder(defs, states)
        invariant DistinctNames(defs) ==>
          levels[0] == [LevelEntry(TcamEntry(0, 0, 0), EnterState(defs[0], 1))]
        invariant DistinctNames(defs) ==> forall k :: 0 <= k < i ==>
          IsLevelOf(defs, states, k + 1, defs[k].transition.Entries(), levels[k + 1])
        invariant DistinctNames(defs) ==> forall k :: i < k <= |defs| ==> levels[k] == []
      {
        TargetsNumbered(defs, states, i);
        BuildEntries(defs, states[defs[i].name], defs[i].transition.Entries());
      }
    }
  }

  lemma {:induction false} TargetsNumbered(defs: seq<StateDef>, states: Ids, i: nat)
    requires WellFormedStates(defs) && Numbers(defs, states) && i < |defs|
    ensures Buildable(defs, states, defs[i].transition.Entries())
  {
    var entries := defs[i].transition.Entries();
    forall j | 0 <= j < |entries|
      ensures WellFormedEntry(defs, entries[j]) && (entries[j].acceptDrop == 2 ==> entries[j].next in states)
    {
      assert WellFormedEntry(defs, defs[i].transition.Entries()[j]);
      if entries[j].acceptDrop == 2 {
        assert defs[GetState(defs, entries[j].next)].name in states;
      }
    }
  }

  // ----- what the tables hold

  lemma {:induction false} TablesWellFormed(defs: seq<StateDef>, states: Ids, levels: seq<Level>)
    requires defs != [] && AreTables(defs, states, levels)
    ensures WellFormedLevels(levels) && AlwaysStarts(levels)
    ensures (forall i :: 0 <= i < |defs| ==> defs[i].headerLength > 0) ==> PositiveLengths(levels)
  {
    forall i, e | 0 <= i < |levels| && e in levels[i]
      ensures e.tcam.currentState == i && 0 <= e.sram.acceptDrop <= 2
      ensures Continues(e) ==> 0 <= e.sram.nextState < |levels|
      ensures Continues(e) ==> exists k :: 0 <= k < |defs| && e.sram.headerLength == defs[k].headerLength
      ensures !Continues(e) ==> e.sram == SramEntry(0, 0, 0, [], e.sram.acceptDrop)
    {
      if i > 0 {
        var d := i - 1;
        var entries := defs[d].transition.Entries();
        assert IsLevelOf(defs, states, d + 1, entries, levels[d + 1]);
        var j :| 0 <= j < |levels[i]| && levels[i][j] == e;
        assert e == BuildEntry(defs, states, i, entries[j]);
        assert WellFormedEntry(defs, entries[j]);
      }
    }
    forall w: Word
      ensures FirstHit(levels[0], 0, w).Some? && Continues(FirstHit(levels[0], 0, w).value)
    {
      StartHits(defs, levels, w);
    }
  }

  lemma {:induction false} StartHits(defs: seq<StateDef>, levels: seq<Level>, w: Word)
    requires defs != [] && levels != [] && levels[0] == [LevelEntry(TcamEntry(0, 0, 0), EnterState(defs[0], 1))]
    ensures FirstHit(levels[0], 0, w) == Some(levels[0][0])
  {
    NothingMasked(w);
  }

  /** The first entry that hits is what the first matching transition compiles to, among those that can hit. */
  lemma {:induction false} FirstHitIsFirstMatch(defs: seq<StateDef>, states: Ids, state: int, entries: seq<Entry>,
                                                level: Level, v: Word)
    requires IsLevelOf(defs, states, state, entries, level)
    requires forall j :: 0 <= j < |entries| ==> entries[j].key.Valid()
    ensures var m := FirstMatch(LiveEntries(entries), v);
      && (m.None? ==> FirstHit(level, state, v).None?)
      && (m.Some? ==>
           && WellFormedEntry(defs, m.value) && (m.value.acceptDrop == 2 ==> m.value.next in states)
           && FirstHit(level, state, v) == Some(BuildEntry(defs, states, state, m.value)))
  {
    if entries != [] {
      assert level[0] == BuildEntry(defs, states, state, entries[0]);
      KeyHits(entries[0].key, v);
      assert Hits(level[0], state, v) <==> HitsWord(entries[0].key, v);
      if !HitsWord(entries[0].key, v) {
        forall j | 0 <= j < |level[1..]|
          ensures level[1..][j] == BuildEntry(defs, states, state, entries[1..][j])
        {
          assert level[j + 1] == BuildEntry(defs, states, state, entries[j + 1]);
        }
        FirstHitIsFirstMatch(defs, states, state, entries[1..], level[1..], v);
        LiveTail(entries, v);
      } else {
        LiveHead(entries, v);
      }
    }
  }

  lemma {:induction false} LiveTail(entries: seq<Entry>, v: Word)
    requires entries != [] && forall j :: 0 <= j < |entries| ==> entries[j].key.Valid()
    requires !(entries[0].key.Tidy() && entries[0].key.Matches(v))
    ensures FirstMatch(LiveEntries(entries), v) == FirstMatch(LiveEntries(entries[1..]), v)
  {
    if entries[0].key.Tidy() {
      assert LiveEntries(entries)[1..] == LiveEntries(entries[1..]);
    } else {
      assert LiveEntries(entries) == LiveEntries(entries[1..]);
    }
  }

  lemma {:induction false} LiveHead(entries: seq<Entry>, v: Word)
    requires entries != [] && forall j :: 0 <= j < |entries| ==> entries[j].key.Valid()
    requires entries[0].key.Tidy() && entries[0].key.Matches(v)
    ensures FirstMatch(LiveEntries(entries), v) == Some(entries[0])
  {
    assert LiveEntries(entries)[0] == entries[0];
  }

  // ----- the tables simulate the program

  /** The packet waits in the level of the state the program is selecting from; the tables have extracted that
      state's header already. When the parse has ended, accept or drop is recorded, and header 0 has become the mark
      of the end. */
  ghost predicate Corresponds(defs: seq<StateDef>, phv: Phv, r: ParserRun, key: KeyReader) {
    && phv.offset == r.offset
    && match r.control
       case Extracting(_) => false
       case Selecting(i) =>
         && !Ended(phv) && i < |defs| && phv.state == i + 1
         && phv.headers == r.headers && phv.key == key(r.headers, defs[i].transition.Fields())
       case Done(o) =>
         && phv.missAct == o < 2 && (phv.dropped <==> o == 1)
         && phv.headers == r.headers[0 := Header(r.offset, 0, true)]
  }

  lemma {:induction false} LiveNames(defs: seq<StateDef>, live: seq<StateDef>, states: Ids, name: string)
    requires IsLive(defs, live) && IdsInOrder(defs, states) && Defined(defs, name)
    ensures Defined(live, name) && GetState(live, name) == GetState(defs, name)
    ensures name in states && states[name] == GetState(defs, name) + 1
    ensures EnterState(live[GetState(live, name)], 0) == EnterState(defs[GetState(defs, name)], 0)
  {
    assert forall i :: 0 <= i < |defs| ==> IsLiveState(defs, i, live[i]) && live[i].name == defs[i].name;
    var k := GetState(defs, name);
    assert live[k].name == name;
    assert states[defs[k].name] == k + 1;
  }

  /** Extracting the header of state `k`, for the program and for the packet. */
  lemma {:induction false} EntersState(live: seq<StateDef>, phv: Phv, r: ParserRun, k: nat, key: KeyReader)
    requires WellFormedStates(live) && k < |live| && r.control == Extracting(k)
    requires phv.offset == r.offset && phv.headers == r.headers
    ensures Corresponds(live, Fire(phv, EnterState(live[k], k + 1), key), SourceStep(live, r, key), key)
  {
  }

  lemma {:induction false} Selects(defs: seq<StateDef>, live: seq<StateDef>, states: Ids, i: nat, phv: Phv,
                                   r: ParserRun, e: Entry, key: KeyReader)
    requires WellFormedStates(live) && IsLive(defs, live) && IdsInOrder(defs, states) && i < |defs|
    requires r.control == Selecting(i) && Corresponds(live, phv, r, key) && WellFormedEntry(defs, e)
    requires FirstMatch(live[i].transition.Entries(), phv.key) == Some(e)
    requires e.acceptDrop == 2 ==> Defined(defs, e.next) && e.next in states
    ensures Corresponds(live, Fire(phv, BuildEntry(defs, states, i + 1, e).sram, key),
                        SourceStep(live, SourceStep(live, r, key), key), key)
  {
    if e.acceptDrop == 2 {
      LiveNames(defs, live, states, e.next);
      var k := GetState(live, e.next);
      EntersState(live, phv, r.(control := Extracting(k)), k, key);
    }
  }

  lemma {:induction false} StepsCorrespond(defs: seq<StateDef>, live: seq<StateDef>, states: Ids,
                                           levels: seq<Level>, phv: Phv, r: ParserRun, key: KeyReader)
    requires defs != [] && AreTables(defs, states, levels) && IsLive(defs, live) && WellFormedStates(live)
    requires Corresponds(live, phv, r, key)
    ensures Corresponds(live, Step(levels, phv, key), SourceStep(live, SourceStep(live, r, key), key), key)
  {
    if r.control.Selecting? {
      var i := r.control.state;
      var entries := defs[i].transition.Entries();
      assert IsLiveState(defs, i, live[i]);
      assert IsLevelOf(defs, states, i + 1, entries, levels[i + 1]);
      assert live[i].transition.Entries() == LiveEntries(entries);
      FirstHitIsFirstMatch(defs, states, i + 1, entries, levels[i + 1], phv.key);
      if FirstMatch(LiveEntries(entries), phv.key).Some? {
        Selects(defs, live, states, i, phv, r, FirstMatch(LiveEntries(entries), phv.key).value, key);
      }
    }
  }

  /** For every packet and every number of steps: after `n + 1` levels the tables have the same headers at the same
      offsets as the program's parser after its `n` transitions and the extract that follows, and they end in the
      same accept or drop. The program is taken without the transitions whose keys have bits outside their masks:
      with all of them, by `LiveIsAll`, exactly if there are none. The end of the parse overwrites header 0. */
  lemma {:induction false} TablesSimulateProgram(defs: seq<StateDef>, states: Ids, levels: seq<Level>, n: nat,
                                                 phv: Phv, key: KeyReader)
    requires defs != [] && WellFormedStates(defs) && DistinctNames(defs) && AreTables(defs, states, levels)
    requires IsStart(phv)
    ensures Corresponds(Live(defs), Chase(levels, n + 1, phv, key),
                        SourceRun(Live(defs), 2 * n + 1, phv.headers, key), key)
  {
    LiveRun(defs, Live(defs), states, levels, n + 1, 2 * n + 1, phv, key);
  }

  /** Step `c` of the tables is step `2 * c - 1` of the program. */
  lemma {:induction false} LiveRun(defs: seq<StateDef>, live: seq<StateDef>, states: Ids, levels: seq<Level>, c: nat,
                                   s: nat, phv: Phv, key: KeyReader)
    requires defs != [] && AreTables(defs, states, levels) && IsLive(defs, live) && WellFormedStates(live)
    requires IsStart(phv) && s == 2 * c - 1
    ensures Corresponds(live, Chase(levels, c, phv, key), SourceRun(live, s, phv.headers, key), key)
  {
    if c == 1 {
      StartCorresponds(defs, live, levels, phv, key);
    } else {
      var c', s' := c - 1, s - 2;
      LiveRun(defs, live, states, levels, c', s', phv, key);
      StepsCorrespond(defs, live, states, levels, Chase(levels, c', phv, key),
                      SourceRun(live, s', phv.headers, key), key);
      NextSteps(live, levels, c', s', phv, key);
    }
  }

  lemma {:induction false} NextSteps(live: seq<StateDef>, levels: seq<Level>, c: nat, s: nat, phv: Phv, key: KeyReader)
    requires WellFormedStates(live)
    ensures Chase(levels, c + 1, phv, key) == Step(levels, Chase(levels, c, phv, key), key)
    ensures SourceRun(live, s + 2, phv.headers, key) ==
            SourceStep(live, SourceStep(live, SourceRun(live, s, phv.headers, key), key), key)
  {
    assert SourceRun(live, s + 1, phv.headers, key) == SourceStep(live, SourceRun(live, s, phv.headers, key), key);
  }

  lemma {:induction false} StartCorresponds(defs: seq<StateDef>, live: seq<StateDef>, levels: seq<Level>, phv: Phv,
                                            key: KeyReader)
    requires defs != [] && IsLive(defs, live) && WellFormedStates(live) && IsStart(phv)
    requires levels != [] && levels[0] == [LevelEntry(TcamEntry(0, 0, 0), EnterState(defs[0], 1))]
    ensures Corresponds(live, Chase(levels, 1, phv, key), SourceRun(live, 1, phv.headers, key), key)
  {
    StartHits(defs, levels, phv.key);
    assert IsLiveState(defs, 0, live[0]);
    assert Chase(levels, 0, phv, key) == phv;
    assert SourceRun(live, 0, phv.headers, key) == ParserRun(Extracting(0), 0, phv.headers);
    EntersState(live, phv, SourceRun(live, 0, phv.headers, key), 0, key);
  }
}
