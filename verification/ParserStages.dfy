/** sw-src/dataplane/parser.h: a parser stage stores one level in 256 slots, each entry in the slot that its state
    and key add up to, and searches the slots in order. */
module ParserStages {
  import opened Options
  import opened ParserTables
  import opened Powers

  const SLOTS: nat := 256
  const ALL_ONES: Word := 0xFFFF_FFFF
  const MAX_FIELDS: nat := 4

  /** The sum of the lowest `n` bytes. */
  function ByteSum(x: nat, n: nat): nat {
    if n == 0 then 0 else x % 256 + ByteSum(x / 256, n - 1)
  }

  /** Where an entry is stored: the default entry of a state counts from behind. */
  function SlotOf(t: TcamEntry): (k: nat)
    ensures k < SLOTS
  {
    if t.entry == 0 && t.mask == 0 then (255 - t.currentState) % SLOTS
    else (t.currentState + ByteSum(t.entry, 4)) % SLOTS
  }

  /** The entry is no default, and its key has these bytes. */
  predicate IsKey(t: TcamEntry, b3: nat, b2: nat, b1: nat, b0: nat) {
    && (t.entry != 0 || t.mask != 0) && b3 < 256 && b2 < 256 && b1 < 256 && b0 < 256
    && t.entry == b3 * 0x100_0000 + b2 * 0x1_0000 + b1 * 0x100 + b0
  }

  lemma {:induction false} SlotIsSum(t: TcamEntry, b3: nat, b2: nat, b1: nat, b0: nat)
    requires IsKey(t, b3, b2, b1, b0)
    ensures SlotOf(t) == (t.currentState + b3 + b2 + b1 + b0) % 256
  {
    OneByteMore(b3 * 0x1_0000 + b2 * 0x100 + b1, b0, 4);
    OneByteMore(b3 * 0x100 + b2, b1, 3);
    OneByteMore(b3, b2, 2);
    OneByteMore(0, b3, 1);
  }

  lemma {:induction false} OneByteMore(x: nat, b: nat, n: nat)
    requires b < 256 && n > 0
    ensures ByteSum(x * 256 + b, n) == b + ByteSum(x, n - 1)
  {
  }

  /** What is left of an entry in eight bits a number. */
  function Narrow(e: LevelEntry): LevelEntry {
    LevelEntry(e.tcam.(currentState := e.tcam.currentState % 256),
               SramEntry(e.sram.headerId % 256, e.sram.headerLength % 256, e.sram.nextState % 256,
                         e.sram.transition, e.sram.acceptDrop % 256))
  }

  predicate IsByte(x: int) {
    0 <= x < 256
  }

  predicate FitsBytes(e: LevelEntry) {
    && IsByte(e.tcam.currentState) && IsByte(e.sram.headerId) && IsByte(e.sram.headerLength)
    && IsByte(e.sram.nextState) && IsByte(e.sram.acceptDrop)
  }

  /** An entry is stored as it is exactly if its numbers are bytes. */
  lemma {:induction false} NarrowKeeps(e: LevelEntry)
    ensures Narrow(e) == e <==> FitsBytes(e)
  {
  }

  /** No entry was stored here; it is searched all the same. */
  predicate Blank(e: LevelEntry) {
    e.tcam == TcamEntry(0, ALL_ONES, ALL_ONES)
  }

  ghost predicate Empty(slots: Level) {
    |slots| == SLOTS && forall k :: 0 <= k < SLOTS ==> Blank(slots[k])
  }

  function Put(slots: Level, e: LevelEntry): Level
    requires |slots| == SLOTS
  {
    slots[SlotOf(Narrow(e).tcam) := Narrow(e)]
  }

  /** The entries of a level stored one after the other. */
  function Install(slots: Level, level: Level): (r: Level)
    requires |slots| == SLOTS
    ensures |r| == SLOTS
  {
    if level == [] then slots else Put(Install(slots, level[..|level| - 1]), level[|level| - 1])
  }

  // ----- the stage

  class ParserStage {
    const psTransTbl: array<TcamEntry>
    const psActTbl: array<SramEntry>

    ghost predicate Valid() {
      psTransTbl.Length == psActTbl.Length == SLOTS
    }

    ghost function Slots(): (r: Level)
      reads psTransTbl, psActTbl
      requires Valid()
      ensures |r| == SLOTS
    {
      seq(SLOTS, k requires 0 <= k < SLOTS && Valid() reads psTransTbl, psActTbl =>
        LevelEntry(psTransTbl[k], psActTbl[k]))
    }

    constructor ()
      ensures Valid() && fresh(psTransTbl) && fresh(psActTbl) && Empty(Slots())
    {
      psTransTbl := new TcamEntry[SLOTS](_ => TcamEntry(0, ALL_ONES, ALL_ONES));
      psActTbl := new SramEntry[SLOTS](_ => SramEntry(0, 0, 0, [], 0));
    }

    /** The entry is in slot `k`, its numbers cut to eight bits. */
    ghost predicate StoredAt(e: LevelEntry, k: int)
      reads psTransTbl, psActTbl
    {
      && 0 <= k < psTransTbl.Length && k < psActTbl.Length
      && psTransTbl[k] == TcamEntry(e.tcam.currentState % 256, e.tcam.entry, e.tcam.mask)
      && psActTbl[k] == SramEntry(e.sram.headerId % 256, e.sram.headerLength % 256, e.sram.nextState % 256,
                                  e.sram.transition, e.sram.acceptDrop % 256)
    }

    /** It is where its state and the four bytes of its key add up to, modulo 256. */
    ghost predicate StoredAtSum(e: LevelEntry, b3: nat, b2: nat, b1: nat, b0: nat)
      reads psTransTbl, psActTbl
    {
      StoredAt(e, (e.tcam.currentState % 256 + b3 + b2 + b1 + b0) % 256)
    }

    /** `idx` as the loop over the bytes of the key leaves it. */
    static method IndexOf(t: TcamEntry) returns (idx: nat)
      requires IsByte(t.currentState)
      ensures idx == SlotOf(t)
    {
      idx := t.currentState;
      var flag := false;
      var entry: nat, mask: nat := t.entry, t.mask;
      ghost var sum: nat := t.currentState;
      for i := 0 to 4
        invariant idx == sum % SLOTS && sum + ByteSum(entry, 4 - i) == t.currentState + ByteSum(t.entry, 4)
        invariant (t.entry == 0 ==> entry == 0) && (t.mask == 0 ==> mask == 0)
        invariant i == 0 ==> entry == t.entry && mask == t.mask
        invariant flag <==> i > 0 && (t.entry != 0 || t.mask != 0)
      {
        AddToByte(sum, entry % 256);
        idx, sum := (idx + entry % 256) % SLOTS, sum + entry % 256;
        if entry != 0 || mask != 0 {
          flag := true;
        }
        entry, mask := entry / 256, mask / 256;
      }
      if !flag {
        idx := 255 - t.currentState;
      }
    }

    /** Stores an entry over whatever was in its slot. There is room for four fields to select on. */
    method ModifyTransEntry(e: LevelEntry)
      requires Valid() && |e.sram.transition| <= MAX_FIELDS
      modifies psTransTbl, psActTbl
      ensures Slots() == Put(old(Slots()), e)
      ensures forall b3, b2, b1, b0 :: IsKey(e.tcam, b3, b2, b1, b0) ==> StoredAtSum(e, b3, b2, b1, b0)
      ensures e.tcam.entry == 0 && e.tcam.mask == 0 ==> StoredAt(e, 255 - e.tcam.currentState % 256)
    {
      var stored := Narrow(e);
      forall b3, b2, b1, b0 | IsKey(e.tcam, b3, b2, b1, b0)
        ensures SlotOf(stored.tcam) == (e.tcam.currentState % 256 + b3 + b2 + b1 + b0) % 256
      {
        SlotIsSum(stored.tcam, b3, b2, b1, b0);
      }
      var idx := IndexOf(stored.tcam);
      psTransTbl[idx] := stored.tcam;
      psActTbl[idx] := stored.sram;
    }

    /** The index of the first slot that hits, or -1. */
    method Search(state: int, key: Word) returns (index: int)
      requires Valid()
      ensures -1 <= index < SLOTS
      ensures index == -1 ==> FirstHit(Slots(), state, key).None?
      ensures index >= 0 ==> FirstHit(Slots(), state, key) == Some(Slots()[index])
    {
      index := -1;
      var i := 0;
      while i < SLOTS && index == -1
        invariant 0 <= i <= SLOTS && -1 <= index < SLOTS
        invariant index == -1 ==> forall k :: 0 <= k < i ==> !Hits(Slots()[k], state, key)
        invariant index >= 0 ==> IsFirstHit(Slots(), state, key, index)
        decreases SLOTS - i, index == -1
      {
        if psTransTbl[i].currentState == state && psTransTbl[i].entry == BitAnd(key, psTransTbl[i].mask) {
          index := i;
        } else {
          i := i + 1;
        }
      }
      if index == -1 {
        NoneHits(Slots(), state, key);
      } else {
        FirstHitAt(Slots(), state, key, index);
      }
    }

    /** One stage applied to a packet. */
    method Parse(phv: Phv, key: KeyReader) returns (r: Phv)
      requires Valid()
      ensures r == RunLevel(Slots(), phv, key)
    {
      if phv.dropped {
        return phv;
      }
      var index := Search(phv.state, phv.key);
      if index == -1 {
        r := if phv.missAct == 1 then phv.(dropped := true) else phv;
      } else {
        r := Fire(phv, psActTbl[index], key);
      }
    }
  }

  lemma {:induction false} AddToByte(x: nat, y: nat)
    ensures (x % 256 + y) % 256 == (x + y) % 256
  {
  }

  // ----- searching

  ghost predicate IsFirstHit(level: Level, state: int, key: Word, i: nat) {
    && i < |level| && Hits(level[i], state, key)
    && forall k :: 0 <= k < i ==> !Hits(level[k], state, key)
  }

  lemma {:induction false} NoneHits(level: Level, state: int, key: Word)
    requires forall k :: 0 <= k < |level| ==> !Hits(level[k], state, key)
    ensures FirstHit(level, state, key).None?
  {
    if level != [] {
      NoneHits(level[1..], state, key);
    }
  }

  lemma {:induction false} FirstHitAt(level: Level, state: int, key: Word, i: nat)
    requires IsFirstHit(level, state, key, i)
    ensures FirstHit(level, state, key) == Some(level[i])
  {
    if i > 0 {
      FirstHitAt(level[1..], state, key, i - 1);
    }
  }

  // ----- what a stored level does

  /** No slot is used twice, and of two entries that one packet can hit, the one in front has the lower slot. */
  ghost predicate OrderKept(level: Level) {
    forall i, j :: 0 <= i < j < |level| ==>
      && SlotOf(level[i].tcam) != SlotOf(level[j].tcam)
      && (BothHit(level[i], level[j]) ==> SlotOf(level[i].tcam) < SlotOf(level[j].tcam))
  }

  ghost predicate BothHit(e: LevelEntry, f: LevelEntry) {
    exists v: Word :: Hits(e, e.tcam.currentState, v) && Hits(f, e.tcam.currentState, v)
  }

  ghost predicate AllFit(level: Level) {
    forall e :: e in level ==> FitsBytes(e)
  }

  ghost predicate OwnSlots(level: Level) {
    forall i, j :: 0 <= i < j < |level| ==> SlotOf(level[i].tcam) != SlotOf(level[j].tcam)
  }

  /** What slot `k` holds is the last entry stored there, or it is blank. */
  lemma {:induction false} SlotHolds(slots: Level, level: Level, k: nat) returns (i: int)
    requires Empty(slots) && AllFit(level) && k < SLOTS
    ensures -1 <= i < |level|
    ensures i == -1 ==> Install(slots, level)[k] == slots[k]
    ensures i >= 0 ==> Install(slots, level)[k] == level[i] && SlotOf(level[i].tcam) == k
    ensures forall j :: i < j < |level| ==> SlotOf(level[j].tcam) != k
  {
    i := -1;
    if level != [] {
      var front, e := level[..|level| - 1], level[|level| - 1];
      assert e in level;
      NarrowKeeps(e);
      if SlotOf(e.tcam) == k {
        i := |level| - 1;
      } else {
        assert forall x :: x in front ==> x in level;
        i := SlotHolds(slots, front, k);
      }
    }
  }

  lemma {:induction false} StoredAt(slots: Level, level: Level, i: nat)
    requires Empty(slots) && AllFit(level) && i < |level|
    requires forall j :: i < j < |level| ==> SlotOf(level[j].tcam) != SlotOf(level[i].tcam)
    ensures Install(slots, level)[SlotOf(level[i].tcam)] == level[i]
  {
    var k := SlotHolds(slots, level, SlotOf(level[i].tcam));
    assert k == i;
  }

  lemma {:induction false} FirstOf(level: Level, state: int, key: Word) returns (i: nat)
    requires FirstHit(level, state, key).Some?
    ensures IsFirstHit(level, state, key, i) && FirstHit(level, state, key) == Some(level[i])
  {
    if Hits(level[0], state, key) {
      i := 0;
    } else {
      var k := FirstOf(level[1..], state, key);
      i := k + 1;
    }
  }

  lemma {:induction false} NoneOf(level: Level, state: int, key: Word)
    requires FirstHit(level, state, key).None?
    ensures forall k :: 0 <= k < |level| ==> !Hits(level[k], state, key)
  {
    if level != [] {
      NoneOf(level[1..], state, key);
      forall k | 0 <= k < |level|
        ensures !Hits(level[k], state, key)
      {
        assert k > 0 ==> level[k] == level[1..][k - 1];
      }
    }
  }

  /** A blank slot hits a packet in state 0 whose key is all ones, and no other. */
  lemma {:induction false} BlankHits(e: LevelEntry, state: int, key: Word)
    requires Blank(e)
    ensures Hits(e, state, key) <==> state == 0 && key == ALL_ONES
  {
    WordSize();
    AllOnes(key, 32);
  }

  lemma {:induction false} AllOnes(x: nat, n: nat)
    requires x < Pow2(n)
    ensures BitAnd(x, Pow2(n) - 1) == x
  {
    if n > 0 && x > 0 {
      AllOnes(x / 2, n - 1);
      assert (Pow2(n) - 1) / 2 == Pow2(n - 1) - 1 && (Pow2(n) - 1) % 2 == 1;
    }
  }

  /** A slot that stays blank in front of all entries that hit a word of ones in state 0. */
  ghost predicate BlankBefore(level: Level, k: nat) {
    && k < SLOTS
    && forall e :: e in level ==> SlotOf(e.tcam) != k && (Hits(e, 0, ALL_ONES) ==> k < SlotOf(e.tcam))
  }

  /** A search in this state for this word comes to a blank slot first. */
  ghost predicate FindsBlank(level: Level, state: int, key: Word) {
    state == 0 && key == ALL_ONES && exists k :: BlankBefore(level, k)
  }

  /** A slot in front of the first hit's does not hit. */
  lemma {:induction false} NotInFront(slots: Level, level: Level, state: int, key: Word, i: nat, k: nat)
    requires Empty(slots) && AllFit(level) && OrderKept(level) && !FindsBlank(level, state, key)
    requires IsFirstHit(level, state, key, i) && k < SlotOf(level[i].tcam)
    ensures !Hits(Install(slots, level)[k], state, key)
  {
    var j := SlotHolds(slots, level, k);
    if j == -1 {
      BlankHits(slots[k], state, key);
      if state == 0 && key == ALL_ONES {
        BlankInFront(level, i, k);
      }
    } else if Hits(level[j], state, key) {
      assert i < j;
      assert Hits(level[i], level[i].tcam.currentState, key) && Hits(level[j], level[i].tcam.currentState, key);
      assert BothHit(level[i], level[j]);
    }
  }

  lemma {:induction false} BlankInFront(level: Level, i: nat, k: nat)
    requires OrderKept(level) && IsFirstHit(level, 0, ALL_ONES, i) && k < SlotOf(level[i].tcam)
    requires forall j :: 0 <= j < |level| ==> SlotOf(level[j].tcam) != k
    ensures BlankBefore(level, k)
  {
    forall e | e in level
      ensures SlotOf(e.tcam) != k && (Hits(e, 0, ALL_ONES) ==> k < SlotOf(e.tcam))
    {
      var j :| 0 <= j < |level| && level[j] == e;
      if Hits(e, 0, ALL_ONES) && i < j {
        assert Hits(level[i], level[i].tcam.currentState, ALL_ONES);
        assert BothHit(level[i], level[j]);
      }
    }
  }

  /** Stored so, a level finds what it would find in its own order. */
  lemma {:induction false} StoredFindsFirst(slots: Level, level: Level, state: int, key: Word)
    requires Empty(slots) && AllFit(level) && OrderKept(level) && !FindsBlank(level, state, key)
    ensures FirstHit(Install(slots, level), state, key) == FirstHit(level, state, key)
  {
    var stored := Install(slots, level);
    if FirstHit(level, state, key).Some? {
      var i := FirstOf(level, state, key);
      StoredAt(slots, level, i);
      forall k | 0 <= k < SlotOf(level[i].tcam)
        ensures !Hits(stored[k], state, key)
      {
        NotInFront(slots, level, state, key, i, k);
      }
      FirstHitAt(stored, state, key, SlotOf(level[i].tcam));
    } else {
      NoneOf(level, state, key);
      forall k | 0 <= k < |stored|
        ensures !Hits(stored[k], state, key)
      {
        var j := SlotHolds(slots, level, k);
        BlankHits(slots[k], state, key);
        assert j == -1 && state == 0 && key == ALL_ONES ==> BlankBefore(level, k);
      }
      NoneHits(stored, state, key);
    }
  }

  // ----- exactly when

  ghost predicate FindsFirst(slots: Level, level: Level, state: int)
    requires |slots| == SLOTS
  {
    forall key: Word :: FirstHit(Install(slots, level), state, key) == FirstHit(level, state, key)
  }

  /** No entry behind is stored over this one. */
  ghost predicate LastInSlot(level: Level, i: int) {
    0 <= i < |level| && forall j :: i < j < |level| ==> SlotOf(level[j].tcam) != SlotOf(level[i].tcam)
  }

  /** An entry like this one is left in its slot. */
  ghost predicate Survives(level: Level, i: nat)
    requires i < |level|
  {
    exists m :: i <= m < |level| && LastInSlot(level, m) && level[m] == level[i]
  }

  /** If the word finds this entry first, the entry is left, and no entry left in a lower slot hits the word. */
  ghost predicate KeepsFirst(level: Level, state: int, v: Word, i: nat)
    requires i < |level|
  {
    IsFirstHit(level, state, v, i) ==>
      && Survives(level, i)
      && forall j :: LastInSlot(level, j) && Hits(level[j], state, v) ==> SlotOf(level[i].tcam) <= SlotOf(level[j].tcam)
  }

  lemma {:induction false} FindsFirstKeeps(slots: Level, level: Level, state: int, v: Word, i: nat)
    requires Empty(slots) && AllFit(level) && state != 0 && FindsFirst(slots, level, state) && i < |level|
    ensures KeepsFirst(level, state, v, i)
  {
    if IsFirstHit(level, state, v, i) {
      var stored := Install(slots, level);
      FirstHitAt(level, state, v, i);
      var m := FirstOf(stored, state, v);
      var k := SlotHolds(slots, level, m);
      BlankHits(slots[m], state, v);
      assert LastInSlot(level, k) && level[k] == level[i];
      forall j | LastInSlot(level, j) && Hits(level[j], state, v)
        ensures SlotOf(level[i].tcam) <= SlotOf(level[j].tcam)
      {
        StoredAt(slots, level, j);
      }
    }
  }

  lemma {:induction false} KeptIsFound(slots: Level, level: Level, state: int, v: Word, i: nat)
    requires Empty(slots) && AllFit(level) && state != 0
    requires IsFirstHit(level, state, v, i) && KeepsFirst(level, state, v, i)
    ensures FirstHit(Install(slots, level), state, v) == Some(level[i])
  {
    var stored, k := Install(slots, level), SlotOf(level[i].tcam);
    var m :| i <= m < |level| && LastInSlot(level, m) && level[m] == level[i];
    StoredAt(slots, level, m);
    forall n | 0 <= n < k
      ensures !Hits(stored[n], state, v)
    {
      var j := SlotHolds(slots, level, n);
      BlankHits(slots[n], state, v);
      assert j >= 0 ==> LastInSlot(level, j);
    }
    FirstHitAt(stored, state, v, k);
  }

  lemma {:induction false} NothingIsFound(slots: Level, level: Level, state: int, v: Word)
    requires Empty(slots) && AllFit(level) && state != 0 && FirstHit(level, state, v).None?
    ensures FirstHit(Install(slots, level), state, v).None?
  {
    NoneOf(level, state, v);
    forall n | 0 <= n < SLOTS
      ensures !Hits(Install(slots, level)[n], state, v)
    {
      var j := SlotHolds(slots, level, n);
      BlankHits(slots[n], state, v);
    }
    NoneHits(Install(slots, level), state, v);
  }

  /** For every state but the first, whatever the keys: the stored level finds for every word what the level finds
      exactly if each entry that is first for a word is left in its slot and in front of all others left that hit
      the word. */
  lemma {:induction false} StoredFindsFirstIff(slots: Level, level: Level, state: int)
    requires Empty(slots) && AllFit(level) && state != 0
    ensures FindsFirst(slots, level, state) <==>
            forall v: Word, i :: 0 <= i < |level| ==> KeepsFirst(level, state, v, i)
  {
    if FindsFirst(slots, level, state) {
      forall v: Word, i | 0 <= i < |level|
        ensures KeepsFirst(level, state, v, i)
      {
        FindsFirstKeeps(slots, level, state, v, i);
      }
    } else {
      var v: Word :| FirstHit(Install(slots, level), state, v) != FirstHit(level, state, v);
      if FirstHit(level, state, v).Some? {
        var i := FirstOf(level, state, v);
        if KeepsFirst(level, state, v, i) {
          KeptIsFound(slots, level, state, v, i);
        }
      } else {
        NothingIsFound(slots, level, state, v);
      }
    }
  }

  /** In state 0 there is only the default entry, behind blank slots, and it is found by all words but one. */
  lemma {:induction false} StartFindsIff(slots: Level, e: LevelEntry, key: Word)
    requires Empty(slots) && FitsBytes(e) && e.tcam == TcamEntry(0, 0, 0)
    ensures FirstHit(Install(slots, [e]), 0, key) == FirstHit([e], 0, key) <==> key != ALL_ONES
  {
    var stored := Install(slots, [e]);
    DefaultHits(e, 0, key);
    NarrowKeeps(e);
    assert Install(slots, []) == slots && [e][..0] == [];
    assert stored == slots[255 := e];
    BlankHits(slots[0], 0, key);
    if key == ALL_ONES {
      FirstHitAt(stored, 0, key, 0);
    } else {
      forall k | 0 <= k < 255
        ensures !Hits(stored[k], 0, key)
      {
        BlankHits(slots[k], 0, key);
      }
      FirstHitAt(stored, 0, key, 255);
    }
  }

  /** A first header of 40 bytes: stored, its entry moves the parser on by 8. */
  lemma {:induction false} LongHeaderIsCut(slots: Level, e: LevelEntry, phv: Phv, key: KeyReader)
    requires Empty(slots) && e.tcam == TcamEntry(0, 0, 0) && e.sram == SramEntry(1, 320, 1, [], 2)
    requires IsStart(phv) && phv.key != ALL_ONES
    ensures RunLevel([e], phv, key).offset == 320 && RunLevel(Install(slots, [e]), phv, key).offset == 64
  {
    var cut := Narrow(e);
    StoreOne(slots, e);
    StoreOne(slots, cut);
    assert Narrow(cut) == cut && FitsBytes(cut) && cut.tcam == e.tcam;
    StartFindsIff(slots, cut, phv.key);
    FirstOfOne(e, phv.key);
    FirstOfOne(cut, phv.key);
  }

  lemma {:induction false} StoreOne(slots: Level, e: LevelEntry)
    requires |slots| == SLOTS
    ensures Install(slots, [e]) == Put(slots, e)
  {
    assert [e][..0] == [];
  }

  lemma {:induction false} FirstOfOne(e: LevelEntry, key: Word)
    requires e.tcam == TcamEntry(0, 0, 0)
    ensures FirstHit([e], 0, key) == Some(e)
  {
    DefaultHits(e, 0, key);
  }

  // ----- for levels that match whole words

  predicate IsExact(e: LevelEntry) {
    e.tcam.mask == ALL_ONES
  }

  predicate IsDefault(e: LevelEntry) {
    e.tcam.entry == 0 && e.tcam.mask == 0
  }

  /** The level of one state: different words, and maybe a default behind them. */
  ghost predicate WholeWords(level: Level, state: int) {
    && (forall e :: e in level ==> e.tcam.currentState == state)
    && (forall i :: 0 <= i < |level| ==> IsExact(level[i]) || (IsDefault(level[i]) && i == |level| - 1))
    && (forall i, j :: 0 <= i < j < |level| && IsExact(level[i]) && IsExact(level[j]) ==>
          level[i].tcam.entry != level[j].tcam.entry)
  }

  ghost predicate DefaultBehind(level: Level) {
    forall i, j :: 0 <= i < j < |level| && IsDefault(level[j]) ==> SlotOf(level[i].tcam) < SlotOf(level[j].tcam)
  }

  lemma {:induction false} ExactHits(e: LevelEntry, key: Word)
    requires IsExact(e)
    ensures Hits(e, e.tcam.currentState, key) <==> e.tcam.entry == key
  {
    WordSize();
    AllOnes(key, 32);
  }

  lemma {:induction false} WholeWordsInOrder(level: Level, state: int)
    requires WholeWords(level, state) && OwnSlots(level) && DefaultBehind(level)
    ensures OrderKept(level)
  {
    forall i, j | 0 <= i < j < |level| && BothHit(level[i], level[j])
      ensures SlotOf(level[i].tcam) < SlotOf(level[j].tcam)
    {
      assert level[i] in level && level[j] in level;
      var v: Word :| Hits(level[i], state, v) && Hits(level[j], state, v);
      ExactHits(level[i], v);
      if IsExact(level[j]) {
        ExactHits(level[j], v);
      }
    }
  }

  /** The entry of a whole word is what its word finds, and a slot in front that hits the word spoils it. */
  lemma {:induction false} WordFindsEntry(slots: Level, level: Level, state: int, i: nat)
    requires Empty(slots) && AllFit(level) && WholeWords(level, state) && FindsFirst(slots, level, state)
    requires i < |level| && IsExact(level[i])
    ensures FirstHit(Install(slots, level), state, level[i].tcam.entry) == Some(level[i])
  {
    var v := level[i].tcam.entry;
    assert level[i] in level;
    ExactHits(level[i], v);
    forall k | 0 <= k < i
      ensures !Hits(level[k], state, v)
    {
      assert level[k] in level;
      ExactHits(level[k], v);
    }
    FirstHitAt(level, state, v, i);
  }

  lemma {:induction false} FindsFirstHasOwnSlots(slots: Level, level: Level, state: int, i: nat, j: nat)
    requires Empty(slots) && AllFit(level) && WholeWords(level, state) && FindsFirst(slots, level, state)
    requires i < j < |level| && state != 0
    ensures SlotOf(level[i].tcam) != SlotOf(level[j].tcam)
  {
    var k := SlotOfWord(slots, level, state, i);
  }

  /** The slot where a word is found is the slot of its entry, and no later entry has it. */
  lemma {:induction false} SlotOfWord(slots: Level, level: Level, state: int, i: nat) returns (m: nat)
    requires Empty(slots) && AllFit(level) && WholeWords(level, state) && FindsFirst(slots, level, state)
    requires i < |level| && IsExact(level[i]) && state != 0
    ensures m == SlotOf(level[i].tcam) && IsFirstHit(Install(slots, level), state, level[i].tcam.entry, m)
    ensures forall j :: i < j < |level| ==> SlotOf(level[j].tcam) != m
  {
    WordFindsEntry(slots, level, state, i);
    m := FirstOf(Install(slots, level), state, level[i].tcam.entry);
    var k := SlotHolds(slots, level, m);
    assert level[i] in level && Blank(slots[m]);
    SameEntry(level, state, i, k);
  }

  lemma {:induction false} SameEntry(level: Level, state: int, i: nat, k: nat)
    requires WholeWords(level, state) && i < |level| && k < |level| && level[i] == level[k] && IsExact(level[i])
    ensures i == k
  {
  }

  lemma {:induction false} FindsFirstHasDefaultBehind(slots: Level, level: Level, state: int, i: nat, j: nat)
    requires Empty(slots) && AllFit(level) && WholeWords(level, state) && FindsFirst(slots, level, state)
    requires i < j < |level| && IsDefault(level[j]) && state != 0
    ensures SlotOf(level[i].tcam) <= SlotOf(level[j].tcam)
  {
    assert level[j] in level;
    StoredAt(slots, level, j);
    var m := SlotOfWord(slots, level, state, i);
    DefaultHits(level[j], state, level[i].tcam.entry);
  }

  lemma {:induction false} DefaultHits(e: LevelEntry, state: int, v: Word)
    requires IsDefault(e) && e.tcam.currentState == state
    ensures Hits(e, state, v)
  {
    NothingMasked(v);
  }

  /** For a state but the first: the stored level finds for every word what the level finds exactly if no two entries
      share a slot and the default has the highest. */
  lemma {:induction false} WholeWordsFindFirstIff(slots: Level, level: Level, state: int)
    requires Empty(slots) && AllFit(level) && WholeWords(level, state) && state != 0
    ensures FindsFirst(slots, level, state) <==> OwnSlots(level) && DefaultBehind(level)
  {
    if OwnSlots(level) && DefaultBehind(level) {
      WholeWordsInOrder(level, state);
      forall key: Word
        ensures FirstHit(Install(slots, level), state, key) == FirstHit(level, state, key)
      {
        StoredFindsFirst(slots, level, state, key);
      }
    } else if FindsFirst(slots, level, state) {
      forall i, j | 0 <= i < j < |level|
        ensures SlotOf(level[i].tcam) != SlotOf(level[j].tcam)
      {
        FindsFirstHasOwnSlots(slots, level, state, i, j);
      }
      forall i, j | 0 <= i < j < |level| && IsDefault(level[j])
        ensures SlotOf(level[i].tcam) < SlotOf(level[j].tcam)
      {
        FindsFirstHasDefaultBehind(slots, level, state, i, j);
      }
    }
  }

  /** Key 254 of state 1 is stored behind the default of its state, which is found instead. */
  lemma {:induction false} DefaultInFront(slots: Level, s: SramEntry, d: SramEntry)
    requires Empty(slots)
    requires FitsBytes(LevelEntry(TcamEntry(1, 254, ALL_ONES), s)) && FitsBytes(LevelEntry(TcamEntry(1, 0, 0), d))
    ensures !FindsFirst(slots, [LevelEntry(TcamEntry(1, 254, ALL_ONES), s), LevelEntry(TcamEntry(1, 0, 0), d)], 1)
  {
    var level := [LevelEntry(TcamEntry(1, 254, ALL_ONES), s), LevelEntry(TcamEntry(1, 0, 0), d)];
    assert ByteSum(254, 4) == 254;
    assert SlotOf(level[0].tcam) == 255 && SlotOf(level[1].tcam) == 254;
    WholeWordsFindFirstIff(slots, level, 1);
  }

  /** Keys with the same bytes in another order are stored over each other. */
  lemma {:induction false} SameBytesCollide(slots: Level, s: SramEntry, t: SramEntry)
    requires Empty(slots)
    requires FitsBytes(LevelEntry(TcamEntry(1, 0x0800, ALL_ONES), s))
    requires FitsBytes(LevelEntry(TcamEntry(1, 0x0008, ALL_ONES), t))
    ensures !FindsFirst(slots, [LevelEntry(TcamEntry(1, 0x0800, ALL_ONES), s),
                                LevelEntry(TcamEntry(1, 0x0008, ALL_ONES), t)], 1)
  {
    var level := [LevelEntry(TcamEntry(1, 0x0800, ALL_ONES), s), LevelEntry(TcamEntry(1, 0x0008, ALL_ONES), t)];
    assert ByteSum(0x0008, 4) == 8 && ByteSum(0x0800, 4) == 8;
    assert SlotOf(level[0].tcam) == SlotOf(level[1].tcam);
    WholeWordsFindFirstIff(slots, level, 1);
  }
}
