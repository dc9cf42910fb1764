/** Programs for which removing a stage changes what the pipeline does. */
module RemovalExamples {
  import opened Options
  import opened EmptyStages
  import opened StageRuns
  import opened StageNumbers
  import opened StageRemoval

  const SET := IpsaAction(0, [Assign(7, 1)])
  const NOTHING := IpsaAction(0, [])

  // ----- an action used by two entries

  /** Both entries of stage 0 run action 1; the first leads on to stage 1, which only runs action 2. */
  const SHARED := Program([LogicalStage(0, false, [(1, 1), (1, 2)], None),
                           LogicalStage(1, false, [(2, 2)], Some((2, 2))),
                           LogicalStage(2, false, [], None)],
                          map[1 := NOTHING, 2 := SET])

  const SHARED_AFTER := Program([LogicalStage(0, false, [(1, 2), (1, 2)], None),
                                 LogicalStage(1, true, [(2, 2)], Some((2, 2))),
                                 LogicalStage(2, false, [], None)],
                                map[1 := SET, 2 := SET])

  lemma {:induction false} SharedIsTaken()
    ensures Remaining(SHARED) == SHARED_AFTER
  {
    assert RemoveStages(SHARED, 1) == SHARED;
    var s0 := Progress(SHARED, false);
    var s1 := Progress(SHARED_AFTER.(stages := SHARED.stages[0 := SHARED_AFTER.stages[0]]), false);
    assert CanTake(SHARED, 0, 0, 1);
    var r := Taken(SHARED, 0, 0, 1);
    assert r.actions[1].primitives == [] + SET.primitives == SET.primitives;
    assert r.actions == s1.program.actions;
    assert r.stages[0].actionProc == [(1, 2), (1, 2)];
    assert r.stages == s1.program.stages;
    assert RedirectEntries(s0, 0, 1, 1) == s1;
    assert RedirectEntries(s0, 0, 2, 1) == s1;
    assert RedirectStages(s0, 1, 1) == s1;
    assert RedirectEntries(s1, 1, 1, 1) == s1;
    assert RedirectStages(s0, 2, 1) == s1;
    assert RedirectStages(s0, 3, 1) == s1;
    assert RemoveStages(SHARED, 2) == SHARED_AFTER;
    assert RemoveStages(SHARED, 3) == SHARED_AFTER;
  }

  const SHARED_NEW := Program([LogicalStage(0, false, [(1, 1), (1, 1)], None),
                               LogicalStage(1, true, [(2, 1)], Some((2, 2))),
                               LogicalStage(1, false, [], None)],
                              map[1 := SET, 2 := SET])

  lemma {:induction false} SharedRenumbered()
    ensures LeadsOn(SHARED_AFTER) && Reordered(SHARED_AFTER) == SHARED_NEW
  {
    var p := SHARED_AFTER;
    assert Rank(p, 1) == 1 && Rank(p, 2) == 1;
    var q := Reordered(p);
    assert q.stages[0].actionProc == SHARED_NEW.stages[0].actionProc;
    assert q.stages[1].actionProc == SHARED_NEW.stages[1].actionProc;
    assert q.stages[2].actionProc == SHARED_NEW.stages[2].actionProc;
    assert q.stages == SHARED_NEW.stages;
  }

  /** A step from stage 0 has an assignment to show. */
  lemma {:induction false} SharedStep(did: seq<Event>, i: int, k: int, rest: seq<Event>)
    requires BeginsWith(SHARED_NEW, 0, i, k, did, rest)
    ensures |did| >= 2
  {
    assert i == 0;
    assert |Events(SHARED_NEW, 0, k)| == 2;
  }

  /** The second entry led straight to stage 2; afterwards it sets the field on the way. */
  lemma {:induction false} SharedActionIsRun()
    ensures LeadsOn(Remaining(SHARED)) && Reordered(Remaining(SHARED)) == SHARED_NEW
    ensures CanRun(SHARED, 0, [Chose(0, 1)], 2)
    ensures !CanRun(SHARED_NEW, 0, [Chose(0, 1)], 1)
  {
    SharedIsTaken();
    SharedRenumbered();
    assert Events(SHARED, 0, 1) == [Chose(0, 1)];
    OneStep(SHARED, 0, 1);
    if CanRun(SHARED_NEW, 0, [Chose(0, 1)], 1) {
      var n: nat :| Runs(SHARED_NEW, 0, [Chose(0, 1)], 1, n);
      var i, k, rest := FirstStep(SHARED_NEW, 0, [Chose(0, 1)], 1, n);
      SharedStep([Chose(0, 1)], i, k, rest);
    }
  }

  // ----- a removable stage that leads back to one that is kept

  const SET_OTHER := IpsaAction(0, [Assign(8, 1)])
  const SET_BOTH := IpsaAction(0, [Assign(8, 1), Assign(7, 1)])

  /** Stage 2 leads back to stage 1, which is kept since action 11 sets the same field. */
  const BACK := Program([LogicalStage(0, false, [(10, 2), (11, 1)], None),
                         LogicalStage(1, false, [(12, 3)], Some((12, 3))),
                         LogicalStage(2, false, [(13, 1)], Some((13, 1))),
                         LogicalStage(3, false, [], None)],
                        map[10 := NOTHING, 11 := SET, 12 := SET, 13 := SET_OTHER])

  /** After stage 1 has been looked at. */
  const BACK_KEPT := Program(BACK.stages[2 := BACK.stages[2].(actionProc := [(13, 3)])],
                             BACK.actions[13 := SET_BOTH])

  const BACK_AFTER := Program([LogicalStage(0, false, [(10, 1), (11, 1)], None),
                               LogicalStage(1, false, [(12, 3)], Some((12, 3))),
                               LogicalStage(2, true, [(13, 3)], Some((13, 1))),
                               LogicalStage(3, false, [], None)],
                              map[10 := SET_BOTH, 11 := SET, 12 := SET, 13 := SET_BOTH])

  lemma {:induction false} FirstIsKept()
    ensures RemoveStages(BACK, 2) == BACK_KEPT
  {
    assert RemoveStages(BACK, 1) == BACK;
    var s0, s1, s2 := Progress(BACK, false), Progress(BACK, true), Progress(BACK_KEPT, true);
    assert Conflict(SET.primitives, SET.primitives) by {
      assert SET.primitives[0].lvalue == SET.primitives[0].lvalue;
    }
    assert RedirectEntries(s0, 0, 1, 1) == s0;
    assert RedirectEntries(s0, 0, 2, 1) == s1;
    assert RedirectStages(s0, 1, 1) == s1;
    assert RedirectEntries(s1, 1, 1, 1) == s1;
    assert RedirectStages(s0, 2, 1) == s1;
    assert CanTake(BACK, 2, 0, 1);
    var r := Taken(BACK, 2, 0, 1);
    assert r.actions[13].primitives == SET_OTHER.primitives + SET.primitives == SET_BOTH.primitives;
    assert r.actions == BACK_KEPT.actions;
    assert r.stages[2].actionProc == [(13, 3)];
    assert r.stages == BACK_KEPT.stages;
    assert RedirectEntries(s1, 2, 1, 1) == s2;
    assert RedirectStages(s0, 3, 1) == s2;
    assert RedirectStages(s0, 4, 1) == s2;
  }

  lemma {:induction false} SecondIsRemoved()
    ensures Remaining(BACK) == BACK_AFTER
  {
    FirstIsKept();
    var p := BACK_KEPT;
    var s0 := Progress(p, false);
    var s1 := Progress(BACK_AFTER.(stages := p.stages[0 := BACK_AFTER.stages[0]]), false);
    assert CanTake(p, 0, 0, 2);
    var r := Taken(p, 0, 0, 2);
    assert r.actions[10].primitives == [] + SET_BOTH.primitives == SET_BOTH.primitives;
    assert r.actions == s1.program.actions;
    assert r.stages[0].actionProc == [(10, 1), (11, 1)];
    assert r.stages == s1.program.stages;
    assert RedirectEntries(s0, 0, 1, 2) == s1;
    assert RedirectEntries(s0, 0, 2, 2) == s1;
    assert RedirectStages(s0, 1, 2) == s1;
    assert RedirectEntries(s1, 1, 1, 2) == s1;
    assert RedirectStages(s0, 2, 2) == s1;
    assert RedirectEntries(s1, 2, 1, 2) == s1;
    assert RedirectStages(s0, 3, 2) == s1;
    assert RedirectStages(s0, 4, 2) == s1;
    assert RemoveStages(BACK, 3) == BACK_AFTER;
    assert RemoveStages(BACK, 4) == BACK_AFTER;
  }

  const BACK_NEW := Program([LogicalStage(0, false, [(10, 1), (11, 1)], None),
                             LogicalStage(1, false, [(12, 2)], Some((12, 3))),
                             LogicalStage(1, true, [(13, 2)], Some((13, 1))),
                             LogicalStage(2, false, [], None)],
                            map[10 := SET_BOTH, 11 := SET, 12 := SET, 13 := SET_BOTH])

  lemma {:induction false} BackRenumbered()
    ensures LeadsOn(BACK_AFTER) && Reordered(BACK_AFTER) == BACK_NEW
  {
    var p := BACK_AFTER;
    assert Rank(p, 1) == 1 && Rank(p, 2) == 2 && Rank(p, 3) == 2;
    var q := Reordered(p);
    assert q.stages[0].actionProc == BACK_NEW.stages[0].actionProc;
    assert q.stages[1].actionProc == BACK_NEW.stages[1].actionProc;
    assert q.stages[2].actionProc == BACK_NEW.stages[2].actionProc;
    assert q.stages[3].actionProc == BACK_NEW.stages[3].actionProc;
    assert q.stages == BACK_NEW.stages;
  }

  const BOTH_SET := [Did(Assign(8, 1)), Did(Assign(7, 1))]

  lemma {:induction false} BothWereSet()
    ensures CanRun(BACK, 0, [Chose(0, 0)] + BOTH_SET, 3)
  {
    TwoSteps(BACK, 2, 0, 1);
    assert Events(BACK, 2, 0) + Events(BACK, 1, 0) == BOTH_SET;
    var m: nat :| Runs(BACK, 2, BOTH_SET, 3, m);
    assert Events(BACK, 0, 0) == [Chose(0, 0)];
    Prepend(BACK, 0, 0, 0, [Chose(0, 0)] + BOTH_SET, BOTH_SET, 3, m);
  }

  lemma {:induction false} FirstStepOfBack(did: seq<Event>, i: int, k: int, rest: seq<Event>)
    requires BeginsWith(BACK_NEW, 0, i, k, did, rest) && did == [Chose(0, 0)] + BOTH_SET
    ensures i == k == 0 && rest == []
  {
    assert i == 0;
    assert Events(BACK_NEW, 0, k)[0] == Chose(0, k) == did[0];
    assert |Events(BACK_NEW, 0, 0)| == 3;
  }

  lemma {:induction false} SecondStepOfBack(i: int, k: int, rest: seq<Event>)
    ensures !BeginsWith(BACK_NEW, 1, i, k, [], rest)
  {
    if IsStep(BACK_NEW, 1, i, k) {
      assert i == 1 && k == 0;
      assert |Events(BACK_NEW, 1, 0)| == 1;
    }
  }

  /** Both fields were set once on the way to stage 3; afterwards one is set twice. */
  lemma {:induction false} FieldIsSetTwice()
    ensures LeadsOn(Remaining(BACK)) && Reordered(Remaining(BACK)) == BACK_NEW
    ensures CanRun(BACK, 0, [Chose(0, 0)] + BOTH_SET, 3)
    ensures !CanRun(BACK_NEW, 0, [Chose(0, 0)] + BOTH_SET, 2)
  {
    SecondIsRemoved();
    BackRenumbered();
    BothWereSet();
    var did := [Chose(0, 0)] + BOTH_SET;
    if CanRun(BACK_NEW, 0, did, 2) {
      var n: nat :| Runs(BACK_NEW, 0, did, 2, n);
      var i, k, rest := FirstStep(BACK_NEW, 0, did, 2, n);
      FirstStepOfBack(did, i, k, rest);
      var i2, k2, rest2 := FirstStep(BACK_NEW, 1, [], 2, n - 1);
      SecondStepOfBack(i2, k2, rest2);
    }
  }

  // ----- runs of the removal

  method RemoveShared() returns (manager: IpsaProcessorManager)
    ensures manager.Now() == SHARED_NEW
  {
    manager := new IpsaProcessorManager(SHARED);
    SharedActionIsRun();
    LoadedPrograms();
    manager.InitializeStages();
  }

  method RemoveBack() returns (manager: IpsaProcessorManager)
    ensures manager.Now() == BACK_NEW
  {
    manager := new IpsaProcessorManager(BACK);
    FieldIsSetTwice();
    LoadedPrograms();
    manager.InitializeStages();
  }

  /** Stage 1 only runs action 2, which takes a parameter. */
  const WITH_PARAMETER := Program([LogicalStage(0, false, [(1, 1)], None),
                                   LogicalStage(1, false, [(2, 2)], Some((2, 2))),
                                   LogicalStage(2, false, [], None)],
                                  map[1 := NOTHING, 2 := IpsaAction(1, [Assign(7, 1)])])

  lemma {:induction false} LoadedPrograms()
    ensures Loaded(SHARED) && Loaded(BACK) && Loaded(WITH_PARAMETER)
  {
  }

  lemma {:induction false} ParameterRemains()
    ensures Remaining(WITH_PARAMETER) == WITH_PARAMETER
    ensures LeadsOn(WITH_PARAMETER) && Reordered(WITH_PARAMETER) == WITH_PARAMETER
  {
    var p := WITH_PARAMETER;
    assert RemoveStages(p, 1) == p;
    assert RemoveStages(p, 2) == p;
    assert RemoveStages(p, 3) == p;
    assert Rank(p, 1) == 1 && Rank(p, 2) == 2;
    var q := Reordered(p);
    assert q.stages[0].actionProc == p.stages[0].actionProc;
    assert q.stages[1].actionProc == p.stages[1].actionProc;
    assert q.stages[2].actionProc == p.stages[2].actionProc;
    assert q.stages == p.stages;
  }

  /** Nothing is removed, and nothing changes. */
  method KeepParameter() returns (manager: IpsaProcessorManager)
    ensures manager.Now() == WITH_PARAMETER
  {
    manager := new IpsaProcessorManager(WITH_PARAMETER);
    ParameterRemains();
    LoadedPrograms();
    manager.InitializeStages();
  }
}
