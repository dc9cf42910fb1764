/** Logical stages after empty ones have been removed. */
module Stages {

  /** The headers its parser block declares (by id), its (action, next stage) pairs, with -1 for leaving
      the pipeline, and the tables it matches, possibly listed more than once. */
  datatype Stage = Stage(id: int, removed: bool, headers: seq<int>, actionProc: seq<(int, int)>, tableIds: seq<int>)

  ghost predicate KeptId(stages: seq<Stage>, p: int) {
    exists i :: 0 <= i < |stages| && !stages[i].removed && stages[i].id == p
  }

  ghost predicate DistinctIds(stages: seq<Stage>) {
    forall i, j :: 0 <= i < j < |stages| && !stages[i].removed && !stages[j].removed ==>
      stages[i].id != stages[j].id
  }

  lemma {:induction false} KeptIdLast(stages: seq<Stage>, p: int)
    requires stages != []
    ensures var n := |stages| - 1;
      KeptId(stages, p) <==> KeptId(stages[..n], p) || (!stages[n].removed && stages[n].id == p)
  {
    var n := |stages| - 1;
    if KeptId(stages[..n], p) {
      var i :| 0 <= i < n && !stages[..n][i].removed && stages[..n][i].id == p;
      assert stages[i].id == p;
    }
    if KeptId(stages, p) {
      var i :| 0 <= i < |stages| && !stages[i].removed && stages[i].id == p;
      if i < n {
        assert stages[..n][i] == stages[i];
      }
    }
  }
}
